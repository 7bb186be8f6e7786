/**
 * The per-session choice on the sessions page, and how it agrees with the
 * reserve handler's admission decision.
 */
module Listing {
  import opened Records
  import opened Users
  import opened Ledger

  /** "(reserved)" for a session the user holds a seat in; otherwise a
      Reserve link for a verified user; otherwise nothing. */
  function Mark(reserved: bool, verified: bool): Affordance {
    if reserved then ReservedMark else if verified then ReserveLink else NoLink
  }

  /** An unverified user is never offered a Reserve link. */
  lemma UnverifiedSeesNoLink(reserved: bool)
    ensures Mark(reserved, false) != ReserveLink
  {
  }

  /** A Reserve link leads to a request that is admitted or answered "full". */
  lemma LinkLeadsToAdmitOrFull(sessions: seq<Session>, rs: seq<Reservation>, user: Option<User>, i: int)
    requires SessionIdsSequential(sessions) && 0 <= i < |sessions| && user.Some?
    requires Mark(Reserved(rs, sessions[i].id, user.value.id), user.value.verified) == ReserveLink
    ensures Admission(sessions, rs, user, sessions[i].id) in {Admit, Full}
  {
  }

  /** Following a reserve request for a "(reserved)" session never adds a row. */
  lemma ReservedMarkNeverAdmits(sessions: seq<Session>, rs: seq<Reservation>, user: Option<User>, i: int)
    requires 0 <= i < |sessions| && user.Some?
    requires Mark(Reserved(rs, sessions[i].id, user.value.id), user.value.verified) == ReservedMark
    ensures Step(sessions, rs, user, sessions[i].id) == rs
  {
  }
}

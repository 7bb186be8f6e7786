/**
 * The sessions and reservations tables and the admission decision of the
 * reserve handler, with the two ledger invariants it maintains: no session
 * holds more reservations than its capacity, and no (session, user) pair
 * is reserved twice.
 */
module Ledger {
  import opened Records
  import opened Query
  import opened Users

  /** Row i carries id i + 1 (AUTOINCREMENT, no deletes). */
  ghost predicate SessionIdsSequential(sessions: seq<Session>) {
    forall i :: 0 <= i < |sessions| ==> sessions[i].id == i + 1
  }

  /** Row i carries id i + 1 (AUTOINCREMENT, no deletes). */
  ghost predicate ReservationIdsSequential(rs: seq<Reservation>) {
    forall i :: 0 <= i < |rs| ==> rs[i].id == i + 1
  }

  /** The foreign keys: every reservation names an existing session and user. */
  ghost predicate ReferencesExist(rs: seq<Reservation>, users: seq<User>, sessions: seq<Session>) {
    forall i :: 0 <= i < |rs| ==> 1 <= rs[i].sessionId <= |sessions| && 1 <= rs[i].userId <= |users|
  }

  /** `SELECT capacity FROM sessions WHERE id=?`: with sequential ids, row id - 1. */
  function SessionById(sessions: seq<Session>, sid: int): (r: Option<Session>)
    ensures r.Some? ==> r.value in sessions && r.value.id == sid
    ensures SessionIdsSequential(sessions) ==>
              r == if 1 <= sid <= |sessions| then Some(sessions[sid - 1]) else None
  {
    FetchOne(sessions, (s: Session) => s.id == sid)
  }

  /** `SELECT COUNT(*) FROM reservations WHERE session_id=?`. */
  function Booked(rs: seq<Reservation>, sid: int): nat {
    CountWhere(rs, (x: Reservation) => x.sessionId == sid)
  }

  /** The user holds a reservation for the session. */
  predicate Reserved(rs: seq<Reservation>, sid: int, uid: int) {
    exists i :: 0 <= i < |rs| && rs[i].sessionId == sid && rs[i].userId == uid
  }

  /** `SELECT 1 FROM reservations WHERE session_id=? AND user_id=?`. */
  function ExistingReservation(rs: seq<Reservation>, sid: int, uid: int): (r: Option<Reservation>)
    ensures r.Some? <==> Reserved(rs, sid, uid)
  {
    FetchOne(rs, (x: Reservation) => x.sessionId == sid && x.userId == uid)
  }

  /** Invariant A. A session holds at most `capacity` reservations; one whose
      capacity is zero or negative (the create handler accepts any integer)
      holds none. */
  ghost predicate WithinCapacity(sessions: seq<Session>, rs: seq<Reservation>) {
    forall i :: 0 <= i < |sessions| ==>
      Booked(rs, sessions[i].id) == 0 || Booked(rs, sessions[i].id) <= sessions[i].capacity
  }

  /** Invariant B: at most one reservation per (session, user) pair. */
  ghost predicate NoDuplicatePairs(rs: seq<Reservation>) {
    forall i, j :: 0 <= i < j < |rs| ==>
      !(rs[i].sessionId == rs[j].sessionId && rs[i].userId == rs[j].userId)
  }

  /** The outcome of a reserve request, one per exit of the handler. */
  datatype Decision = NotAllowed | NoSuchSession | Full | AlreadyReserved | Admit

  /** The reserve handler's checks, in the handler's order; the first that
      fails decides. The capacity check comes before the duplicate check. */
  function Admission(sessions: seq<Session>, rs: seq<Reservation>, user: Option<User>, sid: int): Decision {
    if !IsVerified(user) then NotAllowed
    else match SessionById(sessions, sid)
      case None => NoSuchSession
      case Some(s) =>
        if Booked(rs, sid) >= s.capacity then Full
        else if ExistingReservation(rs, sid, user.value.id).Some? then AlreadyReserved
        else Admit
  }

  /** The response for each decision: only a full session answers with text. */
  function Answer(d: Decision): Response {
    if d == Full then Text("Session full.") else Redirect("/sessions")
  }

  /** The row an admitted request inserts. */
  function Admitted(rs: seq<Reservation>, sid: int, uid: int): Reservation {
    Reservation(|rs| + 1, sid, uid)
  }

  /** The reservations table after one reserve request. */
  function Step(sessions: seq<Session>, rs: seq<Reservation>, user: Option<User>, sid: int): seq<Reservation> {
    if Admission(sessions, rs, user, sid) == Admit then rs + [Admitted(rs, sid, user.value.id)] else rs
  }

  /** A request is admitted exactly when all four checks pass. */
  lemma AdmitExactlyWhen(sessions: seq<Session>, rs: seq<Reservation>, user: Option<User>, sid: int)
    ensures Admission(sessions, rs, user, sid) == Admit <==>
              && IsVerified(user)
              && SessionById(sessions, sid).Some?
              && Booked(rs, sid) < SessionById(sessions, sid).value.capacity
              && !Reserved(rs, sid, user.value.id)
  {
  }

  /** A full session answers "full" even to a user who already holds a seat in it. */
  lemma FullBeforeDuplicate(sessions: seq<Session>, rs: seq<Reservation>, user: Option<User>, sid: int)
    requires IsVerified(user) && SessionById(sessions, sid).Some?
    requires Booked(rs, sid) >= SessionById(sessions, sid).value.capacity
    ensures Admission(sessions, rs, user, sid) == Full
    ensures Answer(Admission(sessions, rs, user, sid)) == Text("Session full.")
  {
  }

  /** A session whose capacity is zero or negative never admits anyone. */
  lemma NonPositiveCapacityNeverAdmits(sessions: seq<Session>, rs: seq<Reservation>, user: Option<User>, i: int)
    requires SessionIdsSequential(sessions) && 0 <= i < |sessions| && sessions[i].capacity <= 0
    ensures Admission(sessions, rs, user, sessions[i].id) != Admit
  {
  }

  /** Counting after one insertion. */
  lemma BookedAppend(rs: seq<Reservation>, x: Reservation, sid: int)
    ensures Booked(rs + [x], sid) == Booked(rs, sid) + (if x.sessionId == sid then 1 else 0)
  {
    CountAppend(rs, x, (y: Reservation) => y.sessionId == sid);
  }

  /** Admitting a request raises its session's count by one, leaves every
      other session's count alone, and records the pair. */
  lemma AdmitAddsOneSeat(sessions: seq<Session>, rs: seq<Reservation>, user: Option<User>, sid: int, other: int)
    requires Admission(sessions, rs, user, sid) == Admit
    ensures Booked(Step(sessions, rs, user, sid), sid) == Booked(rs, sid) + 1
    ensures other != sid ==> Booked(Step(sessions, rs, user, sid), other) == Booked(rs, other)
    ensures Reserved(Step(sessions, rs, user, sid), sid, user.value.id)
  {
    var x := Admitted(rs, sid, user.value.id);
    BookedAppend(rs, x, sid);
    BookedAppend(rs, x, other);
    assert (rs + [x])[|rs|] == x;
  }

  /** Invariant A is preserved by every reserve request. */
  lemma StepPreservesWithinCapacity(sessions: seq<Session>, rs: seq<Reservation>, user: Option<User>, sid: int)
    requires SessionIdsSequential(sessions) && WithinCapacity(sessions, rs)
    ensures WithinCapacity(sessions, Step(sessions, rs, user, sid))
  {
    if Admission(sessions, rs, user, sid) == Admit {
      var x := Admitted(rs, sid, user.value.id);
      forall i | 0 <= i < |sessions|
        ensures Booked(rs + [x], sessions[i].id) == 0 || Booked(rs + [x], sessions[i].id) <= sessions[i].capacity
      {
        BookedAppend(rs, x, sessions[i].id);
      }
    }
  }

  /** Invariant B is preserved by every reserve request. */
  lemma StepPreservesNoDuplicates(sessions: seq<Session>, rs: seq<Reservation>, user: Option<User>, sid: int)
    requires NoDuplicatePairs(rs)
    ensures NoDuplicatePairs(Step(sessions, rs, user, sid))
  {
  }

  /** A rejected request leaves the reservations table as it was. */
  lemma RejectedChangesNothing(sessions: seq<Session>, rs: seq<Reservation>, user: Option<User>, sid: int)
    requires Admission(sessions, rs, user, sid) != Admit
    ensures Step(sessions, rs, user, sid) == rs
  {
  }

  /** Repeating an admitted request never admits it a second time. */
  lemma ReserveTwiceAdmitsOnce(sessions: seq<Session>, rs: seq<Reservation>, user: Option<User>, sid: int)
    requires Admission(sessions, rs, user, sid) == Admit
    ensures Admission(sessions, Step(sessions, rs, user, sid), user, sid) in {Full, AlreadyReserved}
  {
    AdmitAddsOneSeat(sessions, rs, user, sid, sid);
  }

  /** Taking the last seat turns every later request for the session into "full". */
  lemma LastSeatThenFull(sessions: seq<Session>, rs: seq<Reservation>, user: Option<User>, other: Option<User>, sid: int)
    requires Admission(sessions, rs, user, sid) == Admit
    requires Booked(rs, sid) + 1 == SessionById(sessions, sid).value.capacity
    requires IsVerified(other)
    ensures Admission(sessions, Step(sessions, rs, user, sid), other, sid) == Full
  {
    AdmitAddsOneSeat(sessions, rs, user, sid, sid);
  }

  /** The reservations table after a series of reserve requests for one session. */
  function Run(sessions: seq<Session>, rs: seq<Reservation>, callers: seq<Option<User>>, sid: int): seq<Reservation>
    decreases |callers|
  {
    if callers == [] then rs
    else Run(sessions, Step(sessions, rs, callers[0], sid), callers[1..], sid)
  }

  /** The callers are logged in, verified and pairwise distinct users. */
  predicate DistinctVerified(callers: seq<Option<User>>) {
    && (forall k :: 0 <= k < |callers| ==> IsVerified(callers[k]))
    && (forall k, l :: 0 <= k < l < |callers| && callers[k].Some? && callers[l].Some? ==>
          callers[k].value.id != callers[l].value.id)
  }

  /** Of n distinct verified users asking for seats in a session with free
      seats, exactly as many are admitted as there are seats (or n, if fewer):
      the count ends at min(count + n, capacity). */
  lemma {:induction false} RunFillsToCapacity(sessions: seq<Session>, rs: seq<Reservation>, callers: seq<Option<User>>, sid: int)
    requires SessionById(sessions, sid).Some?
    requires Booked(rs, sid) <= SessionById(sessions, sid).value.capacity
    requires DistinctVerified(callers)
    requires forall k :: 0 <= k < |callers| ==> !Reserved(rs, sid, callers[k].value.id)
    ensures var cap := SessionById(sessions, sid).value.capacity;
            Booked(Run(sessions, rs, callers, sid), sid) ==
              if Booked(rs, sid) + |callers| <= cap then Booked(rs, sid) + |callers| else cap
    decreases |callers|
  {
    if callers != [] {
      var cap := SessionById(sessions, sid).value.capacity;
      var c := callers[0];
      var rs' := Step(sessions, rs, c, sid);
      assert DistinctVerified(callers[1..]) by {
        forall k, l | 0 <= k < l < |callers[1..]| && callers[1..][k].Some? && callers[1..][l].Some?
          ensures callers[1..][k].value.id != callers[1..][l].value.id
        {
          assert callers[1..][k] == callers[k + 1] && callers[1..][l] == callers[l + 1];
        }
      }
      if Booked(rs, sid) < cap {
        assert !Reserved(rs, sid, c.value.id);
        assert Admission(sessions, rs, c, sid) == Admit;
        AdmitAddsOneSeat(sessions, rs, c, sid, sid);
        forall k | 0 <= k < |callers[1..]| ensures !Reserved(rs', sid, callers[1..][k].value.id) {
          assert callers[1..][k] == callers[k + 1];
          assert !Reserved(rs, sid, callers[k + 1].value.id);
          assert callers[k + 1].value.id != c.value.id;
          var x := Admitted(rs, sid, c.value.id);
          assert rs' == rs + [x];
          forall i | 0 <= i < |rs'|
            ensures !(rs'[i].sessionId == sid && rs'[i].userId == callers[k + 1].value.id)
          {
            if i < |rs| {
              assert rs'[i] == rs[i];
            }
          }
        }
      } else {
        assert Admission(sessions, rs, c, sid) == Full;
        forall k | 0 <= k < |callers[1..]| ensures !Reserved(rs', sid, callers[1..][k].value.id) {
          assert callers[1..][k] == callers[k + 1];
        }
      }
      RunFillsToCapacity(sessions, rs', callers[1..], sid);
    }
  }
}

/**
 * The booking application's process state and its request handlers. The
 * state is the in-memory token map and the three tables; each handler is a
 * method that answers with a Response and changes only the table or map its
 * `modifies` clause names.
 */
module Booking {
  import opened Records
  import opened Query
  import opened Users
  import opened Ledger
  import opened Listing

  /** The integrity of the three tables: sequential ids, unique emails,
      foreign keys, and the two ledger invariants. */
  ghost predicate TablesValid(users: seq<User>, sessions: seq<Session>, rs: seq<Reservation>) {
    && UserIdsSequential(users)
    && EmailsUnique(users)
    && SessionIdsSequential(sessions)
    && ReservationIdsSequential(rs)
    && ReferencesExist(rs, users, sessions)
    && WithinCapacity(sessions, rs)
    && NoDuplicatePairs(rs)
  }

  /** Every token in the map has the token_hex shape and names an existing user. */
  ghost predicate TokensValid(tokens: map<Token, int>, users: seq<User>) {
    forall t :: t in tokens ==> IsTokenHex(t) && 1 <= tokens[t] <= |users|
  }

  class BookingApp {
    /** hash_password (SHA-256, hex), left uninterpreted. */
    const hash: string -> string
    /** sessions_store: login token to user id, held in process memory. */
    var tokens: map<Token, int>
    var users: seq<User>
    var sessions: seq<Session>
    var reservations: seq<Reservation>

    /** The tables' integrity, the token map's, and the administrator's row:
        present, an admin and verified. */
    ghost predicate Valid()
      reads this
    {
      && TablesValid(users, sessions, reservations)
      && TokensValid(tokens, users)
      && EmailTaken(users, AdminEmail)
      && AdminRowsPrivileged(users)
    }

    /** Process start: the tables as the database file holds them, an empty
        token map, then the admin bootstrap. */
    constructor (hasher: string -> string, storedUsers: seq<User>, storedSessions: seq<Session>,
                 storedReservations: seq<Reservation>)
      requires TablesValid(storedUsers, storedSessions, storedReservations)
      requires AdminRowsPrivileged(storedUsers)
      ensures Valid()
      ensures hash == hasher && tokens == map[]
      ensures sessions == storedSessions && reservations == storedReservations
      ensures users == if EmailTaken(storedUsers, AdminEmail) then storedUsers
                       else storedUsers + [AdminRow(storedUsers, hasher(AdminPassword))]
    {
      hash := hasher;
      tokens := map[];
      users := storedUsers;
      sessions := storedSessions;
      reservations := storedReservations;
      new;
      EnsureAdmin();
    }

    /** ensure_admin: insert the administrator row unless its email is
        present. Idempotent; afterwards exactly one row has that email, and
        it is an admin and verified. */
    method EnsureAdmin()
      requires TablesValid(users, sessions, reservations) && TokensValid(tokens, users)
      requires AdminRowsPrivileged(users)
      modifies this`users
      ensures Valid()
      ensures users == if EmailTaken(old(users), AdminEmail) then old(users)
                       else old(users) + [AdminRow(old(users), hash(AdminPassword))]
      ensures EmailRows(users, AdminEmail) == 1
      ensures UserByEmail(users, AdminEmail).Some?
      ensures UserByEmail(users, AdminEmail).value.isAdmin && UserByEmail(users, AdminEmail).value.verified
    {
      var existing := UserByEmail(users, AdminEmail);
      if existing.None? {
        users := users + [AdminRow(users, hash(AdminPassword))];
        assert users[|users| - 1].email == AdminEmail;
      }
      UniqueEmailCountsOnce(users, AdminEmail);
      AdminLookup(users);
    }

    /** create_session_token: record the caller-supplied fresh token for the user. */
    method CreateSessionToken(userId: int, tok: Token) returns (t: Token)
      requires Valid() && IsTokenHex(tok) && tok !in tokens && 1 <= userId <= |users|
      modifies this`tokens
      ensures Valid()
      ensures t == tok && tokens == old(tokens)[tok := userId]
    {
      tokens := tokens[tok := userId];
      t := tok;
    }

    /** get_current_user: the users row the cookie's token maps to, if any.
        An absent or empty cookie, or an unknown token, gives None. */
    function CurrentUser(cookie: Option<Token>): (r: Option<User>)
      reads this`tokens, this`users
      ensures r.Some? ==>
                cookie.Some? && cookie.value in tokens && r.value in users && r.value.id == tokens[cookie.value]
      ensures TokensValid(tokens, users) && UserIdsSequential(users) ==>
                (r.Some? <==> cookie.Some? && cookie.value in tokens)
    {
      if cookie.Some? && cookie.value != "" && cookie.value in tokens
      then UserById(users, tokens[cookie.value])
      else None
    }

    /** signup: a duplicate email is refused; otherwise one unverified,
        non-admin row is appended. */
    method Signup(email: string, password: string) returns (r: Response)
      requires Valid()
      modifies this`users
      ensures Valid()
      ensures EmailTaken(old(users), email) ==>
                r == Text("Email already registered.") && users == old(users)
      ensures !EmailTaken(old(users), email) ==>
                r == Redirect("/login") && users == old(users) + [NewUser(old(users), email, hash(password))]
    {
      if EmailTaken(users, email) {
        r := Text("Email already registered.");
        return;
      }
      ghost var admin :| 0 <= admin < |users| && users[admin].email == AdminEmail;
      users := users + [NewUser(users, email, hash(password))];
      assert users[admin].email == AdminEmail;
      r := Redirect("/login");
    }

    /** login: on matching email and password hash, the fresh token is
        issued for that user and becomes the cookie; otherwise nothing changes. */
    method Login(email: string, password: string, tok: Token) returns (r: Response, cookie: Option<Token>)
      requires Valid() && IsTokenHex(tok) && tok !in tokens
      modifies this`tokens
      ensures Valid()
      ensures match FindCredentials(users, email, hash(password))
                case Some(u) =>
                  && r == Redirect("/") && cookie == Some(tok)
                  && tokens == old(tokens)[tok := u.id]
                  && CurrentUser(cookie) == Some(u)
                case None =>
                  r == Text("Invalid credentials.") && cookie == None && tokens == old(tokens)
    {
      var user := FindCredentials(users, email, hash(password));
      if user.Some? {
        var t := CreateSessionToken(user.value.id, tok);
        r, cookie := Redirect("/"), Some(t);
        return;
      }
      r, cookie := Text("Invalid credentials."), None;
    }

    /** logout: drop the cookie's token if the map holds it; idempotent. */
    method Logout(cookie: Option<Token>) returns (r: Response)
      requires Valid()
      modifies this`tokens
      ensures Valid()
      ensures r == Redirect("/")
      ensures tokens == if cookie.Some? && cookie.value in old(tokens) then old(tokens) - {cookie.value}
                        else old(tokens)
      ensures CurrentUser(cookie) == None
    {
      if cookie.Some? && cookie.value != "" && cookie.value in tokens {
        tokens := tokens - {cookie.value};
      }
      r := Redirect("/");
    }

    /** verify_user: for an administrator, set verified on the row with
        that id (no row, no change); anyone else is sent home. */
    method VerifyUser(cookie: Option<Token>, userId: int) returns (r: Response)
      requires Valid()
      modifies this`users
      ensures Valid()
      ensures IsAdmin(old(CurrentUser(cookie))) ==>
                r == Redirect("/admin") && users == MarkVerified(old(users), userId)
      ensures !IsAdmin(old(CurrentUser(cookie))) ==>
                r == Redirect("/") && users == old(users)
    {
      var user := CurrentUser(cookie);
      if !IsAdmin(user) {
        r := Redirect("/");
        return;
      }
      MarkVerifiedKeepsAdmin(users, userId);
      users := MarkVerified(users, userId);
      r := Redirect("/admin");
    }

    /** create_session_route: for an administrator, append a session with
        the next id and the given capacity, unchecked; anyone else is sent home. */
    method CreateSession(cookie: Option<Token>, title: string, date: string, capacity: int) returns (r: Response)
      requires Valid()
      modifies this`sessions
      ensures Valid()
      ensures IsAdmin(CurrentUser(cookie)) ==>
                && r == Redirect("/admin")
                && sessions == old(sessions) + [Session(|old(sessions)| + 1, title, date, capacity)]
      ensures !IsAdmin(CurrentUser(cookie)) ==>
                r == Redirect("/") && sessions == old(sessions)
    {
      var user := CurrentUser(cookie);
      if !IsAdmin(user) {
        r := Redirect("/");
        return;
      }
      var s := Session(|sessions| + 1, title, date, capacity);
      forall i | 0 <= i < |reservations| ensures reservations[i].sessionId != s.id {
      }
      sessions := sessions + [s];
      r := Redirect("/admin");
    }

    /** reserve: the admission checks in the handler's order; a row is
        inserted only when all pass, and every rejection changes nothing. */
    method Reserve(cookie: Option<Token>, sid: int) returns (r: Response)
      requires Valid()
      modifies this`reservations
      ensures Valid()
      ensures r == Answer(Admission(sessions, old(reservations), CurrentUser(cookie), sid))
      ensures reservations == Step(sessions, old(reservations), CurrentUser(cookie), sid)
    {
      var user := CurrentUser(cookie);
      if user.None? || !user.value.verified {
        r := Redirect("/sessions");
        return;
      }
      var capRow := SessionById(sessions, sid);
      if capRow.None? {
        r := Redirect("/sessions");
        return;
      }
      var count := Booked(reservations, sid);
      if count >= capRow.value.capacity {
        r := Text("Session full.");
        return;
      }
      var existing := ExistingReservation(reservations, sid, user.value.id);
      if existing.Some? {
        r := Redirect("/sessions");
        return;
      }
      StepPreservesWithinCapacity(sessions, reservations, user, sid);
      StepPreservesNoDuplicates(sessions, reservations, user, sid);
      reservations := reservations + [Admitted(reservations, sid, user.value.id)];
      r := Redirect("/sessions");
    }

    /** list_sessions: anonymous callers go to the login page; otherwise one
        page line per session, marked reserved, offered a Reserve link, or plain,
        and the pending notice for an unverified account. */
    method ListSessions(cookie: Option<Token>) returns (r: Response)
      ensures CurrentUser(cookie).None? ==> r == Redirect("/login")
      ensures CurrentUser(cookie).Some? ==>
                var u := CurrentUser(cookie).value;
                && r.SessionPage?
                && r.pendingNotice == !u.verified
                && |r.lines| == |sessions|
                && forall i :: 0 <= i < |sessions| ==>
                     r.lines[i] == PageLine(sessions[i], Mark(Reserved(reservations, sessions[i].id, u.id), u.verified))
    {
      var user := CurrentUser(cookie);
      if user.None? {
        r := Redirect("/login");
        return;
      }
      var u := user.value;
      var reservedIds := set x | x in reservations && x.userId == u.id :: x.sessionId;
      var lines: seq<PageLine> := [];
      for i := 0 to |sessions|
        invariant |lines| == i
        invariant forall k :: 0 <= k < i ==>
                    lines[k] == PageLine(sessions[k], Mark(Reserved(reservations, sessions[k].id, u.id), u.verified))
      {
        var s := sessions[i];
        assert s.id in reservedIds <==> Reserved(reservations, s.id, u.id) by {
          if Reserved(reservations, s.id, u.id) {
            var j :| 0 <= j < |reservations| && reservations[j].sessionId == s.id && reservations[j].userId == u.id;
            assert reservations[j] in reservations;
          }
        }
        lines := lines + [PageLine(s, Mark(s.id in reservedIds, u.verified))];
      }
      r := SessionPage(!u.verified, lines);
    }
  }
}

/**
 * A client of BookingApp that relies on the handlers' contracts alone: a
 * fresh database, two users who sign up and are verified by the
 * administrator, and a session with one seat that both ask for.
 */
module Scenarios {
  import opened Records
  import opened Users
  import opened Ledger
  import opened Booking

  function AdminOf(hasher: string -> string): User {
    AdminRow([], hasher(AdminPassword))
  }

  function AnnOf(hasher: string -> string): User {
    NewUser([AdminOf(hasher)], "ann@x.org", hasher("pw-ann"))
  }

  function BobOf(hasher: string -> string): User {
    NewUser([AdminOf(hasher), AnnOf(hasher)], "bob@x.net", hasher("pw-bob"))
  }

  /** A fresh database: the bootstrap leaves the administrator as the only user. */
  method FreshStart(hasher: string -> string) returns (app: BookingApp)
    ensures fresh(app) && app.Valid() && app.hash == hasher && app.tokens == map[]
    ensures app.users == [AdminOf(hasher)] && app.sessions == [] && app.reservations == []
  {
    app := new BookingApp(hasher, [], [], []);
  }

  /** Two users sign up with new emails and get ids 2 and 3. */
  method SignUpTwo(app: BookingApp, hasher: string -> string)
    requires app.Valid() && app.hash == hasher && app.users == [AdminOf(hasher)]
    modifies app`users
    ensures app.Valid() && app.users == [AdminOf(hasher), AnnOf(hasher), BobOf(hasher)]
  {
    assert |AdminEmail| == 17 && |"ann@x.org"| == 9;
    assert !EmailTaken(app.users, "ann@x.org");
    var r := app.Signup("ann@x.org", "pw-ann");
    assert r == Redirect("/login") && app.users == [AdminOf(hasher), AnnOf(hasher)];
    assert "ann@x.org"[0] != "bob@x.net"[0];
    assert !EmailTaken(app.users, "bob@x.net");
    r := app.Signup("bob@x.net", "pw-bob");
    assert r == Redirect("/login");
  }

  /** A second signup with a taken email is refused, and the bootstrap run
      again finds its row: neither changes the users table. */
  method RepeatsChangeNothing(app: BookingApp, email: string) returns (r: Response)
    requires app.Valid() && EmailTaken(app.users, email)
    modifies app`users
    ensures r == Text("Email already registered.")
    ensures app.Valid() && app.users == old(app.users)
  {
    r := app.Signup(email, "other");
    BootstrapAgain(app);
  }

  /** The administrator logs in with the bootstrap credentials. */
  method AdminLogsIn(app: BookingApp, hasher: string -> string, adminToken: Token) returns (adminCookie: Option<Token>)
    requires app.Valid() && app.hash == hasher && app.tokens == map[] && IsTokenHex(adminToken)
    requires app.users == [AdminOf(hasher), AnnOf(hasher), BobOf(hasher)]
    modifies app`tokens
    ensures app.Valid() && app.tokens == map[adminToken := 1]
    ensures app.CurrentUser(adminCookie) == Some(AdminOf(hasher))
  {
    var r;
    r, adminCookie := app.Login(AdminEmail, AdminPassword, adminToken);
    assert app.users[0] == AdminOf(hasher);
  }

  /** The administrator verifies both users and opens a session with one seat. */
  method AdminPrepares(app: BookingApp, hasher: string -> string, adminCookie: Option<Token>)
    requires app.Valid() && app.CurrentUser(adminCookie) == Some(AdminOf(hasher))
    requires app.users == [AdminOf(hasher), AnnOf(hasher), BobOf(hasher)]
    requires app.sessions == [] && app.reservations == []
    modifies app`users, app`sessions
    ensures app.Valid()
    ensures app.users == [AdminOf(hasher), AnnOf(hasher).(verified := true), BobOf(hasher).(verified := true)]
    ensures app.sessions == [Session(1, "Morning flow", "2024-05-01 08:00", 1)]
  {
    var r := app.VerifyUser(adminCookie, 2);
    assert app.users[0] == AdminOf(hasher);
    r := app.VerifyUser(adminCookie, 3);
    r := app.CreateSession(adminCookie, "Morning flow", "2024-05-01 08:00", 1);
  }

  /** Both users log in; each token resolves to its owner. */
  method UsersLogIn(app: BookingApp, hasher: string -> string, annToken: Token, bobToken: Token)
    returns (annCookie: Option<Token>, bobCookie: Option<Token>)
    requires app.Valid() && app.hash == hasher
    requires IsTokenHex(annToken) && IsTokenHex(bobToken) && annToken != bobToken
    requires annToken !in app.tokens && bobToken !in app.tokens
    requires app.users == [AdminOf(hasher), AnnOf(hasher).(verified := true), BobOf(hasher).(verified := true)]
    modifies app`tokens
    ensures app.Valid()
    ensures app.CurrentUser(annCookie) == Some(AnnOf(hasher).(verified := true))
    ensures app.CurrentUser(bobCookie) == Some(BobOf(hasher).(verified := true))
  {
    var r;
    r, annCookie := app.Login("ann@x.org", "pw-ann", annToken);
    assert app.users[1] == AnnOf(hasher).(verified := true);
    assert app.CurrentUser(annCookie) == Some(AnnOf(hasher).(verified := true));
    r, bobCookie := app.Login("bob@x.net", "pw-bob", bobToken);
    assert app.users[2] == BobOf(hasher).(verified := true);
  }

  /** The first request takes the only seat; the second user, and the first
      user asking again, are told the session is full. */
  method BothReserve(app: BookingApp, annCookie: Option<Token>, bobCookie: Option<Token>, ann: User, bob: User)
    returns (first: Response, second: Response, again: Response)
    requires app.Valid() && ann.verified && bob.verified && ann.id != bob.id
    requires app.CurrentUser(annCookie) == Some(ann) && app.CurrentUser(bobCookie) == Some(bob)
    requires app.sessions == [Session(1, "Morning flow", "2024-05-01 08:00", 1)] && app.reservations == []
    modifies app`reservations
    ensures app.Valid() && app.reservations == [Reservation(1, 1, ann.id)]
    ensures first == Redirect("/sessions")
    ensures second == Text("Session full.") && again == Text("Session full.")
  {
    first := app.Reserve(annCookie, 1);
    assert app.reservations == [Reservation(1, 1, ann.id)];
    second := app.Reserve(bobCookie, 1);
    again := app.Reserve(annCookie, 1);
  }

  /** After logout the token no longer resolves, and a second logout changes
      nothing: two logouts leave the map as one does. */
  method LogOutTwice(app: BookingApp, cookie: Option<Token>)
    requires app.Valid()
    modifies app`tokens
    ensures app.Valid() && app.CurrentUser(cookie) == None
    ensures app.tokens == if cookie.Some? && cookie.value in old(app.tokens) then old(app.tokens) - {cookie.value}
                          else old(app.tokens)
  {
    var r := app.Logout(cookie);
    assert app.CurrentUser(cookie) == None;
    var before := app.tokens;
    r := app.Logout(cookie);
    assert app.tokens == before;
  }

  /** Running the admin bootstrap again, on a table that holds the
      administrator, changes nothing, however often it runs. */
  method BootstrapAgain(app: BookingApp)
    requires app.Valid() && EmailTaken(app.users, AdminEmail)
    modifies app`users
    ensures app.Valid() && app.users == old(app.users) && EmailRows(app.users, AdminEmail) == 1
  {
    app.EnsureAdmin();
    app.EnsureAdmin();
  }

  /** A fresh database with two signed-up users, both verified by the
      administrator, and one session with one seat. */
  method Prepared(hasher: string -> string, adminToken: Token) returns (app: BookingApp)
    requires IsTokenHex(adminToken)
    ensures fresh(app) && app.Valid() && app.hash == hasher && app.tokens == map[adminToken := 1]
    ensures app.users == [AdminOf(hasher), AnnOf(hasher).(verified := true), BobOf(hasher).(verified := true)]
    ensures app.sessions == [Session(1, "Morning flow", "2024-05-01 08:00", 1)] && app.reservations == []
  {
    app := FreshStart(hasher);
    SignUpTwo(app, hasher);
    assert app.users[0].email == AdminEmail && app.users[1].email == "ann@x.org";
    var refused := RepeatsChangeNothing(app, "ann@x.org");
    var adminCookie := AdminLogsIn(app, hasher, adminToken);
    AdminPrepares(app, hasher, adminCookie);
  }

  /** Three distinct tokens of the token_hex shape, standing in for three
      calls of the random token source. */
  method ThreeTokens() returns (adminToken: Token, annToken: Token, bobToken: Token)
    ensures IsTokenHex(adminToken) && IsTokenHex(annToken) && IsTokenHex(bobToken)
    ensures adminToken != annToken && adminToken != bobToken && annToken != bobToken
  {
    adminToken, annToken, bobToken := seq(32, _ => '0'), seq(32, _ => 'a'), seq(32, _ => 'b');
    assert adminToken[0] != annToken[0] && adminToken[0] != bobToken[0] && annToken[0] != bobToken[0];
  }

  /** The whole run, start to finish: each phase's preconditions follow from
      the previous phase's postconditions, whatever the password hash. */
  method OneSeatTwoUsers(hasher: string -> string)
  {
    var adminToken, annToken, bobToken := ThreeTokens();
    var app := Prepared(hasher, adminToken);
    var annCookie, bobCookie := UsersLogIn(app, hasher, annToken, bobToken);
    var first, second, again := BothReserve(app, annCookie, bobCookie, AnnOf(hasher).(verified := true), BobOf(hasher).(verified := true));
    LogOutTwice(app, annCookie);
  }
}

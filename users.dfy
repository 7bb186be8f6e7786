/**
 * The users table: lookups by id, by email and by credentials, the UNIQUE
 * email rule, the rows signup and the admin bootstrap insert, and the
 * UPDATE that verifies an account.
 */
module Users {
  import opened Records
  import opened Query

  /** Row i carries id i + 1: AUTOINCREMENT ids on a table no row is ever deleted from. */
  ghost predicate UserIdsSequential(users: seq<User>) {
    forall i :: 0 <= i < |users| ==> users[i].id == i + 1
  }

  /** The UNIQUE constraint on users.email. */
  ghost predicate EmailsUnique(users: seq<User>) {
    forall i, j :: 0 <= i < j < |users| ==> users[i].email != users[j].email
  }

  /** Some row already holds this email (case-sensitive, exact). */
  predicate EmailTaken(users: seq<User>, email: string) {
    exists i :: 0 <= i < |users| && users[i].email == email
  }

  /** The caller is logged in as an administrator. */
  predicate IsAdmin(user: Option<User>) {
    user.Some? && user.value.isAdmin
  }

  /** The caller is logged in with a verified account. */
  predicate IsVerified(user: Option<User>) {
    user.Some? && user.value.verified
  }

  /** `SELECT * FROM users WHERE id=?`: with sequential ids, row id - 1. */
  function UserById(users: seq<User>, id: int): (r: Option<User>)
    ensures r.Some? ==> r.value in users && r.value.id == id
    ensures UserIdsSequential(users) ==>
              r == if 1 <= id <= |users| then Some(users[id - 1]) else None
  {
    FetchOne(users, (u: User) => u.id == id)
  }

  /** `SELECT id FROM users WHERE email=?`. */
  function UserByEmail(users: seq<User>, email: string): (r: Option<User>)
    ensures r.Some? <==> EmailTaken(users, email)
    ensures r.Some? ==> r.value in users && r.value.email == email
  {
    FetchOne(users, (u: User) => u.email == email)
  }

  /** `SELECT * FROM users WHERE email=? AND password_hash=?`. */
  function FindCredentials(users: seq<User>, email: string, hash: string): (r: Option<User>)
    ensures r.Some? ==> r.value in users && r.value.email == email && r.value.passwordHash == hash
    ensures r.None? <==>
              forall i :: 0 <= i < |users| ==> !(users[i].email == email && users[i].passwordHash == hash)
  {
    FetchOne(users, (u: User) => u.email == email && u.passwordHash == hash)
  }

  /** `SELECT COUNT(*) FROM users WHERE email=?`. */
  function EmailRows(users: seq<User>, email: string): nat {
    CountWhere(users, (u: User) => u.email == email)
  }

  /** Under the UNIQUE constraint a taken email is held by exactly one row. */
  lemma {:induction false} UniqueEmailCountsOnce(users: seq<User>, email: string)
    requires EmailsUnique(users) && EmailTaken(users, email)
    ensures EmailRows(users, email) == 1
  {
    if users[0].email == email {
      forall i | 0 <= i < |users[1..]| ensures users[1..][i].email != email {
        assert users[1..][i] == users[i + 1];
      }
    } else {
      var k :| 0 <= k < |users| && users[k].email == email;
      assert users[1..][k - 1] == users[k];
      UniqueEmailCountsOnce(users[1..], email);
    }
  }

  /** The row signup inserts: next id, not an admin, not verified. */
  function NewUser(users: seq<User>, email: string, hash: string): User {
    User(|users| + 1, email, hash, false, false)
  }

  /** The row the admin bootstrap inserts: next id, admin, verified. */
  function AdminRow(users: seq<User>, hash: string): User {
    User(|users| + 1, AdminEmail, hash, true, true)
  }

  /** Every row holding the administrator's email is an admin and verified.
      The bootstrap inserts that row with both flags set, signup refuses a
      taken email, and no update clears either flag. */
  ghost predicate AdminRowsPrivileged(users: seq<User>) {
    forall i :: 0 <= i < |users| && users[i].email == AdminEmail ==> users[i].isAdmin && users[i].verified
  }

  /** Looking up the administrator's email finds an admin, verified row. */
  lemma AdminLookup(users: seq<User>)
    requires EmailTaken(users, AdminEmail) && AdminRowsPrivileged(users)
    ensures UserByEmail(users, AdminEmail).Some?
    ensures UserByEmail(users, AdminEmail).value.isAdmin && UserByEmail(users, AdminEmail).value.verified
  {
    var r := UserByEmail(users, AdminEmail);
    var k :| 0 <= k < |users| && users[k] == r.value;
  }

  /** Signing up and then logging in with the same email and hash finds the new row. */
  lemma RegisteredCanLogIn(users: seq<User>, email: string, hash: string)
    requires !EmailTaken(users, email)
    ensures FindCredentials(users + [NewUser(users, email, hash)], email, hash)
            == Some(NewUser(users, email, hash))
  {
    var users' := users + [NewUser(users, email, hash)];
    var r := FindCredentials(users', email, hash);
    assert users'[|users|] == NewUser(users, email, hash);
    assert r.Some?;
    var k :| 0 <= k < |users'| && users'[k] == r.value;
    assert k == |users|;
  }

  /** Logging in with the freshly registered email and any other hash fails. */
  lemma OtherHashCannotLogIn(users: seq<User>, email: string, hash: string, other: string)
    requires !EmailTaken(users, email) && other != hash
    ensures FindCredentials(users + [NewUser(users, email, hash)], email, other).None?
  {
  }

  /** `UPDATE users SET verified=1 WHERE id=?`: the verified flag of the
      matching row becomes true and nothing else in the table changes. */
  function MarkVerified(users: seq<User>, id: int): (r: seq<User>)
    ensures |r| == |users|
    ensures forall i :: 0 <= i < |users| ==>
              && r[i].id == users[i].id
              && r[i].email == users[i].email
              && r[i].passwordHash == users[i].passwordHash
              && r[i].isAdmin == users[i].isAdmin
              && r[i].verified == (users[i].verified || users[i].id == id)
  {
    seq(|users|, i requires 0 <= i < |users| =>
      if users[i].id == id then users[i].(verified := true) else users[i])
  }

  /** Verifying keeps every administrator row admin and verified. */
  lemma MarkVerifiedKeepsAdmin(users: seq<User>, id: int)
    requires AdminRowsPrivileged(users)
    ensures AdminRowsPrivileged(MarkVerified(users, id))
  {
  }

  /** Verifying twice is the same as verifying once. */
  lemma MarkVerifiedIdempotent(users: seq<User>, id: int)
    ensures MarkVerified(MarkVerified(users, id), id) == MarkVerified(users, id)
  {
  }

  /** Verifying an id no row carries changes nothing. */
  lemma MarkVerifiedUnknownId(users: seq<User>, id: int)
    requires forall i :: 0 <= i < |users| ==> users[i].id != id
    ensures MarkVerified(users, id) == users
  {
  }

  /** After verifying, the looked-up row is verified and otherwise unchanged. */
  lemma MarkVerifiedThenLookup(users: seq<User>, id: int)
    requires UserIdsSequential(users) && 1 <= id <= |users|
    ensures UserIdsSequential(MarkVerified(users, id))
    ensures UserById(MarkVerified(users, id), id) == Some(users[id - 1].(verified := true))
  {
  }
}

# Booking application: admission control and identity state

This project models the request handlers of a small booking web application
(`main.py`). Users sign up and log in. An administrator verifies accounts and
creates bookable sessions, and verified users reserve seats. The model keeps
the application's state:

- the in-memory token map (`sessions_store`: login token to user id), a `map<Token, int>`;
- the three tables (users, sessions, reservations), each a sequence of rows in insertion order.

Each handler is a method of the class `Booking.BookingApp`. It answers with a
`Response`: `Redirect(path)`, `Text(msg)`, or the sessions page. Its
`modifies` clause names the only table or map it may change.

The centre of the model is the reserve handler. Its checks run in a fixed
order (`Ledger.Admission`):

1. the caller is logged in with a verified account;
2. the session exists;
3. the session's count is below its capacity, else "Session full.";
4. the caller holds no reservation for it, else a silent redirect.

The object invariant `BookingApp.Valid` holds after every handler. It says:

- ids run 1, 2, 3, ... in every table, as AUTOINCREMENT gives them when no row is ever deleted;
- emails are unique;
- every reservation names an existing session and user;
- no session holds more reservations than its capacity (a session with capacity zero or less holds none);
- no (session, user) pair is reserved twice;
- every token has the shape `secrets.token_hex(16)` gives and names an existing user;
- the administrator's email is present, and every row holding it is an admin and verified.

Files and modules:

- `records.dfy` (`Records`): the rows, tokens and responses.
- `query.dfy` (`Query`): `fetchone()` and `COUNT(*)` over a table.
- `users.dfy` (`Users`): lookups, the unique-email rule, the inserted rows, and the verify update.
- `ledger.dfy` (`Ledger`): the admission decision and the two ledger invariants.
- `listing.dfy` (`Listing`): the per-session mark on the sessions page.
- `app.dfy` (`Booking`): the state class and its handlers.
- `scenario.dfy` (`Scenarios`): a client that runs through signup, verification, one-seat booking and logout, using only the handlers' contracts.

`hash_password` is a constant function-valued field, `BookingApp.hash`, given
at construction. Nothing is assumed about it, injectivity included. A wrong
password is therefore stated as a different hash (`Users.OtherHashCannotLogIn`).

## Behaviour worth knowing

- **Reserve check order.** `reserve` checks the caller first, then that the session exists, then "full", then "duplicate" (main.py:252-273). So a user who already holds a seat in a full session is told "Session full." (`Ledger.FullBeforeDuplicate`).
- **Capacity on create.** `create_session_route` stores any integer capacity, zero and negative values included (main.py:212-215). Such a session never admits anyone (`Ledger.NonPositiveCapacityNeverAdmits`), so the capacity invariant reads "count ≤ capacity, or count = 0".
- **Verify of an unknown id.** `verify_user` runs an UPDATE that matches no row and redirects to `/admin` (main.py:200-203, `Users.MarkVerifiedUnknownId`).
- **Duplicate reservation.** This is a silent redirect to `/sessions`, the same response as success (main.py:271-273).

## Model

| member | source | states |
|---|---|---|
| `Query.FetchOne` | main.py:255-257 | the row fetched satisfies the WHERE condition and is in the table; None exactly when no row satisfies it |
| `Query.CountWhere` | main.py:261-263 | COUNT(*) is at most the table size and is zero exactly when no row matches |
| `Query.CountAppend` | main.py:274-277 | inserting one row raises a count by one exactly when the row matches the condition |
| `Users.UserById` | main.py:83 | the row found has the requested id; with sequential ids it is row id-1, and None when id is out of range |
| `Users.UserByEmail` | main.py:58-59 | a row is found exactly when the email is taken, and it carries that email |
| `Users.FindCredentials` | main.py:132-135 | the row found matches both the email and the password hash; None exactly when no row matches both |
| `Users.UniqueEmailCountsOnce` | main.py:24 | under the UNIQUE email constraint a taken email is held by exactly one row |
| `Users.RegisteredCanLogIn` | main.py:101-142 | after signup with a new email, login with the same email and password hash finds exactly the new row |
| `Users.OtherHashCannotLogIn` | main.py:129-142 | after signup with a new email, login with that email and a different hash finds no row |
| `Users.AdminLookup` | main.py:55-65 | when the administrator's email is taken and every row holding it is privileged, looking it up finds an admin, verified row |
| `Users.MarkVerifiedKeepsAdmin` | main.py:200 | the verify UPDATE keeps every administrator row admin and verified |
| `Users.MarkVerified` | main.py:200 | the UPDATE sets verified on the rows with that id and changes no other column or row |
| `Users.MarkVerifiedIdempotent` | main.py:200 | verifying twice equals verifying once |
| `Users.MarkVerifiedUnknownId` | main.py:200 | verifying an id no row carries leaves the table unchanged |
| `Users.MarkVerifiedThenLookup` | main.py:200 | after verifying, the looked-up row is the old row with verified set, and ids stay sequential |
| `Ledger.SessionById` | main.py:255-258 | the session found has the requested id; with sequential ids it is row sid-1, None when out of range |
| `Ledger.ExistingReservation` | main.py:267-271 | a row is found exactly when the user holds a reservation for the session |
| `Ledger.AdmitExactlyWhen` | main.py:252-277 | a request is admitted if and only if the user is verified, the session exists, its count is below capacity and the user holds no reservation for it |
| `Ledger.FullBeforeDuplicate` | main.py:264-273 | a full session answers "Session full." to a verified user, whether or not the user already holds a reservation |
| `Ledger.NonPositiveCapacityNeverAdmits` | main.py:212-215 | a session created with capacity zero or less never admits a reservation |
| `Ledger.BookedAppend` | main.py:261-277 | a session's count after an insert is its old count plus one when the new row is for that session |
| `Ledger.AdmitAddsOneSeat` | main.py:274-277 | an admitted request raises its session's count by exactly one, leaves other sessions' counts alone, and records the pair |
| `Ledger.StepPreservesWithinCapacity` | main.py:261-277 | every reserve request keeps every session's count within its capacity |
| `Ledger.StepPreservesNoDuplicates` | main.py:267-277 | every reserve request keeps (session, user) pairs unique |
| `Ledger.RejectedChangesNothing` | main.py:252-273 | every rejecting path leaves the reservations table unchanged |
| `Ledger.ReserveTwiceAdmitsOnce` | main.py:264-273 | repeating an admitted request yields "full" or the silent duplicate redirect, never a second row |
| `Ledger.LastSeatThenFull` | main.py:261-266 | once the last seat is taken, every verified user's request for the session is answered "full" |
| `Ledger.RunFillsToCapacity` | main.py:249-280 | n distinct verified users asking in turn for a session with free seats leave its count at min(count + n, capacity) |
| `Listing.UnverifiedSeesNoLink` | main.py:239-242 | an unverified user is never shown a Reserve link |
| `Listing.LinkLeadsToAdmitOrFull` | main.py:239-242 | a session shown with a Reserve link admits the request or answers "full" |
| `Listing.ReservedMarkNeverAdmits` | main.py:239-240 | following a reserve request for a session marked "(reserved)" adds no row |
| `Booking.BookingApp.constructor` | main.py:11-69 | process start: an empty token map, the stored tables, then the admin bootstrap; afterwards the invariant holds, the administrator's row included |
| `Booking.BookingApp.EnsureAdmin` | main.py:55-65 | inserts the verified admin row only when its email is absent, otherwise changes nothing; afterwards exactly one row has that email, and it is an admin and verified |
| `Booking.BookingApp.CreateSessionToken` | main.py:72-75 | the fresh token is mapped to the user id and is returned |
| `Booking.BookingApp.CurrentUser` | main.py:78-86 | the user found is the row the cookie's token maps to; under the invariant, a user is found exactly when the cookie holds a known token |
| `Booking.BookingApp.Signup` | main.py:101-114 | a taken email gets "Email already registered." and no change; otherwise exactly one unverified, non-admin row with that email and hash is appended and the answer redirects to /login |
| `Booking.BookingApp.Login` | main.py:129-142 | on a credential match the fresh token maps to that user, becomes the cookie, and resolves to that user; otherwise "Invalid credentials." and the token map unchanged |
| `Booking.BookingApp.Logout` | main.py:145-152 | the cookie's token is removed if present and nothing else changes, so a second logout is a no-op; afterwards the cookie resolves to no user |
| `Booking.BookingApp.VerifyUser` | main.py:194-203 | an admin caller's request sets verified on the row with that id and redirects to /admin; any other caller is sent to / with nothing changed |
| `Booking.BookingApp.CreateSession` | main.py:206-218 | an admin caller's request appends a session with the next id and the given capacity, unchecked; any other caller is sent to / with nothing changed |
| `Booking.BookingApp.Reserve` | main.py:249-280 | the response and the new reservations table are the admission decision's; the invariant, and with it capacity and pair uniqueness, is kept |
| `Booking.BookingApp.ListSessions` | main.py:221-246 | anonymous callers go to /login; otherwise one page line per session with its mark, and the pending notice exactly for an unverified account |
| `Scenarios.FreshStart` | main.py:55-69 | on an empty database the bootstrap leaves the administrator as the only user and the token map empty |
| `Scenarios.SignUpTwo` | main.py:101-114 | two signups with new emails append users 2 and 3 |
| `Scenarios.RepeatsChangeNothing` | main.py:101-114 | a signup with a taken email is answered "Email already registered.", and it and a repeated bootstrap leave the users table unchanged |
| `Scenarios.BootstrapAgain` | main.py:55-65 | running the bootstrap again on a table holding the admin leaves the table unchanged |
| `Scenarios.AdminLogsIn` | main.py:129-142 | the bootstrap credentials log in, and the token resolves to the administrator |
| `Scenarios.AdminPrepares` | main.py:194-218 | the administrator verifies users 2 and 3 and creates a one-seat session |
| `Scenarios.Prepared` | main.py:55-218 | a fresh database reaches two verified users and one one-seat session |
| `Scenarios.UsersLogIn` | main.py:129-142 | each user's login token resolves to that user |
| `Scenarios.BothReserve` | main.py:249-280 | with one seat, the first user's request takes it and redirects to /sessions; the second user and the first user again are both answered "Session full."; the table ends with the one reservation and the invariant holds |
| `Scenarios.LogOutTwice` | main.py:145-152 | after logout the token resolves to no user and the invariant holds; two logouts leave the token map exactly as one does |
| `Scenarios.ThreeTokens` | main.py:72-73 | three distinct tokens, each of the shape `secrets.token_hex(16)` gives |

## Left out

- HTTP routing, form parsing, cookie headers and HTML text (main.py:89-246) are not modelled. The sessions page is modelled as the pending notice plus one (session, mark) line per session. The login cookie is modelled as the token `Login` returns. `delete_cookie` on logout is not modelled.
- The read-only pages `signup_form`, `login_form`, `home` and `admin_panel` only render HTML from the state and are not modelled.
- SQLite connections, commits and table creation (main.py:13-48) are not modelled. The tables live in memory. The UNIQUE email constraint is an explicit membership check. AUTOINCREMENT is modelled as ids 1, 2, 3, ..., and a database file handed to the constructor is required to satisfy the table invariant and to hold the administrator's email, if at all, only on admin, verified rows (true of every file this program writes; `ensure_admin` at main.py:58-59 does not check the flags of a row already present).
- SHA-256 in `hash_password` (main.py:51-52) is an uninterpreted function passed in by the caller.
- `secrets.token_hex(16)` (main.py:73) is a token the caller supplies. It must have the 32-hex-digit shape and must not be in the map, which rules out token collisions.
- `ORDER BY session_date` (main.py:173, 227) is not modelled. Session rows appear in table order.
- Concurrency is not modelled. Two reserve requests can both pass the count check before either inserts; this check-then-insert race is real in the source, but a sequential model cannot show it. The invariants proved hold for requests served one at a time.
- Integers are unbounded. SQLite's 64-bit INTEGER range for ids and capacities, and FastAPI's rejection of non-integer form fields, are not modelled.
- Process start-up under uvicorn (main.py:283-286) is not modelled.

/**
 * The rows of the booking application's three tables (users, sessions,
 * reservations), the opaque login token, and the responses a request
 * handler can give.
 */
module Records {

  datatype Option<T> = None | Some(value: T)

  /** A login token: the value of the "session" cookie. */
  type Token = string

  /** A row of the users table. `isAdmin` and `verified` are the 0/1 columns. */
  datatype User = User(id: int, email: string, passwordHash: string, isAdmin: bool, verified: bool)

  /** A row of the sessions table: a bookable event (not a login session). */
  datatype Session = Session(id: int, title: string, date: string, capacity: int)

  /** A row of the reservations table. */
  datatype Reservation = Reservation(id: int, sessionId: int, userId: int)

  /** What the sessions page shows beside one session. */
  datatype Affordance = ReservedMark | ReserveLink | NoLink

  /** One line of the sessions page. */
  datatype PageLine = PageLine(session: Session, mark: Affordance)

  /** What a request handler answers: a 303 redirect, a plain text body,
      or the sessions page (whether the pending-verification notice is
      shown, and one line per session). */
  datatype Response =
    | Redirect(path: string)
    | Text(msg: string)
    | SessionPage(pendingNotice: bool, lines: seq<PageLine>)

  /** The bootstrap administrator's fixed credentials. */
  const AdminEmail: string := "admin@example.com"
  const AdminPassword: string := "admin"

  /** The shape of a token from secrets.token_hex(16): 32 lower-case hex digits. */
  predicate IsTokenHex(t: string) {
    |t| == 32 && forall i :: 0 <= i < |t| ==> '0' <= t[i] <= '9' || 'a' <= t[i] <= 'f'
  }
}

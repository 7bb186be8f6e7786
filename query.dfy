/**
 * The two shapes of SQL query the handlers issue against a table, stated
 * over a table held as a sequence of rows in insertion order:
 * `SELECT ... WHERE <cond>` followed by `fetchone()`, and
 * `SELECT COUNT(*) ... WHERE <cond>`.
 */
module Query {
  import opened Records

  /** The row `fetchone()` yields for a WHERE condition: the first matching
      row in table order, or None when no row matches. */
  function FetchOne<T>(rows: seq<T>, where: T -> bool): (r: Option<T>)
    ensures r.Some? ==> r.value in rows && where(r.value)
    ensures r.None? <==> forall i :: 0 <= i < |rows| ==> !where(rows[i])
  {
    if rows == [] then None
    else if where(rows[0]) then Some(rows[0])
    else FetchOne(rows[1..], where)
  }

  /** `COUNT(*)` for a WHERE condition. */
  function CountWhere<T>(rows: seq<T>, where: T -> bool): (n: nat)
    ensures n <= |rows|
    ensures n == 0 <==> forall i :: 0 <= i < |rows| ==> !where(rows[i])
  {
    if rows == [] then 0
    else (if where(rows[0]) then 1 else 0) + CountWhere(rows[1..], where)
  }

  /** Inserting one row raises the count by one exactly when the row matches. */
  lemma {:induction false} CountAppend<T>(rows: seq<T>, x: T, where: T -> bool)
    ensures CountWhere(rows + [x], where) == CountWhere(rows, where) + (if where(x) then 1 else 0)
  {
    if rows != [] {
      assert (rows + [x])[1..] == rows[1..] + [x];
      CountAppend(rows[1..], x, where);
    }
  }
}

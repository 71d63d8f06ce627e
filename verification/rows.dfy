/** Tables as sequences of rows in scan order: the first row a filter
    selects (a `limit 1` query) and the rows left after a `delete ... where`,
    with the two facts about them that the repositories need. */
module Rows {
  import opened Wrappers

  /** The first row satisfying `p`: `select ... where p limit 1`. */
  function First<T>(rows: seq<T>, p: T -> bool): (r: Option<T>)
    ensures r.Some? ==> r.value in rows && p(r.value)
    ensures r.None? <==> forall i :: 0 <= i < |rows| ==> !p(rows[i])
    decreases |rows|
  {
    if |rows| == 0 then None
    else if p(rows[0]) then Some(rows[0])
    else
      var r := First(rows[1..], p);
      assert forall i :: 1 <= i < |rows| ==> rows[i] == rows[1..][i - 1];
      r
  }

  /** The rows not satisfying `q`: `delete ... where q`. */
  function Remove<T(!new)>(rows: seq<T>, q: T -> bool): (rows': seq<T>)
    ensures |rows'| <= |rows|
    ensures forall x :: x in rows' <==> x in rows && !q(x)
    ensures (forall i :: 0 <= i < |rows| ==> !q(rows[i])) ==> rows' == rows
    decreases |rows|
  {
    if |rows| == 0 then []
    else
      assert forall x :: x in rows <==> x == rows[0] || x in rows[1..];
      if q(rows[0]) then Remove(rows[1..], q)
      else [rows[0]] + Remove(rows[1..], q)
  }

  /** Deleting rows that `p` never selects leaves the first `p`-row as it was. */
  lemma {:induction false} FirstAfterRemove<T(!new)>(rows: seq<T>, p: T -> bool, q: T -> bool)
    requires forall x :: p(x) ==> !q(x)
    ensures First(Remove(rows, q), p) == First(rows, p)
    decreases |rows|
  {
    if |rows| > 0 {
      FirstAfterRemove(rows[1..], p, q);
      if !q(rows[0]) {
        assert ([rows[0]] + Remove(rows[1..], q))[1..] == Remove(rows[1..], q);
      }
    }
  }

  /** Appending a row changes the first `p`-row only when there was none. */
  lemma {:induction false} FirstAfterAppend<T>(rows: seq<T>, x: T, p: T -> bool)
    ensures First(rows + [x], p) == if First(rows, p).Some? then First(rows, p)
                                    else if p(x) then Some(x) else None
    decreases |rows|
  {
    if |rows| > 0 {
      assert (rows + [x])[1..] == rows[1..] + [x];
      FirstAfterAppend(rows[1..], x, p);
    } else {
      assert [x][1..] == [];
    }
  }
}

/** Vocabulary shared by every part of the model: optional values, instants,
    the row ids the database hands out, and the two query shapes the
    controllers use (`filter(...)` and `.first()`). */
module Common {

  datatype Option<+T> = None | Some(value: T)

  /** A wall-clock instant, in whole seconds. The clock itself is not modelled:
      every operation that reads it takes the instant as a parameter. */
  type Instant = int

  /** The id an INTEGER PRIMARY KEY column receives on insert when none is
      given: one more than the largest id already in the table, or 1 when the
      table is empty. */
  function NextRowId(ids: seq<int>): (r: int)
    ensures forall i :: 0 <= i < |ids| ==> ids[i] < r
    ensures |ids| == 0 ==> r == 1
    ensures |ids| > 0 ==> exists i :: 0 <= i < |ids| && r == ids[i] + 1
  {
    if |ids| == 0 then 1
    else if |ids| == 1 then ids[0] + 1
    else
      var rest := NextRowId(ids[1..]);
      assert exists i :: 1 <= i < |ids| && rest == ids[i] + 1 by {
        var j :| 0 <= j < |ids[1..]| && rest == ids[1..][j] + 1;
        assert rest == ids[j + 1] + 1;
      }
      if ids[0] < rest then rest else ids[0] + 1
  }

  /** One column of a table: `f` of every row, in row order. */
  function Column<T>(xs: seq<T>, f: T -> int): (c: seq<int>)
    ensures |c| == |xs|
    ensures forall i :: 0 <= i < |xs| ==> c[i] == f(xs[i])
  {
    seq(|xs|, i requires 0 <= i < |xs| => f(xs[i]))
  }

  /** The elements of `xs` that satisfy `keep`, in their original order: a
      `WHERE` clause over a table. */
  function Filter<T(==,!new)>(xs: seq<T>, keep: T -> bool): (r: seq<T>)
    ensures |r| <= |xs|
    ensures forall x :: x in r ==> keep(x) && x in xs
    ensures forall x :: multiset(r)[x] == if keep(x) then multiset(xs)[x] else 0
  {
    if |xs| == 0 then []
    else
      assert xs == [xs[0]] + xs[1..];
      var rest := Filter(xs[1..], keep);
      if keep(xs[0]) then [xs[0]] + rest else rest
  }

  /** The first element of `xs` that satisfies `p`: `query.filter(p).first()`. */
  function First<T>(xs: seq<T>, p: T -> bool): (r: Option<T>)
    ensures r.None? <==> forall i :: 0 <= i < |xs| ==> !p(xs[i])
    ensures r.Some? ==> r.value in xs && p(r.value)
    ensures r.Some? ==> exists i :: 0 <= i < |xs| && xs[i] == r.value && forall j :: 0 <= j < i ==> !p(xs[j])
  {
    if |xs| == 0 then None
    else if p(xs[0]) then Some(xs[0])
    else
      var rest := First(xs[1..], p);
      assert rest.Some? ==> exists i :: 1 <= i < |xs| && xs[i] == rest.value && forall j :: 0 <= j < i ==> !p(xs[j]) by {
        if rest.Some? {
          var k :| 0 <= k < |xs[1..]| && xs[1..][k] == rest.value && forall j :: 0 <= j < k ==> !p(xs[1..][j]);
          assert forall j :: 1 <= j < k + 1 ==> !p(xs[j]) by {
            forall j | 1 <= j < k + 1 ensures !p(xs[j]) { assert xs[j] == xs[1..][j - 1]; }
          }
        }
      }
      rest
  }
}

/** The linear scans the library performs over its vectors.

Frame::getIndexOfPart and the AnimatedModel membership tests stop at the
FIRST match; the `usemtl` material scan has no `break` and so ends on the
LAST match. Both are defined once here, as the loops are written.
 */
module Search {
  import opened Results

  /** Index of the first `x` in `xs[from..]`, or -1 when there is none. */
  function FirstIndexFrom<T(==)>(xs: seq<T>, x: T, from: nat): (r: int)
    requires from <= |xs|
    ensures r == -1 || from <= r < |xs|
    ensures r == -1 <==> x !in xs[from..]
    ensures r != -1 ==> xs[r] == x && forall j :: from <= j < r ==> xs[j] != x
    decreases |xs| - from
  {
    if from == |xs| then -1
    else if xs[from] == x then from
    else FirstIndexFrom(xs, x, from + 1)
  }

  /** Index of the first `x` in `xs`, or -1. */
  function FirstIndex<T(==)>(xs: seq<T>, x: T): (r: int)
    ensures r == -1 || 0 <= r < |xs|
    ensures r == -1 <==> x !in xs
    ensures r != -1 ==> xs[r] == x && forall j :: 0 <= j < r ==> xs[j] != x
  {
    assert xs[0..] == xs;
    FirstIndexFrom(xs, x, 0)
  }

  /** The scan `for i in 0..|xs|: if xs[i] == x then found := Some(i)`
      after its first `upto` iterations: the last match below `upto`. */
  function LastIndexBelow<T(==)>(xs: seq<T>, x: T, upto: nat): (r: Option<nat>)
    requires upto <= |xs|
    ensures r.None? <==> x !in xs[..upto]
    ensures r.Some? ==> r.value < upto && xs[r.value] == x
                        && forall j :: r.value < j < upto ==> xs[j] != x
  {
    if upto == 0 then None
    else
      var earlier := LastIndexBelow(xs, x, upto - 1);
      assert xs[..upto] == xs[..upto - 1] + [xs[upto - 1]];
      if xs[upto - 1] == x then Some(upto - 1) else earlier
  }

  /** Index of the last `x` in `xs`, or None. */
  function LastIndex<T(==)>(xs: seq<T>, x: T): (r: Option<nat>)
    ensures r.None? <==> x !in xs
    ensures r.Some? ==> r.value < |xs| && xs[r.value] == x
                        && forall j :: r.value < j < |xs| ==> xs[j] != x
  {
    assert xs[..|xs|] == xs;
    LastIndexBelow(xs, x, |xs|)
  }

  /** Appending an element leaves the first occurrence of anything already
      present where it was, and puts a new element at the old length. */
  lemma FirstIndexAppend<T>(xs: seq<T>, y: T, x: T)
    ensures FirstIndex(xs + [y], x) ==
            (if x in xs then FirstIndex(xs, x) else if x == y then |xs| else -1)
  {
    var r := FirstIndex(xs + [y], x);
    if x in xs {
      var i := FirstIndex(xs, x);
      assert (xs + [y])[i] == x;
    } else if x == y {
      assert (xs + [y])[|xs|] == x;
    }
  }
}

/** Animation::interpolate: each pass inserts, after every frame, the blend
of that frame with the next one (with `join`, the last frame is also blended
with the first), doubling the number of frames.
 */
module Interpolation {
  import opened Results
  import opened Keyframes
  import opened Arith

  /** The number of frames after one pass over `n` frames. */
  function PassLength(n: nat, join: bool): nat
  {
    if n == 0 then 0 else if join then 2 * n else 2 * n - 1
  }

  /** Whether original `i` of `n` gets a blended frame after it. */
  predicate HasSuccessor(n: nat, i: nat, join: bool)
  {
    i < n - 1 || join
  }

  /** The frame after position i, wrapping to the first after the last. */
  function NextFrame(frames: seq<Frame>, i: nat): Frame
    requires i < |frames|
  {
    if i + 1 < |frames| then frames[i + 1] else frames[0]
  }

  /** Every blend one pass performs reads only existing entries. */
  predicate PassBlendable(frames: seq<Frame>, join: bool)
  {
    forall i :: 0 <= i < |frames| && HasSuccessor(|frames|, i, join) ==>
      Blend(frames[i], NextFrame(frames, i)).Ok?
  }

  /** The result of one pass, stated independently of the insertion loop:
      the originals in order at the even positions, and after original i the
      blend of it with the next original (the first one, after the last,
      with `join`). */
  predicate IsPassOf(frames: seq<Frame>, join: bool, r: seq<Frame>)
  {
    && |r| == PassLength(|frames|, join)
    && (forall i :: 0 <= i < |frames| ==> r[2 * i] == frames[i])
    && (forall i :: 0 <= i < |frames| && HasSuccessor(|frames|, i, join) ==>
          Blend(frames[i], NextFrame(frames, i)) == Ok(r[2 * i + 1]))
  }

  /** The list part-way through a pass: the first k originals are done
      (each followed by its blend), the rest are still untouched. */
  predicate PassPrefix(frames: seq<Frame>, join: bool, fs: seq<Frame>, k: nat)
  {
    && k <= |frames| && |fs| == k + |frames|
    && fs[2 * k..] == frames[k..]
    && forall m :: 0 <= m < k ==>
         && fs[2 * m] == frames[m]
         && HasSuccessor(|frames|, m, join)
         && Blend(frames[m], NextFrame(frames, m)) == Ok(fs[2 * m + 1])
  }

  /** At position 2k of a partial pass sit original k and, behind it, the
      original the blend needs. */
  lemma PassPrefixReads(frames: seq<Frame>, join: bool, fs: seq<Frame>, k: nat)
    requires PassPrefix(frames, join, fs, k) && k < |frames|
    ensures fs[2 * k] == frames[k]
    ensures 2 * k + 1 < |fs| ==> fs[2 * k + 1] == NextFrame(frames, k)
    ensures 2 * k + 1 == |fs| ==> fs[0] == NextFrame(frames, k)
  {
    assert fs[2 * k..][0] == frames[k..][0];
    if 2 * k + 1 < |fs| {
      assert fs[2 * k..][1] == frames[k..][1];
    } else if k > 0 {
      assert fs[2 * 0] == frames[0];
    }
  }

  /** Inserting original k's blend behind it completes original k. */
  lemma PassPrefixInsert(frames: seq<Frame>, join: bool, fs: seq<Frame>, k: nat, b: Frame)
    requires PassPrefix(frames, join, fs, k) && k < |frames|
    requires HasSuccessor(|frames|, k, join)
    requires Blend(frames[k], NextFrame(frames, k)) == Ok(b)
    ensures PassPrefix(frames, join, fs[..2 * k + 1] + [b] + fs[2 * k + 1..], k + 1)
  {
    var next := fs[..2 * k + 1] + [b] + fs[2 * k + 1..];
    PassPrefixReads(frames, join, fs, k);
    assert forall m :: 0 <= m < 2 * k + 1 ==> next[m] == fs[m];
    assert next[2 * k + 1] == b;
    assert next[2 * (k + 1)..] == fs[2 * k + 1..];
    assert fs[2 * k + 1..] == frames[k + 1..] by {
      assert fs[2 * k..][1..] == frames[k..][1..];
    }
  }

  /** A pass is finished when every original is done, or, without `join`,
      when all but the last are. */
  lemma PassPrefixComplete(frames: seq<Frame>, join: bool, fs: seq<Frame>, k: nat)
    requires PassPrefix(frames, join, fs, k)
    requires k == if join || |frames| == 0 then |frames| else |frames| - 1
    ensures IsPassOf(frames, join, fs)
  {
    if k < |frames| {
      PassPrefixReads(frames, join, fs, k);
    }
  }

  /** One pass of the outer loop of Animation::interpolate: walk the list,
      insert the blend after position i, and skip over it. */
  method InterpolatePass(frames: seq<Frame>, join: bool) returns (r: Result<seq<Frame>>)
    ensures r.Ok? <==> PassBlendable(frames, join)
    ensures r.Ok? ==> IsPassOf(frames, join, r.value)
    ensures r.Err? ==> r.error == EntryOutOfRange
  {
    var n := |frames|;
    var fs := frames;
    var i := 0;
    var k := 0;
    assert fs[2 * k..] == frames[k..];
    while i < |fs|
      invariant i == 2 * k && PassPrefix(frames, join, fs, k)
      invariant join || n == 0 || k < n
      decreases n - k
    {
      PassPrefixReads(frames, join, fs, k);
      var next: Frame;
      if i == |fs| - 1 {
        if !join {
          break;
        }
        next := fs[0];
      } else {
        next := fs[i + 1];
      }
      var blended := Blend(fs[i], next);
      if blended.Err? {
        assert HasSuccessor(n, k, join);
        return Err(EntryOutOfRange);
      }
      PassPrefixInsert(frames, join, fs, k, blended.value);
      fs := fs[..i + 1] + [blended.value] + fs[i + 1..];
      i := i + 2;
      k := k + 1;
    }
    PassPrefixComplete(frames, join, fs, k);
    return Ok(fs);
  }

  /** Entry j of a pass over `frames`: original j / 2 at even j, its blend
      with the next original at odd j. */
  function PassEntry(frames: seq<Frame>, join: bool, j: nat): Frame
    requires j < PassLength(|frames|, join) && PassBlendable(frames, join)
  {
    var i := j / 2;
    if j % 2 == 0 then frames[i]
    else
      assert HasSuccessor(|frames|, i, join);
      Blend(frames[i], NextFrame(frames, i)).value
  }

  lemma PassEntryEven(frames: seq<Frame>, join: bool, i: nat)
    requires PassBlendable(frames, join) && i < |frames|
    ensures 2 * i < PassLength(|frames|, join)
    ensures PassEntry(frames, join, 2 * i) == frames[i]
  {
    var j := 2 * i;
    assert j / 2 == i && j % 2 == 0;
  }

  lemma PassEntryOdd(frames: seq<Frame>, join: bool, i: nat)
    requires PassBlendable(frames, join) && i < |frames| && HasSuccessor(|frames|, i, join)
    ensures 2 * i + 1 < PassLength(|frames|, join)
    ensures Blend(frames[i], NextFrame(frames, i)) == Ok(PassEntry(frames, join, 2 * i + 1))
  {
    var j := 2 * i + 1;
    assert j / 2 == i && j % 2 == 1;
  }

  lemma PassEntries(frames: seq<Frame>, join: bool, r: seq<Frame>)
    requires PassBlendable(frames, join)
    requires |r| == PassLength(|frames|, join)
    requires forall j :: 0 <= j < |r| ==> r[j] == PassEntry(frames, join, j)
    ensures IsPassOf(frames, join, r)
  {
    forall i | 0 <= i < |frames|
      ensures r[2 * i] == frames[i]
    {
      PassEntryEven(frames, join, i);
    }
    forall i | 0 <= i < |frames| && HasSuccessor(|frames|, i, join)
      ensures Blend(frames[i], NextFrame(frames, i)) == Ok(r[2 * i + 1])
    {
      PassEntryOdd(frames, join, i);
    }
  }

  /** One pass as a single definition, independent of the insertion loop:
      it fails exactly when some blend would read a missing entry, and
      otherwise lists each original followed by its blend. */
  function PassOf(frames: seq<Frame>, join: bool): (r: Result<seq<Frame>>)
    ensures r.Ok? <==> PassBlendable(frames, join)
    ensures r.Err? ==> r.error == EntryOutOfRange
    ensures r.Ok? ==> IsPassOf(frames, join, r.value)
  {
    if !PassBlendable(frames, join) then Err(EntryOutOfRange)
    else
      var n := PassLength(|frames|, join);
      var r := seq(n, j requires 0 <= j < n => PassEntry(frames, join, j));
      PassEntries(frames, join, r);
      Ok(r)
  }

  /** IsPassOf determines the pass: two lists that both satisfy it are
      equal. */
  lemma PassUnique(frames: seq<Frame>, join: bool, a: seq<Frame>, b: seq<Frame>)
    requires IsPassOf(frames, join, a) && IsPassOf(frames, join, b)
    ensures a == b
  {
    forall j | 0 <= j < |a|
      ensures a[j] == b[j]
    {
      var i := j / 2;
      if j % 2 == 0 {
        assert a[2 * i] == frames[i] == b[2 * i];
      } else {
        assert HasSuccessor(|frames|, i, join);
        assert Blend(frames[i], NextFrame(frames, i)) == Ok(a[2 * i + 1]);
        assert Blend(frames[i], NextFrame(frames, i)) == Ok(b[2 * i + 1]);
      }
    }
  }

  /** `p` passes, one after the other; the first failing pass ends it. */
  function Iterate(frames: seq<Frame>, join: bool, p: nat): (r: Result<seq<Frame>>)
    ensures r.Err? ==> r.error == EntryOutOfRange
  {
    if p == 0 then Ok(frames)
    else
      var fs :- Iterate(frames, join, p - 1);
      PassOf(fs, join)
  }

  /** Once a pass fails, every later count of passes fails too. */
  lemma {:induction false} IterateFailureStays(frames: seq<Frame>, join: bool, p: nat, q: nat)
    requires p <= q && Iterate(frames, join, p).Err?
    ensures Iterate(frames, join, q) == Err(EntryOutOfRange)
    decreases q - p
  {
    if p < q {
      IterateFailureStays(frames, join, p + 1, q);
    }
  }

  /** Two frames, one pass: the blend of the two is inserted between them;
      with `join` the blend of the second with the first follows. */
  lemma TwoFramesOnePass(f0: Frame, f1: Frame)
    requires Parallel(f0) && Parallel(f1) && |f0.partNames| == |f1.partNames|
    ensures Blend(f0, f1).Ok? && Blend(f1, f0).Ok?
    ensures Iterate([f0, f1], false, 1) == Ok([f0, Blend(f0, f1).value, f1])
    ensures Iterate([f0, f1], true, 1) == Ok([f0, Blend(f0, f1).value, f1, Blend(f1, f0).value])
  {
    var frames := [f0, f1];
    assert Uniform(frames);
    UniformPass(frames, false, []);
    UniformPass(frames, true, []);
    var open := [f0, Blend(f0, f1).value, f1];
    var joined := [f0, Blend(f0, f1).value, f1, Blend(f1, f0).value];
    assert IsPassOf(frames, false, open) by {
      assert open[2 * 0] == frames[0] && open[2 * 1] == frames[1];
    }
    assert IsPassOf(frames, true, joined) by {
      assert joined[2 * 0] == frames[0] && joined[2 * 1] == frames[1];
      assert NextFrame(frames, 1) == f0;
    }
    PassUnique(frames, false, open, PassOf(frames, false).value);
    PassUnique(frames, true, joined, PassOf(frames, true).value);
  }

  /** All frames are parallel and name the same number of parts. */
  predicate Uniform(frames: seq<Frame>)
  {
    forall i :: 0 <= i < |frames| ==>
      Parallel(frames[i]) && |frames[i].partNames| == |frames[0].partNames|
  }

  /** Each entry of a pass over uniform frames is parallel and names as
      many parts as the first original. */
  lemma UniformEntry(frames: seq<Frame>, join: bool, r: seq<Frame>, j: nat)
    requires Uniform(frames) && IsPassOf(frames, join, r) && j < |r|
    ensures Parallel(r[j]) && |r[j].partNames| == |frames[0].partNames|
  {
    var i := j / 2;
    if j % 2 == 0 {
      assert r[2 * i] == frames[i];
    } else {
      assert HasSuccessor(|frames|, i, join);
      assert Blend(frames[i], NextFrame(frames, i)) == Ok(r[2 * i + 1]);
    }
  }

  /** Uniform frames can always be blended, and a pass keeps them uniform. */
  lemma UniformPass(frames: seq<Frame>, join: bool, r: seq<Frame>)
    requires Uniform(frames)
    ensures PassBlendable(frames, join)
    ensures IsPassOf(frames, join, r) ==> Uniform(r)
  {
    if IsPassOf(frames, join, r) && |r| > 0 {
      UniformEntry(frames, join, r, 0);
      forall j | 0 <= j < |r|
        ensures Parallel(r[j]) && |r[j].partNames| == |r[0].partNames|
      {
        UniformEntry(frames, join, r, j);
      }
    }
  }

  /** The number of frames after `p` passes over `n` frames. */
  function IteratedLength(n: nat, p: nat, join: bool): nat
  {
    if p == 0 then n else PassLength(IteratedLength(n, p - 1, join), join)
  }

  /** Where original i sits after `p` passes: each pass doubles it. */
  function Position(i: nat, p: nat): nat
  {
    if p == 0 then i else 2 * Position(i, p - 1)
  }

  lemma {:induction false} PositionInRange(n: nat, i: nat, p: nat, join: bool)
    requires i < n
    ensures Position(i, p) < IteratedLength(n, p, join)
    decreases p
  {
    if p > 0 {
      PositionInRange(n, i, p - 1, join);
    }
  }

  function Pow2(p: nat): (r: nat)
    ensures r >= 1
  {
    if p == 0 then 1 else 2 * Pow2(p - 1)
  }

  /** The closed form: with `join` the count doubles each pass; without,
      the last frame gets no partner, so (n - 1) * 2^p + 1. */
  function InterpolatedLength(n: nat, p: nat, join: bool): nat
  {
    if n == 0 then 0 else if join then n * Pow2(p) else (n - 1) * Pow2(p) + 1
  }

  /** One pass with `join` doubles the closed form. */
  lemma ClosedFormStepJoin(n: nat, p: nat)
    requires p > 0 && n > 0
    requires IteratedLength(n, p - 1, true) == InterpolatedLength(n, p - 1, true)
    ensures IteratedLength(n, p, true) == InterpolatedLength(n, p, true)
  {
    var q := Pow2(p - 1);
    var len := IteratedLength(n, p - 1, true);
    assert Pow2(p) == 2 * q;
    assert len == n * q;
    MulMonotone(1, n, q);
    assert IteratedLength(n, p, true) == 2 * len;
    assert 2 * (n * q) == n * (2 * q);
  }

  /** One pass without `join` maps (n - 1) * q + 1 to (n - 1) * 2q + 1. */
  lemma ClosedFormStepOpen(n: nat, p: nat)
    requires p > 0 && n > 0
    requires IteratedLength(n, p - 1, false) == InterpolatedLength(n, p - 1, false)
    ensures IteratedLength(n, p, false) == InterpolatedLength(n, p, false)
  {
    var q := Pow2(p - 1);
    var len := IteratedLength(n, p - 1, false);
    assert Pow2(p) == 2 * q;
    assert len == (n - 1) * q + 1;
    assert IteratedLength(n, p, false) == 2 * len - 1;
    assert 2 * ((n - 1) * q) == (n - 1) * (2 * q);
  }

  lemma {:induction false} IteratedLengthClosedForm(n: nat, p: nat, join: bool)
    ensures IteratedLength(n, p, join) == InterpolatedLength(n, p, join)
    decreases p
  {
    if p > 0 && n > 0 {
      IteratedLengthClosedForm(n, p - 1, join);
      if join {
        ClosedFormStepJoin(n, p);
      } else {
        ClosedFormStepOpen(n, p);
      }
    } else if p > 0 {
      IteratedLengthClosedForm(n, p - 1, join);
    }
  }

  lemma {:induction false} PositionClosedForm(i: nat, p: nat)
    ensures Position(i, p) == i * Pow2(p)
    decreases p
  {
    if p > 0 {
      PositionClosedForm(i, p - 1);
      var q := Pow2(p - 1);
      assert i * (2 * q) == 2 * (i * q);
    }
  }

  /** After `p` passes, original i still sits at Position(i, p). */
  predicate KeepsOriginals(frames: seq<Frame>, fs: seq<Frame>, p: nat)
  {
    forall i :: 0 <= i < |frames| ==> Position(i, p) < |fs| && fs[Position(i, p)] == frames[i]
  }

  /** Original i, at Position(i, p) before a pass, is at Position(i, p + 1)
      after it. */
  lemma PassKeepsPositions(frames: seq<Frame>, fs: seq<Frame>, join: bool, p: nat, next: seq<Frame>)
    requires |fs| == IteratedLength(|frames|, p, join)
    requires KeepsOriginals(frames, fs, p)
    requires IsPassOf(fs, join, next)
    ensures |next| == IteratedLength(|frames|, p + 1, join)
    ensures KeepsOriginals(frames, next, p + 1)
  {
    assert |next| == PassLength(|fs|, join);
    var q := p + 1;
    forall i | 0 <= i < |frames|
      ensures Position(i, q) < |next| && next[Position(i, q)] == frames[i]
    {
      var j := Position(i, p);
      assert j < |fs| && fs[j] == frames[i];
      assert Position(i, q) == 2 * j;
      assert next[2 * j] == fs[j];
    }
  }

  /** The originals, in order, 2^p positions apart, starting at 0. */
  predicate Spread(frames: seq<Frame>, fs: seq<Frame>, p: nat)
  {
    forall i :: 0 <= i < |frames| ==> i * Pow2(p) < |fs| && fs[i * Pow2(p)] == frames[i]
  }

  /** The positions and length after `p` passes, in closed form. */
  lemma ClosedForms(frames: seq<Frame>, fs: seq<Frame>, p: nat, join: bool)
    requires |fs| == IteratedLength(|frames|, p, join)
    requires KeepsOriginals(frames, fs, p)
    ensures |fs| == InterpolatedLength(|frames|, p, join)
    ensures Spread(frames, fs, p)
  {
    IteratedLengthClosedForm(|frames|, p, join);
    forall i | 0 <= i < |frames|
      ensures i * Pow2(p) < |fs| && fs[i * Pow2(p)] == frames[i]
    {
      PositionClosedForm(i, p);
    }
  }

  /** After `p` successful passes the frames number IteratedLength and
      original i sits at Position(i, p). */
  lemma {:induction false} IterateShape(frames: seq<Frame>, join: bool, p: nat)
    ensures Iterate(frames, join, p).Ok? ==>
              && |Iterate(frames, join, p).value| == IteratedLength(|frames|, p, join)
              && KeepsOriginals(frames, Iterate(frames, join, p).value, p)
    decreases p
  {
    if p > 0 && Iterate(frames, join, p).Ok? {
      IterateShape(frames, join, p - 1);
      var fs := Iterate(frames, join, p - 1).value;
      PassKeepsPositions(frames, fs, join, p - 1, PassOf(fs, join).value);
    }
  }

  /** Uniform frames survive any number of passes, and stay uniform. */
  lemma {:induction false} IterateUniform(frames: seq<Frame>, join: bool, p: nat)
    requires Uniform(frames)
    ensures Iterate(frames, join, p).Ok? && Uniform(Iterate(frames, join, p).value)
    decreases p
  {
    if p > 0 {
      IterateUniform(frames, join, p - 1);
      var fs := Iterate(frames, join, p - 1).value;
      UniformPass(fs, join, PassOf(fs, join).value);
    }
  }

  /** Uniform frames never make a pass fail. */
  lemma UniformIterates(frames: seq<Frame>, join: bool, p: nat)
    ensures Uniform(frames) ==> Iterate(frames, join, p).Ok?
  {
    if Uniform(frames) {
      IterateUniform(frames, join, p);
    }
  }

  /** After `p` successful passes the originals sit 2^p apart in a list of
      InterpolatedLength frames. */
  lemma IterateClosedForms(frames: seq<Frame>, join: bool, p: nat)
    ensures var r := Iterate(frames, join, p);
            r.Ok? ==> |r.value| == InterpolatedLength(|frames|, p, join) && Spread(frames, r.value, p)
  {
    IterateShape(frames, join, p);
    if Iterate(frames, join, p).Ok? {
      ClosedForms(frames, Iterate(frames, join, p).value, p, join);
    }
  }

  /** One pass of Animation::interpolate: the insertion loop computes the
      pass the reference definition describes. */
  method NextPass(frames: seq<Frame>, fs: seq<Frame>, join: bool, p: nat) returns (r: Result<seq<Frame>>)
    requires Iterate(frames, join, p) == Ok(fs)
    ensures r == PassOf(fs, join)
    ensures r == Iterate(frames, join, p + 1)
  {
    r := InterpolatePass(fs, join);
    if r.Ok? {
      PassUnique(fs, join, r.value, PassOf(fs, join).value);
    }
  }

  /** The outer loop of Animation::interpolate: `total` passes in turn,
      stopping at the first that fails. */
  method RunPasses(frames: seq<Frame>, join: bool, total: nat) returns (r: Result<seq<Frame>>)
    ensures r == Iterate(frames, join, total)
  {
    var fs := frames;
    var p := 0;
    while p < total
      invariant p <= total
      invariant Iterate(frames, join, p) == Ok(fs)
    {
      var pass := NextPass(frames, fs, join, p);
      if pass.Err? {
        IterateFailureStays(frames, join, p + 1, total);
        return Err(EntryOutOfRange);
      }
      fs := pass.value;
      p := p + 1;
    }
    return Ok(fs);
  }

  /** Animation::interpolate(passes, join): `passes` passes (none when it is
      not positive), each the pass PassOf describes. Each pass doubles the
      frames (join) or nearly doubles them, and the originals stay in order,
      2^passes positions apart. */
  method Interpolate(frames: seq<Frame>, passes: int, join: bool) returns (r: Result<seq<Frame>>)
    ensures r == Iterate(frames, join, if passes < 0 then 0 else passes)
    ensures r.Err? ==> r.error == EntryOutOfRange
    ensures Uniform(frames) ==> r.Ok?
    ensures passes <= 0 ==> r == Ok(frames)
    ensures r.Ok? ==>
              var p := if passes < 0 then 0 else passes;
              && |r.value| == InterpolatedLength(|frames|, p, join)
              && Spread(frames, r.value, p)
  {
    var total: nat := if passes < 0 then 0 else passes;
    r := RunPasses(frames, join, total);
    UniformIterates(frames, join, total);
    IterateClosedForms(frames, join, total);
  }
}

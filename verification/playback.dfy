/** AnimatedModel: a model bound to a list of attached animations, each
with its own frame cursor, and the transform trace `draw` issues.

An `Animation*` is compared by identity only, so it becomes a Handle; what
a handle points to is given by a Library. The GL matrix calls become an
abstract trace of Op values: only their order is modelled, not the matrix
arithmetic behind them.
 */
module Playback {
  import opened Results
  import opened Search
  import opened Geometry
  import opened Scene
  import opened Keyframes
  import opened Tokenizer
  import World
  import ObjLoader
  import Materials

  /** The identity of an Animation object. */
  type Handle = nat

  /** The frames of the Animation each handle points to. */
  type Library = Handle -> seq<Frame>

  /** AnimatedModel: the drawn model, the attached animations in
      attachment order and one frame cursor per attached animation. */
  datatype AnimatedModel = AnimatedModel(model: Model, animations: seq<Handle>, positions: seq<real>)

  /** The GL calls `draw` makes, as a trace. */
  datatype Op =
    | PushMatrix
    | PopMatrix
    | Translate(offset: Vec3)
    | Rotate(angle: real, axis: Axis)
    | DrawPart(index: nat)

  /** The constructor: nothing attached yet. */
  function Attach(model: Model): (am: AnimatedModel)
    ensures Valid(am) && am.model == model && |am.animations| == 0
  {
    AnimatedModel(model, [], [])
  }

  /** One cursor per attached animation, in the same order. */
  predicate Lockstep(am: AnimatedModel)
  {
    |am.animations| == |am.positions|
  }

  /** No handle occurs twice. */
  predicate Distinct(xs: seq<Handle>)
  {
    forall i, j :: 0 <= i < j < |xs| ==> xs[i] != xs[j]
  }

  /** Lockstep, and no animation attached twice. */
  predicate Valid(am: AnimatedModel)
  {
    Lockstep(am) && Distinct(am.animations)
  }

  /** Erasing entry i of a list without repeats leaves a list without
      repeats that no longer holds the erased handle. */
  lemma EraseDistinct(xs: seq<Handle>, i: nat)
    requires Distinct(xs) && i < |xs|
    ensures Distinct(xs[..i] + xs[i + 1..])
    ensures xs[i] !in xs[..i] + xs[i + 1..]
  {
    var ys := xs[..i] + xs[i + 1..];
    forall j, k | 0 <= j < k < |ys|
      ensures ys[j] != ys[k]
    {
      var j' := if j < i then j else j + 1;
      var k' := if k < i then k else k + 1;
      assert ys[j] == xs[j'];
      assert ys[k] == xs[k'];
    }
    forall k | 0 <= k < |ys|
      ensures ys[k] != xs[i]
    {
      var k' := if k < i then k else k + 1;
      assert ys[k] == xs[k'];
    }
  }

  /** AnimatedModel::animationExists: a scan for the same pointer. */
  function AnimationExists(am: AnimatedModel, a: Handle): (r: bool)
    ensures r <==> a in am.animations
  {
    FirstIndex(am.animations, a) != -1
  }

  /** AnimatedModel::addAnimation: a new animation goes last with cursor 0;
      one already attached changes nothing. */
  function AddAnimation(am: AnimatedModel, a: Handle): (r: AnimatedModel)
    ensures a in r.animations && r.model == am.model
    ensures a in am.animations ==> r == am
    ensures a !in am.animations ==>
              && r.animations == am.animations + [a]
              && r.positions == am.positions + [0.0]
    ensures Lockstep(am) ==> Lockstep(r)
    ensures Valid(am) ==> Valid(r)
  {
    if FirstIndex(am.animations, a) != -1 then am
    else AnimatedModel(am.model, am.animations + [a], am.positions + [0.0])
  }

  /** AnimatedModel::removeAnimation: the first occurrence is erased from
      both lists at the same index; an absent animation changes nothing. */
  function RemoveAnimation(am: AnimatedModel, a: Handle): (r: AnimatedModel)
    requires Lockstep(am)
    ensures Lockstep(r) && r.model == am.model
    ensures a !in am.animations ==> r == am
    ensures a in am.animations ==>
              exists i :: 0 <= i < |am.animations| && am.animations[i] == a
                && (forall j :: 0 <= j < i ==> am.animations[j] != a)
                && r.animations == am.animations[..i] + am.animations[i + 1..]
                && r.positions == am.positions[..i] + am.positions[i + 1..]
    ensures Valid(am) ==> Valid(r) && a !in r.animations
  {
    var i := FirstIndex(am.animations, a);
    if i == -1 then am
    else
      var r := AnimatedModel(am.model, am.animations[..i] + am.animations[i + 1..],
                             am.positions[..i] + am.positions[i + 1..]);
      assert Valid(am) ==> Valid(r) && a !in r.animations by {
        if Valid(am) {
          EraseDistinct(am.animations, i);
        }
      }
      r
  }

  /** Attaching twice is attaching once. */
  lemma AddAnimationIdempotent(am: AnimatedModel, a: Handle)
    ensures AddAnimation(AddAnimation(am, a), a) == AddAnimation(am, a)
  {
  }

  /** Attaching a new animation and detaching it again restores the model. */
  lemma RemoveUndoesAdd(am: AnimatedModel, a: Handle)
    requires Lockstep(am) && a !in am.animations
    ensures RemoveAnimation(AddAnimation(am, a), a) == am
  {
    var added := AddAnimation(am, a);
    var n := |am.animations|;
    assert added.animations[n] == a;
    assert FirstIndex(added.animations, a) == n;
    assert added.animations[..n] == am.animations;
    assert added.positions[..n] == am.positions;
  }

  /** The cursor step of AnimatedModel::update for one animation of
      `frameCount` frames: advance, then back to 0 once the end is reached. */
  function Advance(position: real, delta: real, frameCount: nat): (r: real)
    ensures position + delta >= frameCount as real ==> r == 0.0
    ensures position + delta < frameCount as real ==> r == position + delta
  {
    var moved := position + delta;
    if moved >= frameCount as real then 0.0 else moved
  }

  /** A cursor inside an animation that is played forwards stays inside it:
      it moves by delta, or wraps to exactly 0 once it reaches the end. */
  lemma AdvanceStaysInRange(position: real, delta: real, frameCount: nat)
    requires 0.0 <= position < frameCount as real && delta >= 0.0
    ensures var r := Advance(position, delta, frameCount);
            && 0.0 <= r < frameCount as real
            && (r == position + delta || (r == 0.0 && position + delta >= frameCount as real))
  {
  }

  /** An animation without frames sends any cursor that moves to a
      non-negative position back to 0. */
  lemma AdvanceWithoutFrames(position: real, delta: real)
    requires position + delta >= 0.0
    ensures Advance(position, delta, 0) == 0.0
  {
  }

  /** AnimatedModel::update: every cursor advances by the same delta. */
  function Update(am: AnimatedModel, lib: Library, delta: real): (r: AnimatedModel)
    requires Lockstep(am)
    ensures Lockstep(r) && r.model == am.model && r.animations == am.animations
    ensures forall a :: 0 <= a < |r.positions| ==>
              var moved := am.positions[a] + delta;
              var count := |lib(am.animations[a])| as real;
              && (moved >= count ==> r.positions[a] == 0.0)
              && (moved < count ==> r.positions[a] == moved)
  {
    AnimatedModel(am.model, am.animations,
                  seq(|am.positions|, a requires 0 <= a < |am.positions| =>
                        Advance(am.positions[a], delta, |lib(am.animations[a])|)))
  }

  /** Every cursor lies inside its animation's frames. */
  predicate CursorsInRange(am: AnimatedModel, lib: Library)
    requires Lockstep(am)
  {
    forall a :: 0 <= a < |am.animations| ==>
      0.0 <= am.positions[a] < |lib(am.animations[a])| as real
  }

  /** Played forwards, cursors inside their animations stay inside. */
  lemma UpdateKeepsCursorsInRange(am: AnimatedModel, lib: Library, delta: real)
    requires Lockstep(am) && CursorsInRange(am, lib) && delta >= 0.0
    ensures CursorsInRange(Update(am, lib, delta), lib)
  {
    var r := Update(am, lib, delta);
    forall a | 0 <= a < |am.animations|
      ensures 0.0 <= r.positions[a] < |lib(am.animations[a])| as real
    {
      AdvanceStaysInRange(am.positions[a], delta, |lib(am.animations[a])|);
    }
  }

  /** The C++ conversion of a double cursor to the int frame index:
      truncation toward zero. */
  function Trunc(x: real): (r: int)
    ensures x >= 0.0 ==> r >= 0 && r as real <= x < r as real + 1.0
    ensures x < 0.0 ==> r <= 0 && r as real - 1.0 < x <= r as real
  {
    if x >= 0.0 then x.Floor else -((-x).Floor)
  }

  /** A cursor inside an animation selects an existing frame. */
  lemma TruncInRange(x: real, frameCount: nat)
    requires 0.0 <= x < frameCount as real
    ensures 0 <= Trunc(x) < frameCount
  {
  }

  /** Animation::performTransformation(name, frame): frames.at(frame)
      fails outside the frames; a part the frame does not name is left
      alone; otherwise the first entry for the name is applied as a
      translation, then rotations about z, y and x. */
  function PerformTransformation(frames: seq<Frame>, name: string, frame: int): (r: Result<seq<Op>>)
    ensures (frame < 0 || frame >= |frames|) <==> r == Err(FrameOutOfRange)
    ensures r.Err? ==> r.error == FrameOutOfRange || r.error == EntryOutOfRange
    ensures 0 <= frame < |frames| && name !in frames[frame].partNames ==> r == Ok([])
    ensures 0 <= frame < |frames| && Parallel(frames[frame]) ==> r.Ok?
    ensures r.Ok? && name in frames[frame].partNames ==>
              var f := frames[frame];
              var j := IndexOfPart(f, name);
              && j < |f.translations| && j < |f.rotations|
              && r.value == [Translate(f.translations[j]), Rotate(f.rotations[j].z, Z),
                             Rotate(f.rotations[j].y, Y), Rotate(f.rotations[j].x, X)]
  {
    if frame < 0 || frame >= |frames| then Err(FrameOutOfRange)
    else
      var f := frames[frame];
      var j := IndexOfPart(f, name);
      if j == -1 then Ok([])
      else
        var t :- ElementAt(f.translations, j, EntryOutOfRange);
        var rot :- ElementAt(f.rotations, j, EntryOutOfRange);
        Ok([Translate(t), Rotate(rot.z, Z), Rotate(rot.y, Y), Rotate(rot.x, X)])
  }

  /** The inner loop of `draw` for one part: each of the first `upto`
      attached animations transforms it in attachment order. */
  function AnimationOps(am: AnimatedModel, lib: Library, name: string, upto: nat): Result<seq<Op>>
    requires Lockstep(am) && upto <= |am.animations|
  {
    if upto == 0 then Ok([])
    else
      var earlier :- AnimationOps(am, lib, name, upto - 1);
      var a := upto - 1;
      var ops :- PerformTransformation(lib(am.animations[a]), name, Trunc(am.positions[a]));
      Ok(earlier + ops)
  }

  /** Whether Part::draw can run on a part: MaterialGroup::draw asks the
      material of every group for its texture, whether or not the group
      has faces. */
  predicate Drawable(p: Part)
  {
    forall j :: 0 <= j < |p.groups| ==> p.groups[j].material.Some?
  }

  /** Every part of a model is drawable. */
  predicate AllDrawable(m: Model)
  {
    forall i :: 0 <= i < |m.parts| ==> Drawable(m.parts[i])
  }

  /** The trace `draw` issues for part i: move the pivot to the origin,
      apply the animations, move it back, draw, and restore the matrix.
      Drawing a group without a material is a null dereference. */
  function PartTrace(am: AnimatedModel, lib: Library, i: nat): Result<seq<Op>>
    requires Lockstep(am) && i < |am.model.parts|
  {
    var p := am.model.parts[i];
    var ops :- AnimationOps(am, lib, p.name, |am.animations|);
    if !Drawable(p) then Err(NullDrawMaterial)
    else Ok([PushMatrix, Translate(p.center)] + ops + [Translate(Negate(p.center)), DrawPart(i), PopMatrix])
  }

  /** The traces of the first `upto` parts, in part order. */
  function PartsTrace(am: AnimatedModel, lib: Library, upto: nat): Result<seq<Op>>
    requires Lockstep(am) && upto <= |am.model.parts|
  {
    if upto == 0 then Ok([])
    else
      var earlier :- PartsTrace(am, lib, upto - 1);
      var ops :- PartTrace(am, lib, upto - 1);
      Ok(earlier + ops)
  }

  /** AnimatedModel::draw. */
  function Draw(am: AnimatedModel, lib: Library): Result<seq<Op>>
    requires Lockstep(am)
  {
    PartsTrace(am, lib, |am.model.parts|)
  }

  /** The parts drawn by a trace, in order. */
  function Drawn(ops: seq<Op>): (r: seq<nat>)
    ensures |r| <= |ops|
  {
    if |ops| == 0 then []
    else (if ops[0].DrawPart? then [ops[0].index] else []) + Drawn(ops[1..])
  }

  /** 0, 1, ..., n - 1. */
  function Indices(n: nat): (r: seq<nat>)
    ensures |r| == n && forall i :: 0 <= i < n ==> r[i] == i
  {
    if n == 0 then [] else Indices(n - 1) + [n - 1]
  }

  /** The matrix-stack depth after a trace, or -1 once it underflows. */
  function Depth(ops: seq<Op>, depth: nat): int
  {
    if |ops| == 0 then depth
    else if ops[0].PushMatrix? then Depth(ops[1..], depth + 1)
    else if ops[0].PopMatrix? then (if depth == 0 then -1 else Depth(ops[1..], depth - 1))
    else Depth(ops[1..], depth)
  }

  /** Traces that neither push, pop nor draw. */
  predicate Transforms(ops: seq<Op>)
  {
    forall k :: 0 <= k < |ops| ==> ops[k].Translate? || ops[k].Rotate?
  }

  lemma {:induction false} DrawnAppend(xs: seq<Op>, ys: seq<Op>)
    ensures Drawn(xs + ys) == Drawn(xs) + Drawn(ys)
    decreases |xs|
  {
    if |xs| > 0 {
      assert (xs + ys)[1..] == xs[1..] + ys;
      DrawnAppend(xs[1..], ys);
    } else {
      assert xs + ys == ys;
    }
  }

  lemma {:induction false} DepthAppend(xs: seq<Op>, ys: seq<Op>, depth: nat)
    requires Depth(xs, depth) >= 0
    ensures Depth(xs + ys, depth) == Depth(ys, Depth(xs, depth) as nat)
    decreases |xs|
  {
    if |xs| > 0 {
      assert (xs + ys)[1..] == xs[1..] + ys;
      assert (xs + ys)[0] == xs[0];
      if xs[0].PushMatrix? {
        DepthAppend(xs[1..], ys, depth + 1);
      } else if xs[0].PopMatrix? {
        DepthAppend(xs[1..], ys, depth - 1);
      } else {
        DepthAppend(xs[1..], ys, depth);
      }
    } else {
      assert xs + ys == ys;
    }
  }

  /** Translations and rotations draw nothing and leave the stack alone. */
  lemma {:induction false} TransformsNeutral(ops: seq<Op>, depth: nat)
    requires Transforms(ops)
    ensures Drawn(ops) == [] && Depth(ops, depth) == depth
    decreases |ops|
  {
    if |ops| > 0 {
      assert Transforms(ops[1..]) by {
        forall k | 0 <= k < |ops[1..]|
          ensures ops[1..][k].Translate? || ops[1..][k].Rotate?
        {
          assert ops[1..][k] == ops[k + 1];
        }
      }
      assert ops[0].Translate? || ops[0].Rotate?;
      TransformsNeutral(ops[1..], depth);
    }
  }

  /** The animations only translate and rotate. */
  lemma {:induction false} AnimationOpsTransform(am: AnimatedModel, lib: Library, name: string, upto: nat)
    requires Lockstep(am) && upto <= |am.animations|
    ensures AnimationOps(am, lib, name, upto).Ok? ==> Transforms(AnimationOps(am, lib, name, upto).value)
    decreases upto
  {
    if upto > 0 {
      AnimationOpsTransform(am, lib, name, upto - 1);
    }
  }

  /** Each part's trace draws that part once and leaves the matrix stack
      as it found it, never popping below it. */
  lemma PartTraceShape(am: AnimatedModel, lib: Library, i: nat, depth: nat)
    requires Lockstep(am) && i < |am.model.parts|
    ensures var r := PartTrace(am, lib, i);
            r.Ok? ==> Drawn(r.value) == [i] && Depth(r.value, depth) == depth
  {
    var p := am.model.parts[i];
    var r := PartTrace(am, lib, i);
    if r.Ok? {
      var ops := AnimationOps(am, lib, p.name, |am.animations|).value;
      AnimationOpsTransform(am, lib, p.name, |am.animations|);
      TransformsNeutral(ops, depth + 1);
      var head: seq<Op> := [PushMatrix, Translate(p.center)];
      var tail: seq<Op> := [Translate(Negate(p.center)), DrawPart(i), PopMatrix];
      assert r.value == head + ops + tail;
      DrawnAppend(head + ops, tail);
      DrawnAppend(head, ops);
      assert Drawn(tail[2..]) == [] by { assert tail[2..][1..] == []; }
      assert Drawn(tail[1..]) == [i] by { assert tail[1..][1..] == tail[2..]; }
      assert Drawn(tail) == [i];
      assert Drawn(head) == [] by { assert head[1..][1..] == []; }
      assert Depth(head, depth) == depth + 1 by {
        assert head[1..][1..] == [];
        assert Depth(head[1..], depth + 1) == depth + 1;
      }
      assert Depth(tail, depth + 1) == depth by {
        assert tail[1..][1..] == tail[2..];
        assert tail[2..][1..] == [];
        assert Depth(tail[2..], depth + 1) == depth;
        assert Depth(tail[1..], depth + 1) == depth;
      }
      DepthAppend(head, ops, depth);
      DepthAppend(head + ops, tail, depth);
    }
  }

  /** `draw` visits every part once, in part order, and leaves the matrix
      stack balanced. */
  lemma {:induction false} PartsTraceShape(am: AnimatedModel, lib: Library, upto: nat)
    requires Lockstep(am) && upto <= |am.model.parts|
    ensures var r := PartsTrace(am, lib, upto);
            r.Ok? ==> Drawn(r.value) == Indices(upto) && Depth(r.value, 0) == 0
    decreases upto
  {
    if upto > 0 {
      var r := PartsTrace(am, lib, upto);
      if r.Ok? {
        assert PartsTrace(am, lib, upto - 1).Ok? && PartTrace(am, lib, upto - 1).Ok?;
        var earlier := PartsTrace(am, lib, upto - 1).value;
        var ops := PartTrace(am, lib, upto - 1).value;
        assert r.value == earlier + ops;
        PartsTraceShape(am, lib, upto - 1);
        PartTraceShape(am, lib, upto - 1, 0);
        DrawnAppend(earlier, ops);
        DepthAppend(earlier, ops, 0);
        assert Indices(upto) == Indices(upto - 1) + [upto - 1];
      }
    }
  }

  /** Every frame of every attached animation keeps parallel lists. */
  predicate WellFormed(am: AnimatedModel, lib: Library)
  {
    forall a :: 0 <= a < |am.animations| ==> AllParallel(lib(am.animations[a]))
  }

  lemma {:induction false} AnimationOpsSucceed(am: AnimatedModel, lib: Library, name: string, upto: nat)
    requires Lockstep(am) && upto <= |am.animations|
    requires CursorsInRange(am, lib) && WellFormed(am, lib)
    ensures AnimationOps(am, lib, name, upto).Ok?
    decreases upto
  {
    if upto > 0 {
      AnimationOpsSucceed(am, lib, name, upto - 1);
      var a := upto - 1;
      TruncInRange(am.positions[a], |lib(am.animations[a])|);
    }
  }

  lemma {:induction false} PartsTraceSucceeds(am: AnimatedModel, lib: Library, upto: nat)
    requires Lockstep(am) && upto <= |am.model.parts|
    requires CursorsInRange(am, lib) && WellFormed(am, lib) && AllDrawable(am.model)
    ensures PartsTrace(am, lib, upto).Ok?
    decreases upto
  {
    if upto > 0 {
      PartsTraceSucceeds(am, lib, upto - 1);
      AnimationOpsSucceed(am, lib, am.model.parts[upto - 1].name, |am.animations|);
    }
  }

  /** A part that is not drawable fails every trace that reaches it. */
  lemma {:induction false} PartsTraceNeedsDrawable(am: AnimatedModel, lib: Library, upto: nat)
    requires Lockstep(am) && upto <= |am.model.parts|
    ensures PartsTrace(am, lib, upto).Ok? ==>
              forall i :: 0 <= i < upto ==> Drawable(am.model.parts[i])
    decreases upto
  {
    if upto > 0 {
      PartsTraceNeedsDrawable(am, lib, upto - 1);
    }
  }

  /** With every cursor inside its animation, well-formed frames and every
      group bound to a material, `draw` succeeds; it never succeeds while a
      group is unbound; and a successful draw draws each part once, in
      order, with a balanced matrix stack. */
  lemma DrawShape(am: AnimatedModel, lib: Library)
    requires Lockstep(am)
    ensures CursorsInRange(am, lib) && WellFormed(am, lib) && AllDrawable(am.model) ==> Draw(am, lib).Ok?
    ensures Draw(am, lib).Ok? ==> AllDrawable(am.model)
    ensures var r := Draw(am, lib);
            r.Ok? ==> Drawn(r.value) == Indices(|am.model.parts|) && Depth(r.value, 0) == 0
  {
    if CursorsInRange(am, lib) && WellFormed(am, lib) && AllDrawable(am.model) {
      PartsTraceSucceeds(am, lib, |am.model.parts|);
    }
    PartsTraceNeedsDrawable(am, lib, |am.model.parts|);
    PartsTraceShape(am, lib, |am.model.parts|);
  }

  /** A part no current frame names is only moved to its pivot and back;
      drawing it fails only on a group without a material. */
  lemma {:induction false} UnanimatedPart(am: AnimatedModel, lib: Library, i: nat)
    requires Lockstep(am) && i < |am.model.parts|
    requires CursorsInRange(am, lib)
    requires forall a :: 0 <= a < |am.animations| ==>
               am.model.parts[i].name !in lib(am.animations[a])[Trunc(am.positions[a])].partNames
    ensures var p := am.model.parts[i];
            PartTrace(am, lib, i) ==
              if Drawable(p)
              then Ok([PushMatrix, Translate(p.center), Translate(Negate(p.center)), DrawPart(i), PopMatrix])
              else Err(NullDrawMaterial)
  {
    var p := am.model.parts[i];
    NoAnimationOps(am, lib, p.name, |am.animations|);
    var none: seq<Op> := [];
    assert [PushMatrix, Translate(p.center)] + none + [Translate(Negate(p.center)), DrawPart(i), PopMatrix]
        == [PushMatrix, Translate(p.center), Translate(Negate(p.center)), DrawPart(i), PopMatrix];
  }

  /** The point the translations of a trace move `pt` to, applied in trace
      order. Only translations are followed, so it is the GL transform only
      on traces without rotations. */
  function Displace(pt: Vec3, ops: seq<Op>): Vec3
    decreases |ops|
  {
    if |ops| == 0 then pt
    else Displace(if ops[0].Translate? then Translated(pt, ops[0].offset) else pt, ops[1..])
  }

  /** When a part is not animated, the translation to its pivot and the one
      back cancel: at the moment it is drawn, every point is where the
      translations found it. */
  lemma UnanimatedPartInPlace(am: AnimatedModel, lib: Library, i: nat, pt: Vec3)
    requires Lockstep(am) && i < |am.model.parts|
    requires CursorsInRange(am, lib)
    requires forall a :: 0 <= a < |am.animations| ==>
               am.model.parts[i].name !in lib(am.animations[a])[Trunc(am.positions[a])].partNames
    ensures PartTrace(am, lib, i).Ok? <==> Drawable(am.model.parts[i])
    ensures PartTrace(am, lib, i).Ok? ==>
              var ops := PartTrace(am, lib, i).value;
              && |ops| == 5 && ops[3] == DrawPart(i)
              && (forall k :: 0 <= k < 3 ==> !ops[k].Rotate?)
              && Displace(pt, ops[..3]) == pt
  {
    var c := am.model.parts[i].center;
    UnanimatedPart(am, lib, i);
    if !Drawable(am.model.parts[i]) {
      return;
    }
    var ops := PartTrace(am, lib, i).value;
    var s3: seq<Op> := [PushMatrix, Translate(c), Translate(Negate(c))];
    var s2: seq<Op> := [Translate(c), Translate(Negate(c))];
    var s1: seq<Op> := [Translate(Negate(c))];
    var s0: seq<Op> := [];
    assert ops[..3] == s3;
    assert s3[1..] == s2 && s2[1..] == s1 && s1[1..] == s0;
    NegateUndoesTranslation(pt, c);
    assert Displace(pt, s3) == Displace(pt, s2);
    assert Displace(pt, s2) == Displace(Translated(pt, c), s1);
    assert Displace(Translated(pt, c), s1) == Displace(Translated(Translated(pt, c), Negate(c)), s0);
  }

  lemma {:induction false} NoAnimationOps(am: AnimatedModel, lib: Library, name: string, upto: nat)
    requires Lockstep(am) && upto <= |am.animations|
    requires CursorsInRange(am, lib)
    requires forall a :: 0 <= a < |am.animations| ==>
               name !in lib(am.animations[a])[Trunc(am.positions[a])].partNames
    ensures AnimationOps(am, lib, name, upto) == Ok([])
    decreases upto
  {
    if upto > 0 {
      NoAnimationOps(am, lib, name, upto - 1);
      var a := upto - 1;
      TruncInRange(am.positions[a], |lib(am.animations[a])|);
      var frames := lib(am.animations[a]);
      assert name !in frames[Trunc(am.positions[a])].partNames;
      assert PerformTransformation(frames, name, Trunc(am.positions[a])) == Ok([]);
      assert AnimationOps(am, lib, name, upto - 1) == Ok([]);
      var none: seq<Op> := [];
      assert none + none == none;
    }
  }

  lemma {:induction false} PartsTraceWithoutAnimations(m: Model, lib: Library, upto: nat)
    requires upto <= |m.parts|
    ensures PartsTrace(Attach(m), lib, upto).Ok? <==> forall i :: 0 <= i < upto ==> Drawable(m.parts[i])
    ensures PartsTrace(Attach(m), lib, upto).Err? ==> PartsTrace(Attach(m), lib, upto).error == NullDrawMaterial
    decreases upto
  {
    if upto > 0 {
      PartsTraceWithoutAnimations(m, lib, upto - 1);
    }
  }

  /** A freshly attached model has no animations: drawing it fails only on
      a group without a material, and exactly when there is one. */
  lemma DrawWithoutAnimations(m: Model, lib: Library)
    ensures Draw(Attach(m), lib).Ok? <==> AllDrawable(m)
    ensures Draw(Attach(m), lib).Err? ==> Draw(Attach(m), lib).error == NullDrawMaterial
  {
    PartsTraceWithoutAnimations(m, lib, |m.parts|);
  }

  /** `g a` on a fresh reader opens the part "a" and no group. */
  lemma GroupLineExample(env: World.Env)
    ensures ObjLoader.Step(env, "m.obj", ObjLoader.Initial, "g a")
         == Ok(ObjLoader.Initial.(parts := [Part("a", [], Origin)]))
  {
    SplitTwoWords("g", "a");
    assert "g" + " " + "a" == "g a";
    assert TokenAt(["g", "a"], 1) == Ok("a");
    assert ObjLoader.Initial.parts + [Part("a", [], Origin)] == [Part("a", [], Origin)];
  }

  /** `usemtl x` with no material "x" then opens a group bound to none. */
  lemma UnknownUseMtlExample(env: World.Env)
    ensures var st1 := ObjLoader.Initial.(parts := [Part("a", [], Origin)]);
            ObjLoader.Step(env, "m.obj", st1, "usemtl x") ==
              Ok(st1.(parts := [Part("a", [Group(None, [])], Origin)], open := Some(ObjLoader.GroupRef(0, 0))))
  {
    var st1 := ObjLoader.Initial.(parts := [Part("a", [], Origin)]);
    SplitTwoWords("usemtl", "x");
    assert "usemtl" + " " + "x" == "usemtl x";
    assert TokenAt(["usemtl", "x"], 1) == Ok("x");
    assert LastIndex(Materials.Names(st1.materials), "x") == None;
    var empty: seq<Group> := [];
    assert empty + [Group(None, [])] == [Group(None, [])];
    assert ObjLoader.AppendGroup(st1.parts, Group(None, [])) == [Part("a", [Group(None, [])], Origin)];
  }

  /** The two lines read into one part holding one empty, unbound group. */
  lemma UnboundGroupLinesExample(env: World.Env)
    ensures ObjLoader.ParseLines(env, "m.obj", ObjLoader.Initial, ["g a", "usemtl x"]) ==
              Ok(ObjLoader.Initial.(parts := [Part("a", [Group(None, [])], Origin)],
                                    open := Some(ObjLoader.GroupRef(0, 0))))
  {
    var st1 := ObjLoader.Initial.(parts := [Part("a", [], Origin)]);
    var st2 := st1.(parts := [Part("a", [Group(None, [])], Origin)],
                    open := Some(ObjLoader.GroupRef(0, 0)));
    GroupLineExample(env);
    UnknownUseMtlExample(env);
    var lines := ["g a", "usemtl x"];
    assert lines[1..] == ["usemtl x"] && lines[1..][1..] == [];
    assert ObjLoader.ParseLines(env, "m.obj", st1, lines[1..]) == Ok(st2);
  }

  /** `usemtl` with a name no material has opens a group bound to no
      material. Left empty, the group is never uploaded, so the file loads;
      drawing the model then fails on that group. */
  lemma UnboundEmptyGroupLoadsButCannotDraw(env: World.Env, lib: Library)
    requires env.files == map["m.obj" := ["g a", "usemtl x"]]
    ensures ObjLoader.LoadModel(env, "m.obj").Ok?
    ensures var m := ObjLoader.LoadModel(env, "m.obj").value;
            && |m.parts| == 1 && m.parts[0].groups == [Group(None, [])]
            && Draw(Attach(m), lib) == Err(NullDrawMaterial)
  {
    var st2 := ObjLoader.Initial.(parts := [Part("a", [Group(None, [])], Origin)],
                                  open := Some(ObjLoader.GroupRef(0, 0)));
    UnboundGroupLinesExample(env);
    assert ObjLoader.AllUploadable(st2.parts, st2.materials);
    var m := ObjLoader.Finish(st2).value;
    assert ObjLoader.LoadModel(env, "m.obj") == Ok(m);
    assert !Drawable(m.parts[0]);
    DrawWithoutAnimations(m, lib);
  }
}

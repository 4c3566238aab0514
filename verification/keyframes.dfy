/** Frame and the Animation loader: keyframes of per-part translations and
rotations read from an animation file.

A Frame keeps three parallel lists: part names, translations, rotations.
An animation file has `f` lines, each starting a new frame, and
`t name tx ty tz rx ry rz` lines, each adding one entry to the latest frame.
 */
module Keyframes {
  import opened Results
  import opened Search
  import opened Geometry
  import opened Tokenizer
  import opened World

  datatype Frame = Frame(partNames: seq<string>, translations: seq<Vec3>, rotations: seq<Vec3>)

  const EmptyFrame: Frame := Frame([], [], [])

  /** The three lists of a frame are parallel: entry j of each belongs to
      the same part. */
  predicate Parallel(f: Frame)
  {
    |f.translations| == |f.partNames| && |f.rotations| == |f.partNames|
  }

  /** Frame::add: one entry appended to each list. */
  function Add(f: Frame, name: string, translation: Vec3, rotation: Vec3): (g: Frame)
    ensures Parallel(f) ==> Parallel(g)
    ensures |g.partNames| == |f.partNames| + 1 && |g.translations| == |f.translations| + 1
    ensures |g.rotations| == |f.rotations| + 1
    ensures g.partNames[..|f.partNames|] == f.partNames && g.partNames[|f.partNames|] == name
    ensures g.translations[..|f.translations|] == f.translations && g.translations[|f.translations|] == translation
    ensures g.rotations[..|f.rotations|] == f.rotations && g.rotations[|f.rotations|] == rotation
  {
    Frame(f.partNames + [name], f.translations + [translation], f.rotations + [rotation])
  }

  /** Frame::getIndexOfPart: the first entry with that name, or -1. */
  function IndexOfPart(f: Frame, name: string): (r: int)
    ensures r == -1 <==> name !in f.partNames
    ensures r != -1 ==> 0 <= r < |f.partNames| && f.partNames[r] == name
                        && forall j :: 0 <= j < r ==> f.partNames[j] != name
  {
    FirstIndex(f.partNames, name)
  }

  /** After an add, a name already present is still found where it was
      (the first entry wins), and a new name is found at the new entry. */
  lemma IndexOfPartAfterAdd(f: Frame, name: string, translation: Vec3, rotation: Vec3, query: string)
    ensures IndexOfPart(Add(f, name, translation, rotation), query) ==
              if query in f.partNames then IndexOfPart(f, query)
              else if query == name then |f.partNames|
              else -1
  {
    FirstIndexAppend(f.partNames, name, query);
  }

  /** The component-wise mean of two vectors. */
  function Mean(a: Vec3, b: Vec3): (m: Vec3)
    ensures forall ax :: Coord(m, ax) == (Coord(a, ax) + Coord(b, ax)) / 2.0
  {
    Vec3((a.x + b.x) / 2.0, (a.y + b.y) / 2.0, (a.z + b.z) / 2.0)
  }

  /** Whether every entry the blend of `f` with `g` reads exists: the loop
      runs over f's names and reads entry j of f's and g's vectors. */
  predicate Blendable(f: Frame, g: Frame)
  {
    var n := |f.partNames|;
    |f.translations| >= n && |f.rotations| >= n && |g.translations| >= n && |g.rotations| >= n
  }

  /** The frame `interpolate` inserts after `f` when the next frame is `g`:
      f's names, and for each position j the mean of entry j of both
      frames. Entries are paired by position, not by name. */
  function Blend(f: Frame, g: Frame): (r: Result<Frame>)
    ensures r.Ok? <==> Blendable(f, g)
    ensures r.Err? ==> r.error == EntryOutOfRange
    ensures r.Ok? ==>
              && Parallel(r.value)
              && r.value.partNames == f.partNames
              && forall j :: 0 <= j < |f.partNames| ==>
                   && r.value.translations[j] == Mean(f.translations[j], g.translations[j])
                   && r.value.rotations[j] == Mean(f.rotations[j], g.rotations[j])
  {
    var n := |f.partNames|;
    if !Blendable(f, g) then Err(EntryOutOfRange)
    else
      Ok(Frame(f.partNames,
               seq(n, j requires 0 <= j < n => Mean(f.translations[j], g.translations[j])),
               seq(n, j requires 0 <= j < n => Mean(f.rotations[j], g.rotations[j]))))
  }

  /** Blending a frame with itself gives the frame back. */
  lemma BlendSelf(f: Frame)
    requires Parallel(f)
    ensures Blend(f, f) == Ok(f)
  {
    var r := Blend(f, f).value;
    assert r.translations == f.translations;
    assert r.rotations == f.rotations;
  }

  /** One line of an animation file. The seven arguments of a `t` line are
      read before the current frame is dereferenced, so a short line reports
      MissingToken even before the first `f`. */
  function AnimationStep(env: Env, frames: seq<Frame>, line: string): (r: Result<seq<Frame>>)
  {
    var tokens := SplitLineWhitespace(line);
    if |tokens| == 0 then Ok(frames)
    else if tokens[0] == "f" then Ok(frames + [EmptyFrame])
    else if tokens[0] == "t" then
      var name :- TokenAt(tokens, 1);
      var tx :- TokenAt(tokens, 2);
      var ty :- TokenAt(tokens, 3);
      var tz :- TokenAt(tokens, 4);
      var rx :- TokenAt(tokens, 5);
      var ry :- TokenAt(tokens, 6);
      var rz :- TokenAt(tokens, 7);
      if |frames| == 0 then Err(NoFrame)
      else
        var last := |frames| - 1;
        Ok(frames[last := Add(frames[last], name,
                              Vec3(env.atof(tx), env.atof(ty), env.atof(tz)),
                              Vec3(env.atof(rx), env.atof(ry), env.atof(rz)))])
    else Ok(frames)
  }

  function AnimationLines(env: Env, frames: seq<Frame>, lines: seq<string>): Result<seq<Frame>>
    decreases |lines|
  {
    if |lines| == 0 then Ok(frames)
    else
      var next :- AnimationStep(env, frames, lines[0]);
      AnimationLines(env, next, lines[1..])
  }

  /** Animation::Animation(path). */
  function LoadAnimation(env: Env, path: string): (r: Result<seq<Frame>>)
    ensures path !in env.files ==> r == Err(CannotOpen(path))
  {
    var lines :- Open(env, path);
    AnimationLines(env, [], lines)
  }

  predicate IsFrameLine(line: string)
  {
    var tokens := SplitLineWhitespace(line);
    |tokens| > 0 && tokens[0] == "f"
  }

  function FrameLineCount(lines: seq<string>): nat
  {
    if |lines| == 0 then 0 else (if IsFrameLine(lines[0]) then 1 else 0) + FrameLineCount(lines[1..])
  }

  predicate AllParallel(frames: seq<Frame>)
  {
    forall i :: 0 <= i < |frames| ==> Parallel(frames[i])
  }

  /** A `t` line adds one entry to the latest frame and touches no other;
      before the first `f` it fails. */
  lemma TransformLineAddsToLatest(env: Env, frames: seq<Frame>, line: string)
    requires var tokens := SplitLineWhitespace(line); |tokens| >= 8 && tokens[0] == "t"
    ensures var tokens := SplitLineWhitespace(line);
            var r := AnimationStep(env, frames, line);
            && (|frames| == 0 <==> r == Err(NoFrame))
            && (|frames| > 0 ==>
                  && r.Ok? && |r.value| == |frames|
                  && r.value[..|frames| - 1] == frames[..|frames| - 1]
                  && var f := frames[|frames| - 1];
                     var g := r.value[|frames| - 1];
                     && g.partNames == f.partNames + [tokens[1]]
                     && g.translations == f.translations + [Vec3(env.atof(tokens[2]), env.atof(tokens[3]), env.atof(tokens[4]))]
                     && g.rotations == f.rotations + [Vec3(env.atof(tokens[5]), env.atof(tokens[6]), env.atof(tokens[7]))])
  {
  }

  lemma {:induction false} AnimationLinesShape(env: Env, frames: seq<Frame>, lines: seq<string>)
    requires AllParallel(frames)
    ensures var r := AnimationLines(env, frames, lines);
            r.Ok? ==> |r.value| == |frames| + FrameLineCount(lines) && AllParallel(r.value)
    decreases |lines|
  {
    if |lines| > 0 {
      var next := AnimationStep(env, frames, lines[0]);
      if next.Ok? {
        var tokens := SplitLineWhitespace(lines[0]);
        assert |next.value| == |frames| + (if IsFrameLine(lines[0]) then 1 else 0);
        assert AllParallel(next.value) by {
          forall i | 0 <= i < |next.value|
            ensures Parallel(next.value[i])
          {
            if i < |frames| && !(|tokens| > 0 && tokens[0] == "t" && i == |frames| - 1) {
              assert next.value[i] == frames[i];
            }
          }
        }
        AnimationLinesShape(env, next.value, lines[1..]);
      }
    }
  }

  /** A loaded animation has one frame per `f` line, and every frame's
      three lists are parallel. */
  lemma LoadAnimationShape(env: Env, path: string)
    ensures var r := LoadAnimation(env, path);
            r.Ok? ==> path in env.files && |r.value| == FrameLineCount(env.files[path]) && AllParallel(r.value)
  {
    if path in env.files {
      AnimationLinesShape(env, [], env.files[path]);
    }
  }
}

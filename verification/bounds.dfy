/** The bounds half of Part::upload: a part's center, the pivot its
rotations turn about.

The running minimum and maximum are seeded with the constants 999999 and
-999999 (not with infinities or with the first vertex), and a face replaces
them only when strictly beyond. The center is the per-axis midpoint.
 */
module Bounds {
  import opened Geometry
  import opened Scene

  const Sentinel: real := 999999.0

  /** The running minimum after the faces `faces`, starting from `low`. */
  function LowFrom(faces: seq<Face>, ax: Axis, low: real): real
  {
    if |faces| == 0 then low
    else LowFrom(faces[1..], ax, if FaceMin(faces[0], ax) < low then FaceMin(faces[0], ax) else low)
  }

  /** The running maximum after the faces `faces`, starting from `high`. */
  function HighFrom(faces: seq<Face>, ax: Axis, high: real): real
  {
    if |faces| == 0 then high
    else HighFrom(faces[1..], ax, if FaceMax(faces[0], ax) > high then FaceMax(faces[0], ax) else high)
  }

  function Low(faces: seq<Face>, ax: Axis): real
  {
    LowFrom(faces, ax, Sentinel)
  }

  function High(faces: seq<Face>, ax: Axis): real
  {
    HighFrom(faces, ax, -Sentinel)
  }

  /** Part::upload's center: per axis, the midpoint of the running minimum
      and maximum over all the part's faces. */
  function Center(p: Part): (c: Vec3)
    ensures forall ax :: Coord(c, ax) == (Low(PartFaces(p), ax) + High(PartFaces(p), ax)) / 2.0
  {
    var faces := PartFaces(p);
    Vec3((Low(faces, X) + High(faces, X)) / 2.0,
         (Low(faces, Y) + High(faces, Y)) / 2.0,
         (Low(faces, Z) + High(faces, Z)) / 2.0)
  }

  /** The part with its center computed; nothing else about it changes. */
  function WithCenter(p: Part): (q: Part)
    ensures q.name == p.name && q.groups == p.groups && q.center == Center(p)
  {
    p.(center := Center(p))
  }

  /** The running minimum is at most its seed and every face minimum, and
      is the seed or one of those minima. */
  lemma {:induction false} LowFromIsLeast(faces: seq<Face>, ax: Axis, low: real)
    ensures LowFrom(faces, ax, low) <= low
    ensures forall i :: 0 <= i < |faces| ==> LowFrom(faces, ax, low) <= FaceMin(faces[i], ax)
    ensures LowFrom(faces, ax, low) == low
            || exists i :: 0 <= i < |faces| && LowFrom(faces, ax, low) == FaceMin(faces[i], ax)
    decreases |faces|
  {
    if |faces| > 0 {
      var next := if FaceMin(faces[0], ax) < low then FaceMin(faces[0], ax) else low;
      LowFromIsLeast(faces[1..], ax, next);
      var r := LowFrom(faces, ax, low);
      forall i | 0 <= i < |faces|
        ensures r <= FaceMin(faces[i], ax)
      {
        if i > 0 {
          assert faces[i] == faces[1..][i - 1];
        }
      }
      if r != low && r != next {
        var i :| 0 <= i < |faces[1..]| && r == FaceMin(faces[1..][i], ax);
        assert faces[1..][i] == faces[i + 1];
      }
    }
  }

  /** The running maximum is at least its seed and every face maximum, and
      is the seed or one of those maxima. */
  lemma {:induction false} HighFromIsGreatest(faces: seq<Face>, ax: Axis, high: real)
    ensures HighFrom(faces, ax, high) >= high
    ensures forall i :: 0 <= i < |faces| ==> HighFrom(faces, ax, high) >= FaceMax(faces[i], ax)
    ensures HighFrom(faces, ax, high) == high
            || exists i :: 0 <= i < |faces| && HighFrom(faces, ax, high) == FaceMax(faces[i], ax)
    decreases |faces|
  {
    if |faces| > 0 {
      var next := if FaceMax(faces[0], ax) > high then FaceMax(faces[0], ax) else high;
      HighFromIsGreatest(faces[1..], ax, next);
      var r := HighFrom(faces, ax, high);
      forall i | 0 <= i < |faces|
        ensures r >= FaceMax(faces[i], ax)
      {
        if i > 0 {
          assert faces[i] == faces[1..][i - 1];
        }
      }
      if r != high && r != next {
        var i :| 0 <= i < |faces[1..]| && r == FaceMax(faces[1..][i], ax);
        assert faces[1..][i] == faces[i + 1];
      }
    }
  }

  /** Every face of the list lies within the sentinels on this axis. */
  predicate WithinSentinels(faces: seq<Face>, ax: Axis)
  {
    forall i :: 0 <= i < |faces| ==> -Sentinel <= FaceMin(faces[i], ax) && FaceMax(faces[i], ax) <= Sentinel
  }

  /** A part with no faces keeps the sentinels, whose midpoints are 0. */
  lemma CenterOfEmptyPart(p: Part)
    requires |PartFaces(p)| == 0
    ensures Center(p) == Origin
  {
  }

  /** When the part's coordinates lie within the sentinels, the running
      bounds are exactly the least face minimum and the greatest face
      maximum, and the center lies between them. */
  lemma CenterWithinBounds(p: Part, ax: Axis)
    requires |PartFaces(p)| > 0
    requires WithinSentinels(PartFaces(p), ax)
    ensures var faces := PartFaces(p);
            && (exists i :: 0 <= i < |faces| && Low(faces, ax) == FaceMin(faces[i], ax))
            && (forall i :: 0 <= i < |faces| ==> Low(faces, ax) <= FaceMin(faces[i], ax))
            && (exists i :: 0 <= i < |faces| && High(faces, ax) == FaceMax(faces[i], ax))
            && (forall i :: 0 <= i < |faces| ==> FaceMax(faces[i], ax) <= High(faces, ax))
            && Low(faces, ax) <= Coord(Center(p), ax) <= High(faces, ax)
  {
    var faces := PartFaces(p);
    LowFromIsLeast(faces, ax, Sentinel);
    HighFromIsGreatest(faces, ax, -Sentinel);
    if Low(faces, ax) == Sentinel {
      assert FaceMin(faces[0], ax) <= Sentinel;
      assert FaceMin(faces[0], ax) == Sentinel;
    }
    if High(faces, ax) == -Sentinel {
      assert FaceMax(faces[0], ax) == -Sentinel;
    }
    assert Low(faces, ax) <= FaceMin(faces[0], ax) <= FaceMax(faces[0], ax) <= High(faces, ax);
  }

  /** A part made of one triangle within the sentinels is centered on that
      triangle's bounding-box midpoint. */
  lemma SingleTriangleCenter(p: Part, f: Face, ax: Axis)
    requires PartFaces(p) == [f]
    requires -Sentinel <= FaceMin(f, ax) && FaceMax(f, ax) <= Sentinel
    ensures Coord(Center(p), ax) == (FaceMin(f, ax) + FaceMax(f, ax)) / 2.0
  {
    assert [f][1..] == [];
    assert Low([f], ax) == LowFrom([], ax, FaceMin(f, ax));
    assert High([f], ax) == HighFrom([], ax, FaceMax(f, ax));
  }

  /** Beyond the sentinels the center is not a midpoint of the part: a
      triangle lying entirely at x = 2000000 keeps the seed 999999 as its
      running minimum, and its center falls outside the triangle. */
  lemma FarPartCenterOutside()
    ensures var v := Vec3(2000000.0, 0.0, 0.0);
            var f := Face(v, v, v, Origin, Origin, Origin);
            var p := Part("far", [Group(Results.None, [f])], Origin);
            Coord(Center(p), X) == 1499999.5 && Coord(Center(p), X) < FaceMin(f, X)
  {
    var v := Vec3(2000000.0, 0.0, 0.0);
    var f := Face(v, v, v, Origin, Origin, Origin);
    var g := Group(Results.None, [f]);
    var p := Part("far", [g], Origin);
    assert [g][1..] == [];
    assert GroupFaces([g]) == [f] + GroupFaces([]);
    assert [f][1..] == [];
    assert Low([f], X) == LowFrom([], X, Sentinel);
    assert High([f], X) == HighFrom([], X, FaceMax(f, X));
  }
}

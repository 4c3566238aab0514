/** Vector3 and Face: the geometric primitives of the library.

Coordinates are C++ `float`s; the model uses `real`, because the core only
adds, negates, compares and halves them.
 */
module Geometry {

  /** Vector3: three coordinates, zero by default. */
  datatype Vec3 = Vec3(x: real, y: real, z: real)

  /** The default-constructed Vector3. */
  const Origin: Vec3 := Vec3(0.0, 0.0, 0.0)

  /** The colour every new Material starts with. */
  const White: Vec3 := Vec3(1.0, 1.0, 1.0)

  datatype Axis = X | Y | Z

  function Coord(v: Vec3, ax: Axis): real
  {
    match ax
    case X => v.x
    case Y => v.y
    case Z => v.z
  }

  /** The component-wise sum: where glTranslatef by `offset` moves `p`. */
  function Translated(p: Vec3, offset: Vec3): (r: Vec3)
    ensures forall ax :: Coord(r, ax) == Coord(p, ax) + Coord(offset, ax)
  {
    Vec3(p.x + offset.x, p.y + offset.y, p.z + offset.z)
  }

  /** The offset of the closing translation in AnimatedModel::draw. */
  function Negate(v: Vec3): (r: Vec3)
    ensures forall ax :: Coord(r, ax) == -Coord(v, ax)
  {
    Vec3(-v.x, -v.y, -v.z)
  }

  /** Translating by `offset` and then by Negate(offset) puts every point
      back where it was, so the pair of translations around a part's
      animation leaves an unanimated part in place; and negating twice
      gives the offset back. */
  lemma NegateUndoesTranslation(p: Vec3, offset: Vec3)
    ensures Translated(Translated(p, offset), Negate(offset)) == p
    ensures Translated(offset, Negate(offset)) == Origin
    ensures Negate(Negate(offset)) == offset
  {
    var q := Translated(Translated(p, offset), Negate(offset));
    assert Coord(q, X) == Coord(p, X) && Coord(q, Y) == Coord(p, Y) && Coord(q, Z) == Coord(p, Z);
  }

  /** A triangle: positions a, b, c and texture coordinates ta, tb, tc.
      A Face has exactly three of each by construction; texture coordinates
      the `f` line does not give stay at the Origin. */
  datatype Face = Face(a: Vec3, b: Vec3, c: Vec3, ta: Vec3, tb: Vec3, tc: Vec3)

  /** Face::getMaxX / getMaxY / getMaxZ: start from a, replace on a strictly
      greater b, then on a strictly greater c. */
  function FaceMax(f: Face, ax: Axis): (m: real)
    ensures m == Coord(f.a, ax) || m == Coord(f.b, ax) || m == Coord(f.c, ax)
    ensures Coord(f.a, ax) <= m && Coord(f.b, ax) <= m && Coord(f.c, ax) <= m
  {
    var m0 := Coord(f.a, ax);
    var m1 := if Coord(f.b, ax) > m0 then Coord(f.b, ax) else m0;
    if Coord(f.c, ax) > m1 then Coord(f.c, ax) else m1
  }

  /** Face::getMinX / getMinY / getMinZ, the mirror image of FaceMax. */
  function FaceMin(f: Face, ax: Axis): (m: real)
    ensures m == Coord(f.a, ax) || m == Coord(f.b, ax) || m == Coord(f.c, ax)
    ensures m <= Coord(f.a, ax) && m <= Coord(f.b, ax) && m <= Coord(f.c, ax)
  {
    var m0 := Coord(f.a, ax);
    var m1 := if Coord(f.b, ax) < m0 then Coord(f.b, ax) else m0;
    if Coord(f.c, ax) < m1 then Coord(f.c, ax) else m1
  }
}

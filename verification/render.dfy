/** The array half of MaterialGroup::upload: the four parallel float arrays
handed to the graphics card, one block per face, in face order.

Per face: 9 position floats (a, b, c), 12 colour floats (the material's
diffuse colour with alpha 1, once per corner), 9 normal floats (the face
normal, once per corner) and 6 texture floats (x and y of ta, tb, tc; the z
component is not uploaded). The normal is an uninterpreted function of the
three positions.
 */
module Render {
  import opened Results
  import opened Geometry
  import opened Materials
  import opened Scene
  import opened Arith

  datatype Arrays = Arrays(vertices: seq<real>, colors: seq<real>, normals: seq<real>, coords: seq<real>)

  const NoArrays: Arrays := Arrays([], [], [], [])

  /** Util::calcNormal, left uninterpreted. */
  type NormalFn = (Vec3, Vec3, Vec3) -> Vec3

  function Xyz(v: Vec3): seq<real>
  {
    [v.x, v.y, v.z]
  }

  function Rgba(c: Vec3): seq<real>
  {
    [c.x, c.y, c.z, 1.0]
  }

  function Xy(v: Vec3): seq<real>
  {
    [v.x, v.y]
  }

  /** The block each array receives for one face. */
  function FaceVertices(f: Face): seq<real>
  {
    Xyz(f.a) + Xyz(f.b) + Xyz(f.c)
  }

  function FaceColors(diffuse: Vec3): seq<real>
  {
    Rgba(diffuse) + Rgba(diffuse) + Rgba(diffuse)
  }

  function FaceNormals(f: Face, normal: NormalFn): seq<real>
  {
    var n := normal(f.a, f.b, f.c);
    Xyz(n) + Xyz(n) + Xyz(n)
  }

  function FaceCoords(f: Face): seq<real>
  {
    Xy(f.ta) + Xy(f.tb) + Xy(f.tc)
  }

  /** The `i`-th block of `width` entries of `s`. */
  function Block(s: seq<real>, width: nat, i: nat): seq<real>
    requires i * width + width <= |s|
  {
    s[i * width .. i * width + width]
  }

  /** One array of the loop: each face in turn pushes its block. */
  function Flatten(faces: seq<Face>, block: Face -> seq<real>): seq<real>
    decreases |faces|
  {
    if |faces| == 0 then []
    else Flatten(faces[..|faces| - 1], block) + block(faces[|faces| - 1])
  }

  /** MaterialGroup::upload's loop: the four arrays for a group's faces. */
  function Assemble(faces: seq<Face>, diffuse: Vec3, normal: NormalFn): Arrays
  {
    Arrays(Flatten(faces, FaceVertices),
           Flatten(faces, f => FaceColors(diffuse)),
           Flatten(faces, f => FaceNormals(f, normal)),
           Flatten(faces, FaceCoords))
  }

  /** With blocks of one width, the array has one block per face. */
  lemma {:induction false} FlattenLength(faces: seq<Face>, block: Face -> seq<real>, width: nat)
    requires forall f :: |block(f)| == width
    ensures |Flatten(faces, block)| == |faces| * width
    decreases |faces|
  {
    if |faces| > 0 {
      var n := |faces| - 1;
      FlattenLength(faces[..n], block, width);
      MulSucc(n, width);
    }
  }

  /** Block i of the array is face i's block. */
  lemma {:induction false} FlattenBlock(faces: seq<Face>, block: Face -> seq<real>, width: nat, i: nat)
    requires forall f :: |block(f)| == width
    requires i < |faces|
    ensures i * width + width <= |Flatten(faces, block)|
    ensures Block(Flatten(faces, block), width, i) == block(faces[i])
    decreases |faces|
  {
    var n := |faces| - 1;
    var prev := Flatten(faces[..n], block);
    var last := block(faces[n]);
    FlattenLength(faces[..n], block, width);
    assert Flatten(faces, block) == prev + last;
    if i == n {
      assert (prev + last)[|prev|..|prev| + width] == last;
    } else {
      FlattenBlock(faces[..n], block, width, i);
      assert faces[..n][i] == faces[i];
      assert (prev + last)[i * width .. i * width + width] == prev[i * width .. i * width + width];
    }
  }

  /** With blocks of one width, the array has one block per face and block
      i is face i's. */
  lemma FlattenBlocks(faces: seq<Face>, block: Face -> seq<real>, width: nat)
    requires forall f :: |block(f)| == width
    ensures |Flatten(faces, block)| == |faces| * width
    ensures forall i :: 0 <= i < |faces| ==> Block(Flatten(faces, block), width, i) == block(faces[i])
  {
    FlattenLength(faces, block, width);
    forall i | 0 <= i < |faces|
      ensures i * width + width <= |Flatten(faces, block)|
      ensures Block(Flatten(faces, block), width, i) == block(faces[i])
    {
      FlattenBlock(faces, block, width, i);
    }
  }

  /** Flattening two runs of faces is flattening each and concatenating. */
  lemma {:induction false} FlattenAppend(xs: seq<Face>, ys: seq<Face>, block: Face -> seq<real>)
    ensures Flatten(xs + ys, block) == Flatten(xs, block) + Flatten(ys, block)
    decreases |ys|
  {
    if |ys| == 0 {
      assert xs + ys == xs;
    } else {
      var n := |ys| - 1;
      var zs := xs + ys;
      assert zs[..|zs| - 1] == xs + ys[..n];
      assert zs[|zs| - 1] == ys[n];
      FlattenAppend(xs, ys[..n], block);
    }
  }

  /** The four arrays have 9, 12, 9 and 6 entries per face, and block i
      holds face i's positions, the diffuse colour with alpha 1 at each
      corner, face i's normal at each corner, and the x and y of face i's
      texture coordinates. */
  lemma AssembleBlocks(faces: seq<Face>, diffuse: Vec3, normal: NormalFn)
    ensures var r := Assemble(faces, diffuse, normal);
            && |r.vertices| == 9 * |faces| && |r.colors| == 12 * |faces|
            && |r.normals| == 9 * |faces| && |r.coords| == 6 * |faces|
            && forall i :: 0 <= i < |faces| ==>
                 && Block(r.vertices, 9, i) == Xyz(faces[i].a) + Xyz(faces[i].b) + Xyz(faces[i].c)
                 && Block(r.colors, 12, i) == Rgba(diffuse) + Rgba(diffuse) + Rgba(diffuse)
                 && Block(r.normals, 9, i) == (var n := normal(faces[i].a, faces[i].b, faces[i].c);
                                                Xyz(n) + Xyz(n) + Xyz(n))
                 && Block(r.coords, 6, i) == Xy(faces[i].ta) + Xy(faces[i].tb) + Xy(faces[i].tc)
  {
    FlattenBlocks(faces, FaceVertices, 9);
    FlattenBlocks(faces, f => FaceColors(diffuse), 12);
    FlattenBlocks(faces, f => FaceNormals(f, normal), 9);
    FlattenBlocks(faces, FaceCoords, 6);
  }

  /** Uploading the faces of two runs is uploading each in turn, array by
      array: nothing is reordered, shared or dropped. */
  lemma AssembleAppend(xs: seq<Face>, ys: seq<Face>, diffuse: Vec3, normal: NormalFn)
    ensures var a := Assemble(xs, diffuse, normal);
            var b := Assemble(ys, diffuse, normal);
            Assemble(xs + ys, diffuse, normal) ==
              Arrays(a.vertices + b.vertices, a.colors + b.colors, a.normals + b.normals, a.coords + b.coords)
  {
    FlattenAppend(xs, ys, FaceVertices);
    FlattenAppend(xs, ys, f => FaceColors(diffuse));
    FlattenAppend(xs, ys, f => FaceNormals(f, normal));
    FlattenAppend(xs, ys, FaceCoords);
  }

  /** MaterialGroup::upload: a group with faces dereferences its material
      once per face, so it fails without one; a group without faces uploads
      empty arrays whatever its material. glDrawArrays then draws three
      vertices per face. */
  function Upload(g: Group, table: seq<Material>, normal: NormalFn): (r: Result<Arrays>)
    ensures r.Ok? <==> Uploadable(g, table)
    ensures r.Err? ==> r.error == NullGroupMaterial
    ensures r.Ok? && |g.faces| > 0 ==>
              r.value == Assemble(g.faces, table[g.material.value].diffuse, normal)
    ensures r.Ok? && |g.faces| == 0 ==> r.value == NoArrays
  {
    if |g.faces| == 0 then Ok(NoArrays)
    else if g.material.None? || g.material.value >= |table| then Err(NullGroupMaterial)
    else Ok(Assemble(g.faces, table[g.material.value].diffuse, normal))
  }
}

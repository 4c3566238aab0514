/** MaterialGroup, Part and Model: the tree the OBJ loader builds.

A Model owns its material table and its parts; a Part owns its groups in
insertion order; a MaterialGroup owns its faces and refers to exactly one
table entry. The C++ `Material*` of a group becomes an index into the table
(None where the pointer is null).
 */
module Scene {
  import opened Results
  import opened Geometry
  import opened Materials

  /** MaterialGroup: one material reference shared by all its faces. */
  datatype Group = Group(material: Option<nat>, faces: seq<Face>)

  /** Part: a name (empty for the anonymous part), groups in insertion
      order, and the pivot used by rotations (Origin until computed). */
  datatype Part = Part(name: string, groups: seq<Group>, center: Vec3)

  /** Model: the material table (entry 0 is Default) and the parts. */
  datatype Model = Model(materials: seq<Material>, parts: seq<Part>)

  /** Every face of a list of groups, group by group. */
  function GroupFaces(groups: seq<Group>): seq<Face>
  {
    if |groups| == 0 then [] else groups[0].faces + GroupFaces(groups[1..])
  }

  /** Every face of a part, in the order Part::upload visits them. */
  function PartFaces(p: Part): seq<Face>
  {
    GroupFaces(p.groups)
  }

  /** Whether MaterialGroup::upload can run on a group: it dereferences the
      material once per face, so a group without faces needs none. */
  predicate Uploadable(g: Group, table: seq<Material>)
  {
    |g.faces| == 0 || (g.material.Some? && g.material.value < |table|)
  }

  /** The number of faces in a list of parts. */
  function FaceCount(parts: seq<Part>): nat
  {
    if |parts| == 0 then 0 else |PartFaces(parts[0])| + FaceCount(parts[1..])
  }

  /** A group appended last contributes its faces last. */
  lemma {:induction false} GroupFacesAppend(groups: seq<Group>, g: Group)
    ensures GroupFaces(groups + [g]) == GroupFaces(groups) + g.faces
    decreases |groups|
  {
    if |groups| == 0 {
      assert [g][1..] == [];
    } else {
      assert (groups + [g])[1..] == groups[1..] + [g];
      GroupFacesAppend(groups[1..], g);
    }
  }

  /** Replacing one group changes the face count by the difference. */
  lemma {:induction false} GroupFacesUpdate(groups: seq<Group>, j: nat, g: Group)
    requires j < |groups|
    ensures |GroupFaces(groups[j := g])| == |GroupFaces(groups)| - |groups[j].faces| + |g.faces|
    decreases |groups|
  {
    if j > 0 {
      assert groups[j := g][1..] == groups[1..][j - 1 := g];
      GroupFacesUpdate(groups[1..], j - 1, g);
    }
  }

  lemma {:induction false} FaceCountAppend(parts: seq<Part>, p: Part)
    ensures FaceCount(parts + [p]) == FaceCount(parts) + |PartFaces(p)|
    decreases |parts|
  {
    if |parts| == 0 {
      assert [p][1..] == [];
    } else {
      assert (parts + [p])[1..] == parts[1..] + [p];
      FaceCountAppend(parts[1..], p);
    }
  }

  lemma {:induction false} FaceCountUpdate(parts: seq<Part>, i: nat, p: Part)
    requires i < |parts|
    ensures FaceCount(parts[i := p]) == FaceCount(parts) - |PartFaces(parts[i])| + |PartFaces(p)|
    decreases |parts|
  {
    if i > 0 {
      assert parts[i := p][1..] == parts[1..][i - 1 := p];
      FaceCountUpdate(parts[1..], i - 1, p);
    }
  }
}

/** Model::Model: the OBJ reader, as a fold over the file's lines.

The reader keeps the positions and texture coordinates read so far, the
material table, the parts, and two cursors: the current part (always the
last one appended, since a part is only ever created together with its
append) and the current MaterialGroup. The group cursor is not reset by
`g`/`o`, so it can point into an earlier part; it is modelled as a
(part, group) index pair.
 */
module ObjLoader {
  import opened Results
  import opened Search
  import opened Geometry
  import opened Tokenizer
  import opened World
  import opened Materials
  import opened Scene
  import opened Bounds

  /** Which group of which part receives the next faces. */
  datatype GroupRef = GroupRef(part: nat, group: nat)

  datatype ObjState = ObjState(
    materials: seq<Material>,
    parts: seq<Part>,
    vertices: seq<Vec3>,
    texCoords: seq<Vec3>,
    open: Option<GroupRef>)

  /** Before the first line: table entry 0 is Default, nothing else exists. */
  const Initial: ObjState := ObjState([DefaultMaterial], [], [], [], None)

  predicate RefValid(parts: seq<Part>, ref: GroupRef)
  {
    ref.part < |parts| && ref.group < |parts[ref.part].groups|
  }

  /** The group cursor, when set, names an existing group. */
  predicate OpenValid(st: ObjState)
  {
    st.open.Some? ==> RefValid(st.parts, st.open.value)
  }

  /** Every group's material, when set, is an entry of the table. */
  predicate MaterialsValid(parts: seq<Part>, table: seq<Material>)
  {
    forall i, j :: 0 <= i < |parts| && 0 <= j < |parts[i].groups| && parts[i].groups[j].material.Some? ==>
      parts[i].groups[j].material.value < |table|
  }

  /** What the reader maintains between lines. */
  predicate Valid(st: ObjState)
  {
    && OpenValid(st)
    && |st.materials| > 0 && st.materials[0] == DefaultMaterial
    && MaterialsValid(st.parts, st.materials)
  }

  /** One corner of a face: a position and a texture coordinate. */
  datatype Corner = Corner(pos: Vec3, tex: Vec3)

  function Triangle(a: Corner, b: Corner, c: Corner): (f: Face)
    ensures f.a == a.pos && f.b == b.pos && f.c == c.pos
    ensures f.ta == a.tex && f.tb == b.tex && f.tc == c.tex
  {
    Face(a.pos, b.pos, c.pos, a.tex, b.tex, c.tex)
  }

  /** The index of the last `/` or `\` in `path` below `upto`, as the
      backwards scan in the `mtllib` branch finds it. */
  function LastSeparatorBelow(path: string, upto: nat): (r: Option<nat>)
    requires upto <= |path|
    ensures r.Some? ==> r.value < upto && path[r.value] in {'/', '\\'}
    ensures forall j :: (if r.Some? then r.value + 1 else 0) <= j < upto ==> path[j] !in {'/', '\\'}
  {
    if upto == 0 then None
    else if path[upto - 1] == '/' || path[upto - 1] == '\\' then Some(upto - 1)
    else LastSeparatorBelow(path, upto - 1)
  }

  /** The directory `mtllib` resolves material files against: everything
      before the last separator of the model's path, or "" when there is
      none (the file is then opened as "/" + name). */
  function MtlPrefix(path: string): (prefix: string)
    ensures |prefix| < |path| || prefix == ""
    ensures prefix <= path
  {
    match LastSeparatorBelow(path, |path|)
    case None => ""
    case Some(i) => path[..i]
  }

  /** The model's path split as directory, separator, file name gives
      back the directory. */
  lemma MtlPrefixOfJoin(dir: string, sep: char, file: string)
    requires sep == '/' || sep == '\\'
    requires forall j :: 0 <= j < |file| ==> file[j] != '/' && file[j] != '\\'
    ensures MtlPrefix(dir + [sep] + file) == dir
  {
    var path := dir + [sep] + file;
    var r := LastSeparatorBelow(path, |path|);
    assert path[|dir|] == sep;
    forall j | |dir| < j < |path|
      ensures path[j] !in {'/', '\\'}
    {
      assert path[j] == file[j - |dir| - 1];
    }
    assert r.Some? && r.value == |dir|;
    assert path[..|dir|] == dir;
  }

  /** A model path with no separator gives the empty prefix. */
  lemma MtlPrefixWithoutSeparator(path: string)
    requires forall j :: 0 <= j < |path| ==> path[j] != '/' && path[j] != '\\'
    ensures MtlPrefix(path) == ""
  {
  }

  /** The parts with one group appended to the last part. */
  function AppendGroup(parts: seq<Part>, g: Group): (r: seq<Part>)
    requires |parts| > 0
    ensures |r| == |parts| && r[..|parts| - 1] == parts[..|parts| - 1]
    ensures r[|parts| - 1] == parts[|parts| - 1].(groups := parts[|parts| - 1].groups + [g])
  {
    var last := |parts| - 1;
    parts[last := parts[last].(groups := parts[last].groups + [g])]
  }

  /** The parts with faces appended to the group `ref` names. */
  function AddFaces(parts: seq<Part>, ref: GroupRef, faces: seq<Face>): (r: seq<Part>)
    requires RefValid(parts, ref)
    ensures |r| == |parts|
    ensures forall i :: 0 <= i < |parts| ==>
              r[i].name == parts[i].name && r[i].center == parts[i].center && |r[i].groups| == |parts[i].groups|
    ensures forall i, j :: 0 <= i < |parts| && 0 <= j < |parts[i].groups| ==>
              r[i].groups[j] ==
                if i == ref.part && j == ref.group
                then parts[i].groups[j].(faces := parts[i].groups[j].faces + faces)
                else parts[i].groups[j]
  {
    var p := parts[ref.part];
    var g := p.groups[ref.group];
    parts[ref.part := p.(groups := p.groups[ref.group := g.(faces := g.faces + faces)])]
  }

  /** The head of an `f` line: an anonymous part when there is no current
      part, then a group bound to table entry 0 (Default) when there is no
      current group. */
  function EnsureOpenGroup(st: ObjState): (r: ObjState)
    requires OpenValid(st)
    ensures r.open.Some? && RefValid(r.parts, r.open.value)
    ensures r.materials == st.materials && r.vertices == st.vertices && r.texCoords == st.texCoords
    ensures st.open.Some? && |st.parts| > 0 ==> r == st
    ensures |st.parts| == 0 ==> |r.parts| == 1 && r.parts[0].name == "" && r.parts[0].center == Origin
    ensures st.open.None? ==>
              && |r.parts| == (if |st.parts| == 0 then 1 else |st.parts|)
              && r.parts[..|r.parts| - 1] == st.parts[..|r.parts| - 1]
              && var last := r.parts[|r.parts| - 1];
                 && |last.groups| > 0
                 && r.open == Some(GroupRef(|r.parts| - 1, |last.groups| - 1))
                 && last.groups[|last.groups| - 1] == Group(Some(0), [])
  {
    var withPart := if |st.parts| == 0 then st.(parts := [Part("", [], Origin)]) else st;
    if withPart.open.Some? then withPart
    else
      var last := |withPart.parts| - 1;
      withPart.(parts := AppendGroup(withPart.parts, Group(Some(0), [])),
                open := Some(GroupRef(last, |withPart.parts[last].groups|)))
  }

  /** The fields of one reference of an `f` line: `v`, `v/t`, `v//n` or
      `v/t/n`, split at `/`. */
  function RefFields(tokens: seq<string>, k: nat): seq<string>
    requires k < |tokens|
  {
    Split(tokens[k], '/')
  }

  /** Whether reference k of an `f` line exists, has a position field,
      and its indices (the texture one only when given) are in range. */
  predicate CornerReadable(env: Env, st: ObjState, tokens: seq<string>, k: nat)
  {
    && k < |tokens|
    && var fields := RefFields(tokens, k);
       && |fields| > 0
       && 0 <= env.atoi(fields[0]) - 1 < |st.vertices|
       && (|fields| > 1 && fields[1] != "" ==> 0 <= env.atoi(fields[1]) - 1 < |st.texCoords|)
  }

  /** One reference of an `f` line: its 1-based position index minus one
      selects the position; the texture coordinate is looked up only when a
      non-empty field follows the first `/`, and is (0,0,0) otherwise. A
      missing reference or position field is MissingToken; an index out of
      range, of either kind, is BadIndex. */
  function ReadCorner(env: Env, st: ObjState, tokens: seq<string>, k: nat): (r: Result<Corner>)
    ensures r.Ok? <==> CornerReadable(env, st, tokens, k)
    ensures r.Ok? ==>
              var fields := RefFields(tokens, k);
              && r.value.pos == st.vertices[env.atoi(fields[0]) - 1]
              && r.value.tex ==
                   if |fields| > 1 && fields[1] != ""
                   then st.texCoords[env.atoi(fields[1]) - 1]
                   else Origin
    ensures r.Err? ==>
              r.error == if k < |tokens| && |RefFields(tokens, k)| > 0 then BadIndex else MissingToken
  {
    var token :- TokenAt(tokens, k);
    var fields := Split(token, '/');
    var v :- TokenAt(fields, 0);
    var pos :- ElementAt(st.vertices, env.atoi(v) - 1, BadIndex);
    if |fields| > 1 && fields[1] != "" then
      var tex :- ElementAt(st.texCoords, env.atoi(fields[1]) - 1, BadIndex);
      Ok(Corner(pos, tex))
    else Ok(Corner(pos, Origin))
  }

  /** The faces an `f` line adds: refs 1,2,3; and with four or more refs
      also refs 3,4,1. Refs past the fourth are not read. The second
      triangle reads refs 3 and 1 again; the reads are deterministic and
      already succeeded, so their first results are reused. */
  function FaceLineFaces(env: Env, st: ObjState, tokens: seq<string>): Result<seq<Face>>
  {
    var a :- ReadCorner(env, st, tokens, 1);
    var b :- ReadCorner(env, st, tokens, 2);
    var c :- ReadCorner(env, st, tokens, 3);
    if |tokens| > 4 then
      var d :- ReadCorner(env, st, tokens, 4);
      Ok([Triangle(a, b, c), Triangle(c, d, a)])
    else Ok([Triangle(a, b, c)])
  }

  /** One line of the OBJ file. Only the first token selects the branch;
      lines with any other first token are ignored. */
  function Step(env: Env, path: string, st: ObjState, line: string): (r: Result<ObjState>)
    requires OpenValid(st)
    ensures r.Ok? ==> OpenValid(r.value)
  {
    var tokens := SplitLineWhitespace(line);
    if |tokens| == 0 then Ok(st)
    else if tokens[0] == "mtllib" then
      var name :- TokenAt(tokens, 1);
      var table :- LoadMtl(env, MtlPrefix(path), name, st.materials);
      Ok(st.(materials := table))
    else if tokens[0] == "v" then
      var x :- TokenAt(tokens, 1);
      var y :- TokenAt(tokens, 2);
      var z :- TokenAt(tokens, 3);
      Ok(st.(vertices := st.vertices + [Vec3(env.atof(x), env.atof(y), env.atof(z))]))
    else if tokens[0] == "vt" then
      var x :- TokenAt(tokens, 1);
      var y :- TokenAt(tokens, 2);
      var z := if |tokens| > 3 then env.atof(tokens[3]) else 0.0;
      Ok(st.(texCoords := st.texCoords + [Vec3(env.atof(x), -env.atof(y), z)]))
    else if tokens[0] == "g" || tokens[0] == "o" then
      var name :- TokenAt(tokens, 1);
      Ok(st.(parts := st.parts + [Part(name, [], Origin)]))
    else if tokens[0] == "usemtl" then
      var name :- TokenAt(tokens, 1);
      if |st.parts| == 0 then Err(NoOpenPart)
      else
        var last := |st.parts| - 1;
        var g := Group(LastIndex(Names(st.materials), name), []);
        Ok(st.(parts := AppendGroup(st.parts, g), open := Some(GroupRef(last, |st.parts[last].groups|))))
    else if tokens[0] == "f" then
      var withGroup := EnsureOpenGroup(st);
      var faces :- FaceLineFaces(env, withGroup, tokens);
      Ok(withGroup.(parts := AddFaces(withGroup.parts, withGroup.open.value, faces)))
    else Ok(st)
  }

  /** The read loop over the file's lines; the first failure ends the load. */
  function ParseLines(env: Env, path: string, st: ObjState, lines: seq<string>): (r: Result<ObjState>)
    requires OpenValid(st)
    ensures r.Ok? ==> OpenValid(r.value)
    decreases |lines|
  {
    if |lines| == 0 then Ok(st)
    else
      var next :- Step(env, path, st, lines[0]);
      ParseLines(env, path, next, lines[1..])
  }

  /** Every group of every part can be uploaded. */
  predicate AllUploadable(parts: seq<Part>, table: seq<Material>)
  {
    forall i, j :: 0 <= i < |parts| && 0 <= j < |parts[i].groups| ==> Uploadable(parts[i].groups[j], table)
  }

  /** The loop after reading: every part computes its center, then uploads
      its groups, which fails on a group with faces and no material. */
  function Finish(st: ObjState): (r: Result<Model>)
    ensures r.Ok? <==> AllUploadable(st.parts, st.materials)
    ensures r.Err? ==> r.error == NullGroupMaterial
    ensures r.Ok? ==> r.value.materials == st.materials && |r.value.parts| == |st.parts|
    ensures r.Ok? ==> forall i :: 0 <= i < |st.parts| ==>
              && r.value.parts[i].name == st.parts[i].name
              && r.value.parts[i].groups == st.parts[i].groups
              && r.value.parts[i].center == Center(st.parts[i])
  {
    if AllUploadable(st.parts, st.materials) then
      Ok(Model(st.materials, seq(|st.parts|, i requires 0 <= i < |st.parts| => WithCenter(st.parts[i]))))
    else Err(NullGroupMaterial)
  }

  /** Model::Model(path). */
  function LoadModel(env: Env, path: string): (r: Result<Model>)
    ensures path !in env.files ==> r == Err(CannotOpen(path))
  {
    var lines :- Open(env, path);
    var st :- ParseLines(env, path, Initial, lines);
    Finish(st)
  }
}

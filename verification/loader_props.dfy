/** What Model::Model promises about the lines it reads and the model it
builds: the effect of each kind of line, the state the reader maintains
between lines, and the shape of a successfully loaded model.
 */
module ObjLoaderProps {
  import opened Results
  import opened Search
  import opened Geometry
  import opened Tokenizer
  import opened World
  import opened Materials
  import opened Scene
  import opened Bounds
  import opened ObjLoader

  /** A `v` line appends one position made of its next three tokens; a
      shorter line fails. */
  lemma VertexLine(env: Env, path: string, st: ObjState, line: string)
    requires OpenValid(st)
    requires var tokens := SplitLineWhitespace(line); |tokens| > 0 && tokens[0] == "v"
    ensures var tokens := SplitLineWhitespace(line);
            var r := Step(env, path, st, line);
            && (|tokens| < 4 ==> r == Err(MissingToken))
            && (|tokens| >= 4 ==>
                  r == Ok(st.(vertices := st.vertices +
                                [Vec3(env.atof(tokens[1]), env.atof(tokens[2]), env.atof(tokens[3]))])))
  {
  }

  /** A `vt` line appends one texture coordinate: the second component is
      stored negated and the third is 0 unless given. */
  lemma TexCoordLine(env: Env, path: string, st: ObjState, line: string)
    requires OpenValid(st)
    requires var tokens := SplitLineWhitespace(line); |tokens| > 0 && tokens[0] == "vt"
    ensures var tokens := SplitLineWhitespace(line);
            var r := Step(env, path, st, line);
            && (|tokens| < 3 ==> r == Err(MissingToken))
            && (|tokens| >= 3 ==>
                  && r.Ok?
                  && r.value.texCoords[..|st.texCoords|] == st.texCoords
                  && r.value.texCoords[|st.texCoords|..] ==
                       [Vec3(env.atof(tokens[1]), -env.atof(tokens[2]),
                             if |tokens| > 3 then env.atof(tokens[3]) else 0.0)]
                  && r.value == st.(texCoords := r.value.texCoords))
  {
  }

  /** A `g` or `o` line appends an empty part of that name and leaves the
      group cursor where it was, possibly in an earlier part. */
  lemma NewPartKeepsOpenGroup(env: Env, path: string, st: ObjState, line: string)
    requires OpenValid(st)
    requires var tokens := SplitLineWhitespace(line);
             |tokens| > 0 && (tokens[0] == "g" || tokens[0] == "o")
    ensures var tokens := SplitLineWhitespace(line);
            var r := Step(env, path, st, line);
            && (|tokens| < 2 ==> r == Err(MissingToken))
            && (|tokens| >= 2 ==> r == Ok(st.(parts := st.parts + [Part(tokens[1], [], Origin)])))
  {
  }

  /** A `usemtl` line appends to the current part a new, empty group and
      makes it current. The group is bound to the LAST table entry of that
      name (the lookup loop does not stop at the first match), or to none
      when no entry has it. Without a current part it fails. */
  lemma UseMtlBindsLastMatch(env: Env, path: string, st: ObjState, line: string)
    requires OpenValid(st)
    requires var tokens := SplitLineWhitespace(line); |tokens| >= 2 && tokens[0] == "usemtl"
    ensures var name := SplitLineWhitespace(line)[1];
            var r := Step(env, path, st, line);
            && (|st.parts| == 0 ==> r == Err(NoOpenPart))
            && (|st.parts| > 0 ==>
                  && r.Ok?
                  && var last := |st.parts| - 1;
                     var groups := r.value.parts[last].groups;
                     && r.value == st.(parts := r.value.parts, open := r.value.open)
                     && |r.value.parts| == |st.parts|
                     && r.value.parts[..last] == st.parts[..last]
                     && r.value.parts[last] == st.parts[last].(groups := groups)
                     && groups == st.parts[last].groups + [groups[|groups| - 1]]
                     && r.value.open == Some(GroupRef(last, |groups| - 1))
                     && var g := groups[|groups| - 1];
                        && g.faces == []
                        && (g.material.None? <==> forall i :: 0 <= i < |st.materials| ==> st.materials[i].name != name)
                        && (g.material.Some? ==>
                              && g.material.value < |st.materials|
                              && st.materials[g.material.value].name == name
                              && forall i :: g.material.value < i < |st.materials| ==> st.materials[i].name != name))
  {
    var name := SplitLineWhitespace(line)[1];
    var names := Names(st.materials);
    var m := LastIndex(names, name);
    if m.None? {
      forall i | 0 <= i < |st.materials|
        ensures st.materials[i].name != name
      {
        assert names[i] == st.materials[i].name;
      }
    } else {
      forall i | m.value < i < |st.materials|
        ensures st.materials[i].name != name
      {
        assert names[i] == st.materials[i].name;
      }
    }
  }

  /** An `f` line with three references adds one face (refs 1,2,3); with
      four or more it adds two (refs 1,2,3, then refs 3,4,1) and ignores the
      rest; with fewer than three it fails. */
  lemma {:induction false} FaceLineTriangulates(env: Env, st: ObjState, tokens: seq<string>)
    ensures var r := FaceLineFaces(env, st, tokens);
            var corner := (k: nat) => ReadCorner(env, st, tokens, k);
            && (|tokens| < 4 ==> r == Err(MissingToken) || r == Err(BadIndex))
            && (r.Ok? <==>
                  && CornerReadable(env, st, tokens, 1) && CornerReadable(env, st, tokens, 2)
                  && CornerReadable(env, st, tokens, 3) && (|tokens| > 4 ==> CornerReadable(env, st, tokens, 4)))
            && (r.Ok? ==>
                  && |r.value| == (if |tokens| > 4 then 2 else 1)
                  && r.value[0] == Triangle(corner(1).value, corner(2).value, corner(3).value)
                  && (|tokens| > 4 ==> r.value[1] == Triangle(corner(3).value, corner(4).value, corner(1).value)))
  {
    if |tokens| < 4 {
      assert ReadCorner(env, st, tokens, 3) == Err(MissingToken);
    }
  }

  /** An `f` line appends its faces to the current group, after opening an
      anonymous part and a Default group when there is none; no other group
      changes, and each corner's position is the 1-based index minus one. */
  lemma FaceLineAppends(env: Env, path: string, st: ObjState, line: string)
    requires OpenValid(st)
    requires var tokens := SplitLineWhitespace(line); |tokens| > 0 && tokens[0] == "f"
    ensures var tokens := SplitLineWhitespace(line);
            var w := EnsureOpenGroup(st);
            var ref := w.open.value;
            var r := Step(env, path, st, line);
            && (r.Ok? <==> FaceLineFaces(env, w, tokens).Ok?)
            && (r.Err? ==> r == FaceLineFaces(env, w, tokens).PropagateFailure())
            && (r.Ok? ==>
              && var faces := FaceLineFaces(env, w, tokens).value;
                 && r.value == w.(parts := r.value.parts)
                 && r.value.open == w.open
                 && r.value.materials == st.materials && r.value.vertices == st.vertices
                 && r.value.texCoords == st.texCoords
                 && |r.value.parts| == |w.parts|
                 && (forall i :: 0 <= i < |w.parts| ==>
                       && r.value.parts[i].name == w.parts[i].name
                       && r.value.parts[i].center == w.parts[i].center
                       && |r.value.parts[i].groups| == |w.parts[i].groups|)
                 && (forall i, j :: 0 <= i < |w.parts| && 0 <= j < |w.parts[i].groups| && (i, j) != (ref.part, ref.group) ==>
                       r.value.parts[i].groups[j] == w.parts[i].groups[j])
                 && r.value.parts[ref.part].groups[ref.group].faces == w.parts[ref.part].groups[ref.group].faces + faces
                 && |faces| == (if |tokens| > 4 then 2 else 1)
                 && faces[0].a == st.vertices[env.atoi(RefFields(tokens, 1)[0]) - 1]
                 && faces[0].b == st.vertices[env.atoi(RefFields(tokens, 2)[0]) - 1]
                 && faces[0].c == st.vertices[env.atoi(RefFields(tokens, 3)[0]) - 1])
  {
    var tokens := SplitLineWhitespace(line);
    var w := EnsureOpenGroup(st);
    FaceLineTriangulates(env, w, tokens);
  }

  /** Lines that are blank or start with any other token change nothing. */
  lemma OtherLinesIgnored(env: Env, path: string, st: ObjState, line: string)
    requires OpenValid(st)
    requires var tokens := SplitLineWhitespace(line);
             |tokens| == 0 || tokens[0] !in {"mtllib", "v", "vt", "g", "o", "usemtl", "f"}
    ensures Step(env, path, st, line) == Ok(st)
  {
  }

  /** A `mtllib` line loads the named file from the model's directory and
      only appends to the table. */
  lemma MtllibLine(env: Env, path: string, st: ObjState, line: string)
    requires OpenValid(st)
    requires var tokens := SplitLineWhitespace(line); |tokens| >= 2 && tokens[0] == "mtllib"
    ensures var name := SplitLineWhitespace(line)[1];
            var r := Step(env, path, st, line);
            var loaded := LoadMtl(env, MtlPrefix(path), name, st.materials);
            && (r.Ok? <==> loaded.Ok?)
            && (r.Ok? ==>
                  && r.value == st.(materials := loaded.value)
                  && |r.value.materials| >= |st.materials|
                  && r.value.materials[..|st.materials|] == st.materials)
            && (MtlPrefix(path) + "/" + name !in env.files ==> r == Err(CannotOpen(MtlPrefix(path) + "/" + name)))
  {
    var name := SplitLineWhitespace(line)[1];
    LoadMtlAppendsOnly(env, MtlPrefix(path), name, st.materials);
  }

  /** Opening a group binds it to table entry 0, which always exists. */
  lemma EnsureOpenGroupKeepsValid(st: ObjState)
    requires Valid(st)
    ensures Valid(EnsureOpenGroup(st))
  {
    var w := EnsureOpenGroup(st);
    forall i, j | 0 <= i < |w.parts| && 0 <= j < |w.parts[i].groups| && w.parts[i].groups[j].material.Some?
      ensures w.parts[i].groups[j].material.value < |w.materials|
    {
      if st.open.None? && i == |w.parts| - 1 && j == |w.parts[i].groups| - 1 {
      } else if |st.parts| > 0 {
        assert i < |st.parts|;
        if st.open.None? && i == |w.parts| - 1 {
          assert w.parts[i].groups[j] == st.parts[i].groups[j];
        } else if st.open.None? {
          assert w.parts[i] == w.parts[..|w.parts| - 1][i];
        }
      }
    }
  }

  /** Adding faces to a group changes no group's material. */
  lemma AddFacesKeepsMaterials(parts: seq<Part>, ref: GroupRef, faces: seq<Face>, table: seq<Material>)
    requires RefValid(parts, ref) && MaterialsValid(parts, table)
    ensures MaterialsValid(AddFaces(parts, ref, faces), table)
  {
    var r := AddFaces(parts, ref, faces);
    forall i, j | 0 <= i < |r| && 0 <= j < |r[i].groups| && r[i].groups[j].material.Some?
      ensures r[i].groups[j].material.value < |table|
    {
      assert r[i].groups[j].material == parts[i].groups[j].material;
    }
  }

  /** The reader's invariant holds after every successful line: entry 0
      stays Default and every group's material is an entry of the table. */
  lemma StepKeepsValid(env: Env, path: string, st: ObjState, line: string)
    requires Valid(st)
    ensures Step(env, path, st, line).Ok? ==> Valid(Step(env, path, st, line).value)
  {
    var tokens := SplitLineWhitespace(line);
    var r := Step(env, path, st, line);
    if r.Ok? && |tokens| > 0 {
      if tokens[0] == "mtllib" {
        LoadMtlAppendsOnly(env, MtlPrefix(path), tokens[1], st.materials);
        assert r.value.materials[..|st.materials|] == st.materials;
        assert r.value.materials[0] == st.materials[0];
      } else if tokens[0] == "f" {
        var w := EnsureOpenGroup(st);
        EnsureOpenGroupKeepsValid(st);
        var faces := FaceLineFaces(env, w, tokens).value;
        AddFacesKeepsMaterials(w.parts, w.open.value, faces, w.materials);
      } else if tokens[0] == "usemtl" {
        var last := |st.parts| - 1;
        assert forall i :: 0 <= i < last ==> r.value.parts[i] == r.value.parts[..last][i];
      }
    }
  }

  lemma {:induction false} ParseLinesKeepsValid(env: Env, path: string, st: ObjState, lines: seq<string>)
    requires Valid(st)
    ensures ParseLines(env, path, st, lines).Ok? ==> Valid(ParseLines(env, path, st, lines).value)
    decreases |lines|
  {
    if |lines| > 0 {
      StepKeepsValid(env, path, st, lines[0]);
      var next := Step(env, path, st, lines[0]);
      if next.Ok? {
        ParseLinesKeepsValid(env, path, next.value, lines[1..]);
      }
    }
  }

  /** A loaded model: table entry 0 is Default, every group refers to an
      entry of the table, every group with faces has a material (so every
      group uploads), and every part carries the center of its faces. A
      model file that cannot be opened is reported as such. */
  lemma LoadModelShape(env: Env, path: string)
    ensures var r := LoadModel(env, path);
            && (r.Ok? ==> path in env.files)
            && (path !in env.files ==> r == Err(CannotOpen(path)))
            && (r.Ok? ==>
                  var m := r.value;
                  && |m.materials| > 0 && m.materials[0] == DefaultMaterial
                  && MaterialsValid(m.parts, m.materials)
                  && AllUploadable(m.parts, m.materials)
                  && forall i :: 0 <= i < |m.parts| ==> m.parts[i].center == Center(m.parts[i]))
  {
    if path in env.files {
      assert Valid(Initial);
      ParseLinesKeepsValid(env, path, Initial, env.files[path]);
      var st := ParseLines(env, path, Initial, env.files[path]);
      if st.Ok? && LoadModel(env, path).Ok? {
        var m := LoadModel(env, path).value;
        assert forall i :: 0 <= i < |m.parts| ==> m.parts[i].groups == st.value.parts[i].groups;
        forall i | 0 <= i < |m.parts|
          ensures m.parts[i].center == Center(m.parts[i])
        {
          assert PartFaces(m.parts[i]) == PartFaces(st.value.parts[i]);
        }
      }
    }
  }

  /** A `g` line followed by an `f` line: the faces go to the group that was
      current before the `g`, in an earlier part, and the new part stays
      without groups. */
  lemma FacesAfterNewPartGoToPreviousGroup(env: Env, path: string, st: ObjState, partLine: string, faceLine: string)
    requires OpenValid(st) && st.open.Some?
    requires var tokens := SplitLineWhitespace(partLine);
             |tokens| >= 2 && (tokens[0] == "g" || tokens[0] == "o")
    requires var tokens := SplitLineWhitespace(faceLine); |tokens| > 0 && tokens[0] == "f"
    ensures var r := ParseLines(env, path, st, [partLine, faceLine]);
            var ref := st.open.value;
            r.Ok? ==>
              && |r.value.parts| == |st.parts| + 1
              && r.value.parts[|st.parts|].groups == []
              && r.value.open == st.open
              && |r.value.parts[ref.part].groups[ref.group].faces| > |st.parts[ref.part].groups[ref.group].faces|
  {
    var next := Step(env, path, st, partLine);
    NewPartKeepsOpenGroup(env, path, st, partLine);
    assert [partLine, faceLine][1..] == [faceLine];
    if next.Ok? {
      var mid := next.value;
      assert [faceLine][1..] == [];
      assert ParseLines(env, path, st, [partLine, faceLine]) == ParseLines(env, path, mid, [faceLine]);
      var last := Step(env, path, mid, faceLine);
      if last.Ok? {
        assert ParseLines(env, path, mid, [faceLine]) == ParseLines(env, path, last.value, []);
        FaceLineAppends(env, path, mid, faceLine);
        assert EnsureOpenGroup(mid) == mid;
        assert mid.parts[st.open.value.part] == st.parts[st.open.value.part];
      }
    }
  }

  /** The faces one line adds: one per `f` line, two for an `f` line with
      four or more references. */
  function LineFaceCount(line: string): nat
  {
    var tokens := SplitLineWhitespace(line);
    if |tokens| > 0 && tokens[0] == "f" then (if |tokens| > 4 then 2 else 1) else 0
  }

  function LinesFaceCount(lines: seq<string>): nat
  {
    if |lines| == 0 then 0 else LineFaceCount(lines[0]) + LinesFaceCount(lines[1..])
  }

  lemma AppendGroupCount(parts: seq<Part>, g: Group)
    requires |parts| > 0
    ensures FaceCount(AppendGroup(parts, g)) == FaceCount(parts) + |g.faces|
  {
    var last := |parts| - 1;
    GroupFacesAppend(parts[last].groups, g);
    FaceCountUpdate(parts, last, parts[last].(groups := parts[last].groups + [g]));
  }

  lemma AddFacesCount(parts: seq<Part>, ref: GroupRef, faces: seq<Face>)
    requires RefValid(parts, ref)
    ensures FaceCount(AddFaces(parts, ref, faces)) == FaceCount(parts) + |faces|
  {
    var p := parts[ref.part];
    var g := p.groups[ref.group];
    GroupFacesUpdate(p.groups, ref.group, g.(faces := g.faces + faces));
    FaceCountUpdate(parts, ref.part, p.(groups := p.groups[ref.group := g.(faces := g.faces + faces)]));
  }

  lemma EnsureOpenGroupCount(st: ObjState)
    requires OpenValid(st)
    ensures FaceCount(EnsureOpenGroup(st).parts) == FaceCount(st.parts)
  {
    var withPart := if |st.parts| == 0 then st.(parts := [Part("", [], Origin)]) else st;
    if |st.parts| == 0 {
      assert [Part("", [], Origin)][1..] == [];
    }
    if withPart.open.None? {
      AppendGroupCount(withPart.parts, Group(Some(0), []));
    }
  }

  /** Each line changes the number of faces in the model by exactly the
      faces it adds. */
  lemma StepFaceCount(env: Env, path: string, st: ObjState, line: string)
    requires OpenValid(st)
    ensures var r := Step(env, path, st, line);
            r.Ok? ==> FaceCount(r.value.parts) == FaceCount(st.parts) + LineFaceCount(line)
  {
    var tokens := SplitLineWhitespace(line);
    var r := Step(env, path, st, line);
    if r.Ok? && |tokens| > 0 {
      if tokens[0] == "g" || tokens[0] == "o" {
        FaceCountAppend(st.parts, Part(tokens[1], [], Origin));
      } else if tokens[0] == "usemtl" {
        AppendGroupCount(st.parts, Group(LastIndex(Names(st.materials), tokens[1]), []));
      } else if tokens[0] == "f" {
        var w := EnsureOpenGroup(st);
        EnsureOpenGroupCount(st);
        FaceLineTriangulates(env, w, tokens);
        AddFacesCount(w.parts, w.open.value, FaceLineFaces(env, w, tokens).value);
      }
    }
  }

  lemma {:induction false} ParseLinesFaceCount(env: Env, path: string, st: ObjState, lines: seq<string>)
    requires OpenValid(st)
    ensures var r := ParseLines(env, path, st, lines);
            r.Ok? ==> FaceCount(r.value.parts) == FaceCount(st.parts) + LinesFaceCount(lines)
    decreases |lines|
  {
    if |lines| > 0 {
      StepFaceCount(env, path, st, lines[0]);
      var next := Step(env, path, st, lines[0]);
      if next.Ok? {
        ParseLinesFaceCount(env, path, next.value, lines[1..]);
      }
    }
  }

  /** A loaded model holds one face per `f` line of its file, two for each
      `f` line with four or more references, and no others. */
  lemma LoadModelFaceCount(env: Env, path: string)
    ensures var r := LoadModel(env, path);
            r.Ok? ==> FaceCount(r.value.parts) == LinesFaceCount(env.files[path])
  {
    if path in env.files {
      ParseLinesFaceCount(env, path, Initial, env.files[path]);
      var st := ParseLines(env, path, Initial, env.files[path]);
      var r := LoadModel(env, path);
      if r.Ok? {
        FaceCountSameGroups(r.value.parts, st.value.parts);
      }
    }
  }

  /** Parts with the same groups have the same number of faces. */
  lemma {:induction false} FaceCountSameGroups(ps: seq<Part>, qs: seq<Part>)
    requires |ps| == |qs|
    requires forall i :: 0 <= i < |ps| ==> ps[i].groups == qs[i].groups
    ensures FaceCount(ps) == FaceCount(qs)
    decreases |ps|
  {
    if |ps| > 0 {
      FaceCountSameGroups(ps[1..], qs[1..]);
    }
  }

  /** Whether a line is a `v` or an `f` line. */
  predicate VertexOrFaceLine(line: string)
  {
    var tokens := SplitLineWhitespace(line);
    |tokens| > 0 && (tokens[0] == "v" || tokens[0] == "f")
  }

  /** No part and no current group: the reader before its first `f`. */
  predicate NoParts(st: ObjState)
  {
    st.parts == [] && st.open.None?
  }

  /** The single anonymous part an `f` line opens, with its one group bound
      to table entry 0 (Default) and current. */
  predicate AnonymousOnly(st: ObjState)
  {
    && |st.parts| == 1
    && st.parts[0].name == "" && st.parts[0].center == Origin
    && |st.parts[0].groups| == 1 && st.parts[0].groups[0].material == Some(0)
    && st.open == Some(GroupRef(0, 0))
  }

  /** A `v` line keeps either shape; an `f` line turns both into the
      anonymous part. */
  lemma VertexOrFaceStep(env: Env, path: string, st: ObjState, line: string)
    requires VertexOrFaceLine(line)
    requires NoParts(st) || AnonymousOnly(st)
    ensures var r := Step(env, path, st, line);
            r.Ok? ==>
              && r.value.materials == st.materials
              && (AnonymousOnly(st) || LineFaceCount(line) > 0 ==> AnonymousOnly(r.value))
              && (NoParts(st) && LineFaceCount(line) == 0 ==> NoParts(r.value))
  {
    var tokens := SplitLineWhitespace(line);
    var r := Step(env, path, st, line);
    if r.Ok? && tokens[0] == "f" {
      var w := EnsureOpenGroup(st);
      assert AnonymousOnly(w);
      FaceLineAppends(env, path, st, line);
    }
  }

  lemma {:induction false} VertexOrFaceLines(env: Env, path: string, st: ObjState, lines: seq<string>)
    requires forall k :: 0 <= k < |lines| ==> VertexOrFaceLine(lines[k])
    requires NoParts(st) || AnonymousOnly(st)
    ensures var r := ParseLines(env, path, st, lines);
            r.Ok? ==>
              && r.value.materials == st.materials
              && (AnonymousOnly(st) || LinesFaceCount(lines) > 0 ==> AnonymousOnly(r.value))
    decreases |lines|
  {
    if |lines| > 0 {
      VertexOrFaceStep(env, path, st, lines[0]);
      var next := Step(env, path, st, lines[0]);
      if next.Ok? {
        assert forall k :: 0 <= k < |lines[1..]| ==> VertexOrFaceLine(lines[1..][k]) by {
          forall k | 0 <= k < |lines[1..]|
            ensures VertexOrFaceLine(lines[1..][k])
          {
            assert lines[1..][k] == lines[k + 1];
          }
        }
        VertexOrFaceLines(env, path, next.value, lines[1..]);
      }
    }
  }

  /** A file of only `v` and `f` lines, with at least one `f` line, loads
      (whenever its references are valid) to exactly one part, named "",
      holding exactly one group, bound to table entry 0 (Default), which
      holds every face of the file; the table is just Default. Finishing
      cannot fail, so the load fails only where a line does. */
  lemma VertexAndFaceFile(env: Env, path: string)
    requires path in env.files
    requires forall k :: 0 <= k < |env.files[path]| ==> VertexOrFaceLine(env.files[path][k])
    requires LinesFaceCount(env.files[path]) > 0
    ensures var lines := env.files[path];
            var r := LoadModel(env, path);
            && (r.Ok? <==> ParseLines(env, path, Initial, lines).Ok?)
            && (r.Ok? ==>
                  && r.value.materials == [DefaultMaterial]
                  && |r.value.parts| == 1
                  && var p := r.value.parts[0];
                     && p.name == "" && p.center == Center(p)
                     && |p.groups| == 1 && p.groups[0].material == Some(0)
                     && |p.groups[0].faces| == LinesFaceCount(lines))
  {
    var lines := env.files[path];
    assert NoParts(Initial);
    VertexOrFaceLines(env, path, Initial, lines);
    ParseLinesFaceCount(env, path, Initial, lines);
    var st := ParseLines(env, path, Initial, lines);
    if st.Ok? {
      var s := st.value;
      assert AllUploadable(s.parts, s.materials) by {
        assert Uploadable(s.parts[0].groups[0], s.materials);
      }
      var g := s.parts[0].groups[0];
      assert s.parts[0].groups == [g];
      assert GroupFaces(s.parts[0].groups) == g.faces + GroupFaces(s.parts[0].groups[1..]);
      assert s.parts[1..] == [];
      assert FaceCount(s.parts) == |PartFaces(s.parts[0])|;
    }
  }
}

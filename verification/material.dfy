/** Material and Model::_loadMtl, the reader for the companion material
file (`newmtl`, `Kd`, `map_Kd`).
 */
module Materials {
  import opened Results
  import opened Geometry
  import opened Tokenizer
  import opened World

  /** A Material as the loaders populate it: its name, its diffuse colour
      and, after `map_Kd`, the path of its texture image. */
  datatype Material = Material(name: string, diffuse: Vec3, texture: Option<string>)

  /** Material::Material followed by setName: every material starts out
      white, with no texture. */
  function NewMaterial(name: string): (m: Material)
    ensures m.name == name && m.diffuse == White && m.texture == None
  {
    Material(name, White, None)
  }

  /** Table entry 0 of every model: named "Default", white. */
  const DefaultMaterial: Material := NewMaterial("Default")

  /** The names of a table, in table order. */
  function Names(table: seq<Material>): (names: seq<string>)
    ensures |names| == |table|
    ensures forall i :: 0 <= i < |table| ==> names[i] == table[i].name
  {
    seq(|table|, i requires 0 <= i < |table| => table[i].name)
  }

  /** _loadMtl's state: the material table, and the table length when this
      file was opened. The local `material` pointer is null until the file
      declares a material; after that it is the last table entry. */
  datatype MtlState = MtlState(table: seq<Material>, base: nat)

  predicate HasCurrent(st: MtlState)
  {
    |st.table| > st.base
  }

  /** The table with its last entry replaced. */
  function SetLast(table: seq<Material>, m: Material): seq<Material>
    requires |table| > 0
  {
    table[|table| - 1 := m]
  }

  /** One line of a material file. Arguments are read before the current
      material is dereferenced, so a short line reports MissingToken even
      when no material has been declared. */
  function MtlStep(env: Env, prefix: string, st: MtlState, line: string): (r: Result<MtlState>)
    ensures r.Ok? ==> r.value.base == st.base
    ensures r.Ok? ==> |r.value.table| >= |st.table|
    ensures r.Ok? && |st.table| >= st.base ==> r.value.table[..st.base] == st.table[..st.base]
  {
    var tokens := SplitLineWhitespace(line);
    if |tokens| == 0 then Ok(st)
    else if tokens[0] == "newmtl" then
      var name :- TokenAt(tokens, 1);
      Ok(st.(table := st.table + [NewMaterial(name)]))
    else if tokens[0] == "Kd" then
      var r :- TokenAt(tokens, 1);
      var g :- TokenAt(tokens, 2);
      var b :- TokenAt(tokens, 3);
      if !HasCurrent(st) then Err(NoMaterial)
      else
        var current := st.table[|st.table| - 1];
        Ok(st.(table := SetLast(st.table, current.(diffuse := Vec3(env.atof(r), env.atof(g), env.atof(b))))))
    else if tokens[0] == "map_Kd" then
      var file :- TokenAt(tokens, 1);
      var path := prefix + "/" + file;
      if !env.decodes(path) then Err(TextureFailed(path))
      else if !HasCurrent(st) then Err(NoMaterial)
      else
        var current := st.table[|st.table| - 1];
        Ok(st.(table := SetLast(st.table, current.(texture := Some(path)))))
    else Ok(st)
  }

  function MtlLines(env: Env, prefix: string, st: MtlState, lines: seq<string>): Result<MtlState>
    decreases |lines|
  {
    if |lines| == 0 then Ok(st)
    else
      var next :- MtlStep(env, prefix, st, lines[0]);
      MtlLines(env, prefix, next, lines[1..])
  }

  /** Model::_loadMtl: open `prefix + "/" + fileName` and run its lines
      against the table, starting with no current material. */
  function LoadMtl(env: Env, prefix: string, fileName: string, table: seq<Material>): Result<seq<Material>>
  {
    var lines :- Open(env, prefix + "/" + fileName);
    var st :- MtlLines(env, prefix, MtlState(table, |table|), lines);
    Ok(st.table)
  }

  /** Whether a line of a material file declares a material. */
  predicate IsNewmtl(line: string)
  {
    var tokens := SplitLineWhitespace(line);
    |tokens| > 0 && tokens[0] == "newmtl"
  }

  function NewmtlCount(lines: seq<string>): nat
  {
    if |lines| == 0 then 0 else (if IsNewmtl(lines[0]) then 1 else 0) + NewmtlCount(lines[1..])
  }

  lemma {:induction false} MtlLinesKeepTable(env: Env, prefix: string, st: MtlState, lines: seq<string>)
    requires |st.table| >= st.base
    ensures MtlLines(env, prefix, st, lines).Ok? ==>
              var t := MtlLines(env, prefix, st, lines).value.table;
              |t| == |st.table| + NewmtlCount(lines) && t[..st.base] == st.table[..st.base]
    decreases |lines|
  {
    if |lines| > 0 {
      var next := MtlStep(env, prefix, st, lines[0]);
      if next.Ok? {
        MtlLinesKeepTable(env, prefix, next.value, lines[1..]);
      }
    }
  }

  /** A material file only ever appends to the table: the entries it was
      given (Default among them) come back untouched, followed by one new
      entry per `newmtl` line. `Kd` and `map_Kd` reach only materials the
      same file declared. */
  lemma LoadMtlAppendsOnly(env: Env, prefix: string, fileName: string, table: seq<Material>)
    ensures LoadMtl(env, prefix, fileName, table).Ok? ==>
              var t := LoadMtl(env, prefix, fileName, table).value;
              var lines := env.files[prefix + "/" + fileName];
              |t| == |table| + NewmtlCount(lines) && t[..|table|] == table
  {
    var path := prefix + "/" + fileName;
    if path in env.files {
      MtlLinesKeepTable(env, prefix, MtlState(table, |table|), env.files[path]);
    }
  }

  /** `newmtl` appends a white, untextured material of that name. */
  lemma NewmtlAppendsWhite(env: Env, prefix: string, st: MtlState, line: string)
    requires var tokens := SplitLineWhitespace(line); |tokens| >= 2 && tokens[0] == "newmtl"
    ensures MtlStep(env, prefix, st, line) ==
            Ok(st.(table := st.table + [Material(SplitLineWhitespace(line)[1], White, None)]))
  {
  }

  /** `Kd r g b` overwrites the diffuse colour of the latest material of
      this file and nothing else; before the file's first `newmtl` it is a
      null dereference. */
  lemma KdSetsLatestOnly(env: Env, prefix: string, st: MtlState, line: string)
    requires var tokens := SplitLineWhitespace(line); |tokens| >= 4 && tokens[0] == "Kd"
    ensures var tokens := SplitLineWhitespace(line);
            var r := MtlStep(env, prefix, st, line);
            && (r.Ok? <==> HasCurrent(st))
            && (r.Err? ==> r.error == NoMaterial)
            && (r.Ok? ==>
                  var n := |st.table|;
                  && |r.value.table| == n
                  && r.value.table[..n - 1] == st.table[..n - 1]
                  && r.value.table[n - 1].name == st.table[n - 1].name
                  && r.value.table[n - 1].texture == st.table[n - 1].texture
                  && r.value.table[n - 1].diffuse ==
                     Vec3(env.atof(tokens[1]), env.atof(tokens[2]), env.atof(tokens[3])))
  {
  }

  /** `map_Kd file` gives the latest material of this file the texture at
      prefix + "/" + file and changes nothing else. The texture is built
      before the material is dereferenced, so an image that does not decode
      fails first; otherwise, before the file's first `newmtl`, it is a null
      dereference. */
  lemma MapKdSetsLatestOnly(env: Env, prefix: string, st: MtlState, line: string)
    requires var tokens := SplitLineWhitespace(line); |tokens| >= 2 && tokens[0] == "map_Kd"
    ensures var path := prefix + "/" + SplitLineWhitespace(line)[1];
            var r := MtlStep(env, prefix, st, line);
            && (r.Ok? <==> env.decodes(path) && HasCurrent(st))
            && (!env.decodes(path) ==> r == Err(TextureFailed(path)))
            && (env.decodes(path) && !HasCurrent(st) ==> r == Err(NoMaterial))
            && (r.Ok? ==>
                  var n := |st.table|;
                  && r.value.base == st.base
                  && |r.value.table| == n
                  && r.value.table[..n - 1] == st.table[..n - 1]
                  && r.value.table[n - 1].name == st.table[n - 1].name
                  && r.value.table[n - 1].diffuse == st.table[n - 1].diffuse
                  && r.value.table[n - 1].texture == Some(path))
  {
  }
}

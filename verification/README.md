# libwavefront in Dafny

A model of the core of libwavefront. The library is a small C++ loader and
renderer for Wavefront OBJ models with MTL material files and a simple
keyframe animation format. The model is written in Dafny and covers:

- **Tokenisers.** `Util::split` and `Util::splitLineWhitespace` (module `Tokenizer`).
- **OBJ reader.** `Model::Model`, written as a fold over the lines of the file (modules `ObjLoader`, `ObjLoaderProps`). It reads:
  - positions (`v`) and texture coordinates (`vt`);
  - parts (`g`/`o`) and material groups (`usemtl`);
  - triangulated faces (`f`);
  - the material library (`mtllib`), with its directory prefix.
- **MTL reader.** `Model::_loadMtl` and `Material::Material` (module `Materials`).
- **Data.** `Vector3`, `Face`, `MaterialGroup`, `Part` and `Model` (modules `Geometry`, `Scene`).
- **Part pivot.** The per-face bounds (`Face::getMin*`/`getMax*`) and the part center computed in `Part::upload` (module `Bounds`).
- **Render arrays.** The four float arrays that `MaterialGroup::upload` builds for the graphics card (module `Render`).
- **Animations.** The `Animation` loader, `Frame::add`, `Frame::getIndexOfPart` and the frame blending of `Animation::interpolate` (modules `Keyframes`, `Interpolation`).
- **Playback.** `AnimatedModel`: attaching and detaching animations, advancing cursors, and the transform trace that `draw` issues through `performTransformation` (module `Playback`).

How the C++ maps onto the model:

- `float` and `double` coordinates become `real`. The core only adds, negates, compares and halves them.
- Failures become `Result` values carrying a `LoadError` (module `Results`). This covers the exceptions the code throws and the `vector::at` range errors. It also covers the null dereferences it would commit:
  - `usemtl` before any `g`, `o` or `f` line;
  - `Kd`/`map_Kd` before `newmtl`;
  - `t` before `f`;
  - a group with faces and no material, at upload;
  - any group with no material, at draw (`MaterialGroup::draw` asks the material for its texture even when the group is empty).
- A `Material*` held by a group becomes an index into the model's material table.
- An `Animation*` becomes a `Handle`, compared by identity.
- Outside inputs are parameters, gathered in module `World`:
  - file contents;
  - the C library's `atof`/`atoi`;
  - whether a texture image decodes.
- The face normal is an uninterpreted function of the three positions.
- The GL matrix calls of `draw` become a trace of `Op` values.

The code, not its comments, decides the behaviour. Where the two could be
read differently, the model follows the code:

- A tab is not a token separator for `splitLineWhitespace`, although its comment lists `\t`.
- `usemtl` binds its group to the LAST material of that name, because the scan has no `break`.
- The second triangle of a four-reference `f` line uses references 3, 4, 1.
- A model path without `/` or `\` gives the empty prefix, so the material file is opened as `"/" + name`.
- `g`/`o` do not reset the current group. Faces after a new part without `usemtl` go to the previous part's group.
- The seven fields of a `t` line, the three of a `Kd` line and the name of a `usemtl` line are read before the null pointer is dereferenced. A short line therefore reports a missing token first.
- The part center is seeded with the sentinels ±999999, not with infinities.
- Upload skips a group without faces, but draw does not. A file whose `usemtl` names no known material and adds no faces to that group therefore loads, and drawing it dereferences the null material (`Playback.UnboundEmptyGroupLoadsButCannotDraw`).
- The doc comment of `Animation::interpolate` calls `passes` the number of new frames between each pair of originals. The loop doubles the list on every pass instead, so after p passes the originals sit 2^p apart with 2^p − 1 new frames between neighbours (`Interpolation.PositionClosedForm`, `Interpolation.IterateClosedForms`).

## Model

| member | source | states |
|---|---|---|
| Tokenizer.SplitShape | src/wavefront.cpp:956-977 | no token contains the delimiter; there is one token per delimiter plus one for an unterminated last field; joining the tokens with the delimiter gives the input minus one trailing delimiter |
| Tokenizer.SplitJoinRoundTrip | src/wavefront.cpp:956-977 | an input that does not end with the delimiter is rebuilt exactly by joining its tokens |
| Tokenizer.JoinSplitRoundTrip | src/wavefront.cpp:956-977 | delimiter-free tokens whose last one is non-empty are recovered by splitting their join |
| Tokenizer.SplitExamples | src/wavefront.cpp:956-977 | consecutive delimiters give an empty token ("a//b" gives a, "", b) and a trailing delimiter gives none |
| Tokenizer.SplitLineWhitespaceShape | src/wavefront.cpp:984-1016 | tokens hold no space, CR or LF; their concatenation is the line without those characters; every token but the first is non-empty; the first is empty exactly when the line, CR and LF aside, starts with a space |
| Tokenizer.LineBreaksIgnored | src/wavefront.cpp:990-993 | removing every CR and LF from the line first changes nothing |
| Tokenizer.SplitLineWhitespaceCollapses | src/wavefront.cpp:984-1016 | a run of spaces separates once and a trailing CR vanishes |
| Tokenizer.SplitLineWhitespaceLeadingSpace | src/wavefront.cpp:995-1002 | a leading space yields an empty first token |
| Tokenizer.SplitLineWhitespaceKeepsTabs | src/wavefront.cpp:984-1016 | a tab stays inside its token |
| Tokenizer.SplitTwoWords | src/wavefront.cpp:984-1016 | two words without spaces or line breaks, joined by one space, split back into those two words |
| Search.FirstIndex | src/wavefront.cpp:1572-1583 | -1 exactly when the value is absent, otherwise an index holding it with no earlier match |
| Search.LastIndex | src/wavefront.cpp:134-140 | None exactly when the value is absent, otherwise an index holding it with no later match |
| Search.FirstIndexAppend | src/wavefront.cpp:1562-1583 | appending keeps the first match of a value already present and puts a new value at the old length |
| Geometry.FaceMax | src/wavefront.cpp:495-550 | the result is one of the three corner coordinates on that axis and at least each of them |
| Geometry.FaceMin | src/wavefront.cpp:552-605 | the result is one of the three corner coordinates on that axis and at most each of them |
| Geometry.Negate | src/wavefront.cpp:1493-1495 | every coordinate is negated |
| Geometry.NegateUndoesTranslation | src/wavefront.cpp:1481-1495 | translating by the center and then by its negation returns every point to where it was; negating twice gives the offset back |
| World.Open | src/wavefront.cpp:60-63 | a file opens exactly when it exists and yields its lines; otherwise CannotOpen with that path |
| Materials.NewMaterial | src/wavefront.cpp:901-908 | a new material has the given name, white diffuse and no texture |
| Materials.MtlStep | src/wavefront.cpp:248-277 | a material-file line never shrinks the table and never touches the entries the file was given |
| Materials.LoadMtlAppendsOnly | src/wavefront.cpp:233-278 | a loaded material file returns the given table untouched, followed by one entry per `newmtl` line |
| Materials.NewmtlAppendsWhite | src/wavefront.cpp:256-261 | `newmtl name` appends a white, untextured material of that name |
| Materials.KdSetsLatestOnly | src/wavefront.cpp:263-271 | `Kd r g b` succeeds exactly when this file declared a material, fails with NoMaterial otherwise, and overwrites only the diffuse colour of the latest material |
| Materials.MapKdSetsLatestOnly | src/wavefront.cpp:273-276 | `map_Kd file` fails with TextureFailed when the image at prefix + "/" + file does not decode, then with NoMaterial before the file's first `newmtl`; otherwise it gives only the latest material that texture, keeping its name and colour |
| Materials.MtlLinesKeepTable | src/wavefront.cpp:248-278 | over a sequence of lines the table grows by the number of `newmtl` lines and its given prefix is kept |
| Bounds.Center | src/wavefront.cpp:619-666 | per axis, the center is the midpoint of the running minimum and maximum over the part's faces |
| Bounds.WithCenter | src/wavefront.cpp:617-666 | computing the center changes neither the part's name nor its groups |
| Bounds.LowFromIsLeast | src/wavefront.cpp:627-661 | the running minimum is at most its seed and every face minimum, and equals one of them |
| Bounds.HighFromIsGreatest | src/wavefront.cpp:627-661 | the running maximum is at least its seed and every face maximum, and equals one of them |
| Bounds.CenterOfEmptyPart | src/wavefront.cpp:619-666 | a part without faces is centered on the origin |
| Bounds.CenterWithinBounds | src/wavefront.cpp:619-666 | with coordinates within ±999999, the center lies between the least face minimum and the greatest face maximum |
| Bounds.SingleTriangleCenter | src/wavefront.cpp:619-666 | a one-triangle part within the sentinels is centered between that triangle's extremes |
| Bounds.FarPartCenterOutside | src/wavefront.cpp:619-624 | beyond the sentinels the center can fall outside the part |
| Render.AssembleBlocks | src/wavefront.cpp:779-849 | the arrays have 9, 12, 9 and 6 floats per face; block i holds face i's corners, the diffuse colour with alpha 1 per corner, face i's normal per corner, and the x,y of its texture coordinates |
| Render.AssembleAppend | src/wavefront.cpp:779-849 | the arrays of two runs of faces are the concatenations of each run's arrays |
| Render.FlattenBlocks | src/wavefront.cpp:779-849 | each array has one block per face, and block i is face i's |
| Render.Upload | src/wavefront.cpp:779-849 | a group uploads exactly when it has no faces or a material in the table; otherwise NullGroupMaterial; with faces the arrays are built from that material's diffuse colour |
| ObjLoader.MtlPrefix | src/wavefront.cpp:82-100 | the prefix is a prefix of the model path |
| ObjLoader.LastSeparatorBelow | src/wavefront.cpp:84-91 | the index found holds `/` or `\` and no later index does |
| ObjLoader.MtlPrefixOfJoin | src/wavefront.cpp:82-100 | a path built as directory, separator, file name gives back the directory |
| ObjLoader.MtlPrefixWithoutSeparator | src/wavefront.cpp:93-96 | a path with no separator gives the empty prefix |
| ObjLoader.AppendGroup | src/wavefront.cpp:141 | the group is appended to the last part's groups; every other part is unchanged |
| ObjLoader.AddFaces | src/wavefront.cpp:187 | the faces are appended to the one open group; every other group and every name and center are unchanged |
| ObjLoader.EnsureOpenGroup | src/wavefront.cpp:147-160 | afterwards a group is open; with none, an anonymous part is added if there are no parts, then a group bound to entry 0 with no faces; with one open, nothing changes |
| ObjLoader.ReadCorner | src/wavefront.cpp:162-168 | a reference is read exactly when it exists, has a position field, and its position index (and its texture index, when given) is in range; it then reads the position at its 1-based index minus one, and the texture coordinate only when a non-empty field follows the first `/`, the origin otherwise; a missing reference or field is MissingToken, an index out of range BadIndex |
| ObjLoader.Step | src/wavefront.cpp:69-218 | a line keeps the open group pointing at an existing group |
| ObjLoader.Finish | src/wavefront.cpp:220-224 | loading finishes exactly when every group is uploadable, otherwise NullGroupMaterial; each part keeps its name and groups and gets its center |
| ObjLoader.LoadModel | src/wavefront.cpp:60-63 | a missing model file fails with CannotOpen |
| ObjLoaderProps.VertexLine | src/wavefront.cpp:102-108 | `v x y z` appends one position made of its three numbers; fewer tokens fail with MissingToken |
| ObjLoaderProps.TexCoordLine | src/wavefront.cpp:109-122 | `vt` appends (x, -y, z), with z 0 when absent |
| ObjLoaderProps.NewPartKeepsOpenGroup | src/wavefront.cpp:123-129 | `g`/`o` append an empty part of that name and change nothing else, so the open group stays where it was; without a name they fail with MissingToken |
| ObjLoaderProps.UseMtlBindsLastMatch | src/wavefront.cpp:130-144 | `usemtl` fails with NoOpenPart without a part; otherwise it opens a new empty group on the last part, bound to the last material of that name, or to none when there is none; the positions, texture coordinates, table, the other parts and the last part's name and center are unchanged |
| ObjLoaderProps.FaceLineTriangulates | src/wavefront.cpp:160-218 | the faces are read exactly when references 1 to 3, and 4 when there are more than three, are readable; three references give triangle (1,2,3); four or more give (1,2,3) and (3,4,1) |
| ObjLoaderProps.FaceLineAppends | src/wavefront.cpp:145-188 | `f` fails exactly when reading its faces fails, with that error; otherwise it appends its one or two triangles to the open group, opening one first when needed; no other group, no part name, center or group count, and none of the positions, texture coordinates or table change; corner positions are read at the 1-based index minus one |
| ObjLoaderProps.VertexOrFaceStep | src/wavefront.cpp:102-188 | on a state with no parts or only the anonymous part, a `v` line keeps the shape and an `f` line leaves only the anonymous part with its one Default group |
| ObjLoaderProps.VertexOrFaceLines | src/wavefront.cpp:69-219 | over `v` and `f` lines the table is unchanged, and once an `f` line is read the state is the anonymous part with its one Default group |
| ObjLoaderProps.VertexAndFaceFile | src/wavefront.cpp:43-225 | a file of `v` and `f` lines with at least one `f` line loads, whenever its lines read, to a model whose table is just Default and whose only part is named "", is centered on its faces and holds one group, bound to Default, with every face of the file |
| ObjLoaderProps.OtherLinesIgnored | src/wavefront.cpp:75-78 | blank lines and lines with an unknown first token change nothing |
| ObjLoaderProps.MtllibLine | src/wavefront.cpp:80-100 | `mtllib name` loads the material file from the model's directory into the table |
| ObjLoaderProps.EnsureOpenGroupKeepsValid | src/wavefront.cpp:147-159 | opening a default group keeps every group bound to an existing table entry |
| ObjLoaderProps.AddFacesKeepsMaterials | src/wavefront.cpp:187 | adding faces changes no group's material |
| ObjLoaderProps.StepKeepsValid | src/wavefront.cpp:65-218 | after every line entry 0 is still Default, every bound group names an existing entry, and the open group exists |
| ObjLoaderProps.ParseLinesKeepsValid | src/wavefront.cpp:69-219 | the reader's invariant holds after any number of lines |
| ObjLoaderProps.LoadModelShape | src/wavefront.cpp:43-225 | a loaded model has Default at entry 0, every bound group names an existing entry, every group with faces has a material, and every part carries its center; a missing file fails with CannotOpen |
| ObjLoaderProps.FacesAfterNewPartGoToPreviousGroup | src/wavefront.cpp:123-159 | after `g` then `f`, the faces go to the group open before the `g`, and the new part stays empty |
| ObjLoaderProps.StepFaceCount | src/wavefront.cpp:145-218 | a line adds one face per `f` line with three references, two with four or more, none otherwise |
| ObjLoaderProps.LoadModelFaceCount | src/wavefront.cpp:43-225 | a loaded model holds exactly the faces its `f` lines describe |
| Keyframes.Add | src/wavefront.cpp:1562-1567 | one entry is appended to each list, the earlier entries are kept, and parallel lists stay parallel |
| Keyframes.IndexOfPart | src/wavefront.cpp:1572-1583 | -1 exactly when the name is absent, otherwise its first entry |
| Keyframes.IndexOfPartAfterAdd | src/wavefront.cpp:1562-1583 | after an add, a name already present is found where it was, and a new name is found at the new entry |
| Keyframes.Mean | src/wavefront.cpp:1382-1388 | each component is the average of the two inputs' components |
| Keyframes.Blend | src/wavefront.cpp:1374-1393 | a blend succeeds exactly when both frames have an entry for each of the first frame's names; it keeps the first frame's names and averages translations and rotations position by position |
| Keyframes.BlendSelf | src/wavefront.cpp:1376-1393 | blending a frame with itself gives it back |
| Keyframes.TransformLineAddsToLatest | src/wavefront.cpp:1329-1335 | a `t` line fails with NoFrame before any frame and otherwise adds one entry to the latest frame only |
| Keyframes.AnimationLinesShape | src/wavefront.cpp:1311-1336 | the frames grow by one per `f` line and stay parallel |
| Keyframes.LoadAnimationShape | src/wavefront.cpp:1297-1337 | a loaded animation has one parallel frame per `f` line of its file |
| Keyframes.LoadAnimation | src/wavefront.cpp:1304-1309 | a missing animation file fails with CannotOpen |
| Interpolation.InterpolatePass | src/wavefront.cpp:1355-1397 | a pass succeeds exactly when every blend it performs can read its entries; it then keeps the originals in order at even positions and puts after original i its blend with the next original, or with the first after the last when joining |
| Interpolation.UniformPass | src/wavefront.cpp:1376-1393 | frames that are parallel and name equally many parts always blend, and a pass keeps them so |
| Interpolation.PassKeepsPositions | src/wavefront.cpp:1355-1397 | each pass doubles every original's position |
| Interpolation.IteratedLengthClosedForm | src/wavefront.cpp:1352-1399 | after p passes, n frames become n·2^p with joining and (n-1)·2^p+1 without; none stay none |
| Interpolation.PositionClosedForm | src/wavefront.cpp:1352-1399 | after p passes, original i sits at i·2^p |
| Interpolation.PassOf | src/wavefront.cpp:1355-1397 | a reference pass: it fails exactly when some blend would read a missing entry, with EntryOutOfRange, and otherwise satisfies IsPassOf |
| Interpolation.PassUnique | src/wavefront.cpp:1355-1397 | IsPassOf determines the pass: two results that satisfy it are equal |
| Interpolation.NextPass | src/wavefront.cpp:1355-1397 | the insertion loop of one pass computes exactly the reference pass |
| Interpolation.IterateFailureStays | src/wavefront.cpp:1352-1399 | once a pass fails, every larger number of passes fails with EntryOutOfRange |
| Interpolation.TwoFramesOnePass | src/wavefront.cpp:1352-1399 | two uniform frames and one pass give the first, their blend, the second; with joining also the blend of the second with the first |
| Interpolation.IterateShape | src/wavefront.cpp:1352-1399 | after p successful passes the list has IteratedLength frames and original i is at Position(i, p) |
| Interpolation.IterateUniform | src/wavefront.cpp:1352-1399 | uniform frames survive any number of passes and stay uniform |
| Interpolation.IterateClosedForms | src/wavefront.cpp:1352-1399 | after p successful passes the list has the closed-form length and the originals sit 2^p apart in order |
| Interpolation.RunPasses | src/wavefront.cpp:1352-1399 | the outer loop computes the reference passes one after the other and stops at the first failure |
| Interpolation.Interpolate | src/wavefront.cpp:1342-1400 | the result is that of max(passes, 0) reference passes, so every inserted frame is the blend IsPassOf names; no pass runs for a non-positive count; uniform frames always interpolate; the result has the closed-form length and the originals 2^p apart in order; the only failure is EntryOutOfRange |
| Playback.Attach | src/wavefront.cpp:1438-1441 | a new animated model has nothing attached |
| Playback.AnimationExists | src/wavefront.cpp:1514-1525 | true exactly when the same animation is attached |
| Playback.AddAnimation | src/wavefront.cpp:1529-1541 | an attached animation changes nothing; a new one is appended with cursor 0; lockstep and no duplicates are kept |
| Playback.RemoveAnimation | src/wavefront.cpp:1545-1556 | an absent animation changes nothing; otherwise its first occurrence and its cursor are erased at the same index, the rest keep their order, and it is no longer attached |
| Playback.AddAnimationIdempotent | src/wavefront.cpp:1529-1541 | attaching twice is attaching once |
| Playback.RemoveUndoesAdd | src/wavefront.cpp:1529-1556 | attaching a new animation and removing it restores the model |
| Playback.Update | src/wavefront.cpp:1452-1463 | a cursor whose old value plus delta reaches its animation's frame count becomes 0, every other cursor becomes its old value plus delta; the attached list and the model are unchanged |
| Playback.AdvanceStaysInRange | src/wavefront.cpp:1456-1461 | with delta ≥ 0, a cursor in [0, N) stays in [0, N), wrapping to exactly 0 once it reaches N |
| Playback.AdvanceWithoutFrames | src/wavefront.cpp:1456-1461 | with no frames, a cursor that moves to a non-negative value goes back to 0 |
| Playback.UpdateKeepsCursorsInRange | src/wavefront.cpp:1452-1463 | played forwards, cursors inside their animations stay inside |
| Playback.Trunc | src/wavefront.cpp:1488-1490 | the double cursor becomes an int by truncation toward zero |
| Playback.TruncInRange | src/wavefront.cpp:1488-1490 | a cursor in [0, N) selects a frame in [0, N) |
| Playback.PerformTransformation | src/wavefront.cpp:1406-1427 | an out-of-range frame fails with FrameOutOfRange; a part the frame does not name gets no ops; otherwise its first entry's translation, then rotations about z, y and x |
| Playback.PartTraceShape | src/wavefront.cpp:1479-1499 | each part's trace draws that part once and leaves the matrix stack as it found it |
| Playback.DrawShape | src/wavefront.cpp:1466-1499 | with cursors in range, parallel frames and every group bound to a material, draw succeeds; it never succeeds while some group has no material (the dereference in `Part::draw`, src/wavefront.cpp:678-683 and 869); a successful draw draws every part once in part order with a balanced matrix stack |
| Playback.DrawWithoutAnimations | src/wavefront.cpp:1466-1499 | with no animation attached, draw succeeds exactly when every group has a material, and otherwise fails with NullDrawMaterial |
| Playback.UnboundEmptyGroupLoadsButCannotDraw | src/wavefront.cpp:133-143 | the file `g a` / `usemtl x` with no material `x` loads into one part holding one empty group bound to no material, and drawing that model fails with NullDrawMaterial |
| Playback.UnanimatedPart | src/wavefront.cpp:1479-1499 | a part no current frame names is only moved to its pivot and back around its draw, and its trace fails exactly when one of its groups has no material |
| Playback.UnanimatedPartInPlace | src/wavefront.cpp:1481-1497 | such a part draws exactly when all its groups have a material, and then the two translations before its draw cancel, so every point is drawn where it was |

## Left out

- The `Texture` class (src/wavefront.cpp:1097-1293). PNG decoding and the GL texture upload are foreign calls. A `map_Kd` line records the image path, and whether the image decodes is a parameter.
- The GL calls:
  - buffer generation, binding and drawing (src/wavefront.cpp:770-777, 851-898);
  - `Model::draw`, `Part::draw`, `MaterialGroup::draw` and `glewInit`.

  Only the array contents and the order of the matrix operations are modelled. Drawing a part is one `DrawPart` op, issued only when every group of the part has a material; otherwise the draw fails with `NullDrawMaterial`.
- `Util::calcNormal` and `Util::reduceToUnit` (src/wavefront.cpp:1020-1091). These are square roots and float normalisation, so the normal is an uninterpreted function.
- The matrix arithmetic behind `glTranslatef` and `glRotatef`. It is trigonometry on floats, and only the order of the operations is kept.
- File reading (`ifstream` and the `eof` loop). A file is its list of lines. The extra empty line the loop reads at the end has no tokens and is ignored either way.
- Digit conversion in `atof`/`atoi`, including `atoi` overflow. Both are parameters.
- Exception message texts. Failures are `LoadError` values.
- Float rounding. Coordinates, cursors and averages are exact reals.
- The `ambient`, `specular` and `transparency` fields of `Material`. No code in the core reads or writes them.
- Destructors, accessors and setters. They only copy fields the datatypes hold directly.
- The unused `undo` parameter of `performTransformation`.
- src/main.cpp, the demo program. It is not part of this model.
- Playback.Trunc: the conversion of a double cursor outside the int range, which C++ leaves undefined, is modelled as exact truncation.
- Interpolation.Interpolate: after a failed pass the C++ object keeps the frames inserted so far. The model returns only the error, not that partial state.
- ObjLoader.FaceLineFaces: the second triangle of a quad re-reads references 3 and 1. The reads are deterministic and already succeeded, so their first results are reused.

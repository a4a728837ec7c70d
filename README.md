# FaceGen TRI codec, modelled and verified in Dafny

This project models the TRI file codec of the TRI Tools Blender add-on: `export_tri` and `import_tri` in
`io.py`, with their helpers (`read_stat_morph`, `read_diff_morph`, `read_morph_label`,
`write_morph_label`, `skip_vertex_label`, `skip_surface_label`, `set_face_uvs`, `get_abs_morph_name`,
`get_shape_name`, `is_abs_morph`, `pack_vector3`).

A TRI file ("FRTRI003") has these sections, in order:

- a 64-byte header of ten int32 counts;
- the vertex positions and the pooled morph targets, twelve bytes each;
- the triangles and then the quads, as int32 corner indices;
- optional vertex and surface labels, which the exporter never writes and the importer skips;
- an optional UV section, either one UV per vertex (X = 0) or a pool of X distinct UVs plus per-corner indices;
- the diff (relative) morphs: a label, a float scale and three int16 deltas per vertex;
- the stat (absolute) morphs: a label, a count L and L vertex indices. Each listed vertex takes the next pooled target.

The project is organised as follows.

- `wrappers.dfy`, `bytes.dfy`: `Option`/`Result`, and little-endian two's-complement integers as `struct` and `int.to_bytes`/`int.from_bytes` produce them.
- `geometry.dfy`: the mesh as export reads it, with positions and UVs kept as the exact bytes the format stores. Shape names and their `*` marker are modelled here.
- `scale.dfy`: the choice of a diff morph's scale and the int16 quantisation, over real numbers.
- `format.dfy`: the file's sections as a `TriFile` value, and `Layout`, the byte image they make.
- `export_spec.dfy` (pure) and `export.dfy` (imperative).
  - `Encode` specifies `export_tri`: each of its error exits that does not come from float arithmetic, or the image of a successful export. `Written` says what the output file holds on each of those paths: it is opened before the header is written, so the last three checks leave a partial file behind.
  - `export.dfy` has the loops of `export_tri` as methods over a `ByteWriter` class whose output buffer grows. Each method is proved to compute its specification function.
- `import_spec.dfy` (pure) and `import.dfy` (imperative).
  - `Parse` specifies `import_tri` as readers that move a cursor through the file. Python's short reads, negative loop counts, negative seeks and negative subscripts are modelled as the interpreter behaves. A label length of -1 reads to the end of the file; a length below -1 is the ValueError that `file.read` raises on a buffered binary file (`BadReadLength`).
  - `import.dfy` runs the same reads on a `ByteReader` class (bytes plus a moving offset), and the UV layer is filled in place in an `array`. Each method is proved to compute its specification function.
- `roundtrip_file.dfy`: the file-level round trip. For every canonical file, `Parse(Layout(f))` rebuilds exactly the mesh, UV layer and morphs the file holds. A file is canonical (`FileRoundTrip.Canonical`) when:
  - every value fits the width it is packed in, and the header counts V, K, T, Q, Md and Ms are those of its sections;
  - it has no labels (LV = LS = 0), and ext is 0 without UVs and 1 with them;
  - triangles have three corners, quads four, and every corner is below V;
  - per-vertex UVs have X = 0 and one UV per vertex; per-face UVs have X > 0 UVs, one index record per face of its width, and every index below X;
  - every diff morph has one int16 triple per vertex;
  - every stat morph's indices are below V, and the stat counts sum to K.
- `roundtrip.dfy`: the mesh-level round trip. These results hold whenever `export_tri` succeeds on a mesh:
  - importing the file gives back its vertices and its faces (triangles first), and the UV of every loop;
  - it gives back the "Basis" key exactly when there are morphs to import;
  - it gives back each relative morph as written, and each absolute morph as its shape's positions wherever the shape moved.

Three behaviours of the code are easy to miss; the model follows the code in each.

- The label written by `write_morph_label` keeps its trailing NUL byte, and `read_morph_label` does not strip it. The label text therefore ends in NUL on both sides (`ExportSpec.LabelText`, `ImportSpec.ReadLabel`).
- The `*` marker of an absolute morph is not stored in its label. It is removed by `get_shape_name` on export and added again by `get_abs_morph_name` on import.
- With per-face UVs and a mesh that has no loops, export writes X = 0 with the UV flag set. The importer reads that as per-vertex UVs (see `RoundTrip.FaceModeWithoutLoops`).

## Model

| member | source | states |
|---|---|---|
| Bytes.ToBytes | io.py:208-210 | the k bytes produced have exactly the unsigned value n |
| Bytes.FromBytesSignedFits | io.py:339-341 | whatever w bytes `int.from_bytes(..., signed=True)` reads, the result fits a signed w-byte integer |
| Bytes.IntLE | io.py:208-210 | the w-byte two's-complement encoding of x decodes back to x |
| Bytes.Int32LE | io.py:392 | the four bytes of `to_bytes(4, "little", signed=True)` decode back to the length written |
| Bytes.Int16LE | io.py:203 | the two bytes of a packed short decode back to the short |
| Bytes.IntsRoundTrip | io.py:164-166 | unpacking the int32 (or int16) records that were packed gives back the same integers |
| Bytes.ConcatLength | io.py:172 | joining w-byte records gives w bytes per record |
| Geometry.GetAbsMorphName | io.py:312-313 | the imported name is one byte longer, is an absolute-morph name, and `get_shape_name` of it is the stored label |
| Geometry.GetShapeName | io.py:315-316 | an unmarked name is stored unchanged; a marked one is stored without its leading `*` |
| Scale.MaxAbs | io.py:191 | the result bounds the magnitude of all three components and equals one of them |
| Scale.DeltaMax | io.py:191 | delta_max bounds every delta's largest component magnitude and is attained by one delta |
| Scale.ChooseScale | io.py:193-197 | the scale is positive; it is 1.0 when every delta is zero, and otherwise scale * 32767 equals delta_max |
| Scale.Round | io.py:203 | Python's `round`: within one half of x, with ties going to the even integer |
| Scale.RoundWithin | io.py:203 | rounding a value within [-m, m] stays within [-m, m] |
| Scale.ComponentWithin | io.py:197-203 | any component no larger than delta_max, divided by the scale, lies within ±32767 |
| Scale.QuantizeFits | io.py:202-203 | every quantised component lies within ±32767, so `struct.pack("<3h")` accepts it |
| Scale.ZeroDeltasQuantizeToZero | io.py:193-195 | a shape identical to the reference gets scale 1.0 and all-zero deltas |
| Scale.MaxMapsToShortMax | io.py:190-197 | when some delta is non-zero, some component quantises to exactly ±32767 |
| Scale.QuantizationError | io.py:330-336 | the importer's reconstruction `scale * dx` is within half a scale step of the exported component |
| TriFormat.EncodeHeader | io.py:148 | the header is 64 bytes: the signature, then 40 bytes of counts, then 16 zero bytes. `TriFormat.HeaderRoundTrip` shows that the 40 bytes decode back to the ten counts |
| TriFormat.DecodeHeader | io.py:221 | the ten integers unpacked from 56 bytes all fit int32 |
| TriFormat.HeaderRoundTrip | io.py:219-221 | unpacking the bytes after the signature gives back exactly the ten counts packed at io.py:148 |
| TriFormat.LabelBytes | io.py:390-393 | a written label is a four-byte length field followed by exactly the text. `ImportSpec.ReadLabelOf` shows that the field reads back as the text's length |
| TriFormat.RecordsSnoc | io.py:163-166 | packing one more record appends exactly its packed bytes |
| ExportSpec.PartitionCount | io.py:46-57 | when every polygon is a triangle or a quad, the two groups together hold every polygon |
| ExportSpec.PartitionMembers | io.py:46-57 | each group holds exactly the polygons of its corner count |
| ExportSpec.TriangleRank | io.py:48-50 | each triangle keeps its relative order among the triangles |
| ExportSpec.QuadRank | io.py:51-52 | each quad keeps its relative order among the quads |
| ExportSpec.RegroupIdentity | io.py:46-57 | when no quad precedes a triangle, triangles followed by quads are the original polygon order |
| ExportSpec.VertexUVFold | io.py:61-84 | the per-vertex pass yields one entry per vertex, or fails with UVSeam |
| ExportSpec.VertexUVCorrect | io.py:66-79 | the pass succeeds exactly when no vertex has two loops with different UV bytes. Then every used vertex holds the UV of each of its loops, and only the unused vertices keep the placeholder |
| ExportSpec.VertexUVFoldStopsAtSeam | io.py:74-76 | once a seam is met the pass fails, however many loops follow |
| ExportSpec.FirstIndex | io.py:100-104 | the first position of a pattern: it holds the pattern and no earlier position does |
| ExportSpec.DedupCorrect | io.py:96-105 | the distinct-UV list holds each pattern of the layer once and nothing else |
| ExportSpec.DedupFirstOccurrenceOrder | io.py:98-105 | the distinct UVs appear in the order of their first occurrence in the layer |
| ExportSpec.UVIndexOf | io.py:100-104 | a loop's index into the distinct UVs names its own UV pattern |
| ExportSpec.UVIndices | io.py:92-105 | every loop's entry of `li` indexes, in the distinct UVs, exactly that loop's UV |
| ExportSpec.DiffIndices | io.py:128-132 | the vertex list of an absolute morph lists only vertices of the mesh |
| ExportSpec.DiffIndicesCorrect | io.py:128-132 | the list is strictly increasing and holds exactly the vertices where the shape differs from the reference |
| ExportSpec.ScanFoldStops | io.py:126 | once a key block with an empty name is met, the scan's error stands for the whole key list |
| ExportSpec.OthersSkipReference | io.py:122-124 | the scanned blocks are all key blocks except the reference key, in order |
| ExportSpec.ScanSucceeds | io.py:121-138 | the scan fails exactly when a non-reference key block has an empty name (`is_abs_morph` indexes its first character) |
| ExportSpec.ScanCorrect | io.py:116-142 | a successful scan splits the non-reference blocks into diff morphs and stat morphs by the marker, keeping their order. It lists for every stat morph the vertices that moved, and pools their targets morph by morph |
| ExportSpec.StarPartition | io.py:126-138 | stat and diff morphs are exactly the marked and the unmarked blocks, and together they are all of them |
| ExportSpec.PoolLayout | io.py:127-135 | the pool holds one target per listed vertex, and target i of stat morph j sits after all targets of earlier stat morphs |
| ExportSpec.LabelText | io.py:390-391 | the label text is the stored name (`get_shape_name`) followed by one terminating NUL byte |
| ExportSpec.DiffMorphOf | io.py:181-203 | a diff morph whose label length fits int32 satisfies every width the format imposes |
| ExportSpec.QuantizeAll | io.py:202-203 | every delta is quantised with the morph's common scale and fits an int16 triple |
| ExportSpec.WrittenFrom | io.py:145-203 | once the file is open, its contents are the whole image on success, the geometry alone when a vertex has no UV, and the geometry and UV section when a relative shape meets a mesh without vertices |
| ExportSpec.Written | io.py:32-212 | no file is opened exactly when a check before io.py:145 fails; a successful export leaves its image, and a count overflow leaves an empty file |
| ExportSpec.ExportFileFits | io.py:145-210 | every count, index, label length and delta of a file from a passing mesh fits the width `struct` packs it in |
| ExportSpec.ScanOfSpecified | io.py:116-142 | the scan of a mesh without shape keys is empty; otherwise it satisfies the scan's specification |
| Export.PartitionFaces | io.py:46-57 | succeeds exactly when every polygon is a triangle or a quad, and then returns the triangles and the quads in their order; it fails with NotTriOrQuad otherwise |
| Export.VertexUVs | io.py:61-84 | the imperative per-vertex pass returns what VertexUVFold specifies |
| Export.FaceUVDone | io.py:98-110 | the state the per-face loop ends in holds the distinct UVs and the index of every loop's UV |
| Export.FaceUVs | io.py:85-110 | the imperative per-face pass, with its `used_map` dictionary, returns the distinct UVs in first-occurrence order and every loop's index into them |
| Export.MovedVertices | io.py:128-132 | returns the vertices where the shape moved and appends exactly their targets to the pool |
| Export.ScanShapes | io.py:116-142 | the imperative scan returns what ScanFold specifies |
| Export.WriteMorphLabel | io.py:390-393 | appends the label's length and its text, NUL included |
| Export.WritePositions | io.py:150-160 | appends every position's twelve bytes, in order |
| Export.WriteFaces | io.py:162-166 | appends every face's corners as int32s |
| Export.WriteCornerUVs | io.py:173-178 | appends every face's per-corner UV indices as int32s |
| Export.WriteDeltas | io.py:202-203 | appends every quantised delta as three shorts |
| Export.WriteDiffMorph | io.py:181-203 | appends the label, the packed scale and the quantised deltas of one relative shape |
| Export.WriteDiffMorphs | io.py:180-203 | succeeds exactly when no relative shape meets `max([])` (a mesh without vertices), and then appends all diff morphs |
| Export.WriteEachDiffMorph | io.py:181-203 | on a mesh with vertices, appends every relative shape's diff morph in order, each fitting the widths the format packs |
| Export.WriteStatMorph | io.py:206-210 | appends the label, the count L and the L vertex indices |
| Export.WriteStatMorphs | io.py:205-210 | appends all stat morphs in order |
| Export.WriteUVs | io.py:170-178 | fails exactly when a vertex kept its placeholder (`bytes.join` raises); otherwise it appends the UV section of the chosen format |
| Export.WriteGeometry | io.py:147-166 | appends the header, the positions, the pool and the faces |
| Export.ExportLayout | io.py:145-210 | the bytes written section by section are the file image WriteResult specifies |
| Export.WrittenWithoutUV | io.py:170-173 | an unfolding used by the proof of WriteTri: when a vertex has no UV, WrittenFrom is the geometry bytes |
| Export.WrittenWithoutVertices | io.py:180-191 | an unfolding used by the proof of WriteTri: when a relative shape meets a mesh without vertices, WrittenFrom is the geometry and UV bytes written so far |
| Export.WriteMorphs | io.py:180-210 | after the UV section, the morphs complete what WriteResult specifies, and the file holds what WrittenFrom says, also when max([]) raises |
| Export.WriteTri | io.py:145-212 | writing from the header on gives what WriteResult specifies, and leaves what WrittenFrom says in the file, on the error paths too |
| Export.ExportTri | io.py:32-212 | the imperative `export_tri`, with its checks in their order, gives what Encode specifies, and leaves in the file what Written specifies |
| ImportSpec.PyIndex | io.py:276 | a Python subscript is valid exactly when -len <= i < len, and then it names the element i counts to |
| ImportSpec.ReadInt | io.py:340 | four bytes read as a signed little-endian integer, moving on four bytes |
| ImportSpec.ReadChunks | io.py:247-252 | the list comprehensions read n records of w bytes each, keep what was read before, or fail with Truncated |
| ImportSpec.ReadChunksSpan | io.py:247-252 | the reads succeed exactly when n * w bytes remain, and they end n * w bytes on |
| ImportSpec.ReadChunksOf | io.py:247-252 | records that are there read back unchanged |
| ImportSpec.ReadLabel | io.py:339-341 | fails with BadReadLength exactly when the length field is below -1; otherwise the cursor moves past the length field and the text |
| ImportSpec.ReadLabelOf | io.py:339-341 | a label written by `write_morph_label` reads back whole, in 4 + N bytes |
| ImportSpec.SkipVertexLabel | io.py:381-387 | moves past a four-byte index, the length S and S bytes, failing only on a seek before the file's start |
| ImportSpec.SkipSurfaceLabel | io.py:369-378 | moves past 16 bytes, the length S and S (or 2S for wide characters) bytes, failing only on a seek before the start |
| ImportSpec.SkipVertexLabels | io.py:256-258 | the label loop fails only with BadSeek |
| ImportSpec.SkipSurfaceLabels | io.py:260-262 | the label loop fails only with BadSeek |
| ImportSpec.LoopsOfFace | io.py:254 | the loops that `from_pydata` creates for polygon j are its corners, in order |
| ImportSpec.LoopStartMonotone | io.py:254 | loops of different polygons do not overlap |
| ImportSpec.FaceModeUVs | io.py:278-283 | the per-face loop keeps the layer's length and fails only with Truncated or IndexOutOfRange |
| ImportSpec.ReadUVLayer | io.py:265-283 | a layer exists exactly when `ext & 1`, with one UV per loop |
| ImportSpec.ReadDiffMorph | io.py:326-336 | reads one int16 triple per mesh vertex, or fails with Truncated or BadReadLength |
| ImportSpec.DiffMorphCursor | io.py:326-333 | a bad label length fails the diff morph with BadReadLength. Otherwise the morph keeps its label, spans the label, four scale bytes and six bytes per vertex, and fails exactly when those run out |
| ImportSpec.ReadDiffMorphs | io.py:289-290 | reads Md diff morphs, or fails with Truncated or BadReadLength |
| ImportSpec.StatTargets | io.py:353-359 | K_pos moves on by L and stays within the targets; it fails with IndexOutOfRange once the pool runs out |
| ImportSpec.StatTargetsOf | io.py:353-359 | listed vertices read in order take the next targets of the pool |
| ImportSpec.AssignIncreasing | io.py:355-358 | with distinct increasing indices each listed vertex gets its own target and the others keep their positions |
| ImportSpec.ReadStatMorph | io.py:344-361 | K_pos only grows and stays within the pool; errors are IndexOutOfRange and BadReadLength |
| ImportSpec.StatMorphCursor | io.py:344-361 | a bad label length fails the stat morph with BadReadLength. Otherwise it is named `*` + its label and moves K_pos on by exactly its count L, and a count past the pool fails |
| ImportSpec.ReadStatMorphs | io.py:293-295 | reads Ms stat morphs with a K_pos that stays within the pool, or fails with IndexOutOfRange or BadReadLength |
| ImportSpec.ReadGeometry | io.py:247-252 | reads V positions, K targets and T + Q faces, or fails with Truncated |
| ImportSpec.BadLabelAfterGeometry | io.py:256-295 | without labels or UVs, a first morph label whose length is below -1 fails the rest of the import with BadReadLength |
| ImportSpec.ReadRest | io.py:256-296 | keeps the geometry, reads Md diff morphs and Ms stat morphs, and never reports a bad signature |
| ImportSpec.Parse | io.py:215-296 | fails with NotTriFile exactly when the first eight bytes are not the signature; a success has read the full 64-byte header |
| ImportSpec.LabelsWarning | io.py:221-225 | the warning is given only for a file with a signature and a full header, and on success it is the flag the import reports |
| ImportSpec.WarningBeforeFailure | io.py:224-252 | a header announcing vertex labels but followed by no vertices gives the warning and still fails with Truncated |
| Import.ByteReader.Read | io.py:221 | for a length of -1 or more, which a buffered binary file accepts, reads what Chunk specifies and moves the offset past it |
| Import.ByteReader.ReadInt | io.py:340 | reads what ReadInt specifies |
| Import.ByteReader.Seek | io.py:371 | seeks as Seek specifies and stays put on failure |
| Import.ReadRecords | io.py:247-252 | the loop reads what ReadChunks specifies |
| Import.SkipVertexLabel | io.py:381-387 | skips what SkipVertexLabel specifies |
| Import.SkipSurfaceLabel | io.py:369-378 | skips what SkipSurfaceLabel specifies |
| Import.SkipVertexLabels | io.py:256-258 | the loop skips what SkipVertexLabels specifies |
| Import.SkipSurfaceLabels | io.py:260-262 | the loop skips what SkipSurfaceLabels specifies |
| Import.ReadMorphLabel | io.py:339-341 | reads what ReadLabel specifies, refusing a length below -1 before reading |
| Import.ReadDiffMorph | io.py:326-336 | the loop reads what ReadDiffMorph specifies |
| Import.ReadDiffMorphs | io.py:288-290 | the loop reads what ReadDiffMorphs specifies |
| Import.ReadStatMorph | io.py:344-361 | the loop over the listed vertices, on a copy of the basis, gives what ReadStatMorph specifies |
| Import.ReadStatMorphs | io.py:292-295 | the loop with its running K_pos gives what ReadStatMorphs specifies |
| Import.VertexUVs | io.py:274-276 | the per-vertex loop gives what VertexModeUVs specifies |
| Import.SetFaceUVs | io.py:364-366 | `set_face_uvs` updates the layer array in place, as FaceCornerUVs specifies |
| Import.FaceUVRange | io.py:280-283 | the per-face loop over polygons lo .. hi updates the array as FaceModeUVs specifies |
| Import.ReadUVLayer | io.py:265-283 | reads the UV section as ReadUVLayer specifies |
| Import.ReadGeometry | io.py:246-252 | reads the geometry as ReadGeometry specifies |
| Import.ImportTri | io.py:215-296 | the imperative `import_tri` gives what Parse specifies, and reports the labels warning exactly when LabelsWarning says, also when a later read fails |
| FileRoundTrip.LayerOf | io.py:265-283 | the restored layer exists exactly when the file has UVs, with one UV per loop |
| FileRoundTrip.PickUVs | io.py:276 | loop l takes the UV its index names |
| FileRoundTrip.ReadHeaderOf | io.py:219-221 | the image starts with the signature and its header decodes to the header written |
| FileRoundTrip.ReadGeometryOf | io.py:247-252 | the vertices, the pool and the faces read back as written |
| FileRoundTrip.ReadVertexLayerOf | io.py:272-276 | per-vertex UVs read back, and every loop takes its vertex's UV |
| FileRoundTrip.ReadFaceLayerOf | io.py:278-283 | per-face UVs and corner records read back, and every loop takes the UV its corner names |
| FileRoundTrip.ReadUVLayerOf | io.py:264-283 | the UV section reads back as the layer LayerOf describes, ending where the diff morphs start |
| FileRoundTrip.ReadDiffMorphOf | io.py:326-336 | a diff morph reads back as written |
| FileRoundTrip.ReadDiffsSectionOf | io.py:288-290 | all diff morphs read back as written, ending where the stat morphs start |
| FileRoundTrip.ReadStatMorphOf | io.py:344-361 | a stat morph reads back as its `*`-named shape, taking the next L targets of the pool |
| FileRoundTrip.ReadStatsSectionOf | io.py:292-296 | the stat morphs read back as their shapes and use up exactly the whole pool |
| FileRoundTrip.ReadRestOf | io.py:256-296 | after the face lists, the rest of the file reads back as the file holds it |
| FileRoundTrip.ParseLayout | io.py:215-296 | for every canonical file (see above: counts match, no labels, corners and indices in range, the pool used up), `import_tri` rebuilds exactly what the file holds |
| RoundTrip.EncodeExported | io.py:32-212 | a successful export writes the image of the file its checks and passes describe |
| RoundTrip.Regrouped | io.py:46-57 | the polygons regrouped as from_pydata receives them: every polygon once, triangles first |
| RoundTrip.FacesCanonical | io.py:162-166 | the written face records have 3 and 4 corners and refer to existing vertices |
| RoundTrip.UVSectionCanonical | io.py:170-178 | the written UV section agrees with the header: X = 0 per vertex, X = the pool size per face, and indices below X |
| RoundTrip.ExportCanonical | io.py:145-210 | every file `export_tri` writes has header counts that match its sections |
| RoundTrip.OtherKeys | io.py:121-124 | with shape keys, every block except the reference is exported |
| RoundTrip.VertexUVsRestored | io.py:272-276 | with per-vertex UVs, every corner of every face imports with the UV of its own loop |
| RoundTrip.FaceUVsRestored | io.py:278-283 | with per-face UVs, every corner of every face imports with the UV of its own loop |
| RoundTrip.StatShapeRestored | io.py:353-359 | an absolute shape imports with its own position where it moved and the basis position elsewhere |
| RoundTrip.StatRestored | io.py:293-295 | the j-th absolute shape imports as the j-th marked key block |
| RoundTrip.MorphsRestored | io.py:285-296 | the Basis key appears exactly when there are morphs; diff morphs come back as written and absolute shapes as restored |
| RoundTrip.ExportImport | io.py:32-296 | whenever export succeeds (and per-face UVs have loops), import succeeds and restores the mesh: vertices, faces triangles first, loop UVs, the Basis key, diff morphs and absolute shapes |
| RoundTrip.ExportImportInOrder | io.py:254 | when no quad precedes a triangle, the faces and their loop UVs come back in the mesh's own order |
| RoundTrip.ExportImportFromBasis | io.py:344-361 | when the reference key holds the basis positions, every absolute shape comes back with exactly its own positions |
| RoundTrip.MissingVertexUVs | io.py:272-274 | a file that sets the UV flag with X = 0 but holds no UVs after its one vertex fails to import with Truncated |
| RoundTrip.LoneVertexFile | io.py:85-110 | per-face export of a one-vertex mesh without loops writes the UV flag with X = 0 and no UV bytes |
| RoundTrip.FaceModeWithoutLoops | io.py:109-110 | that mesh exports successfully but its file does not import |
| RoundTrip.HeaderOfPrefix | io.py:219-221 | any bytes that start with a written header read back the signature and that header |
| RoundTrip.GeometryOfPrefix | io.py:247-252 | any bytes that start with a written header, positions, pool and faces read those sections back |
| RoundTrip.ReadPrefix | io.py:215-252 | such bytes are imported by reading the rest of the file after the face lists |
| RoundTrip.GeometryOfPartial | io.py:148-166 | bytes that start with what an export writes up to its face lists import by reading on after them |
| RoundTrip.EndsAfterFaces | io.py:170-173 | a file cut short after its face lists, with per-vertex UVs announced, fails to import with Truncated |
| RoundTrip.MeshNeedsVertices | io.py:46-57 | a mesh of triangles and quads with polygons has loops, and one with loops has vertices |
| RoundTrip.EndsBeforeDiffs | io.py:188-191 | a file cut short after its UV section, with diff morphs announced and no vertices, fails to import with Truncated |
| RoundTrip.BadLabelLengthRejected | io.py:215-295 | a file with an empty geometry, morphs announced and a first label length below -1 fails to import with BadReadLength |
| RoundTrip.MinusTwoLabelRejected | io.py:339-341 | the header with one stat morph followed by FE FF FF FF (a length of -2) fails to import with BadReadLength |
| RoundTrip.FailedExportRejected | io.py:145-296 | the partial file a failed export leaves is never imported: an empty file is not a TRI file, and the others are truncated |

## Left out

- Floating point: positions, UVs and packed scales are the bytes `struct` writes, not float values.
  - The axis conversion and the length scale (io.py:38-42, io.py:153-160) are not computed: the vertex bytes are taken as already converted.
  - The import-side transform (io.py:299-307) is left out likewise.
  - The per-vertex delta and the float32 packing of the scale are parameters (`ExportSpec.Floats`).
- `ExportSpec.Encode` / `ExportSpec.Written`: the ValueError and OverflowError that `round` raises at io.py:203 are not modelled, and neither is the partial file they leave (the header, the geometry, the UV section, and that morph's label and scale bytes). `round` raises them for a NaN or infinite delta component; a huge coordinate that overflows to inf in float32 makes the scale inf and the quotient NaN. `Floats.delta` is real-valued, so the model's deltas are always finite and `Encode` succeeds where the source raises.
- `ImportSpec.ReadDiffMorph`: a diff morph is kept as read (label, scale bytes, int16 deltas). The update `co += scale * d` (io.py:334-336) is float arithmetic and is not modelled. `Scale.QuantizationError` bounds it over the reals instead.
- The comparison of a shape's positions with the reference key's (io.py:130, `mathutils.Vector !=`) is a float comparison. The model replaces it by byte equality of the stored positions, which differs for -0.0 against 0.0 and for NaN. The UV comparisons at io.py:75 and io.py:100 already compare `struct.pack` bytes and are modelled exactly.
- Names are byte strings. UTF-8 `encode()`/`decode()` (io.py:341, io.py:391) is not modelled; `*` is the one-byte ASCII marker either way. This drops one import error: the UnicodeDecodeError that `decode()` raises at io.py:341 for a label that is not valid UTF-8.
- Blender's objects and operators: the world-transform warning, `op.report`, the creation, linking and selection of the object, and `uv_layers.new`/`shape_key_add` are left out. The "Labels were discarded" warning is kept as a flag, both on success and when a later read fails (`Import.ImportTri`).
- The Blender 2.79 branches (io.py:151-155, io.py:185-186, io.py:234-237, io.py:267-268) are left out. They compute the same values with the older operator.
- File I/O: the file is its byte string. Opening it empties it and the `with` block closes it on every path, so a failed export leaves the bytes written so far (`ExportSpec.Written`). A failing `open` or `write` is not modelled.
- `transfer.py`, `ui.py`, `ops_2_79.py` and `__init__.py` are not part of this model.
- `ImportSpec.ReadStatMorph`: the assertion `K_pos == len(morph_targets)` (io.py:296) becomes the PoolMismatch error.
- `RoundTrip.ExportImport`: it requires a mesh with at least one loop when the per-face format is chosen. A mesh without loops exports X = 0 with the UV flag set, which the importer reads as per-vertex UVs. `RoundTrip.FaceModeWithoutLoops` proves that this precondition is needed.
- `RoundTrip.MorphsRestored`: diff morphs are restored as the bytes written (label, scale, deltas), not as shape positions, because of the floating-point update above.

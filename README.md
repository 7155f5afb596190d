# Blender game-asset exporter: welder, bone table and writers

This project models the core of the exporter in `tools/blender/io_game/`. The
exporter turns a Blender mesh or armature into the game's asset files.

- **Header** (`write_asset_header`). Every file starts with an 8-byte format
  identifier, a `major.minor.patch` line and a `YYYY:MM:DD.HH:MM:SS` line.
- **Bone table** (`decompose_armature_data`). The deform bones in declaration
  order, numbered from 0, with a name-to-index map. It raises when a deform
  bone has more than 32767 deform children or there are more than 32767
  deform bones.
- **Welder** (`decompose_mesh_data`). Each polygon loop builds a key from the
  rounded UV, the rounded normal, the first four groups and the first three
  rounded weights. Each source vertex has its own dictionary. A loop reuses
  the output vertex of an earlier loop with the same vertex and key, and
  otherwise appends a new one. The welder raises when a vertex has groups
  but there is no armature.
- **Mesh writers** (`write_mesh_binary`, `write_mesh_text`). The header, then
  the counts, the vertex records and the triangles: packed little-endian
  (52 bytes per vertex, 12 per triangle), or as lines of text.
- **Skeleton writer** (`write_armature_text`). The header, the joint count,
  then eight lines per joint: name, tag, four rows of the bind transform
  relative to the parent, deform child count, child indices.
  `write_armature_binary` writes nothing.

Modules:

- `Wrappers`, `Seqs` and `Bytes`: `Option`/`Result`, sequence facts,
  little-endian integers, decimal numerals, lines.
- `Values`: opaque floats, and the float operations the exporter uses,
  passed in as a `FloatModel`.
- `ExportErrors`: the exceptions, as values.
- `AssetHeader`, `Armature`.
- `MeshWeld`: the welder as the source's loops.
- `WeldScan`: the welding fold proved equal to first-seen deduplication
  (`Dedup`).
- `WeldFacts`: what that means for a mesh.
- `MeshWriters`, `SkeletonWriter`.

Each writer is specified twice:

- as a function giving the file's bytes or the raised error (`MeshBinary`,
  `MeshText`, `SkeletonText`, `BuildBoneTable`, `WeldMesh`);
- as a method that follows the source's loops. Each method's `ensures` ties
  its outcome to that function.

Round-trip lemmas then show that a reader gets the written fields back.

`decompose_armature_data` returns the pair `(bones_dict, bones)`. Both callers
instead use its result as a map from a bone name to an entry whose `[1]` is
the bone's index. The corrected model takes the table as that name-to-index
map (`BoneTable.index`). "## Findings" records what each caller does with the
pair as written.

## Model

| member | source | states |
|---|---|---|
| MeshWeld.Rvec2 | tools/blender/io_game/export_mesh.py:19-20 | each of the two components is rounded to 6 places |
| MeshWeld.Rvec3 | tools/blender/io_game/export_mesh.py:16-17 | each of the three components is rounded to 6 places |
| MeshWeld.GroupsToTuple4 | tools/blender/io_game/export_mesh.py:22-31 | exactly 4 slots; slot i is the i-th group when there is one and -1 otherwise, so a fifth group is dropped |
| MeshWeld.WeightsToTuple3 | tools/blender/io_game/export_mesh.py:33-40 | exactly 3 slots; slot i is the i-th weight rounded when there is one and 0 otherwise, so a fourth weight is never stored |
| MeshWeld.GroupIds | tools/blender/io_game/export_mesh.py:82 | the group indices of a vertex's assignments, in order |
| MeshWeld.GroupWeights | tools/blender/io_game/export_mesh.py:83 | the weights of a vertex's assignments, in order |
| MeshWeld.ResolveBoneIds | tools/blender/io_game/export_mesh.py:89-92 | exactly 4 ids; id i is -1 when slot i is empty or its group names no table bone, and that bone's table index otherwise |
| MeshWeld.BoneIdsAsWritten | tools/blender/io_game/export_mesh.py:89-92 | as written, every one of the 4 ids is -1 |
| MeshWeld.AsWrittenDropsBoneIds | tools/blender/io_game/export_mesh.py:91 | a slot whose group names a table bone gets that bone's index once corrected, and -1 as written, so the two id tuples differ |
| MeshWeld.CornerAt | tools/blender/io_game/export_mesh.py:72-85 | a loop's key and record both carry the loop's own existing vertex; the record keeps that vertex's normal and the key's padded weights, with 4 group slots, 4 bone ids and 3 weights |
| MeshWeld.WeldStep | tools/blender/io_game/export_mesh.py:84-96 | one loop keeps the number of dictionaries and either leaves the output vertices alone or appends exactly its record; it leaves them alone exactly when its key is already in its vertex's dictionary |
| MeshWeld.InitialState | tools/blender/io_game/export_mesh.py:58-59 | one empty dictionary per source vertex and no output vertices |
| MeshWeld.GridRow | tools/blender/io_game/export_mesh.py:71-85 | one corner per loop of the polygon, in loop order, each the key and record that loop builds |
| MeshWeld.Grid | tools/blender/io_game/export_mesh.py:64 | one row of corners per polygon, in polygon order |
| MeshWeld.ScanRow | tools/blender/io_game/export_mesh.py:71-97 | after k loops the dictionaries keep their count, and the index list has k entries |
| MeshWeld.ScanGrid | tools/blender/io_game/export_mesh.py:64-97 | after n polygons the dictionaries keep their count, and there are n index lists |
| MeshWeld.ScanGridStep | tools/blender/io_game/export_mesh.py:64-97 | one more polygon is its row scanned from the state the earlier polygons left, with one more index list |
| MeshWeld.DecomposeMesh | tools/blender/io_game/export_mesh.py:42-99 | the outcome is exactly `WeldMesh`: the table builder's error, else the skinning error when any loop's vertex has groups and there is no armature, else the scanned vertices and index lists |
| MeshWeld.WeldPolygons | tools/blender/io_game/export_mesh.py:64-97 | the polygon loop gives the skinning error when some polygon is skinned and there is no armature, and the full scan of the grid otherwise |
| MeshWeld.WeldPolygon | tools/blender/io_game/export_mesh.py:65-97 | one turn of the polygon loop raises exactly when this polygon is skinned and there is no armature, and otherwise advances the scan by this polygon's row |
| MeshWeld.DecomposePolygon | tools/blender/io_game/export_mesh.py:70-97 | the loops of one polygon raise exactly when one of them is skinned and there is no armature, and otherwise produce the row's scan |
| MeshWeld.WeldLoop | tools/blender/io_game/export_mesh.py:72-97 | one loop raises exactly when its vertex has groups and there is no armature; otherwise it reuses the index its key has in its vertex's dictionary, or binds the key to the next index and appends the record |
| MeshWeld.SkinnedLoopsGrows | tools/blender/io_game/export_mesh.py:80-81 | once a skinned loop is among the first k loops, it is among every longer prefix |
| MeshWeld.SkinnedBeforeGrows | tools/blender/io_game/export_mesh.py:80-81 | once a skinned polygon is among the first n polygons, it is among every longer prefix |
| MeshWeld.WeldMesh | tools/blender/io_game/export_mesh.py:42-99 | a successful weld has one index list per polygon; a failure is the skinning error, which happens only without an armature, or one of the two bone-table errors |
| Dedup.FirstsCover | tools/blender/io_game/export_mesh.py:84-96 | the kept keys are distinct, every loop's key is among them, and there are no more kept entries than loops |
| Dedup.FirstsAreFirst | tools/blender/io_game/export_mesh.py:86-96 | each kept entry is the first loop that carries its key |
| Dedup.FirstsPrefix | tools/blender/io_game/export_mesh.py:93-96 | numbering is first-seen: the entries kept for a prefix never change later |
| Dedup.NewKeyGetsNextIndex | tools/blender/io_game/export_mesh.py:88-96 | a loop with an unseen key gets the number of entries kept so far |
| Dedup.FirstsStep | tools/blender/io_game/export_mesh.py:86-96 | one more loop is kept exactly when its key is new |
| Dedup.FirstsKeysStable | tools/blender/io_game/export_mesh.py:86 | a key already seen keeps its index however many loops follow |
| Dedup.FirstsNew | tools/blender/io_game/export_mesh.py:93-96 | a new key is appended and gets the next index |
| WeldScan.StepAgrees | tools/blender/io_game/export_mesh.py:84-97 | one welding step keeps the dictionaries and output vertices equal to first-seen deduplication of the loops so far |
| WeldScan.ScanRowAgrees | tools/blender/io_game/export_mesh.py:71-97 | welding a polygon keeps that agreement, and hands each loop its key's first-seen index |
| WeldScan.ScanGridAgrees | tools/blender/io_game/export_mesh.py:64-97 | welding the polygons keeps that agreement, and every index list gives each loop its key's first-seen index |
| WeldScan.WeldGrid | tools/blender/io_game/export_mesh.py:58-99 | welding every polygon from empty dictionaries yields the first-seen outcome |
| WeldScan.IndicesInRange | tools/blender/io_game/export_mesh.py:93-97 | every index names an output vertex |
| WeldScan.SameIndexIffSameKey | tools/blender/io_game/export_mesh.py:84-88 | two loops share an index exactly when their scoped keys are equal |
| WeldScan.VertexIsFirstRecord | tools/blender/io_game/export_mesh.py:93-95 | a loop's output vertex is the record of the first loop with its key |
| WeldScan.EveryVertexUsed | tools/blender/io_game/export_mesh.py:93-97 | every output vertex is the index and record of some loop |
| WeldScan.VertexFromOwnSource | tools/blender/io_game/export_mesh.py:95 | a loop's output vertex records the loop's own source vertex |
| WeldScan.FewerVerticesThanCorners | tools/blender/io_game/export_mesh.py:93-96 | there are no more output vertices than loops |
| WeldScan.NewKeyNextIndex | tools/blender/io_game/export_mesh.py:88-96 | a loop whose key no earlier loop has gets the number of distinct keys before it |
| WeldFacts.GridInRange | tools/blender/io_game/export_mesh.py:71-85 | every loop's key and record carry the loop's own existing vertex |
| WeldFacts.WeldMeshFirstSeen | tools/blender/io_game/export_mesh.py:42-99 | a successful weld is the first-seen outcome for the mesh's loops |
| WeldFacts.TrianglesIndexLoops | tools/blender/io_game/export_mesh.py:62-97 | one index list per polygon, one in-range index per loop in loop order, each its key's first-seen position |
| WeldFacts.SharedVertexIffSameKey | tools/blender/io_game/export_mesh.py:84-88 | two loops share an output vertex exactly when they reference the same vertex and build the same key |
| WeldFacts.NoMergeAcrossVertices | tools/blender/io_game/export_mesh.py:58 | loops of different source vertices never share an output vertex |
| WeldFacts.VertexOfFirstLoop | tools/blender/io_game/export_mesh.py:93-95 | a loop's output vertex is the record of the first loop with the same key |
| WeldFacts.VertexRecordsSource | tools/blender/io_game/export_mesh.py:95 | the output vertex records the source vertex of every loop that uses it |
| WeldFacts.EveryVertexHasALoop | tools/blender/io_game/export_mesh.py:93-97 | every output vertex is used by some loop and is that loop's record |
| WeldFacts.VertexCountAtMostLoops | tools/blender/io_game/export_mesh.py:93-96 | there are no more output vertices than polygon loops |
| WeldFacts.NewKeyGetsNextVertex | tools/blender/io_game/export_mesh.py:88-96 | a loop with a key no earlier loop has gets the number of distinct earlier keys, so indices run densely 0, 1, 2, … |
| WeldFacts.CornerBoneIds | tools/blender/io_game/export_mesh.py:89-92 | a loop's record has 4 bone ids; slot s is the table index of the bone named like the vertex's s-th group when that group index is not -1 and the table has that name, and -1 otherwise |
| WeldFacts.CornerBoneNames | tools/blender/io_game/export_mesh.py:91-92 | every bone id other than -1 is the table position of the bone whose name is the slot's group name |
| WeldFacts.VertexBoneIds | tools/blender/io_game/export_mesh.py:89-95 | every output vertex has 4 bone ids: slot s is the table index of the bone named like its source vertex's s-th group when that group index is not -1 and the table has that name, and -1 otherwise; every other id names such a bone |
| WeldFacts.SkinnedLoopsExists | tools/blender/io_game/export_mesh.py:78-81 | a polygon is skinned exactly when some loop's vertex has groups |
| WeldFacts.SkinnedBeforeExists | tools/blender/io_game/export_mesh.py:78-81 | the first n polygons are skinned exactly when some loop among them has a vertex with groups |
| WeldFacts.WeldMeshErrors | tools/blender/io_game/export_mesh.py:46-81 | with an armature the welder fails exactly when the table builder does, with its error; without one it fails exactly when some loop's vertex has groups |
| Armature.CountDeformChildren | tools/blender/io_game/common.py:46-49 | the count is the number of children with the deform flag |
| Armature.BuildBoneTable | tools/blender/io_game/common.py:41-57 | a built table holds at most 32767 bones; the only errors are the deform-children limit and the deform-bone limit |
| Armature.DecomposeArmature | tools/blender/io_game/common.py:41-57 | the outcome is exactly `BuildBoneTable`: the first overfull deform bone's error, else the bone-count error, else the deform bones and their name map |
| Armature.FirstOverfullSpec | tools/blender/io_game/common.py:44-51 | None exactly when no bone is overfull; otherwise the first overfull bone |
| Armature.FirstOverfullStable | tools/blender/io_game/common.py:50-51 | the first raise stays the first however many bones follow |
| Armature.DeformBonesInOrder | tools/blender/io_game/common.py:44-53 | the table keeps exactly the deform bones, at increasing positions, in declaration order |
| Armature.DeformBonesAreDeform | tools/blender/io_game/common.py:45-53 | every table entry is a deform bone of the armature |
| Armature.NameIndexSpec | tools/blender/io_game/common.py:52 | the map's keys are exactly the table's names, and each maps to an entry with that name |
| Armature.NameIndexUnique | tools/blender/io_game/common.py:52-53 | with unique names, every entry's name maps to its own index, and the map and the table have the same size |
| Armature.BoneTableOutcome | tools/blender/io_game/common.py:44-57 | success exactly when no deform bone has more than 32767 deform children and there are at most 32767 deform bones; a success holds exactly the deform bones |
| Armature.TooManyChildrenNamesFirst | tools/blender/io_game/common.py:50-51 | a child-limit error names the first overfull deform bone and carries its count |
| Armature.TooManyBonesRaises | tools/blender/io_game/common.py:54-55 | too many deform bones within the child limit always raise the bone-count error with the count |
| AssetHeader.WriteAssetHeader | tools/blender/io_game/common.py:1-9 | the bytes written are the identifier, the version line, then the timestamp line |
| AssetHeader.Header | tools/blender/io_game/common.py:1-9 | the header starts with the format identifier and ends with a newline |
| AssetHeader.VersionRoundTrip | tools/blender/io_game/common.py:6 | the version line reads back as the version |
| AssetHeader.VersionNewlineFree | tools/blender/io_game/common.py:6 | the version text holds no newline |
| AssetHeader.TimestampRoundTrip | tools/blender/io_game/common.py:7-8 | the timestamp is 19 bytes with separators at fixed places and reads back as the time |
| AssetHeader.TimestampFieldsAt | tools/blender/io_game/common.py:8 | where each field of the timestamp layout sits |
| AssetHeader.ParseVersionOf | tools/blender/io_game/common.py:6 | the three dot-separated fields read back in order |
| AssetHeader.HeaderLayout | tools/blender/io_game/common.py:4-9 | where the identifier, the version line and the timestamp line sit |
| AssetHeader.HeaderRoundTrip | tools/blender/io_game/common.py:4-9 | a reader recovers the identifier, version, time and payload from any header with an 8-byte identifier |
| AssetHeader.FormatIdsDistinct | tools/blender/io_game/export_mesh.py:107 | `MESH_BIN`, `MESH_TXT` and `SKEL_TXT` are distinct, 8 bytes long and newline-terminated |
| Bytes.U32RoundTrip | tools/blender/io_game/export_mesh.py:108 | `<I` packs 4 bytes that read back as the count |
| Bytes.I16RoundTrip | tools/blender/io_game/export_mesh.py:113 | `<h` packs 2 bytes that read back as the signed value |
| Bytes.DecimalRoundTrip | tools/blender/io_game/export_mesh.py:124 | `%u` reads back as the number |
| Bytes.SignedDecimalRoundTrip | tools/blender/io_game/export_mesh.py:131 | `%i` reads back as the number, and holds neither a space nor a newline |
| Bytes.FieldsOfSpaced | tools/blender/io_game/export_mesh.py:131-134 | splitting space-joined fields that hold no space gives the fields back |
| Bytes.PaddedRoundTrip | tools/blender/io_game/common.py:8 | a zero-padded field has the width and reads back as the number |
| Bytes.SplitJoinLines | tools/blender/io_game/export_mesh.py:124-134 | splitting newline-free written lines at newlines gives them back |
| MeshWriters.WeldedWritable | tools/blender/io_game/export_mesh.py:104-117 | a successful weld is always encodable: records have 4 bone ids in the i16 range and 3 weights, and every index names a record |
| MeshWriters.TrianglesIffPolygons | tools/blender/io_game/export_mesh.py:116-117 | every index list is a triangle exactly when every polygon has 3 loops |
| MeshWriters.FloatsRoundTrip | tools/blender/io_game/export_mesh.py:110-114 | packed float fields read back in order |
| MeshWriters.ShortsRoundTrip | tools/blender/io_game/export_mesh.py:113 | the 4 packed bone ids read back in order |
| MeshWriters.U32sRoundTrip | tools/blender/io_game/export_mesh.py:117 | the 3 packed indices read back in order |
| MeshWriters.Pack | tools/blender/io_game/export_mesh.py:109-114 | a record packs its source vertex's position, then UV, normal, bone ids and weights |
| MeshWriters.VertexBytes | tools/blender/io_game/export_mesh.py:110-114 | one vertex record is 52 bytes |
| MeshWriters.VertexRoundTrip | tools/blender/io_game/export_mesh.py:110-114 | one record reads back field by field |
| MeshWriters.VerticesRoundTrip | tools/blender/io_game/export_mesh.py:109-114 | the records read back in output order |
| MeshWriters.TrianglesRoundTrip | tools/blender/io_game/export_mesh.py:116-117 | the triangles read back in order |
| MeshWriters.RecordsRoundTrip | tools/blender/io_game/export_mesh.py:108-117 | count-prefixed records are 8 + 52·V + 12·T bytes and read back exactly |
| MeshWriters.BinaryRoundTrip | tools/blender/io_game/export_mesh.py:108-117 | the binary payload is 8 + 52·V + 12·T bytes and a reader gets the packed records and the triangles back |
| MeshWriters.MeshBinaryFile | tools/blender/io_game/export_mesh.py:101-117 | the binary file is the `MESH_BIN` header, then the payload; both read back |
| MeshWriters.BinaryErrors | tools/blender/io_game/export_mesh.py:104-117 | the welder's error first; then a count beyond 32 bits; then a polygon that is not a triangle; and no other failure |
| MeshWriters.MeshBinary | tools/blender/io_game/export_mesh.py:101-117 | a written binary file comes from a successful weld and starts with `MESH_BIN` |
| MeshWriters.TrianglesLinesAt | tools/blender/io_game/export_mesh.py:133-134 | line t of the triangle section is triangle t |
| MeshWriters.SignedTextsRoundTrip | tools/blender/io_game/export_mesh.py:131 | a sequence of `%i` fields reads back as the numbers |
| MeshWriters.DecimalTextsRoundTrip | tools/blender/io_game/export_mesh.py:134 | a sequence of `%u` fields reads back as the numbers |
| MeshWriters.IdsRoundTrip | tools/blender/io_game/export_mesh.py:131 | the `%i %i %i %i` line reads back as the four bone ids |
| MeshWriters.TriangleRoundTrip | tools/blender/io_game/export_mesh.py:134 | a `t %u %u %u` line reads back as its three indices |
| MeshWriters.TextCounts | tools/blender/io_game/export_mesh.py:124-134 | 2 + 6·V + T lines, starting with `vertex_count V` and `triangle_count T` |
| MeshWriters.TextVertexLines | tools/blender/io_game/export_mesh.py:126-132 | vertex v is lines 2 + 6·v to 7 + 6·v: tag, position, UV, normal, bone ids, weights |
| MeshWriters.TextTriangleLines | tools/blender/io_game/export_mesh.py:133-134 | triangle t is the t-th line after the vertex records |
| MeshWriters.LinesNewlineFree | tools/blender/io_game/export_mesh.py:124-134 | no written line holds a newline |
| MeshWriters.TextRoundTrip | tools/blender/io_game/export_mesh.py:124-134 | splitting the text at newlines gives back its lines; both counts, every record's bone ids and every triangle parse back |
| MeshWriters.TextErrors | tools/blender/io_game/export_mesh.py:120-134 | the welder's error first; otherwise failure exactly when a polygon is not a triangle |
| MeshWriters.MeshText | tools/blender/io_game/export_mesh.py:119-134 | a written text file comes from a successful weld and starts with `MESH_TXT` |
| MeshWriters.WriteVertexRecords | tools/blender/io_game/export_mesh.py:109-114 | the bytes are the packed records in output order |
| MeshWriters.WriteTriangleRecords | tools/blender/io_game/export_mesh.py:116-117 | the packed triangles, or the error for an index list that is not a triangle |
| MeshWriters.WriteMeshBinary | tools/blender/io_game/export_mesh.py:101-117 | the outcome is exactly `MeshBinary` |
| MeshWriters.WriteVertexLines | tools/blender/io_game/export_mesh.py:126-132 | six lines per record, in output order |
| MeshWriters.WriteTriangleLines | tools/blender/io_game/export_mesh.py:133-134 | one `t` line per triangle, or the error for an index list that is not a triangle |
| MeshWriters.WriteMeshText | tools/blender/io_game/export_mesh.py:119-134 | the outcome is exactly `MeshText` |
| SkeletonWriter.ArmatureBinary | tools/blender/io_game/export_armature.py:16-17 | the binary skeleton writer produces no file |
| SkeletonWriter.LocalBind | tools/blender/io_game/export_armature.py:29-32 | the parent's inverted local matrix composed with the bone's own, or the bone's own for a root |
| SkeletonWriter.TableIsWritable | tools/blender/io_game/export_armature.py:42-44 | every deform bone has a map entry, so no child lookup misses |
| SkeletonWriter.ChildIndicesSpec | tools/blender/io_game/export_armature.py:37-44 | the `child_count` equals the number of indices that follow, and each index is that deform child's map entry |
| SkeletonWriter.DeformChildrenMembers | tools/blender/io_game/export_armature.py:42-43 | the listed children are exactly the children with the deform flag |
| SkeletonWriter.ChildIndicesPointAtChildren | tools/blender/io_game/export_armature.py:42-44 | with unique names, each written index points at that very child in the table |
| SkeletonWriter.EntryOfName | tools/blender/io_game/export_armature.py:44 | with unique names, a deform bone's name maps to its own entry |
| SkeletonWriter.SpacedDecimalsRoundTrip | tools/blender/io_game/export_armature.py:42-45 | the child-index line reads back as the indices |
| SkeletonWriter.SpacedDecimalsNewlineFree | tools/blender/io_game/export_armature.py:44 | the child-index line holds no newline |
| SkeletonWriter.SpacedDecimalsSnoc | tools/blender/io_game/export_armature.py:44 | each index appends its numeral and a space |
| SkeletonWriter.SkeletonLayout | tools/blender/io_game/export_armature.py:24-45 | 1 + 8·N lines: the joint count, then joint k at lines 1 + 8·k to 8 + 8·k |
| SkeletonWriter.JointLinesNewlineFree | tools/blender/io_game/export_armature.py:27-45 | no line of a joint holds a newline, given a newline-free name |
| SkeletonWriter.SkeletonLinesNewlineFree | tools/blender/io_game/export_armature.py:24-45 | no line of the file holds a newline |
| SkeletonWriter.JointRoundTrip | tools/blender/io_game/export_armature.py:27-45 | a joint reads back as its name, the tag, its child count and exactly that many child indices |
| SkeletonWriter.JointNameRoundTrip | tools/blender/io_game/export_armature.py:27-28 | the name follows `joint `, then the tag line |
| SkeletonWriter.JointChildrenRoundTrip | tools/blender/io_game/export_armature.py:37-45 | the count follows `child_count `, and the last line parses as exactly that many indices |
| SkeletonWriter.SkeletonRoundTrip | tools/blender/io_game/export_armature.py:24-45 | splitting at newlines gives back the lines, and the first parses as the number of joints |
| SkeletonWriter.SkeletonFile | tools/blender/io_game/export_armature.py:20-45 | the file is the `SKEL_TXT` header followed by the lines |
| SkeletonWriter.SkeletonErrors | tools/blender/io_game/export_armature.py:20 | failure exactly when a deform bone has more than 32767 deform children or there are more than 32767 deform bones, with the builder's error |
| SkeletonWriter.SkeletonText | tools/blender/io_game/export_armature.py:19-45 | a written skeleton file starts with `SKEL_TXT`; the only errors are the two bone-table limits |
| SkeletonWriter.JointLines | tools/blender/io_game/export_armature.py:27-45 | each joint is written as exactly eight lines |
| SkeletonWriter.SkeletonTextAsWritten | tools/blender/io_game/export_armature.py:19-25 | as written, the writer always raises; it leaves no file exactly when the table fails before `open`, and otherwise a file starting with `SKEL_TXT` |
| SkeletonWriter.AsWrittenNeverFinishes | tools/blender/io_game/export_armature.py:20-25 | as written, the writer always raises; with a buildable table it leaves a header and `joint_count 2`, which is never the corrected file |
| SkeletonWriter.CountLineDiffers | tools/blender/io_game/export_armature.py:24 | the corrected lines are never the bytes of a lone `joint_count 2` line |
| SkeletonWriter.WriteChildIndices | tools/blender/io_game/export_armature.py:42-44 | the numerals of the deform children's table indices, each followed by a space |
| SkeletonWriter.WriteJoint | tools/blender/io_game/export_armature.py:26-45 | exactly the eight lines of the joint |
| SkeletonWriter.JointLinesInOrder | tools/blender/io_game/export_armature.py:27-45 | the joint's lines in the order they are written |
| SkeletonWriter.WriteLine | tools/blender/io_game/export_armature.py:27 | one write appends a line and its newline |
| SkeletonWriter.WriteJoints | tools/blender/io_game/export_armature.py:25-45 | one joint record per table entry, in table order |
| SkeletonWriter.WriteArmatureText | tools/blender/io_game/export_armature.py:19-45 | the outcome is exactly `SkeletonText` |

## Left out

- Blender glue: `save_mesh`, `save_armature`, the operator classes and
  menus. They are framework code. So are the transforms, normal
  computation and triangulation done before the writers run.
- Files and the clock. A file is modelled as the byte sequence written to
  it. The time `datetime.now()` gives is a `DateTime` parameter.
- Partial files. When a writer raises part-way, Python leaves the bytes
  already written in the file. The corrected writers return the error and
  no bytes. Only `SkeletonWriter.SkeletonTextAsWritten` models the leftover
  bytes. It also tells "no file" (the raise comes before `open`) from a
  file with content.
- `print` calls, including the warning for a vertex with more than 4 groups.
  They are I/O and change no output.
- Floating point. Floats are opaque 64-bit values compared by their bits.
  `round(x, 6)`, `struct.pack("<f")`, `"%.6f"`, matrix inversion and
  product come from the caller's `FloatModel` and are not computed. The
  integer 0 that pads weights is `Values.Zero`.
- `MeshWeld.WeldStep`: the welder's key lookup compares the rounded floats
  by their bits. Python's dict compares them with `==`, and the two give
  different welds in two cases:
  - Signed zero. Loops of one vertex whose UV or normal components round
    to -0.0 and 0.0 share one output vertex in the source, because Python
    treats the two zeros as equal keys. The model gives them two.
  - NaN. A NaN key never matches in the source, so every such loop gets its
    own output vertex. The model merges NaN keys whose bits are equal.
- Blender's mesh invariants are preconditions (`MeshWeld.ValidMesh`), not
  error paths. These are: loops reference existing vertices, the UV layer
  has an entry per loop, group assignments reference existing groups, and
  bone references are in range.
- `AssetHeader.TimestampRoundTrip`: `ValidDateTime` assumes a four-digit
  year. `strftime` would print other years with another width.
- `SkeletonWriter.SkeletonRoundTrip`: bone names must hold no newline for
  the lines to split back.
- `SkeletonWriter.WriteJoints`: the corrected writer walks `BoneTable.bones`.
  Under Blender's unique bone names this is the insertion order of the
  name map.
- `MeshWeld.WeldLoop`: the source reads UVs into `poly_uvs` first and then
  takes loop `j`'s entry. The model reads the layer entry directly, which
  is equivalent.
- Within the writers, each line or record is built before it is appended,
  rather than with one `file.write` call per field.

## Findings

| source | as written | input that shows it | evidently intended | confidence | as-written member | corrected member |
|---|---|---|---|---|---|---|
| tools/blender/io_game/export_armature.py:20-25 | `bones` is the pair `(bones_dict, bones)` that `decompose_armature_data` returns. `len (bones)` is 2, and `bones.items ()` raises `AttributeError`. | any armature whose table builds, such as one deform bone with no children: the file holds the header and `joint_count 2`, then the writer raises | walk the table: write the number of deform bones, then one joint record per entry | not executed | SkeletonWriter.AsWrittenNeverFinishes | SkeletonWriter.WriteArmatureText |
| tools/blender/io_game/export_mesh.py:91 | `name in bone_dict` is asked of the same pair. A name is never one of its two elements, so every bone id stays -1. | a vertex whose first group is named like a deform bone: slot 0 is -1 instead of that bone's index | look up the group's name in the name map and record the bone's table index | not executed | MeshWeld.AsWrittenDropsBoneIds | MeshWeld.ResolveBoneIds |

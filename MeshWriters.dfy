/**
 * The two mesh writers (`write_mesh_binary`, `write_mesh_text`): the asset
 * header, then the welded vertices and triangles, either packed
 * little-endian or as lines of text. A vertex's position is looked up in
 * the mesh, through the source-vertex index its record carries, at
 * encoding time.
 */
module MeshWriters {
  import opened Wrappers
  import opened Seqs
  import opened Bytes
  import opened Values
  import opened AssetHeader
  import opened ExportErrors
  import opened Armature
  import opened MeshWeld
  import opened WeldFacts

  // ---------------------------------------------------------------------
  // What the writers can encode
  // ---------------------------------------------------------------------

  /** A record whose source vertex exists, with four 16-bit bone ids and three weights. */
  predicate RecordWritable(mesh: Mesh, v: OutVertex) {
    v.src < |mesh.vertices| && |v.boneIds| == 4 && |v.weights| == 3 &&
    forall s :: 0 <= s < 4 ==> -1 <= v.boneIds[s] < MAX_DEFORM_BONES
  }

  /** Every record writable and every triangle index naming a record. */
  predicate Writable(mesh: Mesh, w: Welded) {
    (forall v :: 0 <= v < |w.verts| ==> RecordWritable(mesh, w.verts[v])) &&
    (forall t, k :: 0 <= t < |w.tris| && 0 <= k < |w.tris[t]| ==> w.tris[t][k] < |w.verts|)
  }

  predicate AllTriangles(tris: seq<seq<nat>>) {
    forall t :: 0 <= t < |tris| ==> |tris[t]| == 3
  }

  predicate IndicesFit(tris: seq<seq<nat>>) {
    forall t, k :: 0 <= t < |tris| && 0 <= k < |tris[t]| ==> tris[t][k] < U32_LIMIT
  }

  /** The welder's successful output is always writable. */
  lemma WeldedWritable(obj: MeshObject, mesh: Mesh, ops: FloatModel)
    requires ValidMesh(obj, mesh) && WeldMesh(obj, mesh, ops).Ok?
    ensures Writable(mesh, WeldMesh(obj, mesh, ops).value)
  {
    var w := WeldMesh(obj, mesh, ops).value;
    TrianglesIndexLoops(obj, mesh, ops);
    if obj.armature.Some? {
      BoneTableOutcome(obj.armature.value);
    }
    forall v | 0 <= v < |w.verts| ensures RecordWritable(mesh, w.verts[v]) {
      VertexBoneIds(obj, mesh, ops, v);
      EveryVertexHasALoop(obj, mesh, ops, v);
    }
  }

  /** The welder's index lists are all triangles exactly when every polygon is one. */
  lemma TrianglesIffPolygons(obj: MeshObject, mesh: Mesh, ops: FloatModel)
    requires ValidMesh(obj, mesh) && WeldMesh(obj, mesh, ops).Ok?
    ensures |WeldMesh(obj, mesh, ops).value.tris| == |mesh.polygons|
    ensures AllTriangles(WeldMesh(obj, mesh, ops).value.tris) <==>
              forall p :: 0 <= p < |mesh.polygons| ==> |mesh.polygons[p].vertices| == 3
  {
    TrianglesIndexLoops(obj, mesh, ops);
  }

  // ---------------------------------------------------------------------
  // Packed fields
  // ---------------------------------------------------------------------

  /** The `struct.pack ("<f")` images of a tuple of floats. */
  function PackFloats(xs: seq<Float>, ops: FloatModel): (r: seq<F32>)
    ensures |r| == |xs| && forall i :: 0 <= i < |xs| ==> r[i] == ops.pack32(xs[i])
  {
    seq(|xs|, i requires 0 <= i < |xs| => ops.pack32(xs[i]))
  }

  /** `"<nf"`: packed floats back to back. */
  function FloatBytes(fs: seq<F32>): (r: seq<byte>)
    ensures |r| == 4 * |fs|
  {
    if fs == [] then [] else F32Bytes(fs[0]) + FloatBytes(fs[1..])
  }

  function DecodeFloats(b: seq<byte>, n: nat): (r: seq<F32>)
    requires |b| >= 4 * n
    ensures |r| == n
  {
    if n == 0 then [] else [DecodeF32(b)] + DecodeFloats(b[4..], n - 1)
  }

  lemma {:induction false} FloatsRoundTrip(fs: seq<F32>, rest: seq<byte>)
    ensures DecodeFloats(FloatBytes(fs) + rest, |fs|) == fs
  {
    if fs != [] {
      var tail := FloatBytes(fs[1..]) + rest;
      AppendAssoc(F32Bytes(fs[0]), FloatBytes(fs[1..]), rest);
      F32RoundTrip(fs[0], tail);
      DropPrefix(F32Bytes(fs[0]), tail);
      FloatsRoundTrip(fs[1..], rest);
    }
  }

  predicate ShortsFit(vs: seq<int>) {
    forall i :: 0 <= i < |vs| ==> -32768 <= vs[i] < 32768
  }

  /** `"<nh"`: signed 16-bit values back to back. */
  function ShortBytes(vs: seq<int>): (r: seq<byte>)
    requires ShortsFit(vs)
    ensures |r| == 2 * |vs|
  {
    if vs == [] then [] else I16(vs[0]) + ShortBytes(vs[1..])
  }

  function DecodeShorts(b: seq<byte>, n: nat): (r: seq<int>)
    requires |b| >= 2 * n
    ensures |r| == n
  {
    if n == 0 then [] else [DecodeI16(b)] + DecodeShorts(b[2..], n - 1)
  }

  lemma {:induction false} ShortsRoundTrip(vs: seq<int>, rest: seq<byte>)
    requires ShortsFit(vs)
    ensures DecodeShorts(ShortBytes(vs) + rest, |vs|) == vs
  {
    if vs != [] {
      var tail := ShortBytes(vs[1..]) + rest;
      AppendAssoc(I16(vs[0]), ShortBytes(vs[1..]), rest);
      I16RoundTrip(vs[0], tail);
      DropPrefix(I16(vs[0]), tail);
      ShortsRoundTrip(vs[1..], rest);
    }
  }

  predicate U32sFit(ns: seq<nat>) {
    forall i :: 0 <= i < |ns| ==> ns[i] < U32_LIMIT
  }

  /** `"<nI"`: unsigned 32-bit values back to back. */
  function U32s(ns: seq<nat>): (r: seq<byte>)
    requires U32sFit(ns)
    ensures |r| == 4 * |ns|
  {
    if ns == [] then [] else U32(ns[0]) + U32s(ns[1..])
  }

  function DecodeU32s(b: seq<byte>, n: nat): (r: seq<nat>)
    requires |b| >= 4 * n
    ensures |r| == n
  {
    if n == 0 then [] else [DecodeU32(b)] + DecodeU32s(b[4..], n - 1)
  }

  lemma {:induction false} U32sRoundTrip(ns: seq<nat>, rest: seq<byte>)
    requires U32sFit(ns)
    ensures DecodeU32s(U32s(ns) + rest, |ns|) == ns
  {
    if ns != [] {
      var tail := U32s(ns[1..]) + rest;
      AppendAssoc(U32(ns[0]), U32s(ns[1..]), rest);
      U32RoundTrip(ns[0], tail);
      DropPrefix(U32(ns[0]), tail);
      U32sRoundTrip(ns[1..], rest);
    }
  }

  // ---------------------------------------------------------------------
  // The binary payload
  // ---------------------------------------------------------------------

  /** The fields of one binary vertex record, after packing. */
  datatype PackedVertex = PackedVertex(co: seq<F32>, uv: seq<F32>, normal: seq<F32>, boneIds: seq<int>, weights: seq<F32>)

  predicate PackedShape(pv: PackedVertex) {
    |pv.co| == 3 && |pv.uv| == 2 && |pv.normal| == 3 && |pv.boneIds| == 4 && |pv.weights| == 3 &&
    ShortsFit(pv.boneIds)
  }

  /** What a record packs: its source vertex's position, then UV, normal, bone ids and weights. */
  function Pack(mesh: Mesh, v: OutVertex, ops: FloatModel): (pv: PackedVertex)
    requires RecordWritable(mesh, v)
    ensures PackedShape(pv)
    ensures pv.co == PackFloats(Vec3Fields(mesh.vertices[v.src].co), ops) && pv.boneIds == v.boneIds
  {
    PackedVertex(PackFloats(Vec3Fields(mesh.vertices[v.src].co), ops), PackFloats(Vec2Fields(v.uv), ops),
                 PackFloats(Vec3Fields(v.normal), ops), v.boneIds, PackFloats(v.weights, ops))
  }

  function PackAll(mesh: Mesh, vs: seq<OutVertex>, ops: FloatModel): (r: seq<PackedVertex>)
    requires forall v :: 0 <= v < |vs| ==> RecordWritable(mesh, vs[v])
    ensures |r| == |vs| && forall v :: 0 <= v < |vs| ==> r[v] == Pack(mesh, vs[v], ops)
  {
    seq(|vs|, v requires 0 <= v < |vs| && RecordWritable(mesh, vs[v]) => Pack(mesh, vs[v], ops))
  }

  const VERTEX_SIZE: nat := 52
  const TRIANGLE_SIZE: nat := 12

  /** `"<3f"`, `"<2f"`, `"<3f"`, `"<4h"`, `"<3f"`: 52 bytes. */
  function VertexBytes(pv: PackedVertex): (r: seq<byte>)
    requires PackedShape(pv)
    ensures |r| == VERTEX_SIZE
  {
    FloatBytes(pv.co) + (FloatBytes(pv.uv) + (FloatBytes(pv.normal) + (ShortBytes(pv.boneIds) + FloatBytes(pv.weights))))
  }

  predicate AllPacked(pvs: seq<PackedVertex>) {
    forall i :: 0 <= i < |pvs| ==> PackedShape(pvs[i])
  }

  function VerticesBytes(pvs: seq<PackedVertex>): (r: seq<byte>)
    requires AllPacked(pvs)
    ensures |r| == VERTEX_SIZE * |pvs|
  {
    if pvs == [] then [] else VertexBytes(pvs[0]) + VerticesBytes(pvs[1..])
  }

  function TrianglesBytes(tris: seq<seq<nat>>): (r: seq<byte>)
    requires AllTriangles(tris) && IndicesFit(tris)
    ensures |r| == TRIANGLE_SIZE * |tris|
  {
    if tris == [] then []
    else
      assert U32sFit(tris[0]) by { assert forall k :: 0 <= k < 3 ==> tris[0][k] < U32_LIMIT; }
      U32s(tris[0]) + TrianglesBytes(tris[1..])
  }

  /**
   * The bytes after the header: the vertex count, the vertex records, the
   * triangle count, the triangles. A count that does not fit 32 bits, or an
   * index list that is not a triangle, makes `struct.pack` raise.
   */
  function BinaryPayload(mesh: Mesh, w: Welded, ops: FloatModel): Result<seq<byte>, ExportError>
    requires Writable(mesh, w)
  {
    if |w.verts| >= U32_LIMIT || |w.tris| >= U32_LIMIT then Err(CountOutOfRange)
    else if !AllTriangles(w.tris) then Err(NotATriangle)
    else
      assert IndicesFit(w.tris);
      Ok(U32(|w.verts|) + (VerticesBytes(PackAll(mesh, w.verts, ops)) + (U32(|w.tris|) + TrianglesBytes(w.tris))))
  }

  /** What `write_mesh_binary` writes, or the exception it raises. */
  function MeshBinary(obj: MeshObject, mesh: Mesh, version: Version, now: DateTime, ops: FloatModel)
    : (r: Result<seq<byte>, ExportError>)
    requires ValidMesh(obj, mesh) && ValidDateTime(now)
    ensures r.Ok? ==> WeldMesh(obj, mesh, ops).Ok? && |r.value| > 8 && r.value[..8] == MESH_BIN
  {
    var welded := WeldMesh(obj, mesh, ops);
    if welded.Err? then Err(welded.error)
    else
      assert Writable(mesh, welded.value) by { WeldedWritable(obj, mesh, ops); }
      var payload := BinaryPayload(mesh, welded.value, ops);
      if payload.Err? then Err(payload.error) else Ok(Header(MESH_BIN, version, now) + payload.value)
  }

  // ---------------------------------------------------------------------
  // Reading the binary payload back
  // ---------------------------------------------------------------------

  datatype MeshRecords = MeshRecords(verts: seq<PackedVertex>, tris: seq<seq<nat>>)

  /** Reads one record field by field. */
  function DecodeVertex(b: seq<byte>): PackedVertex
    requires |b| >= VERTEX_SIZE
  {
    var b1 := b[12..];
    var b2 := b1[8..];
    var b3 := b2[12..];
    var b4 := b3[8..];
    PackedVertex(DecodeFloats(b, 3), DecodeFloats(b1, 2), DecodeFloats(b2, 3), DecodeShorts(b3, 4), DecodeFloats(b4, 3))
  }

  function DecodeVertices(b: seq<byte>, n: nat): seq<PackedVertex>
    requires |b| >= VERTEX_SIZE * n
  {
    if n == 0 then [] else [DecodeVertex(b)] + DecodeVertices(b[VERTEX_SIZE..], n - 1)
  }

  function DecodeTriangles(b: seq<byte>, n: nat): seq<seq<nat>>
    requires |b| >= TRIANGLE_SIZE * n
  {
    if n == 0 then [] else [DecodeU32s(b, 3)] + DecodeTriangles(b[TRIANGLE_SIZE..], n - 1)
  }

  /** A reader of the binary payload: each count, then that many records, and nothing after. */
  function DecodeMeshBinary(b: seq<byte>): Option<MeshRecords>
  {
    if |b| < 4 then None
    else
      var nv := DecodeU32(b);
      var rest := b[4..];
      if |rest| < VERTEX_SIZE * nv + 4 then None
      else
        var after := rest[VERTEX_SIZE * nv..];
        var nt := DecodeU32(after);
        if |after| != 4 + TRIANGLE_SIZE * nt then None
        else Some(MeshRecords(DecodeVertices(rest, nv), DecodeTriangles(after[4..], nt)))
  }

  lemma VertexRoundTrip(pv: PackedVertex, rest: seq<byte>)
    requires PackedShape(pv)
    ensures DecodeVertex(VertexBytes(pv) + rest) == pv
  {
    var x4 := FloatBytes(pv.weights) + rest;
    var x3 := ShortBytes(pv.boneIds) + x4;
    var x2 := FloatBytes(pv.normal) + x3;
    var x1 := FloatBytes(pv.uv) + x2;
    var b := FloatBytes(pv.co) + x1;
    assert VertexBytes(pv) + rest == b;
    DropPrefix(FloatBytes(pv.co), x1);
    DropPrefix(FloatBytes(pv.uv), x2);
    DropPrefix(FloatBytes(pv.normal), x3);
    DropPrefix(ShortBytes(pv.boneIds), x4);
    FloatsRoundTrip(pv.co, x1);
    FloatsRoundTrip(pv.uv, x2);
    FloatsRoundTrip(pv.normal, x3);
    ShortsRoundTrip(pv.boneIds, x4);
    FloatsRoundTrip(pv.weights, rest);
  }

  lemma {:induction false} VerticesRoundTrip(pvs: seq<PackedVertex>, rest: seq<byte>)
    requires AllPacked(pvs)
    ensures DecodeVertices(VerticesBytes(pvs) + rest, |pvs|) == pvs
  {
    if pvs != [] {
      var tail := VerticesBytes(pvs[1..]) + rest;
      var b := VerticesBytes(pvs) + rest;
      assert b == VertexBytes(pvs[0]) + tail by {
        AppendAssoc(VertexBytes(pvs[0]), VerticesBytes(pvs[1..]), rest);
      }
      assert DecodeVertex(b) == pvs[0] by { VertexRoundTrip(pvs[0], tail); }
      assert b[VERTEX_SIZE..] == tail by { DropPrefix(VertexBytes(pvs[0]), tail); }
      VerticesRoundTrip(pvs[1..], rest);
      DecodeVerticesCons(b, |pvs|, pvs[0], pvs[1..]);
      HeadTail(pvs);
    }
  }

  /** Decoding `n` records is decoding the first and then `n - 1` more. */
  lemma DecodeVerticesCons(b: seq<byte>, n: nat, v: PackedVertex, vs: seq<PackedVertex>)
    requires n > 0 && |b| >= VERTEX_SIZE * n
    requires DecodeVertex(b) == v && DecodeVertices(b[VERTEX_SIZE..], n - 1) == vs
    ensures DecodeVertices(b, n) == [v] + vs
  {
  }

  lemma {:induction false} TrianglesRoundTrip(tris: seq<seq<nat>>, rest: seq<byte>)
    requires AllTriangles(tris) && IndicesFit(tris)
    ensures DecodeTriangles(TrianglesBytes(tris) + rest, |tris|) == tris
  {
    if tris != [] {
      assert U32sFit(tris[0]) by { assert forall k :: 0 <= k < 3 ==> tris[0][k] < U32_LIMIT; }
      var tail := TrianglesBytes(tris[1..]) + rest;
      AppendAssoc(U32s(tris[0]), TrianglesBytes(tris[1..]), rest);
      U32sRoundTrip(tris[0], tail);
      DropPrefix(U32s(tris[0]), tail);
      TrianglesRoundTrip(tris[1..], rest);
    }
  }

  /**
   * A reader recovers from the binary payload exactly the packed vertex
   * records, in output order, and the triangles; the payload is
   * 8 + 52·V + 12·T bytes long.
   */
  lemma BinaryRoundTrip(mesh: Mesh, w: Welded, ops: FloatModel)
    requires Writable(mesh, w) && BinaryPayload(mesh, w, ops).Ok?
    ensures |BinaryPayload(mesh, w, ops).value| == 8 + VERTEX_SIZE * |w.verts| + TRIANGLE_SIZE * |w.tris|
    ensures DecodeMeshBinary(BinaryPayload(mesh, w, ops).value) == Some(MeshRecords(PackAll(mesh, w.verts, ops), w.tris))
  {
    RecordsRoundTrip(PackAll(mesh, w.verts, ops), w.tris);
  }

  /** The count-prefixed records read back as the records themselves. */
  lemma RecordsRoundTrip(pvs: seq<PackedVertex>, tris: seq<seq<nat>>)
    requires AllPacked(pvs) && AllTriangles(tris) && IndicesFit(tris)
    requires |pvs| < U32_LIMIT && |tris| < U32_LIMIT
    ensures var b := U32(|pvs|) + (VerticesBytes(pvs) + (U32(|tris|) + TrianglesBytes(tris)));
            |b| == 8 + VERTEX_SIZE * |pvs| + TRIANGLE_SIZE * |tris| &&
            DecodeMeshBinary(b) == Some(MeshRecords(pvs, tris))
  {
    var vb := VerticesBytes(pvs);
    var tb := TrianglesBytes(tris);
    var tail := U32(|tris|) + tb;
    var rest := vb + tail;
    U32RoundTrip(|pvs|, rest);
    DropPrefix(U32(|pvs|), rest);
    DropPrefix(vb, tail);
    U32RoundTrip(|tris|, tb);
    DropPrefix(U32(|tris|), tb);
    VerticesRoundTrip(pvs, tail);
    TrianglesRoundTrip(tris, []);
    assert tb + [] == tb;
  }

  /**
   * The binary file is the `MeshBin` header followed by the payload, so a
   * reader gets back the header fields and then the records.
   */
  lemma MeshBinaryFile(obj: MeshObject, mesh: Mesh, version: Version, now: DateTime, ops: FloatModel)
    requires ValidMesh(obj, mesh) && ValidDateTime(now)
    requires MeshBinary(obj, mesh, version, now, ops).Ok?
    ensures WeldMesh(obj, mesh, ops).Ok? && Writable(mesh, WeldMesh(obj, mesh, ops).value)
    ensures var w := WeldMesh(obj, mesh, ops).value;
            BinaryPayload(mesh, w, ops).Ok? &&
            DecodeHeader(MeshBinary(obj, mesh, version, now, ops).value) ==
              Some(HeaderFields(MESH_BIN, version, now, BinaryPayload(mesh, w, ops).value)) &&
            DecodeMeshBinary(BinaryPayload(mesh, w, ops).value) == Some(MeshRecords(PackAll(mesh, w.verts, ops), w.tris))
  {
    var w := WeldMesh(obj, mesh, ops).value;
    WeldedWritable(obj, mesh, ops);
    FormatIdsDistinct();
    HeaderRoundTrip(MESH_BIN, version, now, BinaryPayload(mesh, w, ops).value);
    BinaryRoundTrip(mesh, w, ops);
  }

  /**
   * When the binary writer fails: the welder's error first; then a vertex
   * or polygon count beyond 32 bits; then a polygon that is not a triangle.
   */
  lemma BinaryErrors(obj: MeshObject, mesh: Mesh, version: Version, now: DateTime, ops: FloatModel)
    requires ValidMesh(obj, mesh) && ValidDateTime(now)
    ensures WeldMesh(obj, mesh, ops).Err? ==> MeshBinary(obj, mesh, version, now, ops) == Err(WeldMesh(obj, mesh, ops).error)
    ensures WeldMesh(obj, mesh, ops).Ok? ==>
              var nv := |WeldMesh(obj, mesh, ops).value.verts|;
              MeshBinary(obj, mesh, version, now, ops).Err? <==>
                nv >= U32_LIMIT || |mesh.polygons| >= U32_LIMIT ||
                exists p :: 0 <= p < |mesh.polygons| && |mesh.polygons[p].vertices| != 3
    ensures WeldMesh(obj, mesh, ops).Ok? && MeshBinary(obj, mesh, version, now, ops).Err? ==>
              MeshBinary(obj, mesh, version, now, ops).error ==
                if |WeldMesh(obj, mesh, ops).value.verts| >= U32_LIMIT || |mesh.polygons| >= U32_LIMIT then CountOutOfRange
                else NotATriangle
  {
    if WeldMesh(obj, mesh, ops).Ok? {
      var w := WeldMesh(obj, mesh, ops).value;
      WeldedWritable(obj, mesh, ops);
      TrianglesIffPolygons(obj, mesh, ops);
      assert MeshBinary(obj, mesh, version, now, ops).Err? <==> BinaryPayload(mesh, w, ops).Err?;
    }
  }

  // ---------------------------------------------------------------------
  // The text payload
  // ---------------------------------------------------------------------

  const VERTEX_COUNT: seq<byte> := Ascii("vertex_count ")
  const TRIANGLE_COUNT: seq<byte> := Ascii("triangle_count ")
  const VERTEX_TAG: seq<byte> := Ascii("v")
  const TRIANGLE_TAG: seq<byte> := Ascii("t ")

  /** The `%i` numerals of `xs`, one field each. */
  function SignedTexts(xs: seq<int>): (fs: seq<seq<byte>>)
    ensures |fs| == |xs|
  {
    if xs == [] then [] else [SignedDecimal(xs[0])] + SignedTexts(xs[1..])
  }

  /** The `%u` numerals of `xs`, one field each. */
  function DecimalTexts(xs: seq<nat>): (fs: seq<seq<byte>>)
    ensures |fs| == |xs|
  {
    if xs == [] then [] else [Decimal(xs[0])] + DecimalTexts(xs[1..])
  }

  /** `b"%i %i %i %i" % bone_ids`. */
  function IdsText(ids: seq<int>): seq<byte>
    requires |ids| == 4
  {
    Spaced(SignedTexts(ids))
  }

  /** The six lines of one `v` record: tag, position, UV, normal, bone ids, weights. */
  function VertexLines(mesh: Mesh, v: OutVertex, ops: FloatModel): (ls: seq<seq<byte>>)
    requires RecordWritable(mesh, v)
    ensures |ls| == 6
  {
    [VERTEX_TAG, FixedFields(Vec3Fields(mesh.vertices[v.src].co), ops), FixedFields(Vec2Fields(v.uv), ops),
     FixedFields(Vec3Fields(v.normal), ops), IdsText(v.boneIds), FixedFields(v.weights, ops)]
  }

  /** One group of six lines per record. */
  function VertexBlocks(mesh: Mesh, vs: seq<OutVertex>, ops: FloatModel): (gs: seq<seq<seq<byte>>>)
    requires forall v :: 0 <= v < |vs| ==> RecordWritable(mesh, vs[v])
    ensures |gs| == |vs| && forall v :: 0 <= v < |vs| ==> gs[v] == VertexLines(mesh, vs[v], ops)
  {
    seq(|vs|, v requires 0 <= v < |vs| && RecordWritable(mesh, vs[v]) => VertexLines(mesh, vs[v], ops))
  }

  /** `b"t %u %u %u" % tuple (tri)`. */
  function TriangleLine(tri: seq<nat>): seq<byte>
    requires |tri| == 3
  {
    TRIANGLE_TAG + Spaced(DecimalTexts(tri))
  }

  function TrianglesLines(tris: seq<seq<nat>>): (ls: seq<seq<byte>>)
    requires AllTriangles(tris)
    ensures |ls| == |tris|
  {
    if tris == [] then [] else [TriangleLine(tris[0])] + TrianglesLines(tris[1..])
  }

  function CountLines(w: Welded): seq<seq<byte>> {
    [VERTEX_COUNT + Decimal(|w.verts|), TRIANGLE_COUNT + Decimal(|w.tris|)]
  }

  /** The lines after the header: both counts, the `v` records, the `t` lines. */
  function TextLines(mesh: Mesh, w: Welded, ops: FloatModel): seq<seq<byte>>
    requires Writable(mesh, w) && AllTriangles(w.tris)
  {
    CountLines(w) + Concat(VertexBlocks(mesh, w.verts, ops)) + TrianglesLines(w.tris)
  }

  /** The text payload, or the `TypeError` a face with other than three indices raises. */
  function TextPayload(mesh: Mesh, w: Welded, ops: FloatModel): Result<seq<byte>, ExportError>
    requires Writable(mesh, w)
  {
    if !AllTriangles(w.tris) then Err(NotATriangle) else Ok(JoinLines(TextLines(mesh, w, ops)))
  }

  /** What `write_mesh_text` writes, or the exception it raises. */
  function MeshText(obj: MeshObject, mesh: Mesh, version: Version, now: DateTime, ops: FloatModel)
    : (r: Result<seq<byte>, ExportError>)
    requires ValidMesh(obj, mesh) && ValidDateTime(now)
    ensures r.Ok? ==> WeldMesh(obj, mesh, ops).Ok? && |r.value| > 8 && r.value[..8] == MESH_TXT
  {
    var welded := WeldMesh(obj, mesh, ops);
    if welded.Err? then Err(welded.error)
    else
      assert Writable(mesh, welded.value) by { WeldedWritable(obj, mesh, ops); }
      var payload := TextPayload(mesh, welded.value, ops);
      if payload.Err? then Err(payload.error) else Ok(Header(MESH_TXT, version, now) + payload.value)
  }

  lemma {:induction false} TrianglesLinesAt(tris: seq<seq<nat>>, t: nat)
    requires AllTriangles(tris) && t < |tris|
    ensures TrianglesLines(tris)[t] == TriangleLine(tris[t])
  {
    if t > 0 {
      TrianglesLinesAt(tris[1..], t - 1);
    }
  }

  /** The text payload starts with `vertex_count` and `triangle_count`; then six lines per vertex and one per triangle. */
  lemma TextCounts(mesh: Mesh, w: Welded, ops: FloatModel)
    requires Writable(mesh, w) && AllTriangles(w.tris)
    ensures var ls := TextLines(mesh, w, ops);
            |ls| == 2 + 6 * |w.verts| + |w.tris| &&
            ls[0] == VERTEX_COUNT + Decimal(|w.verts|) && ls[1] == TRIANGLE_COUNT + Decimal(|w.tris|)
  {
    ConcatLength(VertexBlocks(mesh, w.verts, ops), 6);
  }

  /** Vertex `v`'s record is lines 2 + 6·v to 7 + 6·v: the `v` tag, position, UV, normal, bone ids, weights. */
  lemma TextVertexLines(mesh: Mesh, w: Welded, ops: FloatModel, v: nat, f: nat)
    requires Writable(mesh, w) && AllTriangles(w.tris)
    requires v < |w.verts| && f < 6
    ensures 2 + 6 * v + f < |TextLines(mesh, w, ops)|
    ensures TextLines(mesh, w, ops)[2 + 6 * v + f] == VertexLines(mesh, w.verts[v], ops)[f]
  {
    var gs := VertexBlocks(mesh, w.verts, ops);
    ConcatAt(gs, 6, v, f);
    ConcatLength(gs, 6);
    var cs, vs := CountLines(w), Concat(gs);
    AppendAt(cs, vs, 6 * v + f);
    assert TextLines(mesh, w, ops) == (cs + vs) + TrianglesLines(w.tris);
    assert (cs + vs)[2 + 6 * v + f] == VertexLines(mesh, w.verts[v], ops)[f];
  }

  /** Triangle `t` is the line after all vertex records plus `t`: `t` and its three indices. */
  lemma TextTriangleLines(mesh: Mesh, w: Welded, ops: FloatModel, t: nat)
    requires Writable(mesh, w) && AllTriangles(w.tris) && t < |w.tris|
    ensures 2 + 6 * |w.verts| + t < |TextLines(mesh, w, ops)|
    ensures TextLines(mesh, w, ops)[2 + 6 * |w.verts| + t] == TriangleLine(w.tris[t])
  {
    ConcatLength(VertexBlocks(mesh, w.verts, ops), 6);
    TrianglesLinesAt(w.tris, t);
    AppendAt(CountLines(w) + Concat(VertexBlocks(mesh, w.verts, ops)), TrianglesLines(w.tris), t);
  }

  lemma IdsTextNewlineFree(ids: seq<int>)
    requires |ids| == 4
    ensures NewlineFree(IdsText(ids))
  {
    SignedTextsRoundTrip(ids);
    SpacedNewlineFree(SignedTexts(ids));
  }

  lemma VertexLinesNewlineFree(mesh: Mesh, v: OutVertex, ops: FloatModel)
    requires RecordWritable(mesh, v) && FormatsAreNewlineFree(ops)
    ensures forall f :: 0 <= f < 6 ==> NewlineFree(VertexLines(mesh, v, ops)[f])
  {
    FixedFieldsNewlineFree(Vec3Fields(mesh.vertices[v.src].co), ops);
    FixedFieldsNewlineFree(Vec2Fields(v.uv), ops);
    FixedFieldsNewlineFree(Vec3Fields(v.normal), ops);
    IdsTextNewlineFree(v.boneIds);
    FixedFieldsNewlineFree(v.weights, ops);
  }

  lemma TriangleLineNewlineFree(tri: seq<nat>)
    requires |tri| == 3
    ensures NewlineFree(TriangleLine(tri))
  {
    DecimalTextsRoundTrip(tri);
    SpacedNewlineFree(DecimalTexts(tri));
    NewlineFreeConcat(TRIANGLE_TAG, Spaced(DecimalTexts(tri)));
  }

  lemma LinesNewlineFree(mesh: Mesh, w: Welded, ops: FloatModel)
    requires Writable(mesh, w) && AllTriangles(w.tris) && FormatsAreNewlineFree(ops)
    ensures forall i :: 0 <= i < |TextLines(mesh, w, ops)| ==> NewlineFree(TextLines(mesh, w, ops)[i])
  {
    TextCounts(mesh, w, ops);
    forall i | 0 <= i < |TextLines(mesh, w, ops)| ensures NewlineFree(TextLines(mesh, w, ops)[i]) {
      if i < 2 {
        DecimalNewlineFree(|w.verts|);
        DecimalNewlineFree(|w.tris|);
      } else if i < 2 + 6 * |w.verts| {
        VertexTextLineNewlineFree(mesh, w, ops, i);
      } else {
        TriangleTextLineNewlineFree(mesh, w, ops, i);
      }
    }
  }

  lemma VertexTextLineNewlineFree(mesh: Mesh, w: Welded, ops: FloatModel, i: nat)
    requires Writable(mesh, w) && AllTriangles(w.tris) && FormatsAreNewlineFree(ops)
    requires 2 <= i < 2 + 6 * |w.verts|
    ensures i < |TextLines(mesh, w, ops)| && NewlineFree(TextLines(mesh, w, ops)[i])
  {
    var v, f := (i - 2) / 6, (i - 2) % 6;
    assert i == 2 + 6 * v + f;
    TextVertexLines(mesh, w, ops, v, f);
    VertexLinesNewlineFree(mesh, w.verts[v], ops);
  }

  lemma TriangleTextLineNewlineFree(mesh: Mesh, w: Welded, ops: FloatModel, i: nat)
    requires Writable(mesh, w) && AllTriangles(w.tris)
    requires 2 + 6 * |w.verts| <= i < |TextLines(mesh, w, ops)|
    ensures NewlineFree(TextLines(mesh, w, ops)[i])
  {
    TextCounts(mesh, w, ops);
    var t := i - 2 - 6 * |w.verts|;
    TextTriangleLines(mesh, w, ops, t);
    TriangleLineNewlineFree(w.tris[t]);
  }

  /** Reads `%i` fields back, or None when one of them is not a signed numeral. */
  function ParseSignedFields(fs: seq<seq<byte>>): Option<seq<int>>
  {
    if fs == [] then Some([])
    else
      match (ParseSignedDecimal(fs[0]), ParseSignedFields(fs[1..]))
      case (Some(x), Some(rest)) => Some([x] + rest)
      case _ => None
  }

  /** Reads `%u` fields back, or None when one of them is not a numeral. */
  function ParseDecimalFields(fs: seq<seq<byte>>): Option<seq<nat>>
  {
    if fs == [] then Some([])
    else
      match (ParseField(fs[0]), ParseDecimalFields(fs[1..]))
      case (Some(x), Some(rest)) => Some([x] + rest)
      case _ => None
  }

  /** A reader's view of a bone-id line. */
  function ParseIds(line: seq<byte>): Option<seq<int>>
  {
    ParseSignedFields(Fields(line))
  }

  /** A reader's view of a `t` line. */
  function ParseTriangle(line: seq<byte>): Option<seq<nat>>
  {
    if |line| >= 2 && line[..2] == TRIANGLE_TAG then ParseDecimalFields(Fields(line[2..])) else None
  }

  /** `%i` fields read back as the numbers, and hold neither a space nor a newline. */
  lemma {:induction false} SignedTextsRoundTrip(xs: seq<int>)
    ensures ParseSignedFields(SignedTexts(xs)) == Some(xs)
    ensures forall i :: 0 <= i < |xs| ==> SpaceFree(SignedTexts(xs)[i]) && NewlineFree(SignedTexts(xs)[i])
  {
    if xs != [] {
      var fs := SignedTexts(xs);
      assert fs[0] == SignedDecimal(xs[0]) && fs[1..] == SignedTexts(xs[1..]);
      SignedDecimalRoundTrip(xs[0]);
      SignedTextsRoundTrip(xs[1..]);
      assert [xs[0]] + xs[1..] == xs;
    }
  }

  /** `%u` fields read back as the numbers, and hold neither a space nor a newline. */
  lemma {:induction false} DecimalTextsRoundTrip(xs: seq<nat>)
    ensures ParseDecimalFields(DecimalTexts(xs)) == Some(xs)
    ensures forall i :: 0 <= i < |xs| ==> SpaceFree(DecimalTexts(xs)[i]) && NewlineFree(DecimalTexts(xs)[i])
  {
    if xs != [] {
      var fs := DecimalTexts(xs);
      assert fs[0] == Decimal(xs[0]) && fs[1..] == DecimalTexts(xs[1..]);
      DecimalIsField(xs[0]);
      DecimalTextsRoundTrip(xs[1..]);
      assert [xs[0]] + xs[1..] == xs;
    }
  }

  /** The bone-id line reads back as the four ids. */
  lemma IdsRoundTrip(ids: seq<int>)
    requires |ids| == 4
    ensures ParseIds(IdsText(ids)) == Some(ids)
  {
    SignedTextsRoundTrip(ids);
    FieldsOfSpaced(SignedTexts(ids));
  }

  /** A `t` line reads back as its three indices. */
  lemma TriangleRoundTrip(tri: seq<nat>)
    requires |tri| == 3
    ensures ParseTriangle(TriangleLine(tri)) == Some(tri)
  {
    DecimalTextsRoundTrip(tri);
    FieldsOfSpaced(DecimalTexts(tri));
    var line := TriangleLine(tri);
    assert line[..2] == TRIANGLE_TAG && line[2..] == Spaced(DecimalTexts(tri));
  }

  /**
   * Splitting the text payload at newlines gives back exactly its lines;
   * a reader parses both counts from the first two, each record's bone ids
   * from its fifth line, and each triangle from its `t` line.
   */
  lemma TextRoundTrip(mesh: Mesh, w: Welded, ops: FloatModel)
    requires Writable(mesh, w) && AllTriangles(w.tris) && FormatsAreNewlineFree(ops)
    ensures SplitLines(JoinLines(TextLines(mesh, w, ops))) == TextLines(mesh, w, ops)
    ensures var ls := TextLines(mesh, w, ops);
            |ls| >= 2 && |ls[0]| >= 13 && |ls[1]| >= 15 &&
            ls[0][..13] == VERTEX_COUNT && ls[1][..15] == TRIANGLE_COUNT &&
            ParseDecimal(ls[0][13..]) == |w.verts| && ParseDecimal(ls[1][15..]) == |w.tris|
    ensures forall v :: 0 <= v < |w.verts| ==>
              6 * v + 6 < |TextLines(mesh, w, ops)| && ParseIds(TextLines(mesh, w, ops)[6 * v + 6]) == Some(w.verts[v].boneIds)
    ensures forall t :: 0 <= t < |w.tris| ==>
              2 + 6 * |w.verts| + t < |TextLines(mesh, w, ops)| &&
              ParseTriangle(TextLines(mesh, w, ops)[2 + 6 * |w.verts| + t]) == Some(w.tris[t])
  {
    forall v | 0 <= v < |w.verts|
      ensures 6 * v + 6 < |TextLines(mesh, w, ops)| && ParseIds(TextLines(mesh, w, ops)[6 * v + 6]) == Some(w.verts[v].boneIds)
    {
      TextVertexLines(mesh, w, ops, v, 4);
      IdsRoundTrip(w.verts[v].boneIds);
    }
    forall t | 0 <= t < |w.tris|
      ensures 2 + 6 * |w.verts| + t < |TextLines(mesh, w, ops)| &&
              ParseTriangle(TextLines(mesh, w, ops)[2 + 6 * |w.verts| + t]) == Some(w.tris[t])
    {
      TextTriangleLines(mesh, w, ops, t);
      TriangleRoundTrip(w.tris[t]);
    }
    var ls := TextLines(mesh, w, ops);
    LinesNewlineFree(mesh, w, ops);
    SplitJoinLines(ls);
    TextCounts(mesh, w, ops);
    DropPrefix(VERTEX_COUNT, Decimal(|w.verts|));
    DropPrefix(TRIANGLE_COUNT, Decimal(|w.tris|));
    DecimalRoundTrip(|w.verts|);
    DecimalRoundTrip(|w.tris|);
  }

  /** The text writer fails only on a polygon that is not a triangle, after any welder error. */
  lemma TextErrors(obj: MeshObject, mesh: Mesh, version: Version, now: DateTime, ops: FloatModel)
    requires ValidMesh(obj, mesh) && ValidDateTime(now)
    ensures WeldMesh(obj, mesh, ops).Err? ==> MeshText(obj, mesh, version, now, ops) == Err(WeldMesh(obj, mesh, ops).error)
    ensures WeldMesh(obj, mesh, ops).Ok? ==>
              (MeshText(obj, mesh, version, now, ops).Err? <==>
                 exists p :: 0 <= p < |mesh.polygons| && |mesh.polygons[p].vertices| != 3)
    ensures WeldMesh(obj, mesh, ops).Ok? && MeshText(obj, mesh, version, now, ops).Err? ==>
              MeshText(obj, mesh, version, now, ops).error == NotATriangle
  {
    if WeldMesh(obj, mesh, ops).Ok? {
      var w := WeldMesh(obj, mesh, ops).value;
      WeldedWritable(obj, mesh, ops);
      TrianglesIffPolygons(obj, mesh, ops);
      assert MeshText(obj, mesh, version, now, ops).Err? <==> TextPayload(mesh, w, ops).Err?;
    }
  }

  // ---------------------------------------------------------------------
  // The writers
  // ---------------------------------------------------------------------

  lemma {:induction false} VerticesBytesAppend(pvs: seq<PackedVertex>, pv: PackedVertex)
    requires AllPacked(pvs) && PackedShape(pv)
    ensures AllPacked(pvs + [pv])
    ensures VerticesBytes(pvs + [pv]) == VerticesBytes(pvs) + VertexBytes(pv)
  {
    if pvs != [] {
      assert (pvs + [pv])[1..] == pvs[1..] + [pv];
      VerticesBytesAppend(pvs[1..], pv);
    }
  }

  lemma {:induction false} TrianglesBytesAppend(tris: seq<seq<nat>>, tri: seq<nat>)
    requires AllTriangles(tris) && IndicesFit(tris)
    requires |tri| == 3 && U32sFit(tri)
    ensures AllTriangles(tris + [tri]) && IndicesFit(tris + [tri])
    ensures TrianglesBytes(tris + [tri]) == TrianglesBytes(tris) + U32s(tri)
  {
    if tris != [] {
      assert (tris + [tri])[1..] == tris[1..] + [tri];
      TrianglesBytesAppend(tris[1..], tri);
    }
  }

  lemma {:induction false} TrianglesLinesAppend(tris: seq<seq<nat>>, tri: seq<nat>)
    requires AllTriangles(tris) && |tri| == 3
    ensures AllTriangles(tris + [tri])
    ensures TrianglesLines(tris + [tri]) == TrianglesLines(tris) + [TriangleLine(tri)]
  {
    if tris != [] {
      assert (tris + [tri])[1..] == tris[1..] + [tri];
      TrianglesLinesAppend(tris[1..], tri);
    }
  }

  /** The loop over `verts` in `write_mesh_binary`: each record's five packed fields in turn. */
  method WriteVertexRecords(mesh: Mesh, verts: seq<OutVertex>, ops: FloatModel) returns (out: seq<byte>)
    requires forall v :: 0 <= v < |verts| ==> RecordWritable(mesh, verts[v])
    ensures out == VerticesBytes(PackAll(mesh, verts, ops))
  {
    ghost var pvs := PackAll(mesh, verts, ops);
    out := [];
    var i := 0;
    while i < |verts|
      invariant 0 <= i <= |verts|
      invariant AllPacked(pvs[..i])
      invariant out == VerticesBytes(pvs[..i])
    {
      var v := verts[i];
      ghost var before := out;
      out := out + FloatBytes(PackFloats(Vec3Fields(mesh.vertices[v.src].co), ops));
      out := out + FloatBytes(PackFloats(Vec2Fields(v.uv), ops));
      out := out + FloatBytes(PackFloats(Vec3Fields(v.normal), ops));
      out := out + ShortBytes(v.boneIds);
      out := out + FloatBytes(PackFloats(v.weights, ops));
      assert out == before + VertexBytes(pvs[i]);
      VerticesBytesAppend(pvs[..i], pvs[i]);
      TakeOneMore(pvs, i);
      i := i + 1;
    }
    assert pvs[..i] == pvs;
  }

  /** The loop over `tris` in `write_mesh_binary`: three indices each, or the error for a face that is not a triangle. */
  method WriteTriangleRecords(tris: seq<seq<nat>>) returns (r: Result<seq<byte>, ExportError>)
    requires IndicesFit(tris)
    ensures AllTriangles(tris) ==> r == Ok(TrianglesBytes(tris))
    ensures !AllTriangles(tris) ==> r == Err(NotATriangle)
  {
    var out := [];
    var t := 0;
    while t < |tris|
      invariant 0 <= t <= |tris|
      invariant AllTriangles(tris[..t]) && IndicesFit(tris[..t])
      invariant out == TrianglesBytes(tris[..t])
    {
      var tri := tris[t];
      if |tri| != 3 {
        return Err(NotATriangle);
      }
      assert U32sFit(tri) by { assert forall k :: 0 <= k < 3 ==> tri[k] < U32_LIMIT; }
      out := out + U32s(tri);
      TrianglesBytesAppend(tris[..t], tri);
      TakeOneMore(tris, t);
      t := t + 1;
    }
    assert tris[..t] == tris;
    r := Ok(out);
  }

  /**
   * `write_mesh_binary`: welds the mesh, then writes the header, the vertex
   * count, the records, the triangle count and the triangles; its outcome
   * is exactly `MeshBinary`.
   */
  method WriteMeshBinary(obj: MeshObject, mesh: Mesh, version: Version, now: DateTime, ops: FloatModel)
    returns (r: Result<seq<byte>, ExportError>)
    requires ValidMesh(obj, mesh) && ValidDateTime(now)
    ensures r == MeshBinary(obj, mesh, version, now, ops)
  {
    var welded := DecomposeMesh(obj, mesh, ops);
    if welded.Err? {
      return Err(welded.error);
    }
    var w := welded.value;
    WeldedWritable(obj, mesh, ops);
    var out := WriteAssetHeader(MESH_BIN, version, now);
    if |w.verts| >= U32_LIMIT {
      return Err(CountOutOfRange);
    }
    var vertexCount := U32(|w.verts|);
    var records := WriteVertexRecords(mesh, w.verts, ops);
    if |w.tris| >= U32_LIMIT {
      return Err(CountOutOfRange);
    }
    var triangleCount := U32(|w.tris|);
    assert IndicesFit(w.tris);
    var triangles := WriteTriangleRecords(w.tris);
    if triangles.Err? {
      return Err(triangles.error);
    }
    r := Ok(out + (vertexCount + (records + (triangleCount + triangles.value))));
  }

  /** The loop over `verts` in `write_mesh_text`: six lines per record. */
  method WriteVertexLines(mesh: Mesh, verts: seq<OutVertex>, ops: FloatModel) returns (out: seq<byte>)
    requires forall v :: 0 <= v < |verts| ==> RecordWritable(mesh, verts[v])
    ensures out == JoinLines(Concat(VertexBlocks(mesh, verts, ops)))
  {
    ghost var gs := VertexBlocks(mesh, verts, ops);
    out := [];
    var i := 0;
    while i < |verts|
      invariant 0 <= i <= |verts|
      invariant out == JoinLines(Concat(gs[..i]))
    {
      var v := verts[i];
      var block := VERTEX_TAG + [NL];
      block := block + FixedFields(Vec3Fields(mesh.vertices[v.src].co), ops) + [NL];
      block := block + FixedFields(Vec2Fields(v.uv), ops) + [NL];
      block := block + FixedFields(Vec3Fields(v.normal), ops) + [NL];
      block := block + IdsText(v.boneIds) + [NL];
      block := block + FixedFields(v.weights, ops) + [NL];
      SixLines(VERTEX_TAG, FixedFields(Vec3Fields(mesh.vertices[v.src].co), ops), FixedFields(Vec2Fields(v.uv), ops),
               FixedFields(Vec3Fields(v.normal), ops), IdsText(v.boneIds), FixedFields(v.weights, ops));
      out := out + block;
      TakeOneMore(gs, i);
      ConcatAppend(gs[..i], gs[i]);
      JoinLinesAppend(Concat(gs[..i]), gs[i]);
      i := i + 1;
    }
    assert gs[..i] == gs;
  }

  /** The loop over `tris` in `write_mesh_text`: one `t` line each, or the error for a face that is not a triangle. */
  method WriteTriangleLines(tris: seq<seq<nat>>) returns (r: Result<seq<byte>, ExportError>)
    ensures AllTriangles(tris) ==> r == Ok(JoinLines(TrianglesLines(tris)))
    ensures !AllTriangles(tris) ==> r == Err(NotATriangle)
  {
    var out := [];
    var t := 0;
    while t < |tris|
      invariant 0 <= t <= |tris|
      invariant AllTriangles(tris[..t])
      invariant out == JoinLines(TrianglesLines(tris[..t]))
    {
      var tri := tris[t];
      if |tri| != 3 {
        return Err(NotATriangle);
      }
      out := out + TriangleLine(tri) + [NL];
      TrianglesLinesAppend(tris[..t], tri);
      TakeOneMore(tris, t);
      JoinLinesSnoc(TrianglesLines(tris[..t]), TriangleLine(tri));
      t := t + 1;
    }
    assert tris[..t] == tris;
    r := Ok(out);
  }

  /** `write_mesh_text`: welds the mesh, then writes the header and the lines; its outcome is exactly `MeshText`. */
  method WriteMeshText(obj: MeshObject, mesh: Mesh, version: Version, now: DateTime, ops: FloatModel)
    returns (r: Result<seq<byte>, ExportError>)
    requires ValidMesh(obj, mesh) && ValidDateTime(now)
    ensures r == MeshText(obj, mesh, version, now, ops)
  {
    var welded := DecomposeMesh(obj, mesh, ops);
    if welded.Err? {
      return Err(welded.error);
    }
    var w := welded.value;
    WeldedWritable(obj, mesh, ops);
    var out := WriteAssetHeader(MESH_TXT, version, now);
    var vertexCount := VERTEX_COUNT + Decimal(|w.verts|);
    var triangleCount := TRIANGLE_COUNT + Decimal(|w.tris|);
    var counts := vertexCount + [NL];
    counts := counts + triangleCount + [NL];
    CountsText(vertexCount, triangleCount);
    var records := WriteVertexLines(mesh, w.verts, ops);
    var triangles := WriteTriangleLines(w.tris);
    if triangles.Err? {
      return Err(triangles.error);
    }
    TextJoinParts(mesh, w, ops);
    r := Ok(out + (counts + records + triangles.value));
  }

  /** The two count lines, each followed by its newline. */
  lemma CountsText(a: seq<byte>, b: seq<byte>)
    ensures JoinLines([a, b]) == a + [NL] + b + [NL]
  {
    JoinLinesSnoc([], a);
    assert [] + [a] == [a];
    JoinLinesSnoc([a], b);
    assert [a] + [b] == [a, b];
  }

  /** The text after the header is the counts, then the vertex blocks, then the triangle lines. */
  lemma TextJoinParts(mesh: Mesh, w: Welded, ops: FloatModel)
    requires Writable(mesh, w) && AllTriangles(w.tris)
    ensures JoinLines(TextLines(mesh, w, ops))
         == JoinLines(CountLines(w)) + JoinLines(Concat(VertexBlocks(mesh, w.verts, ops))) + JoinLines(TrianglesLines(w.tris))
  {
    var blocks := Concat(VertexBlocks(mesh, w.verts, ops));
    JoinLinesAppend(CountLines(w), blocks);
    JoinLinesAppend(CountLines(w) + blocks, TrianglesLines(w.tris));
  }

  /** Six lines written one after another: each followed by its newline. */
  lemma SixLines(a: seq<byte>, b: seq<byte>, c: seq<byte>, d: seq<byte>, e: seq<byte>, f: seq<byte>)
    ensures JoinLines([a, b, c, d, e, f]) == a + [NL] + b + [NL] + c + [NL] + d + [NL] + e + [NL] + f + [NL]
  {
    JoinLinesSnoc([], a);
    assert [] + [a] == [a];
    JoinLinesSnoc([a], b);
    assert [a] + [b] == [a, b];
    JoinLinesSnoc([a, b], c);
    assert [a, b] + [c] == [a, b, c];
    JoinLinesSnoc([a, b, c], d);
    assert [a, b, c] + [d] == [a, b, c, d];
    JoinLinesSnoc([a, b, c, d], e);
    assert [a, b, c, d] + [e] == [a, b, c, d, e];
    JoinLinesSnoc([a, b, c, d, e], f);
    assert [a, b, c, d, e] + [f] == [a, b, c, d, e, f];
  }
}

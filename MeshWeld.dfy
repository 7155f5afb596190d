/**
 * The vertex welder (`decompose_mesh_data`) and its attribute helpers
 * (`rvec2`, `rvec3`, `groups_to_tuple4`, `weights_to_tuple3`).
 *
 * Every polygon loop ("corner") yields a key from its rounded UV, the rounded
 * normal of its vertex, the vertex's first four groups and first three rounded
 * weights; keys are scoped by source vertex. A corner reuses the output vertex
 * of an earlier corner with the same source vertex and key, and otherwise
 * appends a new one. `WeldMesh` states the outcome through first-seen
 * deduplication (module Dedup); `DecomposeMesh` is the source's loop.
 */
module MeshWeld {
  import opened Wrappers
  import opened Values
  import opened ExportErrors
  import opened Armature
  import opened Dedup

  // ---------------------------------------------------------------------
  // Input snapshot
  // ---------------------------------------------------------------------

  datatype GroupWeight = GroupWeight(group: int, weight: Float)

  datatype MeshVertex = MeshVertex(co: Vec3, normal: Vec3, groups: seq<GroupWeight>)

  /** A polygon: its first loop and the vertex index of each loop, in loop order. */
  datatype Polygon = Polygon(loopStart: nat, vertices: seq<nat>)

  /** A triangulated mesh with an optional active UV layer indexed by loop. */
  datatype Mesh = Mesh(vertices: seq<MeshVertex>, polygons: seq<Polygon>, uvLayer: Option<seq<Vec2>>)

  /** What the welder reads from the object: vertex-group names by index, and its armature. */
  datatype MeshObject = MeshObject(groupNames: map<int, Name>, armature: Option<Armature>)

  /**
   * The structural invariants the host maintains: loops reference existing
   * vertices, the UV layer has an entry per loop, group assignments
   * reference existing vertex groups, and the armature is well formed.
   */
  predicate ValidMesh(obj: MeshObject, mesh: Mesh) {
    (forall p, j :: 0 <= p < |mesh.polygons| && 0 <= j < |mesh.polygons[p].vertices| ==>
       mesh.polygons[p].vertices[j] < |mesh.vertices|) &&
    (mesh.uvLayer.Some? ==> forall p :: 0 <= p < |mesh.polygons| ==>
       mesh.polygons[p].loopStart + |mesh.polygons[p].vertices| <= |mesh.uvLayer.value|) &&
    (forall v, k :: 0 <= v < |mesh.vertices| && 0 <= k < |mesh.vertices[v].groups| ==>
       mesh.vertices[v].groups[k].group in obj.groupNames) &&
    (obj.armature.Some? ==> ValidArmature(obj.armature.value))
  }

  // ---------------------------------------------------------------------
  // Attribute helpers
  // ---------------------------------------------------------------------

  function Rvec2(v: Vec2, round: Float -> Float): (r: Vec2)
    ensures r.x == round(v.x) && r.y == round(v.y)
  {
    Vec2(round(v.x), round(v.y))
  }

  function Rvec3(v: Vec3, round: Float -> Float): (r: Vec3)
    ensures r.x == round(v.x) && r.y == round(v.y) && r.z == round(v.z)
  {
    Vec3(round(v.x), round(v.y), round(v.z))
  }

  /** Exactly four slots: the first four groups in order, -1 for every missing one. */
  function GroupsToTuple4(a: seq<int>): (r: seq<int>)
    ensures |r| == 4
    ensures forall i :: 0 <= i < 4 ==> r[i] == if i < |a| then a[i] else -1
  {
    if |a| == 0 then [-1, -1, -1, -1]
    else if |a| == 1 then [a[0], -1, -1, -1]
    else if |a| == 2 then [a[0], a[1], -1, -1]
    else if |a| == 3 then [a[0], a[1], a[2], -1]
    else [a[0], a[1], a[2], a[3]]
  }

  /** Exactly three slots: the first three weights rounded, 0 for every missing one. */
  function WeightsToTuple3(a: seq<Float>, round: Float -> Float): (r: seq<Float>)
    ensures |r| == 3
    ensures forall i :: 0 <= i < 3 ==> r[i] == if i < |a| then round(a[i]) else Zero
  {
    if |a| == 0 then [Zero, Zero, Zero]
    else if |a| == 1 then [round(a[0]), Zero, Zero]
    else if |a| == 2 then [round(a[0]), round(a[1]), Zero]
    else [round(a[0]), round(a[1]), round(a[2])]
  }

  function GroupIds(gs: seq<GroupWeight>): (r: seq<int>)
    ensures |r| == |gs| && forall i :: 0 <= i < |gs| ==> r[i] == gs[i].group
  {
    seq(|gs|, i requires 0 <= i < |gs| => gs[i].group)
  }

  function GroupWeights(gs: seq<GroupWeight>): (r: seq<Float>)
    ensures |r| == |gs| && forall i :: 0 <= i < |gs| ==> r[i] == gs[i].weight
  {
    seq(|gs|, i requires 0 <= i < |gs| => gs[i].weight)
  }

  predicate KnownGroups(groups: seq<int>, groupNames: map<int, Name>) {
    forall i :: 0 <= i < |groups| ==> groups[i] == -1 || groups[i] in groupNames
  }

  /** The bone id of one group slot: -1 for an empty slot or a group that names no table bone. */
  function BoneIdOf(g: int, groupNames: map<int, Name>, index: map<Name, nat>): int
    requires g == -1 || g in groupNames
  {
    if g == -1 || groupNames[g] !in index then -1 else index[groupNames[g]]
  }

  /** The four bone ids the welder resolves for a padded group tuple. */
  function BoneIds(groups: seq<int>, groupNames: map<int, Name>, index: map<Name, nat>): (r: seq<int>)
    requires |groups| == 4 && KnownGroups(groups, groupNames)
    ensures |r| == 4
  {
    [BoneIdOf(groups[0], groupNames, index), BoneIdOf(groups[1], groupNames, index),
     BoneIdOf(groups[2], groupNames, index), BoneIdOf(groups[3], groupNames, index)]
  }

  /**
   * The bone ids as the welder is written: it asks `name in bone_dict` of the
   * pair `(bones_dict, bones)` that `decompose_armature_data` returns, whose
   * two elements are a dict and a list and never equal a name, so no slot is
   * ever filled and `[1]` is never reached.
   */
  function BoneIdsAsWritten(groups: seq<int>): (r: seq<int>)
    requires |groups| == 4
    ensures |r| == 4 && forall i :: 0 <= i < 4 ==> r[i] == -1
  {
    [-1, -1, -1, -1]
  }

  /**
   * As written, a group slot that names a table bone loses that bone's index:
   * the corrected welder records the index, the welder as written records -1.
   */
  lemma AsWrittenDropsBoneIds(groups: seq<int>, groupNames: map<int, Name>, index: map<Name, nat>, s: nat)
    requires |groups| == 4 && KnownGroups(groups, groupNames) && s < 4
    requires groups[s] != -1 && groupNames[groups[s]] in index
    ensures BoneIds(groups, groupNames, index)[s] == index[groupNames[groups[s]]] >= 0
    ensures BoneIdsAsWritten(groups)[s] == -1
    ensures BoneIdsAsWritten(groups) != BoneIds(groups, groupNames, index)
  {
    assert BoneIdsAsWritten(groups)[s] != BoneIds(groups, groupNames, index)[s];
  }

  /**
   * `bone_ids` filled slot by slot: exactly four ids, each -1 when its slot is
   * empty or its group names no table bone, and that bone's index otherwise.
   */
  method ResolveBoneIds(groups: seq<int>, groupNames: map<int, Name>, index: map<Name, nat>)
    returns (boneIds: seq<int>)
    requires |groups| == 4 && KnownGroups(groups, groupNames)
    ensures boneIds == BoneIds(groups, groupNames, index) && |boneIds| == 4
    ensures forall i :: 0 <= i < 4 ==>
              boneIds[i] == if groups[i] == -1 || groupNames[groups[i]] !in index then -1
                            else index[groupNames[groups[i]]]
  {
    boneIds := [-1, -1, -1, -1];
    var i := 0;
    while i < |groups|
      invariant 0 <= i <= 4 && |boneIds| == 4
      invariant forall k :: 0 <= k < i ==> boneIds[k] == BoneIdOf(groups[k], groupNames, index)
      invariant forall k :: i <= k < 4 ==> boneIds[k] == -1
    {
      if groups[i] != -1 && groupNames[groups[i]] in index {
        boneIds := boneIds[i := index[groupNames[groups[i]]]];
      }
      i := i + 1;
    }
  }

  // ---------------------------------------------------------------------
  // Keys, loops and output records
  // ---------------------------------------------------------------------

  /** The dictionary key: rounded UV, rounded normal, padded groups, padded rounded weights. */
  datatype WeldKey = WeldKey(uv: Vec2, normal: Vec3, groups: seq<int>, weights: seq<Float>)

  /** A key in the dictionary of source vertex `src`. */
  datatype ScopedKey = ScopedKey(src: nat, key: WeldKey)

  /** An output vertex: source vertex (for its position), raw UV and normal, bone ids, weights. */
  datatype OutVertex = OutVertex(src: nat, uv: Vec2, normal: Vec3, boneIds: seq<int>, weights: seq<Float>)

  /** One polygon loop: its scoped key and the record it appends when its key is new. */
  datatype Corner = Corner(key: ScopedKey, record: OutVertex)

  datatype Welded = Welded(verts: seq<OutVertex>, tris: seq<seq<nat>>)

  function CornerKey(c: Corner): ScopedKey { c.key }

  /** The name-to-index map the welder resolves groups against (`{}` without an armature). */
  function TableIndex(obj: MeshObject): map<Name, nat>
    requires obj.armature.Some? ==> ValidArmature(obj.armature.value)
  {
    if obj.armature.None? then map[]
    else
      var t := BuildBoneTable(obj.armature.value);
      if t.Ok? then t.value.index else map[]
  }

  /** The UV of loop `j` of polygon `p`: from the active layer, or (0.0, 0.0) without one. */
  function UVAt(mesh: Mesh, p: nat, j: nat): Vec2
    requires p < |mesh.polygons| && j < |mesh.polygons[p].vertices|
    requires mesh.uvLayer.Some? ==> mesh.polygons[p].loopStart + |mesh.polygons[p].vertices| <= |mesh.uvLayer.value|
  {
    if mesh.uvLayer.Some? then mesh.uvLayer.value[mesh.polygons[p].loopStart + j] else Vec2(Zero, Zero)
  }

  /** Loop `j` of polygon `p`: the key the welder builds for it and the record it would append. */
  function CornerAt(obj: MeshObject, mesh: Mesh, ops: FloatModel, index: map<Name, nat>, p: nat, j: nat): (c: Corner)
    requires ValidMesh(obj, mesh)
    requires p < |mesh.polygons| && j < |mesh.polygons[p].vertices|
    ensures c.key.src == c.record.src == mesh.polygons[p].vertices[j] < |mesh.vertices|
    ensures c.record.normal == mesh.vertices[c.record.src].normal && c.key.key.weights == c.record.weights
    ensures |c.key.key.groups| == 4 && |c.record.boneIds| == 4 && |c.record.weights| == 3
  {
    var src := mesh.polygons[p].vertices[j];
    var vert := mesh.vertices[src];
    var uv := UVAt(mesh, p, j);
    var groups := GroupsToTuple4(GroupIds(vert.groups));
    var weights := WeightsToTuple3(GroupWeights(vert.groups), ops.round6);
    Corner(ScopedKey(src, WeldKey(Rvec2(uv, ops.round6), Rvec3(vert.normal, ops.round6), groups, weights)),
           OutVertex(src, uv, vert.normal, BoneIds(groups, obj.groupNames, index), weights))
  }

  /** Loop `j` of polygon `p` references a vertex assigned to at least one vertex group. */
  predicate LoopSkinned(mesh: Mesh, p: nat, j: nat)
    requires p < |mesh.polygons| && j < |mesh.polygons[p].vertices|
  {
    mesh.polygons[p].vertices[j] < |mesh.vertices| && |mesh.vertices[mesh.polygons[p].vertices[j]].groups| != 0
  }

  /** Some loop among the first `k` of polygon `p` references a vertex with groups. */
  predicate SkinnedLoops(mesh: Mesh, p: nat, k: nat)
    requires p < |mesh.polygons| && k <= |mesh.polygons[p].vertices|
  {
    k > 0 && (SkinnedLoops(mesh, p, k - 1) || LoopSkinned(mesh, p, k - 1))
  }

  /** Some loop of polygon `p` references a vertex with groups. */
  predicate PolygonSkinned(mesh: Mesh, p: nat)
    requires p < |mesh.polygons|
  {
    SkinnedLoops(mesh, p, |mesh.polygons[p].vertices|)
  }

  lemma {:induction false} SkinnedLoopsGrows(mesh: Mesh, p: nat, k: nat, m: nat)
    requires p < |mesh.polygons| && k <= m <= |mesh.polygons[p].vertices| && SkinnedLoops(mesh, p, k)
    ensures SkinnedLoops(mesh, p, m)
  {
    if k < m {
      SkinnedLoopsGrows(mesh, p, k, m - 1);
    }
  }

  /** Some loop of the first `n` polygons references a vertex with groups. */
  predicate SkinnedBefore(mesh: Mesh, n: nat)
    requires n <= |mesh.polygons|
  {
    n > 0 && (SkinnedBefore(mesh, n - 1) || PolygonSkinned(mesh, n - 1))
  }

  /** Once a skinned polygon is seen, every longer prefix contains it. */
  lemma {:induction false} SkinnedBeforeGrows(mesh: Mesh, n: nat, m: nat)
    requires n <= m <= |mesh.polygons| && SkinnedBefore(mesh, n)
    ensures SkinnedBefore(mesh, m)
  {
    if n < m {
      SkinnedBeforeGrows(mesh, n, m - 1);
    }
  }

  /** The loops of polygon `p` as corners, in loop order. */
  function GridRow(obj: MeshObject, mesh: Mesh, ops: FloatModel, index: map<Name, nat>, p: nat): (row: seq<Corner>)
    requires ValidMesh(obj, mesh) && p < |mesh.polygons|
    ensures |row| == |mesh.polygons[p].vertices|
    ensures forall j :: 0 <= j < |row| ==> row[j] == CornerAt(obj, mesh, ops, index, p, j)
  {
    seq(|mesh.polygons[p].vertices|, j requires 0 <= j < |mesh.polygons[p].vertices| =>
      CornerAt(obj, mesh, ops, index, p, j))
  }

  /** Row `p` of `grid` is polygon `p`'s corners. */
  predicate HoldsRow(obj: MeshObject, mesh: Mesh, ops: FloatModel, index: map<Name, nat>, grid: seq<seq<Corner>>, p: nat)
    requires ValidMesh(obj, mesh) && p < |mesh.polygons|
  {
    p < |grid| && grid[p] == GridRow(obj, mesh, ops, index, p)
  }

  /** Every loop of every polygon as a corner, one row per polygon. */
  function Grid(obj: MeshObject, mesh: Mesh, ops: FloatModel, index: map<Name, nat>): (g: seq<seq<Corner>>)
    requires ValidMesh(obj, mesh)
    ensures |g| == |mesh.polygons|
    ensures forall p :: 0 <= p < |g| ==> g[p] == GridRow(obj, mesh, ops, index, p)
  {
    seq(|mesh.polygons|, p requires 0 <= p < |mesh.polygons| => GridRow(obj, mesh, ops, index, p))
  }

  /** The total number of loops of `polys`. */
  function LoopCount(polys: seq<Polygon>): nat
  {
    if polys == [] then 0 else LoopCount(polys[..|polys| - 1]) + |polys[|polys| - 1].vertices|
  }

  // ---------------------------------------------------------------------
  // The welder as a fold over the loops
  // ---------------------------------------------------------------------

  /** The welder's running state: one dictionary per source vertex, and the output vertices so far. */
  datatype WeldState = WeldState(dicts: seq<map<WeldKey, nat>>, verts: seq<OutVertex>)

  function InitialState(n: nat): (st: WeldState)
    ensures |st.dicts| == n && st.verts == []
    ensures forall s :: 0 <= s < n ==> st.dicts[s] == map[]
  {
    WeldState(seq(n, _ => map[]), [])
  }

  /** `d` with `k` bound to `v`. */
  function Bind(d: map<WeldKey, nat>, k: WeldKey, v: nat): map<WeldKey, nat> { d[k := v] }

  /**
   * The index a loop receives: its key's entry in its vertex's dictionary
   * when present, and otherwise the next free index. Loops always reference
   * an existing vertex (`ValidMesh`); the range test only keeps this total.
   */
  function StepIndex(st: WeldState, c: Corner): nat
  {
    if c.key.src < |st.dicts| && c.key.key in st.dicts[c.key.src] then st.dicts[c.key.src][c.key.key]
    else |st.verts|
  }

  /** The state after one loop: unchanged when its key is already known, else its record appended and indexed. */
  function WeldStep(st: WeldState, c: Corner): (r: WeldState)
    ensures |r.dicts| == |st.dicts|
    ensures r.verts == st.verts || r.verts == st.verts + [c.record]
    ensures c.key.src < |st.dicts| ==> (r.verts == st.verts <==> c.key.key in st.dicts[c.key.src])
  {
    if c.key.src < |st.dicts| && c.key.key in st.dicts[c.key.src] then st
    else if c.key.src < |st.dicts| then
      WeldState(st.dicts[c.key.src := Bind(st.dicts[c.key.src], c.key.key, |st.verts|)], st.verts + [c.record])
    else WeldState(st.dicts, st.verts + [c.record])
  }

  /** Welding the first `k` corners of `row` from `st`: the state and the index each corner receives. */
  function ScanRow(st: WeldState, row: seq<Corner>, k: nat): (r: (WeldState, seq<nat>))
    requires k <= |row|
    ensures |r.0.dicts| == |st.dicts| && |r.1| == k
  {
    if k == 0 then (st, [])
    else
      var r := ScanRow(st, row, k - 1);
      (WeldStep(r.0, row[k - 1]), r.1 + [StepIndex(r.0, row[k - 1])])
  }

  /** Welding the first `n` rows of `g` from `st`: the state and one index list per row. */
  function ScanGrid(st: WeldState, g: seq<seq<Corner>>, n: nat): (r: (WeldState, seq<seq<nat>>))
    requires n <= |g|
    ensures |r.0.dicts| == |st.dicts| && |r.1| == n
  {
    if n == 0 then (st, [])
    else
      var r := ScanGrid(st, g, n - 1);
      var q := ScanRow(r.0, g[n - 1], |g[n - 1]|);
      (q.0, r.1 + [q.1])
  }

  /** One more row of the grid: the row is scanned from the state the earlier rows left. */
  lemma ScanGridStep(st: WeldState, g: seq<seq<Corner>>, n: nat, mid: WeldState, tris: seq<seq<nat>>,
                     next: WeldState, tri: seq<nat>)
    requires n < |g| && ScanGrid(st, g, n) == (mid, tris)
    requires (next, tri) == ScanRow(mid, g[n], |g[n]|)
    ensures ScanGrid(st, g, n + 1) == (next, tris + [tri])
  {
  }

  /**
   * What `decompose_mesh_data` returns or raises: the armature's capacity
   * errors first; then, without an armature, the skinning error when any
   * loop's vertex has groups; otherwise the welded vertices and triangles.
   * Module WeldFacts states what they are in first-seen terms.
   */
  function WeldMesh(obj: MeshObject, mesh: Mesh, ops: FloatModel): (r: Result<Welded, ExportError>)
    requires ValidMesh(obj, mesh)
    ensures r.Ok? ==> |r.value.tris| == |mesh.polygons|
    ensures r.Err? ==> r.error == SkinWithoutArmature || r.error.TooManyDeformChildren? || r.error.TooManyDeformBones?
    ensures r.Err? && r.error == SkinWithoutArmature ==> obj.armature.None?
  {
    if obj.armature.Some? && BuildBoneTable(obj.armature.value).Err? then
      Err(BuildBoneTable(obj.armature.value).error)
    else if obj.armature.None? && SkinnedBefore(mesh, |mesh.polygons|) then Err(SkinWithoutArmature)
    else
      var g := Grid(obj, mesh, ops, TableIndex(obj));
      var r := ScanGrid(InitialState(|mesh.vertices|), g, |g|);
      Ok(Welded(r.0.verts, r.1))
  }

  // ---------------------------------------------------------------------
  // The source's loop
  // ---------------------------------------------------------------------

  /**
   * `decompose_mesh_data`: one pass over the polygons and their loops with a
   * dictionary per source vertex; its outcome is exactly `WeldMesh`.
   */
  method DecomposeMesh(obj: MeshObject, mesh: Mesh, ops: FloatModel) returns (r: Result<Welded, ExportError>)
    requires ValidMesh(obj, mesh)
    ensures r == WeldMesh(obj, mesh, ops)
  {
    var index: map<Name, nat> := map[];
    var hasArmature := obj.armature.Some?;
    if hasArmature {
      var table := DecomposeArmature(obj.armature.value);
      if table.Err? {
        return Err(table.error);
      }
      index := table.value.index;
    }
    assert index == TableIndex(obj);
    ghost var grid := Grid(obj, mesh, ops, index);
    r := WeldPolygons(obj, mesh, ops, index, hasArmature, grid);
  }

  /**
   * The polygon loop of `decompose_mesh_data`: every polygon's loops welded
   * in turn, or the skinning error for a vertex with groups when there is no
   * armature.
   */
  method WeldPolygons(obj: MeshObject, mesh: Mesh, ops: FloatModel, index: map<Name, nat>, hasArmature: bool,
                      ghost grid: seq<seq<Corner>>)
    returns (r: Result<Welded, ExportError>)
    requires ValidMesh(obj, mesh) && |grid| == |mesh.polygons|
    requires forall p :: 0 <= p < |grid| ==> HoldsRow(obj, mesh, ops, index, grid, p)
    ensures !hasArmature && SkinnedBefore(mesh, |mesh.polygons|) ==> r == Err(SkinWithoutArmature)
    ensures !(!hasArmature && SkinnedBefore(mesh, |mesh.polygons|)) ==>
              var scan := ScanGrid(InitialState(|mesh.vertices|), grid, |grid|);
              r == Ok(Welded(scan.0.verts, scan.1))
  {
    // One empty dictionary per source vertex.
    var outVertsDict: seq<map<WeldKey, nat>> := InitialState(|mesh.vertices|).dicts;
    var outVerts: seq<OutVertex> := [];
    var outTris: seq<seq<nat>> := [];
    var outVertCount: nat := 0;
    var i := 0;
    while i < |mesh.polygons|
      invariant 0 <= i <= |mesh.polygons|
      invariant outVertCount == |outVerts| && |outVertsDict| == |mesh.vertices|
      invariant (WeldState(outVertsDict, outVerts), outTris) == ScanGrid(InitialState(|mesh.vertices|), grid, i)
      invariant !hasArmature ==> !SkinnedBefore(mesh, i)
    {
      var skinError;
      skinError, outVertsDict, outVerts, outVertCount, outTris :=
        WeldPolygon(obj, mesh, ops, index, hasArmature, i, grid, outVertsDict, outVerts, outVertCount, outTris);
      if skinError {
        SkinnedBeforeGrows(mesh, i + 1, |mesh.polygons|);
        return Err(SkinWithoutArmature);
      }
      i := i + 1;
    }
    r := Ok(Welded(outVerts, outTris));
  }

  /** One turn of the polygon loop: polygon `i` welded and its triangle appended. */
  method WeldPolygon(obj: MeshObject, mesh: Mesh, ops: FloatModel, index: map<Name, nat>, hasArmature: bool,
                     i: nat, ghost grid: seq<seq<Corner>>,
                     outVertsDict: seq<map<WeldKey, nat>>, outVerts: seq<OutVertex>, outVertCount: nat,
                     outTris: seq<seq<nat>>)
    returns (skinError: bool, dicts: seq<map<WeldKey, nat>>, verts: seq<OutVertex>, count: nat,
             tris: seq<seq<nat>>)
    requires ValidMesh(obj, mesh) && i < |mesh.polygons| && |grid| == |mesh.polygons|
    requires forall p :: 0 <= p < |grid| ==> HoldsRow(obj, mesh, ops, index, grid, p)
    requires |outVertsDict| == |mesh.vertices| && outVertCount == |outVerts|
    requires (WeldState(outVertsDict, outVerts), outTris) == ScanGrid(InitialState(|mesh.vertices|), grid, i)
    ensures skinError <==> !hasArmature && PolygonSkinned(mesh, i)
    ensures !skinError ==>
              (WeldState(dicts, verts), tris) == ScanGrid(InitialState(|mesh.vertices|), grid, i + 1) &&
              |dicts| == |mesh.vertices| && count == |verts|
  {
    assert HoldsRow(obj, mesh, ops, index, grid, i);
    var tri;
    skinError, dicts, verts, count, tri :=
      DecomposePolygon(obj, mesh, ops, index, hasArmature, i, grid[i], outVertsDict, outVerts, outVertCount);
    tris := outTris + [tri];
    if !skinError {
      ScanGridStep(InitialState(|mesh.vertices|), grid, i, WeldState(outVertsDict, outVerts), outTris,
                   WeldState(dicts, verts), tri);
    }
  }

  /**
   * The body of the polygon loop of `decompose_mesh_data`: the loops of
   * polygon `i` in order, each welded into the state; `skinError` reports
   * the raise for a vertex with groups when there is no armature.
   */
  method DecomposePolygon(obj: MeshObject, mesh: Mesh, ops: FloatModel, index: map<Name, nat>, hasArmature: bool,
                          i: nat, ghost row: seq<Corner>,
                          outVertsDict: seq<map<WeldKey, nat>>, outVerts: seq<OutVertex>, outVertCount: nat)
    returns (skinError: bool, dicts: seq<map<WeldKey, nat>>, verts: seq<OutVertex>, count: nat, tri: seq<nat>)
    requires ValidMesh(obj, mesh) && i < |mesh.polygons|
    requires row == GridRow(obj, mesh, ops, index, i)
    requires |outVertsDict| == |mesh.vertices| && outVertCount == |outVerts|
    ensures skinError <==> !hasArmature && PolygonSkinned(mesh, i)
    ensures !skinError ==>
              (WeldState(dicts, verts), tri) == ScanRow(WeldState(outVertsDict, outVerts), row, |row|) &&
              |dicts| == |mesh.vertices| && count == |verts|
  {
    dicts, verts, count := outVertsDict, outVerts, outVertCount;
    skinError := false;
    var poly := mesh.polygons[i];
    tri := [];
    var j := 0;
    while j < |poly.vertices|
      invariant 0 <= j <= |poly.vertices|
      invariant count == |verts| && |dicts| == |mesh.vertices|
      invariant (WeldState(dicts, verts), tri) == ScanRow(WeldState(outVertsDict, outVerts), row, j)
      invariant !hasArmature ==> !SkinnedLoops(mesh, i, j)
    {
      var loopError, outVertIndex;
      loopError, dicts, verts, count, outVertIndex := WeldLoop(obj, mesh, ops, index, hasArmature, i, j, row, dicts, verts, count);
      if loopError {
        SkinnedLoopsGrows(mesh, i, j + 1, |poly.vertices|);
        return true, dicts, verts, count, tri;
      }
      tri := tri + [outVertIndex];
      j := j + 1;
    }
  }

  /**
   * The body of the loop over a polygon's loops: loop `j` of polygon `i` is
   * looked up in its vertex's dictionary and appended as a new output vertex
   * when its key is absent; `skinError` reports the raise for a vertex with
   * groups when there is no armature.
   */
  method WeldLoop(obj: MeshObject, mesh: Mesh, ops: FloatModel, index: map<Name, nat>, hasArmature: bool,
                  i: nat, j: nat, ghost row: seq<Corner>,
                  outVertsDict: seq<map<WeldKey, nat>>, outVerts: seq<OutVertex>, outVertCount: nat)
    returns (skinError: bool, dicts: seq<map<WeldKey, nat>>, verts: seq<OutVertex>, count: nat, outVertIndex: nat)
    requires ValidMesh(obj, mesh) && i < |mesh.polygons| && j < |mesh.polygons[i].vertices|
    requires row == GridRow(obj, mesh, ops, index, i)
    requires |outVertsDict| == |mesh.vertices| && outVertCount == |outVerts|
    ensures skinError <==> !hasArmature && |mesh.vertices[mesh.polygons[i].vertices[j]].groups| != 0
    ensures !skinError ==>
              var st := WeldState(outVertsDict, outVerts);
              var c := row[j];
              WeldState(dicts, verts) == WeldStep(st, c) && outVertIndex == StepIndex(st, c) &&
              |dicts| == |mesh.vertices| && count == |verts|
  {
    dicts, verts, count := outVertsDict, outVerts, outVertCount;
    var poly := mesh.polygons[i];
    var vertIndex := poly.vertices[j];
    var vert := mesh.vertices[vertIndex];
    var uvs := if mesh.uvLayer.Some? then mesh.uvLayer.value[poly.loopStart + j] else Vec2(Zero, Zero);
    var normal := vert.normal;
    if |vert.groups| != 0 && !hasArmature {
      return true, dicts, verts, count, 0;
    }
    skinError := false;
    var groups := GroupsToTuple4(GroupIds(vert.groups));
    var weights := WeightsToTuple3(GroupWeights(vert.groups), ops.round6);
    var dictLocal := dicts[vertIndex];
    var key := WeldKey(Rvec2(uvs, ops.round6), Rvec3(normal, ops.round6), groups, weights);
    if key in dictLocal {
      outVertIndex := dictLocal[key];
    } else {
      var boneIds := ResolveBoneIds(groups, obj.groupNames, index);
      outVertIndex := count;
      dicts := dicts[vertIndex := Bind(dictLocal, key, count)];
      verts := verts + [OutVertex(vertIndex, uvs, normal, boneIds, weights)];
      count := count + 1;
    }
  }
}

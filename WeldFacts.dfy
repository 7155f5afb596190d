/**
 * What `decompose_mesh_data` promises, stated on `WeldMesh` in terms of the
 * mesh: one in-range index per loop in loop order, two loops sharing an
 * output vertex exactly when their vertex and key agree, output vertices
 * numbered densely in first-seen order with no more of them than loops,
 * each recording its own source vertex and resolved bone ids, and the
 * skinning error raised exactly when some loop's vertex has groups but
 * there is no armature. The first-seen reasoning itself is in WeldScan.
 */
module WeldFacts {
  import opened Wrappers
  import opened Values
  import opened ExportErrors
  import opened Armature
  import opened Dedup
  import opened MeshWeld
  import opened WeldScan

  /** The loops of the whole mesh as corners, one row per polygon. */
  function MeshGrid(obj: MeshObject, mesh: Mesh, ops: FloatModel): (g: seq<seq<Corner>>)
    requires ValidMesh(obj, mesh)
    ensures |g| == |mesh.polygons|
    ensures forall p :: 0 <= p < |g| ==> g[p] == GridRow(obj, mesh, ops, TableIndex(obj), p)
  {
    Grid(obj, mesh, ops, TableIndex(obj))
  }

  /** All loops of the mesh in polygon and loop order. */
  function AllLoops(obj: MeshObject, mesh: Mesh, ops: FloatModel): seq<Corner>
    requires ValidMesh(obj, mesh)
  {
    Flat(MeshGrid(obj, mesh, ops), |mesh.polygons|)
  }

  /** Every loop's key and record name the loop's own vertex, an existing one. */
  lemma GridInRange(obj: MeshObject, mesh: Mesh, ops: FloatModel)
    requires ValidMesh(obj, mesh)
    ensures InRange(MeshGrid(obj, mesh, ops), |mesh.vertices|)
    ensures RecordsOwnVertex(MeshGrid(obj, mesh, ops))
    ensures forall p, j :: 0 <= p < |mesh.polygons| && 0 <= j < |mesh.polygons[p].vertices| ==>
              MeshGrid(obj, mesh, ops)[p][j].key.src == mesh.polygons[p].vertices[j]
  {
    var g: seq<seq<Corner>> := MeshGrid(obj, mesh, ops);
    forall p: int, j: int | 0 <= p < |g| && 0 <= j < |g[p]|
      ensures g[p][j].key.src == mesh.polygons[p].vertices[j] && g[p][j].record.src == g[p][j].key.src
      ensures g[p][j].key.src < |mesh.vertices|
    {
      assert g[p][j] == CornerAt(obj, mesh, ops, TableIndex(obj), p, j);
    }
  }

  /** A successful weld is the first-seen outcome for the mesh's loops. */
  lemma WeldMeshFirstSeen(obj: MeshObject, mesh: Mesh, ops: FloatModel)
    requires ValidMesh(obj, mesh) && WeldMesh(obj, mesh, ops).Ok?
    ensures FirstSeen(WeldMesh(obj, mesh, ops).value.verts, WeldMesh(obj, mesh, ops).value.tris, MeshGrid(obj, mesh, ops))
  {
    GridInRange(obj, mesh, ops);
    WeldGrid(|mesh.vertices|, MeshGrid(obj, mesh, ops));
  }

  // ---------------------------------------------------------------------
  // Triangles
  // ---------------------------------------------------------------------

  /**
   * One index list per polygon, one index per loop in loop order, each
   * naming an output vertex: the position of the loop's key among the
   * distinct keys of all loops in first-seen order.
   */
  lemma TrianglesIndexLoops(obj: MeshObject, mesh: Mesh, ops: FloatModel)
    requires ValidMesh(obj, mesh) && WeldMesh(obj, mesh, ops).Ok?
    ensures var w := WeldMesh(obj, mesh, ops).value;
            |w.tris| == |mesh.polygons| &&
            (forall p :: 0 <= p < |w.tris| ==> |w.tris[p]| == |mesh.polygons[p].vertices|) &&
            (forall p, j :: 0 <= p < |w.tris| && 0 <= j < |w.tris[p]| ==>
               w.tris[p][j] < |w.verts| &&
               w.tris[p][j] == IndexOf(KeysSeen(AllLoops(obj, mesh, ops)), CornerAt(obj, mesh, ops, TableIndex(obj), p, j).key))
  {
    var w := WeldMesh(obj, mesh, ops).value;
    WeldMeshFirstSeen(obj, mesh, ops);
    IndicesInRange(w.verts, w.tris, MeshGrid(obj, mesh, ops));
  }

  /**
   * Two loops share an output vertex exactly when they reference the same
   * source vertex and build the same key (rounded UV, rounded normal,
   * groups, weights).
   */
  lemma SharedVertexIffSameKey(obj: MeshObject, mesh: Mesh, ops: FloatModel, p: nat, j: nat, q: nat, k: nat)
    requires ValidMesh(obj, mesh) && WeldMesh(obj, mesh, ops).Ok?
    requires p < |mesh.polygons| && j < |mesh.polygons[p].vertices|
    requires q < |mesh.polygons| && k < |mesh.polygons[q].vertices|
    ensures var w := WeldMesh(obj, mesh, ops).value;
            p < |w.tris| && j < |w.tris[p]| && q < |w.tris| && k < |w.tris[q]| &&
            (w.tris[p][j] == w.tris[q][k] <==>
               CornerAt(obj, mesh, ops, TableIndex(obj), p, j).key == CornerAt(obj, mesh, ops, TableIndex(obj), q, k).key)
  {
    var w := WeldMesh(obj, mesh, ops).value;
    WeldMeshFirstSeen(obj, mesh, ops);
    SameIndexIffSameKey(w.verts, w.tris, MeshGrid(obj, mesh, ops), p, j, q, k);
  }

  /** Loops of different source vertices never share an output vertex. */
  lemma NoMergeAcrossVertices(obj: MeshObject, mesh: Mesh, ops: FloatModel, p: nat, j: nat, q: nat, k: nat)
    requires ValidMesh(obj, mesh) && WeldMesh(obj, mesh, ops).Ok?
    requires p < |mesh.polygons| && j < |mesh.polygons[p].vertices|
    requires q < |mesh.polygons| && k < |mesh.polygons[q].vertices|
    requires mesh.polygons[p].vertices[j] != mesh.polygons[q].vertices[k]
    ensures var w := WeldMesh(obj, mesh, ops).value;
            p < |w.tris| && j < |w.tris[p]| && q < |w.tris| && k < |w.tris[q]| && w.tris[p][j] != w.tris[q][k]
  {
    SharedVertexIffSameKey(obj, mesh, ops, p, j, q, k);
    GridInRange(obj, mesh, ops);
  }

  // ---------------------------------------------------------------------
  // Output vertices
  // ---------------------------------------------------------------------

  /** A loop's output vertex is the record of the first loop, in polygon and loop order, with the same key. */
  lemma VertexOfFirstLoop(obj: MeshObject, mesh: Mesh, ops: FloatModel, p: nat, j: nat)
    requires ValidMesh(obj, mesh) && WeldMesh(obj, mesh, ops).Ok?
    requires p < |mesh.polygons| && j < |mesh.polygons[p].vertices|
    ensures var w := WeldMesh(obj, mesh, ops).value;
            var cs := AllLoops(obj, mesh, ops);
            var first := IndexOf(KeysOf(cs, CornerKey), CornerAt(obj, mesh, ops, TableIndex(obj), p, j).key);
            p < |w.tris| && j < |w.tris[p]| && w.tris[p][j] < |w.verts| && first < |cs| &&
            w.verts[w.tris[p][j]] == cs[first].record
  {
    var w := WeldMesh(obj, mesh, ops).value;
    WeldMeshFirstSeen(obj, mesh, ops);
    IndicesInRange(w.verts, w.tris, MeshGrid(obj, mesh, ops));
    VertexIsFirstRecord(w.verts, w.tris, MeshGrid(obj, mesh, ops), p, j);
  }

  /** Each output vertex records the source vertex of every loop that uses it. */
  lemma VertexRecordsSource(obj: MeshObject, mesh: Mesh, ops: FloatModel, p: nat, j: nat)
    requires ValidMesh(obj, mesh) && WeldMesh(obj, mesh, ops).Ok?
    requires p < |mesh.polygons| && j < |mesh.polygons[p].vertices|
    ensures var w := WeldMesh(obj, mesh, ops).value;
            p < |w.tris| && j < |w.tris[p]| && w.tris[p][j] < |w.verts| &&
            w.verts[w.tris[p][j]].src == mesh.polygons[p].vertices[j]
  {
    var w := WeldMesh(obj, mesh, ops).value;
    WeldMeshFirstSeen(obj, mesh, ops);
    GridInRange(obj, mesh, ops);
    IndicesInRange(w.verts, w.tris, MeshGrid(obj, mesh, ops));
    VertexFromOwnSource(w.verts, w.tris, MeshGrid(obj, mesh, ops), p, j);
  }

  /** Every output vertex is used by some loop, and is that loop's record. */
  lemma EveryVertexHasALoop(obj: MeshObject, mesh: Mesh, ops: FloatModel, v: nat)
    requires ValidMesh(obj, mesh) && WeldMesh(obj, mesh, ops).Ok?
    requires v < |WeldMesh(obj, mesh, ops).value.verts|
    ensures var w := WeldMesh(obj, mesh, ops).value;
            exists p, j :: 0 <= p < |mesh.polygons| && 0 <= j < |mesh.polygons[p].vertices| &&
              p < |w.tris| && j < |w.tris[p]| && w.tris[p][j] == v && w.verts[v] == CornerAt(obj, mesh, ops, TableIndex(obj), p, j).record
  {
    var w := WeldMesh(obj, mesh, ops).value;
    WeldMeshFirstSeen(obj, mesh, ops);
    EveryVertexUsed(w.verts, w.tris, MeshGrid(obj, mesh, ops), v);
  }

  /** There are never more output vertices than polygon loops. */
  lemma VertexCountAtMostLoops(obj: MeshObject, mesh: Mesh, ops: FloatModel)
    requires ValidMesh(obj, mesh) && WeldMesh(obj, mesh, ops).Ok?
    ensures |WeldMesh(obj, mesh, ops).value.verts| <= LoopCount(mesh.polygons)
  {
    var w := WeldMesh(obj, mesh, ops).value;
    var g := MeshGrid(obj, mesh, ops);
    WeldMeshFirstSeen(obj, mesh, ops);
    FewerVerticesThanCorners(w.verts, w.tris, g);
    FlatLength(g, mesh.polygons, |g|);
    assert mesh.polygons[..|g|] == mesh.polygons;
  }

  /**
   * A loop whose key no earlier loop has builds a new output vertex, whose
   * index is the number of distinct keys among the earlier loops.
   */
  lemma NewKeyGetsNextVertex(obj: MeshObject, mesh: Mesh, ops: FloatModel, p: nat, j: nat)
    requires ValidMesh(obj, mesh) && WeldMesh(obj, mesh, ops).Ok?
    requires p < |mesh.polygons| && j < |mesh.polygons[p].vertices|
    requires CornerAt(obj, mesh, ops, TableIndex(obj), p, j).key !in
               KeysOf(Flat(MeshGrid(obj, mesh, ops), p) + MeshGrid(obj, mesh, ops)[p][..j], CornerKey)
    ensures var w := WeldMesh(obj, mesh, ops).value;
            p < |w.tris| && j < |w.tris[p]| &&
            w.tris[p][j] == |Firsts(Flat(MeshGrid(obj, mesh, ops), p) + MeshGrid(obj, mesh, ops)[p][..j], CornerKey)|
  {
    var w := WeldMesh(obj, mesh, ops).value;
    WeldMeshFirstSeen(obj, mesh, ops);
    NewKeyNextIndex(w.verts, w.tris, MeshGrid(obj, mesh, ops), p, j);
  }

  // ---------------------------------------------------------------------
  // Bone ids
  // ---------------------------------------------------------------------

  /**
   * The bone ids a loop records: four slots, each the table index of the
   * bone named like the vertex group in that slot when the table has one,
   * and -1 for an empty slot, a group index of -1 or a group that names no
   * table bone.
   */
  lemma CornerBoneIds(obj: MeshObject, mesh: Mesh, ops: FloatModel, p: nat, j: nat)
    requires ValidMesh(obj, mesh)
    requires p < |mesh.polygons| && j < |mesh.polygons[p].vertices|
    ensures var r := CornerAt(obj, mesh, ops, TableIndex(obj), p, j).record;
            var gs := mesh.vertices[mesh.polygons[p].vertices[j]].groups;
            r.src == mesh.polygons[p].vertices[j] && |r.boneIds| == 4 &&
            forall s :: 0 <= s < 4 ==>
              r.boneIds[s] ==
                if s < |gs| && gs[s].group != -1 && obj.groupNames[gs[s].group] in TableIndex(obj) then TableIndex(obj)[obj.groupNames[gs[s].group]]
                else -1
  {
    var src := mesh.polygons[p].vertices[j];
    var gs := mesh.vertices[src].groups;
    var groups := GroupsToTuple4(GroupIds(gs));
    var index := TableIndex(obj);
    var ids := BoneIds(groups, obj.groupNames, index);
    assert CornerAt(obj, mesh, ops, index, p, j).record.boneIds == ids;
    forall s | 0 <= s < 4
      ensures ids[s] == if s < |gs| && gs[s].group != -1 && obj.groupNames[gs[s].group] in index then index[obj.groupNames[gs[s].group]] else -1
    {
      assert ids[s] == BoneIdOf(groups[s], obj.groupNames, index);
      if s < |gs| {
        assert groups[s] == gs[s].group && gs[s].group in obj.groupNames;
      } else {
        assert groups[s] == -1;
      }
    }
  }

  /**
   * Every bone id a loop records other than -1 is the position in the bone
   * table of the bone named like the vertex group in that slot.
   */
  lemma CornerBoneNames(obj: MeshObject, mesh: Mesh, ops: FloatModel, p: nat, j: nat)
    requires ValidMesh(obj, mesh)
    requires p < |mesh.polygons| && j < |mesh.polygons[p].vertices|
    ensures var r := CornerAt(obj, mesh, ops, TableIndex(obj), p, j).record;
            r.src < |mesh.vertices| && |r.boneIds| == 4 &&
            forall s :: 0 <= s < 4 ==>
              r.boneIds[s] == -1 ||
              (s < |mesh.vertices[r.src].groups| && obj.armature.Some? && BuildBoneTable(obj.armature.value).Ok? &&
               0 <= r.boneIds[s] < |BuildBoneTable(obj.armature.value).value.bones| &&
               BuildBoneTable(obj.armature.value).value.bones[r.boneIds[s]].name ==
                 obj.groupNames[mesh.vertices[r.src].groups[s].group])
  {
    CornerBoneIds(obj, mesh, ops, p, j);
    if obj.armature.Some? {
      BoneTableOutcome(obj.armature.value);
      if BuildBoneTable(obj.armature.value).Ok? {
        NameIndexSpec(BuildBoneTable(obj.armature.value).value.bones);
      }
    }
  }

  /**
   * Every output vertex carries four bone-id slots: the table index of the
   * bone named like the vertex group in that slot of its source vertex when
   * the table has one, and -1 otherwise.
   */
  lemma VertexBoneIds(obj: MeshObject, mesh: Mesh, ops: FloatModel, v: nat)
    requires ValidMesh(obj, mesh) && WeldMesh(obj, mesh, ops).Ok?
    requires v < |WeldMesh(obj, mesh, ops).value.verts|
    ensures var r := WeldMesh(obj, mesh, ops).value.verts[v];
            r.src < |mesh.vertices| && |r.boneIds| == 4 &&
            forall s :: 0 <= s < 4 ==>
              r.boneIds[s] == -1 ||
              (s < |mesh.vertices[r.src].groups| && obj.armature.Some? && BuildBoneTable(obj.armature.value).Ok? &&
               0 <= r.boneIds[s] < |BuildBoneTable(obj.armature.value).value.bones| &&
               BuildBoneTable(obj.armature.value).value.bones[r.boneIds[s]].name ==
                 obj.groupNames[mesh.vertices[r.src].groups[s].group])
    ensures var r := WeldMesh(obj, mesh, ops).value.verts[v];
            var gs := mesh.vertices[r.src].groups;
            r.src < |mesh.vertices| &&
            forall s :: 0 <= s < 4 ==>
              r.boneIds[s] ==
                if s < |gs| && gs[s].group != -1 && obj.groupNames[gs[s].group] in TableIndex(obj) then TableIndex(obj)[obj.groupNames[gs[s].group]]
                else -1
  {
    EveryVertexHasALoop(obj, mesh, ops, v);
    var w := WeldMesh(obj, mesh, ops).value;
    var p, j :| 0 <= p < |mesh.polygons| && 0 <= j < |mesh.polygons[p].vertices| &&
                p < |w.tris| && j < |w.tris[p]| && w.tris[p][j] == v &&
                w.verts[v] == CornerAt(obj, mesh, ops, TableIndex(obj), p, j).record;
    CornerBoneIds(obj, mesh, ops, p, j);
    CornerBoneNames(obj, mesh, ops, p, j);
  }

  // ---------------------------------------------------------------------
  // Errors
  // ---------------------------------------------------------------------

  lemma {:induction false} SkinnedLoopsExists(mesh: Mesh, p: nat, k: nat)
    requires p < |mesh.polygons| && k <= |mesh.polygons[p].vertices|
    ensures SkinnedLoops(mesh, p, k) <==> exists j :: 0 <= j < k && LoopSkinned(mesh, p, j)
  {
    if k > 0 {
      SkinnedLoopsExists(mesh, p, k - 1);
    }
  }

  lemma {:induction false} SkinnedBeforeExists(mesh: Mesh, n: nat)
    requires n <= |mesh.polygons|
    ensures SkinnedBefore(mesh, n) <==>
              exists p, j :: 0 <= p < n && 0 <= j < |mesh.polygons[p].vertices| && LoopSkinned(mesh, p, j)
  {
    if n > 0 {
      SkinnedBeforeExists(mesh, n - 1);
      SkinnedLoopsExists(mesh, n - 1, |mesh.polygons[n - 1].vertices|);
    }
  }

  /**
   * The welder fails with the bone table's error when the armature's
   * table cannot be built; without an armature it fails with the skinning
   * error exactly when some loop's vertex is assigned to a vertex group;
   * otherwise it succeeds.
   */
  lemma WeldMeshErrors(obj: MeshObject, mesh: Mesh, ops: FloatModel)
    requires ValidMesh(obj, mesh)
    ensures obj.armature.Some? ==>
              (WeldMesh(obj, mesh, ops).Err? <==> BuildBoneTable(obj.armature.value).Err?) &&
              (WeldMesh(obj, mesh, ops).Err? ==> WeldMesh(obj, mesh, ops).error == BuildBoneTable(obj.armature.value).error)
    ensures obj.armature.None? ==>
              (WeldMesh(obj, mesh, ops).Err? <==>
                 exists p, j :: 0 <= p < |mesh.polygons| && 0 <= j < |mesh.polygons[p].vertices| && LoopSkinned(mesh, p, j)) &&
              (WeldMesh(obj, mesh, ops).Err? ==> WeldMesh(obj, mesh, ops).error == SkinWithoutArmature)
  {
    SkinnedBeforeExists(mesh, |mesh.polygons|);
  }
}

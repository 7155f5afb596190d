/**
 * The welding fold over any grid of corners (rows are polygons, cells are
 * loops), independent of where the corners come from. Here the fold is shown
 * to agree with first-seen deduplication of the corners' scoped keys in
 * row-major order: the output vertices are the records of the first corner
 * of each key, and each corner receives its key's first-seen index.
 */
module WeldScan {
  import opened Seqs
  import opened Dedup
  import opened MeshWeld

  /** The output records of the kept corners, in order. */
  function Records(f: seq<Corner>): (r: seq<OutVertex>)
    ensures |r| == |f| && forall v :: 0 <= v < |f| ==> r[v] == f[v].record
  {
    seq(|f|, v requires 0 <= v < |f| => f[v].record)
  }

  /** The distinct scoped keys of `cs`, in order of first appearance. */
  function KeysSeen(cs: seq<Corner>): (ks: seq<ScopedKey>)
    ensures |ks| == |Firsts(cs, CornerKey)|
  {
    KeysOf(Firsts(cs, CornerKey), CornerKey)
  }

  /** Each vertex's dictionary holds exactly the keys of `ks` scoped to that vertex, mapped to their position. */
  ghost predicate DictsAgree(dicts: seq<map<WeldKey, nat>>, ks: seq<ScopedKey>) {
    (forall s, k :: 0 <= s < |dicts| ==> (k in dicts[s] <==> ScopedKey(s, k) in ks)) &&
    (forall s, k :: 0 <= s < |dicts| && k in dicts[s] ==> dicts[s][k] == IndexOf(ks, ScopedKey(s, k)))
  }

  /**
   * `st` is the welder's state after the corners `seen`: its output vertices
   * are the records of the first-seen corners, and its dictionaries index
   * the first-seen keys.
   */
  ghost predicate Agrees(st: WeldState, seen: seq<Corner>) {
    st.verts == Records(Firsts(seen, CornerKey)) && DictsAgree(st.dicts, KeysSeen(seen))
  }

  /** Every corner of `g` names a source vertex below `n`. */
  predicate InRange(g: seq<seq<Corner>>, n: nat) {
    forall p, j :: 0 <= p < |g| && 0 <= j < |g[p]| ==> g[p][j].key.src < n
  }

  /** Every corner's record comes from the corner's own source vertex. */
  predicate RecordsOwnVertex(g: seq<seq<Corner>>) {
    forall p, j :: 0 <= p < |g| && 0 <= j < |g[p]| ==> g[p][j].record.src == g[p][j].key.src
  }

  /**
   * `tris` has one index list per row of a prefix of `g`, giving every corner
   * of those rows the position of its key in `ks`, a key `ks` holds.
   */
  predicate IndexedBy(tris: seq<seq<nat>>, g: seq<seq<Corner>>, ks: seq<ScopedKey>) {
    |tris| <= |g| &&
    (forall p :: 0 <= p < |tris| ==> |tris[p]| == |g[p]|) &&
    (forall p, j :: 0 <= p < |tris| && 0 <= j < |g[p]| ==>
       g[p][j].key in ks && tris[p][j] == IndexOf(ks, g[p][j].key))
  }

  /**
   * A welder outcome in first-seen terms for the corners `g`: the output
   * vertices are the records of the first corner of each distinct key in
   * row-major order, and every corner gets its key's position among the
   * distinct keys.
   */
  ghost predicate FirstSeen(verts: seq<OutVertex>, tris: seq<seq<nat>>, g: seq<seq<Corner>>) {
    verts == Records(Firsts(Flat(g, |g|), CornerKey)) && |tris| == |g| &&
    IndexedBy(tris, g, KeysSeen(Flat(g, |g|)))
  }

  /** The corners of the first `n` rows of `g`, in row-major order. */
  function Flat(g: seq<seq<Corner>>, n: nat): seq<Corner>
    requires n <= |g|
  {
    if n == 0 then [] else Flat(g, n - 1) + g[n - 1]
  }

  // ---------------------------------------------------------------------
  // One step
  // ---------------------------------------------------------------------

  lemma RecordsAppend(f: seq<Corner>, c: Corner)
    ensures Records(f + [c]) == Records(f) + [c.record]
  {
    assert forall v :: 0 <= v < |f| ==> (f + [c])[v] == f[v];
  }

  /** The empty dictionaries agree with having seen nothing. */
  lemma InitialAgrees(n: nat)
    ensures Agrees(InitialState(n), [])
  {
    assert Firsts<Corner, ScopedKey>([], CornerKey) == [];
  }

  /** Recording a new key under the next index keeps the dictionaries in step with the grown key list. */
  lemma DictsInsert(dicts: seq<map<WeldKey, nat>>, ks: seq<ScopedKey>, src: nat, k0: WeldKey)
    requires DictsAgree(dicts, ks) && src < |dicts| && ScopedKey(src, k0) !in ks
    ensures DictsAgree(dicts[src := Bind(dicts[src], k0, |ks|)], ks + [ScopedKey(src, k0)])
  {
    var ks2 := ks + [ScopedKey(src, k0)];
    var d2 := dicts[src := Bind(dicts[src], k0, |ks|)];
    IndexOfAppendNew(ks, ScopedKey(src, k0));
    forall s, k | 0 <= s < |d2|
      ensures k in d2[s] <==> ScopedKey(s, k) in ks2
      ensures k in d2[s] ==> d2[s][k] == IndexOf(ks2, ScopedKey(s, k))
    {
      if (s != src || k != k0) && k in d2[s] {
        assert k in dicts[s];
        IndexOfExtend(ks, [ScopedKey(src, k0)], ScopedKey(s, k));
      }
    }
  }

  /** A corner whose key is new is kept: appended to the records and indexed next. */
  lemma StepNew(st: WeldState, seen: seq<Corner>, c: Corner)
    requires Agrees(st, seen) && c.key.src < |st.dicts| && c.key.key !in st.dicts[c.key.src]
    ensures Agrees(WeldStep(st, c), seen + [c])
    ensures c.key in KeysSeen(seen + [c]) && StepIndex(st, c) == IndexOf(KeysSeen(seen + [c]), c.key)
  {
    var f := Firsts(seen, CornerKey);
    assert c.key == ScopedKey(c.key.src, c.key.key);
    assert c.key !in KeysSeen(seen);
    FirstsNew(seen, c, CornerKey);
    DictsInsert(st.dicts, KeysSeen(seen), c.key.src, c.key.key);
    RecordsAppend(f, c);
  }

  /** One welding step keeps the agreement, and the index it hands out is the key's first-seen index. */
  lemma StepAgrees(st: WeldState, seen: seq<Corner>, c: Corner)
    requires Agrees(st, seen) && c.key.src < |st.dicts|
    ensures Agrees(WeldStep(st, c), seen + [c])
    ensures c.key in KeysSeen(seen + [c]) && StepIndex(st, c) == IndexOf(KeysSeen(seen + [c]), c.key)
  {
    if c.key.key in st.dicts[c.key.src] {
      FirstsStep(seen, c, CornerKey);
      assert c.key == ScopedKey(c.key.src, c.key.key);
    } else {
      StepNew(st, seen, c);
    }
  }

  // ---------------------------------------------------------------------
  // A row, a grid
  // ---------------------------------------------------------------------

  /** Welding corners of `row` after `seen` keeps the agreement and hands each corner its first-seen index. */
  lemma {:induction false} ScanRowAgrees(st: WeldState, seen: seq<Corner>, row: seq<Corner>, k: nat)
    requires Agrees(st, seen) && k <= |row|
    requires forall a :: 0 <= a < |row| ==> row[a].key.src < |st.dicts|
    ensures Agrees(ScanRow(st, row, k).0, seen + row[..k])
    ensures forall a :: 0 <= a < k ==>
              row[a].key in KeysSeen(seen + row[..k]) && ScanRow(st, row, k).1[a] == IndexOf(KeysSeen(seen + row[..k]), row[a].key)
  {
    if k == 0 {
      assert seen + row[..k] == seen;
    } else {
      ScanRowAgrees(st, seen, row, k - 1);
      var q := ScanRow(st, row, k - 1);
      var prefix := seen + row[..k - 1];
      StepAgrees(q.0, prefix, row[k - 1]);
      TakeOneMore(row, k - 1);
      AppendAssoc(seen, row[..k - 1], [row[k - 1]]);
      RowStep(prefix, row, k, q.1, ScanRow(st, row, k).1);
    }
  }

  /** Indices handed out for the first `k - 1` corners of `row` keep their meaning once corner `k - 1` is seen. */
  lemma RowStep(prefix: seq<Corner>, row: seq<Corner>, k: nat, before: seq<nat>, after: seq<nat>)
    requires 0 < k <= |row| && |before| == k - 1 && |after| == k && after[..k - 1] == before
    requires forall a :: 0 <= a < k - 1 ==>
               row[a].key in KeysSeen(prefix) && before[a] == IndexOf(KeysSeen(prefix), row[a].key)
    requires row[k - 1].key in KeysSeen(prefix + [row[k - 1]])
    requires after[k - 1] == IndexOf(KeysSeen(prefix + [row[k - 1]]), row[k - 1].key)
    ensures forall a :: 0 <= a < k ==>
              row[a].key in KeysSeen(prefix + [row[k - 1]]) &&
              after[a] == IndexOf(KeysSeen(prefix + [row[k - 1]]), row[a].key)
  {
    forall a | 0 <= a < k - 1
      ensures row[a].key in KeysSeen(prefix + [row[k - 1]])
      ensures after[a] == IndexOf(KeysSeen(prefix + [row[k - 1]]), row[a].key)
    {
      assert after[a] == before[a];
      FirstsKeysStable(prefix, [row[k - 1]], CornerKey, row[a].key);
    }
  }

  /** Welding the rows of `g` after `seen` keeps the agreement and hands each corner its first-seen index. */
  lemma {:induction false} ScanGridAgrees(st: WeldState, seen: seq<Corner>, g: seq<seq<Corner>>, n: nat)
    requires Agrees(st, seen) && n <= |g| && InRange(g, |st.dicts|)
    ensures Agrees(ScanGrid(st, g, n).0, seen + Flat(g, n))
    ensures IndexedBy(ScanGrid(st, g, n).1, g, KeysSeen(seen + Flat(g, n)))
  {
    if n == 0 {
      assert seen + Flat(g, n) == seen;
    } else {
      ScanGridAgrees(st, seen, g, n - 1);
      var q := ScanGrid(st, g, n - 1);
      var row := g[n - 1];
      ScanRowAgrees(q.0, seen + Flat(g, n - 1), row, |row|);
      assert row[..|row|] == row;
      AppendAssoc(seen, Flat(g, n - 1), row);
      OldRowsStable(seen + Flat(g, n - 1), row, q.1, g, ScanRow(q.0, row, |row|).1);
    }
  }

  /** Index lists of earlier rows keep their meaning once the corners `row` are seen. */
  lemma OldRowsStable(seen: seq<Corner>, row: seq<Corner>, tris: seq<seq<nat>>, g: seq<seq<Corner>>, last: seq<nat>)
    requires |tris| < |g| && g[|tris|] == row && |last| == |row|
    requires IndexedBy(tris, g, KeysSeen(seen))
    requires forall a :: 0 <= a < |row| ==>
               row[a].key in KeysSeen(seen + row) && last[a] == IndexOf(KeysSeen(seen + row), row[a].key)
    ensures IndexedBy(tris + [last], g, KeysSeen(seen + row))
  {
    var t := tris + [last];
    forall p, j | 0 <= p < |t| && 0 <= j < |g[p]|
      ensures g[p][j].key in KeysSeen(seen + row) && t[p][j] == IndexOf(KeysSeen(seen + row), g[p][j].key)
    {
      if p < |tris| {
        FirstsKeysStable(seen, row, CornerKey, g[p][j].key);
      }
    }
  }

  // ---------------------------------------------------------------------
  // The whole grid
  // ---------------------------------------------------------------------

  /** Welding every row of `g` from empty dictionaries yields the first-seen outcome. */
  lemma WeldGrid(m: nat, g: seq<seq<Corner>>)
    requires InRange(g, m)
    ensures FirstSeen(ScanGrid(InitialState(m), g, |g|).0.verts, ScanGrid(InitialState(m), g, |g|).1, g)
  {
    InitialAgrees(m);
    ScanGridAgrees(InitialState(m), [], g, |g|);
    assert [] + Flat(g, |g|) == Flat(g, |g|);
  }

  /** Flattening more rows only extends the flat order. */
  lemma {:induction false} FlatGrows(g: seq<seq<Corner>>, m: nat, n: nat)
    requires m <= n <= |g|
    ensures |Flat(g, m)| <= |Flat(g, n)| && Flat(g, n)[..|Flat(g, m)|] == Flat(g, m)
  {
    if m < n {
      FlatGrows(g, m, n - 1);
      assert Flat(g, n)[..|Flat(g, n - 1)|] == Flat(g, n - 1);
    } else {
      assert Flat(g, n)[..|Flat(g, n)|] == Flat(g, n);
    }
  }

  /**
   * Corner `j` of row `p` sits at position `|Flat(g, p)| + j` of the flat
   * order, preceded by the rows before `p` and the corners of row `p`
   * before `j`.
   */
  lemma FlatCell(g: seq<seq<Corner>>, p: nat, j: nat)
    requires p < |g| && j < |g[p]|
    ensures |Flat(g, p)| + j < |Flat(g, |g|)|
    ensures Flat(g, |g|)[|Flat(g, p)| + j] == g[p][j]
    ensures Flat(g, |g|)[..|Flat(g, p)| + j] == Flat(g, p) + g[p][..j]
  {
    FlatGrows(g, p + 1, |g|);
    var f := Flat(g, |g|);
    var a := |Flat(g, p)| + j;
    assert f[..|Flat(g, p + 1)|] == Flat(g, p) + g[p];
    assert f[..a] == (Flat(g, p) + g[p])[..a];
  }

  /** Every position of the flat order is some corner of some row. */
  lemma {:induction false} FlatOrigin(g: seq<seq<Corner>>, n: nat, a: nat)
    requires n <= |g| && a < |Flat(g, n)|
    ensures exists p, j :: 0 <= p < n && 0 <= j < |g[p]| && Flat(g, n)[a] == g[p][j]
  {
    if a < |Flat(g, n - 1)| {
      FlatOrigin(g, n - 1, a);
      var p, j :| 0 <= p < n - 1 && 0 <= j < |g[p]| && Flat(g, n - 1)[a] == g[p][j];
      assert Flat(g, n)[a] == Flat(g, n - 1)[a];
    } else {
      assert Flat(g, n)[a] == g[n - 1][a - |Flat(g, n - 1)|];
    }
  }

  /** The flat order holds as many corners as the polygons `polys` have loops. */
  lemma {:induction false} FlatLength(g: seq<seq<Corner>>, polys: seq<Polygon>, n: nat)
    requires |g| == |polys| && n <= |g|
    requires forall p :: 0 <= p < |g| ==> |g[p]| == |polys[p].vertices|
    ensures |Flat(g, n)| == LoopCount(polys[..n])
  {
    if n > 0 {
      FlatLength(g, polys, n - 1);
      assert polys[..n][..n - 1] == polys[..n - 1];
    }
  }

  /** In a list of distinct keys, a key's position is the one it is found at. */
  lemma IndexOfDistinct<K>(ks: seq<K>, v: nat)
    requires Distinct(ks) && v < |ks|
    ensures IndexOf(ks, ks[v]) == v
  {
  }

  // ---------------------------------------------------------------------
  // What a first-seen outcome promises
  // ---------------------------------------------------------------------

  /** Every corner's index names an output vertex. */
  lemma IndicesInRange(verts: seq<OutVertex>, tris: seq<seq<nat>>, g: seq<seq<Corner>>)
    requires FirstSeen(verts, tris, g)
    ensures forall p, j :: 0 <= p < |g| && 0 <= j < |g[p]| ==> tris[p][j] < |verts|
  {
  }

  /** Two corners share an output vertex exactly when they have the same source vertex and the same key. */
  lemma SameIndexIffSameKey(verts: seq<OutVertex>, tris: seq<seq<nat>>, g: seq<seq<Corner>>,
                            p: nat, j: nat, q: nat, k: nat)
    requires FirstSeen(verts, tris, g)
    requires p < |g| && j < |g[p]| && q < |g| && k < |g[q]|
    ensures tris[p][j] == tris[q][k] <==> g[p][j].key == g[q][k].key
  {
  }

  /**
   * The output vertex of a corner is the record of the first corner, in
   * row-major order, that has the same key.
   */
  lemma VertexIsFirstRecord(verts: seq<OutVertex>, tris: seq<seq<nat>>, g: seq<seq<Corner>>, p: nat, j: nat)
    requires FirstSeen(verts, tris, g)
    requires p < |g| && j < |g[p]|
    ensures IndexOf(KeysOf(Flat(g, |g|), CornerKey), g[p][j].key) < |Flat(g, |g|)|
    ensures verts[tris[p][j]] == Flat(g, |g|)[IndexOf(KeysOf(Flat(g, |g|), CornerKey), g[p][j].key)].record
  {
    var cs := Flat(g, |g|);
    var f := Firsts(cs, CornerKey);
    FirstsAreFirst(cs, CornerKey);
    var i := tris[p][j];
    assert f[i].key == g[p][j].key;
  }

  /**
   * Every output vertex is used: it is the vertex of some corner, and it is
   * that corner's record.
   */
  lemma EveryVertexUsed(verts: seq<OutVertex>, tris: seq<seq<nat>>, g: seq<seq<Corner>>, v: nat)
    requires FirstSeen(verts, tris, g) && v < |verts|
    ensures exists p, j :: 0 <= p < |g| && 0 <= j < |g[p]| && tris[p][j] == v && verts[v] == g[p][j].record
  {
    var cs := Flat(g, |g|);
    var f := Firsts(cs, CornerKey);
    FirstsAreFirst(cs, CornerKey);
    FirstsCover(cs, CornerKey);
    var pos := IndexOf(KeysOf(cs, CornerKey), f[v].key);
    FlatOrigin(g, |g|, pos);
    var p, j :| 0 <= p < |g| && 0 <= j < |g[p]| && cs[pos] == g[p][j];
    IndexOfDistinct(KeysSeen(cs), v);
  }

  /** A corner's output vertex comes from the corner's own source vertex. */
  lemma VertexFromOwnSource(verts: seq<OutVertex>, tris: seq<seq<nat>>, g: seq<seq<Corner>>, p: nat, j: nat)
    requires FirstSeen(verts, tris, g) && RecordsOwnVertex(g)
    requires p < |g| && j < |g[p]|
    ensures verts[tris[p][j]].src == g[p][j].key.src
  {
    var cs := Flat(g, |g|);
    VertexIsFirstRecord(verts, tris, g, p, j);
    var pos := IndexOf(KeysOf(cs, CornerKey), g[p][j].key);
    FlatOrigin(g, |g|, pos);
  }

  /** There are at most as many output vertices as corners. */
  lemma FewerVerticesThanCorners(verts: seq<OutVertex>, tris: seq<seq<nat>>, g: seq<seq<Corner>>)
    requires FirstSeen(verts, tris, g)
    ensures |verts| <= |Flat(g, |g|)|
  {
    FirstsCover(Flat(g, |g|), CornerKey);
  }

  /**
   * A corner whose key no earlier corner has gets the next index: the
   * number of distinct keys among the corners before it.
   */
  lemma NewKeyNextIndex(verts: seq<OutVertex>, tris: seq<seq<nat>>, g: seq<seq<Corner>>, p: nat, j: nat)
    requires FirstSeen(verts, tris, g)
    requires p < |g| && j < |g[p]|
    requires g[p][j].key !in KeysOf(Flat(g, p) + g[p][..j], CornerKey)
    ensures tris[p][j] == |Firsts(Flat(g, p) + g[p][..j], CornerKey)|
  {
    var cs := Flat(g, |g|);
    var a := |Flat(g, p)| + j;
    FlatCell(g, p, j);
    assert tris[p][j] == IndexOf(KeysSeen(cs), g[p][j].key);
    assert CornerKey(cs[a]) !in KeysOf(cs[..a], CornerKey);
    NewKeyGetsNextIndex(cs, a, CornerKey);
  }
}

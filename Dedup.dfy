/**
 * First-seen deduplication: the reference definition the vertex welder is
 * proved against. `Firsts(cs, key)` keeps, in order of first appearance, the
 * first element of `cs` for each distinct key; an element's output index is
 * the position of its key among the kept elements' keys.
 */
module Dedup {

  function KeysOf<C, K>(cs: seq<C>, key: C -> K): (ks: seq<K>)
    ensures |ks| == |cs|
    ensures forall i :: 0 <= i < |cs| ==> ks[i] == key(cs[i])
  {
    seq(|cs|, i requires 0 <= i < |cs| => key(cs[i]))
  }

  predicate Distinct<K(==)>(ks: seq<K>) {
    forall i, j :: 0 <= i < j < |ks| ==> ks[i] != ks[j]
  }

  /** The position of the first `k` in `ks`, or `|ks|` when `k` does not occur. */
  function IndexOf<K(==)>(ks: seq<K>, k: K): (i: nat)
    ensures i <= |ks|
    ensures i < |ks| <==> k in ks
    ensures i < |ks| ==> ks[i] == k
    ensures forall j :: 0 <= j < i ==> ks[j] != k
  {
    if ks == [] then 0 else if ks[0] == k then 0 else 1 + IndexOf(ks[1..], k)
  }

  /** One element per distinct key, the first with that key, in order of first appearance. */
  function Firsts<C, K(==)>(cs: seq<C>, key: C -> K): seq<C>
  {
    if cs == [] then []
    else
      var f := Firsts(cs[..|cs| - 1], key);
      if key(cs[|cs| - 1]) in KeysOf(f, key) then f else f + [cs[|cs| - 1]]
  }

  // ---------------------------------------------------------------------
  // Properties
  // ---------------------------------------------------------------------

  lemma KeysOfAppend<C, K>(cs: seq<C>, more: seq<C>, key: C -> K)
    ensures KeysOf(cs + more, key) == KeysOf(cs, key) + KeysOf(more, key)
  {
  }

  /** Adding elements after `k`'s first occurrence does not move it. */
  lemma {:induction false} IndexOfExtend<K>(ks: seq<K>, more: seq<K>, k: K)
    requires k in ks
    ensures IndexOf(ks + more, k) == IndexOf(ks, k)
  {
    if ks[0] != k {
      assert (ks + more)[1..] == ks[1..] + more;
      IndexOfExtend(ks[1..], more, k);
    }
  }

  /** Processing one more element: it is kept exactly when its key is new. */
  lemma FirstsStep<C, K>(cs: seq<C>, c: C, key: C -> K)
    ensures Firsts(cs + [c], key) ==
            if key(c) in KeysOf(Firsts(cs, key), key) then Firsts(cs, key) else Firsts(cs, key) + [c]
  {
    assert (cs + [c])[..|cs|] == cs;
  }

  /**
   * The kept keys are distinct, every element's key is among them, and there
   * are at most as many kept elements as elements.
   */
  lemma {:induction false} FirstsCover<C, K>(cs: seq<C>, key: C -> K)
    ensures Distinct(KeysOf(Firsts(cs, key), key))
    ensures forall a :: 0 <= a < |cs| ==> key(cs[a]) in KeysOf(Firsts(cs, key), key)
    ensures |Firsts(cs, key)| <= |cs|
  {
    if cs != [] {
      var init, last := cs[..|cs| - 1], cs[|cs| - 1];
      FirstsCover(init, key);
      var f := Firsts(init, key);
      var fk := KeysOf(f, key);
      if key(last) in fk {
        assert Firsts(cs, key) == f;
        forall a | 0 <= a < |cs| ensures key(cs[a]) in fk {
          if a < |init| { assert cs[a] == init[a]; }
        }
      } else {
        assert Firsts(cs, key) == f + [last];
        KeysOfAppend(f, [last], key);
        var nk := KeysOf(f + [last], key);
        assert nk == fk + [key(last)];
        forall a | 0 <= a < |cs| ensures key(cs[a]) in nk {
          if a < |init| { assert cs[a] == init[a]; assert key(init[a]) in fk; }
        }
      }
    }
  }

  /** Each kept element is the first element of `cs` that carries its key. */
  lemma {:induction false} FirstsAreFirst<C, K>(cs: seq<C>, key: C -> K)
    ensures forall v :: 0 <= v < |Firsts(cs, key)| ==>
              var p := IndexOf(KeysOf(cs, key), key(Firsts(cs, key)[v]));
              p < |cs| && Firsts(cs, key)[v] == cs[p]
  {
    if cs != [] {
      var init, last := cs[..|cs| - 1], cs[|cs| - 1];
      assert cs == init + [last];
      FirstsAreFirst(init, key);
      FirstsCover(init, key);
      var f := Firsts(init, key);
      var fk := KeysOf(f, key);
      var ik := KeysOf(init, key);
      var ks := KeysOf(cs, key);
      KeysOfAppend(init, [last], key);
      assert ks == ik + [key(last)];
      forall v | 0 <= v < |f|
        ensures IndexOf(ks, key(f[v])) == IndexOf(ik, key(f[v]))
        ensures IndexOf(ik, key(f[v])) < |init|
      {
        IndexOfExtend(ik, [key(last)], key(f[v]));
      }
      if key(last) !in fk {
        assert key(last) !in ik by {
          forall a | 0 <= a < |init| ensures ik[a] != key(last) {
            assert key(init[a]) in fk;
          }
        }
        assert IndexOf(ks, key(last)) == |init|;
        assert Firsts(cs, key) == f + [last];
      } else {
        assert Firsts(cs, key) == f;
      }
    }
  }

  /** Earlier elements are numbered before later ones are seen: the kept prefix never changes. */
  lemma {:induction false} FirstsPrefix<C, K>(cs: seq<C>, n: nat, key: C -> K)
    requires n <= |cs|
    ensures |Firsts(cs[..n], key)| <= |Firsts(cs, key)|
    ensures Firsts(cs, key)[..|Firsts(cs[..n], key)|] == Firsts(cs[..n], key)
  {
    if n < |cs| {
      var init := cs[..|cs| - 1];
      assert init[..n] == cs[..n];
      FirstsPrefix(init, n, key);
    } else {
      assert cs[..n] == cs;
    }
  }

  /** A kept key is the key of some element. */
  lemma KeptKeysOccur<C, K>(cs: seq<C>, key: C -> K, k: K)
    requires k in KeysOf(Firsts(cs, key), key)
    ensures k in KeysOf(cs, key)
  {
    FirstsAreFirst(cs, key);
    var f := Firsts(cs, key);
    var v := IndexOf(KeysOf(f, key), k);
    assert f[v] == cs[IndexOf(KeysOf(cs, key), key(f[v]))];
  }

  /**
   * An element whose key has not been seen before gets the next index: the
   * number of elements kept so far.
   */
  lemma NewKeyGetsNextIndex<C, K>(cs: seq<C>, a: nat, key: C -> K)
    requires a < |cs|
    requires key(cs[a]) !in KeysOf(cs[..a], key)
    ensures IndexOf(KeysOf(Firsts(cs, key), key), key(cs[a])) == |Firsts(cs[..a], key)|
  {
    var k := key(cs[a]);
    var before := Firsts(cs[..a], key);
    if k in KeysOf(before, key) {
      KeptKeysOccur(cs[..a], key, k);
    }
    assert cs[..a + 1] == cs[..a] + [cs[a]];
    FirstsStep(cs[..a], cs[a], key);
    var upto := Firsts(cs[..a + 1], key);
    assert upto == before + [cs[a]];
    FirstsPrefix(cs, a + 1, key);
    var all := Firsts(cs, key);
    assert all[..|upto|] == upto;
    var ak := KeysOf(all, key);
    assert ak[|before|] == k;
    assert forall j :: 0 <= j < |before| ==> ak[j] == key(before[j]) by {
      forall j | 0 <= j < |before| ensures ak[j] == key(before[j]) {
        assert all[j] == upto[j];
      }
    }
    var i := IndexOf(ak, k);
    assert i <= |before|;
  }

  /** A key not yet present is found at the end once appended. */
  lemma IndexOfAppendNew<K>(ks: seq<K>, k: K)
    requires k !in ks
    ensures IndexOf(ks + [k], k) == |ks|
  {
    assert (ks + [k])[|ks|] == k;
  }

  /** A key already kept keeps its index however many elements follow. */
  lemma FirstsKeysStable<C, K>(seen: seq<C>, more: seq<C>, key: C -> K, k: K)
    requires k in KeysOf(Firsts(seen, key), key)
    ensures k in KeysOf(Firsts(seen + more, key), key)
    ensures IndexOf(KeysOf(Firsts(seen + more, key), key), k) == IndexOf(KeysOf(Firsts(seen, key), key), k)
  {
    var all := seen + more;
    assert all[..|seen|] == seen;
    FirstsPrefix(all, |seen|, key);
    var f1 := Firsts(seen, key);
    var f2 := Firsts(all, key);
    assert f2 == f1 + f2[|f1|..];
    KeysOfAppend(f1, f2[|f1|..], key);
    IndexOfExtend(KeysOf(f1, key), KeysOf(f2[|f1|..], key), k);
  }

  /** An element with a new key is kept, its key is appended, and it gets the next index. */
  lemma FirstsNew<C, K>(seen: seq<C>, c: C, key: C -> K)
    requires key(c) !in KeysOf(Firsts(seen, key), key)
    ensures Firsts(seen + [c], key) == Firsts(seen, key) + [c]
    ensures KeysOf(Firsts(seen + [c], key), key) == KeysOf(Firsts(seen, key), key) + [key(c)]
    ensures IndexOf(KeysOf(Firsts(seen + [c], key), key), key(c)) == |Firsts(seen, key)|
  {
    FirstsStep(seen, c, key);
    KeysOfAppend(Firsts(seen, key), [c], key);
    IndexOfAppendNew(KeysOf(Firsts(seen, key), key), key(c));
  }
}

/** Small facts about sequences that the proofs use at several places. */
module Seqs {

  lemma AppendAssoc<T>(a: seq<T>, b: seq<T>, c: seq<T>)
    ensures a + (b + c) == (a + b) + c
  {
  }

  lemma TakeOneMore<T>(s: seq<T>, k: nat)
    requires k < |s|
    ensures s[..k + 1] == s[..k] + [s[k]]
  {
  }

  lemma DropPrefix<T>(a: seq<T>, c: seq<T>)
    ensures (a + c)[|a|..] == c
  {
  }

  lemma HeadTail<T>(s: seq<T>)
    requires s != []
    ensures [s[0]] + s[1..] == s
  {
  }

  /** Element `k` of `b` sits at `|a| + k` in `a + b`. */
  lemma AppendAt<T>(a: seq<T>, b: seq<T>, k: nat)
    requires k < |b|
    ensures |a| + k < |a + b| && (a + b)[|a| + k] == b[k]
  {
  }

  /** The groups of `gs` back to back. */
  function Concat<T>(gs: seq<seq<T>>): seq<T>
  {
    if gs == [] then [] else gs[0] + Concat(gs[1..])
  }

  lemma {:induction false} ConcatAppend<T>(gs: seq<seq<T>>, g: seq<T>)
    ensures Concat(gs + [g]) == Concat(gs) + g
  {
    if gs != [] {
      assert (gs + [g])[1..] == gs[1..] + [g];
      ConcatAppend(gs[1..], g);
    }
  }

  /** With every group `size` long, element `f` of group `v` sits at `size·v + f`. */
  lemma {:induction false} ConcatAt<T>(gs: seq<seq<T>>, size: nat, v: nat, f: nat)
    requires forall i :: 0 <= i < |gs| ==> |gs[i]| == size
    requires v < |gs| && f < size
    ensures |Concat(gs)| == size * |gs|
    ensures size * v + f < |Concat(gs)|
    ensures Concat(gs)[size * v + f] == gs[v][f]
  {
    ConcatLength(gs, size);
    GroupBound(size, v, |gs|, f);
    if v > 0 {
      ConcatAt(gs[1..], size, v - 1, f);
      assert size * v + f == size + (size * (v - 1) + f);
    }
  }

  lemma {:induction false} GroupBound(size: nat, v: nat, n: nat, f: nat)
    requires v < n && f < size
    ensures size * v + f < size * n
  {
    assert size * n == size * (n - 1) + size;
    if v < n - 1 {
      GroupBound(size, v, n - 1, f);
    }
  }

  lemma {:induction false} ConcatLength<T>(gs: seq<seq<T>>, size: nat)
    requires forall i :: 0 <= i < |gs| ==> |gs[i]| == size
    ensures |Concat(gs)| == size * |gs|
  {
    if gs != [] {
      ConcatLength(gs[1..], size);
    }
  }
}

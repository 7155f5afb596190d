/**
 * The bone table builder (`decompose_armature_data`): the deform bones of an
 * armature in declaration order, numbered 0..N-1, with a name-to-index map,
 * under two signed 16-bit capacity limits.
 */
module Armature {
  import opened Wrappers
  import opened Bytes
  import opened Values
  import opened ExportErrors

  /** A bone name, as its UTF-8 bytes. */
  type Name = seq<byte>

  /**
   * A read-only snapshot of one bone. `parent` and `children` are positions
   * in the armature's `bones` sequence.
   */
  datatype Bone = Bone(name: Name, useDeform: bool, parent: Option<nat>, children: seq<nat>, matrixLocal: Matrix)

  datatype Armature = Armature(bones: seq<Bone>)

  /** Every parent and child reference names a bone of the armature. */
  predicate ValidArmature(arm: Armature) {
    forall i :: 0 <= i < |arm.bones| ==> ValidBone(arm, arm.bones[i])
  }

  predicate ValidBone(arm: Armature, b: Bone) {
    (b.parent.Some? ==> b.parent.value < |arm.bones|) &&
    forall k :: 0 <= k < |b.children| ==> b.children[k] < |arm.bones|
  }

  predicate InArmature(arm: Armature, cs: seq<nat>) {
    forall k :: 0 <= k < |cs| ==> cs[k] < |arm.bones|
  }

  /** Both limits: the largest bone count and child count a signed 16-bit field holds. */
  const MAX_DEFORM_BONES: nat := 32767
  const MAX_DEFORM_CHILDREN: nat := 32767

  /** The bone table: a name-to-index map and the ordered bones. */
  datatype BoneTable = BoneTable(index: map<Name, nat>, bones: seq<Bone>)

  // ---------------------------------------------------------------------
  // Specification
  // ---------------------------------------------------------------------

  /** How many of `children` have the deform flag set. */
  function DeformChildCount(arm: Armature, children: seq<nat>): nat
    requires InArmature(arm, children)
  {
    if children == [] then 0
    else
      DeformChildCount(arm, children[..|children| - 1]) +
      (if arm.bones[children[|children| - 1]].useDeform then 1 else 0)
  }

  /** The bones with the deform flag set, in declaration order. */
  function DeformBones(bs: seq<Bone>): seq<Bone>
  {
    if bs == [] then []
    else DeformBones(bs[..|bs| - 1]) + (if bs[|bs| - 1].useDeform then [bs[|bs| - 1]] else [])
  }

  /** The positions in `bs` of the bones `DeformBones(bs)` keeps. */
  function DeformPositions(bs: seq<Bone>): seq<nat>
  {
    if bs == [] then []
    else DeformPositions(bs[..|bs| - 1]) + (if bs[|bs| - 1].useDeform then [|bs| - 1] else [])
  }

  /** The map `bones_dict.update ({ b.name : len (bones) })` builds over the table. */
  function NameIndex(t: seq<Bone>): map<Name, nat>
  {
    if t == [] then map[] else NameIndex(t[..|t| - 1])[t[|t| - 1].name := |t| - 1]
  }

  predicate Overfull(arm: Armature, i: nat)
    requires ValidArmature(arm) && i < |arm.bones|
  {
    arm.bones[i].useDeform && DeformChildCount(arm, arm.bones[i].children) > MAX_DEFORM_CHILDREN
  }

  /** The first of the first `n` bones that is over the child limit, if any. */
  function FirstOverfull(arm: Armature, n: nat): Option<nat>
    requires ValidArmature(arm) && n <= |arm.bones|
  {
    if n == 0 then None
    else
      var earlier := FirstOverfull(arm, n - 1);
      if earlier.Some? then earlier else if Overfull(arm, n - 1) then Some(n - 1) else None
  }

  /** What `decompose_armature_data` returns or raises. */
  function BuildBoneTable(arm: Armature): (r: Result<BoneTable, ExportError>)
    requires ValidArmature(arm)
    ensures r.Ok? ==> |r.value.bones| <= MAX_DEFORM_BONES
    ensures r.Err? ==> r.error.TooManyDeformChildren? || r.error.TooManyDeformBones?
  {
    var first := FirstOverfull(arm, |arm.bones|);
    if first.Some? then
      assert first.value < |arm.bones| by { FirstOverfullSpec(arm, |arm.bones|); }
      var b := arm.bones[first.value];
      Err(TooManyDeformChildren(b.name, DeformChildCount(arm, b.children)))
    else
      var t := DeformBones(arm.bones);
      if |t| > MAX_DEFORM_BONES then Err(TooManyDeformBones(|t|))
      else Ok(BoneTable(NameIndex(t), t))
  }

  predicate UniqueNames(t: seq<Bone>) {
    forall i, j :: 0 <= i < j < |t| ==> t[i].name != t[j].name
  }

  // ---------------------------------------------------------------------
  // The builder
  // ---------------------------------------------------------------------

  /** The loop `for child in b.children: if child.use_deform: deform_child_count += 1`. */
  method CountDeformChildren(arm: Armature, children: seq<nat>) returns (count: nat)
    requires InArmature(arm, children)
    ensures count == DeformChildCount(arm, children)
  {
    count := 0;
    var k := 0;
    while k < |children|
      invariant 0 <= k <= |children|
      invariant count == DeformChildCount(arm, children[..k])
    {
      assert children[..k + 1][..k] == children[..k];
      if arm.bones[children[k]].useDeform {
        count := count + 1;
      }
      k := k + 1;
    }
    assert children[..k] == children;
  }

  method DecomposeArmature(arm: Armature) returns (r: Result<BoneTable, ExportError>)
    requires ValidArmature(arm)
    ensures r == BuildBoneTable(arm)
  {
    var index: map<Name, nat> := map[];
    var bones: seq<Bone> := [];
    var i := 0;
    while i < |arm.bones|
      invariant 0 <= i <= |arm.bones|
      invariant bones == DeformBones(arm.bones[..i])
      invariant index == NameIndex(bones)
      invariant FirstOverfull(arm, i) == None
    {
      var b := arm.bones[i];
      assert arm.bones[..i + 1][..i] == arm.bones[..i];
      if b.useDeform {
        var deformChildCount := CountDeformChildren(arm, b.children);
        if deformChildCount > MAX_DEFORM_CHILDREN {
          FirstOverfullStable(arm, i + 1, |arm.bones|);
          return Err(TooManyDeformChildren(b.name, deformChildCount));
        }
        index := index[b.name := |bones|];
        bones := bones + [b];
      }
      i := i + 1;
    }
    assert arm.bones[..i] == arm.bones;
    if |bones| > MAX_DEFORM_BONES {
      return Err(TooManyDeformBones(|bones|));
    }
    r := Ok(BoneTable(index, bones));
  }

  // ---------------------------------------------------------------------
  // Properties
  // ---------------------------------------------------------------------

  /** `FirstOverfull` finds the first over-limit bone, and None means there is none. */
  lemma {:induction false} FirstOverfullSpec(arm: Armature, n: nat)
    requires ValidArmature(arm) && n <= |arm.bones|
    ensures FirstOverfull(arm, n) == None <==> forall i :: 0 <= i < n ==> !Overfull(arm, i)
    ensures FirstOverfull(arm, n).Some? ==>
              var f := FirstOverfull(arm, n).value;
              f < n && Overfull(arm, f) && forall j :: 0 <= j < f ==> !Overfull(arm, j)
  {
    if n > 0 {
      FirstOverfullSpec(arm, n - 1);
    }
  }

  lemma {:induction false} FirstOverfullStable(arm: Armature, n: nat, m: nat)
    requires ValidArmature(arm) && n <= m <= |arm.bones|
    requires FirstOverfull(arm, n).Some?
    ensures FirstOverfull(arm, m) == FirstOverfull(arm, n)
  {
    if m > n {
      FirstOverfullStable(arm, n, m - 1);
    }
  }

  /**
   * The table keeps exactly the deform bones, in declaration order: entry k
   * is the bone at position P[k], the positions increase, and a position is
   * used exactly when its bone has the deform flag.
   */
  lemma {:induction false} DeformBonesInOrder(bs: seq<Bone>)
    ensures |DeformPositions(bs)| == |DeformBones(bs)|
    ensures forall k :: 0 <= k < |DeformBones(bs)| ==>
              DeformPositions(bs)[k] < |bs| && DeformBones(bs)[k] == bs[DeformPositions(bs)[k]]
    ensures forall k, l :: 0 <= k < l < |DeformPositions(bs)| ==> DeformPositions(bs)[k] < DeformPositions(bs)[l]
    ensures forall i :: 0 <= i < |bs| ==> (bs[i].useDeform <==> i in DeformPositions(bs))
  {
    if bs != [] {
      var init := bs[..|bs| - 1];
      DeformBonesInOrder(init);
      assert forall i :: 0 <= i < |init| ==> init[i] == bs[i];
    }
  }

  /** Every bone in the table has the deform flag set. */
  lemma DeformBonesAreDeform(bs: seq<Bone>)
    ensures forall k :: 0 <= k < |DeformBones(bs)| ==> DeformBones(bs)[k].useDeform
    ensures forall k :: 0 <= k < |DeformBones(bs)| ==> DeformBones(bs)[k] in bs
  {
    DeformBonesInOrder(bs);
  }

  /**
   * The name map has exactly the table's names as keys, and each name maps
   * to an entry carrying that name (the last one, when names repeat).
   */
  lemma {:induction false} NameIndexSpec(t: seq<Bone>)
    ensures forall n :: n in NameIndex(t) <==> exists k :: 0 <= k < |t| && t[k].name == n
    ensures forall n :: n in NameIndex(t) ==> NameIndex(t)[n] < |t| && t[NameIndex(t)[n]].name == n
  {
    if t != [] {
      var init := t[..|t| - 1];
      NameIndexSpec(init);
      forall n | n in NameIndex(t) ensures exists k :: 0 <= k < |t| && t[k].name == n {
        if n != t[|t| - 1].name {
          assert n in NameIndex(init);
          var k :| 0 <= k < |init| && init[k].name == n;
          assert t[k] == init[k];
        }
      }
      forall n | (exists k :: 0 <= k < |t| && t[k].name == n) ensures n in NameIndex(t) {
        var k :| 0 <= k < |t| && t[k].name == n;
        if k < |init| { assert init[k] == t[k]; }
      }
    }
  }

  /**
   * With unique names (Blender's rule), `bones[bones_dict[b.name]] == b` for
   * every table entry, and the map and the table have the same size.
   */
  lemma {:induction false} NameIndexUnique(t: seq<Bone>)
    requires UniqueNames(t)
    ensures forall k :: 0 <= k < |t| ==> t[k].name in NameIndex(t) && NameIndex(t)[t[k].name] == k
    ensures |NameIndex(t)| == |t|
  {
    if t != [] {
      var init := t[..|t| - 1];
      assert UniqueNames(init);
      NameIndexUnique(init);
      NameIndexSpec(init);
      var last := t[|t| - 1].name;
      assert forall k :: 0 <= k < |init| ==> init[k].name == t[k].name;
      assert last !in NameIndex(init);
    }
  }

  /**
   * The builder succeeds exactly when no deform bone has more than 32767
   * deform children and there are at most 32767 deform bones; a success
   * holds exactly the deform bones within both limits.
   */
  lemma BoneTableOutcome(arm: Armature)
    requires ValidArmature(arm)
    ensures BuildBoneTable(arm).Ok? <==>
              (forall i :: 0 <= i < |arm.bones| && arm.bones[i].useDeform ==>
                 DeformChildCount(arm, arm.bones[i].children) <= MAX_DEFORM_CHILDREN) &&
              |DeformBones(arm.bones)| <= MAX_DEFORM_BONES
    ensures BuildBoneTable(arm).Ok? ==>
              var t := BuildBoneTable(arm).value;
              t.bones == DeformBones(arm.bones) && t.index == NameIndex(t.bones) &&
              |t.bones| <= MAX_DEFORM_BONES &&
              forall k :: 0 <= k < |t.bones| ==>
                t.bones[k].useDeform && ValidBone(arm, t.bones[k]) &&
                DeformChildCount(arm, t.bones[k].children) <= MAX_DEFORM_CHILDREN
  {
    FirstOverfullSpec(arm, |arm.bones|);
    DeformBonesInOrder(arm.bones);
    if BuildBoneTable(arm).Ok? {
      var t := DeformBones(arm.bones);
      forall k | 0 <= k < |t|
        ensures t[k].useDeform && ValidBone(arm, t[k])
        ensures DeformChildCount(arm, t[k].children) <= MAX_DEFORM_CHILDREN
      {
        var p := DeformPositions(arm.bones)[k];
        assert !Overfull(arm, p);
      }
    }
  }

  /**
   * A child-limit error names the first deform bone, in declaration order,
   * with more than 32767 deform children, and carries its count.
   */
  lemma TooManyChildrenNamesFirst(arm: Armature)
    requires ValidArmature(arm)
    requires BuildBoneTable(arm).Err? && BuildBoneTable(arm).error.TooManyDeformChildren?
    ensures exists i :: 0 <= i < |arm.bones| &&
              arm.bones[i].useDeform &&
              BuildBoneTable(arm).error == TooManyDeformChildren(arm.bones[i].name, DeformChildCount(arm, arm.bones[i].children)) &&
              DeformChildCount(arm, arm.bones[i].children) > MAX_DEFORM_CHILDREN &&
              forall j :: 0 <= j < i ==> !Overfull(arm, j)
  {
    FirstOverfullSpec(arm, |arm.bones|);
    var i := FirstOverfull(arm, |arm.bones|).value;
    assert Overfull(arm, i);
  }

  /** 32768 deform bones within the child limit always raise the bone-count error. */
  lemma TooManyBonesRaises(arm: Armature)
    requires ValidArmature(arm)
    requires forall i :: 0 <= i < |arm.bones| ==> !Overfull(arm, i)
    requires |DeformBones(arm.bones)| > MAX_DEFORM_BONES
    ensures BuildBoneTable(arm) == Err(TooManyDeformBones(|DeformBones(arm.bones)|))
  {
    FirstOverfullSpec(arm, |arm.bones|);
  }
}

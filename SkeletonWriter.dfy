/**
 * The skeleton exporter (`write_armature_text`, `write_armature_binary`):
 * the bone table written as a `SkelTxt` file, one eight-line joint record
 * per table entry, each with its bind transform relative to its parent and
 * the table indices of its deform children.
 */
module SkeletonWriter {
  import opened Wrappers
  import opened Seqs
  import opened Bytes
  import opened Values
  import opened AssetHeader
  import opened ExportErrors
  import opened Armature

  const JOINT_COUNT: seq<byte> := Ascii("joint_count ")
  const JOINT: seq<byte> := Ascii("joint ")
  const LOCAL_BIND: seq<byte> := Ascii("local_bind_transform")
  const CHILD_COUNT: seq<byte> := Ascii("child_count ")

  // ---------------------------------------------------------------------
  // The binary format
  // ---------------------------------------------------------------------

  /** `write_armature_binary` is a stub: it opens no file and writes nothing. */
  function ArmatureBinary(arm: Armature, version: Version): (file: Option<seq<byte>>)
    ensures file == None
  {
    None
  }

  // ---------------------------------------------------------------------
  // One joint record
  // ---------------------------------------------------------------------

  /**
   * The bind transform relative to the parent bone (`parent.matrix_local.inverted () @
   * matrix_local`), or the bone's own `matrix_local` for a root. The parent
   * need not be a deform bone.
   */
  function LocalBind(arm: Armature, b: Bone, ops: FloatModel): (m: Matrix)
    requires ValidBone(arm, b)
    ensures b.parent.None? ==> m == b.matrixLocal
    ensures b.parent.Some? ==> m == ops.compose(ops.inverted(arm.bones[b.parent.value].matrixLocal), b.matrixLocal)
  {
    match b.parent
    case None => b.matrixLocal
    case Some(p) => ops.compose(ops.inverted(arm.bones[p].matrixLocal), b.matrixLocal)
  }

  /** Every deform bone of the armature has an entry in the name map, so `bones[child.name]` finds it. */
  predicate CoversDeform(arm: Armature, t: BoneTable) {
    forall i :: 0 <= i < |arm.bones| && arm.bones[i].useDeform ==> arm.bones[i].name in t.index
  }

  /** The table is one the writer can walk: its bones are valid and the map knows every deform bone. */
  predicate WritableTable(arm: Armature, t: BoneTable) {
    CoversDeform(arm, t) && forall k :: 0 <= k < |t.bones| ==> ValidBone(arm, t.bones[k])
  }

  /** The children among `cs` with the deform flag, in order. */
  function DeformChildren(arm: Armature, cs: seq<nat>): seq<nat>
    requires InArmature(arm, cs)
  {
    if cs == [] then []
    else
      var last := cs[|cs| - 1];
      DeformChildren(arm, cs[..|cs| - 1]) + (if arm.bones[last].useDeform then [last] else [])
  }

  /** The table index of each deform child among `cs`, in order, as `bones[child.name][1]` finds it. */
  function DeformChildIndices(arm: Armature, t: BoneTable, cs: seq<nat>): seq<nat>
    requires InArmature(arm, cs) && CoversDeform(arm, t)
  {
    if cs == [] then []
    else
      var last := arm.bones[cs[|cs| - 1]];
      DeformChildIndices(arm, t, cs[..|cs| - 1]) + (if last.useDeform then [t.index[last.name]] else [])
  }

  /** `b"%u " % i` for each index in turn. */
  function SpacedDecimals(ns: seq<nat>): seq<byte>
  {
    if ns == [] then [] else Decimal(ns[0]) + [SPACE] + SpacedDecimals(ns[1..])
  }

  /** The rows of a transform, `b"%.6f %.6f %.6f %.6f" % row`. */
  function RowText(r: Row4, ops: FloatModel): seq<byte>
  {
    FixedFields(RowFields(r), ops)
  }

  /**
   * The eight lines of one joint: its name, the `local_bind_transform` tag,
   * four matrix rows, the deform child count, the child indices.
   */
  function JointLines(arm: Armature, t: BoneTable, b: Bone, ops: FloatModel): (ls: seq<seq<byte>>)
    requires ValidBone(arm, b) && CoversDeform(arm, t)
    ensures |ls| == 8
  {
    var m := LocalBind(arm, b, ops);
    [JOINT + b.name, LOCAL_BIND, RowText(m.r0, ops), RowText(m.r1, ops), RowText(m.r2, ops), RowText(m.r3, ops),
     CHILD_COUNT + Decimal(DeformChildCount(arm, b.children)), SpacedDecimals(DeformChildIndices(arm, t, b.children))]
  }

  /** One group of eight lines per table entry. */
  function JointBlocks(arm: Armature, t: BoneTable, ops: FloatModel): (gs: seq<seq<seq<byte>>>)
    requires WritableTable(arm, t)
    ensures |gs| == |t.bones| && forall k :: 0 <= k < |t.bones| ==> gs[k] == JointLines(arm, t, t.bones[k], ops)
  {
    seq(|t.bones|, k requires 0 <= k < |t.bones| => JointLines(arm, t, t.bones[k], ops))
  }

  /** The lines after the header: the joint count, then the joints in table order. */
  function SkeletonLines(arm: Armature, t: BoneTable, ops: FloatModel): seq<seq<byte>>
    requires WritableTable(arm, t)
  {
    [JOINT_COUNT + Decimal(|t.bones|)] + Concat(JointBlocks(arm, t, ops))
  }

  /**
   * What `write_armature_text` writes when it walks the table's entries, or
   * the exception the table builder raises (in which case no file is opened).
   */
  function SkeletonText(arm: Armature, version: Version, now: DateTime, ops: FloatModel): (r: Result<seq<byte>, ExportError>)
    requires ValidArmature(arm) && ValidDateTime(now)
    ensures r.Ok? ==> |r.value| > 8 && r.value[..8] == SKEL_TXT
    ensures r.Err? ==> r.error.TooManyDeformChildren? || r.error.TooManyDeformBones?
  {
    var table := BuildBoneTable(arm);
    if table.Err? then Err(table.error)
    else
      assert WritableTable(arm, table.value) by { TableIsWritable(arm); }
      Ok(Header(SKEL_TXT, version, now) + JoinLines(SkeletonLines(arm, table.value, ops)))
  }

  // ---------------------------------------------------------------------
  // The table as the writer sees it
  // ---------------------------------------------------------------------

  /** A table the builder returns can be walked: no `bones[child.name]` lookup misses. */
  lemma TableIsWritable(arm: Armature)
    requires ValidArmature(arm) && BuildBoneTable(arm).Ok?
    ensures WritableTable(arm, BuildBoneTable(arm).value)
  {
    var t := BuildBoneTable(arm).value;
    BoneTableOutcome(arm);
    DeformBonesInOrder(arm.bones);
    NameIndexSpec(t.bones);
    forall i | 0 <= i < |arm.bones| && arm.bones[i].useDeform ensures arm.bones[i].name in t.index {
      var k :| 0 <= k < |DeformPositions(arm.bones)| && DeformPositions(arm.bones)[k] == i;
      assert t.bones[k] == arm.bones[i];
    }
  }

  /**
   * The `child_count` line agrees with the indices that follow it: there is
   * one index per deform child, and each is the map's entry for that child.
   */
  lemma {:induction false} ChildIndicesSpec(arm: Armature, t: BoneTable, cs: seq<nat>)
    requires InArmature(arm, cs) && CoversDeform(arm, t)
    ensures |DeformChildIndices(arm, t, cs)| == |DeformChildren(arm, cs)| == DeformChildCount(arm, cs)
    ensures forall j :: 0 <= j < |DeformChildren(arm, cs)| ==>
              DeformChildren(arm, cs)[j] < |arm.bones| && arm.bones[DeformChildren(arm, cs)[j]].useDeform &&
              DeformChildIndices(arm, t, cs)[j] == t.index[arm.bones[DeformChildren(arm, cs)[j]].name]
  {
    if cs != [] {
      ChildIndicesSpec(arm, t, cs[..|cs| - 1]);
    }
  }

  /** The deform children are exactly the members of `cs` with the deform flag. */
  lemma {:induction false} DeformChildrenMembers(arm: Armature, cs: seq<nat>)
    requires InArmature(arm, cs)
    ensures forall c :: c in DeformChildren(arm, cs) <==> c in cs && arm.bones[c].useDeform
  {
    if cs != [] {
      DeformChildrenMembers(arm, cs[..|cs| - 1]);
      assert forall c :: c in cs <==> c in cs[..|cs| - 1] || c == cs[|cs| - 1];
    }
  }

  /**
   * With unique bone names (Blender's rule), each written child index points
   * at that very child in the table.
   */
  lemma ChildIndicesPointAtChildren(arm: Armature, b: Bone)
    requires ValidArmature(arm) && BuildBoneTable(arm).Ok? && UniqueNames(arm.bones)
    requires b in arm.bones
    ensures WritableTable(arm, BuildBoneTable(arm).value) && InArmature(arm, b.children)
    ensures var t := BuildBoneTable(arm).value;
            var ids, dc := DeformChildIndices(arm, t, b.children), DeformChildren(arm, b.children);
            |ids| == |dc| &&
            forall j :: 0 <= j < |dc| ==> dc[j] < |arm.bones| && ids[j] < |t.bones| && t.bones[ids[j]] == arm.bones[dc[j]]
  {
    var t := BuildBoneTable(arm).value;
    TableIsWritable(arm);
    ChildIndicesSpec(arm, t, b.children);
    var dc := DeformChildren(arm, b.children);
    forall j | 0 <= j < |dc|
      ensures t.index[arm.bones[dc[j]].name] < |t.bones| && t.bones[t.index[arm.bones[dc[j]].name]] == arm.bones[dc[j]]
    {
      EntryOfName(arm, dc[j]);
    }
  }

  /** With unique names, the map sends a deform bone's name to that bone's table entry. */
  lemma EntryOfName(arm: Armature, c: nat)
    requires ValidArmature(arm) && BuildBoneTable(arm).Ok? && UniqueNames(arm.bones)
    requires c < |arm.bones| && arm.bones[c].useDeform
    ensures var t := BuildBoneTable(arm).value;
            arm.bones[c].name in t.index && t.index[arm.bones[c].name] < |t.bones| &&
            t.bones[t.index[arm.bones[c].name]] == arm.bones[c]
  {
    var t := BuildBoneTable(arm).value;
    TableIsWritable(arm);
    BoneTableOutcome(arm);
    NameIndexSpec(t.bones);
    DeformBonesAreDeform(arm.bones);
    var e := t.bones[t.index[arm.bones[c].name]];
    assert e in arm.bones;
    var i :| 0 <= i < |arm.bones| && arm.bones[i] == e;
    assert arm.bones[i].name == arm.bones[c].name;
  }

  // ---------------------------------------------------------------------
  // Reading the text back
  // ---------------------------------------------------------------------

  /** Reads space-terminated decimal fields; None unless every field is digits followed by a space. */
  function ParseIndices(s: seq<byte>): Option<seq<nat>>
    decreases |s|
  {
    if s == [] then Some([])
    else
      var k := FirstIndex(s, SPACE);
      if k == |s| then None
      else
        match (ParseField(s[..k]), ParseIndices(s[k + 1..]))
        case (Some(i), Some(rest)) => Some([i] + rest)
        case _ => None
  }

  lemma {:induction false} SpacedDecimalsRoundTrip(ns: seq<nat>)
    ensures ParseIndices(SpacedDecimals(ns)) == Some(ns)
  {
    if ns != [] {
      var d, rest := Decimal(ns[0]), SpacedDecimals(ns[1..]);
      CutAt(d, SPACE, rest);
      DecimalIsField(ns[0]);
      SpacedDecimalsRoundTrip(ns[1..]);
      assert [ns[0]] + ns[1..] == ns;
    }
  }

  lemma {:induction false} SpacedDecimalsNewlineFree(ns: seq<nat>)
    ensures NewlineFree(SpacedDecimals(ns))
  {
    if ns != [] {
      DecimalNewlineFree(ns[0]);
      SpacedDecimalsNewlineFree(ns[1..]);
      NewlineFreeConcat(Decimal(ns[0]), [SPACE]);
      NewlineFreeConcat(Decimal(ns[0]) + [SPACE], SpacedDecimals(ns[1..]));
    }
  }

  /** Writing one more index appends its field. */
  lemma {:induction false} SpacedDecimalsSnoc(ns: seq<nat>, i: nat)
    ensures SpacedDecimals(ns + [i]) == SpacedDecimals(ns) + Decimal(i) + [SPACE]
  {
    if ns == [] {
      assert [] + [i] == [i];
    } else {
      assert (ns + [i])[1..] == ns[1..] + [i];
      SpacedDecimalsSnoc(ns[1..], i);
    }
  }

  /** Joint `k` is lines 1 + 8·k to 8 + 8·k, after the joint count. */
  lemma SkeletonLayout(arm: Armature, t: BoneTable, ops: FloatModel, k: nat, f: nat)
    requires WritableTable(arm, t) && k < |t.bones| && f < 8
    ensures |SkeletonLines(arm, t, ops)| == 1 + 8 * |t.bones|
    ensures SkeletonLines(arm, t, ops)[0] == JOINT_COUNT + Decimal(|t.bones|)
    ensures SkeletonLines(arm, t, ops)[1 + 8 * k + f] == JointLines(arm, t, t.bones[k], ops)[f]
  {
    ConcatAt(JointBlocks(arm, t, ops), 8, k, f);
    AppendAt([JOINT_COUNT + Decimal(|t.bones|)], Concat(JointBlocks(arm, t, ops)), 8 * k + f);
  }

  predicate NamesNewlineFree(bs: seq<Bone>) {
    forall k :: 0 <= k < |bs| ==> NewlineFree(bs[k].name)
  }

  lemma JointLinesNewlineFree(arm: Armature, t: BoneTable, b: Bone, ops: FloatModel)
    requires ValidBone(arm, b) && CoversDeform(arm, t)
    requires NewlineFree(b.name) && FormatsAreNewlineFree(ops)
    ensures forall f :: 0 <= f < 8 ==> NewlineFree(JointLines(arm, t, b, ops)[f])
  {
    var m := LocalBind(arm, b, ops);
    assert NewlineFree(JOINT) && NewlineFree(LOCAL_BIND) && NewlineFree(CHILD_COUNT);
    NewlineFreeConcat(JOINT, b.name);
    FixedFieldsNewlineFree(RowFields(m.r0), ops);
    FixedFieldsNewlineFree(RowFields(m.r1), ops);
    FixedFieldsNewlineFree(RowFields(m.r2), ops);
    FixedFieldsNewlineFree(RowFields(m.r3), ops);
    DecimalNewlineFree(DeformChildCount(arm, b.children));
    NewlineFreeConcat(CHILD_COUNT, Decimal(DeformChildCount(arm, b.children)));
    SpacedDecimalsNewlineFree(DeformChildIndices(arm, t, b.children));
  }

  lemma SkeletonLinesNewlineFree(arm: Armature, t: BoneTable, ops: FloatModel)
    requires WritableTable(arm, t) && NamesNewlineFree(t.bones) && FormatsAreNewlineFree(ops)
    ensures forall i :: 0 <= i < |SkeletonLines(arm, t, ops)| ==> NewlineFree(SkeletonLines(arm, t, ops)[i])
  {
    var ls := SkeletonLines(arm, t, ops);
    ConcatLength(JointBlocks(arm, t, ops), 8);
    forall i | 0 <= i < |ls| ensures NewlineFree(ls[i]) {
      if i == 0 {
        assert NewlineFree(JOINT_COUNT);
        DecimalNewlineFree(|t.bones|);
        NewlineFreeConcat(JOINT_COUNT, Decimal(|t.bones|));
      } else {
        var k, f := (i - 1) / 8, (i - 1) % 8;
        SkeletonLayout(arm, t, ops, k, f);
        JointLinesNewlineFree(arm, t, t.bones[k], ops);
      }
    }
  }

  /**
   * A joint record reads back: the name after `joint `, the count after
   * `child_count `, and exactly that many child indices on the last line.
   */
  lemma JointRoundTrip(arm: Armature, t: BoneTable, b: Bone, ops: FloatModel)
    requires ValidBone(arm, b) && CoversDeform(arm, t)
    ensures var ls := JointLines(arm, t, b, ops);
            |ls[0]| >= 6 && ls[0][..6] == JOINT && ls[0][6..] == b.name && ls[1] == LOCAL_BIND &&
            |ls[6]| >= 12 && ls[6][..12] == CHILD_COUNT &&
            ParseField(ls[6][12..]) == Some(DeformChildCount(arm, b.children)) &&
            ParseIndices(ls[7]) == Some(DeformChildIndices(arm, t, b.children)) &&
            |DeformChildIndices(arm, t, b.children)| == DeformChildCount(arm, b.children)
  {
    JointNameRoundTrip(arm, t, b, ops);
    JointChildrenRoundTrip(arm, t, b, ops);
  }

  lemma JointNameRoundTrip(arm: Armature, t: BoneTable, b: Bone, ops: FloatModel)
    requires ValidBone(arm, b) && CoversDeform(arm, t)
    ensures var ls := JointLines(arm, t, b, ops);
            |ls[0]| >= 6 && ls[0][..6] == JOINT && ls[0][6..] == b.name && ls[1] == LOCAL_BIND
  {
    DropPrefix(JOINT, b.name);
  }

  lemma JointChildrenRoundTrip(arm: Armature, t: BoneTable, b: Bone, ops: FloatModel)
    requires ValidBone(arm, b) && CoversDeform(arm, t)
    ensures var ls := JointLines(arm, t, b, ops);
            |ls[6]| >= 12 && ls[6][..12] == CHILD_COUNT &&
            ParseField(ls[6][12..]) == Some(DeformChildCount(arm, b.children)) &&
            ParseIndices(ls[7]) == Some(DeformChildIndices(arm, t, b.children)) &&
            |DeformChildIndices(arm, t, b.children)| == DeformChildCount(arm, b.children)
  {
    var count := DeformChildCount(arm, b.children);
    var ids := DeformChildIndices(arm, t, b.children);
    assert JointLines(arm, t, b, ops)[6] == CHILD_COUNT + Decimal(count);
    assert JointLines(arm, t, b, ops)[7] == SpacedDecimals(ids);
    DropPrefix(CHILD_COUNT, Decimal(count));
    DecimalIsField(count);
    SpacedDecimalsRoundTrip(ids);
    ChildIndicesSpec(arm, t, b.children);
  }

  /**
   * Splitting the skeleton text at newlines gives back its lines, and the
   * first one reads back as the number of joint records that follow.
   */
  lemma SkeletonRoundTrip(arm: Armature, t: BoneTable, ops: FloatModel)
    requires WritableTable(arm, t) && NamesNewlineFree(t.bones) && FormatsAreNewlineFree(ops)
    ensures SplitLines(JoinLines(SkeletonLines(arm, t, ops))) == SkeletonLines(arm, t, ops)
    ensures var ls := SkeletonLines(arm, t, ops);
            |ls| == 1 + 8 * |t.bones| && |ls[0]| >= 12 && ls[0][..12] == JOINT_COUNT &&
            ParseField(ls[0][12..]) == Some(|t.bones|)
  {
    SkeletonLinesNewlineFree(arm, t, ops);
    SplitJoinLines(SkeletonLines(arm, t, ops));
    ConcatLength(JointBlocks(arm, t, ops), 8);
    DropPrefix(JOINT_COUNT, Decimal(|t.bones|));
    DecimalIsField(|t.bones|);
  }

  /** A written skeleton file starts with a `SkelTxt` header; its lines follow it. */
  lemma SkeletonFile(arm: Armature, version: Version, now: DateTime, ops: FloatModel)
    requires ValidArmature(arm) && ValidDateTime(now) && SkeletonText(arm, version, now, ops).Ok?
    ensures BuildBoneTable(arm).Ok? && WritableTable(arm, BuildBoneTable(arm).value)
    ensures DecodeHeader(SkeletonText(arm, version, now, ops).value) ==
              Some(HeaderFields(SKEL_TXT, version, now, JoinLines(SkeletonLines(arm, BuildBoneTable(arm).value, ops))))
  {
    TableIsWritable(arm);
    FormatIdsDistinct();
    HeaderRoundTrip(SKEL_TXT, version, now, JoinLines(SkeletonLines(arm, BuildBoneTable(arm).value, ops)));
  }

  /**
   * The text writer fails exactly when the table builder does, with its
   * error: a deform bone over the child limit, or too many deform bones.
   */
  lemma SkeletonErrors(arm: Armature, version: Version, now: DateTime, ops: FloatModel)
    requires ValidArmature(arm) && ValidDateTime(now)
    ensures SkeletonText(arm, version, now, ops).Err? <==>
              (exists i :: 0 <= i < |arm.bones| && arm.bones[i].useDeform &&
                 DeformChildCount(arm, arm.bones[i].children) > MAX_DEFORM_CHILDREN) ||
              |DeformBones(arm.bones)| > MAX_DEFORM_BONES
    ensures SkeletonText(arm, version, now, ops).Err? ==> SkeletonText(arm, version, now, ops).error == BuildBoneTable(arm).error
  {
    BoneTableOutcome(arm);
  }

  // ---------------------------------------------------------------------
  // The text writer as written
  // ---------------------------------------------------------------------

  /** The file a writer leaves behind (None when it raises before opening one) and the exception it raises, if any. */
  datatype Written = Written(file: Option<seq<byte>>, raised: Option<ExportError>)

  /**
   * `write_armature_text` exactly as written: it takes the pair
   * `(bones_dict, bones)` for a dictionary, so `len (bones)` is 2 and
   * `bones.items ()` raises after the header and the count line are out.
   */
  function SkeletonTextAsWritten(arm: Armature, version: Version, now: DateTime): (r: Written)
    requires ValidArmature(arm) && ValidDateTime(now)
    ensures r.raised.Some?
    ensures r.file.None? <==> BuildBoneTable(arm).Err?
    ensures r.file.Some? ==> |r.file.value| > 8 && r.file.value[..8] == SKEL_TXT
  {
    var table := BuildBoneTable(arm);
    if table.Err? then Written(None, Some(table.error))
    else Written(Some(Header(SKEL_TXT, version, now) + (JOINT_COUNT + Decimal(2) + [NL])), Some(PairHasNoItems))
  }

  /**
   * As written, the text writer never finishes: whenever the table can be
   * built it raises, leaving a file that claims two joints and holds none,
   * which is never the file that walking the table writes.
   */
  lemma AsWrittenNeverFinishes(arm: Armature, version: Version, now: DateTime, ops: FloatModel)
    requires ValidArmature(arm) && ValidDateTime(now)
    ensures SkeletonTextAsWritten(arm, version, now).raised.Some?
    ensures BuildBoneTable(arm).Ok? ==>
              SkeletonTextAsWritten(arm, version, now).raised == Some(PairHasNoItems) &&
              SkeletonTextAsWritten(arm, version, now).file.Some? &&
              DecodeHeader(SkeletonTextAsWritten(arm, version, now).file.value) ==
                Some(HeaderFields(SKEL_TXT, version, now, JOINT_COUNT + Decimal(2) + [NL])) &&
              SkeletonText(arm, version, now, ops).Ok? &&
              SkeletonTextAsWritten(arm, version, now).file.value != SkeletonText(arm, version, now, ops).value
  {
    if BuildBoneTable(arm).Ok? {
      var t := BuildBoneTable(arm).value;
      TableIsWritable(arm);
      var h := Header(SKEL_TXT, version, now);
      FormatIdsDistinct();
      HeaderRoundTrip(SKEL_TXT, version, now, JOINT_COUNT + Decimal(2) + [NL]);
      var ls := SkeletonLines(arm, t, ops);
      var asWritten := JOINT_COUNT + Decimal(2) + [NL];
      if h + asWritten == h + JoinLines(ls) {
        DropPrefix(h, asWritten);
        DropPrefix(h, JoinLines(ls));
        CountLineDiffers(arm, t, ops);
        assert false;
      }
    }
  }

  /** The joint records never fit in the bytes of a lone `joint_count 2` line. */
  lemma CountLineDiffers(arm: Armature, t: BoneTable, ops: FloatModel)
    requires WritableTable(arm, t)
    ensures JoinLines(SkeletonLines(arm, t, ops)) != JOINT_COUNT + Decimal(2) + [NL]
  {
    var ls := SkeletonLines(arm, t, ops);
    var rest := Concat(JointBlocks(arm, t, ops));
    ConcatLength(JointBlocks(arm, t, ops), 8);
    assert ls[1..] == rest;
    if |t.bones| == 0 {
      assert JoinLines(ls) == JOINT_COUNT + Decimal(0) + [NL];
      assert JoinLines(ls)[12] != (JOINT_COUNT + Decimal(2) + [NL])[12];
    } else {
      assert |JoinLines(rest)| >= 2;
      assert |JoinLines(ls)| >= 15;
    }
  }

  // ---------------------------------------------------------------------
  // The writer
  // ---------------------------------------------------------------------

  /** The second loop over `b.children`: `b"%u " % bones[child.name][1]` for each deform child. */
  method WriteChildIndices(arm: Armature, t: BoneTable, children: seq<nat>) returns (out: seq<byte>)
    requires InArmature(arm, children) && CoversDeform(arm, t)
    ensures out == SpacedDecimals(DeformChildIndices(arm, t, children))
  {
    out := [];
    var k := 0;
    while k < |children|
      invariant 0 <= k <= |children|
      invariant out == SpacedDecimals(DeformChildIndices(arm, t, children[..k]))
    {
      assert children[..k + 1][..k] == children[..k];
      var child := arm.bones[children[k]];
      ghost var before := DeformChildIndices(arm, t, children[..k]);
      assert DeformChildIndices(arm, t, children[..k + 1]) ==
             before + (if child.useDeform then [t.index[child.name]] else []);
      if child.useDeform {
        SpacedDecimalsSnoc(before, t.index[child.name]);
        out := out + Decimal(t.index[child.name]) + [SPACE];
      } else {
        assert before + [] == before;
      }
      k := k + 1;
    }
    assert children[..k] == children;
  }

  /** One pass of the loop over the table: the eight lines of joint `b`. */
  method WriteJoint(arm: Armature, t: BoneTable, b: Bone, ops: FloatModel) returns (block: seq<byte>)
    requires ValidBone(arm, b) && CoversDeform(arm, t)
    ensures block == JoinLines(JointLines(arm, t, b, ops))
  {
    // `lines` is what the writes so far are the lines of.
    ghost var lines: seq<seq<byte>> := [];
    block := [];
    block, lines := WriteLine(block, lines, JOINT + b.name);
    block, lines := WriteLine(block, lines, LOCAL_BIND);
    var m: Matrix;
    if b.parent.Some? {
      m := ops.compose(ops.inverted(arm.bones[b.parent.value].matrixLocal), b.matrixLocal);
    } else {
      m := b.matrixLocal;
    }
    block, lines := WriteLine(block, lines, RowText(m.r0, ops));
    block, lines := WriteLine(block, lines, RowText(m.r1, ops));
    block, lines := WriteLine(block, lines, RowText(m.r2, ops));
    block, lines := WriteLine(block, lines, RowText(m.r3, ops));
    var deformChildCount := CountDeformChildren(arm, b.children);
    block, lines := WriteLine(block, lines, CHILD_COUNT + Decimal(deformChildCount));
    var indices := WriteChildIndices(arm, t, b.children);
    block, lines := WriteLine(block, lines, indices);
    assert m == LocalBind(arm, b, ops);
    JointLinesInOrder(arm, t, b, ops);
  }

  /** The joint's lines, one appended after another. */
  lemma JointLinesInOrder(arm: Armature, t: BoneTable, b: Bone, ops: FloatModel)
    requires ValidBone(arm, b) && CoversDeform(arm, t)
    ensures var m := LocalBind(arm, b, ops);
            JointLines(arm, t, b, ops) ==
              [] + [JOINT + b.name] + [LOCAL_BIND] + [RowText(m.r0, ops)] + [RowText(m.r1, ops)] + [RowText(m.r2, ops)] +
              [RowText(m.r3, ops)] + [CHILD_COUNT + Decimal(DeformChildCount(arm, b.children))] +
              [SpacedDecimals(DeformChildIndices(arm, t, b.children))]
  {
  }

  /** `fw (line + b"\n")`: one more line of the file. */
  method WriteLine(out: seq<byte>, ghost lines: seq<seq<byte>>, line: seq<byte>)
    returns (out': seq<byte>, ghost lines': seq<seq<byte>>)
    requires out == JoinLines(lines)
    ensures lines' == lines + [line] && out' == JoinLines(lines')
  {
    JoinLinesSnoc(lines, line);
    out' := out + line + [NL];
    lines' := lines + [line];
  }

  /** The loop over the table: one joint record per entry, in table order. */
  method WriteJoints(arm: Armature, t: BoneTable, ops: FloatModel) returns (out: seq<byte>)
    requires WritableTable(arm, t)
    ensures out == JoinLines(Concat(JointBlocks(arm, t, ops)))
  {
    ghost var gs := JointBlocks(arm, t, ops);
    out := [];
    var k := 0;
    while k < |t.bones|
      invariant 0 <= k <= |t.bones|
      invariant out == JoinLines(Concat(gs[..k]))
    {
      var block := WriteJoint(arm, t, t.bones[k], ops);
      out := out + block;
      TakeOneMore(gs, k);
      ConcatAppend(gs[..k], gs[k]);
      JoinLinesAppend(Concat(gs[..k]), gs[k]);
      k := k + 1;
    }
    assert gs[..k] == gs;
  }

  /** `write_armature_text`, walking the table's entries: its outcome is exactly `SkeletonText`. */
  method WriteArmatureText(arm: Armature, version: Version, now: DateTime, ops: FloatModel)
    returns (r: Result<seq<byte>, ExportError>)
    requires ValidArmature(arm) && ValidDateTime(now)
    ensures r == SkeletonText(arm, version, now, ops)
  {
    var table := DecomposeArmature(arm);
    if table.Err? {
      return Err(table.error);
    }
    var t := table.value;
    TableIsWritable(arm);
    var out := WriteAssetHeader(SKEL_TXT, version, now);
    var jointCount := JOINT_COUNT + Decimal(|t.bones|);
    var joints := WriteJoints(arm, t, ops);
    JoinLinesSnoc([], jointCount);
    assert [] + [jointCount] == [jointCount];
    JoinLinesAppend([jointCount], Concat(JointBlocks(arm, t, ops)));
    r := Ok(out + (jointCount + [NL] + joints));
  }
}

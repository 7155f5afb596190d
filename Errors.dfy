/** The exceptions the exporter raises, as values. */
module ExportErrors {
  import opened Bytes

  datatype ExportError =
      /** A deform bone with more than 32767 deform children (its name, its count). */
    | TooManyDeformChildren(bone: seq<byte>, count: nat)
      /** More than 32767 deform bones in the armature. */
    | TooManyDeformBones(count: nat)
      /** A polygon references a vertex with group assignments but the object has no armature. */
    | SkinWithoutArmature
      /** `struct.pack("<I", n)` with a count that does not fit in 32 bits. */
    | CountOutOfRange
      /** A face record with other than 3 indices, which `"<3I"` and `"t %u %u %u"` refuse. */
    | NotATriangle
      /** `.items ()` called on the pair `decompose_armature_data` returns, which has no such attribute. */
    | PairHasNoItems
}

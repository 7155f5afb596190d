/**
 * The host's floating-point values, kept opaque. Python floats are IEEE-754
 * doubles; the model compares them by their bits and never computes with
 * them. The operations the exporter applies to them (`round(x, 6)`,
 * `struct.pack("<f")`, `"%.6f"`, matrix inversion and product) are supplied
 * by the caller as a `FloatModel`.
 */
module Values {
  import opened Bytes

  datatype Float = Float(bits: bv64)

  /** The literal 0 that pads weights; equal to 0.0 as a dictionary key. */
  const Zero: Float := Float(0)

  datatype Vec2 = Vec2(x: Float, y: Float)
  datatype Vec3 = Vec3(x: Float, y: Float, z: Float)

  datatype Row4 = Row4(c0: Float, c1: Float, c2: Float, c3: Float)
  datatype Matrix = Matrix(r0: Row4, r1: Row4, r2: Row4, r3: Row4)

  /** The four little-endian bytes of a 32-bit float, as `struct.pack("<f", x)` writes them. */
  datatype F32 = F32(b0: byte, b1: byte, b2: byte, b3: byte)

  datatype FloatModel = FloatModel(
    round6: Float -> Float,          // round(x, 6)
    pack32: Float -> F32,            // struct.pack("<f", x)
    fixed6: Float -> seq<byte>,      // b"%.6f" % x
    inverted: Matrix -> Matrix,      // m.inverted()
    compose: (Matrix, Matrix) -> Matrix)  // a @ b

  /** `%.6f` never produces a newline, so each formatted field stays on its line. */
  ghost predicate FormatsAreNewlineFree(ops: FloatModel) {
    forall x :: NewlineFree(ops.fixed6(x))
  }

  function F32Bytes(f: F32): (r: seq<byte>)
    ensures |r| == 4
  {
    [f.b0, f.b1, f.b2, f.b3]
  }

  function DecodeF32(b: seq<byte>): F32
    requires |b| >= 4
  {
    F32(b[0], b[1], b[2], b[3])
  }

  lemma F32RoundTrip(f: F32, rest: seq<byte>)
    ensures DecodeF32(F32Bytes(f) + rest) == f
  {
  }

  /** Floats joined by single spaces, as in `b"%.6f %.6f %.6f" % v`. */
  function FixedFields(xs: seq<Float>, ops: FloatModel): seq<byte>
  {
    if xs == [] then []
    else if |xs| == 1 then ops.fixed6(xs[0])
    else ops.fixed6(xs[0]) + [SPACE] + FixedFields(xs[1..], ops)
  }

  lemma {:induction false} FixedFieldsNewlineFree(xs: seq<Float>, ops: FloatModel)
    requires FormatsAreNewlineFree(ops)
    ensures NewlineFree(FixedFields(xs, ops))
  {
    if |xs| > 1 {
      FixedFieldsNewlineFree(xs[1..], ops);
      assert NewlineFree(ops.fixed6(xs[0]));
    } else if |xs| == 1 {
      assert NewlineFree(ops.fixed6(xs[0]));
    }
  }

  function Vec2Fields(v: Vec2): seq<Float> { [v.x, v.y] }
  function Vec3Fields(v: Vec3): seq<Float> { [v.x, v.y, v.z] }
  function RowFields(r: Row4): seq<Float> { [r.c0, r.c1, r.c2, r.c3] }
}

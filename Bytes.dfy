/**
 * Byte-level encodings used by the asset writers: little-endian integers as
 * packed by `struct.pack("<I")` and `struct.pack("<h")`, decimal numerals as
 * produced by `%u` and `%i`, and newline-terminated lines.
 */
module Bytes {

  import opened Wrappers

  newtype byte = x: int | 0 <= x < 256

  const NL: byte := 10
  const SPACE: byte := 32
  const MINUS: byte := 45

  /** The bytes of an ASCII literal, as `bytes(s, 'UTF-8')` encodes it. */
  function Ascii(s: string): (r: seq<byte>)
    requires forall i :: 0 <= i < |s| ==> s[i] as int < 128
    ensures |r| == |s|
    ensures forall i :: 0 <= i < |s| ==> r[i] as int == s[i] as int
  {
    seq(|s|, i requires 0 <= i < |s| && s[i] as int < 128 => s[i] as int as byte)
  }

  function Pow256(k: nat): (p: nat)
    ensures p >= 1
  {
    if k == 0 then 1 else 256 * Pow256(k - 1)
  }

  // ---------------------------------------------------------------------
  // Little-endian unsigned integers
  // ---------------------------------------------------------------------

  /** `n` written as `k` little-endian bytes. */
  function LittleEndian(n: nat, k: nat): (r: seq<byte>)
    requires n < Pow256(k)
    ensures |r| == k
  {
    if k == 0 then [] else [(n % 256) as byte] + LittleEndian(n / 256, k - 1)
  }

  function FromLittleEndian(b: seq<byte>): nat
  {
    if b == [] then 0 else b[0] as nat + 256 * FromLittleEndian(b[1..])
  }

  lemma {:induction false} LittleEndianRoundTrip(n: nat, k: nat)
    requires n < Pow256(k)
    ensures FromLittleEndian(LittleEndian(n, k)) == n
  {
    if k > 0 {
      LittleEndianRoundTrip(n / 256, k - 1);
      var r := LittleEndian(n, k);
      assert r[1..] == LittleEndian(n / 256, k - 1);
    }
  }

  const U32_LIMIT: nat := 0x1_0000_0000

  /** `struct.pack("<I", n)`. */
  function U32(n: nat): (r: seq<byte>)
    requires n < U32_LIMIT
    ensures |r| == 4
  {
    assert Pow256(4) == U32_LIMIT;
    LittleEndian(n, 4)
  }

  function DecodeU32(b: seq<byte>): nat
    requires |b| >= 4
  {
    FromLittleEndian(b[..4])
  }

  lemma U32RoundTrip(n: nat, rest: seq<byte>)
    requires n < U32_LIMIT
    ensures DecodeU32(U32(n) + rest) == n
  {
    assert (U32(n) + rest)[..4] == U32(n);
    assert Pow256(4) == U32_LIMIT;
    LittleEndianRoundTrip(n, 4);
  }

  /** `struct.pack("<h", v)`: a signed 16-bit two's-complement value. */
  function I16(v: int): (r: seq<byte>)
    requires -32768 <= v < 32768
    ensures |r| == 2
  {
    assert Pow256(2) == 65536;
    LittleEndian(if v < 0 then v + 65536 else v, 2)
  }

  function DecodeI16(b: seq<byte>): int
    requires |b| >= 2
  {
    var u := FromLittleEndian(b[..2]);
    if u >= 32768 then u - 65536 else u
  }

  lemma I16RoundTrip(v: int, rest: seq<byte>)
    requires -32768 <= v < 32768
    ensures DecodeI16(I16(v) + rest) == v
  {
    assert (I16(v) + rest)[..2] == I16(v);
    assert Pow256(2) == 65536;
    LittleEndianRoundTrip(if v < 0 then v + 65536 else v, 2);
  }

  // ---------------------------------------------------------------------
  // Decimal numerals
  // ---------------------------------------------------------------------

  predicate IsDigit(b: byte) {
    48 <= b <= 57
  }

  function Digit(d: nat): (b: byte)
    requires d < 10
    ensures IsDigit(b) && b as int - 48 == d
  {
    (48 + d) as byte
  }

  /** `b"%u" % n`: the shortest decimal numeral of `n`. */
  function Decimal(n: nat): (r: seq<byte>)
    ensures 1 <= |r|
    ensures forall i :: 0 <= i < |r| ==> IsDigit(r[i])
    ensures r[0] == 48 ==> n == 0
  {
    if n < 10 then [Digit(n)] else Decimal(n / 10) + [Digit(n % 10)]
  }

  /** Reads a run of digits back as a number. */
  function ParseDecimal(s: seq<byte>): nat
    requires forall i :: 0 <= i < |s| ==> IsDigit(s[i])
  {
    if s == [] then 0
    else
      assert IsDigit(s[|s| - 1]);
      ParseDecimal(s[..|s| - 1]) * 10 + (s[|s| - 1] as int - 48)
  }

  lemma {:induction false} DecimalRoundTrip(n: nat)
    ensures ParseDecimal(Decimal(n)) == n
  {
    if n >= 10 {
      DecimalRoundTrip(n / 10);
      var r := Decimal(n);
      assert r[..|r| - 1] == Decimal(n / 10);
    }
  }

  /** `b"%i" % v`: a decimal numeral with a leading minus sign when negative. */
  function SignedDecimal(v: int): (r: seq<byte>)
    ensures v >= 0 ==> r == Decimal(v)
    ensures v < 0 ==> r == [MINUS] + Decimal(-v)
  {
    if v < 0 then [MINUS] + Decimal(-v) else Decimal(v)
  }

  predicate Digits(s: seq<byte>) {
    s != [] && forall i :: 0 <= i < |s| ==> IsDigit(s[i])
  }

  /** Reads a `%i` field back: a non-empty run of digits, after a minus sign when negative. */
  function ParseSignedDecimal(s: seq<byte>): Option<int>
  {
    if s != [] && s[0] == MINUS then
      if Digits(s[1..]) then Some(-(ParseDecimal(s[1..]) as int)) else None
    else if Digits(s) then Some(ParseDecimal(s))
    else None
  }

  lemma SignedDecimalRoundTrip(v: int)
    ensures ParseSignedDecimal(SignedDecimal(v)) == Some(v)
    ensures NewlineFree(SignedDecimal(v)) && forall i :: 0 <= i < |SignedDecimal(v)| ==> SignedDecimal(v)[i] != SPACE
  {
    var r := SignedDecimal(v);
    if v < 0 {
      var d := Decimal(-v);
      DecimalRoundTrip(-v);
      assert r == [MINUS] + d && r[1..] == d && Digits(d);
      assert ParseSignedDecimal(r) == Some(-(ParseDecimal(d) as int));
    } else {
      DecimalRoundTrip(v);
      assert r == Decimal(v) && Digits(r) && r[0] != MINUS;
    }
  }

  /** A decimal numeral padded with leading zeros to `width` digits (strftime's `%m`, `%Y`, ...). */
  function Padded(n: nat, width: nat): (r: seq<byte>)
    requires n < Pow10(width)
    ensures |r| == width
    ensures forall i :: 0 <= i < |r| ==> IsDigit(r[i])
  {
    if width == 0 then [] else Padded(n / 10, width - 1) + [Digit(n % 10)]
  }

  function Pow10(k: nat): (p: nat)
    ensures p >= 1
  {
    if k == 0 then 1 else 10 * Pow10(k - 1)
  }

  lemma {:induction false} PaddedRoundTrip(n: nat, width: nat)
    requires n < Pow10(width)
    ensures ParseDecimal(Padded(n, width)) == n
  {
    if width > 0 {
      PaddedRoundTrip(n / 10, width - 1);
      var r := Padded(n, width);
      assert r[..|r| - 1] == Padded(n / 10, width - 1);
    }
  }

  // ---------------------------------------------------------------------
  // Lines of the text encodings
  // ---------------------------------------------------------------------

  predicate NewlineFree(s: seq<byte>) {
    forall i :: 0 <= i < |s| ==> s[i] != NL
  }

  lemma NewlineFreeConcat(a: seq<byte>, b: seq<byte>)
    requires NewlineFree(a) && NewlineFree(b)
    ensures NewlineFree(a + b)
  {
    forall i | 0 <= i < |a + b| ensures (a + b)[i] != NL {
      if i >= |a| { assert (a + b)[i] == b[i - |a|]; }
    }
  }

  /** The bytes of successive `fw (b"...\n")` calls: every line followed by a newline. */
  function JoinLines(lines: seq<seq<byte>>): seq<byte>
  {
    if lines == [] then [] else lines[0] + [NL] + JoinLines(lines[1..])
  }

  lemma {:induction false} JoinLinesAppend(a: seq<seq<byte>>, b: seq<seq<byte>>)
    ensures JoinLines(a + b) == JoinLines(a) + JoinLines(b)
  {
    if a != [] {
      assert (a + b)[0] == a[0] && (a + b)[1..] == a[1..] + b;
      JoinLinesAppend(a[1..], b);
      calc {
        JoinLines(a + b);
        a[0] + [NL] + JoinLines(a[1..] + b);
        a[0] + [NL] + (JoinLines(a[1..]) + JoinLines(b));
      }
    } else {
      assert a + b == b;
    }
  }

  /** Writing one more line appends it and its newline. */
  lemma JoinLinesSnoc(lines: seq<seq<byte>>, line: seq<byte>)
    ensures JoinLines(lines + [line]) == JoinLines(lines) + line + [NL]
  {
    JoinLinesAppend(lines, [line]);
    assert [line][1..] == [];
  }

  /** Position of the first occurrence of `x` in `s`, or `|s|` when there is none. */
  function FirstIndex(s: seq<byte>, x: byte): (k: nat)
    ensures k <= |s|
    ensures forall i :: 0 <= i < k ==> s[i] != x
    ensures k < |s| ==> s[k] == x
  {
    if s == [] then 0 else if s[0] == x then 0 else 1 + FirstIndex(s[1..], x)
  }

  lemma {:induction false} FirstIndexAfter(field: seq<byte>, x: byte, rest: seq<byte>)
    requires forall i :: 0 <= i < |field| ==> field[i] != x
    ensures FirstIndex(field + [x] + rest, x) == |field|
  {
    if field != [] {
      assert (field + [x] + rest)[1..] == field[1..] + [x] + rest;
      FirstIndexAfter(field[1..], x, rest);
    }
  }

  function NewlineAt(s: seq<byte>): (k: nat)
    ensures k <= |s|
    ensures NewlineFree(s[..k])
    ensures k < |s| ==> s[k] == NL
  {
    FirstIndex(s, NL)
  }

  /** A reader's view of a text file: the lines between newlines. */
  function SplitLines(s: seq<byte>): seq<seq<byte>>
    decreases |s|
  {
    if s == [] then []
    else
      var k := NewlineAt(s);
      if k == |s| then [s] else [s[..k]] + SplitLines(s[k + 1..])
  }

  /** Splitting the written bytes at newlines gives back exactly the lines written. */
  lemma {:induction false} SplitJoinLines(lines: seq<seq<byte>>)
    requires forall i :: 0 <= i < |lines| ==> NewlineFree(lines[i])
    ensures SplitLines(JoinLines(lines)) == lines
  {
    if lines != [] {
      var s := JoinLines(lines);
      var rest := JoinLines(lines[1..]);
      FirstIndexAfter(lines[0], NL, rest);
      assert s[..|lines[0]|] == lines[0];
      assert s[|lines[0]| + 1..] == rest;
      SplitJoinLines(lines[1..]);
    }
  }

  predicate SpaceFree(s: seq<byte>) {
    forall i :: 0 <= i < |s| ==> s[i] != SPACE
  }

  /** Fields joined by single spaces, as `%` formats `"%u %u %u"`. */
  function Spaced(fs: seq<seq<byte>>): seq<byte>
    requires fs != []
  {
    if |fs| == 1 then fs[0] else fs[0] + [SPACE] + Spaced(fs[1..])
  }

  /** A reader's view of a line: the fields between spaces. */
  function Fields(s: seq<byte>): seq<seq<byte>>
    decreases |s|
  {
    var k := FirstIndex(s, SPACE);
    if k == |s| then [s] else [s[..k]] + Fields(s[k + 1..])
  }

  lemma FieldsOne(a: seq<byte>)
    requires SpaceFree(a)
    ensures Fields(a) == [a]
  {
    assert FirstIndex(a, SPACE) == |a|;
  }

  lemma FieldsCons(a: seq<byte>, rest: seq<byte>)
    requires SpaceFree(a)
    ensures Fields(a + [SPACE] + rest) == [a] + Fields(rest)
  {
    var s := a + [SPACE] + rest;
    FirstIndexAfter(a, SPACE, rest);
    assert s[..|a|] == a && s[|a| + 1..] == rest;
  }

  /** Splitting space-joined fields that hold no space gives them back. */
  lemma {:induction false} FieldsOfSpaced(fs: seq<seq<byte>>)
    requires fs != [] && forall i :: 0 <= i < |fs| ==> SpaceFree(fs[i])
    ensures Fields(Spaced(fs)) == fs
  {
    if |fs| == 1 {
      FieldsOne(fs[0]);
    } else {
      FieldsCons(fs[0], Spaced(fs[1..]));
      FieldsOfSpaced(fs[1..]);
      assert fs == [fs[0]] + fs[1..];
    }
  }

  lemma {:induction false} SpacedNewlineFree(fs: seq<seq<byte>>)
    requires fs != [] && forall i :: 0 <= i < |fs| ==> NewlineFree(fs[i])
    ensures NewlineFree(Spaced(fs))
  {
    if |fs| > 1 {
      SpacedNewlineFree(fs[1..]);
      NewlineFreeConcat(fs[0], [SPACE]);
      NewlineFreeConcat(fs[0] + [SPACE], Spaced(fs[1..]));
    }
  }

  lemma DecimalNewlineFree(n: nat)
    ensures NewlineFree(Decimal(n))
  {
  }
}

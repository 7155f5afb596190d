/**
 * The preamble every asset file starts with (`write_asset_header`): the
 * format-identifier bytes, the version triple as `"%u.%u.%u\n"` and the
 * generation time as `"%Y:%m:%d.%H:%M:%S\n"`. The clock is a parameter.
 */
module AssetHeader {
  import opened Wrappers
  import opened Bytes
  import opened Seqs

  datatype Version = Version(major: nat, minor: nat, patch: nat)

  datatype DateTime = DateTime(year: nat, month: nat, day: nat, hour: nat, minute: nat, second: nat)

  /** The values `datetime.now()` yields, restricted to four-digit years. */
  predicate ValidDateTime(t: DateTime) {
    1000 <= t.year <= 9999 && 1 <= t.month <= 12 && 1 <= t.day <= 31 &&
    t.hour < 24 && t.minute < 60 && t.second < 60
  }

  const DOT: byte := 46
  const COLON: byte := 58

  /** The format identifiers of the three files the exporter writes. */
  const MESH_BIN: seq<byte> := Ascii("MeshBin\n")
  const MESH_TXT: seq<byte> := Ascii("MeshTxt\n")
  const SKEL_TXT: seq<byte> := Ascii("SkelTxt\n")

  function VersionText(v: Version): seq<byte>
  {
    Decimal(v.major) + [DOT] + Decimal(v.minor) + [DOT] + Decimal(v.patch)
  }

  function TimestampText(t: DateTime): seq<byte>
    requires ValidDateTime(t)
  {
    Padded(t.year, 4) + [COLON] + Padded(t.month, 2) + [COLON] + Padded(t.day, 2) + [DOT] +
    Padded(t.hour, 2) + [COLON] + Padded(t.minute, 2) + [COLON] + Padded(t.second, 2)
  }

  /** The bytes `write_asset_header (file, version, format_identifier)` writes at time `now`. */
  function Header(formatId: seq<byte>, version: Version, now: DateTime): (r: seq<byte>)
    requires ValidDateTime(now)
    ensures |r| > |formatId| && r[..|formatId|] == formatId && r[|r| - 1] == NL
  {
    formatId + VersionText(version) + [NL] + TimestampText(now) + [NL]
  }

  /** `write_asset_header`: the identifier, then the version line, then the timestamp line. */
  method WriteAssetHeader(formatId: seq<byte>, version: Version, now: DateTime) returns (out: seq<byte>)
    requires ValidDateTime(now)
    ensures out == Header(formatId, version, now)
  {
    out := formatId;
    out := out + VersionText(version) + [NL];
    out := out + TimestampText(now) + [NL];
  }

  // ---------------------------------------------------------------------
  // Reading a header back
  // ---------------------------------------------------------------------

  datatype HeaderFields = HeaderFields(formatId: seq<byte>, version: Version, now: DateTime, payload: seq<byte>)

  predicate AllDigits(s: seq<byte>) {
    forall i :: 0 <= i < |s| ==> IsDigit(s[i])
  }

  /** One non-empty run of digits, or nothing. */
  function ParseField(s: seq<byte>): Option<nat>
  {
    if s != [] && AllDigits(s) then Some(ParseDecimal(s)) else None
  }

  function ParseVersion(s: seq<byte>): Option<Version>
  {
    var i := FirstIndex(s, DOT);
    if i == |s| then None
    else
      var tail := s[i + 1..];
      var j := FirstIndex(tail, DOT);
      if j == |tail| then None
      else
        var a, b, c := ParseField(s[..i]), ParseField(tail[..j]), ParseField(tail[j + 1..]);
        if a.Some? && b.Some? && c.Some? then Some(Version(a.value, b.value, c.value)) else None
  }

  predicate TimestampShape(s: seq<byte>) {
    |s| == 19 &&
    s[4] == COLON && s[7] == COLON && s[10] == DOT && s[13] == COLON && s[16] == COLON &&
    AllDigits(s[..4]) && AllDigits(s[5..7]) && AllDigits(s[8..10]) &&
    AllDigits(s[11..13]) && AllDigits(s[14..16]) && AllDigits(s[17..])
  }

  function ParseTimestamp(s: seq<byte>): DateTime
    requires TimestampShape(s)
  {
    DateTime(ParseDecimal(s[..4]), ParseDecimal(s[5..7]), ParseDecimal(s[8..10]),
             ParseDecimal(s[11..13]), ParseDecimal(s[14..16]), ParseDecimal(s[17..]))
  }

  /** How a reader takes a file apart: 8 identifier bytes, a version line, a timestamp line. */
  function DecodeHeader(b: seq<byte>): Option<HeaderFields>
  {
    if |b| < 8 then None
    else
      var rest := b[8..];
      var k := FirstIndex(rest, NL);
      if k == |rest| then None
      else
        var after := rest[k + 1..];
        match ParseVersion(rest[..k])
        case None => None
        case Some(v) =>
          if |after| < 20 || after[19] != NL || !TimestampShape(after[..19]) then None
          else Some(HeaderFields(b[..8], v, ParseTimestamp(after[..19]), after[20..]))
  }

  lemma DecimalIsField(n: nat)
    ensures ParseField(Decimal(n)) == Some(n)
    ensures forall i :: 0 <= i < |Decimal(n)| ==> Decimal(n)[i] != DOT && Decimal(n)[i] != NL
  {
    DecimalRoundTrip(n);
  }

  /** Cutting `field + [x] + rest` at its first `x` gives back `field` and `rest`. */
  lemma CutAt(field: seq<byte>, x: byte, rest: seq<byte>)
    requires forall i :: 0 <= i < |field| ==> field[i] != x
    ensures FirstIndex(field + [x] + rest, x) == |field|
    ensures (field + [x] + rest)[..|field|] == field
    ensures (field + [x] + rest)[|field| + 1..] == rest
  {
    FirstIndexAfter(field, x, rest);
  }

  /** A version line is read field by field, each field cut at the next dot. */
  lemma ParseVersionOf(a: seq<byte>, b: seq<byte>, c: seq<byte>, v: Version)
    requires forall i :: 0 <= i < |a| ==> a[i] != DOT
    requires forall i :: 0 <= i < |b| ==> b[i] != DOT
    requires ParseField(a) == Some(v.major) && ParseField(b) == Some(v.minor) && ParseField(c) == Some(v.patch)
    ensures ParseVersion(a + [DOT] + (b + [DOT] + c)) == Some(v)
  {
    var tail := b + [DOT] + c;
    var s := a + [DOT] + tail;
    CutAt(a, DOT, tail);
    CutAt(b, DOT, c);
  }

  lemma VersionRoundTrip(v: Version)
    ensures ParseVersion(VersionText(v)) == Some(v)
  {
    var a, b, c := Decimal(v.major), Decimal(v.minor), Decimal(v.patch);
    DecimalIsField(v.major);
    DecimalIsField(v.minor);
    DecimalIsField(v.patch);
    assert VersionText(v) == a + [DOT] + (b + [DOT] + c);
    ParseVersionOf(a, b, c, v);
  }

  lemma VersionNewlineFree(v: Version)
    ensures NewlineFree(VersionText(v))
  {
    var a, b, c := Decimal(v.major), Decimal(v.minor), Decimal(v.patch);
    DecimalNewlineFree(v.major);
    DecimalNewlineFree(v.minor);
    DecimalNewlineFree(v.patch);
    NewlineFreeConcat(a, [DOT]);
    NewlineFreeConcat(a + [DOT], b);
    NewlineFreeConcat(a + [DOT] + b, [DOT]);
    NewlineFreeConcat(a + [DOT] + b + [DOT], c);
  }

  lemma TimestampRoundTrip(t: DateTime)
    requires ValidDateTime(t)
    ensures |TimestampText(t)| == 19
    ensures TimestampShape(TimestampText(t))
    ensures ParseTimestamp(TimestampText(t)) == t
  {
    assert Pow10(2) == 100 && Pow10(4) == 10000;
    TimestampFieldsAt(Padded(t.year, 4), Padded(t.month, 2), Padded(t.day, 2),
                      Padded(t.hour, 2), Padded(t.minute, 2), Padded(t.second, 2));
    PaddedRoundTrip(t.year, 4);
    PaddedRoundTrip(t.month, 2);
    PaddedRoundTrip(t.day, 2);
    PaddedRoundTrip(t.hour, 2);
    PaddedRoundTrip(t.minute, 2);
    PaddedRoundTrip(t.second, 2);
  }

  /** Where each field of the `%Y:%m:%d.%H:%M:%S` layout sits. */
  lemma TimestampFieldsAt(y: seq<byte>, mo: seq<byte>, d: seq<byte>, h: seq<byte>, mi: seq<byte>, se: seq<byte>)
    requires |y| == 4 && |mo| == 2 && |d| == 2 && |h| == 2 && |mi| == 2 && |se| == 2
    ensures var s := y + [COLON] + mo + [COLON] + d + [DOT] + h + [COLON] + mi + [COLON] + se;
            |s| == 19 && s[4] == COLON && s[7] == COLON && s[10] == DOT && s[13] == COLON && s[16] == COLON &&
            s[..4] == y && s[5..7] == mo && s[8..10] == d && s[11..13] == h && s[14..16] == mi && s[17..] == se
  {
    var s := y + [COLON] + mo + [COLON] + d + [DOT] + h + [COLON] + mi + [COLON] + se;
    assert s[..4] == y;
    assert s[5..7] == mo;
    assert s[8..10] == d;
    assert s[11..13] == h;
    assert s[14..16] == mi;
    assert s[17..] == se;
  }

  /**
   * A reader recovers the identifier, the version and the time from any
   * header with an 8-byte identifier, and the payload starts right after it.
   */
  lemma HeaderRoundTrip(formatId: seq<byte>, version: Version, now: DateTime, payload: seq<byte>)
    requires |formatId| == 8 && ValidDateTime(now)
    ensures DecodeHeader(Header(formatId, version, now) + payload) ==
            Some(HeaderFields(formatId, version, now, payload))
  {
    var vt := VersionText(version);
    var ts := TimestampText(now);
    var after := ts + [NL] + payload;
    var rest := vt + [NL] + after;
    var b := Header(formatId, version, now) + payload;
    VersionRoundTrip(version);
    VersionNewlineFree(version);
    TimestampRoundTrip(now);
    HeaderLayout(formatId, vt, ts, payload);
    CutAt(vt, NL, after);
    assert b[8..] == rest;
    assert FirstIndex(rest, NL) == |vt| && rest[..|vt|] == vt && rest[|vt| + 1..] == after;
  }

  /** Where the identifier, the version line and the timestamp line sit in a header. */
  lemma HeaderLayout(formatId: seq<byte>, vt: seq<byte>, ts: seq<byte>, payload: seq<byte>)
    requires |formatId| == 8 && |ts| == 19
    ensures var b := formatId + vt + [NL] + ts + [NL] + payload;
            var after := ts + [NL] + payload;
            |b| >= 8 && b[..8] == formatId && b[8..] == vt + [NL] + after &&
            |after| >= 20 && after[..19] == ts && after[19] == NL && after[20..] == payload
  {
    var b := formatId + vt + [NL] + ts + [NL] + payload;
    var after := ts + [NL] + payload;
    assert b == formatId + (vt + [NL] + after);
    DropPrefix(formatId, vt + [NL] + after);
    assert after == ts + ([NL] + payload);
    DropPrefix(ts + [NL], payload);
  }

  /** The three identifiers the writers use are distinct and 8 bytes long, so a reader can dispatch on them. */
  lemma FormatIdsDistinct()
    ensures |MESH_BIN| == |MESH_TXT| == |SKEL_TXT| == 8
    ensures MESH_BIN[7] == NL && MESH_TXT[7] == NL && SKEL_TXT[7] == NL
    ensures MESH_BIN != MESH_TXT && MESH_BIN != SKEL_TXT && MESH_TXT != SKEL_TXT
  {
    assert MESH_BIN[4] != MESH_TXT[4];
    assert MESH_BIN[0] != SKEL_TXT[0];
    assert MESH_TXT[0] != SKEL_TXT[0];
  }
}

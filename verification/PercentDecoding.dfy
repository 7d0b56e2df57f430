/**
 Percent-decoding of request paths (sections 2.1 and 2.4 of RFC 3986), with the server's own
 refusals of encoded slashes and of null bytes.
 */
module PercentDecoding {
  import opened ByteStrings
  import opened Errors
  import Utf8

  /** The value of one hexadecimal digit of either case. */
  function HexValue(b: Byte): Option<Byte> {
    if 0x30 <= b <= 0x39 then Some(b - 0x30)
    else if 0x61 <= b <= 0x66 then Some(b - 0x61 + 10)
    else if 0x41 <= b <= 0x46 then Some(b - 0x41 + 10)
    else None
  }

  datatype Unit = Good(value: Byte, width: nat) | Bad(error: ResolveError)

  /** Reads the unit a nonempty string starts with: an escape of three bytes, or one plain byte. */
  function ReadUnit(p: ByteString): (u: Unit)
    requires p != []
    ensures u.Good? ==> 1 <= u.width <= |p|
  {
    if p[0] == PERCENT then
      if |p| < 3 then Bad(InvalidPercentEncoding)
      else
        match (HexValue(p[1]), HexValue(p[2]))
        case (Some(high), Some(low)) =>
          if high * 16 + low == SLASH then Bad(EncodedSlash)
          else if high * 16 + low == NUL then Bad(NullByte)
          else Good(high * 16 + low, 3)
        case _ => Bad(InvalidPercentEncoding)
    else if p[0] == NUL then Bad(NullByte)
    else Good(p[0], 1)
  }

  /** The bytes a path stands for, read from left to right up to the first bad unit. */
  function DecodeBytes(p: ByteString): Result<ByteString, ResolveError> {
    if p == [] then Success([])
    else
      match ReadUnit(p)
      case Bad(e) => Failure(e)
      case Good(value, width) =>
        match DecodeBytes(p[width..])
        case Failure(e) => Failure(e)
        case Success(rest) => Success([value] + rest)
  }

  function Decode(p: ByteString): Result<ByteString, ResolveError> {
    match DecodeBytes(p)
    case Failure(e) => Failure(e)
    case Success(s) => if Utf8.Valid(s) then Success(s) else Failure(InvalidUtf8)
  }

  /** What decoding `p` gives once `done` has been decoded in front of it. */
  function Continue(done: ByteString, rest: Result<ByteString, ResolveError>): Result<ByteString, ResolveError> {
    match rest
    case Failure(e) => Failure(e)
    case Success(s) => Success(done + s)
  }

  lemma Undone(rest: Result<ByteString, ResolveError>)
    ensures Continue([], rest) == rest
  {
    if rest.Success? {
      assert [] + rest.value == rest.value;
    }
  }

  lemma ContinueTwice(done: ByteString, next: ByteString, rest: Result<ByteString, ResolveError>)
    ensures Continue(done, Continue(next, rest)) == Continue(done + next, rest)
  {
    if rest.Success? {
      assert done + (next + rest.value) == done + next + rest.value;
    }
  }

  method DecodePercentPath(path: ByteString) returns (r: Result<ByteString, ResolveError>)
    ensures r == Decode(path)
  {
    var decoded: ByteString := [];
    var index := 0;
    assert path[0..] == path;
    Undone(DecodeBytes(path));
    while index < |path|
      invariant 0 <= index <= |path|
      invariant DecodeBytes(path) == Continue(decoded, DecodeBytes(path[index..]))
    {
      ghost var rest := path[index..];
      assert forall k :: 0 <= k < |rest| ==> rest[k] == path[index + k];
      if path[index] == PERCENT {
        if index + 2 >= |path| {
          return Failure(InvalidPercentEncoding);
        }
        var high := HexValue(path[index + 1]);
        if high == None {
          return Failure(InvalidPercentEncoding);
        }
        var low := HexValue(path[index + 2]);
        if low == None {
          return Failure(InvalidPercentEncoding);
        }
        var decodedByte := high.value * 16 + low.value;
        if decodedByte == SLASH {
          return Failure(EncodedSlash);
        }
        if decodedByte == NUL {
          return Failure(NullByte);
        }
        assert rest[3..] == path[index + 3..];
        ContinueTwice(decoded, [decodedByte], DecodeBytes(path[index + 3..]));
        decoded := decoded + [decodedByte];
        index := index + 3;
      } else {
        if path[index] == NUL {
          return Failure(NullByte);
        }
        assert rest[1..] == path[index + 1..];
        ContinueTwice(decoded, [path[index]], DecodeBytes(path[index + 1..]));
        decoded := decoded + [path[index]];
        index := index + 1;
      }
    }
    assert path[index..] == [];
    assert decoded + [] == decoded;
    if Utf8.Valid(decoded) {
      r := Success(decoded);
    } else {
      r := Failure(InvalidUtf8);
    }
  }

  // ----- The encodings of a string, described without reading them -----

  const LOWER_DIGITS: ByteString :=
    [0x30, 0x31, 0x32, 0x33, 0x34, 0x35, 0x36, 0x37, 0x38, 0x39, 0x61, 0x62, 0x63, 0x64, 0x65, 0x66]

  const UPPER_DIGITS: ByteString :=
    [0x30, 0x31, 0x32, 0x33, 0x34, 0x35, 0x36, 0x37, 0x38, 0x39, 0x41, 0x42, 0x43, 0x44, 0x45, 0x46]

  ghost predicate IsDigit(b: Byte, value: nat) {
    value < 16 && (b == LOWER_DIGITS[value] || b == UPPER_DIGITS[value])
  }

  lemma HexValueIsDigit(b: Byte, value: Byte)
    ensures HexValue(b) == Some(value) <==> IsDigit(b, value)
  {
    if value < 10 {
      assert LOWER_DIGITS[value] == 0x30 + value == UPPER_DIGITS[value];
    } else if value < 16 {
      assert LOWER_DIGITS[value] == 0x61 + value - 10;
      assert UPPER_DIGITS[value] == 0x41 + value - 10;
    }
  }

  /** The ways to write one byte: itself, or an escape unless it is a slash; a null byte has none. */
  ghost predicate Spells(unit: ByteString, b: Byte) {
    && b != NUL
    && (|| (unit == [b] && b != PERCENT)
        || (&& b != SLASH
            && |unit| == 3
            && unit[0] == PERCENT
            && IsDigit(unit[1], b / 16)
            && IsDigit(unit[2], b % 16)))
  }

  function Concat(units: seq<ByteString>): ByteString {
    if units == [] then [] else units[0] + Concat(units[1..])
  }

  ghost predicate SpellsAll(units: seq<ByteString>, s: ByteString) {
    |units| == |s| && forall i :: 0 <= i < |s| ==> Spells(units[i], s[i])
  }

  /** `p` writes `s`, byte by byte, each byte in any of its spellings. */
  ghost predicate Encodes(p: ByteString, s: ByteString) {
    exists units :: SpellsAll(units, s) && Concat(units) == p
  }

  ghost predicate WellEncoded(p: ByteString) {
    exists s :: Encodes(p, s)
  }

  lemma ReadSpelling(unit: ByteString, b: Byte, rest: ByteString)
    requires Spells(unit, b)
    ensures unit != [] && ReadUnit(unit + rest) == Good(b, |unit|)
  {
    var whole := unit + rest;
    if unit == [b] && b != PERCENT {
      assert whole[0] == b;
    } else {
      assert whole[0] == PERCENT && whole[1] == unit[1] && whole[2] == unit[2];
      HexValueIsDigit(unit[1], b / 16);
      HexValueIsDigit(unit[2], b % 16);
    }
  }

  lemma ReadUnitSpells(p: ByteString)
    requires p != [] && ReadUnit(p).Good?
    ensures Spells(p[..ReadUnit(p).width], ReadUnit(p).value)
  {
    var u := ReadUnit(p);
    if p[0] == PERCENT {
      var high, low := HexValue(p[1]).value, HexValue(p[2]).value;
      HexValueIsDigit(p[1], high);
      HexValueIsDigit(p[2], low);
      assert u.value / 16 == high && u.value % 16 == low;
    }
  }

  lemma DecodeSpelling(unit: ByteString, b: Byte, rest: ByteString)
    requires Spells(unit, b)
    ensures DecodeBytes(unit + rest) == Continue([b], DecodeBytes(rest))
  {
    ReadSpelling(unit, b, rest);
    assert (unit + rest)[|unit|..] == rest;
  }

  lemma {:induction false} DecodeConcat(units: seq<ByteString>, s: ByteString, rest: ByteString)
    requires SpellsAll(units, s)
    ensures DecodeBytes(Concat(units) + rest) == Continue(s, DecodeBytes(rest))
  {
    if s == [] {
      assert Concat(units) + rest == rest;
      Undone(DecodeBytes(rest));
    } else {
      var tail := Concat(units[1..]);
      assert Concat(units) + rest == units[0] + (tail + rest);
      DecodeSpelling(units[0], s[0], tail + rest);
      DecodeConcat(units[1..], s[1..], rest);
      ContinueTwice([s[0]], s[1..], DecodeBytes(rest));
      assert [s[0]] + s[1..] == s;
    }
  }

  lemma NoSpellings()
    ensures SpellsAll([], [])
  {
  }

  lemma SpellsOneMore(unit: ByteString, b: Byte, units: seq<ByteString>, s: ByteString)
    requires Spells(unit, b) && SpellsAll(units, s)
    ensures SpellsAll([unit] + units, [b] + s)
  {
  }

  lemma {:induction false} SpellingsOfDecoded(p: ByteString) returns (units: seq<ByteString>)
    requires DecodeBytes(p).Success?
    ensures SpellsAll(units, DecodeBytes(p).value) && Concat(units) == p
    decreases |p|
  {
    hide SpellsAll, Spells;
    if p == [] {
      units := [];
      NoSpellings();
    } else {
      ReadUnitSpells(p);
      var n := ReadUnit(p).width;
      var rest := SpellingsOfDecoded(p[n..]);
      units := [p[..n]] + rest;
      assert units[1..] == rest;
      assert Concat(units) == p[..n] + Concat(rest);
      assert p[..n] + p[n..] == p;
      SpellsOneMore(p[..n], ReadUnit(p).value, rest, DecodeBytes(p[n..]).value);
    }
  }

  lemma BytesIffEncodes(p: ByteString, s: ByteString)
    ensures DecodeBytes(p) == Success(s) <==> Encodes(p, s)
  {
    if DecodeBytes(p) == Success(s) {
      var units := SpellingsOfDecoded(p);
      assert SpellsAll(units, s) && Concat(units) == p;
    }
    if Encodes(p, s) {
      var units :| SpellsAll(units, s) && Concat(units) == p;
      DecodeConcat(units, s, []);
      assert Concat(units) + [] == p && s + [] == s;
    }
  }

  /** Decoding is exactly the inverse of encoding, for every path and every string. */
  lemma DecodeIffEncodes(p: ByteString, s: ByteString)
    ensures Decode(p) == Success(s) <==> Encodes(p, s) && Utf8.Valid(s)
    ensures Decode(p) == Success(s) ==> NUL !in s
  {
    BytesIffEncodes(p, s);
    if Encodes(p, s) {
      var units :| SpellsAll(units, s) && Concat(units) == p;
      forall i | 0 <= i < |s| ensures s[i] != NUL {
        assert Spells(units[i], s[i]);
      }
    }
  }

  // ----- Failures -----

  /** What is wrong with the unit that starts here, if anything; stated on the text, not on its reading. */
  ghost function Fault(p: ByteString): Option<ResolveError>
    requires p != []
  {
    if p[0] == NUL then Some(NullByte)
    else if p[0] != PERCENT then None
    else if |p| < 3 || !(exists v :: IsDigit(p[1], v)) || !(exists v :: IsDigit(p[2], v)) then
      Some(InvalidPercentEncoding)
    else if Spelling(p[..3], SLASH) then Some(EncodedSlash)
    else if Spelling(p[..3], NUL) then Some(NullByte)
    else None
  }

  /** An escape that denotes the given byte. */
  ghost predicate Spelling(unit: ByteString, b: Byte) {
    |unit| == 3 && unit[0] == PERCENT && IsDigit(unit[1], b / 16) && IsDigit(unit[2], b % 16)
  }

  lemma DigitIsHex(b: Byte)
    ensures HexValue(b).Some? <==> exists v :: IsDigit(b, v)
  {
    if HexValue(b).Some? {
      HexValueIsDigit(b, HexValue(b).value);
    }
    if v: nat :| IsDigit(b, v) {
      HexValueIsDigit(b, v);
    }
  }

  lemma EscapeDenotes(p: ByteString, b: Byte)
    requires |p| >= 3 && p[0] == PERCENT
    ensures Spelling(p[..3], b) <==> HexValue(p[1]) == Some(b / 16) && HexValue(p[2]) == Some(b % 16)
  {
    HexValueIsDigit(p[1], b / 16);
    HexValueIsDigit(p[2], b % 16);
  }

  lemma FaultIsBadUnit(p: ByteString)
    requires p != []
    ensures Fault(p) == match ReadUnit(p) { case Bad(e) => Some(e) case Good(_, _) => None }
  {
    if p[0] == PERCENT && |p| >= 3 {
      DigitIsHex(p[1]);
      DigitIsHex(p[2]);
      EscapeDenotes(p, SLASH);
      EscapeDenotes(p, NUL);
    }
  }

  /** The prefix of `p` of length `k` is well encoded and the unit right after it has fault `e`. */
  ghost predicate FirstFault(p: ByteString, k: nat, e: ResolveError) {
    k < |p| && WellEncoded(p[..k]) && Fault(p[k..]) == Some(e)
  }

  lemma {:induction false} LeftmostFault(p: ByteString) returns (k: nat)
    requires DecodeBytes(p).Failure?
    ensures FirstFault(p, k, DecodeBytes(p).error)
    decreases |p|
  {
    FaultIsBadUnit(p);
    match ReadUnit(p)
    case Bad(e) =>
      k := 0;
      WellEncodedIffDecodes(p[..0]);
      assert p[0..] == p;
    case Good(value, n) =>
      var j := LeftmostFault(p[n..]);
      k := n + j;
      EncodesOneMore(p, j);
      assert p[k..] == p[n..][j..];
  }

  lemma WellEncodedIffDecodes(p: ByteString)
    ensures WellEncoded(p) <==> DecodeBytes(p).Success?
  {
    if DecodeBytes(p).Success? {
      BytesIffEncodes(p, DecodeBytes(p).value);
    }
    if s :| Encodes(p, s) {
      BytesIffEncodes(p, s);
    }
  }

  lemma EncodesOneMore(p: ByteString, j: nat)
    requires p != [] && ReadUnit(p).Good?
    requires j <= |p| - ReadUnit(p).width && WellEncoded(p[ReadUnit(p).width..][..j])
    ensures WellEncoded(p[..ReadUnit(p).width + j])
  {
    var n, value := ReadUnit(p).width, ReadUnit(p).value;
    var next := p[n..][..j];
    var whole := p[..n + j];
    assert whole == p[..n] + next;
    WellEncodedIffDecodes(next);
    WellEncodedIffDecodes(whole);
    ReadUnitSpells(p);
    DecodeSpelling(p[..n], value, next);
  }

  /**
   A failed decoding reports the fault of the leftmost bad unit; `InvalidUtf8` is reported
   exactly when no unit is bad and the decoded bytes are not UTF-8.
   */
  lemma DecodeFailure(p: ByteString, e: ResolveError)
    ensures Decode(p) == Failure(e)
       <==> || (exists k :: FirstFault(p, k, e))
            || (e == InvalidUtf8 && exists s :: Encodes(p, s) && !Utf8.Valid(s))
  {
    if Decode(p) == Failure(e) {
      match DecodeBytes(p)
      case Failure(_) =>
        var k := LeftmostFault(p);
        assert FirstFault(p, k, e);
      case Success(s) =>
        BytesIffEncodes(p, s);
    }
    if k: nat :| FirstFault(p, k, e) {
      var s :| Encodes(p[..k], s);
      var units :| SpellsAll(units, s) && Concat(units) == p[..k];
      DecodeConcat(units, s, p[k..]);
      FaultIsBadUnit(p[k..]);
      assert p[..k] + p[k..] == p;
    }
    if e == InvalidUtf8 && exists s :: Encodes(p, s) && !Utf8.Valid(s) {
      var s :| Encodes(p, s) && !Utf8.Valid(s);
      BytesIffEncodes(p, s);
    }
  }

  /** Decoding never reports anything but its own four errors. */
  lemma {:induction false} DecodeErrors(p: ByteString)
    ensures DecodeBytes(p).Failure? ==> DecodeBytes(p).error in {InvalidPercentEncoding, EncodedSlash, NullByte}
    decreases |p|
  {
    if p != [] && ReadUnit(p).Good? {
      DecodeErrors(p[ReadUnit(p).width..]);
    }
  }

  // ----- Decoding and slashes -----

  lemma ReadBeforeSlash(a: ByteString, b: ByteString)
    requires a != []
    ensures ReadUnit(a + [SLASH] + b) == ReadUnit(a)
  {
    var whole := a + [SLASH] + b;
    assert forall i :: 0 <= i < |a| ==> whole[i] == a[i];
    assert whole[|a|] == SLASH && HexValue(SLASH) == None;
  }

  lemma {:induction false} DecodeBytesAroundSlash(a: ByteString, b: ByteString)
    ensures DecodeBytes(a + [SLASH] + b)
         == match DecodeBytes(a) {
              case Failure(e) => Failure(e)
              case Success(s) => Continue(s + [SLASH], DecodeBytes(b))
            }
    decreases |a|
  {
    var whole := a + [SLASH] + b;
    if a == [] {
      assert whole[1..] == b;
      assert [] + [SLASH] == [SLASH];
    } else {
      ReadBeforeSlash(a, b);
      match ReadUnit(a)
      case Bad(_) =>
      case Good(value, n) =>
        assert whole[n..] == a[n..] + [SLASH] + b;
        DecodeBytesAroundSlash(a[n..], b);
        if DecodeBytes(a[n..]).Success? {
          var s := DecodeBytes(a[n..]).value;
          if DecodeBytes(b).Success? {
            var t := DecodeBytes(b).value;
            assert [value] + (s + [SLASH] + t) == [value] + s + [SLASH] + t;
          }
        }
    }
  }

  lemma DecodeAroundSlash(a: ByteString, b: ByteString)
    ensures Decode(a + [SLASH] + b).Success? <==> Decode(a).Success? && Decode(b).Success?
    ensures Decode(a).Success? && Decode(b).Success?
        ==> Decode(a + [SLASH] + b) == Success(Decode(a).value + [SLASH] + Decode(b).value)
  {
    DecodeBytesAroundSlash(a, b);
    if DecodeBytes(a).Success? && DecodeBytes(b).Success? {
      Utf8.ValidAroundSlash(DecodeBytes(a).value, DecodeBytes(b).value);
    }
  }

  lemma {:induction false} DecodedSlashFree(p: ByteString)
    requires SlashFree(p) && DecodeBytes(p).Success?
    ensures SlashFree(DecodeBytes(p).value)
    decreases |p|
  {
    if p != [] {
      var n := ReadUnit(p).width;
      assert p[0] in p;
      assert forall b :: b in p[n..] ==> b in p;
      DecodedSlashFree(p[n..]);
    }
  }

  /** Every piece decodes. */
  ghost predicate AllDecode(segments: seq<ByteString>) {
    forall i :: 0 <= i < |segments| ==> Decode(segments[i]).Success?
  }

  ghost function DecodeEach(segments: seq<ByteString>): seq<ByteString>
    requires AllDecode(segments)
  {
    seq(|segments|, i requires 0 <= i < |segments| => Decode(segments[i]).value)
  }

  lemma {:induction false} DecodeJoin(segments: seq<ByteString>)
    requires |segments| > 0 && AllSlashFree(segments)
    ensures Decode(Join(segments)).Success? <==> AllDecode(segments)
    ensures AllDecode(segments) ==> Decode(Join(segments)) == Success(Join(DecodeEach(segments)))
  {
    var tail := segments[1..];
    assert forall i :: 1 <= i < |segments| ==> segments[i] == tail[i - 1];
    if |segments| > 1 {
      DecodeJoin(tail);
      DecodeAroundSlash(segments[0], Join(tail));
      assert AllDecode(segments) <==> Decode(segments[0]).Success? && AllDecode(tail);
      if AllDecode(segments) {
        assert DecodeEach(segments)[1..] == DecodeEach(tail);
      }
    }
  }

  /**
   Decoding commutes with splitting: a path decodes exactly when each of its raw pieces does, and
   the pieces of the result are the decoded pieces. No escape makes, removes or straddles a slash.
   */
  lemma DecodeSplits(p: ByteString)
    ensures Decode(p).Success? <==> AllDecode(Split(p))
    ensures Decode(p).Success? ==> Split(Decode(p).value) == DecodeEach(Split(p))
  {
    var raw := Split(p);
    JoinSplit(p);
    SplitIsSlashFree(p);
    DecodeJoin(raw);
    if AllDecode(raw) {
      var each := DecodeEach(raw);
      forall i | 0 <= i < |each| ensures SlashFree(each[i]) {
        assert SlashFree(raw[i]);
        DecodedSlashFree(raw[i]);
      }
      SplitJoin(each);
    }
  }

  /** Only the path `/` stands for `/`. */
  lemma OnlySlashDecodesToSlash(p: ByteString)
    ensures Decode(p) == Success([SLASH]) <==> p == [SLASH]
  {
    if Decode(p) == Success([SLASH]) {
      var units := SpellingsOfDecoded(p);
      assert Spells(units[0], SLASH);
      assert Concat(units) == units[0] + Concat(units[1..]);
      assert units[1..] == [];
      assert p == [SLASH];
    }
    if p == [SLASH] {
      DecodeSpelling([SLASH], SLASH, []);
      assert [SLASH] + [] == [SLASH];
      assert [SLASH][1..] == [];
      assert Utf8.Valid([SLASH]);
    }
  }
}

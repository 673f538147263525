/**
 * The value codec of the synthetic trace recorder: every traced value is
 * written as `tag:payload` and read back by splitting at the first ':'.
 * Numbers travel as the hex of their 64-bit pattern, ids as decimal text.
 * Also the ReleaseUnused name map and the record buffer that is flushed to
 * the JSON sink.
 */
module SynthTrace {
  import opened Wrappers
  import HeapAddress

  const TwoTo64: nat := 0x1_0000_0000_0000_0000
  /** LLONG_MAX: the largest value strtoll returns. */
  const LongLongMax: nat := 0x7FFF_FFFF_FFFF_FFFF

  /** A traced value: a tag, and a 64-bit payload (bool, number bits or uid) where the tag has one. */
  datatype TraceValue =
    | Undefined
    | Null
    | Bool(b: bool)
    | Number(bits: nat)
    | Object(uid: nat)
    | BigInt(uid: nat)
    | Str(uid: nat)
    | PropNameID(uid: nat)
    | Symbol(uid: nat)

  /** The values the recorder can produce: 64-bit number patterns and ids. */
  predicate WellFormed(v: TraceValue)
  {
    match v
    case Number(bits) => bits < TwoTo64
    case Object(uid) => uid < TwoTo64
    case BigInt(uid) => uid < TwoTo64
    case Str(uid) => uid < TwoTo64
    case PropNameID(uid) => uid < TwoTo64
    case Symbol(uid) => uid < TwoTo64
    case _ => true
  }

  // ---------------------------------------------------------------------------
  // Decimal ids (std::to_string and strtoll)

  predicate IsDecimalDigit(c: char) { '0' <= c <= '9' }

  function DecimalChar(d: nat): (c: char)
    requires d < 10
    ensures IsDecimalDigit(c)
  {
    (('0' as int) + d) as char
  }

  /** std::to_string of an unsigned value: its decimal digits, no leading zeros. */
  function ToDecimal(n: nat): (s: string)
    ensures s != [] && forall k :: 0 <= k < |s| ==> IsDecimalDigit(s[k])
    ensures |s| > 1 ==> s[0] != '0'
  {
    if n < 10 then [DecimalChar(n)] else ToDecimal(n / 10) + [DecimalChar(n % 10)]
  }

  /** The value of a string of decimal digits. */
  function DecimalValue(s: string): nat
    requires forall k :: 0 <= k < |s| ==> IsDecimalDigit(s[k])
  {
    if s == [] then 0
    else
      var c := s[|s| - 1];
      assert IsDecimalDigit(c);
      DecimalValue(s[..|s| - 1]) * 10 + (c as int - '0' as int)
  }

  /** isspace in the C locale. */
  predicate IsCSpace(c: char)
  {
    c == ' ' || c == '\t' || c == '\n' || c == 11 as char || c == 12 as char || c == '\r'
  }

  /** The length of the longest run of characters satisfying `p` from index i on. */
  function RunLength(s: string, i: nat, p: char -> bool): (n: nat)
    requires i <= |s|
    ensures i + n <= |s|
    ensures forall k :: i <= k < i + n ==> p(s[k])
    ensures i + n < |s| ==> !p(s[i + n])
    decreases |s| - i
  {
    if i < |s| && p(s[i]) then 1 + RunLength(s, i + 1, p) else 0
  }

  /**
   * decodeID: strtoll in base 10 skips leading white space, reads an optional
   * sign and the longest run of digits, and clamps an overflowing value to
   * LLONG_MAX; without a digit it converts nothing and leaves the end
   * pointer at the start of the string. The asserts then demand a
   * non-negative value and the end pointer at the end of the string.
   */
  function DecodeID(s: string): (r: Result<nat>)
    ensures s == [] ==> r == Ok(0)
    ensures s != [] && (forall k :: 0 <= k < |s| ==> IsDecimalDigit(s[k])) ==>
      r == Ok(if DecimalValue(s) > LongLongMax then LongLongMax else DecimalValue(s))
    ensures r.Ok? && s != [] ==> IsDecimalDigit(s[|s| - 1])
    ensures r.Ok? && s != [] && s[0] == '-' ==> r.value == 0
    ensures r.Ok? ==> r.value <= LongLongMax
  {
    var w := RunLength(s, 0, IsCSpace);
    var sign := w < |s| && (s[w] == '+' || s[w] == '-');
    var start := if sign then w + 1 else w;
    var n := RunLength(s, start, IsDecimalDigit);
    if n == 0 then
      if s == [] then Ok(0) else Err("Malformed id")
    else if start + n != |s| then Err("Malformed id")
    else
      var digits := s[start..];
      assert forall k :: 0 <= k < |digits| ==> digits[k] == s[start + k];
      var v := DecimalValue(digits);
      assert s != [] && s[0] == '-' ==> w == 0 && sign && s[w] == '-';
      assert w == 0 && !sign ==> digits == s;
      if sign && s[w] == '-' then (if v == 0 then Ok(0) else Err("Malformed id"))
      else Ok(if v > LongLongMax then LongLongMax else v)
  }

  /** The forms strtoll accepts beyond bare digits, and some it leaves unread. */
  lemma DecodeIDForms()
    ensures DecodeID(" 7") == Ok(7)
    ensures DecodeID("+5") == Ok(5)
    ensures DecodeID("-0") == Ok(0)
    ensures DecodeID("-5").Err? && DecodeID("7 ").Err? && DecodeID("+").Err?
  {
    LeadingSpaceSkipped();
    PlusSignRead();
    MinusSignRead();
  }

  /** White space before the digits is skipped; white space after them is left unread. */
  lemma LeadingSpaceSkipped()
    ensures DecodeID(" 7") == Ok(7)
    ensures DecodeID("7 ").Err?
  {
    assert !IsCSpace('7') && IsCSpace(' ');
    assert RunLength(" 7", 1, IsCSpace) == 0;
    assert RunLength(" 7", 0, IsCSpace) == 1;
    assert RunLength(" 7", 2, IsDecimalDigit) == 0;
    assert RunLength(" 7", 1, IsDecimalDigit) == 1;
    assert " 7"[1..] == "7";
    assert DecimalValue("7") == 7 by { assert "7"[..0] == []; }
  }

  /** A '+' is read as a sign; a sign alone is no number. */
  lemma PlusSignRead()
    ensures DecodeID("+5") == Ok(5)
    ensures DecodeID("+").Err?
  {
    assert RunLength("+5", 0, IsCSpace) == 0;
    assert RunLength("+5", 2, IsDecimalDigit) == 0;
    assert RunLength("+5", 1, IsDecimalDigit) == 1;
    assert "+5"[1..] == "5";
    assert DecimalValue("5") == 5 by { assert "5"[..0] == []; }
  }

  /** A '-' is accepted only in front of zero: the asserts demand a non-negative id. */
  lemma MinusSignRead()
    ensures DecodeID("-0") == Ok(0)
    ensures DecodeID("-5").Err?
  {
    assert RunLength("-0", 0, IsCSpace) == 0;
    assert RunLength("-0", 2, IsDecimalDigit) == 0;
    assert RunLength("-0", 1, IsDecimalDigit) == 1;
    assert "-0"[1..] == "0";
    assert DecimalValue("0") == 0 by { assert "0"[..0] == []; }
    assert "-5"[1..] == "5";
  }

  /** Reading back the decimal text of n gives n. */
  lemma {:induction false} DecimalRoundTrip(n: nat)
    ensures DecimalValue(ToDecimal(n)) == n
  {
    if n >= 10 {
      DecimalRoundTrip(n / 10);
      var s := ToDecimal(n);
      assert s[..|s| - 1] == ToDecimal(n / 10);
    }
  }

  /** decodeID inverts std::to_string for every id up to LLONG_MAX. */
  lemma DecodeIDRoundTrip(n: nat)
    requires n <= LongLongMax
    ensures DecodeID(ToDecimal(n)) == Ok(n)
  {
    DecimalRoundTrip(n);
  }

  // ---------------------------------------------------------------------------
  // Numbers: the raw 64-bit pattern as 0x-prefixed hex

  function Pow16(k: nat): (r: nat)
    ensures r >= 1
  {
    if k == 0 then 1 else 16 * Pow16(k - 1)
  }

  predicate IsHexChar(c: char)
  {
    '0' <= c <= '9' || 'a' <= c <= 'f' || 'A' <= c <= 'F'
  }

  function LowerHexChar(d: nat): (c: char)
    requires d < 16
    ensures IsHexChar(c)
  {
    if d < 10 then (('0' as int) + d) as char else (('a' as int) + d - 10) as char
  }

  function HexCharValue(c: char): (d: nat)
    requires IsHexChar(c)
    ensures d < 16
  {
    if '0' <= c <= '9' then c as int - '0' as int
    else if 'a' <= c <= 'f' then c as int - 'a' as int + 10
    else c as int - 'A' as int + 10
  }

  /** The `count` lowest nibbles of n as lower-case hex, most significant first. */
  function HexDigitsOf(n: nat, count: nat): (s: string)
    ensures |s| == count && forall k :: 0 <= k < |s| ==> IsHexChar(s[k])
  {
    if count == 0 then [] else HexDigitsOf(n / 16, count - 1) + [LowerHexChar(n % 16)]
  }

  /** The number of significant nibbles of n (0 for 0). */
  function Nibbles(n: nat): nat
  {
    if n == 0 then 0 else 1 + Nibbles(n / 16)
  }

  /**
   * doublePrinter: write_hex with the lower-case "0x" prefix and width 16;
   * the width counts the prefix, so at least 14 digits are printed, more when
   * the pattern has more significant nibbles.
   */
  function DoublePrinter(bits: nat): (s: string)
    ensures |s| >= 16 && s[..2] == "0x"
  {
    var digits := if Nibbles(bits) > 14 then Nibbles(bits) else 14;
    "0x" + HexDigitsOf(bits, digits)
  }

  function HexValue(s: string): nat
    requires forall k :: 0 <= k < |s| ==> IsHexChar(s[k])
  {
    if s == [] then 0 else HexValue(s[..|s| - 1]) * 16 + HexCharValue(s[|s| - 1])
  }

  /**
   * decodeNumber: the text must start with "0x"; the hex stream then reads
   * the longest run of hex digits after the prefix and ignores what
   * follows. No digit leaves 0 and a value of 2^64 or more leaves
   * ULLONG_MAX.
   */
  function DecodeNumber(s: string): (r: Result<nat>)
    ensures r.Ok? <==> |s| >= 2 && s[..2] == "0x"
    ensures r.Ok? ==> r.value < TwoTo64
    ensures |s| >= 2 && s[..2] == "0x" && (forall k :: 2 <= k < |s| ==> IsHexChar(s[k])) && HexValue(s[2..]) < TwoTo64 ==>
      r == Ok(HexValue(s[2..]))
  {
    if |s| < 2 || s[..2] != "0x" then Err("Invalid hex number")
    else
      var n := RunLength(s, 2, IsHexChar);
      var digits := s[2..2 + n];
      assert forall k :: 0 <= k < |digits| ==> digits[k] == s[2 + k];
      var v := HexValue(digits);
      assert (forall k :: 2 <= k < |s| ==> IsHexChar(s[k])) ==> digits == s[2..];
      Ok(if v < TwoTo64 then v else TwoTo64 - 1)
  }

  /** The stream stops at the first non-hex character, reads a bare prefix as 0 and saturates. */
  lemma DecodeNumberForms()
    ensures DecodeNumber("0x1fzz") == Ok(0x1f)
    ensures DecodeNumber("0x") == Ok(0)
    ensures DecodeNumber("1x5").Err?
  {
    var t := "0x1fzz";
    assert t[..2] == "0x" && t[2..4] == "1f";
    assert IsHexChar('1') && IsHexChar('f') && !IsHexChar('z');
    assert RunLength(t, 4, IsHexChar) == 0;
    assert RunLength(t, 3, IsHexChar) == 1;
    assert RunLength(t, 2, IsHexChar) == 2;
    assert HexValue("1f") == 0x1f by { assert "1f"[..1] == "1"; assert "1"[..0] == []; }
    assert "0x"[..2] == "0x" && "0x"[2..2] == [];
    assert "1x5"[..2] == "1x";
  }

  /** (n / 16) mod m, shifted back by one nibble, with n's low nibble, is n mod 16m. */
  lemma ShiftNibbleMod(n: nat, m: nat)
    requires m >= 1
    ensures (n / 16 % m) * 16 + n % 16 == n % (16 * m)
  {
    var q, r := n / 16, n % 16;
    var a, b := q / m, q % m;
    assert q == a * m + b;
    assert n == a * (16 * m) + (b * 16 + r) by {
      assert n == q * 16 + r;
      assert q * 16 == a * (16 * m) + b * 16;
    }
    HeapAddress.DivModUnique(n, 16 * m, a, b * 16 + r);
  }

  /** Reading back `count` printed nibbles gives n modulo 16^count. */
  lemma {:induction false} HexDigitsValue(n: nat, count: nat)
    ensures HexValue(HexDigitsOf(n, count)) == n % Pow16(count)
  {
    if count > 0 {
      HexDigitsValue(n / 16, count - 1);
      var s := HexDigitsOf(n, count);
      assert s[..|s| - 1] == HexDigitsOf(n / 16, count - 1);
      assert HexCharValue(LowerHexChar(n % 16)) == n % 16;
      ShiftNibbleMod(n, Pow16(count - 1));
    }
  }

  /** n is below 16 to the power of any count that covers its significant nibbles. */
  lemma {:induction false} BelowPow16(n: nat, count: nat)
    requires Nibbles(n) <= count
    ensures n < Pow16(count)
  {
    if n > 0 {
      BelowPow16(n / 16, count - 1);
    }
  }

  /** decodeNumber recovers every 64-bit pattern doublePrinter writes. */
  lemma NumberRoundTrip(bits: nat)
    requires bits < TwoTo64
    ensures DecodeNumber(DoublePrinter(bits)) == Ok(bits)
  {
    var digits := if Nibbles(bits) > 14 then Nibbles(bits) else 14;
    var h := HexDigitsOf(bits, digits);
    HexDigitsValue(bits, digits);
    BelowPow16(bits, digits);
    HeapAddress.DivModUnique(bits, Pow16(digits), 0, bits);
    DecodePrefixedHex(h);
  }

  /** decodeNumber reads "0x" followed by hex digits as their value. */
  lemma DecodePrefixedHex(h: string)
    requires h != [] && forall k :: 0 <= k < |h| ==> IsHexChar(h[k])
    requires HexValue(h) < TwoTo64
    ensures DecodeNumber("0x" + h) == Ok(HexValue(h))
  {
    var s := "0x" + h;
    assert s[..2] == "0x" && s[2..] == h;
    forall k | 2 <= k < |s| ensures IsHexChar(s[k]) {
      assert s[k] == h[k - 2];
    }
  }

  // ---------------------------------------------------------------------------
  // encode / decode

  /** The tag text of each kind of value. */
  function TagName(v: TraceValue): (t: string)
    ensures ':' !in t && t != []
  {
    match v
    case Undefined => "undefined"
    case Null => "null"
    case Object(_) => "object"
    case BigInt(_) => "bigint"
    case Str(_) => "string"
    case PropNameID(_) => "propNameID"
    case Symbol(_) => "symbol"
    case Number(_) => "number"
    case Bool(_) => "bool"
  }

  /** The payload text: empty for undefined and null, "true"/"false", hex bits or a decimal id. */
  function Payload(v: TraceValue): (p: string)
    ensures ':' !in p
  {
    match v
    case Undefined => ""
    case Null => ""
    case Bool(b) => if b then "true" else "false"
    case Number(bits) => DoublePrinter(bits)
    case Object(uid) => ToDecimal(uid)
    case BigInt(uid) => ToDecimal(uid)
    case Str(uid) => ToDecimal(uid)
    case PropNameID(uid) => ToDecimal(uid)
    case Symbol(uid) => ToDecimal(uid)
  }

  /** encode: `tag:payload`. */
  function Encode(v: TraceValue): (s: string)
    ensures s == TagName(v) + ":" + Payload(v)
  {
    TagName(v) + ":" + Payload(v)
  }

  /** The index of the first ':' in s, if any. */
  function FindColon(s: string): (r: Option<nat>)
    ensures r.Some? ==> r.value < |s| && s[r.value] == ':' && ':' !in s[..r.value]
    ensures r.None? <==> ':' !in s
  {
    if s == [] then None
    else if s[0] == ':' then Some(0)
    else match FindColon(s[1..])
      case None => None
      case Some(k) => assert s[..k + 1] == [s[0]] + s[1..][..k]; Some(k + 1)
  }

  /** decode: split at the first ':', then read the payload the tag calls for. */
  function Decode(s: string): (r: Result<TraceValue>)
    ensures r.Ok? ==> FindColon(s).Some? && TagName(r.value) == s[..FindColon(s).value]
  {
    match FindColon(s)
    case None => Err("Must contain a type tag")
    case Some(loc) => DecodeTagged(s[..loc], s[loc + 1..])
  }

  /** The dispatch on the tag text; `rest` is the payload after the ':'. */
  function DecodeTagged(tag: string, rest: string): (r: Result<TraceValue>)
    ensures r.Ok? ==> TagName(r.value) == tag
  {
    if tag == "undefined" then Ok(Undefined)
    else if tag == "null" then Ok(Null)
    else if tag == "bool" then
      if rest == "true" || rest == "false" then Ok(Bool(rest == "true")) else Err("Malformed bool value")
    else if tag == "number" then
      match DecodeNumber(rest)
      case Ok(bits) => Ok(Number(bits))
      case Err(e) => Err(e)
    else if tag == "object" || tag == "string" || tag == "bigint" || tag == "propNameID" || tag == "symbol" then
      match DecodeID(rest)
      case Err(e) => Err(e)
      case Ok(id) =>
        Ok(if tag == "object" then Object(id)
          else if tag == "string" then Str(id)
          else if tag == "bigint" then BigInt(id)
          else if tag == "propNameID" then PropNameID(id)
          else Symbol(id))
    else Err("Illegal object encountered")
  }

  /** A tag without ':' followed by ':' is split exactly there. */
  lemma SplitAtTag(t: string, p: string)
    requires ':' !in t
    ensures FindColon(t + ":" + p) == Some(|t|)
    ensures (t + ":" + p)[..|t|] == t && (t + ":" + p)[|t| + 1..] == p
  {
    var s := t + ":" + p;
    assert s[|t|] == ':';
    assert s[..|t|] == t;
  }

  /**
   * decode(encode(v)) is v for every value whose ids fit strtoll (up to
   * LLONG_MAX) and whose number is a 64-bit pattern.
   */
  lemma DecodeEncode(v: TraceValue)
    requires WellFormed(v)
    requires v.Object? || v.BigInt? || v.Str? || v.PropNameID? || v.Symbol? ==> v.uid <= LongLongMax
    ensures Decode(Encode(v)) == Ok(v)
  {
    SplitAtTag(TagName(v), Payload(v));
    match v
    case Number(bits) => NumberRoundTrip(bits);
    case Object(uid) => IdTaggedRoundTrip(v);
    case BigInt(uid) => IdTaggedRoundTrip(v);
    case Str(uid) => IdTaggedRoundTrip(v);
    case PropNameID(uid) => IdTaggedRoundTrip(v);
    case Symbol(uid) => IdTaggedRoundTrip(v);
    case _ =>
  }

  /** The payload of a value with an id decodes back to that value under its own tag. */
  lemma IdTaggedRoundTrip(v: TraceValue)
    requires v.Object? || v.BigInt? || v.Str? || v.PropNameID? || v.Symbol?
    requires v.uid <= LongLongMax
    ensures DecodeTagged(TagName(v), Payload(v)) == Ok(v)
  {
    DecodeIDRoundTrip(v.uid);
    IdTagDecodes(v, Payload(v));
  }

  /** Under an id kind's tag, a payload that decodes to the id yields the value. */
  lemma IdTagDecodes(v: TraceValue, rest: string)
    requires v.Object? || v.BigInt? || v.Str? || v.PropNameID? || v.Symbol?
    requires DecodeID(rest) == Ok(v.uid)
    ensures DecodeTagged(TagName(v), rest) == Ok(v)
  {
  }

  /** An id above LLONG_MAX does not survive the round trip: strtoll clamps it. */
  lemma LargeIdIsClamped()
    ensures Decode(Encode(Object(LongLongMax + 1))) == Ok(Object(LongLongMax))
  {
    var rest := ToDecimal(LongLongMax + 1);
    SplitAtTag("object", rest);
    DecimalRoundTrip(LongLongMax + 1);
    assert DecodeID(rest) == Ok(LongLongMax);
    IdTagDecodes(Object(LongLongMax), rest);
  }

  // ---------------------------------------------------------------------------
  // TraceValue equality

  /** The pattern of a binary64 NaN: all exponent bits set and a non-zero fraction. */
  predicate IsNaNBits(x: nat)
  {
    (x / 0x10_0000_0000_0000) % 0x800 == 0x7FF && x % 0x10_0000_0000_0000 != 0
  }

  /** The pattern of +0 or -0: every bit but the sign bit clear. */
  predicate IsZeroBits(x: nat)
  {
    x % 0x8000_0000_0000_0000 == 0
  }

  /**
   * C++ `==` on two doubles given by their bit patterns: a NaN equals
   * nothing, +0 equals -0, and otherwise the patterns must match.
   */
  predicate DoubleEq(x: nat, y: nat)
  {
    !IsNaNBits(x) && !IsNaNBits(y) && (x == y || (IsZeroBits(x) && IsZeroBits(y)))
  }

  /** `==` on doubles is symmetric, fails only at NaN on the diagonal, and relates different patterns only at zero. */
  lemma DoubleEqMeaning(x: nat, y: nat)
    ensures DoubleEq(x, y) <==> DoubleEq(y, x)
    ensures DoubleEq(x, x) <==> !IsNaNBits(x)
    ensures DoubleEq(x, y) && x != y ==> IsZeroBits(x) && IsZeroBits(y)
    ensures DoubleEq(0, 0x8000_0000_0000_0000)
    ensures !DoubleEq(0x7FF8_0000_0000_0000, 0x7FF8_0000_0000_0000)
  {
    assert (0x7FF8_0000_0000_0000 / 0x10_0000_0000_0000) % 0x800 == 0x7FF;
  }

  /**
   * TraceValue::operator== as written: equal tags, then bools by value,
   * numbers with the double `==`, objects, strings and propNameIDs by uid,
   * and every other tag (including bigint and symbol) equal without looking
   * at the uid.
   */
  predicate Equal(a: TraceValue, b: TraceValue)
  {
    TagName(a) == TagName(b) &&
    match a
    case Bool(x) => x == b.b
    case Number(x) => DoubleEq(x, b.bits)
    case Object(x) => x == b.uid
    case Str(x) => x == b.uid
    case PropNameID(x) => x == b.uid
    case _ => true
  }

  /** Equality needs equal tags; payload-less values of one tag are equal; numbers compare as doubles. */
  lemma EqualMeaning(a: TraceValue, b: TraceValue)
    ensures Equal(a, b) ==> TagName(a) == TagName(b)
    ensures (a.Undefined? && b.Undefined?) || (a.Null? && b.Null?) ==> Equal(a, b)
    ensures (a.Object? || a.Str? || a.PropNameID?) && TagName(a) == TagName(b) ==> (Equal(a, b) <==> a.uid == b.uid)
    ensures a.Bool? && b.Bool? ==> (Equal(a, b) <==> a.b == b.b)
    ensures a.Number? && b.Number? ==> (Equal(a, b) <==> DoubleEq(a.bits, b.bits))
    ensures Equal(Number(0), Number(0x8000_0000_0000_0000))
    ensures !Equal(Number(0x7FF8_0000_0000_0000), Number(0x7FF8_0000_0000_0000))
  {
    DoubleEqMeaning(0, 0x8000_0000_0000_0000);
  }

  /** Two different bigints (or symbols) compare equal. */
  lemma DistinctBigIntsCompareEqual()
    ensures BigInt(1) != BigInt(2) && Equal(BigInt(1), BigInt(2))
    ensures Symbol(1) != Symbol(2) && Equal(Symbol(1), Symbol(2))
  {
  }

  /** Equality that also compares the uid of bigints and symbols. */
  predicate EqualByUid(a: TraceValue, b: TraceValue)
  {
    Equal(a, b) && (a.BigInt? || a.Symbol? ==> a.uid == b.uid)
  }

  /**
   * With uids of bigints and symbols compared, equality of traced values
   * other than numbers is identity; numbers keep the double `==`.
   */
  lemma EqualByUidIsIdentity(a: TraceValue, b: TraceValue)
    ensures !a.Number? ==> (EqualByUid(a, b) <==> a == b)
    ensures a.Number? ==> (EqualByUid(a, b) <==> b.Number? && DoubleEq(a.bits, b.bits))
  {
  }

  // ---------------------------------------------------------------------------
  // ReleaseUnused names

  datatype ReleaseUnused = ReleaseNone | ReleaseOld | ReleaseYoungOnFull | ReleaseYoungAlways

  function NameFromReleaseUnused(ru: ReleaseUnused): string
  {
    match ru
    case ReleaseNone => "none"
    case ReleaseOld => "old"
    case ReleaseYoungOnFull => "youngOnFull"
    case ReleaseYoungAlways => "youngAlways"
  }

  /** releaseUnusedFromName: the four names; any other name throws. */
  function ReleaseUnusedFromName(name: string): (r: Result<ReleaseUnused>)
  {
    if name == "none" then Ok(ReleaseNone)
    else if name == "old" then Ok(ReleaseOld)
    else if name == "youngOnFull" then Ok(ReleaseYoungOnFull)
    else if name == "youngAlways" then Ok(ReleaseYoungAlways)
    else Err("Name for ReleaseUnused not recognized")
  }

  /** The two maps are inverse: every name read back is the name of its value, and every value's name reads back. */
  lemma ReleaseUnusedNamesInverse(ru: ReleaseUnused, name: string)
    ensures ReleaseUnusedFromName(NameFromReleaseUnused(ru)) == Ok(ru)
    ensures ReleaseUnusedFromName(name).Ok? <==> name in {"none", "old", "youngOnFull", "youngAlways"}
    ensures ReleaseUnusedFromName(name).Ok? ==> NameFromReleaseUnused(ReleaseUnusedFromName(name).value) == name
  {
  }

  // ---------------------------------------------------------------------------
  // Record buffer

  /** A buffered trace record: its record type and timestamp. */
  datatype Record = Record(recordType: string, time: nat)

  /**
   * The recorder's record buffer and its JSON sink. `flushThreshold` is
   * kTraceRecordsToFlush; `written` is what has been emitted to the sink.
   */
  class TraceRecorder {
    const flushThreshold: nat
    const hasSink: bool
    var records: seq<Record>
    var written: seq<Record>

    constructor (flushThreshold: nat, hasSink: bool)
      ensures this.flushThreshold == flushThreshold && this.hasSink == hasSink
      ensures records == [] && written == []
    {
      this.flushThreshold := flushThreshold;
      this.hasSink := hasSink;
      records := [];
      written := [];
    }

    /** flushRecords: every buffered record goes to the sink in order; the buffer ends empty. */
    method FlushRecords()
      requires hasSink
      modifies this
      ensures records == [] && written == old(written) + old(records)
    {
      var i := 0;
      while i < |records|
        invariant 0 <= i <= |records| && records == old(records)
        invariant written == old(written) + records[..i]
      {
        written := written + [records[i]];
        i := i + 1;
      }
      assert records[..i] == records;
      records := [];
    }

    /** flushRecordsIfNecessary: flush only with a sink and at least the threshold buffered. */
    method FlushRecordsIfNecessary()
      modifies this
      ensures hasSink && |old(records)| >= flushThreshold ==>
        records == [] && written == old(written) + old(records)
      ensures !(hasSink && |old(records)| >= flushThreshold) ==>
        records == old(records) && written == old(written)
    {
      if !hasSink || |records| < flushThreshold {
        return;
      }
      FlushRecords();
    }
  }
}

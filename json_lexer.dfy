/**
 * The JSON lexer used by JSON.parse: a cursor over UTF-16 code units that
 * skips JSON whitespace and produces one token per call (a punctuator, a
 * keyword, a number's text, a string's decoded value, or end of input).
 * The token grammar is that of RFC 8259 (sections 2, 6 and 7).
 */
module JsonLexer {
  import opened Wrappers

  /** A UTF-16 code unit (char16_t). */
  type CodeUnit = x: int | 0 <= x < 0x1_0000

  datatype Punctuator = LBrace | RBrace | LSquare | RSquare | Comma | Colon | True | False | Null

  datatype Token =
    | Eof
    | Punc(kind: Punctuator)
      /** The scanned text of a number; its value is what strtod makes of it. */
    | Number(text: seq<CodeUnit>)
    | Str(value: seq<CodeUnit>)
      /** A string read as a property key (interned as a symbol). */
    | Symbol(name: seq<CodeUnit>)

  datatype LexError =
    | UnexpectedEnd
    | UnexpectedChar(c: CodeUnit)
    | InvalidUnicodeChar(c: CodeUnit)
    | InvalidEscape(c: CodeUnit)
    | UnexpectedCharInNumber(c: CodeUnit)
    | ControlCharInString

  /** The result of scanning from a position: a value and the position after it, or an error. */
  datatype Scan<T> = Done(value: T, next: nat) | Fail(err: LexError)

  /** ExecutionStatus of the lexer's methods. */
  datatype Status = Returned | Exception(err: LexError)

  const Quote: CodeUnit := 0x22
  const Backslash: CodeUnit := 0x5C

  /** JSON whitespace is exactly TAB, CR, LF and SP. */
  predicate IsJsonWhiteSpace(c: CodeUnit)
  {
    c == 0x09 || c == 0x0D || c == 0x0A || c == 0x20
  }

  /** The position of the first non-whitespace code unit at or after `i`. */
  function SkipWhiteSpace(s: seq<CodeUnit>, i: nat): (j: nat)
    requires i <= |s|
    ensures i <= j <= |s|
    ensures forall k :: i <= k < j ==> IsJsonWhiteSpace(s[k])
    ensures j == |s| || !IsJsonWhiteSpace(s[j])
    decreases |s| - i
  {
    if i < |s| && IsJsonWhiteSpace(s[i]) then SkipWhiteSpace(s, i + 1) else i
  }

  /** `c | 32`: sets bit 5, folding ASCII upper case onto lower case. */
  function SetBit5(c: CodeUnit): CodeUnit
  {
    if (c / 32) % 2 == 1 then c else c + 32
  }

  /** `c | 32`, the test consumeUnicode applies to a digit, read as a digit. */
  function Or32Digit(c: CodeUnit): Option<int>
  {
    var l := SetBit5(c);
    if '0' as int <= l <= '9' as int then Some(l - '0' as int)
    else if 'a' as int <= l <= 'f' as int then Some(l - 'a' as int + 10)
    else None
  }

  /**
   * One digit of a \u escape as consumeUnicode reads it, spelled out by ranges:
   * the code units whose `c | 32` is '0' to '9' or 'a' to 'f'.
   */
  function HexDigit(c: CodeUnit): (r: Option<int>)
    ensures r.Some? ==> 0 <= r.value < 16
  {
    if '0' as int <= c <= '9' as int then Some(c - '0' as int)
    else if 0x10 <= c <= 0x19 then Some(c - 0x10)
    else if 'a' as int <= c <= 'f' as int then Some(c - 'a' as int + 10)
    else if 'A' as int <= c <= 'F' as int then Some(c - 'A' as int + 10)
    else None
  }

  /** The ranges of HexDigit are exactly the code units `c | 32` takes for digits. */
  lemma Or32DigitIsHexDigit(c: CodeUnit)
    ensures Or32Digit(c) == HexDigit(c)
  {
    if c < 32 {
      assert SetBit5(c) == c + 32;
    } else if c < 64 {
      assert SetBit5(c) == c;
    } else if c < 96 {
      assert SetBit5(c) == c + 32;
    } else if c < 128 {
      assert SetBit5(c) == c;
    } else {
      assert SetBit5(c) >= 128;
    }
  }

  /** RFC 8259's HEXDIG: 0-9, A-F, a-f. */
  predicate IsRfcHexDigit(c: CodeUnit)
  {
    '0' as int <= c <= '9' as int || 'A' as int <= c <= 'F' as int || 'a' as int <= c <= 'f' as int
  }

  /**
   * The digits HexDigit accepts: every RFC 8259 hex digit, and also the control
   * characters U+0010 to U+0019, which `| 32` maps onto '0' to '9'.
   */
  lemma HexDigitAccepts(c: CodeUnit)
    ensures HexDigit(c).Some? <==> IsRfcHexDigit(c) || 0x10 <= c <= 0x19
  {
  }

  /** On RFC 8259 hex digits HexDigit yields the digit's value. */
  lemma HexDigitValue(c: CodeUnit)
    requires IsRfcHexDigit(c)
    ensures '0' as int <= c <= '9' as int ==> HexDigit(c) == Some(c - '0' as int)
    ensures 'A' as int <= c <= 'F' as int ==> HexDigit(c) == Some(c - 'A' as int + 10)
    ensures 'a' as int <= c <= 'f' as int ==> HexDigit(c) == Some(c - 'a' as int + 10)
  {
  }

  /** The digit an RFC 8259 hex digit stands for; nothing else is a digit. */
  function RfcHexDigit(c: CodeUnit): (r: Option<int>)
    ensures r.Some? <==> IsRfcHexDigit(c)
    ensures r.Some? ==> r == HexDigit(c)
  {
    if IsRfcHexDigit(c) then HexDigitValue(c); HexDigit(c) else None
  }

  /** U+0010 is taken for the digit 0 inside a \u escape. */
  lemma ControlCharIsHexDigit()
    ensures HexDigit(0x10) == Some(0) && RfcHexDigit(0x10) == None
  {
  }

  /**
   * The remaining `count` digits of a \u escape starting at `i`, folded into
   * a 16-bit accumulator (`(val << 4) + ch` on a uint16_t).
   */
  function UnicodeDigits(s: seq<CodeUnit>, i: nat, count: nat, acc: CodeUnit): (r: Scan<CodeUnit>)
    requires i <= |s|
    ensures r.Done? ==> r.next == i + count <= |s|
    decreases count
  {
    if count == 0 then Done(acc, i)
    else if i == |s| then Fail(UnexpectedEnd)
    else match HexDigit(s[i])
      case None => Fail(InvalidUnicodeChar(s[i]))
      case Some(d) => UnicodeDigits(s, i + 1, count - 1, (acc * 16 + d) % 0x1_0000)
  }

  /** consumeUnicode's result: the four digits starting at `i`. */
  function UnicodeEscape(s: seq<CodeUnit>, i: nat): (r: Scan<CodeUnit>)
    requires i <= |s|
    ensures r.Done? ==> r.next == i + 4 <= |s|
  {
    UnicodeDigits(s, i, 4, 0)
  }

  /**
   * consumeUnicode succeeds exactly when four digits follow, and yields their
   * base-16 value, which always fits in 16 bits.
   */
  lemma UnicodeEscapeMeaning(s: seq<CodeUnit>, i: nat)
    requires i <= |s|
    ensures UnicodeEscape(s, i).Done? <==>
      i + 4 <= |s| && HexDigit(s[i]).Some? && HexDigit(s[i + 1]).Some?
      && HexDigit(s[i + 2]).Some? && HexDigit(s[i + 3]).Some?
    ensures UnicodeEscape(s, i).Done? ==>
      UnicodeEscape(s, i).value == HexDigit(s[i]).value * 4096 + HexDigit(s[i + 1]).value * 256
        + HexDigit(s[i + 2]).value * 16 + HexDigit(s[i + 3]).value
  {
    if i == |s| || HexDigit(s[i]).None? {
      UnicodeDigitsStop(s, i, 4, 0);
      return;
    }
    var d0 := HexDigit(s[i]).value;
    UnicodeDigitsStep(s, i, 4, 0, d0);
    if i + 1 == |s| || HexDigit(s[i + 1]).None? {
      UnicodeDigitsStop(s, i + 1, 3, d0);
      return;
    }
    var d1 := HexDigit(s[i + 1]).value;
    UnicodeDigitsStep(s, i + 1, 3, d0, d1);
    if i + 2 == |s| || HexDigit(s[i + 2]).None? {
      UnicodeDigitsStop(s, i + 2, 2, d0 * 16 + d1);
      return;
    }
    var d2 := HexDigit(s[i + 2]).value;
    UnicodeDigitsStep(s, i + 2, 2, d0 * 16 + d1, d2);
    if i + 3 == |s| || HexDigit(s[i + 3]).None? {
      UnicodeDigitsStop(s, i + 3, 1, d0 * 256 + d1 * 16 + d2);
      return;
    }
    var d3 := HexDigit(s[i + 3]).value;
    UnicodeDigitsStep(s, i + 3, 1, d0 * 256 + d1 * 16 + d2, d3);
    assert UnicodeDigits(s, i + 4, 0, d0 * 4096 + d1 * 256 + d2 * 16 + d3).value
      == d0 * 4096 + d1 * 256 + d2 * 16 + d3;
  }

  /** A missing or invalid digit ends a \u escape with an error. */
  lemma UnicodeDigitsStop(s: seq<CodeUnit>, i: nat, count: nat, acc: CodeUnit)
    requires i <= |s| && count > 0 && (i == |s| || HexDigit(s[i]).None?)
    ensures UnicodeDigits(s, i, count, acc).Fail?
  {
  }

  /**
   * One digit of a \u escape; while fewer than four digits have been read the
   * 16-bit accumulator does not wrap.
   */
  lemma UnicodeDigitsStep(s: seq<CodeUnit>, i: nat, count: nat, acc: CodeUnit, d: int)
    requires i < |s| && count > 0 && HexDigit(s[i]) == Some(d) && acc < 4096
    ensures UnicodeDigits(s, i, count, acc) == UnicodeDigits(s, i + 1, count - 1, acc * 16 + d)
  {
    NoWrap(acc, d);
  }

  lemma NoWrap(acc: int, d: int)
    requires 0 <= acc < 4096 && 0 <= d < 16
    ensures (acc * 16 + d) % 0x1_0000 == acc * 16 + d
  {
  }

  /**
   * A \u escape whose four "digits" are the control character U+0010 is
   * accepted and decodes to U+0000, although RFC 8259 allows only HEXDIG there.
   */
  lemma ControlCharsInUnicodeEscapeAccepted()
    ensures UnicodeEscape([0x10, 0x10, 0x10, 0x10], 0) == Done(0, 4)
  {
    ControlCharIsHexDigit();
  }

  /** The decoded value of a one-character escape `\e`, if `e` is one. */
  function SimpleEscape(e: CodeUnit): Option<CodeUnit>
  {
    if e == Quote || e == '/' as int || e == Backslash then Some(e)
    else if e == 'b' as int then Some(8)
    else if e == 'f' as int then Some(12)
    else if e == 'n' as int then Some(10)
    else if e == 'r' as int then Some(13)
    else if e == 't' as int then Some(9)
    else None
  }

  /**
   * The body of a string from `i` (just after the opening quote) with `acc`
   * decoded so far: up to the closing quote, decoding escapes; a raw control
   * character, a bad escape or the end of input is an error.
   */
  function StringBody(s: seq<CodeUnit>, i: nat, acc: seq<CodeUnit>): (r: Scan<seq<CodeUnit>>)
    requires i <= |s|
    ensures r.Done? ==> i < r.next <= |s| && s[r.next - 1] == Quote
    decreases |s| - i
  {
    if i == |s| then Fail(UnexpectedEnd)
    else if s[i] == Quote then Done(acc, i + 1)
    else if s[i] <= 0x1F then Fail(ControlCharInString)
    else if s[i] == Backslash then
      if i + 1 == |s| then Fail(UnexpectedEnd)
      else if SimpleEscape(s[i + 1]).Some? then StringBody(s, i + 2, acc + [SimpleEscape(s[i + 1]).value])
      else if s[i + 1] == 'u' as int then
        match UnicodeEscape(s, i + 2)
        case Fail(e) => Fail(e)
        case Done(v, n) => StringBody(s, n, acc + [v])
      else Fail(InvalidEscape(s[i + 1]))
    else StringBody(s, i + 1, acc + [s[i]])
  }

  /** Reading a one-character escape `\e` inside a string. */
  lemma SimpleEscapeRead(s: seq<CodeUnit>, i: nat, acc: seq<CodeUnit>, j: nat, acc': seq<CodeUnit>)
    requires i + 1 < |s| && s[i] == Backslash && SimpleEscape(s[i + 1]).Some?
    requires j == i + 2 && acc' == acc + [SimpleEscape(s[i + 1]).value]
    ensures StringBody(s, i, acc) == StringBody(s, j, acc')
  {
  }

  /** Reading an unescaped code unit inside a string. */
  lemma PlainUnitRead(s: seq<CodeUnit>, i: nat, acc: seq<CodeUnit>, j: nat, acc': seq<CodeUnit>)
    requires i < |s| && s[i] != Quote && s[i] > 0x1F && s[i] != Backslash
    requires j == i + 1 && acc' == acc + [s[i]]
    ensures StringBody(s, i, acc) == StringBody(s, j, acc')
  {
  }

  /** Reading a \u escape inside a string. */
  lemma UnicodeEscapeRead(s: seq<CodeUnit>, i: nat, acc: seq<CodeUnit>, j: nat, acc': seq<CodeUnit>)
    requires i + 2 <= |s| && s[i] == Backslash && s[i + 1] == 'u' as int && UnicodeEscape(s, i + 2).Done?
    requires j == UnicodeEscape(s, i + 2).next && acc' == acc + [UnicodeEscape(s, i + 2).value]
    ensures StringBody(s, i, acc) == StringBody(s, j, acc')
  {
  }

  /**
   * The errors inside a string: a raw code unit up to U+001F, a backslash at
   * the end of input, and a backslash followed by anything but a known escape.
   */
  lemma StringBodyRejects(s: seq<CodeUnit>, i: nat, acc: seq<CodeUnit>)
    requires i < |s| && s[i] != Quote
    ensures s[i] <= 0x1F ==> StringBody(s, i, acc) == Fail(ControlCharInString)
    ensures s[i] == Backslash && i + 1 == |s| ==> StringBody(s, i, acc) == Fail(UnexpectedEnd)
    ensures s[i] == Backslash && i + 1 < |s| && SimpleEscape(s[i + 1]).None? && s[i + 1] != 'u' as int ==>
      StringBody(s, i, acc) == Fail(InvalidEscape(s[i + 1]))
  {
  }

  /** A string with no quote character left in it never ends. */
  lemma {:induction false} UnterminatedStringFails(s: seq<CodeUnit>, i: nat, acc: seq<CodeUnit>)
    requires i <= |s|
    requires forall k :: i <= k < |s| ==> s[k] != Quote
    ensures StringBody(s, i, acc).Fail?
    decreases |s| - i
  {
    if i == |s| || s[i] <= 0x1F {
    } else if s[i] == Backslash {
      if i + 1 < |s| {
        if SimpleEscape(s[i + 1]).Some? {
          UnterminatedStringFails(s, i + 2, acc + [SimpleEscape(s[i + 1]).value]);
        } else if s[i + 1] == 'u' as int {
          var u := UnicodeEscape(s, i + 2);
          if u.Done? {
            UnterminatedStringFails(s, u.next, acc + [u.value]);
          }
        }
      }
    } else {
      UnterminatedStringFails(s, i + 1, acc + [s[i]]);
    }
  }

  /** The lower-case hex digit for 0 <= d < 16. */
  function HexChar(d: int): CodeUnit
    requires 0 <= d < 16
  {
    if d < 10 then '0' as int + d else 'a' as int + d - 10
  }

  lemma HexCharDigit(d: int)
    requires 0 <= d < 16
    ensures HexDigit(HexChar(d)) == Some(d)
  {
  }

  /** How a JSON writer spells one code unit inside a string. */
  function EscapeUnit(c: CodeUnit): seq<CodeUnit>
  {
    if c == Quote || c == Backslash || c == '/' as int then [Backslash, c]
    else if c == 8 then [Backslash, 'b' as int]
    else if c == 12 then [Backslash, 'f' as int]
    else if c == 10 then [Backslash, 'n' as int]
    else if c == 13 then [Backslash, 'r' as int]
    else if c == 9 then [Backslash, 't' as int]
    else if c < 0x20 then ControlEscape(c)
    else [c]
  }

  /** `\u00XY` for a control character: its high digit is 0 or 1. */
  function ControlEscape(c: CodeUnit): (r: seq<CodeUnit>)
    requires c < 0x20
    ensures |r| == 6
  {
    var hi := if c < 16 then 0 else 1;
    [Backslash, 'u' as int, '0' as int, '0' as int, HexChar(hi), HexChar(c - 16 * hi)]
  }

  /** How a JSON writer spells a string's contents. */
  function EscapeString(str: seq<CodeUnit>): seq<CodeUnit>
  {
    if str == [] then [] else EscapeUnit(str[0]) + EscapeString(str[1..])
  }

  /** Lexing one written code unit decodes it and moves past its spelling. */
  lemma EscapeUnitStep(s: seq<CodeUnit>, i: nat, c: CodeUnit, acc: seq<CodeUnit>)
    requires i + |EscapeUnit(c)| < |s| && s[i..i + |EscapeUnit(c)|] == EscapeUnit(c)
    ensures StringBody(s, i, acc) == StringBody(s, i + |EscapeUnit(c)|, acc + [c])
  {
    var e := EscapeUnit(c);
    if c < 0x20 && c != 8 && c != 12 && c != 10 && c != 13 && c != 9 {
      ControlEscapeStep(s, i, c, acc);
    } else {
      assert s[i] == e[0] by { assert s[i..i + |e|][0] == e[0]; }
      if |e| == 2 {
        assert s[i + 1] == e[1] by { assert s[i..i + |e|][1] == e[1]; }
      }
    }
  }

  /** Lexing the `\u00XY` spelling of a control character decodes it. */
  lemma ControlEscapeStep(s: seq<CodeUnit>, i: nat, c: CodeUnit, acc: seq<CodeUnit>)
    requires c < 0x20
    requires i + 6 < |s| && s[i..i + 6] == ControlEscape(c)
    ensures StringBody(s, i, acc) == StringBody(s, i + 6, acc + [c])
  {
    var e := ControlEscape(c);
    var hi := if c < 16 then 0 else 1;
    assert forall k :: 0 <= k < 6 ==> s[i + k] == e[k] by {
      forall k | 0 <= k < 6 ensures s[i + k] == e[k] {
        assert s[i..i + 6][k] == e[k];
      }
    }
    HexCharDigit(0);
    HexCharDigit(hi);
    HexCharDigit(c - 16 * hi);
    assert HexDigit(s[i + 2]) == Some(0) && HexDigit(s[i + 3]) == Some(0);
    assert HexDigit(s[i + 4]) == Some(hi) && HexDigit(s[i + 5]) == Some(c - 16 * hi);
    UnicodeEscapeMeaning(s, i + 2);
    UnicodeEscapeRead(s, i, acc, i + 6, acc + [c]);
  }

  lemma ClosingQuote(s: seq<CodeUnit>, i: nat, acc: seq<CodeUnit>)
    requires i < |s| && s[i] == Quote
    ensures StringBody(s, i, acc) == Done(acc, i + 1)
  {
  }

  lemma EscapeStringCons(str: seq<CodeUnit>)
    requires str != []
    ensures EscapeString(str) == EscapeUnit(str[0]) + EscapeString(str[1..])
  {
  }

  /** Two pieces written one after the other, then a quote, can be read one after the other. */
  lemma SliceSplit(s: seq<CodeUnit>, i: nat, e: seq<CodeUnit>, t: seq<CodeUnit>)
    requires i + |e + t| < |s| && s[i..i + |e + t|] == e + t && s[i + |e + t|] == Quote
    ensures i + |e| + |t| < |s| && s[i..i + |e|] == e
    ensures s[i + |e|..i + |e| + |t|] == t && s[i + |e| + |t|] == Quote
  {
    assert s[i..i + |e|] == (e + t)[..|e|];
    assert s[i + |e|..i + |e| + |t|] == (e + t)[|e|..];
  }

  lemma AppendFirst(acc: seq<CodeUnit>, str: seq<CodeUnit>)
    requires str != []
    ensures acc + [str[0]] + str[1..] == acc + str
  {
    assert str == [str[0]] + str[1..];
  }

  /** Reading the first code unit of a written string leaves the rest of it, then the quote. */
  lemma FirstUnitRead(s: seq<CodeUnit>, i: nat, str: seq<CodeUnit>, acc: seq<CodeUnit>) returns (j: nat)
    requires str != []
    requires i + |EscapeString(str)| < |s| && s[i..i + |EscapeString(str)|] == EscapeString(str)
    requires s[i + |EscapeString(str)|] == Quote
    ensures j + |EscapeString(str[1..])| == i + |EscapeString(str)|
    ensures s[j..j + |EscapeString(str[1..])|] == EscapeString(str[1..])
    ensures StringBody(s, i, acc) == StringBody(s, j, acc + [str[0]])
  {
    var e := EscapeUnit(str[0]);
    var t := EscapeString(str[1..]);
    EscapeStringCons(str);
    SliceSplit(s, i, e, t);
    EscapeUnitStep(s, i, str[0], acc);
    j := i + |e|;
  }

  /** Reading back a string a JSON writer wrote at `i`, followed by its closing quote. */
  lemma {:induction false} WrittenStringRead(s: seq<CodeUnit>, i: nat, str: seq<CodeUnit>, acc: seq<CodeUnit>)
    requires i + |EscapeString(str)| < |s| && s[i..i + |EscapeString(str)|] == EscapeString(str)
    requires s[i + |EscapeString(str)|] == Quote
    ensures StringBody(s, i, acc) == Done(acc + str, i + |EscapeString(str)| + 1)
    decreases |str|
  {
    if str == [] {
      assert acc + str == acc;
      ClosingQuote(s, i, acc);
    } else {
      var j := FirstUnitRead(s, i, str, acc);
      WrittenStringRead(s, j, str[1..], acc + [str[0]]);
      AppendFirst(acc, str);
    }
  }

  /** Reading back what a JSON writer wrote yields the original string, ending after the closing quote. */
  lemma StringRoundTrip(p: seq<CodeUnit>, str: seq<CodeUnit>, rest: seq<CodeUnit>, acc: seq<CodeUnit>)
    ensures StringBody(p + EscapeString(str) + [Quote] + rest, |p|, acc)
         == Done(acc + str, |p| + |EscapeString(str)| + 1)
  {
    var s := p + EscapeString(str) + [Quote] + rest;
    assert s[|p|..|p| + |EscapeString(str)|] == EscapeString(str);
    assert s[|p| + |EscapeString(str)|] == Quote;
    WrittenStringRead(s, |p|, str, acc);
  }

  const TrueWord: seq<CodeUnit> := ['t' as int, 'r' as int, 'u' as int, 'e' as int]
  const FalseWord: seq<CodeUnit> := ['f' as int, 'a' as int, 'l' as int, 's' as int, 'e' as int]
  const NullWord: seq<CodeUnit> := ['n' as int, 'u' as int, 'l' as int, 'l' as int]

  /** scanWord: the input must continue with `word`; the first mismatch, or the end, is an error. */
  function MatchWord(s: seq<CodeUnit>, i: nat, word: seq<CodeUnit>, kind: Punctuator): (r: Scan<Token>)
    requires i <= |s|
    decreases |word|
  {
    if word == [] then Done(Punc(kind), i)
    else if i == |s| then Fail(UnexpectedEnd)
    else if s[i] != word[0] then Fail(UnexpectedChar(s[i]))
    else MatchWord(s, i + 1, word[1..], kind)
  }

  /** scanWord succeeds exactly when the whole word is next, and then consumes exactly it. */
  lemma {:induction false} MatchWordMeaning(s: seq<CodeUnit>, i: nat, word: seq<CodeUnit>, kind: Punctuator)
    requires i <= |s|
    ensures MatchWord(s, i, word, kind).Done? <==> i + |word| <= |s| && s[i..i + |word|] == word
    ensures MatchWord(s, i, word, kind).Done? ==> MatchWord(s, i, word, kind) == Done(Punc(kind), i + |word|)
    decreases |word|
  {
    if word != [] && i < |s| {
      MatchWordMeaning(s, i + 1, word[1..], kind);
      if i + |word| <= |s| {
        assert s[i..i + |word|] == [s[i]] + s[i + 1..i + 1 + |word[1..]|];
        assert word == [word[0]] + word[1..];
      }
    }
  }

  /** The code units scanNumber takes: '-', '+', '.', 'e', 'E' and decimal digits. */
  predicate IsNumberChar(c: CodeUnit)
  {
    c == '-' as int || c == '+' as int || c == '.' as int || SetBit5(c) == 'e' as int
    || '0' as int <= c <= '9' as int
  }

  /** The end of the run of number characters starting at `i`. */
  function NumberEnd(s: seq<CodeUnit>, i: nat): (j: nat)
    requires i <= |s|
    ensures i <= j <= |s|
    ensures forall k :: i <= k < j ==> IsNumberChar(s[k])
    ensures j == |s| || !IsNumberChar(s[j])
    decreases |s| - i
  {
    if i < |s| && IsNumberChar(s[i]) then NumberEnd(s, i + 1) else i
  }

  predicate IsDigit(c: CodeUnit) { '0' as int <= c <= '9' as int }

  /**
   * scanNumber from a '-' or a digit at `i`: the run of number characters,
   * refused if it starts with '0' and a digit, and refused unless strtod reads
   * all of it. `strtodLength(t)` is how many code units of `t` strtod reads.
   */
  function ScanNumberText(s: seq<CodeUnit>, i: nat, strtodLength: seq<CodeUnit> -> nat): (r: Scan<Token>)
    requires i < |s| && IsNumberChar(s[i])
  {
    var j := NumberEnd(s, i);
    var text := s[i..j];
    if text[0] == '0' as int && |text| > 1 && IsDigit(text[1]) then Fail(UnexpectedCharInNumber(text[1]))
    else if strtodLength(text) != |text| then
      Fail(UnexpectedCharInNumber(if strtodLength(text) < |text| then text[strtodLength(text)] else 0))
    else Done(Number(text), j)
  }

  /** A number token is a maximal run of number characters without a leading zero before a digit. */
  lemma ScanNumberMeaning(s: seq<CodeUnit>, i: nat, strtodLength: seq<CodeUnit> -> nat)
    requires i < |s| && IsNumberChar(s[i])
    ensures ScanNumberText(s, i, strtodLength).Done? ==>
      var r := ScanNumberText(s, i, strtodLength);
      && r.value == Number(s[i..r.next])
      && (forall k :: i <= k < r.next ==> IsNumberChar(s[k]))
      && (r.next == |s| || !IsNumberChar(s[r.next]))
      && !(s[i] == '0' as int && r.next > i + 1 && IsDigit(s[i + 1]))
    ensures s[i] == '0' as int && i + 1 < |s| && IsDigit(s[i + 1]) ==>
      ScanNumberText(s, i, strtodLength) == Fail(UnexpectedCharInNumber(s[i + 1]))
  {
    var j := NumberEnd(s, i);
    if s[i] == '0' as int && i + 1 < |s| && IsDigit(s[i + 1]) {
      assert IsNumberChar(s[i + 1]);
      assert j > i + 1;
      assert s[i..j][1] == s[i + 1];
    }
  }

  /** The punctuator a code unit stands for, if any. */
  function PunctuatorOf(c: CodeUnit): Option<Punctuator>
  {
    if c == '{' as int then Some(LBrace)
    else if c == '}' as int then Some(RBrace)
    else if c == '[' as int then Some(LSquare)
    else if c == ']' as int then Some(RSquare)
    else if c == ',' as int then Some(Comma)
    else if c == ':' as int then Some(Colon)
    else None
  }

  /**
   * advanceHelper: skip whitespace, then read one token. `forKey` reads a
   * string as a property-key symbol.
   */
  function Lex(s: seq<CodeUnit>, i: nat, forKey: bool, strtodLength: seq<CodeUnit> -> nat): (r: Scan<Token>)
    requires i <= |s|
    ensures r.Done? ==> SkipWhiteSpace(s, i) <= r.next <= |s|
  {
    var j := SkipWhiteSpace(s, i);
    if j == |s| then Done(Eof, j)
    else
      var c := s[j];
      if PunctuatorOf(c).Some? then Done(Punc(PunctuatorOf(c).value), j + 1)
      else if c == 't' as int then MatchWordMeaning(s, j, TrueWord, True); MatchWord(s, j, TrueWord, True)
      else if c == 'f' as int then MatchWordMeaning(s, j, FalseWord, False); MatchWord(s, j, FalseWord, False)
      else if c == 'n' as int then MatchWordMeaning(s, j, NullWord, Null); MatchWord(s, j, NullWord, Null)
      else if c == '-' as int || IsDigit(c) then ScanNumberText(s, j, strtodLength)
      else if c == Quote then
        match StringBody(s, j + 1, [])
        case Done(v, n) => Done(if forKey then Symbol(v) else Str(v), n)
        case Fail(e) => Fail(e)
      else Fail(UnexpectedChar(c))
  }

  /** Whitespace before a token is skipped: lexing from a whitespace code unit is lexing from the next one. */
  lemma LexSkipsWhiteSpace(s: seq<CodeUnit>, i: nat, forKey: bool, strtodLength: seq<CodeUnit> -> nat)
    requires i < |s| && IsJsonWhiteSpace(s[i])
    ensures Lex(s, i, forKey, strtodLength) == Lex(s, i + 1, forKey, strtodLength)
  {
  }

  /** Input that is only whitespace gives the end-of-input token. */
  lemma {:induction false} OnlyWhiteSpaceIsEof(s: seq<CodeUnit>, i: nat, forKey: bool, strtodLength: seq<CodeUnit> -> nat)
    requires i <= |s|
    requires forall k :: i <= k < |s| ==> IsJsonWhiteSpace(s[k])
    ensures Lex(s, i, forKey, strtodLength) == Done(Eof, |s|)
    decreases |s| - i
  {
    if i < |s| {
      OnlyWhiteSpaceIsEof(s, i + 1, forKey, strtodLength);
    }
  }

  /**
   * A punctuator token takes exactly its one code unit, and a keyword token
   * exactly the letters of its keyword.
   */
  lemma LexPunctuatorExtent(s: seq<CodeUnit>, i: nat, forKey: bool, strtodLength: seq<CodeUnit> -> nat)
    requires i <= |s|
    ensures var r := Lex(s, i, forKey, strtodLength);
      var j := SkipWhiteSpace(s, i);
      r.Done? && r.value.Punc? ==>
        match r.value.kind
        case True => r.next == j + 4 && s[j..r.next] == TrueWord
        case False => r.next == j + 5 && s[j..r.next] == FalseWord
        case Null => r.next == j + 4 && s[j..r.next] == NullWord
        case _ => r.next == j + 1 && PunctuatorOf(s[j]) == Some(r.value.kind)
  {
    var j := SkipWhiteSpace(s, i);
    if j < |s| {
      MatchWordMeaning(s, j, TrueWord, True);
      MatchWordMeaning(s, j, FalseWord, False);
      MatchWordMeaning(s, j, NullWord, Null);
    }
  }

  /**
   * The lexer: a cursor `pos` over `input`, the current token and the first
   * code unit of that token. `strtodLength` stands for the C library's strtod:
   * how many code units of a number's text it reads.
   */
  class Lexer {
    const input: seq<CodeUnit>
    const strtodLength: seq<CodeUnit> -> nat
    var pos: nat
    var token: Token
    var firstChar: CodeUnit

    predicate Valid()
      reads this
    {
      pos <= |input|
    }

    /** The status and state a method leaves when it produces scan result `r`. */
    predicate Produced(r: Scan<Token>, st: Status)
      reads this
    {
      match r
      case Done(t, n) => st == Returned && token == t && pos == n
      case Fail(e) => st == Exception(e)
    }

    constructor (input: seq<CodeUnit>, strtodLength: seq<CodeUnit> -> nat)
      ensures Valid()
      ensures this.input == input && this.strtodLength == strtodLength
      ensures pos == 0 && token == Eof && firstChar == 0
    {
      this.input := input;
      this.strtodLength := strtodLength;
      pos := 0;
      token := Eof;
      firstChar := 0;
    }

    /** consumeUnicode: reads the four digits of a \u escape. */
    method ConsumeUnicode() returns (r: Scan<CodeUnit>)
      requires Valid()
      modifies this
      ensures Valid() && token == old(token) && firstChar == old(firstChar)
      ensures r == UnicodeEscape(input, old(pos))
      ensures r.Done? ==> pos == r.next
    {
      var val: CodeUnit := 0;
      var i := 0;
      while i < 4
        invariant 0 <= i <= 4 && pos == old(pos) + i <= |input|
        invariant token == old(token) && firstChar == old(firstChar)
        invariant UnicodeEscape(input, old(pos)) == UnicodeDigits(input, pos, 4 - i, val)
      {
        if pos == |input| {
          return Fail(UnexpectedEnd);
        }
        Or32DigitIsHexDigit(input[pos]);
        var ch := SetBit5(input[pos]);
        var d;
        if '0' as int <= ch <= '9' as int {
          d := ch - '0' as int;
        } else if 'a' as int <= ch <= 'f' as int {
          d := ch - ('a' as int - 10);
        } else {
          return Fail(InvalidUnicodeChar(input[pos]));
        }
        val := (val * 16 + d) % 0x1_0000;
        pos := pos + 1;
        i := i + 1;
      }
      return Done(val, pos);
    }

    /** scanWord: matches the rest of a keyword. */
    method ScanWord(word: seq<CodeUnit>, kind: Punctuator) returns (st: Status)
      requires Valid()
      modifies this
      ensures Valid() && Produced(MatchWord(input, old(pos), word, kind), st)
    {
      var w := 0;
      while w < |word| && pos < |input|
        invariant 0 <= w <= |word| && pos <= |input|
        invariant MatchWord(input, old(pos), word, kind) == MatchWord(input, pos, word[w..], kind)
      {
        if input[pos] != word[w] {
          return Exception(UnexpectedChar(input[pos]));
        }
        assert word[w..][1..] == word[w + 1..];
        pos := pos + 1;
        w := w + 1;
      }
      if w < |word| {
        return Exception(UnexpectedEnd);
      }
      assert word[w..] == [];
      token := Punc(kind);
      return Returned;
    }

    /** scanNumber: collects the number characters and hands them to strtod. */
    method ScanNumber() returns (st: Status)
      requires Valid() && pos < |input| && IsNumberChar(input[pos])
      modifies this
      ensures Valid() && Produced(ScanNumberText(input, old(pos), strtodLength), st)
    {
      var text: seq<CodeUnit> := [];
      while pos < |input| && IsNumberChar(input[pos])
        invariant old(pos) <= pos <= |input| && text == input[old(pos)..pos]
        invariant NumberEnd(input, old(pos)) == NumberEnd(input, pos)
      {
        text := text + [input[pos]];
        pos := pos + 1;
      }
      var len := |text|;
      if text[0] == '0' as int && len > 1 && '0' as int <= text[1] <= '9' as int {
        return Exception(UnexpectedCharInNumber(text[1]));
      }
      var end := strtodLength(text);
      if end != len {
        return Exception(UnexpectedCharInNumber(if end < len then text[end] else 0));
      }
      token := Number(text);
      return Returned;
    }

    /** scanString: from the opening quote to the closing one, decoding escapes. */
    method ScanString(forKey: bool) returns (st: Status)
      requires Valid() && pos < |input| && input[pos] == Quote
      modifies this
      ensures Valid()
      ensures Produced(
        match StringBody(input, old(pos) + 1, [])
        case Done(v, n) => Done(if forKey then Symbol(v) else Str(v), n)
        case Fail(e) => Fail(e), st)
    {
      var p := pos + 1;
      var acc: seq<CodeUnit> := [];
      while p < |input|
        invariant old(pos) < p <= |input| && pos <= |input|
        invariant StringBody(input, old(pos) + 1, []) == StringBody(input, p, acc)
        decreases |input| - p
      {
        var c := input[p];
        ghost var p0, acc0 := p, acc;
        if c == Quote {
          pos := p + 1;
          token := if forKey then Symbol(acc) else Str(acc);
          return Returned;
        } else if c <= 0x1F {
          return Exception(ControlCharInString);
        }
        if c == Backslash {
          p := p + 1;
          if p == |input| {
            return Exception(UnexpectedEnd);
          }
          var e := input[p];
          var simple := SimpleEscape(e);
          if simple.Some? {
            acc := acc + [simple.value];
            p := p + 1;
            SimpleEscapeRead(input, p0, acc0, p, acc);
          } else if e == 'u' as int {
            pos := p + 1;
            var cr := ConsumeUnicode();
            if cr.Fail? {
              return Exception(cr.err);
            }
            acc := acc + [cr.value];
            p := pos;
            UnicodeEscapeRead(input, p0, acc0, p, acc);
          } else {
            return Exception(InvalidEscape(e));
          }
        } else {
          acc := acc + [c];
          p := p + 1;
          PlainUnitRead(input, p0, acc0, p, acc);
        }
      }
      return Exception(UnexpectedEnd);
    }

    /** advanceHelper: skips whitespace and reads the next token. */
    method AdvanceHelper(forKey: bool) returns (st: Status)
      requires Valid()
      modifies this
      ensures Valid() && Produced(Lex(input, old(pos), forKey, strtodLength), st)
      ensures SkipWhiteSpace(input, old(pos)) < |input| ==> firstChar == input[SkipWhiteSpace(input, old(pos))]
    {
      while pos < |input| && IsJsonWhiteSpace(input[pos])
        invariant old(pos) <= pos <= |input|
        invariant SkipWhiteSpace(input, old(pos)) == SkipWhiteSpace(input, pos)
      {
        pos := pos + 1;
      }
      if pos == |input| {
        token := Eof;
        return Returned;
      }
      firstChar := input[pos];
      var c := input[pos];
      if c == '{' as int || c == '}' as int || c == '[' as int || c == ']' as int || c == ',' as int || c == ':' as int {
        token := Punc(PunctuatorOf(c).value);
        pos := pos + 1;
        return Returned;
      } else if c == 't' as int {
        st := ScanWord(TrueWord, True);
      } else if c == 'f' as int {
        st := ScanWord(FalseWord, False);
      } else if c == 'n' as int {
        st := ScanWord(NullWord, Null);
      } else if c == '-' as int || '0' as int <= c <= '9' as int {
        st := ScanNumber();
      } else if c == Quote {
        st := ScanString(forKey);
      } else {
        return Exception(UnexpectedChar(c));
      }
      firstChar := c;
    }

    /** advance: the next token, strings read as values. */
    method Advance() returns (st: Status)
      requires Valid()
      modifies this
      ensures Valid() && Produced(Lex(input, old(pos), false, strtodLength), st)
    {
      st := AdvanceHelper(false);
    }

    /** advanceStrAsSymbol: the next token, strings read as property-key symbols. */
    method AdvanceStrAsSymbol() returns (st: Status)
      requires Valid()
      modifies this
      ensures Valid() && Produced(Lex(input, old(pos), true, strtodLength), st)
    {
      st := AdvanceHelper(true);
    }
  }
}

/**
 * The banner TableGen writes at the top of every generated file: fixed-width
 * lines of exactly MaxLineLen characters framed by a prefix and a suffix, with
 * the description wrapped into as many framed lines as it needs.
 */
module TableGenHeader {
  const MaxLineLen: nat := 80

  const HeaderPrefix: string := "|* "
  const HeaderSuffix: string := " *|"

  /** The longest piece of description that fits between prefix and suffix. */
  const ChunkLen: nat := MaxLineLen - (|HeaderPrefix| + |HeaderSuffix|)

  /** `n` copies of `c`. */
  function Repeat(c: char, n: nat): (r: string)
    ensures |r| == n && forall i :: 0 <= i < n ==> r[i] == c
  {
    if n == 0 then [] else Repeat(c, n - 1) + [c]
  }

  /**
   * The line printLine writes: the prefix, the fill character up to column
   * MaxLineLen - |suffix|, the suffix and a newline.
   */
  function Line(prefix: string, fill: char, suffix: string): (r: string)
    requires |prefix| + |suffix| <= MaxLineLen
    ensures |r| == MaxLineLen + 1
  {
    prefix + Repeat(fill, MaxLineLen - |suffix| - |prefix|) + suffix + "\n"
  }

  /** Every printed line is the prefix, fill characters, the suffix ending at column 80, and a newline. */
  lemma LineShape(prefix: string, fill: char, suffix: string)
    requires |prefix| + |suffix| <= MaxLineLen
    ensures var r := Line(prefix, fill, suffix);
      && r[..|prefix|] == prefix
      && r[MaxLineLen - |suffix|..MaxLineLen] == suffix
      && (forall i :: |prefix| <= i < MaxLineLen - |suffix| ==> r[i] == fill)
      && r[MaxLineLen] == '\n'
  {
    var r := Line(prefix, fill, suffix);
    assert r[..|prefix|] == prefix;
    assert r[MaxLineLen - |suffix|..MaxLineLen] == suffix;
  }

  /** printLine: writes the prefix, then fills column by column, then the suffix. */
  method PrintLine(prefix: string, fill: char, suffix: string) returns (line: string)
    requires |prefix| + |suffix| <= MaxLineLen
    ensures line == Line(prefix, fill, suffix)
  {
    line := prefix;
    var i := |prefix|;
    var e := MaxLineLen - |suffix|;
    while i < e
      invariant |prefix| <= i <= e
      invariant line == prefix + Repeat(fill, i - |prefix|)
    {
      line := line + [fill];
      i := i + 1;
    }
    line := line + suffix + "\n";
  }

  /**
   * The pieces the description is cut into: at least one, each at most
   * ChunkLen characters, every one but the last exactly ChunkLen.
   */
  function Chunks(desc: string): (cs: seq<string>)
    ensures |cs| >= 1
    ensures forall i :: 0 <= i < |cs| ==> |cs[i]| <= ChunkLen
    decreases |desc|
  {
    if |desc| <= ChunkLen then [desc] else [desc[..ChunkLen]] + Chunks(desc[ChunkLen..])
  }

  function Concat(cs: seq<string>): string
  {
    if cs == [] then "" else cs[0] + Concat(cs[1..])
  }

  /** The chunks put back together give the description. */
  lemma {:induction false} ChunksConcat(desc: string)
    ensures Concat(Chunks(desc)) == desc
    decreases |desc|
  {
    if |desc| > ChunkLen {
      ChunksConcat(desc[ChunkLen..]);
      assert desc == desc[..ChunkLen] + desc[ChunkLen..];
    }
  }

  /** An empty description still gets one (empty) chunk line. */
  lemma EmptyDescriptionOneChunk()
    ensures Chunks("") == [""]
  {
  }

  /** Only the last chunk can be shorter than ChunkLen, and only it can be empty. */
  lemma {:induction false} ChunksFull(desc: string)
    ensures forall i :: 0 <= i < |Chunks(desc)| - 1 ==> |Chunks(desc)[i]| == ChunkLen
    ensures |Chunks(desc)| > 1 ==> |Chunks(desc)[|Chunks(desc)| - 1]| > 0
    decreases |desc|
  {
    if |desc| > ChunkLen {
      ChunksFull(desc[ChunkLen..]);
      var cs := Chunks(desc);
      assert cs[1..] == Chunks(desc[ChunkLen..]);
    }
  }

  /** The framed lines of the description chunks, in order. */
  function ChunkLines(cs: seq<string>): (r: string)
    requires forall i :: 0 <= i < |cs| ==> |cs[i]| <= ChunkLen
    ensures |r| == |cs| * (MaxLineLen + 1)
  {
    if cs == [] then "" else Line(HeaderPrefix + cs[0], ' ', HeaderSuffix) + ChunkLines(cs[1..])
  }

  const OpeningLine: string := Line("/*===- TableGen'erated file ", '-', "*- C++ -*-===*\\")
  const BlankLine: string := Line(HeaderPrefix, ' ', HeaderSuffix)
  const NoticeLine: string := Line(HeaderPrefix + "Automatically generated file, do not edit!", ' ', HeaderSuffix)
  const ClosingLine: string := Line("\\*===", '-', "===*/")

  /** The whole banner for a description. */
  function Header(desc: string): (r: string)
  {
    OpeningLine + BlankLine + ChunkLines(Chunks(desc)) + BlankLine + NoticeLine + BlankLine + ClosingLine + "\n"
  }

  /** The banner is made of 6 + (number of chunks) lines of 81 characters, plus a final newline. */
  lemma HeaderSize(desc: string)
    ensures |Header(desc)| == (6 + |Chunks(desc)|) * (MaxLineLen + 1) + 1
    ensures Header(desc)[..MaxLineLen + 1] == OpeningLine
    ensures Header(desc)[|Header(desc)| - 1] == '\n'
  {
    var rest := BlankLine + ChunkLines(Chunks(desc)) + BlankLine + NoticeLine + BlankLine + ClosingLine + "\n";
    assert Header(desc) == OpeningLine + rest;
  }

  /** The framed description lines still to be written when the loop is at `pos`. */
  ghost function Remaining(desc: string, pos: nat, first: bool): string
    requires pos <= |desc|
  {
    if !first && pos == |desc| then "" else ChunkLines(Chunks(desc[pos..]))
  }

  /** One turn of the do-while loop writes the first chunk line of what remains. */
  lemma ChunkStep(desc: string, pos: nat, length: nat)
    requires pos <= |desc|
    requires length == if |desc| - pos < ChunkLen then |desc| - pos else ChunkLen
    ensures ChunkLines(Chunks(desc[pos..]))
         == Line(HeaderPrefix + desc[pos..pos + length], ' ', HeaderSuffix) + Remaining(desc, pos + length, false)
  {
    var rest := desc[pos..];
    if |rest| > ChunkLen {
      assert rest[..ChunkLen] == desc[pos..pos + length];
      assert rest[ChunkLen..] == desc[pos + length..];
    } else {
      assert rest == desc[pos..pos + length];
    }
  }

  /** The do-while loop of emitSourceFileHeader: one framed line per chunk. */
  method EmitDescription(desc: string) returns (out: string)
    ensures out == ChunkLines(Chunks(desc))
  {
    out := "";
    var pos := 0;
    var first := true;
    while first || pos < |desc|
      invariant 0 <= pos <= |desc|
      invariant first ==> pos == 0
      invariant out + Remaining(desc, pos, first) == ChunkLines(Chunks(desc))
      decreases |desc| - pos, first
    {
      var length := if |desc| - pos < ChunkLen then |desc| - pos else ChunkLen;
      var line := PrintLine(HeaderPrefix + desc[pos..pos + length], ' ', HeaderSuffix);
      ChunkStep(desc, pos, length);
      assert out + line + Remaining(desc, pos + length, false) == ChunkLines(Chunks(desc));
      out := out + line;
      pos := pos + length;
      first := false;
    }
    assert Remaining(desc, pos, first) == "";
  }

  /** emitSourceFileHeader: the fixed lines around the description lines. */
  method EmitSourceFileHeader(desc: string) returns (out: string)
    ensures out == Header(desc)
  {
    var opening := PrintLine("/*===- TableGen'erated file ", '-', "*- C++ -*-===*\\");
    var blank := PrintLine(HeaderPrefix, ' ', HeaderSuffix);
    var body := EmitDescription(desc);
    var notice := PrintLine(HeaderPrefix + "Automatically generated file, do not edit!", ' ', HeaderSuffix);
    var closing := PrintLine("\\*===", '-', "===*/");
    out := opening + blank + body + blank + notice + blank + closing + "\n";
  }
}

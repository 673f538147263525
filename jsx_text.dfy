/**
 * Whitespace normalisation of JSX text children
 * (benchmarks/build-helpers/flow-bundler/src/transforms/transformJSX.js,
 * the JSXText case of convertJSXChild).
 *
 * The text is split into lines at "\r\n", "\n" or "\r"; tabs become spaces;
 * spaces touching a line break are dropped; the lines left non-empty are
 * joined with one space between them.
 */
module JsxText {

  /** String.prototype.split with the pattern /\r\n|\n|\r/: the lines, never fewer than one. */
  function SplitLines(s: string): (r: seq<string>)
    ensures |r| >= 1
    decreases |s|
  {
    if s == [] then [[]]
    else if s[0] == '\r' && |s| >= 2 && s[1] == '\n' then [[]] + SplitLines(s[2..])
    else if s[0] == '\n' || s[0] == '\r' then [[]] + SplitLines(s[1..])
    else
      var rest := SplitLines(s[1..]);
      [[s[0]] + rest[0]] + rest[1..]
  }

  predicate IsBreak(c: char)
  {
    c == '\n' || c == '\r'
  }

  /** No line break or tab occurs in the string. */
  predicate NoBreaksOrTabs(s: string)
  {
    forall k :: 0 <= k < |s| ==> !IsBreak(s[k]) && s[k] != '\t'
  }

  /** The lines joined with "\n". */
  function JoinLines(lines: seq<string>): string
    requires |lines| >= 1
  {
    if |lines| == 1 then lines[0] else lines[0] + "\n" + JoinLines(lines[1..])
  }

  /** No line contains a line break. */
  lemma {:induction false} SplitLinesHaveNoBreaks(s: string)
    ensures forall i, k :: 0 <= i < |SplitLines(s)| && 0 <= k < |SplitLines(s)[i]| ==> !IsBreak(SplitLines(s)[i][k])
    decreases |s|
  {
    if s == [] {
    } else if s[0] == '\r' && |s| >= 2 && s[1] == '\n' {
      SplitLinesHaveNoBreaks(s[2..]);
      var r := SplitLines(s);
      forall i, k | 0 <= i < |r| && 0 <= k < |r[i]| ensures !IsBreak(r[i][k]) {
        if i > 0 {
          assert r[i] == SplitLines(s[2..])[i - 1];
        }
      }
    } else if s[0] == '\n' || s[0] == '\r' {
      SplitLinesHaveNoBreaks(s[1..]);
      var r := SplitLines(s);
      forall i, k | 0 <= i < |r| && 0 <= k < |r[i]| ensures !IsBreak(r[i][k]) {
        if i > 0 {
          assert r[i] == SplitLines(s[1..])[i - 1];
        }
      }
    } else {
      SplitLinesHaveNoBreaks(s[1..]);
      var rest := SplitLines(s[1..]);
      var r := SplitLines(s);
      forall i, k | 0 <= i < |r| && 0 <= k < |r[i]| ensures !IsBreak(r[i][k]) {
        if i > 0 {
          assert r[i] == rest[i];
        } else if k > 0 {
          assert r[0][k] == rest[0][k - 1];
        }
      }
    }
  }

  /** Splitting a text that uses only "\n" breaks and joining the lines with "\n" gives the text back. */
  lemma {:induction false} SplitJoinRoundTrip(s: string)
    requires forall k :: 0 <= k < |s| ==> s[k] != '\r'
    ensures JoinLines(SplitLines(s)) == s
    decreases |s|
  {
    if s == [] {
    } else if s[0] == '\n' {
      SplitJoinRoundTrip(s[1..]);
      var rest := SplitLines(s[1..]);
      assert SplitLines(s) == [[]] + rest;
      assert ([[]] + rest)[1..] == rest;
      assert s == "\n" + s[1..];
    } else {
      SplitJoinRoundTrip(s[1..]);
      var rest := SplitLines(s[1..]);
      var r := SplitLines(s);
      assert r == [[s[0]] + rest[0]] + rest[1..];
      if |rest| == 1 {
        assert JoinLines(r) == [s[0]] + rest[0];
      } else {
        assert r[1..] == rest[1..];
        assert JoinLines(rest) == rest[0] + "\n" + JoinLines(rest[1..]);
        assert JoinLines(r) == [s[0]] + rest[0] + "\n" + JoinLines(rest[1..]);
      }
      assert s == [s[0]] + s[1..];
    }
  }

  /** A text without line breaks is one line. */
  lemma {:induction false} SplitWithoutBreaks(s: string)
    requires forall k :: 0 <= k < |s| ==> !IsBreak(s[k])
    ensures SplitLines(s) == [s]
    decreases |s|
  {
    if s != [] {
      SplitWithoutBreaks(s[1..]);
      assert [s[0]] + s[1..] == s;
    }
  }

  /** A text with a line break has at least two lines. */
  lemma {:induction false} SplitWithBreak(s: string, k: int)
    requires 0 <= k < |s| && IsBreak(s[k])
    ensures |SplitLines(s)| >= 2
    decreases |s|
  {
    if !IsBreak(s[0]) {
      SplitWithBreak(s[1..], k - 1);
    }
  }

  // ---------------------------------------------------------------------
  // One line
  // ---------------------------------------------------------------------

  /** line.replace(/\t/g, ' '). */
  function TabsToSpaces(line: string): (r: string)
    ensures |r| == |line|
    ensures forall k :: 0 <= k < |line| ==> r[k] == if line[k] == '\t' then ' ' else line[k]
  {
    seq(|line|, k requires 0 <= k < |line| => if line[k] == '\t' then ' ' else line[k])
  }

  /** The number of spaces the line starts with. */
  function LeadingSpaces(s: string): (r: nat)
    ensures r <= |s|
    ensures forall k :: 0 <= k < r ==> s[k] == ' '
    ensures r < |s| ==> s[r] != ' '
  {
    if s != [] && s[0] == ' ' then 1 + LeadingSpaces(s[1..]) else 0
  }

  /** The number of spaces the line ends with. */
  function TrailingSpaces(s: string): (r: nat)
    ensures r <= |s|
    ensures forall k :: |s| - r <= k < |s| ==> s[k] == ' '
    ensures r < |s| ==> s[|s| - r - 1] != ' '
  {
    if s != [] && s[|s| - 1] == ' ' then 1 + TrailingSpaces(s[..|s| - 1]) else 0
  }

  /** replace(/^[ ]+/, ''). */
  function TrimLeading(s: string): string
  {
    s[LeadingSpaces(s)..]
  }

  /** replace(/[ ]+$/, ''). */
  function TrimTrailing(s: string): string
  {
    s[..|s| - TrailingSpaces(s)]
  }

  predicate AllSpaces(s: string)
  {
    forall k :: 0 <= k < |s| ==> s[k] == ' '
  }

  /** Trimming the front leaves nothing exactly when the line is all spaces, and drops only spaces. */
  lemma TrimLeadingMeaning(s: string)
    ensures TrimLeading(s) == [] <==> AllSpaces(s)
    ensures s == s[..LeadingSpaces(s)] + TrimLeading(s) && AllSpaces(s[..LeadingSpaces(s)])
  {
    var n := LeadingSpaces(s);
    assert s == s[..n] + s[n..];
    forall k | 0 <= k < n ensures s[..n][k] == ' ' {
      assert s[..n][k] == s[k];
    }
    if n == |s| {
      assert TrimLeading(s) == [];
      assert AllSpaces(s);
    } else {
      assert |TrimLeading(s)| > 0;
      assert s[n] != ' ';
    }
  }

  /** Trimming the end leaves nothing exactly when the line is all spaces, and drops only spaces. */
  lemma TrimTrailingMeaning(s: string)
    ensures TrimTrailing(s) == [] <==> AllSpaces(s)
    ensures s == TrimTrailing(s) + s[|s| - TrailingSpaces(s)..] && AllSpaces(s[|s| - TrailingSpaces(s)..])
  {
    var n := TrailingSpaces(s);
    var m := |s| - n;
    assert s == s[..m] + s[m..];
    forall k | 0 <= k < n ensures s[m..][k] == ' ' {
      assert s[m..][k] == s[m + k];
    }
    if n == |s| {
      assert TrimTrailing(s) == [];
      assert AllSpaces(s);
    } else {
      assert |TrimTrailing(s)| == m > 0;
      assert s[m - 1] != ' ';
    }
  }

  /** Trimming both ends leaves nothing exactly when the line is all spaces. */
  lemma TrimBothMeaning(s: string)
    ensures TrimTrailing(TrimLeading(s)) == [] <==> AllSpaces(s)
  {
    var t := TrimLeading(s);
    TrimLeadingMeaning(s);
    TrimTrailingMeaning(t);
    if t != [] {
      assert t[0] == s[LeadingSpaces(s)] && t[0] != ' ';
    }
  }

  /** The line holds a character other than a space or a tab: lines[i].match(/[^ \t]/). */
  predicate HasContent(line: string)
  {
    exists k :: 0 <= k < |line| && line[k] != ' ' && line[k] != '\t'
  }

  /** Line i after tab replacement and the trimming its position calls for. */
  function Trimmed(lines: seq<string>, i: int): string
    requires 0 <= i < |lines|
  {
    var t := TabsToSpaces(lines[i]);
    var t1 := if i != 0 then TrimLeading(t) else t;
    if i != |lines| - 1 then TrimTrailing(t1) else t1
  }

  /** Where there are two lines or more, a line survives trimming exactly when it has content. */
  lemma TrimmedNonEmpty(lines: seq<string>, i: int)
    requires 0 <= i < |lines| && |lines| >= 2
    ensures Trimmed(lines, i) != [] <==> HasContent(lines[i])
  {
    var t := TabsToSpaces(lines[i]);
    TrimLeadingMeaning(t);
    TrimTrailingMeaning(t);
    TrimBothMeaning(t);
    SpacedLineMeaning(lines[i]);
  }

  /** After tab replacement a line is all spaces exactly when it has no content. */
  lemma SpacedLineMeaning(line: string)
    ensures AllSpaces(TabsToSpaces(line)) <==> !HasContent(line)
  {
    var t := TabsToSpaces(line);
    if !AllSpaces(t) {
      var k :| 0 <= k < |t| && t[k] != ' ';
      assert line[k] != ' ' && line[k] != '\t';
    }
    if HasContent(line) {
      var k :| 0 <= k < |line| && line[k] != ' ' && line[k] != '\t';
      assert t[k] != ' ';
    }
  }

  /** Trimming keeps a line free of breaks and tabs. */
  lemma TrimmedClean(lines: seq<string>, i: int)
    requires 0 <= i < |lines|
    requires forall k :: 0 <= k < |lines[i]| ==> !IsBreak(lines[i][k])
    ensures NoBreaksOrTabs(Trimmed(lines, i))
  {
    var t := TabsToSpaces(lines[i]);
    assert NoBreaksOrTabs(t);
    var t1 := if i != 0 then TrimLeading(t) else t;
    assert NoBreaksOrTabs(t1) by {
      if i != 0 {
        forall k | 0 <= k < |t1| ensures !IsBreak(t1[k]) && t1[k] != '\t' {
          assert t1[k] == t[k + LeadingSpaces(t)];
        }
      }
    }
  }

  // ---------------------------------------------------------------------
  // The lines together
  // ---------------------------------------------------------------------

  /** Every line after tab replacement and trimming. */
  function TrimmedLines(lines: seq<string>): (ts: seq<string>)
    ensures |ts| == |lines|
    ensures forall i :: 0 <= i < |lines| ==> ts[i] == Trimmed(lines, i)
  {
    seq(|lines|, i requires 0 <= i < |lines| => Trimmed(lines, i))
  }

  /** The non-empty strings among the first n, in order. */
  function Kept(ts: seq<string>, n: int): seq<string>
    requires 0 <= n <= |ts|
  {
    if n == 0 then []
    else if ts[n - 1] == [] then Kept(ts, n - 1)
    else Kept(ts, n - 1) + [ts[n - 1]]
  }

  /** The strings joined with one space between neighbours. */
  function JoinSpaces(xs: seq<string>): string
  {
    if xs == [] then []
    else if |xs| == 1 then xs[0]
    else JoinSpaces(xs[..|xs| - 1]) + " " + xs[|xs| - 1]
  }

  /** The normalised text: the trimmed non-empty lines joined with single spaces. */
  function NormalizedText(value: string): string
  {
    var ts := TrimmedLines(SplitLines(value));
    JoinSpaces(Kept(ts, |ts|))
  }

  /** The index of the last of the first n lines that has content, or 0 when none has. */
  function LastContent(lines: seq<string>, n: int): (r: nat)
    requires 0 <= n <= |lines|
    ensures n == 0 ==> r == 0
    ensures n > 0 ==> r < n
    ensures forall j :: 0 <= j < n && HasContent(lines[j]) ==> j <= r
    ensures (exists j :: 0 <= j < n && HasContent(lines[j])) ==> HasContent(lines[r])
  {
    if n == 0 then 0
    else if HasContent(lines[n - 1]) then n - 1
    else LastContent(lines, n - 1)
  }

  /** A space when one is pending. */
  function Pending(b: bool): string
  {
    if b then " " else ""
  }

  /** What the second loop of the source has built after n lines, given the index `last`. */
  function Appended(ts: seq<string>, last: int, n: int): string
    requires 0 <= n <= |ts|
  {
    if n == 0 then []
    else if ts[n - 1] == [] then Appended(ts, last, n - 1)
    else Appended(ts, last, n - 1) + ts[n - 1] + Pending(n - 1 != last)
  }

  /** Joining a non-empty list with one more string adds a space and the string. */
  lemma JoinSpacesSnoc(xs: seq<string>, t: string)
    ensures JoinSpaces(xs + [t]) == if xs == [] then t else JoinSpaces(xs) + " " + t
  {
    assert (xs + [t])[..|xs|] == xs;
  }

  lemma AppendAssoc(a: string, b: string, c: string)
    ensures a + (b + c) == a + b + c
  {
  }

  /** The string algebra of one step of the second loop. */
  lemma AppendStep(prev: string, joined: string, t: string, sp: string, nonEmpty: bool)
    requires prev == if nonEmpty then joined + " " else []
    ensures prev + t + sp == (if nonEmpty then joined + " " + t else t) + sp
  {
  }

  /**
   * The source's loop, which appends a space after every non-empty string
   * but the one at index `last`, builds the space-joined strings, with a
   * space pending while `last` lies further on; `last` must be at or beyond
   * every non-empty string, and be non-empty itself once one lies before it.
   */
  lemma {:induction false} AppendedMeaning(ts: seq<string>, last: int, n: int)
    requires 0 <= n <= |ts| && 0 <= last < |ts|
    requires forall j :: 0 <= j < |ts| && ts[j] != [] ==> j <= last
    requires (exists j :: 0 <= j < last && ts[j] != []) ==> ts[last] != []
    ensures Appended(ts, last, n) == JoinSpaces(Kept(ts, n)) + Pending(Kept(ts, n) != [] && n <= last)
  {
    if n > 0 {
      AppendedMeaning(ts, last, n - 1);
      var t := ts[n - 1];
      var k := Kept(ts, n - 1);
      var prev := Appended(ts, last, n - 1);
      KeptWitness(ts, n - 1);
      var b1 := k != [] && n - 1 <= last;
      assert prev == JoinSpaces(k) + Pending(b1);
      if t == [] {
        assert Kept(ts, n) == k && Appended(ts, last, n) == prev;
        assert k != [] ==> n - 1 != last;
        assert b1 == (k != [] && n <= last);
      } else {
        assert Kept(ts, n) == k + [t];
        assert Appended(ts, last, n) == prev + t + Pending(n - 1 != last);
        JoinSpacesSnoc(k, t);
        assert k != [] ==> n - 1 <= last;
        AppendStep(prev, JoinSpaces(k), t, Pending(n - 1 != last), k != []);
        assert (n - 1 != last) == (Kept(ts, n) != [] && n <= last);
      }
    }
  }

  /** A non-empty Kept list has a non-empty string among the first n. */
  lemma {:induction false} KeptWitness(ts: seq<string>, n: int)
    requires 0 <= n <= |ts|
    ensures Kept(ts, n) != [] ==> exists j :: 0 <= j < n && ts[j] != []
    ensures Kept(ts, n) == [] <==> forall j :: 0 <= j < n ==> ts[j] == []
    ensures forall i :: 0 <= i < |Kept(ts, n)| ==> Kept(ts, n)[i] != []
  {
    if n > 0 {
      KeptWitness(ts, n - 1);
    }
  }

  /** The index of the last line with content meets what the loop needs of it. */
  lemma LastContentFits(lines: seq<string>)
    requires |lines| >= 1
    ensures var ts := TrimmedLines(lines); var last := LastContent(lines, |lines|);
      0 <= last < |ts| &&
      (forall j :: 0 <= j < |ts| && ts[j] != [] ==> j <= last) &&
      ((exists j :: 0 <= j < last && ts[j] != []) ==> ts[last] != [])
  {
    var ts := TrimmedLines(lines);
    var last := LastContent(lines, |lines|);
    if |lines| >= 2 {
      forall j | 0 <= j < |ts| ensures ts[j] != [] <==> HasContent(lines[j]) {
        TrimmedNonEmpty(lines, j);
      }
    }
  }

  /** The first loop of the JSXText normalisation: the last line with content, or 0. */
  method FindLastNonEmptyLine(lines: seq<string>) returns (lastNonEmptyLine: nat)
    ensures lastNonEmptyLine == LastContent(lines, |lines|)
  {
    lastNonEmptyLine := 0;
    for i := 0 to |lines|
      invariant lastNonEmptyLine == LastContent(lines, i)
    {
      if HasContent(lines[i]) {
        lastNonEmptyLine := i;
      }
    }
  }

  /** One line with its tabs replaced and the spaces touching a line break trimmed. */
  method TrimLine(lines: seq<string>, i: nat) returns (trimmedLine: string)
    requires i < |lines|
    ensures trimmedLine == Trimmed(lines, i)
  {
    var line := lines[i];
    var isFirstLine := i == 0;
    var isLastLine := i == |lines| - 1;
    trimmedLine := TabsToSpaces(line);
    if !isFirstLine {
      trimmedLine := TrimLeading(trimmedLine);
    }
    if !isLastLine {
      trimmedLine := TrimTrailing(trimmedLine);
    }
  }

  /** JSXText normalisation: the last line with content, then the loop that joins the trimmed lines. */
  method NormalizeJsxText(value: string) returns (str: string)
    ensures str == NormalizedText(value)
  {
    var lines := SplitLines(value);
    var lastNonEmptyLine := FindLastNonEmptyLine(lines);
    ghost var ts := TrimmedLines(lines);
    str := "";
    for i := 0 to |lines|
      invariant str == Appended(ts, lastNonEmptyLine, i)
    {
      var isLastNonEmptyLine := i == lastNonEmptyLine;
      var trimmedLine := TrimLine(lines, i);
      if trimmedLine != "" {
        ghost var prev := str;
        if !isLastNonEmptyLine {
          trimmedLine := trimmedLine + " ";
        }
        str := str + trimmedLine;
        AppendAssoc(prev, ts[i], Pending(i != lastNonEmptyLine));
      }
    }
    NormalizedByLoop(value);
  }

  /** What the joining loop builds over all the lines is the normalised text. */
  lemma NormalizedByLoop(value: string)
    ensures var lines := SplitLines(value);
      Appended(TrimmedLines(lines), LastContent(lines, |lines|), |lines|) == NormalizedText(value)
  {
    var lines := SplitLines(value);
    var ts := TrimmedLines(lines);
    var last := LastContent(lines, |lines|);
    LastContentFits(lines);
    AppendedMeaning(ts, last, |lines|);
    assert Pending(Kept(ts, |ts|) != [] && |ts| <= last) == "";
  }

  /** Joining clean strings with spaces gives a clean string. */
  lemma {:induction false} JoinSpacesClean(xs: seq<string>)
    requires forall i :: 0 <= i < |xs| ==> NoBreaksOrTabs(xs[i])
    ensures NoBreaksOrTabs(JoinSpaces(xs))
  {
    if |xs| > 1 {
      JoinSpacesClean(xs[..|xs| - 1]);
    }
  }

  /** Kept strings are clean when all strings are. */
  lemma {:induction false} KeptClean(ts: seq<string>, n: int)
    requires 0 <= n <= |ts|
    requires forall j :: 0 <= j < n ==> NoBreaksOrTabs(ts[j])
    ensures forall i :: 0 <= i < |Kept(ts, n)| ==> NoBreaksOrTabs(Kept(ts, n)[i])
  {
    if n > 0 {
      KeptClean(ts, n - 1);
    }
  }

  /** The normalised text holds no tab, carriage return or line feed. */
  lemma NormalizedIsClean(value: string)
    ensures NoBreaksOrTabs(NormalizedText(value))
  {
    var lines := SplitLines(value);
    var ts := TrimmedLines(lines);
    SplitLinesHaveNoBreaks(value);
    forall j | 0 <= j < |ts| ensures NoBreaksOrTabs(ts[j]) {
      TrimmedClean(lines, j);
    }
    KeptClean(ts, |ts|);
    JoinSpacesClean(Kept(ts, |ts|));
  }

  /** The join is empty only for no strings, when every string is non-empty. */
  lemma {:induction false} JoinSpacesEmpty(xs: seq<string>)
    requires forall i :: 0 <= i < |xs| ==> xs[i] != []
    ensures JoinSpaces(xs) == [] <==> xs == []
  {
  }

  /**
   * A text without line breaks only has its tabs turned into spaces; a text
   * with one normalises to nothing exactly when no line has content.
   */
  lemma NormalizedEmpty(value: string)
    ensures (forall k :: 0 <= k < |value| ==> !IsBreak(value[k])) ==> NormalizedText(value) == TabsToSpaces(value)
    ensures (exists k :: 0 <= k < |value| && IsBreak(value[k])) ==>
      (NormalizedText(value) == [] <==> forall i :: 0 <= i < |SplitLines(value)| ==> !HasContent(SplitLines(value)[i]))
  {
    var lines := SplitLines(value);
    var ts := TrimmedLines(lines);
    KeptWitness(ts, |ts|);
    JoinSpacesEmpty(Kept(ts, |ts|));
    if forall k :: 0 <= k < |value| ==> !IsBreak(value[k]) {
      SplitWithoutBreaks(value);
      assert Kept(ts, 0) == [];
    } else {
      var k :| 0 <= k < |value| && IsBreak(value[k]);
      SplitWithBreak(value, k);
      forall i | 0 <= i < |lines| ensures ts[i] != [] <==> HasContent(lines[i]) {
        TrimmedNonEmpty(lines, i);
      }
    }
  }
}

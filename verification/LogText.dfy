/** Splitting a decoded log into lines with `str.splitlines`, and what that does to appended text. */
module LogText {
  import opened Utf8

  /** Every character at which `str.splitlines` ends a line. */
  predicate IsBreak(c: char) {
    c == '\n' || c == '\r' || '\U{0B}' <= c <= '\U{0C}' || '\U{1C}' <= c <= '\U{1E}'
    || c == '\U{85}' || c == '\U{2028}' || c == '\U{2029}'
  }

  /** No line break inside. */
  ghost predicate OneLine(line: string) {
    forall i :: 0 <= i < |line| ==> !IsBreak(line[i])
  }

  ghost predicate UnbrokenTo(s: string, n: nat)
    requires n <= |s|
  {
    forall i :: 0 <= i < n ==> !IsBreak(s[i])
  }

  function LineEnd(s: string, from: nat): (n: nat)
    requires from <= |s|
    ensures from <= n <= |s|
    decreases |s| - from
  {
    if from == |s| || IsBreak(s[from]) then from else LineEnd(s, from + 1)
  }

  lemma {:induction false} LineEndIsFirstBreak(s: string, from: nat)
    requires from <= |s| && UnbrokenTo(s, from)
    ensures UnbrokenTo(s, LineEnd(s, from)) && (LineEnd(s, from) < |s| ==> IsBreak(s[LineEnd(s, from)]))
    decreases |s| - from
  {
    if from < |s| && !IsBreak(s[from]) { LineEndIsFirstBreak(s, from + 1); }
  }

  /** The first line ends at the first break, or with the text. */
  function LineLength(s: string): (n: nat)
    ensures n <= |s|
  {
    LineEnd(s, 0)
  }

  lemma LineLengthIsFirstBreak(s: string)
    ensures UnbrokenTo(s, LineLength(s)) && (LineLength(s) < |s| ==> IsBreak(s[LineLength(s)]))
  {
    LineEndIsFirstBreak(s, 0);
  }

  /** A carriage return and the newline after it are one break. */
  function BreakWidth(s: string, n: nat): (w: nat)
    requires n < |s|
    ensures 1 <= w && n + w <= |s|
  {
    if s[n] == '\r' && n + 1 < |s| && s[n + 1] == '\n' then 2 else 1
  }

  function SplitLines(s: string): seq<string> {
    if s == "" then []
    else
      var n := LineLength(s);
      if n == |s| then [s] else [s[..n]] + SplitLines(s[n + BreakWidth(s, n)..])
  }

  lemma LineLengthIs(s: string, n: nat)
    requires n <= |s| && UnbrokenTo(s, n) && (n < |s| ==> IsBreak(s[n]))
    ensures LineLength(s) == n
  {
    LineLengthIsFirstBreak(s);
    var m := LineLength(s);
    assert m < |s| ==> IsBreak(s[m]);
  }

  /** A first line that ends inside `a` ends there in `a + b` too. */
  lemma FirstLineIsLocal(a: string, b: string)
    requires LineLength(a) < |a|
    requires a[|a| - 1] == '\r' && b != "" ==> b[0] != '\n'
    ensures var n := LineLength(a); LineLength(a + b) == n && BreakWidth(a + b, n) == BreakWidth(a, n)
  {
    var n := LineLength(a);
    var w := BreakWidth(a, n);
    var ab := a + b;
    LineLengthIsFirstBreak(a);
    assert forall i :: 0 <= i < |a| ==> ab[i] == a[i];
    LineLengthIs(ab, n);
    assert BreakWidth(ab, n) == w by {
      if n + 1 == |a| && b != "" { assert ab[n + 1] == b[0]; }
    }
  }

  /** A line alone, and a line with any of the breaks after it, a carriage return with its newline being
      one of them, is that line. */
  lemma BrokenLineIsOneLine(line: string, c: char)
    requires OneLine(line)
    ensures SplitLines(line) == if line == "" then [] else [line]
    ensures IsBreak(c) ==> SplitLines(line + [c]) == [line]
    ensures SplitLines(line + "\r\n") == [line]
  {
    LineLengthIs(line, |line|);
    assert SplitLines("") == [];
    if IsBreak(c) { EndsWithBreak(line, [c]); }
    EndsWithBreak(line, "\r\n");
  }

  lemma EndsWithBreak(line: string, end: string)
    requires OneLine(line) && end != "" && IsBreak(end[0]) && BreakWidth(end, 0) == |end|
    ensures SplitLines(line + end) == [line]
  {
    var s := line + end;
    LineLengthIs(s, |line|);
    assert s[..|line|] == line && s[|line| + |end|..] == "";
    assert BreakWidth(s, |line|) == |end|;
  }

  /** Text may be split on its own when it ends a line and no `\r\n` straddles the join. */
  ghost predicate CleanJoin(a: string, b: string) {
    a == "" || (IsBreak(a[|a| - 1]) && (a[|a| - 1] == '\r' && b != "" ==> b[0] != '\n'))
  }

  lemma SplitInto(s: string, first: string, rest: string, n: nat, k: nat)
    requires LineLength(s) == n < |s| && k == n + BreakWidth(s, n)
    requires first == s[..n] && rest == s[k..]
    ensures SplitLines(s) == [first] + SplitLines(rest)
  {
  }

  lemma SplitFirst(a: string)
    requires LineLength(a) < |a|
    ensures var n := LineLength(a); SplitLines(a) == [a[..n]] + SplitLines(a[n + BreakWidth(a, n)..])
  {
  }

  lemma Regroup(first: seq<string>, middle: seq<string>, last: seq<string>)
    ensures first + (middle + last) == first + middle + last
  {
  }

  /** A first line that ends inside `a`, and what follows it, whatever is joined to `a`. */
  lemma SplitOff(a: string, b: string) returns (first: string, rest: string)
    requires LineLength(a) < |a| && (a[|a| - 1] == '\r' && b != "" ==> b[0] != '\n')
    ensures |rest| < |a| && SplitLines(a) == [first] + SplitLines(rest)
         && SplitLines(a + b) == [first] + SplitLines(rest + b)
    ensures rest != "" ==> rest[|rest| - 1] == a[|a| - 1]
    ensures !IsBreak(a[|a| - 1]) ==> rest != ""
  {
    var n := LineLength(a);
    var k := n + BreakWidth(a, n);
    first, rest := a[..n], a[k..];
    LineLengthIsFirstBreak(a);
    FirstLineIsLocal(a, b);
    SplitInto(a, first, rest, n, k);
    PrefixOfJoin(a, b, n);
    PrefixOfJoin(a, b, k);
    SplitInto(a + b, first, rest + b, n, k);
  }

  lemma PrefixOfJoin(a: string, b: string, k: nat)
    requires k <= |a|
    ensures (a + b)[..k] == a[..k] && (a + b)[k..] == a[k..] + b
  {
  }

  lemma {:induction false} SplitLinesConcat(a: string, b: string)
    requires CleanJoin(a, b)
    ensures SplitLines(a + b) == SplitLines(a) + SplitLines(b)
    decreases |a|
  {
    if a == "" {
      assert a + b == b;
    } else {
      LineLengthIsFirstBreak(a);
      assert IsBreak(a[|a| - 1]);
      var first, rest := SplitOff(a, b);
      SplitLinesConcat(rest, b);
      Regroup([first], SplitLines(rest), SplitLines(b));
    }
  }

  /** `all` is `before` and `after` with the last line of one and the first of the other made one. */
  ghost predicate IsGlued(before: seq<string>, after: seq<string>, all: seq<string>) {
    && before != [] && after != []
    && all == before[..|before| - 1] + ([before[|before| - 1] + after[0]] + after[1..])
  }

  /** Joined inside a line, the last line before and the first line after become one; no other changes. */
  lemma {:induction false} GluedLines(a: string, b: string)
    requires a != "" && b != "" && !IsBreak(a[|a| - 1])
    ensures IsGlued(SplitLines(a), SplitLines(b), SplitLines(a + b))
    decreases |a|
  {
    if LineLength(a) == |a| {
      GluedToLine(a, b);
      assert SplitLines(a)[..0] == [];
    } else {
      var first, rest := SplitOff(a, b);
      GluedLines(rest, b);
      GluedBehind(first, SplitLines(rest), SplitLines(b), SplitLines(rest + b));
    }
  }

  lemma GluedBehind(first: string, before: seq<string>, after: seq<string>, all: seq<string>)
    requires IsGlued(before, after, all)
    ensures IsGlued([first] + before, after, [first] + all)
  {
  }

  lemma GluedToLine(a: string, b: string)
    requires a != "" && b != "" && LineLength(a) == |a|
    ensures SplitLines(a) == [a] && SplitLines(b) != []
    ensures SplitLines(a + b) == [a + SplitLines(b)[0]] + SplitLines(b)[1..]
  {
    var m := LineLength(b);
    GluedLength(a, b);
    SplitOnly(a);
    if m < |b| {
      SplitFirst(b);
      GluedSplit(a, b);
    } else {
      SplitOnly(b);
      SplitOnly(a + b);
    }
  }

  lemma SplitOnly(s: string)
    requires s != "" && LineLength(s) == |s|
    ensures SplitLines(s) == [s]
  {
  }

  lemma GluedLength(a: string, b: string)
    requires LineLength(a) == |a|
    ensures LineLength(a + b) == |a| + LineLength(b)
  {
    LineLengthIsFirstBreak(a);
    LineLengthIsFirstBreak(b);
    var m := LineLength(b);
    UnbrokenJoin(a, b, m);
    assert m < |b| ==> (a + b)[|a| + m] == b[m];
    LineLengthIs(a + b, |a| + m);
  }

  lemma GluedSplit(a: string, b: string)
    requires LineLength(a + b) == |a| + LineLength(b) < |a + b|
    ensures var m := LineLength(b);
      SplitLines(a + b) == [a + b[..m]] + SplitLines(b[m + BreakWidth(b, m)..])
  {
    var m := LineLength(b);
    BreakWidthOfJoin(a, b, m);
    SlicesOfJoin(a, b, m);
    SlicesOfJoin(a, b, m + BreakWidth(b, m));
    SplitInto(a + b, a + b[..m], b[m + BreakWidth(b, m)..], |a| + m, |a| + (m + BreakWidth(b, m)));
  }

  lemma BreakWidthOfJoin(a: string, b: string, m: nat)
    requires m < |b|
    ensures BreakWidth(a + b, |a| + m) == BreakWidth(b, m)
  {
    assert (a + b)[|a| + m] == b[m] && (m + 1 < |b| ==> (a + b)[|a| + m + 1] == b[m + 1]);
  }

  lemma SlicesOfJoin(a: string, b: string, k: nat)
    requires k <= |b|
    ensures (a + b)[..|a| + k] == a + b[..k] && (a + b)[|a| + k..] == b[k..]
  {
  }

  lemma UnbrokenJoin(a: string, b: string, m: nat)
    requires m <= |b| && UnbrokenTo(a, |a|) && UnbrokenTo(b, m)
    ensures UnbrokenTo(a + b, |a| + m)
  {
    forall i | 0 <= i < |a| + m ensures !IsBreak((a + b)[i]) {
      if i < |a| { assert (a + b)[i] == a[i]; } else { assert (a + b)[i] == b[i - |a|]; }
    }
  }

  /** A line and its newline read back as that one line exactly when the line holds no break. */
  lemma RenderedLineIsOneLine(line: string)
    ensures SplitLines(line + "\n") == [line] <==> OneLine(line)
  {
    var s := line + "\n";
    var n := LineLength(s);
    if OneLine(line) {
      LineLengthIs(s, |line|);
      assert s[..|line|] == line;
      assert s[|line| + 1..] == "";
    } else {
      LineLengthIsFirstBreak(s);
      var k :| 0 <= k < |line| && IsBreak(line[k]);
      assert IsBreak(s[k]);
      assert |SplitLines(s)[0]| < |line|;
    }
  }

  /** A rendered line appended to text is read as one more line exactly when the text is empty or
      already ends a line; otherwise it is glued to the last line. */
  lemma AppendedLineStandsAlone(text: string, line: string)
    requires line != "" && OneLine(line)
    ensures SplitLines(text + (line + "\n")) == SplitLines(text) + [line]
       <==> text == "" || IsBreak(text[|text| - 1])
  {
    RenderedLineIsOneLine(line);
    assert line[0] == (line + "\n")[0];
    if text == "" || IsBreak(text[|text| - 1]) {
      SplitLinesConcat(text, line + "\n");
    } else {
      GluedLines(text, line + "\n");
    }
  }

  // ---- Numbering lines by counting newlines ----

  /** Every break is a newline, alone or closing a `\r\n`. */
  ghost predicate OnlyNewlineBreaks(s: string) {
    forall i :: 0 <= i < |s| ==> NewlineBreakAt(s, i)
  }

  ghost predicate NewlineBreakAt(s: string, i: nat)
    requires i < |s|
  {
    IsBreak(s[i]) ==> s[i] == '\n' || (s[i] == '\r' && i + 1 < |s| && s[i + 1] == '\n')
  }

  lemma {:induction false} NewlinesPastLine(s: string, n: nat)
    requires n <= |s| && UnbrokenTo(s, n)
    ensures CountNewlines(s) == CountNewlines(s[n..])
  {
    if n > 0 {
      assert !IsBreak(s[0]);
      NewlinesPastLine(s[1..], n - 1);
      assert s[1..][n - 1..] == s[n..];
    }
  }

  /** Newlines never outnumber lines, and they are equally many exactly when every break is a newline. */
  lemma {:induction false} NewlinesNumberLines(s: string)
    requires s == "" || s[|s| - 1] == '\n'
    ensures CountNewlines(s) <= |SplitLines(s)|
    ensures CountNewlines(s) == |SplitLines(s)| <==> OnlyNewlineBreaks(s)
  {
    if s != "" {
      var n := LineLength(s);
      LineLengthIsFirstBreak(s);
      assert s[|s| - 1] == '\n';
      var w := BreakWidth(s, n);
      CountPastBreak(s, n);
      SplitFirst(s);
      NewlinesNumberLines(s[n + w..]);
      RestBreaks(s, n, w);
    }
  }

  lemma CountPastBreak(s: string, n: nat)
    requires n < |s| && UnbrokenTo(s, n) && IsBreak(s[n])
    ensures var w := BreakWidth(s, n);
      CountNewlines(s) == (if s[n] == '\n' || w == 2 then 1 else 0) + CountNewlines(s[n + w..])
  {
    NewlinesPastLine(s, n);
    assert s[n..][1..] == s[n + 1..];
    if BreakWidth(s, n) == 2 { assert s[n + 1..][0] == '\n' && s[n + 1..][1..] == s[n + 2..]; }
  }

  lemma RestBreaks(s: string, n: nat, w: nat)
    requires n < |s| && UnbrokenTo(s, n) && IsBreak(s[n]) && w == BreakWidth(s, n)
    ensures OnlyNewlineBreaks(s) <==> (s[n] == '\n' || w == 2) && OnlyNewlineBreaks(s[n + w..])
  {
    var rest := s[n + w..];
    assert forall i :: 0 <= i < |rest| ==> rest[i] == s[n + w + i];
    if OnlyNewlineBreaks(s) {
      forall i | 0 <= i < |rest| ensures NewlineBreakAt(rest, i) {
        assert NewlineBreakAt(s, n + w + i);
      }
      assert NewlineBreakAt(s, n);
    }
    if (s[n] == '\n' || w == 2) && OnlyNewlineBreaks(rest) {
      forall i | 0 <= i < |s| ensures NewlineBreakAt(s, i) {
        if i >= n + w {
          assert NewlineBreakAt(rest, i - n - w);
        }
      }
    }
  }
}

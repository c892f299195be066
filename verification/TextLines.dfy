/** Lines: Python's `str.splitlines` and `str.strip`. */
module TextLines {
  import opened Text

  /** The characters `str.splitlines` breaks at; `\r\n` is one break. */
  predicate IsBreak(c: char) {
    var n := c as int;
    0x0A <= n <= 0x0D || 0x1C <= n <= 0x1E || n == 0x85 || n == 0x2028 || n == 0x2029
  }

  /** The line boundaries that the documentation of `str.splitlines` lists. */
  const BREAKS: set<int> := {0x0A, 0x0B, 0x0C, 0x0D, 0x1C, 0x1D, 0x1E, 0x85, 0x2028, 0x2029}

  predicate OneLine(s: string) { forall k | 0 <= k < |s| :: s[k] as int !in BREAKS }

  lemma BreaksListed(c: char)
    ensures IsBreak(c) <==> c as int in BREAKS
  {
  }

  function FirstBreak(s: string): (n: nat)
    ensures n <= |s| && (forall k | 0 <= k < n :: !IsBreak(s[k])) && (n < |s| ==> IsBreak(s[n]))
  {
    if s == "" || IsBreak(s[0]) then 0 else 1 + FirstBreak(s[1..])
  }

  /** How long the break at the start of `s` is. */
  function BreakLen(s: string): (n: nat)
    requires s != ""
    ensures 1 <= n <= |s|
  {
    if s[0] == '\r' && |s| > 1 && s[1] == '\n' then 2 else 1
  }

  function SplitLines(s: string): seq<string>
    decreases |s|
  {
    if s == "" then []
    else
      var n := FirstBreak(s);
      if n == |s| then [s] else [s[..n]] + SplitLines(s[n..][BreakLen(s[n..])..])
  }

  predicate NoBreaks(s: string) { forall c | c in s :: !IsBreak(c) }

  /** Only `\n` breaks lines in `s`. */
  predicate PlainBreaks(s: string) { forall c | c in s :: IsBreak(c) ==> c == '\n' }

  lemma {:induction false} LinesHaveNoBreaks(s: string)
    ensures forall l | l in SplitLines(s) :: NoBreaks(l)
    decreases |s|
  {
    if s != "" {
      var n := FirstBreak(s);
      if n < |s| {
        LinesHaveNoBreaks(s[n..][BreakLen(s[n..])..]);
      }
    }
  }

  lemma SplitLinesCons(c: char, s: string)
    requires !IsBreak(c) && s != ""
    ensures SplitLines(s) != [] && SplitLines([c] + s) == [[c] + SplitLines(s)[0]] + SplitLines(s)[1..]
  {
    var t := [c] + s;
    var n := FirstBreak(s);
    assert t[1..] == s;
    assert FirstBreak(t) == n + 1;
    if n < |s| {
      assert t[n + 1..] == s[n..] && t[..n + 1] == [c] + s[..n];
    }
  }

  /** A text whose only breaks are `\n` splits, with a closing newline, like `split("\n")`. */
  lemma {:induction false} SplitLinesPlain(t: string)
    requires PlainBreaks(t)
    ensures SplitLines(t + "\n") == Split(t, '\n')
  {
    hide SplitLines, FirstBreak;
    if t == "" {
      SplitLinesNewline();
      assert t + "\n" == "\n";
    } else {
      assert t[0] in t && forall c | c in t[1..] :: c in t;
      SplitLinesPlain(t[1..]);
      assert t + "\n" == [t[0]] + (t[1..] + "\n");
      if t[0] == '\n' {
        SplitLinesBreak(t[1..] + "\n");
      } else {
        SplitLinesCons(t[0], t[1..] + "\n");
      }
    }
  }

  lemma SplitLinesNewline()
    ensures SplitLines("\n") == [""]
  {
    SplitLinesBreak("");
    assert ['\n'] + "" == "\n";
  }

  lemma {:induction false} JoinPlain(parts: seq<string>)
    requires forall p | p in parts :: PlainBreaks(p)
    ensures PlainBreaks(Join("\n", parts))
  {
    if parts != [] {
      assert parts[0] in parts;
      if |parts| > 1 {
        JoinPlain(parts[1..]);
      }
    }
  }

  lemma SplitLinesBreak(s: string)
    ensures SplitLines(['\n'] + s) == [""] + SplitLines(s)
  {
    var t := ['\n'] + s;
    assert FirstBreak(t) == 0 && BreakLen(t) == 1;
    assert t[0..] == t && t[..0] == "" && t[1..] == s;
  }

  // ---------------------------------------------------------------------------------------------
  // Stripping
  // ---------------------------------------------------------------------------------------------

  lemma StripLeft(c: char, s: string)
    requires IsSpace(c)
    ensures Strip([c] + s) == Strip(s)
  {
    assert ([c] + s)[1..] == s;
  }

  lemma {:induction false} LStripSnoc(s: string, c: char)
    requires IsSpace(c)
    ensures LStrip(s + [c]) == if LStrip(s) == "" then "" else LStrip(s) + [c]
  {
    if s == "" {
      assert s + [c] == [c];
      assert LStrip([c]) == LStrip([c][1..]) == "";
    } else if IsSpace(s[0]) {
      assert (s + [c])[1..] == s[1..] + [c];
      LStripSnoc(s[1..], c);
    }
  }

  lemma StripRight(s: string, c: char)
    requires IsSpace(c)
    ensures Strip(s + [c]) == Strip(s)
  {
    LStripSnoc(s, c);
    if LStrip(s) != "" {
      var t := LStrip(s) + [c];
      assert t[..|t| - 1] == LStrip(s);
    }
  }

  lemma {:induction false} StripAround(before: string, s: string, after: string)
    requires AllSpace(before) && AllSpace(after)
    ensures Strip(before + s + after) == Strip(s)
    decreases |before| + |after|
  {
    hide Strip, IsSpace;
    var t := before + s + after;
    if after != "" {
      var n := |after| - 1;
      StripAround(before, s, after[..n]);
      StripRight(before + s + after[..n], after[n]);
      assert t == before + s + after[..n] + [after[n]];
    } else if before != "" {
      StripAround(before[1..], s, after);
      StripLeft(before[0], before[1..] + s + after);
      assert t == [before[0]] + (before[1..] + s + after);
    } else {
      assert t == s;
    }
  }

  /** A stripped text: no space at either end. */
  predicate Trimmed(s: string) { s == "" || (!IsSpace(s[0]) && !IsSpace(s[|s| - 1])) }

  lemma TrimmedStrip(s: string)
    requires Trimmed(s)
    ensures Strip(s) == s
  {
  }

  lemma {:induction false} StripParts(s: string)
    ensures Trimmed(Strip(s)) && forall c | c in Strip(s) :: c in s
    decreases |s|
  {
    if Trimmed(s) {
      TrimmedStrip(s);
    } else if IsSpace(s[0]) {
      StripParts(s[1..]);
      StripLeft(s[0], s[1..]);
      assert s == [s[0]] + s[1..];
    } else {
      var n := |s| - 1;
      StripParts(s[..n]);
      StripRight(s[..n], s[n]);
      assert s == s[..n] + [s[n]];
    }
  }

  lemma StripIdempotent(s: string)
    ensures Strip(Strip(s)) == Strip(s)
  {
    StripParts(s);
    TrimmedStrip(Strip(s));
  }

  /** How `str.splitlines` reads a text: a break ends a line, a carriage return takes a newline after it along, and what
      is left at the end is a line when it is not empty. */
  lemma SplitLinesMeaning(line: string, c: char, rest: string)
    requires OneLine(line)
    ensures SplitLines("") == [] && (line != "" ==> SplitLines(line) == [line])
    ensures c as int in BREAKS && !(c == '\r' && rest != "" && rest[0] == '\n') ==>
              SplitLines(line + [c] + rest) == [line] + SplitLines(rest)
    ensures SplitLines(line + "\r\n" + rest) == [line] + SplitLines(rest)
  {
    BreaksListed(c);
    forall k | 0 <= k < |line|
      ensures !IsBreak(line[k])
    {
      BreaksListed(line[k]);
    }
    hide BREAKS;
    assert "\r\n" == ['\r', '\n'] && IsBreak('\r');
    BreakAfter(line, [c] + rest);
    BreakAfter(line, "\r\n" + rest);
    assert line + ([c] + rest) == line + [c] + rest && ([c] + rest)[1..] == rest;
    assert line + ("\r\n" + rest) == line + "\r\n" + rest && ("\r\n" + rest)[2..] == rest;
  }

  lemma BreakAfter(line: string, s: string)
    requires NoBreaks(line) && s != ""
    ensures IsBreak(s[0]) ==> SplitLines(line + s) == [line] + SplitLines(s[BreakLen(s)..])
  {
    assert forall k | 0 <= k < |line| :: line[k] in line;
    var t := line + s;
    var n := FirstBreak(t);
    if IsBreak(s[0]) {
      assert t[|line|] == s[0];
      assert n == |line| && t[..n] == line && t[n..] == s;
    }
  }
}

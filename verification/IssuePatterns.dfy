/** What the two patterns that read an issue number accept, without the scanner that runs them. */
module IssuePatterns {
  import opened Text
  import opened PathTokens
  import opened Census

  predicate IsNumber(d: set<char>, n: string) { n != "" && forall k | 0 <= k < |n| :: n[k] in d }

  // ---------------------------------------------------------------------------------------------
  // The name
  // ---------------------------------------------------------------------------------------------

  /** `YYYY-MM-DD-` at the start. */
  ghost predicate Dated(d: set<char>, base: string) {
    exists year: string, month: string, day: string ::
      && IsNumber(d, year) && IsNumber(d, month) && IsNumber(d, day) && |year| == 4 && |month| == 2 && |day| == 2
      && StartsWith(base, year + "-" + month + "-" + day + "-")
  }

  lemma DatedFrom(d: set<char>, base: string, year: string, month: string, day: string)
    requires IsNumber(d, year) && IsNumber(d, month) && IsNumber(d, day) && |year| == 4 && |month| == 2 && |day| == 2
    requires StartsWith(base, year + "-" + month + "-" + day + "-")
    ensures DatePrefix(d, base)
  {
    var date := year + "-" + month + "-" + day + "-";
    assert base[..11] == date;
    assert forall k | 0 <= k < 11 :: base[k] == date[k];
  }

  lemma DateMeaning(d: set<char>, base: string)
    ensures DatePrefix(d, base) <==> Dated(d, base)
  {
    if DatePrefix(d, base) {
      var year, month, day := base[..4], base[5..7], base[8..10];
      assert base[..11] == year + "-" + month + "-" + day + "-";
    }
    hide DatePrefix;
    if Dated(d, base) {
      var year: string, month: string, day: string :|
        && IsNumber(d, year) && IsNumber(d, month) && IsNumber(d, day) && |year| == 4 && |month| == 2 && |day| == 2
        && StartsWith(base, year + "-" + month + "-" + day + "-");
      DatedFrom(d, base, year, month, day);
    }
  }

  lemma {:induction false} DigitLenIs(d: set<char>, s: string)
    ensures var n := DigitLen(d, s); n <= |s| && (forall k | 0 <= k < n :: s[k] in d) && (n < |s| ==> s[n] !in d)
  {
    if s != "" && s[0] in d {
      DigitLenIs(d, s[1..]);
      var n := DigitLen(d, s[1..]);
      assert forall k | 0 < k < n + 1 :: s[k] == s[1..][k - 1];
    }
  }

  /** A name gives an issue exactly when it is a number, a hyphen and anything else, and does not begin with a date. */
  lemma BaseIssueExactly(d: set<char>, base: string, number: string)
    requires DigitClass(d)
    ensures BaseIssue(d, base) == Some(number)
            <==> IsNumber(d, number) && StartsWith(base, number + "-") && !Dated(d, base)
  {
    assert '-' !in d by {
      assert IsPath('-') && !IsDigit('-');
    }
    hide DatePrefix, Dated, DigitClass, DigitLen, IsNumber, StartsWith;
    DateMeaning(d, base);
    DigitLenIs(d, base);
    var n := DigitLen(d, base);
    if StartsWith(base, number + "-") && IsNumber(d, number) {
      NumberAhead(d, base, number, n);
    }
    if 0 < n < |base| && base[n] == '-' {
      AheadNumber(d, base, n);
    }
  }

  lemma NumberAhead(d: set<char>, base: string, number: string, n: nat)
    requires '-' !in d && IsNumber(d, number) && StartsWith(base, number + "-")
    requires n <= |base| && (forall k | 0 <= k < n :: base[k] in d) && (n < |base| ==> base[n] !in d)
    ensures 0 < n < |base| && base[n] == '-' && base[..n] == number
  {
    assert base[..|number| + 1] == number + "-";
    assert base[|number|] == '-' && forall k | 0 <= k < |number| :: base[k] == number[k];
    assert n == |number|;
  }

  lemma AheadNumber(d: set<char>, base: string, n: nat)
    requires 0 < n < |base| && (forall k | 0 <= k < n :: base[k] in d) && base[n] == '-'
    ensures IsNumber(d, base[..n]) && StartsWith(base, base[..n] + "-")
  {
    assert base[..n + 1] == base[..n] + "-";
  }

  // ---------------------------------------------------------------------------------------------
  // The line in the text
  // ---------------------------------------------------------------------------------------------

  /** Only white space up to the end of the line. */
  ghost predicate RestBlank(t: string) { exists k | 0 <= k <= |t| :: AllSpace(t[..k]) && (k == |t| || t[k] == '\n') }

  lemma {:induction false} BlankMeaning(t: string)
    ensures BlankLine(t) <==> RestBlank(t)
  {
    hide IsSpace;
    if t == "" || t[0] == '\n' {
      assert AllSpace(t[..0]);
    } else {
      BlankMeaning(t[1..]);
      BlankBack(t);
    }
  }

  lemma BlankBack(t: string)
    requires t != "" && t[0] != '\n'
    ensures RestBlank(t) <==> IsSpace(t[0]) && RestBlank(t[1..])
  {
    hide IsSpace;
    if RestBlank(t) {
      var k :| 0 <= k <= |t| && AllSpace(t[..k]) && (k == |t| || t[k] == '\n');
      assert t[..k][0] == t[0] && t[1..][..k - 1] == t[..k][1..];
      assert AllSpace(t[1..][..k - 1]);
    }
    if IsSpace(t[0]) && RestBlank(t[1..]) {
      var k :| 0 <= k <= |t[1..]| && AllSpace(t[1..][..k]) && (k == |t[1..]| || t[1..][k] == '\n');
      assert t[..k + 1] == [t[0]] + t[1..][..k];
      assert AllSpace(t[..k + 1]);
    }
  }

  predicate MaybeQuote(q: string) { q == "" || q == "\"" }

  /** `issue:`, white space, a number perhaps in quotes, and nothing more on the line. */
  ghost predicate IssueLine(d: set<char>, s: string, number: string) {
    exists gap: string, q: string, r: string, rest: string ::
      AllSpace(gap) && MaybeQuote(q) && MaybeQuote(r) && RestBlank(rest) && IsNumber(d, number)
      && s == "issue:" + gap + q + number + r + rest
  }

  lemma Unquoted(s: string) returns (q: string)
    ensures MaybeQuote(q) && s == q + Unquote(s)
  {
    q := if s != "" && s[0] == '"' then "\"" else "";
  }

  lemma {:induction false} NumberRead(d: set<char>, number: string, s: string, seen: string)
    requires (forall k | 0 <= k < |number| :: number[k] in d) && (s != "" ==> s[0] !in d)
    requires seen + number != "" && BlankLine(Unquote(s))
    ensures ReadNumber(d, number + s, seen) == Some(seen + number)
  {
    hide BlankLine, Unquote;
    if number == "" {
      assert number + s == s && seen + number == seen;
    } else {
      assert (number + s)[1..] == number[1..] + s;
      assert seen + [number[0]] + number[1..] == seen + number;
      NumberRead(d, number[1..], s, seen + [number[0]]);
    }
  }

  lemma {:induction false} ReadFrom(d: set<char>, s: string, seen: string) returns (number: string, rest: string)
    requires ReadNumber(d, s, seen).Some?
    ensures s == number + rest && ReadNumber(d, s, seen) == Some(seen + number) && seen + number != ""
    ensures (forall k | 0 <= k < |number| :: number[k] in d) && BlankLine(Unquote(rest))
    decreases |s|
  {
    hide BlankLine, Unquote;
    if s != "" && s[0] in d {
      number, rest := ReadFrom(d, s[1..], seen + [s[0]]);
      assert seen + [s[0]] + number == seen + ([s[0]] + number);
      number := [s[0]] + number;
    } else {
      number, rest := "", s;
      assert seen + number == seen && number + rest == s;
    }
  }

  lemma NothingSpaced(d: set<char>, rest: string)
    requires DigitClass(d) && BlankLine(rest)
    ensures rest != "" ==> rest[0] !in d && rest[0] != '"'
  {
  }

  lemma LineReads(d: set<char>, gap: string, q: string, number: string, r: string, rest: string)
    requires DigitClass(d) && AllSpace(gap) && MaybeQuote(q) && MaybeQuote(r) && BlankLine(rest) && IsNumber(d, number)
    ensures ReadNumber(d, Unquote(LStrip(gap + (q + (number + (r + rest))))), "") == Some(number)
  {
    assert !IsSpace(number[0]) && number[0] != '"' && '"' !in d && !IsSpace('"') by {
      assert number[0] in d;
    }
    NothingSpaced(d, rest);
    hide DigitClass, IsSpace, BlankLine;
    var tail := number + (r + rest);
    LStripGap(gap, q + tail);
    assert Unquote(q + tail) == tail by {
      assert q == "" ==> q + tail == tail;
      assert q != "" ==> (q + tail)[1..] == tail;
    }
    assert Unquote(r + rest) == rest by {
      assert r == "" ==> r + rest == rest;
      assert r != "" ==> (r + rest)[1..] == rest;
    }
    NumberRead(d, number, r + rest, "");
    assert "" + number == number;
  }

  /** A position holds an issue exactly when such a line begins there. */
  lemma IssueAtExactly(d: set<char>, s: string, number: string)
    requires DigitClass(d)
    ensures IssueAt(d, s) == Some(number) <==> IssueLine(d, s, number)
  {
    if IssueAt(d, s) == Some(number) {
      AtLine(d, s, number);
    }
    if IssueLine(d, s, number) {
      LineAt(d, s, number);
    }
  }

  lemma AtLine(d: set<char>, s: string, number: string)
    requires IssueAt(d, s) == Some(number)
    ensures IssueLine(d, s, number)
  {
    hide IsSpace, BlankLine, ReadNumber, LStrip, Unquote, RestBlank;
    var after := s[|ISSUE|..];
    var gap := LStripRest(after);
    var q := Unquoted(LStrip(after));
    var n, tail := ReadFrom(d, Unquote(LStrip(after)), "");
    assert "" + n == n;
    var r := Unquoted(tail);
    var rest := Unquote(tail);
    BlankMeaning(rest);
    assert s == s[..|ISSUE|] + after;
    Flat(gap, q, n, r, rest);
  }

  lemma Flat(gap: string, q: string, n: string, r: string, rest: string)
    ensures ISSUE + (gap + (q + (n + (r + rest)))) == "issue:" + gap + q + n + r + rest
  {
  }

  lemma LineAt(d: set<char>, s: string, number: string)
    requires DigitClass(d) && IssueLine(d, s, number)
    ensures IssueAt(d, s) == Some(number)
  {
    hide IsSpace, BlankLine, ReadNumber, LStrip, Unquote, RestBlank, DigitClass;
    var gap: string, q: string, r: string, rest: string :|
      AllSpace(gap) && MaybeQuote(q) && MaybeQuote(r) && RestBlank(rest) && IsNumber(d, number)
      && s == "issue:" + gap + q + number + r + rest;
    BlankMeaning(rest);
    LineReads(d, gap, q, number, r, rest);
    Flat(gap, q, number, r, rest);
    var after := gap + (q + (number + (r + rest)));
    assert s == ISSUE + after;
    assert s[..|ISSUE|] == ISSUE && s[|ISSUE|..] == after;
  }

  predicate LineStart(s: string, k: nat)
    requires k <= |s|
  {
    k == 0 || s[k - 1] == '\n'
  }

  lemma {:induction false} FirstLine(d: set<char>, text: string, i: nat) returns (k: Option<nat>)
    requires i <= |text|
    ensures k.None? ==>
              && FrontIssue(d, text[i..], LineStart(text, i)) == None
              && forall j | i <= j < |text| && LineStart(text, j) :: IssueAt(d, text[j..]) == None
    ensures k.Some? ==>
              && i <= k.value < |text| && LineStart(text, k.value) && IssueAt(d, text[k.value..]).Some?
              && FrontIssue(d, text[i..], LineStart(text, i)) == IssueAt(d, text[k.value..])
              && forall j | i <= j < k.value && LineStart(text, j) :: IssueAt(d, text[j..]) == None
    decreases |text| - i
  {
    hide IssueAt;
    if i == |text| {
      k := None;
    } else if LineStart(text, i) && IssueAt(d, text[i..]).Some? {
      k := Some(i);
    } else {
      assert text[i..][1..] == text[i + 1..] && text[i..][0] == text[i];
      k := FirstLine(d, text, i + 1);
    }
  }

  /** The line of position `k` is such a line, with this number, and no earlier one is. */
  ghost predicate FirstIssueLine(d: set<char>, text: string, k: nat, number: string) {
    && k < |text| && LineStart(text, k) && IssueLine(d, text[k..], number)
    && forall j: nat, n: string | j < k && LineStart(text, j) :: !IssueLine(d, text[j..], n)
  }

  /** The issue in the text is the number on the first such line. */
  lemma FrontIssueExactly(d: set<char>, text: string, number: string)
    requires DigitClass(d)
    ensures FrontIssue(d, text, true) == Some(number) <==> exists k: nat :: FirstIssueLine(d, text, k, number)
  {
    hide IssueAt, IssueLine, DigitClass, FrontIssue;
    assert text[0..] == text;
    var first := FirstLine(d, text, 0);
    if first.Some? && IssueAt(d, text[first.value..]) == Some(number) {
      IssueAtExactly(d, text[first.value..], number);
      forall j: nat, n: string | j < first.value && LineStart(text, j)
        ensures !IssueLine(d, text[j..], n)
      {
        IssueAtExactly(d, text[j..], n);
      }
      assert FirstIssueLine(d, text, first.value, number);
    }
    if exists k: nat :: FirstIssueLine(d, text, k, number) {
      var k: nat :| FirstIssueLine(d, text, k, number);
      IssueAtExactly(d, text[k..], number);
      assert first.Some? && first.value <= k;
      IssueAtExactly(d, text[first.value..], IssueAt(d, text[first.value..]).value);
    }
  }

  ghost predicate TextIssue(d: set<char>, text: string, n: string) { exists k: nat :: FirstIssueLine(d, text, k, n) }

  ghost predicate NameIssue(d: set<char>, base: string, n: string) {
    IsNumber(d, n) && StartsWith(base, n + "-") && !Dated(d, base)
  }

  /** An artifact's issue: the one in its text, and only without one there, the one in its name. */
  lemma IssueExactly(d: set<char>, number: string -> int, base: string, text: string, v: int)
    requires DigitClass(d)
    ensures IssueOf(d, number, base, text) == Some(v)
            <==> exists n ::
                   && number(n) == v
                   && (TextIssue(d, text, n) || ((forall other :: !TextIssue(d, text, other)) && NameIssue(d, base, n)))
  {
    hide FrontIssue, BaseIssue, TextIssue, NameIssue, DigitClass;
    forall n
      ensures FrontIssue(d, text, true) == Some(n) <==> TextIssue(d, text, n)
      ensures BaseIssue(d, base) == Some(n) <==> NameIssue(d, base, n)
    {
      TextIs(d, text, n);
      NameIs(d, base, n);
    }
    var front, name := FrontIssue(d, text, true), BaseIssue(d, base);
    assert front.Some? ==> TextIssue(d, text, front.value);
    assert name.Some? ==> NameIssue(d, base, name.value);
  }

  lemma TextIs(d: set<char>, text: string, n: string)
    requires DigitClass(d)
    ensures FrontIssue(d, text, true) == Some(n) <==> TextIssue(d, text, n)
  {
    hide FirstIssueLine, DigitClass, FrontIssue;
    FrontIssueExactly(d, text, n);
  }

  lemma NameIs(d: set<char>, base: string, n: string)
    requires DigitClass(d)
    ensures BaseIssue(d, base) == Some(n) <==> NameIssue(d, base, n)
  {
    hide Dated, DigitClass, BaseIssue;
    BaseIssueExactly(d, base, n);
  }
}

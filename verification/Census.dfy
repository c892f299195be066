/** Which issue an artifact belongs to, read from its text or its name, and why a rewrite does not change it. */
module Census {
  import opened Text
  import opened PathTokens
  import opened TokenEdit

  /** What `\d` matches: the digits 0 to 9 and any characters outside ASCII. */
  predicate DigitClass(d: set<char>) {
    && (forall c | IsDigit(c) :: c in d)
    && forall c | c in d :: !IsSpace(c) && c != '"' && (IsPath(c) ==> IsDigit(c))
  }

  // ---------------------------------------------------------------------------------------------
  // The two patterns
  // ---------------------------------------------------------------------------------------------

  /** `\s*$` at the start of `s`, where `$` also matches before a newline. */
  predicate BlankLine(s: string) { s == "" || s[0] == '\n' || (IsSpace(s[0]) && BlankLine(s[1..])) }

  function Unquote(s: string): string { if s != "" && s[0] == '"' then s[1..] else s }

  /** `(\d+)"?\s*$` at the start of `s`, with the digits in `seen` already read. */
  function ReadNumber(d: set<char>, s: string, seen: string): Option<string> {
    if s != "" && s[0] in d then ReadNumber(d, s[1..], seen + [s[0]])
    else if seen != "" && BlankLine(Unquote(s)) then Some(seen)
    else None
  }

  const ISSUE := "issue:"

  /** `issue:\s*"?(\d+)"?\s*$` at the start of `s`. */
  function IssueAt(d: set<char>, s: string): Option<string> {
    if StartsWith(s, ISSUE) then ReadNumber(d, Unquote(LStrip(s[|ISSUE|..])), "") else None
  }

  /** The first match at the start of a line. */
  function FrontIssue(d: set<char>, s: string, lineStart: bool): Option<string> {
    if s == "" then None
    else if lineStart && IssueAt(d, s).Some? then IssueAt(d, s)
    else FrontIssue(d, s[1..], s[0] == '\n')
  }

  function DigitLen(d: set<char>, s: string): nat { if s != "" && s[0] in d then 1 + DigitLen(d, s[1..]) else 0 }

  /** `\d{4}-\d{2}-\d{2}-`. */
  predicate DatePrefix(d: set<char>, s: string) {
    |s| >= 11 && (forall k | k in {0, 1, 2, 3, 5, 6, 8, 9} :: s[k] in d) && forall k | k in {4, 7, 10} :: s[k] == '-'
  }

  /** `^(?!\d{4}-\d{2}-\d{2}-)(\d+)-`. */
  function BaseIssue(d: set<char>, base: string): Option<string> {
    var n := DigitLen(d, base);
    if 0 < n < |base| && base[n] == '-' && !DatePrefix(d, base) then Some(base[..n]) else None
  }

  /** `_extract_issue`; `number` is Python's `int`. */
  function IssueOf(d: set<char>, number: string -> int, base: string, text: string): Option<int> {
    match FrontIssue(d, text, true)
    case Some(n) => Some(number(n))
    case None =>
      match BaseIssue(d, base)
      case Some(n) => Some(number(n))
      case None => None
  }

  // ---------------------------------------------------------------------------------------------
  // Editing from one run boundary to the next
  // ---------------------------------------------------------------------------------------------

  /** A replacement is a non-empty piece of path with a dot in it. */
  predicate Solid(m: map<string, string>) {
    forall tok | tok in m :: '.' in m[tok] && forall k | 0 <= k < |m[tok]| :: IsPath(m[tok][k])
  }

  predicate AllPath(s: string) { forall k | 0 <= k < |s| :: IsPath(s[k]) }

  predicate Boundary(s: string) { s == "" || !IsPath(s[0]) }

  lemma EditAlong(c: Cut, t: string, m: map<string, string>)
    requires WellCut(c) && t == c.gap + c.run + c.tail && t != ""
    ensures Edit(t, m) == c.gap + EditRun(c.run, m) + Edit(c.tail, m)
  {
    CutUnique(c);
    hide EditRun, WellCut, CutOf;
  }

  lemma EditChar(t: string, m: map<string, string>)
    requires t != "" && !IsPath(t[0])
    ensures Edit(t, m) == [t[0]] + Edit(t[1..], m)
  {
    hide *;
    var c := CutOf(t[1..]);
    assert t == [t[0]] + t[1..];
    Prepend([t[0]], c.gap, c.run, c.tail);
    EditGrown(t[0], c, m);
    EditCutOf(c, t[1..], m);
    Prepend([t[0]], c.gap, EditRun(c.run, m), Edit(c.tail, m));
  }

  lemma EditGrown(x: char, c: Cut, m: map<string, string>)
    requires !IsPath(x) && WellCut(c)
    ensures Edit([x] + c.gap + c.run + c.tail, m) == [x] + c.gap + EditRun(c.run, m) + Edit(c.tail, m)
  {
    var all := Cut([x] + c.gap, c.run, c.tail);
    assert WellCut(all);
    hide *;
    EditAlong(all, [x] + c.gap + c.run + c.tail, m);
  }

  lemma EditCutOf(c: Cut, t: string, m: map<string, string>)
    requires WellCut(c) && t == c.gap + c.run + c.tail
    ensures Edit(t, m) == c.gap + EditRun(c.run, m) + Edit(c.tail, m)
  {
    hide *;
    if t == "" {
      assert c.gap == "" && c.run == "" && c.tail == "";
      NoRun(m);
      EditNothing(m);
    } else {
      EditAlong(c, t, m);
    }
  }

  lemma Prepend(a: string, b: string, c: string, d: string)
    ensures (a + b) + c + d == a + (b + c + d)
  {
  }

  lemma NoRun(m: map<string, string>)
    ensures EditRun("", m) == ""
  {
    MatchAtLongest("", 0);
  }

  lemma EditFirstRun(run: string, x: string, m: map<string, string>)
    requires run != "" && AllPath(run) && Boundary(x)
    ensures Edit(run + x, m) == EditRun(run, m) + Edit(x, m)
  {
    var c := Cut("", run, x);
    EditAlong(c, run + x, m);
    hide EditRun, Edit;
    assert "" + EditRun(run, m) == EditRun(run, m);
  }

  /** A run without a dot stays; one with a dot keeps a dot. */
  lemma RunKinds(run: string, m: map<string, string>)
    requires AllPath(run) && Solid(m)
    ensures '.' !in run ==> EditRun(run, m) == run
    ensures '.' in run ==> '.' in EditRun(run, m)
    ensures AllPath(EditRun(run, m))
  {
    MatchAtLongest(run, 0);
    hide MatchAt;
    match MatchAt(run, 0)
    case None =>
    case Some(e) =>
      assert run[..e] + run[e..] == run;
      if '.' !in run {
        NoDotNoToken(run, e);
      }
  }

  lemma NoDotNoToken(run: string, e: nat)
    requires e <= |run| && Valid(run, 0, e)
    ensures '.' in run
  {
  }

  lemma GapHead(c: Cut, t: string)
    requires WellCut(c) && t == c.gap + c.run + c.tail
    ensures c.gap != "" ==> !IsPath(t[0])
  {
    if c.gap != "" {
      assert t[0] == c.gap[0];
    }
  }

  lemma FirstRun(t: string) returns (run: string, x: string)
    requires t != "" && IsPath(t[0])
    ensures t == run + x && run != "" && AllPath(run) && Boundary(x) && run[0] == t[0] && |x| < |t|
  {
    var c := CutOf(t);
    GapHead(c, t);
    run, x := c.run, c.tail;
    assert t == run + x;
  }

  lemma EditedStart(t: string, m: map<string, string>)
    requires t != "" && IsPath(t[0]) && Solid(m)
    ensures Edit(t, m) != "" && IsPath(Edit(t, m)[0])
  {
    var run, x := FirstRun(t);
    EditFirstRun(run, x, m);
    RunKinds(run, m);
  }

  // ---------------------------------------------------------------------------------------------
  // A rewrite keeps the issue
  // ---------------------------------------------------------------------------------------------

  lemma PathIsNoSpace(c: char)
    requires IsPath(c)
    ensures !IsSpace(c) && c != '"' && c != '\n' && c != ':'
  {
  }

  lemma {:induction false} BlankKept(t: string, m: map<string, string>)
    requires Solid(m)
    ensures BlankLine(Edit(t, m)) == BlankLine(t)
  {
    hide IsPath, IsSpace, Edit, Solid;
    if t == "" {
      EditNothing(m);
    } else if IsPath(t[0]) {
      EditedStart(t, m);
      PathIsNoSpace(t[0]);
      PathIsNoSpace(Edit(t, m)[0]);
    } else {
      EditChar(t, m);
      assert Edit(t, m)[1..] == Edit(t[1..], m);
      BlankKept(t[1..], m);
    }
  }

  lemma EditNothing(m: map<string, string>)
    ensures Edit("", m) == ""
  {
  }

  lemma UnquoteKept(t: string, m: map<string, string>)
    requires Solid(m)
    ensures Unquote(Edit(t, m)) == Edit(Unquote(t), m)
  {
    hide IsPath, Edit, Solid;
    if t == "" {
      EditNothing(m);
    } else if IsPath(t[0]) {
      EditedStart(t, m);
      PathIsNoSpace(t[0]);
      PathIsNoSpace(Edit(t, m)[0]);
    } else {
      EditChar(t, m);
      assert Edit(t, m)[1..] == Edit(t[1..], m);
    }
  }

  lemma {:induction false} LStripKept(t: string, m: map<string, string>)
    requires Solid(m)
    ensures LStrip(Edit(t, m)) == Edit(LStrip(t), m)
  {
    hide IsPath, IsSpace, Edit, Solid;
    if t == "" {
      EditNothing(m);
    } else if IsPath(t[0]) {
      EditedStart(t, m);
      PathIsNoSpace(t[0]);
      PathIsNoSpace(Edit(t, m)[0]);
    } else {
      EditChar(t, m);
      assert Edit(t, m)[1..] == Edit(t[1..], m);
      LStripKept(t[1..], m);
    }
  }

  lemma {:induction false} NumberStops(d: set<char>, run: string, x: string, seen: string)
    requires DigitClass(d) && AllPath(run) && '.' in run
    ensures ReadNumber(d, run + x, seen) == None
    decreases |run|
  {
    var s := run + x;
    assert s[0] == run[0] && s[1..] == run[1..] + x;
    PathIsNoSpace(run[0]);
    if run[0] in d {
      assert '.' in run[1..] by {
        assert run == [run[0]] + run[1..];
      }
      hide DigitClass, IsPath;
      NumberStops(d, run[1..], x, seen + [s[0]]);
    }
  }

  lemma {:induction false} NumberThrough(d: set<char>, run: string, x: string, y: string, seen: string)
    requires AllPath(run) && forall s :: ReadNumber(d, x, s) == ReadNumber(d, y, s)
    ensures ReadNumber(d, run + x, seen) == ReadNumber(d, run + y, seen)
    decreases |run|
  {
    if run == "" {
      assert run + x == x && run + y == y;
    } else {
      assert (run + x)[1..] == run[1..] + x && (run + y)[1..] == run[1..] + y;
      PathIsNoSpace(run[0]);
      hide IsPath;
      NumberThrough(d, run[1..], x, y, seen + [run[0]]);
    }
  }

  lemma {:induction false} NumberKept(d: set<char>, t: string, m: map<string, string>, seen: string)
    requires DigitClass(d) && Solid(m)
    ensures ReadNumber(d, Edit(t, m), seen) == ReadNumber(d, t, seen)
    decreases |t|
  {
    hide IsPath, Edit, Solid, EditRun, DigitClass, BlankLine, AllPath, Boundary, Unquote;
    if t == "" {
      EditNothing(m);
    } else if IsPath(t[0]) {
      var run, x := FirstRun(t);
      EditFirstRun(run, x, m);
      RunKinds(run, m);
      if '.' in run {
        NumberStops(d, run, x, seen);
        NumberStops(d, EditRun(run, m), Edit(x, m), seen);
      } else {
        forall s
          ensures ReadNumber(d, Edit(x, m), s) == ReadNumber(d, x, s)
        {
          NumberKept(d, x, m, s);
        }
        NumberThrough(d, run, Edit(x, m), x, seen);
      }
    } else {
      EditChar(t, m);
      assert Edit(t, m)[1..] == Edit(t[1..], m);
      if t[0] in d {
        NumberKept(d, t[1..], m, seen + [t[0]]);
      } else {
        UnquoteKept(t, m);
        BlankKept(Unquote(t), m);
      }
    }
  }

  lemma IssueAtKept(d: set<char>, x: string, m: map<string, string>)
    requires DigitClass(d) && Solid(m) && Boundary(x)
    ensures IssueAt(d, "issue" + Edit(x, m)) == IssueAt(d, "issue" + x)
  {
    hide Edit, Solid, DigitClass, LStrip, Unquote, ReadNumber;
    if x == "" {
      EditNothing(m);
    } else {
      EditChar(x, m);
      var e := Edit(x, m);
      assert e[0] == x[0] && e[1..] == Edit(x[1..], m);
      AfterIssue(x);
      AfterIssue(e);
      LStripKept(x[1..], m);
      UnquoteKept(LStrip(x[1..]), m);
      NumberKept(d, Unquote(LStrip(x[1..])), m, "");
    }
  }

  lemma AfterIssue(x: string)
    requires x != ""
    ensures StartsWith("issue" + x, ISSUE) <==> x[0] == ':'
    ensures ("issue" + x)[|ISSUE|..] == x[1..]
  {
    var s := "issue" + x;
    assert ISSUE == "issue" + ":" && |ISSUE| == 6;
    assert s[..6] == "issue" + [x[0]];
    assert ("issue" + [x[0]])[5] == x[0] && ISSUE[5] == ':';
  }

  lemma OnlyIssue(d: set<char>, run: string, x: string)
    requires run != "" && AllPath(run) && Boundary(x) && run != "issue"
    ensures IssueAt(d, run + x) == None
  {
    var s := run + x;
    assert ISSUE[..5] == "issue" && ISSUE[5] == ':' && !IsPath(':') && AllPath(ISSUE[..5]);
    assert |run| > 5 ==> s[5] == run[5];
    assert |run| < 5 && x != "" ==> s[|run|] == x[0];
    assert |run| == 5 ==> s[..5] == run;
    HeadOf(s, ISSUE);
  }

  lemma HeadOf(s: string, p: string)
    ensures StartsWith(s, p) ==> (forall k | 0 <= k < |p| :: s[k] == p[k]) && forall k | 0 <= k <= |p| :: s[..k] == p[..k]
  {
    if StartsWith(s, p) {
      assert forall k | 0 <= k < |p| :: s[..|p|][k] == s[k];
    }
  }

  lemma NoIssueHere(d: set<char>, s: string)
    requires Boundary(s)
    ensures IssueAt(d, s) == None
  {
    HeadOf(s, ISSUE);
    assert ISSUE[0] == 'i' && |ISSUE| == 6;
  }

  lemma {:induction false} SkipRun(d: set<char>, run: string, x: string)
    requires AllPath(run)
    ensures FrontIssue(d, run + x, false) == FrontIssue(d, x, false)
    decreases |run|
  {
    hide IssueAt, IsPath;
    if run == "" {
      assert run + x == x;
    } else {
      PathIsNoSpace(run[0]);
      assert (run + x)[1..] == run[1..] + x;
      SkipRun(d, run[1..], x);
    }
  }

  /** Reading on after a run that holds no issue. */
  lemma PassRun(d: set<char>, run: string, x: string, lineStart: bool)
    requires run != "" && AllPath(run)
    ensures FrontIssue(d, run + x, lineStart)
            == if lineStart && IssueAt(d, run + x).Some? then IssueAt(d, run + x) else FrontIssue(d, x, false)
  {
    PathIsNoSpace(run[0]);
    hide IssueAt, IsPath;
    assert (run + x)[1..] == run[1..] + x;
    SkipRun(d, run[1..], x);
  }

  lemma SameIssueAt(d: set<char>, run: string, x: string, m: map<string, string>)
    requires DigitClass(d) && Solid(m) && run != "" && AllPath(run) && Boundary(x)
    ensures IssueAt(d, EditRun(run, m) + Edit(x, m)) == IssueAt(d, run + x)
  {
    hide *;
    EditedBoundary(x, m);
    if run == "issue" {
      IssueRunKept(m);
      IssueAtKept(d, x, m);
    } else {
      OtherRunKept(run, m);
      OnlyIssue(d, run, x);
      OnlyIssue(d, EditRun(run, m), Edit(x, m));
    }
  }

  lemma EditedBoundary(x: string, m: map<string, string>)
    requires Boundary(x)
    ensures Boundary(Edit(x, m))
  {
    hide Edit;
    if x == "" {
      EditNothing(m);
    } else {
      EditChar(x, m);
    }
  }

  lemma IssueRunKept(m: map<string, string>)
    requires Solid(m)
    ensures EditRun("issue", m) == "issue"
  {
    hide Solid;
    RunKinds("issue", m);
  }

  lemma OtherRunKept(run: string, m: map<string, string>)
    requires Solid(m) && AllPath(run) && run != "" && run != "issue"
    ensures EditRun(run, m) != "" && EditRun(run, m) != "issue" && AllPath(EditRun(run, m))
  {
    hide Solid, EditRun, AllPath;
    RunKinds(run, m);
  }

  /** The issue in a text is the issue in the text with its links rewritten. */
  lemma {:induction false} FrontKept(d: set<char>, t: string, m: map<string, string>, lineStart: bool)
    requires DigitClass(d) && Solid(m)
    ensures FrontIssue(d, Edit(t, m), lineStart) == FrontIssue(d, t, lineStart)
    decreases |t|
  {
    hide Edit, EditRun, IssueAt, DigitClass, Solid, AllPath, IsPath;
    if t == "" {
      EditNothing(m);
    } else if IsPath(t[0]) {
      var run, x := FirstRun(t);
      EditFirstRun(run, x, m);
      RunKinds(run, m);
      SameIssueAt(d, run, x, m);
      PassRun(d, run, x, lineStart);
      PassRun(d, EditRun(run, m), Edit(x, m), lineStart);
      FrontKept(d, x, m, false);
    } else {
      EditChar(t, m);
      assert Edit(t, m)[1..] == Edit(t[1..], m);
      NoIssueHere(d, t);
      NoIssueHere(d, Edit(t, m));
      FrontKept(d, t[1..], m, t[0] == '\n');
    }
  }
}

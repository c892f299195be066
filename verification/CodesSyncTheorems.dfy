/** The registry check accepts exactly the tables that are in sync, and every rendered table is. */
module CodesSyncTheorems {
  import opened Text
  import opened TextLines
  import opened CodesSync

  // ---------------------------------------------------------------------------------------------
  // No drift message means in sync
  // ---------------------------------------------------------------------------------------------

  lemma DistinctIsNoDuplicate(rows: seq<Row>)
    ensures (forall j, k | 0 <= j < k < |rows| :: rows[j].code != rows[k].code)
            <==> forall c :: !Twice(rows, c)
  {
    if j, k :| 0 <= j < k < |rows| && rows[j].code == rows[k].code {
      assert Twice(rows, rows[j].code);
    }
  }

  /** With distinct codes, the row indexed for a code is the row that lists it. */
  lemma RowMapUnique(rows: seq<Row>, r: Row)
    requires (forall j, k | 0 <= j < k < |rows| :: rows[j].code != rows[k].code) && r in rows
    ensures r.code in RowMap(rows) && RowMap(rows)[r.code] == r
  {
    RowMapHas(rows);
    hide RowMap;
    var s := RowMap(rows)[r.code];
    var j :| 0 <= j < |rows| && rows[j] == r;
    var k :| 0 <= k < |rows| && rows[k] == s;
  }

  /** `_compare` reports nothing exactly when the rows list each code once with equal domain, description
      and, where set, retryable flag. */
  lemma NothingReportedIsInSync(codes: map<string, Meta>, rows: seq<Row>)
    ensures (forall i :: !Reported(codes, rows, i)) <==> InSync(codes, rows)
  {
    if forall i :: !Reported(codes, rows, i) {
      SilentIsInSync(codes, rows);
    }
    if InSync(codes, rows) {
      InSyncIsSilent(codes, rows);
    }
  }

  lemma SilentIsInSync(codes: map<string, Meta>, rows: seq<Row>)
    requires forall i :: !Reported(codes, rows, i)
    ensures InSync(codes, rows)
  {
    hide FieldDiffers, RowMap, Agrees;
    RowMapHas(rows);
    forall c
      ensures !Twice(rows, c)
    {
      assert !Reported(codes, rows, Duplicate(c));
    }
    DistinctIsNoDuplicate(rows);
    forall r | r in rows
      ensures r.code in codes && Agrees(codes[r.code], r)
    {
      RowMapUnique(rows, r);
      assert !Reported(codes, rows, OnlyInMd(r.code));
      forall f
        ensures !FieldDiffers(codes[r.code], r, f)
      {
        assert !Reported(codes, rows, Mismatch(r.code, f));
      }
      AgreesMeaning(codes[r.code], r);
    }
    forall c | c in codes
      ensures exists r :: r in rows && r.code == c
    {
      assert !Reported(codes, rows, OnlyInPython(c));
    }
  }

  lemma InSyncIsSilent(codes: map<string, Meta>, rows: seq<Row>)
    requires InSync(codes, rows)
    ensures forall i :: !Reported(codes, rows, i)
  {
    hide FieldDiffers, RowMap, Agrees;
    RowMapHas(rows);
    DistinctIsNoDuplicate(rows);
    forall r | r in rows
      ensures forall f :: !FieldDiffers(codes[r.code], r, f)
    {
      AgreesMeaning(codes[r.code], r);
    }
  }

  // ---------------------------------------------------------------------------------------------
  // Grouping by domain
  // ---------------------------------------------------------------------------------------------

  function AllCodes(gs: seq<Group>): seq<Code> { if gs == [] then [] else gs[0].codes + AllCodes(gs[1..]) }

  predicate Homes(gs: seq<Group>) { forall g | g in gs :: forall c | c in g.codes :: c.meta.domain == g.domain }

  lemma AddToFirst(gs: seq<Group>, c: Code)
    requires gs != [] && gs[0].domain == c.meta.domain
    ensures AllCodes(gs) == gs[0].codes + AllCodes(gs[1..])
    ensures AllCodes(AddTo(gs, c)) == gs[0].codes + [c] + AllCodes(gs[1..])
  {
    assert AddTo(gs, c)[1..] == gs[1..];
  }

  lemma AddToLater(gs: seq<Group>, c: Code)
    requires gs != [] && gs[0].domain != c.meta.domain
    ensures AllCodes(gs) == gs[0].codes + AllCodes(gs[1..])
    ensures AllCodes(AddTo(gs, c)) == gs[0].codes + AllCodes(AddTo(gs[1..], c))
  {
    assert AddTo(gs, c)[1..] == AddTo(gs[1..], c);
  }

  lemma {:induction false} AddToHomes(gs: seq<Group>, c: Code)
    requires Homes(gs)
    ensures Homes(AddTo(gs, c))
  {
    if gs != [] {
      assert gs[0] in gs;
      AddToHomes(gs[1..], c);
    }
  }

  /** Adding a code to its domain inserts it somewhere in the listing. */
  lemma {:induction false} AddToInserts(gs: seq<Group>, c: Code) returns (a: seq<Code>, b: seq<Code>)
    ensures AllCodes(gs) == a + b && AllCodes(AddTo(gs, c)) == a + [c] + b
  {
    if gs == [] {
      a, b := [], [];
      assert AddTo(gs, c)[1..] == [];
    } else if gs[0].domain == c.meta.domain {
      AddToFirst(gs, c);
      a, b := gs[0].codes, AllCodes(gs[1..]);
    } else {
      AddToLater(gs, c);
      hide AddTo, AllCodes;
      a, b := AddToInserts(gs[1..], c);
      assert gs[0].codes + (a + b) == (gs[0].codes + a) + b;
      assert gs[0].codes + (a + [c] + b) == (gs[0].codes + a) + [c] + b;
      a := gs[0].codes + a;
    }
  }

  lemma InsertKeeps(a: seq<Code>, b: seq<Code>, c: Code)
    requires Distinct(a + b) && forall x | x in a + b :: x.name != c.name
    ensures Distinct(a + [c] + b)
    ensures forall x :: x in a + [c] + b <==> x in a + b || x == c
  {
    var all := a + [c] + b;
    forall i, j | 0 <= i < j < |all|
      ensures all[i].name != all[j].name
    {
      if i < |a| && j < |a| {
        assert (a + b)[i] == all[i] && (a + b)[j] == all[j];
      } else if i < |a| && j == |a| {
        assert (a + b)[i] == all[i];
      } else if i < |a| {
        assert (a + b)[i] == all[i] && (a + b)[j - 1] == all[j];
      } else if i == |a| {
        assert (a + b)[j - 1] == all[j];
      } else {
        assert (a + b)[i - 1] == all[i] && (a + b)[j - 1] == all[j];
      }
    }
  }

  /** The listing by domain has the same codes, each once. */
  lemma {:induction false} GroupsList(codes: seq<Code>)
    requires Distinct(codes)
    ensures Homes(Groups(codes)) && Distinct(AllCodes(Groups(codes)))
    ensures forall c :: c in AllCodes(Groups(codes)) <==> c in codes
  {
    if codes != [] {
      var n := |codes| - 1;
      GroupsList(codes[..n]);
      assert codes == codes[..n] + [codes[n]];
      var a, b := AddToInserts(Groups(codes[..n]), codes[n]);
      AddToHomes(Groups(codes[..n]), codes[n]);
      hide AddTo, AllCodes, Homes, Groups;
      forall x: Code | x in a + b
        ensures x.name != codes[n].name
      {
        assert x in codes[..n];
      }
      InsertKeeps(a, b, codes[n]);
    }
  }

  /** The codes of one domain, in registry order. */
  function OfDomain(codes: seq<Code>, domain: string): seq<Code> {
    if codes == [] then []
    else
      var n := |codes| - 1;
      OfDomain(codes[..n], domain) + if codes[n].meta.domain == domain then [codes[n]] else []
  }

  /** A code of `a` comes before any code of `b`. */
  predicate SeenFirst(codes: seq<Code>, a: string, b: string) {
    exists k :: 0 <= k < |codes| && codes[k].meta.domain == a && forall l | 0 <= l <= k :: codes[l].meta.domain != b
  }

  predicate Whole(codes: seq<Code>, g: Group) { g.codes == OfDomain(codes, g.domain) && g.codes != [] }

  /** One group for each domain, in the order the domains are first seen, each with all its codes in registry order. */
  predicate Grouped(codes: seq<Code>, gs: seq<Group>) {
    && (forall g | g in gs :: Whole(codes, g))
    && (forall c | c in codes :: exists g :: g in gs && g.domain == c.meta.domain)
    && forall i, j | 0 <= i < j < |gs| :: SeenFirst(codes, gs[i].domain, gs[j].domain)
  }

  /** Where `setdefault(...).append(...)` puts a code. */
  lemma {:induction false} AddToIs(gs: seq<Group>, c: Code) returns (at: nat)
    ensures at <= |gs| && forall i | 0 <= i < at :: gs[i].domain != c.meta.domain
    ensures at < |gs| ==> gs[at].domain == c.meta.domain && AddTo(gs, c) == gs[at := Group(gs[at].domain, gs[at].codes + [c])]
    ensures at == |gs| ==> AddTo(gs, c) == gs + [Group(c.meta.domain, [c])]
  {
    at := 0;
    if gs != [] && gs[0].domain != c.meta.domain {
      var k := AddToIs(gs[1..], c);
      at := k + 1;
      assert gs == [gs[0]] + gs[1..];
    }
  }

  lemma {:induction false} OfDomainHas(codes: seq<Code>, domain: string)
    ensures forall c :: c in OfDomain(codes, domain) <==> c in codes && c.meta.domain == domain
  {
    if codes != [] {
      var n := |codes| - 1;
      OfDomainHas(codes[..n], domain);
      assert codes == codes[..n] + [codes[n]];
    }
  }

  lemma SeenStays(codes: seq<Code>, c: Code, a: string, b: string)
    requires SeenFirst(codes, a, b)
    ensures SeenFirst(codes + [c], a, b)
  {
    var k :| 0 <= k < |codes| && codes[k].meta.domain == a && forall l | 0 <= l <= k :: codes[l].meta.domain != b;
    var all := codes + [c];
    assert all[k] == codes[k] && forall l | 0 <= l <= k :: all[l] == codes[l];
  }

  /** A domain that has a group is seen before one that has none. */
  lemma NewComesLast(codes: seq<Code>, c: Code, g: Group)
    requires Whole(codes, g) && forall x | x in codes :: x.meta.domain != c.meta.domain
    ensures SeenFirst(codes + [c], g.domain, c.meta.domain)
  {
    OfDomainHas(codes, g.domain);
    hide OfDomain;
    assert g.codes[0] in g.codes;
    var k :| 0 <= k < |codes| && codes[k] == g.codes[0];
    var all := codes + [c];
    assert all[k] == codes[k] && forall l | 0 <= l <= k :: all[l] == codes[l] && codes[l] in codes;
  }

  lemma OfDomainSnoc(codes: seq<Code>, c: Code, domain: string)
    ensures OfDomain(codes + [c], domain) == OfDomain(codes, domain) + if c.meta.domain == domain then [c] else []
  {
    assert (codes + [c])[..|codes|] == codes;
  }

  lemma GrowWhole(codes: seq<Code>, c: Code, g: Group)
    requires Whole(codes, g)
    ensures Whole(codes + [c], if g.domain == c.meta.domain then Group(g.domain, g.codes + [c]) else g)
  {
    OfDomainSnoc(codes, c, g.domain);
  }

  lemma FirstWhole(codes: seq<Code>, c: Code)
    requires forall x | x in codes :: x.meta.domain != c.meta.domain
    ensures Whole(codes + [c], Group(c.meta.domain, [c]))
  {
    OfDomainSnoc(codes, c, c.meta.domain);
    OfDomainHas(codes, c.meta.domain);
    if OfDomain(codes, c.meta.domain) != [] {
      HasFirst(OfDomain(codes, c.meta.domain));
    }
  }

  lemma HasFirst(codes: seq<Code>)
    requires codes != []
    ensures codes[0] in codes
  {
  }

  lemma GrowGroup(codes: seq<Code>, gs: seq<Group>, c: Code, at: nat)
    requires Grouped(codes, gs) && at < |gs| && gs[at].domain == c.meta.domain
    requires forall i | 0 <= i < at :: gs[i].domain != c.meta.domain
    ensures Grouped(codes + [c], gs[at := Group(gs[at].domain, gs[at].codes + [c])])
  {
    hide Whole, SeenFirst;
    var next := gs[at := Group(gs[at].domain, gs[at].codes + [c])];
    forall i | 0 <= i < |gs|
      ensures Whole(codes + [c], next[i])
    {
      assert gs[i] in gs;
      GrowWhole(codes, c, gs[i]);
      if i > at {
        assert SeenFirst(codes, gs[at].domain, gs[i].domain);
        SeenDiffer(codes, gs[at].domain, gs[i].domain);
      }
    }
    forall i, j | 0 <= i < j < |gs|
      ensures SeenFirst(codes + [c], next[i].domain, next[j].domain)
    {
      SeenStays(codes, c, gs[i].domain, gs[j].domain);
    }
    forall x | x in codes + [c]
      ensures exists g :: g in next && g.domain == x.meta.domain
    {
      if x == c {
        assert next[at] in next;
      } else {
        var g :| g in gs && g.domain == x.meta.domain;
        var i :| 0 <= i < |gs| && gs[i] == g;
        assert next[i] in next;
      }
    }
  }

  lemma SeenDiffer(codes: seq<Code>, a: string, b: string)
    requires SeenFirst(codes, a, b)
    ensures a != b
  {
  }

  lemma NewGroup(codes: seq<Code>, gs: seq<Group>, c: Code)
    requires Grouped(codes, gs) && forall i | 0 <= i < |gs| :: gs[i].domain != c.meta.domain
    ensures Grouped(codes + [c], gs + [Group(c.meta.domain, [c])])
  {
    hide Whole, SeenFirst;
    var next := gs + [Group(c.meta.domain, [c])];
    FirstWhole(codes, c);
    forall g | g in gs
      ensures Whole(codes + [c], g) && SeenFirst(codes + [c], g.domain, c.meta.domain)
    {
      GrowWhole(codes, c, g);
      NewComesLast(codes, c, g);
    }
    forall i, j | 0 <= i < j < |next|
      ensures SeenFirst(codes + [c], next[i].domain, next[j].domain)
    {
      if j < |gs| {
        SeenStays(codes, c, gs[i].domain, gs[j].domain);
      } else {
        assert gs[i] in gs;
      }
    }
    forall x | x in codes + [c]
      ensures exists g :: g in next && g.domain == x.meta.domain
    {
      if x == c {
        assert next[|gs|] in next;
      } else {
        var g :| g in gs && g.domain == x.meta.domain;
        assert g in next;
      }
    }
  }

  /** The rendered table's groups. */
  lemma {:induction false} GroupsInOrder(codes: seq<Code>)
    ensures Grouped(codes, Groups(codes))
  {
    hide Grouped, AddTo;
    if codes == [] {
      NothingGrouped();
    } else {
      var n := |codes| - 1;
      GroupsInOrder(codes[..n]);
      assert codes == codes[..n] + [codes[n]];
      var gs := Groups(codes[..n]);
      var at := AddToIs(gs, codes[n]);
      if at < |gs| {
        GrowGroup(codes[..n], gs, codes[n], at);
      } else {
        NewGroup(codes[..n], gs, codes[n]);
      }
    }
  }

  lemma NothingGrouped()
    ensures Grouped([], [])
  {
  }

  lemma {:induction false} TableHas(codes: seq<Code>)
    requires Distinct(codes)
    ensures forall n :: n in Table(codes) <==> exists c :: c in codes && c.name == n
    ensures forall c | c in codes :: c.name in Table(codes) && Table(codes)[c.name] == c.meta
  {
    if codes != [] {
      var n := |codes| - 1;
      TableHas(codes[..n]);
      assert codes == codes[..n] + [codes[n]];
      assert codes[n] in codes;
      assert forall c :: c in codes <==> c in codes[..n] || c == codes[n];
    }
  }

  // ---------------------------------------------------------------------------------------------
  // Single lines
  // ---------------------------------------------------------------------------------------------

  /** What a code, a domain and a description must be like for the table to hold them. */
  predicate WellFormed(c: Code) {
    && c.name != "" && 'a' <= c.name[0] <= 'z'
    && (forall x | x in c.name :: 'a' <= x <= 'z' || '0' <= x <= '9' || x == '_' || x == '.')
    && (forall x | x in c.meta.domain :: !IsSpace(x))
    && (forall x | x in Strip(c.meta.description) :: !IsBreak(x))
  }

  /** The row of a code: its flag is "true" only where the registry says so. */
  function RowFor(c: Code): Row {
    Row(c.name, c.meta.domain, if c.meta.retryable == Some(true) then "true" else "false", Strip(c.meta.description))
  }

  lemma {:induction false} WordLenAll(w: string, s: string)
    requires (forall x | x in w :: !IsSpace(x)) && (s == "" || IsSpace(s[0]))
    ensures WordLen(w + s) == |w|
  {
    if w == "" {
      assert w + s == s;
    } else {
      ConsConcat(w, s);
      WordLenAll(w[1..], s);
    }
  }

  lemma {:induction false} CodeLenAll(w: string, s: string)
    requires (forall x | x in w :: CodeChar(x)) && (s == "" || !CodeChar(s[0]))
    ensures CodeLen(w + s) == |w|
  {
    if w == "" {
      assert w + s == s;
    } else {
      ConsConcat(w, s);
      CodeLenAll(w[1..], s);
    }
  }

  lemma LStripNone(s: string)
    requires s == "" || !IsSpace(s[0])
    ensures LStrip(s) == s && LStrip(" " + s) == s
  {
    assert (" " + s)[1..] == s;
  }

  lemma HeadingReadsBack(domain: string)
    requires forall x | x in domain :: !IsSpace(x)
    ensures HeadingOf("## " + (domain + ".*")) == Some(domain)
  {
    var w := domain + ".*";
    var line := "## " + w;
    assert line[2..] == " " + w;
    assert w[0] == if domain == "" then '.' else domain[0];
    LStripNone(w);
    assert w + "" == w;
    WordLenAll(w, "");
    assert w[..|w|] == w;
    assert w[|w| - 2..] == ".*" && w[..|w| - 2] == domain;
  }

  lemma PipeStep(s: string)
    requires s == "" || !IsSpace(s[0])
    ensures AfterPipe(" | " + s) == Some(s)
  {
    var t := "| " + s;
    assert " | " + s == " " + t;
    LStripNone(t);
    assert t[1..] == " " + s;
    LStripNone(s);
  }

  /** The last cell may begin with spaces only if it is empty. */
  lemma LastCellIs(d: string)
    requires Trimmed(d)
    ensures AfterPipe(" | " + (d + " |")).Some? && LastCell(AfterPipe(" | " + (d + " |")).value) == Some(d)
  {
    if d == "" {
      PipeStep("|");
      assert " | " + (d + " |") == " | " + " |";
      EmptyCell();
    } else {
      var s := d + " |";
      PipeStep(s);
      assert s[..|s| - 1] == d + [' '];
      StripRight(d, ' ');
      TrimmedStrip(d);
    }
  }

  lemma EmptyCell()
    ensures AfterPipe(" | " + " |") == Some("|") && LastCell("|") == Some("")
  {
    var t := "| " + " |";
    assert " | " + " |" == " " + t;
    LStripNone(t);
    assert t[1..] == " " + (" " + "|");
    LStripNone("|");
    assert LStrip(" " + (" " + "|")) == LStrip((" " + (" " + "|"))[1..]);
    assert (" " + (" " + "|"))[1..] == " " + "|";
    assert "|"[..0] == "";
    TrimmedStrip("");
  }

  lemma FlagReads(m: Meta, s: string)
    ensures FlagLen(Flag(m) + s) == |Flag(m)| && (Flag(m) + s)[..|Flag(m)|] == Flag(m) && (Flag(m) + s)[|Flag(m)|..] == s
  {
    assert (Flag(m) + s)[..|Flag(m)|] == Flag(m);
    if Flag(m) == "false" {
      assert (Flag(m) + s)[0] == 'f' && "true"[0] == 't';
    }
  }

  lemma RowReadsBack(c: Code, domain: string)
    requires WellFormed(c)
    ensures RowOf(RowText(c), domain) == Some(RowFor(c).(domain := domain))
    ensures HeadingOf(RowText(c)).None?
  {
    assert Flag(c.meta) == RowFor(c).retryable;
    hide Strip, LStrip, FlagLen, Flag;
    var d := Strip(c.meta.description);
    var s3 := " | " + (d + " |");
    var s2 := Flag(c.meta) + s3;
    var s1 := " | " + s2;
    var a := c.name + s1;
    assert RowText(c) == "| " + a;
    assert ("| " + a)[1..] == " " + a;
    assert a[0] == c.name[0];
    LowerNotSpace(a[0]);
    LStripNone(a);
    CodeLenAll(c.name, s1);
    assert a[..|c.name|] == c.name && a[|c.name|..] == s1;
    FlagStarts(c.meta, s3);
    PipeStep(s2);
    FlagReads(c.meta, s3);
    StripParts(c.meta.description);
    LastCellIs(d);
  }

  lemma LowerNotSpace(c: char)
    requires IsLower(c)
    ensures !IsSpace(c)
  {
  }

  lemma FlagStarts(m: Meta, s: string)
    ensures Flag(m) + s != "" && !IsSpace((Flag(m) + s)[0]) && |Flag(m)| > 0
  {
  }

  /** A line that neither sets the domain nor is a row. */
  ghost predicate Idle(line: string) { HeadingOf(line).None? && forall d :: RowOf(line, d).None? }

  lemma IdleStart(a: string, b: string)
    requires |a| >= 2 && a[0] != '|' && a[1] != '#'
    ensures Idle(a + b)
  {
    assert (a + b)[1] == a[1];
  }

  lemma EmptyIsIdle()
    ensures Idle("")
  {
  }

  lemma IdleLines()
    ensures Idle("") && Idle(TABLE_HEAD) && Idle(TABLE_RULE) && Idle(POSTAMBLE_LINE)
  {
    hide Idle;
    EmptyIsIdle();
    HeadIsIdle("etryable | description |");
    RuleIsIdle("-----|-----------|-------------|");
    IdleStart("See ADR-066 ", "(absorbed into ADR-049) " + "for design rationale.");
  }

  lemma IdlePreamble()
    ensures forall l | l in PREAMBLE_LINES :: Idle(l)
  {
    hide Idle;
    EmptyIsIdle();
    IdleStart("> ", NOTE_SOURCE);
    IdleStart("> ", NOTE_EDIT);
    IdleStart("> ", NOTE_HOOK);
    IdleStart("# Worker", "Error code registry");
    assert "# WorkerError code registry" == "# Worker" + "Error code registry";
  }

  lemma RuleIsIdle(rest: string)
    ensures Idle("|-" + rest)
  {
    var t := ("|-" + rest)[1..];
    assert t[0] == '-' && LStrip(t) == t;
  }

  lemma HeadIsIdle(rest: string)
    ensures Idle("| " + ("code" + (" | " + ("r" + rest))))
  {
    var r := "r" + rest;
    var s := " | " + r;
    var a := "code" + s;
    assert ("| " + a)[1..] == " " + a;
    LStripNone(a);
    CodeLenAll("code", s);
    assert a[|"code"|..] == s;
    PipeStep(r);
    assert r[0] == 'r';
  }

  // ---------------------------------------------------------------------------------------------
  // The rendered text, line by line
  // ---------------------------------------------------------------------------------------------

  function RowsFor(cs: seq<Code>): seq<Row> { seq(|cs|, i requires 0 <= i < |cs| => RowFor(cs[i])) }

  lemma {:induction false} SkipIdle(ls: seq<string>, rest: seq<string>, domain: string)
    requires forall l | l in ls :: Idle(l)
    ensures ParseRows(ls + rest, domain) == ParseRows(rest, domain)
    decreases |ls|
  {
    hide HeadingOf, RowOf;
    if ls == [] {
      assert ls + rest == rest;
    } else {
      ConsConcat(ls, rest);
      assert ls[0] in ls;
      SkipIdle(ls[1..], rest, domain);
    }
  }

  lemma {:induction false} ReadRows(cs: seq<Code>, rest: seq<string>, domain: string)
    requires forall c | c in cs :: WellFormed(c) && c.meta.domain == domain
    ensures ParseRows(RowTexts(cs) + rest, domain) == RowsFor(cs) + ParseRows(rest, domain)
    decreases |cs|
  {
    hide HeadingOf, RowOf, RowText, WellFormed;
    if cs == [] {
      assert RowTexts(cs) + rest == rest;
    } else {
      ConsConcat(RowTexts(cs), rest);
      assert RowTexts(cs)[1..] == RowTexts(cs[1..]);
      assert cs[0] in cs;
      RowReadsBack(cs[0], domain);
      ReadRows(cs[1..], rest, domain);
      assert RowsFor(cs) == [RowFor(cs[0])] + RowsFor(cs[1..]);
    }
  }

  /** The lines of a section. */
  function SectionLines(g: Group): seq<string> {
    ["## " + (g.domain + ".*")] + (["", TABLE_HEAD, TABLE_RULE] + (RowTexts(g.codes) + [""]))
  }

  lemma ReadSection(g: Group, rest: seq<string>, domain: string)
    requires forall c | c in g.codes :: WellFormed(c) && c.meta.domain == g.domain
    requires forall x | x in g.domain :: !IsSpace(x)
    ensures ParseRows(SectionLines(g) + rest, domain) == RowsFor(g.codes) + ParseRows(rest, g.domain)
  {
    hide HeadingOf, RowOf, RowText, WellFormed, Idle, RowsFor, RowTexts;
    HeadingReadsBack(g.domain);
    IdleLines();
    var tail := [""] + rest;
    var body := RowTexts(g.codes) + tail;
    var head := ["", TABLE_HEAD, TABLE_RULE];
    assert SectionLines(g) + rest == ["## " + (g.domain + ".*")] + (head + body);
    assert ParseRows(SectionLines(g) + rest, domain) == ParseRows(head + body, g.domain) by {
      ConsConcat(["## " + (g.domain + ".*")], head + body);
    }
    SkipIdle(head, body, g.domain);
    ReadRows(g.codes, tail, g.domain);
    SkipIdle([""], rest, g.domain);
  }

  function AllLines(gs: seq<Group>): seq<string> { if gs == [] then [] else SectionLines(gs[0]) + AllLines(gs[1..]) }

  lemma RowsForConcat(a: seq<Code>, b: seq<Code>)
    ensures RowsFor(a + b) == RowsFor(a) + RowsFor(b)
  {
  }

  predicate FitGroups(gs: seq<Group>) {
    forall g | g in gs ::
      (forall x | x in g.domain :: !IsSpace(x)) && forall c | c in g.codes :: WellFormed(c) && c.meta.domain == g.domain
  }

  lemma {:induction false} ReadSections(gs: seq<Group>, rest: seq<string>, domain: string)
    requires FitGroups(gs) && forall l | l in rest :: Idle(l)
    ensures ParseRows(AllLines(gs) + rest, domain) == RowsFor(AllCodes(gs))
    decreases |gs|
  {
    hide WellFormed, Idle, SectionLines, RowsFor;
    if gs == [] {
      assert AllLines(gs) + rest == rest + [];
      SkipIdle(rest, [], domain);
      assert RowsFor([]) == [] by { RowsForNone(); }
    } else {
      assert gs[0] in gs;
      ConcatAssoc(SectionLines(gs[0]), AllLines(gs[1..]), rest);
      ReadSection(gs[0], AllLines(gs[1..]) + rest, domain);
      ReadSections(gs[1..], rest, gs[0].domain);
      RowsForConcat(gs[0].codes, AllCodes(gs[1..]));
    }
  }

  lemma RowsForNone()
    ensures RowsFor([]) == []
  {
  }

  // ---------------------------------------------------------------------------------------------
  // From the text to its lines
  // ---------------------------------------------------------------------------------------------

  function SplitAll(parts: seq<string>): seq<string> {
    if parts == [] then [] else Split(parts[0], '\n') + SplitAll(parts[1..])
  }

  lemma {:induction false} SplitJoined(parts: seq<string>)
    requires parts != []
    ensures Split(Join("\n", parts), '\n') == SplitAll(parts)
  {
    hide Split;
    if |parts| == 1 {
      assert parts[1..] == [];
      assert SplitAll(parts) == Split(parts[0], '\n') + [];
    } else {
      SplitJoined(parts[1..]);
      SplitConcat(parts[0], Join("\n", parts[1..]), '\n');
    }
  }

  lemma {:induction false} SplitAllConcat(a: seq<string>, b: seq<string>)
    ensures SplitAll(a + b) == SplitAll(a) + SplitAll(b)
  {
    hide Split;
    if a == [] {
      assert a + b == b;
    } else {
      ConsConcat(a, b);
      SplitAllConcat(a[1..], b);
      ConcatAssoc(Split(a[0], '\n'), SplitAll(a[1..]), SplitAll(b));
    }
  }

  lemma {:induction false} SplitAllPlain(parts: seq<string>)
    requires forall p | p in parts :: '\n' !in p
    ensures SplitAll(parts) == parts
  {
    if parts != [] {
      SplitNone(parts[0], '\n');
      SplitAllPlain(parts[1..]);
    }
  }

  lemma RowTextPlain(c: Code)
    requires WellFormed(c)
    ensures '\n' !in RowText(c) && PlainBreaks(RowText(c))
  {
    hide Strip;
    var d := Strip(c.meta.description);
    forall x | x in RowText(c)
      ensures !IsBreak(x)
    {
      if x in c.name {
        assert CodeChar(x);
      } else if x in d {
      } else {
        FixedChars(x, Flag(c.meta));
      }
    }
    assert IsBreak('\n');
  }

  lemma FixedChars(x: char, flag: string)
    requires flag == "true" || flag == "false"
    requires x in "| " || x in " | " || x in flag || x in " |"
    ensures !IsBreak(x)
  {
  }

  lemma RowsPlain(cs: seq<Code>, p: string)
    requires (forall c | c in cs :: WellFormed(c)) && p in RowTexts(cs)
    ensures '\n' !in p && PlainBreaks(p)
  {
    hide WellFormed, RowText, PlainBreaks;
    var i :| 0 <= i < |cs| && p == RowText(cs[i]);
    RowTextPlain(cs[i]);
  }

  lemma BelowHeadingPlain(cs: seq<Code>, p: string)
    requires forall c | c in cs :: WellFormed(c)
    requires p in [TABLE_HEAD, TABLE_RULE] + RowTexts(cs) + [""]
    ensures '\n' !in p && PlainBreaks(p)
  {
    hide WellFormed, RowTexts, PlainBreaks;
    if p in RowTexts(cs) {
      RowsPlain(cs, p);
    } else {
      FixedLines();
    }
  }

  lemma HeadingSplits(h: string, rest: seq<string>)
    requires '\n' !in h && forall p | p in rest :: '\n' !in p
    ensures SplitAll([h + "\n"] + rest) == [h, ""] + rest
  {
    SplitAllPlain(rest);
    SplitNone(h, '\n');
    SplitNone("", '\n');
    hide Split;
    ConsConcat([h + "\n"], rest);
    SplitConcat(h, "", '\n');
    assert h + ['\n'] + "" == h + "\n";
    assert [h] + [""] == [h, ""];
  }

  lemma SectionSplits(g: Group)
    requires forall c | c in g.codes :: WellFormed(c)
    requires forall x | x in g.domain :: !IsSpace(x)
    ensures SplitAll(Section(g)) == SectionLines(g)
    ensures forall p | p in Section(g) :: PlainBreaks(p)
  {
    hide WellFormed, RowTexts, PlainBreaks, SplitAll;
    var h := "## " + (g.domain + ".*");
    HeadText(g.domain);
    var rest := [TABLE_HEAD, TABLE_RULE] + RowTexts(g.codes) + [""];
    forall p | p in rest
      ensures '\n' !in p && PlainBreaks(p)
    {
      BelowHeadingPlain(g.codes, p);
    }
    HeadingSplits(h, rest);
    SectionIs(h, RowTexts(g.codes));
  }

  lemma SectionIs(h: string, rows: seq<string>)
    ensures [h + "\n", TABLE_HEAD, TABLE_RULE] + rows + [""] == [h + "\n"] + ([TABLE_HEAD, TABLE_RULE] + rows + [""])
    ensures [h] + (["", TABLE_HEAD, TABLE_RULE] + (rows + [""])) == [h, ""] + ([TABLE_HEAD, TABLE_RULE] + rows + [""])
  {
    var a, b := TABLE_HEAD, TABLE_RULE;
    hide TABLE_HEAD, TABLE_RULE;
  }

  lemma HeadText(domain: string)
    requires forall x | x in domain :: !IsSpace(x)
    ensures '\n' !in "## " + (domain + ".*") && PlainBreaks("## " + (domain + ".*") + "\n")
  {
    var h := "## " + (domain + ".*");
    forall x | x in h
      ensures !IsBreak(x)
    {
      if x in domain {
        assert !IsSpace(x);
      }
    }
    assert IsBreak('\n');
  }

  lemma HeadLine()
    ensures NoBreaks(TABLE_HEAD)
  {
    HeadPieces();
    hide NoBreaks;
    NoBreaksConcat("r", "etryable | description |");
    NoBreaksConcat(" | ", "r" + "etryable | description |");
    NoBreaksConcat("code", " | " + ("r" + "etryable | description |"));
    NoBreaksConcat("| ", "code" + (" | " + ("r" + "etryable | description |")));
  }

  lemma HeadPieces()
    ensures NoBreaks("| ") && NoBreaks("code") && NoBreaks(" | ") && NoBreaks("r") && NoBreaks("etryable | description |")
  {
  }

  lemma RuleLine()
    ensures NoBreaks(TABLE_RULE)
  {
    assert NoBreaks("|-") && NoBreaks("-----|-----------|-------------|");
    hide NoBreaks;
    NoBreaksConcat("|-", "-----|-----------|-------------|");
  }

  lemma FixedLines()
    ensures '\n' !in TABLE_HEAD && PlainBreaks(TABLE_HEAD)
    ensures '\n' !in TABLE_RULE && PlainBreaks(TABLE_RULE)
    ensures '\n' !in "" && PlainBreaks("")
  {
    HeadLine();
    RuleLine();
    hide NoBreaks, PlainBreaks, TABLE_HEAD, TABLE_RULE;
    OneLine(TABLE_HEAD);
    OneLine(TABLE_RULE);
    assert NoBreaks("") by { NothingBreaks(); }
    OneLine("");
  }

  lemma NothingBreaks()
    ensures NoBreaks("")
  {
  }

  lemma {:induction false} SectionsSplit(gs: seq<Group>)
    requires FitGroups(gs)
    ensures SplitAll(SectionsOf(gs)) == AllLines(gs)
    ensures forall p | p in SectionsOf(gs) :: PlainBreaks(p)
  {
    hide WellFormed, Section, SectionLines, PlainBreaks;
    if gs != [] {
      var n := |gs| - 1;
      assert gs[n] in gs;
      SectionsSplit(gs[..n]);
      SectionSplits(gs[n]);
      SplitAllConcat(SectionsOf(gs[..n]), Section(gs[n]));
      assert gs == gs[..n] + [gs[n]];
      AllLinesSnoc(gs[..n], gs[n]);
    }
  }

  lemma {:induction false} AllLinesSnoc(gs: seq<Group>, g: Group)
    ensures AllLines(gs + [g]) == AllLines(gs) + SectionLines(g)
  {
    hide SectionLines;
    if gs == [] {
      assert gs + [g] == [g] && [g][1..] == [];
      assert SectionLines(g) + [] == SectionLines(g);
    } else {
      ConsConcat(gs, [g]);
      AllLinesSnoc(gs[1..], g);
      ConcatAssoc(SectionLines(gs[0]), AllLines(gs[1..]), SectionLines(g));
    }
  }

  lemma NoBreaksConcat(a: string, b: string)
    requires NoBreaks(a) && NoBreaks(b)
    ensures NoBreaks(a + b)
  {
  }

  lemma OneLine(s: string)
    requires NoBreaks(s)
    ensures '\n' !in s && PlainBreaks(s)
  {
    assert IsBreak('\n');
  }

  lemma NoteSource0()
    ensures NoBreaks("Auto-generated from ")
  {
  }

  lemma NoteSource1()
    ensures NoBreaks("`roxabi_contracts.errors.KNOWN_CODES`.")
  {
  }

  lemma NoteSource()
    ensures NoBreaks(NOTE_SOURCE)
  {
    NoteSource0();
    NoteSource1();
    hide NoBreaks;
    NoBreaksConcat("Auto-generated from ", "`roxabi_contracts.errors.KNOWN_CODES`.");
  }

  lemma NoteEdit0()
    ensures NoBreaks("Do not edit by hand — run ")
  {
  }

  lemma NoteEdit1()
    ensures NoBreaks("`uv run python packages/")
  {
  }

  lemma NoteEdit2()
    ensures NoBreaks("roxabi-contracts/scripts/")
  {
  }

  lemma NoteEdit3()
    ensures NoBreaks("check_codes_sync.py --write` ")
  {
  }

  lemma NoteEdit4()
    ensures NoBreaks("to regenerate.")
  {
  }

  lemma NoteEdit()
    ensures NoBreaks(NOTE_EDIT)
  {
    NoteEdit0();
    NoteEdit1();
    NoteEdit2();
    NoteEdit3();
    NoteEdit4();
    hide NoBreaks;
    var a := "Do not edit by hand — run " + "`uv run python packages/";
    NoBreaksConcat("Do not edit by hand — run ", "`uv run python packages/");
    NoBreaksConcat(a, "roxabi-contracts/scripts/");
    NoBreaksConcat(a + "roxabi-contracts/scripts/", "check_codes_sync.py --write` ");
    NoBreaksConcat(a + "roxabi-contracts/scripts/" + "check_codes_sync.py --write` ", "to regenerate.");
  }

  lemma NoteHook0()
    ensures NoBreaks("The pre-commit `codes-sync` ")
  {
  }

  lemma NoteHook1()
    ensures NoBreaks("hook regenerates this file ")
  {
  }

  lemma NoteHook2()
    ensures NoBreaks("automatically when ") && NoBreaks("`errors.py` changes.")
  {
  }

  lemma NoteHook()
    ensures NoBreaks(NOTE_HOOK)
  {
    NoteHook0();
    NoteHook1();
    NoteHook2();
    hide NoBreaks;
    var a := "The pre-commit `codes-sync` " + "hook regenerates this file ";
    NoBreaksConcat("The pre-commit `codes-sync` ", "hook regenerates this file ");
    NoBreaksConcat(a, "automatically when ");
    NoBreaksConcat(a + "automatically when ", "`errors.py` changes.");
  }

  lemma PostLine()
    ensures NoBreaks(POSTAMBLE_LINE) && POSTAMBLE_LINE != "" && !IsSpace(POSTAMBLE_LINE[|POSTAMBLE_LINE| - 1])
  {
    var b := "for design rationale.";
    assert NoBreaks("See ADR-066 ") && NoBreaks("(absorbed into ADR-049) ") && NoBreaks(b);
    assert b[|b| - 1] == '.';
    hide NoBreaks;
    NoBreaksConcat("(absorbed into ADR-049) ", b);
    NoBreaksConcat("See ADR-066 ", "(absorbed into ADR-049) " + b);
  }

  lemma ShortLines()
    ensures NoBreaks("> ") && NoBreaks("") && NoBreaks("# WorkerError code registry")
  {
    NothingBreaks();
    assert NoBreaks("> ") && NoBreaks("# Worker") && NoBreaks("Error code registry");
    hide NoBreaks;
    NoBreaksConcat("# Worker", "Error code registry");
    assert "# WorkerError code registry" == "# Worker" + "Error code registry";
  }

  lemma PreambleLinesPlain(l: string)
    requires l in PREAMBLE_LINES
    ensures '\n' !in l && PlainBreaks(l)
  {
    NoteSource();
    NoteEdit();
    NoteHook();
    ShortLines();
    hide NoBreaks, PlainBreaks;
    NoBreaksConcat("> ", NOTE_SOURCE);
    NoBreaksConcat("> ", NOTE_EDIT);
    NoBreaksConcat("> ", NOTE_HOOK);
    OneLine(l);
  }

  lemma PreambleSplits()
    ensures Split(PREAMBLE, '\n') == PREAMBLE_LINES && PlainBreaks(PREAMBLE)
  {
    hide PlainBreaks;
    forall l | l in PREAMBLE_LINES
      ensures '\n' !in l && PlainBreaks(l)
    {
      PreambleLinesPlain(l);
    }
    SplitJoin(PREAMBLE_LINES, '\n');
    JoinPlain(PREAMBLE_LINES);
  }

  /** The parts joined, with the last newline taken off again. */
  function Parts(gs: seq<Group>): seq<string> { [PREAMBLE] + SectionsOf(gs) + [POSTAMBLE_LINE] }

  lemma RStripNewline(a: string, b: string)
    requires b != "" && !IsSpace(b[|b| - 1])
    ensures RStrip(a + (b + "\n")) == a + b
  {
    var t := a + (b + "\n");
    assert t[..|t| - 1] == a + b;
    assert (a + b)[|a + b| - 1] == b[|b| - 1];
  }

  lemma RenderedText(codes: seq<Code>)
    ensures Render(codes) == Join("\n", Parts(Groups(codes))) + "\n"
  {
    hide RStrip;
    var head := [PREAMBLE] + SectionsOf(Groups(codes));
    JoinConcat("\n", head, [POSTAMBLE_LINE]);
    JoinConcat("\n", head, [POSTAMBLE_LINE + "\n"]);
    PostLine();
    RStripNewline(Join("\n", head) + "\n", POSTAMBLE_LINE);
  }

  /** The lines of a rendered table. */
  lemma RenderedLines(codes: seq<Code>)
    requires FitGroups(Groups(codes))
    ensures SplitLines(Render(codes)) == PREAMBLE_LINES + (AllLines(Groups(codes)) + [POSTAMBLE_LINE])
  {
    hide Split, Join, PlainBreaks, NoBreaks, FitGroups, AllLines, Groups, SectionsOf, SplitLines, Render;
    var gs := Groups(codes);
    RenderedText(codes);
    PreambleSplits();
    SectionsSplit(gs);
    PostLine();
    OneLine(POSTAMBLE_LINE);
    SplitJoined(Parts(gs));
    JoinPlain(Parts(gs));
    SplitLinesPlain(Join("\n", Parts(gs)));
    SplitAllConcat([PREAMBLE] + SectionsOf(gs), [POSTAMBLE_LINE]);
    SplitAllConcat([PREAMBLE], SectionsOf(gs));
    SplitNone(POSTAMBLE_LINE, '\n');
    SplitOne(PREAMBLE);
    SplitOne(POSTAMBLE_LINE);
    ConcatAssoc(PREAMBLE_LINES, AllLines(gs), [POSTAMBLE_LINE]);
  }

  lemma SplitOne(p: string)
    ensures SplitAll([p]) == Split(p, '\n')
  {
    assert SplitAll([]) == [];
    assert Split(p, '\n') + [] == Split(p, '\n');
  }

  // ---------------------------------------------------------------------------------------------
  // Round trip
  // ---------------------------------------------------------------------------------------------

  lemma HomesFit(codes: seq<Code>)
    requires Distinct(codes) && forall c | c in codes :: WellFormed(c)
    ensures FitGroups(Groups(codes))
  {
    hide Groups, Distinct;
    GroupsList(codes);
    NoEmptyGroup(codes);
    forall g | g in Groups(codes)
      ensures (forall x | x in g.domain :: !IsSpace(x)) && forall c | c in g.codes :: WellFormed(c) && c.meta.domain == g.domain
    {
      InAllCodes(Groups(codes), g);
      assert g.codes[0] in g.codes;
    }
  }

  lemma {:induction false} InAllCodes(gs: seq<Group>, g: Group)
    requires g in gs
    ensures forall c | c in g.codes :: c in AllCodes(gs)
  {
    if g != gs[0] {
      InAllCodes(gs[1..], g);
    }
  }

  lemma {:induction false} AddToFills(gs: seq<Group>, c: Code)
    requires forall g | g in gs :: g.codes != []
    ensures forall g | g in AddTo(gs, c) :: g.codes != []
  {
    if gs != [] {
      AddToFills(gs[1..], c);
    }
  }

  lemma {:induction false} NoEmptyGroup(codes: seq<Code>)
    ensures forall g | g in Groups(codes) :: g.codes != []
  {
    if codes != [] {
      NoEmptyGroup(codes[..|codes| - 1]);
      AddToFills(Groups(codes[..|codes| - 1]), codes[|codes| - 1]);
    }
  }

  /** Parsing a rendered table lists its codes domain by domain. */
  lemma RenderedRows(codes: seq<Code>)
    requires Distinct(codes) && forall c | c in codes :: WellFormed(c)
    ensures Parse(Render(codes)) == RowsFor(AllCodes(Groups(codes)))
  {
    hide Groups, Distinct, AllLines, ParseRows, FitGroups, Render, RowsFor, SplitLines, Idle;
    HomesFit(codes);
    RenderedLines(codes);
    IdleLines();
    IdlePreamble();
    SkipIdle(PREAMBLE_LINES, AllLines(Groups(codes)) + [POSTAMBLE_LINE], "");
    ReadSections(Groups(codes), [POSTAMBLE_LINE], "");
  }

  lemma RowForAgrees(c: Code)
    ensures Agrees(c.meta, RowFor(c))
  {
  }

  lemma RowsForInSync(codes: seq<Code>, listed: seq<Code>)
    requires Distinct(codes) && Distinct(listed) && forall c :: c in listed <==> c in codes
    ensures InSync(Table(codes), RowsFor(listed))
  {
    hide Agrees, Table;
    TableHas(codes);
    var rows := RowsFor(listed);
    forall r | r in rows
      ensures r.code in Table(codes) && Agrees(Table(codes)[r.code], r)
    {
      var i :| 0 <= i < |listed| && r == RowFor(listed[i]);
      assert listed[i] in codes;
      RowForAgrees(listed[i]);
    }
    forall n | n in Table(codes)
      ensures exists r :: r in rows && r.code == n
    {
      var c :| c in codes && c.name == n;
      var i :| 0 <= i < |listed| && listed[i] == c;
      assert rows[i] in rows;
    }
  }

  /** Checking a freshly rendered registry reports nothing. */
  lemma RenderedIsInSync(codes: seq<Code>)
    requires Distinct(codes) && forall c | c in codes :: WellFormed(c)
    ensures forall i :: !Reported(Table(codes), Parse(Render(codes)), i)
  {
    hide Groups, Distinct, Table, Parse, Render, AllCodes, InSync, Reported, RowsFor, WellFormed;
    RenderedRows(codes);
    GroupsList(codes);
    RowsForInSync(codes, AllCodes(Groups(codes)));
    NothingReportedIsInSync(Table(codes), Parse(Render(codes)));
  }

  // ---------------------------------------------------------------------------------------------
  // What a document can hold
  // ---------------------------------------------------------------------------------------------

  predicate PlainRow(r: Row) {
    && r.code != "" && IsLower(r.code[0]) && (forall x | x in r.code :: CodeChar(x))
    && (forall x | x in r.domain :: !IsSpace(x)) && NoBreaks(r.description)
  }

  lemma {:induction false} LStripIn(s: string)
    ensures forall x | x in LStrip(s) :: x in s
  {
    if s != "" && IsSpace(s[0]) {
      LStripIn(s[1..]);
      assert forall x | x in s[1..] :: x in s;
    }
  }

  lemma {:induction false} RStripIn(s: string)
    ensures forall x | x in RStrip(s) :: x in s
  {
    if s != "" && IsSpace(s[|s| - 1]) {
      RStripIn(s[..|s| - 1]);
      assert forall x | x in s[..|s| - 1] :: x in s;
    }
  }

  lemma AfterPipeIn(s: string)
    requires AfterPipe(s).Some?
    ensures forall x | x in AfterPipe(s).value :: x in s
  {
    hide LStrip;
    LStripIn(s);
    LStripIn(LStrip(s)[1..]);
    assert forall x | x in LStrip(s)[1..] :: x in LStrip(s);
  }

  lemma LastCellIn(s: string)
    requires LastCell(s).Some?
    ensures forall x | x in LastCell(s).value :: x in s
  {
    hide LStrip, RStrip;
    var body := s[..|s| - 1];
    LStripIn(body);
    RStripIn(LStrip(body));
    assert forall x | x in body :: x in s;
  }

  lemma RowIsPlain(line: string, domain: string)
    requires NoBreaks(line) && (forall x | x in domain :: !IsSpace(x)) && RowOf(line, domain).Some?
    ensures PlainRow(RowOf(line, domain).value)
  {
    hide LStrip, AfterPipe, LastCell, CodeLen, FlagLen, IsBreak, CodeChar, IsLower, IsSpace;
    var a := LStrip(line[1..]);
    LStripIn(line[1..]);
    var rest := a[CodeLen(a)..];
    AfterPipeIn(rest);
    var b := AfterPipe(rest).value;
    var tail := b[FlagLen(b)..];
    AfterPipeIn(tail);
    LastCellIn(AfterPipe(tail).value);
    assert forall x | x in tail :: x in b;
    assert forall x | x in rest :: x in a;
    assert forall x | x in line[1..] :: x in line;
    CodeStart(a);
  }

  lemma CodeStart(a: string)
    requires a != "" && IsLower(a[0])
    ensures a[..CodeLen(a)] != "" && a[..CodeLen(a)][0] == a[0] && forall x | x in a[..CodeLen(a)] :: CodeChar(x)
  {
  }

  lemma HeadingIsPlain(line: string)
    requires HeadingOf(line).Some?
    ensures forall x | x in HeadingOf(line).value :: !IsSpace(x)
  {
    hide LStrip, IsSpace;
    var t := LStrip(line[2..]);
    var w := t[..WordLen(t)];
    assert forall x | x in w :: !IsSpace(x);
    assert forall x | x in RemoveSuffix(w, ".*") :: x in w;
  }

  lemma {:induction false} ParsedRowsArePlain(lines: seq<string>, domain: string)
    requires (forall l | l in lines :: NoBreaks(l)) && forall x | x in domain :: !IsSpace(x)
    ensures forall r | r in ParseRows(lines, domain) :: PlainRow(r)
  {
    hide HeadingOf, RowOf, PlainRow, NoBreaks, IsSpace;
    if lines != [] {
      assert lines[0] in lines && forall l | l in lines[1..] :: l in lines;
      if HeadingOf(lines[0]).Some? {
        HeadingIsPlain(lines[0]);
        ParsedRowsArePlain(lines[1..], HeadingOf(lines[0]).value);
      } else {
        ParsedRowsArePlain(lines[1..], domain);
        if RowOf(lines[0], domain).Some? {
          RowIsPlain(lines[0], domain);
        }
      }
    }
  }

  /** Whatever the document, it can only agree with a registry of well-formed codes. */
  lemma OnlyWellFormedInSync(codes: seq<Code>, text: string, c: Code)
    requires Distinct(codes) && c in codes && InSync(Table(codes), Parse(text))
    ensures WellFormed(c)
  {
    LinesHaveNoBreaks(text);
    ParsedRowsArePlain(SplitLines(text), "");
    TableHas(codes);
    hide Table, Parse, Strip, CodeChar, IsLower, IsSpace, IsBreak;
    var r :| r in Parse(text) && r.code == c.name;
    assert Agrees(c.meta, r);
    assert PlainRow(r);
  }

  /** Checking the rendering of a registry finds it in sync exactly when every code is well-formed. */
  lemma RenderedInSyncExactly(codes: seq<Code>)
    requires Distinct(codes)
    ensures InSync(Table(codes), Parse(Render(codes))) <==> forall c | c in codes :: WellFormed(c)
  {
    hide Distinct, Table, Parse, Render, InSync, WellFormed, Reported;
    if forall c | c in codes :: WellFormed(c) {
      RenderedIsInSync(codes);
      NothingReportedIsInSync(Table(codes), Parse(Render(codes)));
    }
    if InSync(Table(codes), Parse(Render(codes))) {
      forall c | c in codes
        ensures WellFormed(c)
      {
        OnlyWellFormedInSync(codes, Render(codes), c);
      }
    }
  }

  /** `_check_mode`: the exit code is 0 exactly for a document that is in sync with the registry. */
  method CheckMode(codes: map<string, Meta>, document: Option<string>) returns (exit: int)
    ensures exit == if document.None? then 2 else if InSync(codes, Parse(document.value)) then 0 else 1
  {
    hide Parse, InSync, Reported;
    if document.None? {
      return 2;
    }
    var rows := ParseMd(document.value);
    var issues := Compare(codes, rows);
    NothingReportedIsInSync(codes, rows);
    if issues == [] {
      return 0;
    }
    assert issues[0] in issues;
    exit := 1;
  }
}

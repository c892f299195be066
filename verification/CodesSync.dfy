/** The error-code registry and its generated markdown view: render, parse, compare. */
module CodesSync {
  import opened Text
  import opened TextLines

  /** `retryable` is `None` when the attribute is missing. */
  datatype Meta = Meta(domain: string, retryable: Option<bool>, description: string)

  datatype Code = Code(name: string, meta: Meta)

  /** The registry in insertion order; a dictionary, so no name occurs twice. */
  predicate Distinct(codes: seq<Code>) { forall i, j | 0 <= i < j < |codes| :: codes[i].name != codes[j].name }

  function Table(codes: seq<Code>): map<string, Meta> {
    if codes == [] then map[] else Table(codes[..|codes| - 1])[codes[|codes| - 1].name := codes[|codes| - 1].meta]
  }

  datatype Row = Row(code: string, domain: string, retryable: string, description: string)

  // ---------------------------------------------------------------------------------------------
  // Rendering
  // ---------------------------------------------------------------------------------------------

  // The fixed texts are written in short pieces because their proofs go piece by piece: one lemma shows
  // that a piece holds no line break, another what the concatenation of two such pieces holds.
  const NOTE_SOURCE := "Auto-generated from " + "`roxabi_contracts.errors.KNOWN_CODES`."
  const NOTE_EDIT := "Do not edit by hand — run " + "`uv run python packages/" + "roxabi-contracts/scripts/"
                     + "check_codes_sync.py --write` " + "to regenerate."
  const NOTE_HOOK := "The pre-commit `codes-sync` " + "hook regenerates this file " + "automatically when "
                     + "`errors.py` changes."

  const PREAMBLE_LINES: seq<string> := [
    "# WorkerError code registry", "", "> " + NOTE_SOURCE, "> " + NOTE_EDIT, "> " + NOTE_HOOK, ""]

  const PREAMBLE := Join("\n", PREAMBLE_LINES)

  const POSTAMBLE_LINE := "See ADR-066 " + ("(absorbed into ADR-049) " + "for design rationale.")

  /** One domain and its codes, both in first-seen order. */
  datatype Group = Group(domain: string, codes: seq<Code>)

  /** `domains.setdefault(domain, []).append(...)`. */
  function AddTo(gs: seq<Group>, c: Code): seq<Group> {
    if gs == [] then [Group(c.meta.domain, [c])]
    else if gs[0].domain == c.meta.domain then [Group(gs[0].domain, gs[0].codes + [c])] + gs[1..]
    else [gs[0]] + AddTo(gs[1..], c)
  }

  function Groups(codes: seq<Code>): seq<Group> {
    if codes == [] then [] else AddTo(Groups(codes[..|codes| - 1]), codes[|codes| - 1])
  }

  function Flag(m: Meta): string { if m.retryable == Some(true) then "true" else "false" }

  function RowText(c: Code): string {
    "| " + (c.name + (" | " + (Flag(c.meta) + (" | " + (Strip(c.meta.description) + " |")))))
  }

  function RowTexts(cs: seq<Code>): seq<string> { seq(|cs|, i requires 0 <= i < |cs| => RowText(cs[i])) }

  // Cut after the characters that decide that neither line is a row: the second cell of the head starts
  // with `r`, so it is neither `true` nor `false`, and the rule has a `-` where a code would start.
  const TABLE_HEAD := "| " + ("code" + (" | " + ("r" + "etryable | description |")))
  const TABLE_RULE := "|-" + "-----|-----------|-------------|"

  function Section(g: Group): seq<string> {
    ["## " + (g.domain + ".*") + "\n", TABLE_HEAD, TABLE_RULE] + RowTexts(g.codes) + [""]
  }

  function SectionsOf(gs: seq<Group>): seq<string> {
    if gs == [] then [] else SectionsOf(gs[..|gs| - 1]) + Section(gs[|gs| - 1])
  }

  function Out(codes: seq<Code>): seq<string> {
    [PREAMBLE] + SectionsOf(Groups(codes)) + [POSTAMBLE_LINE + "\n"]
  }

  function Render(codes: seq<Code>): string { RStrip(Join("\n", Out(codes))) + "\n" }

  /** The lines of one domain, appended to what is there. */
  method EmitSection(g: Group, before: seq<string>) returns (out: seq<string>)
    ensures out == before + Section(g)
  {
    hide RowText;
    out := before + ["## " + (g.domain + ".*") + "\n"] + [TABLE_HEAD] + [TABLE_RULE];
    ghost var head := out;
    for j := 0 to |g.codes|
      invariant out == head + RowTexts(g.codes[..j])
    {
      assert RowTexts(g.codes[..j + 1]) == RowTexts(g.codes[..j]) + [RowText(g.codes[j])];
      out := out + [RowText(g.codes[j])];
    }
    assert g.codes[..|g.codes|] == g.codes;
    out := out + [""];
  }

  /** `_render_md`. */
  method RenderMd(codes: seq<Code>) returns (text: string)
    ensures text == Render(codes)
  {
    hide AddTo, RStrip, Join, Section;
    var gs: seq<Group> := [];
    for i := 0 to |codes|
      invariant gs == Groups(codes[..i])
    {
      assert codes[..i + 1][..i] == codes[..i];
      gs := AddTo(gs, codes[i]);
    }
    assert codes[..|codes|] == codes;
    var out := [PREAMBLE];
    for k := 0 to |gs|
      invariant out == [PREAMBLE] + SectionsOf(gs[..k])
    {
      assert gs[..k + 1][..k] == gs[..k];
      out := EmitSection(gs[k], out);
    }
    assert gs[..|gs|] == gs;
    out := out + [POSTAMBLE_LINE + "\n"];
    text := RStrip(Join("\n", out)) + "\n";
  }

  // ---------------------------------------------------------------------------------------------
  // Parsing
  // ---------------------------------------------------------------------------------------------

  predicate CodeChar(c: char) { IsLower(c) || IsDigit(c) || c == '_' || c == '.' }

  function CodeLen(s: string): (n: nat)
    ensures n <= |s| && (forall k | 0 <= k < n :: CodeChar(s[k])) && (n < |s| ==> !CodeChar(s[n]))
  {
    if s != "" && CodeChar(s[0]) then 1 + CodeLen(s[1..]) else 0
  }

  function WordLen(s: string): (n: nat)
    ensures n <= |s| && (forall k | 0 <= k < n :: !IsSpace(s[k])) && (n < |s| ==> IsSpace(s[n]))
  {
    if s != "" && !IsSpace(s[0]) then 1 + WordLen(s[1..]) else 0
  }

  function RemoveSuffix(s: string, suffix: string): string {
    if EndsWith(s, suffix) then s[..|s| - |suffix|] else s
  }

  /** `^##\s+(\S+)`, without the glob suffix. */
  function HeadingOf(line: string): Option<string> {
    if !StartsWith(line, "##") || |line| == 2 || !IsSpace(line[2]) || LStrip(line[2..]) == "" then None
    else Some(RemoveSuffix(LStrip(line[2..])[..WordLen(LStrip(line[2..]))], ".*"))
  }

  /** The cell separator `\s*\|\s*` at the start of `s`. */
  function AfterPipe(s: string): Option<string> {
    if LStrip(s) != "" && LStrip(s)[0] == '|' then Some(LStrip(LStrip(s)[1..])) else None
  }

  /** `(.*?)\s*\|$`: what stands before the closing pipe. */
  function LastCell(s: string): Option<string> {
    if s != "" && s[|s| - 1] == '|' then Some(Strip(s[..|s| - 1])) else None
  }

  function FlagLen(s: string): nat { if StartsWith(s, "true") then 4 else if StartsWith(s, "false") then 5 else 0 }

  /** `^\|\s*([a-z][a-z0-9_.]*)\s*\|\s*(true|false)\s*\|\s*(.*?)\s*\|$`. */
  function RowOf(line: string, domain: string): Option<Row> {
    if line == "" || line[0] != '|' then None
    else
      var a := LStrip(line[1..]);
      if a == "" || !IsLower(a[0]) then None
      else
        var b := AfterPipe(a[CodeLen(a)..]);
        if b.None? || FlagLen(b.value) == 0 || |b.value| < FlagLen(b.value) then None
        else
          var c := AfterPipe(b.value[FlagLen(b.value)..]);
          if c.None? || LastCell(c.value).None? then None
          else Some(Row(a[..CodeLen(a)], domain, b.value[..FlagLen(b.value)], LastCell(c.value).value))
  }

  function ParseRows(lines: seq<string>, domain: string): seq<Row> {
    if lines == [] then []
    else if HeadingOf(lines[0]).Some? then ParseRows(lines[1..], HeadingOf(lines[0]).value)
    else if RowOf(lines[0], domain).Some? then [RowOf(lines[0], domain).value] + ParseRows(lines[1..], domain)
    else ParseRows(lines[1..], domain)
  }

  function Parse(text: string): seq<Row> { ParseRows(SplitLines(text), "") }

  /** `_parse_md`. */
  method ParseMd(text: string) returns (rows: seq<Row>)
    ensures rows == Parse(text)
  {
    hide HeadingOf, RowOf, SplitLines;
    rows := [];
    var currentDomain := "";
    var lines := SplitLines(text);
    assert lines[0..] == lines;
    for i := 0 to |lines|
      invariant rows + ParseRows(lines[i..], currentDomain) == ParseRows(lines, "")
    {
      assert lines[i..][0] == lines[i] && lines[i..][1..] == lines[i + 1..];
      var heading := HeadingOf(lines[i]);
      if heading.Some? {
        currentDomain := heading.value;
        continue;
      }
      var row := RowOf(lines[i], currentDomain);
      if row.Some? {
        ConcatAssoc(rows, [row.value], ParseRows(lines[i + 1..], currentDomain));
        rows := rows + [row.value];
      }
    }
  }

  // ---------------------------------------------------------------------------------------------
  // Comparing
  // ---------------------------------------------------------------------------------------------

  datatype Field = Domain | Retryable | Description

  datatype Issue = Duplicate(code: string) | OnlyInPython(code: string) | OnlyInMd(code: string)
                 | Mismatch(code: string, field: Field)

  predicate FieldDiffers(m: Meta, r: Row, f: Field) {
    match f
    case Domain => m.domain != r.domain
    case Retryable => m.retryable.Some? && m.retryable.value != (r.retryable == "true")
    case Description => Strip(m.description) != r.description
  }

  /** `md_map`: the last row of each code. */
  function RowMap(rows: seq<Row>): map<string, Row> {
    if rows == [] then map[] else RowMap(rows[..|rows| - 1])[rows[|rows| - 1].code := rows[|rows| - 1]]
  }

  predicate Twice(rows: seq<Row>, c: string) {
    exists j, k :: 0 <= j < k < |rows| && rows[j].code == c && rows[k].code == c
  }

  /** What is reported, read off the table and the rows. */
  predicate Reported(codes: map<string, Meta>, rows: seq<Row>, i: Issue) {
    match i
    case Duplicate(c) => Twice(rows, c)
    case OnlyInPython(c) => c in codes && c !in RowMap(rows)
    case OnlyInMd(c) => c !in codes && c in RowMap(rows)
    case Mismatch(c, f) => c in codes && c in RowMap(rows) && FieldDiffers(codes[c], RowMap(rows)[c], f)
  }

  /** The row says of the code what the registry says; without a retryable attribute the row may say anything there. */
  predicate Agrees(m: Meta, r: Row) {
    && r.domain == m.domain && r.description == Strip(m.description)
    && (m.retryable == Some(true) ==> r.retryable == "true") && (m.retryable == Some(false) ==> r.retryable != "true")
  }

  lemma AgreesMeaning(m: Meta, r: Row)
    ensures Agrees(m, r) <==> forall f :: !FieldDiffers(m, r, f)
  {
    assert Agrees(m, r) <==> !FieldDiffers(m, r, Domain) && !FieldDiffers(m, r, Retryable) && !FieldDiffers(m, r, Description);
  }

  /** Every listed row is a code with its fields, no code is listed twice, and none is missing. */
  predicate InSync(codes: map<string, Meta>, rows: seq<Row>) {
    && (forall j, k | 0 <= j < k < |rows| :: rows[j].code != rows[k].code)
    && (forall r | r in rows :: r.code in codes && Agrees(codes[r.code], r))
    && (forall c | c in codes :: exists r :: r in rows && r.code == c)
  }

  lemma {:induction false} RowMapHas(rows: seq<Row>)
    ensures forall c :: c in RowMap(rows) <==> exists r :: r in rows && r.code == c
    ensures forall c | c in RowMap(rows) :: RowMap(rows)[c] in rows && RowMap(rows)[c].code == c
  {
    if rows != [] {
      var n := |rows| - 1;
      RowMapHas(rows[..n]);
      assert rows == rows[..n] + [rows[n]];
      assert rows[n] in rows;
      assert forall r :: r in rows <==> r in rows[..n] || r == rows[n];
    }
  }

  /** The codes of the rows whose code an earlier row has, in row order. */
  function Repeats(rows: seq<Row>): seq<string> {
    if rows == [] then []
    else
      var n := |rows| - 1;
      Repeats(rows[..n]) + if exists r | r in rows[..n] :: r.code == rows[n].code then [rows[n].code] else []
  }

  lemma {:induction false} RepeatsAreTwice(rows: seq<Row>)
    ensures forall c :: c in Repeats(rows) <==> Twice(rows, c)
  {
    if rows != [] {
      var n := |rows| - 1;
      RepeatsAreTwice(rows[..n]);
      hide Repeats;
      forall c
        ensures Twice(rows, c) <==> Twice(rows[..n], c) || (c == rows[n].code && exists r | r in rows[..n] :: r.code == c)
      {
        TwiceSnoc(rows, n, c);
      }
    }
  }

  lemma TwiceSnoc(rows: seq<Row>, n: nat, c: string)
    requires |rows| == n + 1
    ensures Twice(rows, c) <==> Twice(rows[..n], c) || (c == rows[n].code && exists r | r in rows[..n] :: r.code == c)
  {
    if r :| r in rows[..n] && r.code == c && c == rows[n].code {
      var j :| 0 <= j < n && rows[..n][j] == r;
      assert rows[j].code == c && rows[n].code == c;
    }
    if Twice(rows, c) {
      var j, k :| 0 <= j < k < |rows| && rows[j].code == c && rows[k].code == c;
      assert rows[..n][j].code == c && rows[..n][j] in rows[..n];
      assert k < n ==> rows[..n][k].code == c;
    }
    if j, k :| 0 <= j < k < n && rows[..n][j].code == c && rows[..n][k].code == c {
      assert rows[j].code == c && rows[k].code == c;
    }
  }

  /** The index over the rows, and the codes listed again. */
  method IndexRows(rows: seq<Row>) returns (mdMap: map<string, Row>, duplicates: seq<string>)
    ensures mdMap == RowMap(rows) && duplicates == Repeats(rows)
  {
    mdMap, duplicates := map[], [];
    for i := 0 to |rows|
      invariant mdMap == RowMap(rows[..i]) && duplicates == Repeats(rows[..i])
    {
      assert rows[..i + 1][..i] == rows[..i];
      SeenBefore(rows, i);
      hide RowMap;
      if rows[i].code in mdMap {
        duplicates := duplicates + [rows[i].code];
      }
      mdMap := mdMap[rows[i].code := rows[i]];
    }
    assert rows[..|rows|] == rows;
  }

  lemma SeenBefore(rows: seq<Row>, i: nat)
    requires i < |rows|
    ensures rows[i].code in RowMap(rows[..i]) <==> exists r | r in rows[..i] :: r.code == rows[i].code
    ensures RowMap(rows[..i + 1]) == RowMap(rows[..i])[rows[i].code := rows[i]]
  {
    RowMapHas(rows[..i]);
    hide RowMap;
    assert rows[..i + 1][..i] == rows[..i];
    RowMapSnoc(rows[..i], rows[i], rows[..i + 1]);
  }

  lemma RowMapSnoc(rows: seq<Row>, r: Row, all: seq<Row>)
    requires all == rows + [r]
    ensures RowMap(all) == RowMap(rows)[r.code := r]
  {
    assert all[..|rows|] == rows;
  }

  // ---------------------------------------------------------------------------------------------
  // The order of the messages
  // ---------------------------------------------------------------------------------------------

  function Kind(i: Issue): nat {
    match i
    case Duplicate(_) => 0
    case OnlyInPython(_) => 1
    case OnlyInMd(_) => 2
    case Mismatch(_, _) => 3
  }

  function Place(i: Issue): nat {
    match i
    case Mismatch(_, Domain) => 0
    case Mismatch(_, Retryable) => 1
    case _ => 2
  }

  /** By kind, then by code, then by field. */
  predicate Precedes(i: Issue, j: Issue) {
    Kind(i) < Kind(j) || (Kind(i) == Kind(j) && (Less(i.code, j.code) || (i.code == j.code && Place(i) < Place(j))))
  }

  predicate InOrder(issues: seq<Issue>) { forall a, b | 0 <= a < b < |issues| :: Precedes(issues[a], issues[b]) }

  function Duplicates(codes: seq<string>): seq<Issue> { seq(|codes|, k requires 0 <= k < |codes| => Duplicate(codes[k])) }

  lemma DuplicatesHas(codes: seq<string>, i: Issue)
    ensures i in Duplicates(codes) <==> i.Duplicate? && i.code in codes
  {
    if i.Duplicate? && i.code in codes {
      var k :| 0 <= k < |codes| && codes[k] == i.code;
      assert Duplicates(codes)[k] == i;
    }
  }

  lemma InOrderConcat(a: seq<Issue>, b: seq<Issue>)
    requires InOrder(a) && InOrder(b) && forall i, j | i in a && j in b :: Precedes(i, j)
    ensures InOrder(a + b)
  {
    hide Precedes;
  }

  lemma PrecedesAsymmetric(i: Issue, j: Issue)
    requires Precedes(i, j)
    ensures !Precedes(j, i) && i != j
  {
    LessTotal(i.code, j.code);
    hide Less;
  }

  lemma {:induction false} OneList(a: seq<Issue>, b: seq<Issue>)
    requires InOrder(a) && InOrder(b) && forall i :: i in a <==> i in b
    ensures a == b
  {
    hide Precedes;
    assert (a == [] || a[0] in a) && (b == [] || b[0] in b);
    if a != [] && b != [] {
      SameHead(a, b);
      forall i
        ensures i in a[1..] <==> i in b[1..]
      {
        NotAgain(a, i);
        NotAgain(b, i);
      }
      OneList(a[1..], b[1..]);
      assert a == [a[0]] + a[1..] && b == [b[0]] + b[1..];
    }
  }

  lemma SameHead(a: seq<Issue>, b: seq<Issue>)
    requires InOrder(a) && InOrder(b) && a != [] && b != [] && a[0] in b && b[0] in a
    ensures a[0] == b[0]
  {
    hide Precedes;
    if a[0] != b[0] {
      PrecedesAsymmetric(a[0], b[0]);
      assert false;
    }
  }

  lemma NotAgain(a: seq<Issue>, i: Issue)
    requires InOrder(a) && a != []
    ensures i in a[1..] <==> i in a && i != a[0]
  {
    hide Precedes;
    if i in a[1..] {
      PrecedesAsymmetric(a[0], i);
    }
  }

  lemma Following(issues: seq<Issue>, j: Issue)
    requires InOrder(issues) && forall i | i in issues :: Precedes(i, j)
    ensures InOrder(issues + [j])
  {
    hide Precedes;
  }

  lemma FieldOrder(code: string)
    ensures Precedes(Mismatch(code, Domain), Mismatch(code, Retryable))
    ensures Precedes(Mismatch(code, Domain), Mismatch(code, Description))
    ensures Precedes(Mismatch(code, Retryable), Mismatch(code, Description))
  {
    hide Less;
  }

  /** The field checks of one code that is on both sides. */
  method CheckFields(code: string, m: Meta, r: Row) returns (issues: seq<Issue>)
    ensures InOrder(issues)
    ensures forall i :: i in issues <==> i.Mismatch? && i.code == code && FieldDiffers(m, r, i.field)
    ensures Mismatch(code, Domain) in issues <==> r.domain != m.domain
    ensures Mismatch(code, Retryable) in issues <==> m.retryable.Some? && m.retryable != Some(r.retryable == "true")
    ensures Mismatch(code, Description) in issues <==> r.description != Strip(m.description)
  {
    FieldOrder(code);
    issues := [];
    assert InOrder(issues);
    hide Precedes, InOrder;
    if m.domain != r.domain {
      Following(issues, Mismatch(code, Domain));
      issues := issues + [Mismatch(code, Domain)];
    }
    if m.retryable.Some? && m.retryable.value != (r.retryable == "true") {
      Following(issues, Mismatch(code, Retryable));
      issues := issues + [Mismatch(code, Retryable)];
    }
    if Strip(m.description) != r.description {
      Following(issues, Mismatch(code, Description));
      issues := issues + [Mismatch(code, Description)];
    }
    forall i: Issue | i.Mismatch? && i.code == code && FieldDiffers(m, r, i.field)
      ensures i in issues
    {
      match i.field
      case Domain => assert i == Mismatch(code, Domain);
      case Retryable => assert i == Mismatch(code, Retryable);
      case Description => assert i == Mismatch(code, Description);
    }
  }

  /** The loop over the codes of one side only. */
  method OneSided(codes: seq<string>, inPython: bool) returns (issues: seq<Issue>)
    requires Ascending(codes)
    ensures InOrder(issues)
    ensures forall i :: i in issues <==> (if inPython then i.OnlyInPython? else i.OnlyInMd?) && i.code in codes
  {
    hide Less;
    issues := [];
    for k := 0 to |codes|
      invariant InOrder(issues)
      invariant forall i :: i in issues <==> (if inPython then i.OnlyInPython? else i.OnlyInMd?) && i.code in codes[..k]
    {
      assert codes[..k + 1] == codes[..k] + [codes[k]];
      var issue := if inPython then OnlyInPython(codes[k]) else OnlyInMd(codes[k]);
      Following(issues, issue);
      issues := issues + [issue];
    }
    assert codes[..|codes|] == codes;
  }

  /** The loop over the codes of both sides. */
  method FieldIssues(codes: map<string, Meta>, mdMap: map<string, Row>, both: seq<string>) returns (issues: seq<Issue>)
    requires Ascending(both) && forall c | c in both :: c in codes && c in mdMap
    ensures InOrder(issues)
    ensures forall i :: i in issues <==> i.Mismatch? && i.code in both && FieldDiffers(codes[i.code], mdMap[i.code], i.field)
  {
    hide Less, FieldDiffers;
    issues := [];
    for k := 0 to |both|
      invariant InOrder(issues)
      invariant forall i :: i in issues
                  <==> i.Mismatch? && i.code in both[..k] && i.code in both && FieldDiffers(codes[i.code], mdMap[i.code], i.field)
    {
      var code := both[k];
      var fields := CheckFields(code, codes[code], mdMap[code]);
      assert both[..k + 1] == both[..k] + [code];
      InOrderConcat(issues, fields);
      issues := issues + fields;
    }
    assert both[..|both|] == both;
  }

  /** What follows the duplicates: in order, and exactly what is reported. */
  ghost predicate Rest(codes: map<string, Meta>, rows: seq<Row>, issues: seq<Issue>) {
    InOrder(issues) && forall i :: i in issues <==> !i.Duplicate? && Reported(codes, rows, i)
  }

  /** The codes listed again in row order, then everything else that is reported, in order. */
  ghost predicate Report(codes: map<string, Meta>, rows: seq<Row>, issues: seq<Issue>) {
    var n := |Repeats(rows)|;
    n <= |issues| && issues[..n] == Duplicates(Repeats(rows)) && Rest(codes, rows, issues[n..])
  }

  /** That leaves one list. */
  lemma OneReport(codes: map<string, Meta>, rows: seq<Row>, a: seq<Issue>, b: seq<Issue>)
    requires Report(codes, rows, a) && Report(codes, rows, b)
    ensures a == b
  {
    hide InOrder, Reported, Repeats, Duplicates;
    var n := |Repeats(rows)|;
    OneList(a[n..], b[n..]);
    assert a == a[..n] + a[n..] && b == b[..n] + b[n..];
  }

  /** `_compare`. */
  method Compare(codes: map<string, Meta>, rows: seq<Row>) returns (issues: seq<Issue>)
    ensures Report(codes, rows, issues)
    ensures forall i :: i in issues <==> Reported(codes, rows, i)
  {
    hide FieldDiffers, RowMap, Less, Repeats;
    var mdMap, duplicates := IndexRows(rows);
    RepeatsAreTwice(rows);
    var onlyPython := SortedList(codes.Keys - mdMap.Keys);
    var onlyMd := SortedList(mdMap.Keys - codes.Keys);
    var both := SortedList(codes.Keys * mdMap.Keys);
    issues := [];
    for k := 0 to |duplicates|
      invariant issues == Duplicates(duplicates[..k])
    {
      issues := issues + [Duplicate(duplicates[k])];
    }
    assert duplicates[..|duplicates|] == duplicates;
    var pys := OneSided(onlyPython, true);
    var mds := OneSided(onlyMd, false);
    var fields := FieldIssues(codes, mdMap, both);
    InOrderConcat(pys, mds);
    InOrderConcat(pys + mds, fields);
    forall i: Issue
      ensures i in issues <==> i.Duplicate? && i.code in duplicates
    {
      DuplicatesHas(duplicates, i);
    }
    issues := issues + (pys + mds + fields);
  }
}

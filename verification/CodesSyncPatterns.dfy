/** What the heading and row patterns of the registry table accept, without the scanner that runs them. */
module CodesSyncPatterns {
  import opened Text
  import opened TextLines
  import opened CodesSync
  import opened CodesSyncTheorems

  // ---------------------------------------------------------------------------------------------
  // Headings
  // ---------------------------------------------------------------------------------------------

  predicate NoSpace(w: string) { forall k | 0 <= k < |w| :: !IsSpace(w[k]) }

  /** Two hashes, white space, and a word that is the domain, with or without the glob. */
  predicate HeadingParts(line: string, domain: string, gap: string, word: string, rest: string) {
    && gap != "" && AllSpace(gap) && word != "" && NoSpace(word) && (rest == "" || IsSpace(rest[0]))
    && line == "##" + (gap + (word + rest))
    && (word == domain + ".*" || (word == domain && !EndsWith(domain, ".*")))
  }

  ghost predicate HeadingLine(line: string, domain: string) {
    exists gap, word, rest :: HeadingParts(line, domain, gap, word, rest)
  }

  lemma GlobOff(word: string, domain: string)
    ensures RemoveSuffix(word, ".*") == domain <==> word == domain + ".*" || (word == domain && !EndsWith(domain, ".*"))
  {
    if EndsWith(word, ".*") {
      assert word == word[..|word| - 2] + ".*";
    }
    assert (domain + ".*")[|domain|..] == ".*" && (domain + ".*")[..|domain|] == domain;
  }

  /** A line is a heading of this domain exactly when it has that form. */
  lemma HeadingExactly(line: string, domain: string)
    ensures HeadingOf(line) == Some(domain) <==> HeadingLine(line, domain)
  {
    if HeadingOf(line) == Some(domain) {
      HeadingIsLine(line, domain);
    }
    if HeadingLine(line, domain) {
      var gap, word, rest :| HeadingParts(line, domain, gap, word, rest);
      LineIsHeading(line, domain, gap, word, rest);
    }
  }

  lemma HeadingIsLine(line: string, domain: string)
    requires HeadingOf(line) == Some(domain)
    ensures HeadingLine(line, domain)
  {
    hide IsSpace, LStrip, EndsWith, RemoveSuffix;
    var text := LStrip(line[2..]);
    var gap := LStripRest(line[2..]);
    var n := WordLen(text);
    var word, rest := text[..n], text[n..];
    GlobOff(word, domain);
    assert text == word + rest && line[2] == line[2..][0];
    assert forall k | 0 <= k < n :: word[k] == text[k];
    assert rest != "" ==> rest[0] == text[n];
    assert line == line[..2] + line[2..];
    assert HeadingParts(line, domain, gap, word, rest);
  }

  lemma LineIsHeading(line: string, domain: string, gap: string, word: string, rest: string)
    requires HeadingParts(line, domain, gap, word, rest)
    ensures HeadingOf(line) == Some(domain)
  {
    hide IsSpace, LStrip, EndsWith, RemoveSuffix, WordLen;
    assert line[..2] == "##" && line[2..] == gap + (word + rest) && line[2] == gap[0];
    LStripGap(gap, word + rest);
    WordLenAll(word, rest);
    assert (word + rest)[..|word|] == word;
    GlobOff(word, domain);
  }

  // ---------------------------------------------------------------------------------------------
  // Rows
  // ---------------------------------------------------------------------------------------------

  predicate CodeName(code: string) {
    && code != "" && 'a' <= code[0] <= 'z'
    && forall k | 0 <= k < |code| :: 'a' <= code[k] <= 'z' || '0' <= code[k] <= '9' || code[k] == '_' || code[k] == '.'
  }

  /** Three cells between pipes: a code, a flag, and anything, each with white space around it. */
  predicate RowParts(line: string, row: Row, a: string, b: string, c: string, d: string, cell: string) {
    && AllSpace(a) && AllSpace(b) && AllSpace(c) && AllSpace(d) && CodeName(row.code)
    && (row.retryable == "true" || row.retryable == "false") && row.description == Strip(cell)
    && line == "|" + (a + (row.code + (b + ("|" + (c + (row.retryable + (d + ("|" + (cell + "|")))))))))
  }

  ghost predicate RowLine(line: string, row: Row) { exists a, b, c, d, cell :: RowParts(line, row, a, b, c, d, cell) }

  lemma PipeAhead(gap: string, r: string)
    requires AllSpace(gap)
    ensures AfterPipe(gap + ("|" + r)) == Some(LStrip(r))
  {
    LStripGap(gap, "|" + r);
    hide IsSpace, LStrip;
    assert ("|" + r)[1..] == r;
  }

  lemma PipeFound(s: string) returns (gap: string, r: string)
    requires AfterPipe(s).Some?
    ensures AllSpace(gap) && s == gap + ("|" + r) && AfterPipe(s).value == LStrip(r)
  {
    hide IsSpace, LStrip;
    gap := LStripRest(s);
    r := LStrip(s)[1..];
    assert LStrip(s) == "|" + r;
  }

  lemma {:induction false} LastCellStrips(cell: string)
    ensures LastCell(LStrip(cell + "|")) == Some(Strip(cell))
  {
    var s := cell + "|";
    if cell == "" {
      assert s == "|" && "|"[..0] == "";
    } else if IsSpace(cell[0]) {
      assert s[1..] == cell[1..] + "|" && cell == [cell[0]] + cell[1..];
      LastCellStrips(cell[1..]);
      StripLeft(cell[0], cell[1..]);
    } else {
      assert s[..|s| - 1] == cell;
    }
  }

  lemma CellFound(r: string) returns (cell: string)
    requires LastCell(LStrip(r)).Some?
    ensures r == cell + "|" && LastCell(LStrip(r)).value == Strip(cell)
  {
    var gap := LStripRest(r);
    hide LStrip, Strip;
    assert r[|r| - 1] == LStrip(r)[|LStrip(r)| - 1];
    cell := r[..|r| - 1];
    assert r == cell + "|";
    LastCellStrips(cell);
  }

  lemma GapThenPipe(gap: string, r: string)
    requires AllSpace(gap)
    ensures gap + ("|" + r) != "" && !CodeChar((gap + ("|" + r))[0])
  {
    assert (gap + ("|" + r))[0] == if gap == "" then '|' else gap[0];
  }

  lemma FlagAhead(flag: string, s: string)
    requires flag == "true" || flag == "false"
    ensures FlagLen(flag + s) == |flag| && (flag + s)[|flag|..] == s && (flag + s)[..|flag|] == flag && !IsSpace((flag + s)[0])
  {
    assert (flag + s)[..|flag|] == flag && (flag + s)[0] == flag[0];
    assert "true"[0] == 't' && "false"[0] == 'f';
    if flag == "false" {
      assert !StartsWith(flag + s, "true") by {
        assert |flag + s| >= 4 ==> (flag + s)[..4][0] == 'f';
      }
    }
  }

  /** A line is this row exactly when it has that form. */
  lemma RowExactly(line: string, domain: string, row: Row)
    ensures RowOf(line, domain) == Some(row) <==> row.domain == domain && RowLine(line, row)
  {
    hide RowOf, RowLine;
    if RowOf(line, domain) == Some(row) {
      RowIsLine(line, domain, row);
    }
    if row.domain == domain && RowLine(line, row) {
      LineIsRow(line, row);
    }
  }

  lemma LineIsRow(line: string, row: Row)
    requires RowLine(line, row)
    ensures RowOf(line, row.domain) == Some(row)
  {
    var a, b, c, d, cell :| RowParts(line, row, a, b, c, d, cell);
    var flagOn := row.retryable + (d + ("|" + (cell + "|")));
    FlagReadsOn(row.retryable, d, cell);
    CodeReadsOn(row.code, b, c, flagOn);
    hide IsSpace, IsLower, LStrip, Strip, CodeLen, AllSpace, CodeName, AfterPipe, LastCell, FlagLen, RowOf;
    LineFrom(line, row, a, row.code + (b + ("|" + (c + flagOn))), flagOn, cell);
  }

  lemma FlagReadsOn(flag: string, d: string, cell: string)
    requires AllSpace(d) && (flag == "true" || flag == "false")
    ensures var s := flag + (d + ("|" + (cell + "|")));
            && s != "" && !IsSpace(s[0]) && FlagLen(s) == |flag| && s[..|flag|] == flag
            && AfterPipe(s[|flag|..]) == Some(LStrip(cell + "|")) && LastCell(LStrip(cell + "|")) == Some(Strip(cell))
  {
    FlagAhead(flag, d + ("|" + (cell + "|")));
    PipeAhead(d, cell + "|");
    LastCellStrips(cell);
    hide *;
  }

  lemma CodeReadsOn(code: string, b: string, c: string, flagOn: string)
    requires CodeName(code) && AllSpace(b) && AllSpace(c) && flagOn != "" && !IsSpace(flagOn[0])
    ensures var s := code + (b + ("|" + (c + flagOn)));
            && s != "" && IsLower(s[0]) && !IsSpace(s[0]) && CodeLen(s) == |code| && s[..|code|] == code
            && AfterPipe(s[|code|..]) == Some(flagOn)
  {
    GapThenPipe(b, c + flagOn);
    CodeStart(code, b + ("|" + (c + flagOn)));
    PipeAhead(b, c + flagOn);
    LStripGap(c, flagOn);
    hide *;
  }

  lemma LineFrom(line: string, row: Row, a: string, text: string, flagOn: string, cell: string)
    requires line == "|" + (a + text) && AllSpace(a) && text != "" && IsLower(text[0]) && !IsSpace(text[0])
    requires CodeLen(text) == |row.code| && text[..|row.code|] == row.code && AfterPipe(text[|row.code|..]) == Some(flagOn)
    requires FlagLen(flagOn) == |row.retryable| <= |flagOn| && flagOn[..|row.retryable|] == row.retryable && row.retryable != ""
    requires AfterPipe(flagOn[|row.retryable|..]) == Some(LStrip(cell + "|"))
    requires LastCell(LStrip(cell + "|")) == Some(row.description)
    ensures RowOf(line, row.domain) == Some(row)
  {
    hide *;
    assert line[0] == '|' && line[1..] == a + text;
    LStripGap(a, text);
    RowUnfolds(line, row.domain, text, flagOn, LStrip(cell + "|"), row.description);
  }

  lemma CodeStart(code: string, rest: string)
    requires CodeName(code) && rest != "" && !CodeChar(rest[0])
    ensures CodeLen(code + rest) == |code|
    ensures code + rest != "" && IsLower((code + rest)[0]) && !IsSpace((code + rest)[0])
    ensures (code + rest)[..|code|] == code && (code + rest)[|code|..] == rest
  {
    assert (code + rest)[0] == code[0];
    CodeLenAll(code, rest);
  }

  lemma RowUnfolds(line: string, domain: string, a: string, b: string, c: string, description: string)
    requires line != "" && line[0] == '|' && a == LStrip(line[1..]) && a != "" && IsLower(a[0])
    requires AfterPipe(a[CodeLen(a)..]) == Some(b) && 0 < FlagLen(b) <= |b|
    requires AfterPipe(b[FlagLen(b)..]) == Some(c) && LastCell(c) == Some(description)
    ensures RowOf(line, domain) == Some(Row(a[..CodeLen(a)], domain, b[..FlagLen(b)], description))
  {
    hide LStrip, AfterPipe, LastCell, FlagLen, CodeLen;
  }

  lemma RowIsLine(line: string, domain: string, row: Row)
    requires RowOf(line, domain) == Some(row)
    ensures row.domain == domain && RowLine(line, row)
  {
    hide IsSpace, LStrip, Strip, CodeLen, AllSpace, AfterPipe, LastCell, FlagLen;
    var text := LStrip(line[1..]);
    var a := LStripRest(line[1..]);
    var n := CodeLen(text);
    var b, r := PipeFound(text[n..]);
    var c := LStripRest(r);
    var flagged := LStrip(r);
    var k := FlagLen(flagged);
    FlagIs(flagged);
    var d, s := PipeFound(flagged[k..]);
    var cell := CellFound(s);
    assert text == row.code + text[n..] && flagged == row.retryable + flagged[k..] && line == "|" + line[1..];
    CodeIs(text);
    assert RowParts(line, row, a, b, c, d, cell);
  }

  lemma FlagIs(s: string)
    requires FlagLen(s) != 0
    ensures FlagLen(s) <= |s| && (s[..FlagLen(s)] == "true" || s[..FlagLen(s)] == "false")
  {
  }

  lemma CodeIs(s: string)
    requires s != "" && IsLower(s[0])
    ensures CodeName(s[..CodeLen(s)])
  {
    assert CodeChar(s[0]);
  }
}

/** Canonicalising a soul document. */
module SoulTheorems {
  import opened Text
  import opened TextLines
  import opened Soul

  // ---------------------------------------------------------------------------------------------
  // What the parser answers, read off the lines
  // ---------------------------------------------------------------------------------------------

  /** A header line: two hashes, at least one space, and a word, with spaces around. */
  lemma HeaderMeaning(word: set<char>, line: string, name: string)
    requires WordClass(word)
    ensures HeaderOf(word, line) == Some(name)
            <==> name != "" && (forall c | c in name :: c in word)
                 && exists gap :: gap != "" && AllSpace(gap) && Strip(line) == "##" + gap + name
  {
    var t := Strip(line);
    hide Strip, LStrip;
    if HeaderOf(word, line) == Some(name) {
      var gap := LStripRest(t[2..]);
      assert t == "##" + t[2..];
      assert t[2..] == gap + name;
      assert name[0] in name && t[2] == t[2..][0];
      assert gap != "";
      assert t == "##" + gap + name;
    }
    if name != "" && (forall c | c in name :: c in word)
       && exists gap :: gap != "" && AllSpace(gap) && t == "##" + gap + name
    {
      var gap :| gap != "" && AllSpace(gap) && t == "##" + gap + name;
      assert t[..2] == "##" && t[2..] == gap + name && t[2] == gap[0] && gap[0] in gap;
      assert name[0] in name;
      LStripGap(gap, name);
    }
  }

  /** The line is a header of a section there is none of. */
  predicate Unknown(word: set<char>, l: string) { HeaderOf(word, l).Some? && HeaderOf(word, l).value !in ORDER }

  lemma {:induction false} RefusedFrom(word: set<char>, lines: seq<string>, st: Reading)
    ensures ParseFrom(word, lines, st).None? <==> exists l :: l in lines && Unknown(word, l)
  {
    hide HeaderOf, Flush, ORDER;
    if lines != [] {
      var h := HeaderOf(word, lines[0]);
      assert forall l :: l in lines <==> l == lines[0] || l in lines[1..];
      if Unknown(word, lines[0]) {
        assert lines[0] in lines;
      } else if h.Some? {
        RefusedFrom(word, lines[1..], Reading(Some(h.value), [], Flush(st)));
      } else {
        RefusedFrom(word, lines[1..], if st.current.Some? then st.(buf := st.buf + [lines[0]]) else st);
      }
    }
  }

  /** A document is refused exactly if some line of it is a header of an unknown section; a blank one never is. */
  lemma ParseRefuses(word: set<char>, markdown: string)
    ensures Parse(word, markdown).None? <==> Strip(markdown) != "" && exists l :: l in SplitLines(markdown) && Unknown(word, l)
    ensures Strip(markdown) == "" ==> Parse(word, markdown) == Some(map[])
  {
    hide ParseFrom, SplitLines, Strip, Unknown;
    RefusedFrom(word, SplitLines(markdown), START);
  }

  lemma {:induction false} NamesFrom(word: set<char>, lines: seq<string>, st: Reading, name: string)
    requires ParseFrom(word, lines, st).Some?
    ensures name in ParseFrom(word, lines, st).value
            <==> name in st.sections || st.current == Some(name) || exists l :: l in lines && HeaderOf(word, l) == Some(name)
  {
    hide HeaderOf, Strip, Join;
    if lines != [] {
      var h := HeaderOf(word, lines[0]);
      assert forall l :: l in lines <==> l == lines[0] || l in lines[1..];
      if h.Some? {
        NamesFrom(word, lines[1..], Reading(Some(h.value), [], Flush(st)), name);
      } else {
        NamesFrom(word, lines[1..], if st.current.Some? then st.(buf := st.buf + [lines[0]]) else st, name);
      }
    }
  }

  /** The sections are those some line is the header of. */
  lemma SectionNames(word: set<char>, markdown: string, name: string)
    requires Parse(word, markdown).Some? && Strip(markdown) != ""
    ensures name in Parse(word, markdown).value <==> exists l :: l in SplitLines(markdown) && HeaderOf(word, l) == Some(name)
  {
    hide ParseFrom, SplitLines, Strip, HeaderOf;
    NamesFrom(word, SplitLines(markdown), START, name);
  }

  /** Line `i` is the last header of the section. */
  predicate LastHeader(word: set<char>, lines: seq<string>, name: string, i: nat) {
    i < |lines| && HeaderOf(word, lines[i]) == Some(name) && forall k | i < k < |lines| :: HeaderOf(word, lines[k]) != Some(name)
  }

  /** Line `j` is the next header after line `i`, or the end. */
  predicate NextHeader(word: set<char>, lines: seq<string>, i: nat, j: nat) {
    i < j <= |lines| && (forall k | i < k < j :: HeaderOf(word, lines[k]) == None) && (j < |lines| ==> HeaderOf(word, lines[j]).Some?)
  }

  /** Lines that are no header of the section leave it as it is, unless it is being read. */
  lemma {:induction false} SectionUntouched(word: set<char>, lines: seq<string>, st: Reading, name: string)
    requires ParseFrom(word, lines, st).Some? && st.current != Some(name) && name in st.sections
    requires forall l | l in lines :: HeaderOf(word, l) != Some(name)
    ensures name in ParseFrom(word, lines, st).value && ParseFrom(word, lines, st).value[name] == st.sections[name]
  {
    hide HeaderOf, Strip, Join;
    if lines != [] {
      var h := HeaderOf(word, lines[0]);
      assert lines[0] in lines;
      if h.Some? {
        SectionUntouched(word, lines[1..], Reading(Some(h.value), [], Flush(st)), name);
      } else {
        SectionUntouched(word, lines[1..], if st.current.Some? then st.(buf := st.buf + [lines[0]]) else st, name);
      }
    }
  }

  /** The section being read ends at the next header. */
  lemma {:induction false} SectionRead(word: set<char>, lines: seq<string>, st: Reading, name: string, j: nat)
    requires ParseFrom(word, lines, st).Some? && st.current == Some(name) && j <= |lines|
    requires forall l | l in lines :: HeaderOf(word, l) != Some(name)
    requires (forall k | 0 <= k < j :: HeaderOf(word, lines[k]) == None) && (j < |lines| ==> HeaderOf(word, lines[j]).Some?)
    ensures name in ParseFrom(word, lines, st).value
    ensures ParseFrom(word, lines, st).value[name] == Strip(Join("\n", st.buf + lines[..j]))
    decreases j
  {
    hide HeaderOf, Strip, Join;
    if j == 0 {
      assert st.buf + lines[..0] == st.buf;
      if lines != [] {
        var h := HeaderOf(word, lines[0]);
        assert lines[0] in lines;
        SectionUntouched(word, lines[1..], Reading(Some(h.value), [], Flush(st)), name);
      }
    } else {
      assert HeaderOf(word, lines[0]) == None;
      assert st.buf + [lines[0]] + lines[1..][..j - 1] == st.buf + lines[..j];
      assert forall k | 0 <= k < j - 1 :: lines[1..][k] == lines[k + 1];
      assert j < |lines| ==> lines[1..][j - 1] == lines[j];
      SectionRead(word, lines[1..], st.(buf := st.buf + [lines[0]]), name, j - 1);
    }
  }

  lemma {:induction false} SectionFound(word: set<char>, lines: seq<string>, st: Reading, name: string, i: nat, j: nat)
    requires ParseFrom(word, lines, st).Some? && LastHeader(word, lines, name, i) && NextHeader(word, lines, i, j)
    ensures name in ParseFrom(word, lines, st).value
    ensures ParseFrom(word, lines, st).value[name] == Strip(Join("\n", lines[i + 1..j]))
    decreases i
  {
    hide HeaderOf, Strip, Join;
    var rest := lines[1..];
    if i == 0 {
      forall l | l in rest
        ensures HeaderOf(word, l) != Some(name)
      {
        var k :| 0 <= k < |rest| && rest[k] == l;
        assert lines[k + 1] == l;
      }
      assert forall k | 0 <= k < j - 1 :: rest[k] == lines[k + 1];
      assert [] + rest[..j - 1] == lines[1..j];
      SectionRead(word, rest, Reading(Some(name), [], Flush(st)), name, j - 1);
    } else {
      assert rest[i - 1] == lines[i];
      assert forall k | 0 <= k < |rest| :: rest[k] == lines[k + 1];
      assert rest[i..j - 1] == lines[i + 1..j];
      var h := HeaderOf(word, lines[0]);
      if h.Some? {
        SectionFound(word, rest, Reading(Some(h.value), [], Flush(st)), name, i - 1, j - 1);
      } else {
        SectionFound(word, rest, if st.current.Some? then st.(buf := st.buf + [lines[0]]) else st, name, i - 1, j - 1);
      }
    }
  }

  /** A section is the trimmed text between its last header and the header after that, or the end. */
  lemma SectionText(word: set<char>, markdown: string, name: string, i: nat, j: nat)
    requires Parse(word, markdown).Some? && Strip(markdown) != ""
    requires LastHeader(word, SplitLines(markdown), name, i) && NextHeader(word, SplitLines(markdown), i, j)
    ensures name in Parse(word, markdown).value
    ensures Parse(word, markdown).value[name] == Strip(Join("\n", SplitLines(markdown)[i + 1..j]))
  {
    hide ParseFrom, SplitLines, Strip, HeaderOf, Join;
    SectionFound(word, SplitLines(markdown), START, name, i, j);
  }

  // ---------------------------------------------------------------------------------------------
  // What the parser can produce
  // ---------------------------------------------------------------------------------------------

  /** No line is a section header. */
  predicate NoHeaders(word: set<char>, t: string) { forall l | l in Split(t, '\n') :: HeaderOf(word, l).None? }

  /** A body that reads back: trimmed, broken by newlines only, without a header line. */
  predicate Readable(word: set<char>, b: string) { Trimmed(b) && PlainBreaks(b) && NoHeaders(word, b) }

  lemma {:induction false} SplitSnoc(s: string, c: char, sep: char)
    requires c != sep
    ensures Split(s + [c], sep) == LastGrown(Split(s, sep), c)
  {
    if s == "" {
      assert s + [c] == [c] && "" + [c] == [c];
      SplitNone([c], sep);
    } else {
      assert (s + [c])[1..] == s[1..] + [c];
      SplitSnoc(s[1..], c, sep);
      hide LastGrown;
      if s[0] == sep {
        GrownAfterEmpty(Split(s[1..], sep), c);
      } else {
        GrownAfterChar(s[0], Split(s[1..], sep), c);
      }
    }
  }

  function LastGrown(r: seq<string>, c: char): seq<string>
    requires r != []
  {
    r[..|r| - 1] + [r[|r| - 1] + [c]]
  }

  lemma GrownAfterEmpty(r: seq<string>, c: char)
    requires r != []
    ensures LastGrown([""] + r, c) == [""] + LastGrown(r, c)
  {
  }

  lemma GrownAfterChar(x: char, r: seq<string>, c: char)
    requires r != []
    ensures var g := LastGrown(r, c); LastGrown([[x] + r[0]] + r[1..], c) == [[x] + g[0]] + g[1..]
  {
    if |r| == 1 {
      ConcatAssoc([x], r[0], [c]);
    }
  }

  lemma DropFirst(word: set<char>, c: char, s: string)
    requires IsSpace(c) && NoHeaders(word, [c] + s)
    ensures NoHeaders(word, s)
  {
    hide Strip, HeaderName;
    assert ([c] + s)[1..] == s;
    var r := Split(s, '\n');
    if c == '\n' {
      assert Split([c] + s, '\n') == [""] + r;
    } else {
      assert Split([c] + s, '\n') == [[c] + r[0]] + r[1..];
      StripLeft(c, r[0]);
      forall l | l in r
        ensures HeaderOf(word, l).None?
      {
        if l != r[0] {
          assert l in r[1..];
        } else {
          assert [c] + r[0] in Split([c] + s, '\n');
        }
      }
    }
  }

  lemma DropLast(word: set<char>, s: string, c: char)
    requires IsSpace(c) && NoHeaders(word, s + [c])
    ensures NoHeaders(word, s)
  {
    hide Strip, HeaderName, Split;
    var r := Split(s, '\n');
    if c == '\n' {
      SplitConcat(s, "", '\n');
      assert s + ['\n'] + "" == s + ['\n'];
    } else {
      SplitSnoc(s, c, '\n');
      var n := |r| - 1;
      StripRight(r[n], c);
      forall l | l in r
        ensures HeaderOf(word, l).None?
      {
        if l != r[n] {
          assert l in r[..n];
        } else {
          assert r[n] + [c] in Split(s + [c], '\n');
        }
      }
    }
  }

  lemma {:induction false} StripKeepsNoHeaders(word: set<char>, s: string)
    requires NoHeaders(word, s)
    ensures NoHeaders(word, Strip(s))
    decreases |s|
  {
    hide NoHeaders;
    if Trimmed(s) {
      TrimmedStrip(s);
    } else if IsSpace(s[0]) {
      assert s == [s[0]] + s[1..];
      DropFirst(word, s[0], s[1..]);
      StripKeepsNoHeaders(word, s[1..]);
      StripLeft(s[0], s[1..]);
    } else {
      var n := |s| - 1;
      assert s == s[..n] + [s[n]];
      DropLast(word, s[..n], s[n]);
      StripKeepsNoHeaders(word, s[..n]);
      StripRight(s[..n], s[n]);
    }
  }

  /** A line the parser collects. */
  predicate Prose(word: set<char>, l: string) { NoBreaks(l) && HeaderOf(word, l).None? }

  lemma BufReadable(word: set<char>, buf: seq<string>)
    requires forall l | l in buf :: Prose(word, l)
    ensures Readable(word, Strip(Join("\n", buf)))
  {
    hide HeaderName, Strip;
    var t := Join("\n", buf);
    JoinPlain(buf);
    StripParts(t);
    if buf == [] {
      assert Split("", '\n') == [""];
      NoHeaderEmpty(word);
    } else {
      SplitJoin(buf, '\n') by {
        assert IsBreak('\n');
      }
    }
    StripKeepsNoHeaders(word, t);
  }

  lemma NoHeaderEmpty(word: set<char>)
    ensures HeaderOf(word, "").None?
  {
  }

  predicate AllReadable(word: set<char>, secs: Sections) {
    forall name | name in secs :: name in ORDER && Readable(word, secs[name])
  }

  predicate SoundReading(word: set<char>, st: Reading) {
    && AllReadable(word, st.sections) && (st.current.Some? ==> st.current.value in ORDER)
    && forall l | l in st.buf :: Prose(word, l)
  }

  lemma {:induction false} ParseFromReadable(word: set<char>, lines: seq<string>, st: Reading)
    requires SoundReading(word, st) && forall l | l in lines :: NoBreaks(l)
    requires ParseFrom(word, lines, st).Some?
    ensures AllReadable(word, ParseFrom(word, lines, st).value)
  {
    hide HeaderOf, Readable, Strip, NoBreaks;
    BufReadable(word, st.buf);
    if lines != [] {
      assert lines[0] in lines;
      var h := HeaderOf(word, lines[0]);
      if h.Some? {
        ParseFromReadable(word, lines[1..], Reading(Some(h.value), [], Flush(st)));
      } else {
        ParseFromReadable(word, lines[1..], if st.current.Some? then st.(buf := st.buf + [lines[0]]) else st);
      }
    }
  }

  /** Whatever parses gives known sections with readable bodies. */
  lemma ParseReadable(word: set<char>, markdown: string)
    requires Parse(word, markdown).Some?
    ensures AllReadable(word, Parse(word, markdown).value)
  {
    hide ParseFrom, SplitLines, Readable, Strip;
    if Strip(markdown) != "" {
      LinesHaveNoBreaks(markdown);
      assert SoundReading(word, START);
      ParseFromReadable(word, SplitLines(markdown), START);
    }
  }

  // ---------------------------------------------------------------------------------------------
  // Parsing merged text
  // ---------------------------------------------------------------------------------------------

  predicate ReadableEntries(word: set<char>, es: seq<(string, string)>) {
    forall e | e in es :: e.0 in ORDER && e.1 != "" && Readable(word, e.1)
  }

  /** The lines of the merged text. */
  function LinesOf(es: seq<(string, string)>): seq<string> {
    if es == [] then []
    else ["## " + es[0].0] + (Split(es[0].1, '\n') + if |es| == 1 then [] else [""] + LinesOf(es[1..]))
  }

  lemma OrderNames(name: string)
    requires name in ORDER
    ensures NoBreaks(name) && name != "" && forall c | c in name :: IsAlnum(c)
  {
  }

  lemma HeadPlain(name: string)
    requires name in ORDER
    ensures '\n' !in "## " + name && PlainBreaks("## " + name)
  {
    OrderNames(name);
    assert IsBreak('\n');
  }

  lemma PartLines(word: set<char>, e: (string, string))
    requires e.0 in ORDER && Readable(word, e.1)
    ensures Split(PartText(e), '\n') == ["## " + e.0] + Split(e.1, '\n')
    ensures PlainBreaks(PartText(e))
  {
    hide NoHeaders;
    HeadPlain(e.0);
    SplitNone("## " + e.0, '\n');
    SplitConcat("## " + e.0, e.1, '\n');
  }

  lemma {:induction false} MergedLines(word: set<char>, es: seq<(string, string)>)
    requires es != [] && ReadableEntries(word, es)
    ensures PlainBreaks(Join("\n\n", Parts(es)))
    ensures Split(Join("\n\n", Parts(es)), '\n') == LinesOf(es)
  {
    hide PartText, Readable;
    PartLines(word, es[0]);
    if |es| == 1 {
      assert Join("\n\n", Parts(es)) == PartText(es[0]);
      var ls := Split(es[0].1, '\n');
      assert ls + [] == ls;
    } else {
      var p, rest := PartText(es[0]), Join("\n\n", Parts(es[1..]));
      MergedLines(word, es[1..]);
      assert Parts(es)[1..] == Parts(es[1..]);
      assert p + "\n\n" + rest == p + ['\n'] + ("" + ['\n'] + rest);
      SplitConcat(p, "" + ['\n'] + rest, '\n');
      SplitConcat("", rest, '\n');
      assert Split("", '\n') == [""];
      ConcatAssoc(["## " + es[0].0], Split(es[0].1, '\n'), [""] + LinesOf(es[1..]));
    }
  }

  lemma HeaderLine(word: set<char>, name: string)
    requires WordClass(word) && name in ORDER
    ensures HeaderOf(word, "## " + name) == Some(name)
  {
    OrderNames(name);
    hide ORDER;
    HeaderTrimmed(name);
    var t := "## " + name;
    assert t[2..] == " " + name && (" " + name)[1..] == name && name[0] in name;
    assert LStrip(" " + name) == LStrip(name) == name;
  }

  lemma HeaderTrimmed(name: string)
    requires name != "" && forall c | c in name :: IsAlnum(c)
    ensures Strip("## " + name) == "## " + name
  {
    var t := "## " + name;
    assert t[|t| - 1] == name[|name| - 1] && name[|name| - 1] in name;
    TrimmedStrip(t);
  }

  lemma {:induction false} ReadProse(word: set<char>, ls: seq<string>, rest: seq<string>, st: Reading)
    requires st.current.Some? && forall l | l in ls :: HeaderOf(word, l).None?
    ensures ParseFrom(word, ls + rest, st) == ParseFrom(word, rest, st.(buf := st.buf + ls))
    decreases |ls|
  {
    hide HeaderOf;
    if ls == [] {
      assert ls + rest == rest && st.buf + ls == st.buf;
    } else {
      ConsConcat(ls, rest);
      assert st.buf + ls == (st.buf + [ls[0]]) + ls[1..];
      ReadProse(word, ls[1..], rest, st.(buf := st.buf + [ls[0]]));
    }
  }

  function Put(secs: Sections, es: seq<(string, string)>): Sections
    decreases |es|
  {
    if es == [] then secs else Put(secs[es[0].0 := es[0].1], es[1..])
  }

  /** Collected lines of a body, with or without the blank line before the next header, give the body back. */
  lemma BufIsBody(word: set<char>, b: string)
    requires Readable(word, b)
    ensures Strip(Join("\n", Split(b, '\n'))) == b && Strip(Join("\n", Split(b, '\n') + [""])) == b
  {
    hide NoHeaders;
    JoinSplit(b, '\n');
    TrimmedStrip(b);
    JoinConcat("\n", Split(b, '\n'), [""]);
    assert b + "\n" + "" == b + ['\n'];
    StripRight(b, '\n');
  }

  lemma ReadHeader(word: set<char>, name: string, rest: seq<string>, st: Reading)
    requires WordClass(word) && name in ORDER
    ensures ParseFrom(word, ["## " + name] + rest, st) == ParseFrom(word, rest, Reading(Some(name), [], Flush(st)))
  {
    HeaderLine(word, name);
    ConsConcat(["## " + name], rest);
    hide HeaderOf, Flush;
  }

  lemma ReadEntry(word: set<char>, e: (string, string), tail: seq<string>, rest: seq<string>, st: Reading)
    requires WordClass(word) && e.0 in ORDER && Readable(word, e.1)
    requires tail == [] || tail == [""]
    ensures ParseFrom(word, ["## " + e.0] + (Split(e.1, '\n') + (tail + rest)), st)
            == ParseFrom(word, rest, Reading(Some(e.0), Split(e.1, '\n') + tail, Flush(st)))
    ensures Strip(Join("\n", Split(e.1, '\n') + tail)) == e.1
  {
    hide ParseFrom, Flush, HeaderOf, Strip, Trimmed, PlainBreaks;
    var ls := Split(e.1, '\n');
    BufIsBody(word, e.1);
    assert ls + [] == ls;
    ReadHeader(word, e.0, ls + (tail + rest), st);
    ConcatAssoc(ls, tail, rest);
    NoHeaderEmpty(word);
    ReadProse(word, ls + tail, rest, Reading(Some(e.0), [], Flush(st)));
    assert [] + (ls + tail) == ls + tail;
  }

  lemma {:induction false} ParseLinesOf(word: set<char>, es: seq<(string, string)>, st: Reading)
    requires WordClass(word) && ReadableEntries(word, es)
    ensures ParseFrom(word, LinesOf(es), st) == Some(Put(Flush(st), es))
    decreases |es|
  {
    hide Readable, Strip, HeaderOf;
    if es != [] {
      assert es[0] in es;
      var ls := Split(es[0].1, '\n');
      if |es| == 1 {
        ReadEntry(word, es[0], [], [], st);
        assert ls + ([] + []) == ls + [] == ls;
        assert es[1..] == [];
      } else {
        ReadEntry(word, es[0], [""], LinesOf(es[1..]), st);
        ParseLinesOf(word, es[1..], Reading(Some(es[0].0), ls + [""], Flush(st)));
      }
    }
  }

  lemma MergedNotBlank(word: set<char>, es: seq<(string, string)>)
    requires es != []
    ensures Strip(MergeText(es)) != ""
  {
    var t := MergeText(es);
    assert Parts(es)[0] == PartText(es[0]);
    assert t[0] == '#';
    hide Join;
    LeadingChar(t);
  }

  lemma {:induction false} LeadingChar(t: string)
    requires t != "" && !IsSpace(t[0])
    ensures Strip(t) != ""
    decreases |t|
  {
    if IsSpace(t[|t| - 1]) {
      LeadingChar(t[..|t| - 1]);
    }
  }

  lemma ParseMerged(word: set<char>, es: seq<(string, string)>)
    requires WordClass(word) && ReadableEntries(word, es)
    ensures Parse(word, MergeText(es)) == Some(Put(map[], es))
  {
    hide ParseFrom, ReadableEntries, SplitLines, Strip;
    if es == [] {
      assert MergeText(es) == "";
      assert Strip("") == "" by { TrimmedStrip(""); }
    } else {
      MergedNotBlank(word, es);
      MergedLines(word, es);
      SplitLinesPlain(Join("\n\n", Parts(es)));
      ParseLinesOf(word, es, START);
    }
  }

  // ---------------------------------------------------------------------------------------------
  // Sections
  // ---------------------------------------------------------------------------------------------

  function Chosen(secs: Sections, names: seq<string>): Sections {
    map name | name in secs && name in names && Strip(secs[name]) != "" :: Strip(secs[name])
  }

  /** The non-empty sections, trimmed. */
  function NonEmpty(secs: Sections): Sections { Chosen(secs, ORDER) }

  lemma {:induction false} PutSnoc(secs: Sections, es: seq<(string, string)>, e: (string, string))
    ensures Put(secs, es + [e]) == Put(secs, es)[e.0 := e.1]
    decreases |es|
  {
    if es == [] {
      assert es + [e] == [e] && [e][1..] == [];
    } else {
      ConsConcat(es, [e]);
      PutSnoc(secs[es[0].0 := es[0].1], es[1..], e);
    }
  }

  lemma ChosenSnoc(secs: Sections, names: seq<string>, name: string)
    ensures Chosen(secs, names + [name])
            == if Body(secs, name) != "" then Chosen(secs, names)[name := Body(secs, name)] else Chosen(secs, names)
  {
    hide Strip;
    assert forall x :: x in names + [name] <==> x in names || x == name;
  }

  lemma {:induction false} PutEntries(secs: Sections, names: seq<string>)
    ensures Put(map[], Entries(secs, names)) == Chosen(secs, names)
  {
    hide Body, Chosen;
    if names == [] {
      assert Chosen(secs, []) == map[] by { ChosenNone(secs); }
    } else {
      var n := |names| - 1;
      PutEntries(secs, names[..n]);
      assert names == names[..n] + [names[n]];
      ChosenSnoc(secs, names[..n], names[n]);
      var es := Entries(secs, names[..n]);
      if Body(secs, names[n]) != "" {
        PutSnoc(map[], es, (names[n], Body(secs, names[n])));
      } else {
        assert Entries(secs, names) == es + [] == es;
      }
    }
  }

  lemma ChosenNone(secs: Sections)
    ensures Chosen(secs, []) == map[]
  {
  }

  lemma {:induction false} EntriesFrom(secs: Sections, names: seq<string>)
    ensures forall e | e in Entries(secs, names) :: e.0 in names && e.0 in secs && e.1 == Strip(secs[e.0]) && e.1 != ""
  {
    hide Strip;
    if names != [] {
      var n := |names| - 1;
      EntriesFrom(secs, names[..n]);
      assert names == names[..n] + [names[n]];
    }
  }

  lemma {:induction false} SameEntries(a: Sections, b: Sections, names: seq<string>)
    requires forall name | name in names :: Body(a, name) == Body(b, name)
    ensures Entries(a, names) == Entries(b, names)
  {
    hide Body;
    if names != [] {
      var n := |names| - 1;
      assert names[n] in names;
      SameEntries(a, b, names[..n]);
    }
  }

  lemma NonEmptySame(secs: Sections)
    ensures Entries(NonEmpty(secs), ORDER) == Entries(secs, ORDER)
  {
    hide Strip, Entries;
    forall name | name in ORDER
      ensures Body(NonEmpty(secs), name) == Body(secs, name)
    {
      if name in secs {
        StripIdempotent(secs[name]);
      }
    }
    SameEntries(NonEmpty(secs), secs, ORDER);
  }

  /** For any sections whatever, merging and parsing gives back the non-empty trimmed ones exactly when every
      trimmed body is readable: no header line in it, and no line break other than newline. */
  lemma MergeRoundTrip(word: set<char>, secs: Sections)
    requires WordClass(word)
    ensures Parse(word, Merge(secs)) == Some(NonEmpty(secs))
            <==> forall name | name in NonEmpty(secs) :: Readable(word, NonEmpty(secs)[name])
  {
    hide Strip, Parse, Readable, MergeText, ORDER, WordClass;
    EntriesFrom(secs, ORDER);
    PutEntries(secs, ORDER);
    if Parse(word, Merge(secs)) == Some(NonEmpty(secs)) {
      ParseReadable(word, Merge(secs));
    }
    if forall name | name in NonEmpty(secs) :: Readable(word, NonEmpty(secs)[name]) {
      var es := Entries(secs, ORDER);
      forall e | e in es
        ensures e.0 in ORDER && e.1 != "" && Readable(word, e.1)
      {
        assert e.0 in NonEmpty(secs) && NonEmpty(secs)[e.0] == e.1;
      }
      ParseMerged(word, es);
    }
  }

  /** Canonicalising: the canonical text of any document that parses has the same sections, is a fixed point,
      and composes to the same system prompt, or to the same refusal. */
  lemma Canonical(word: set<char>, markdown: string)
    requires WordClass(word) && Parse(word, markdown).Some?
    ensures var secs := Parse(word, markdown).value;
            var canonical := Merge(secs);
            && Parse(word, canonical) == Some(NonEmpty(secs))
            && Merge(NonEmpty(secs)) == canonical
            && ComposeMarkdown(word, canonical) == ComposeMarkdown(word, markdown)
  {
    hide Strip, Parse, Readable, MergeText, ORDER, WordClass, Parts, Entries;
    var secs := Parse(word, markdown).value;
    ParseReadable(word, markdown);
    forall name | name in NonEmpty(secs)
      ensures Readable(word, NonEmpty(secs)[name])
    {
      ReadableStrip(word, secs[name]);
    }
    MergeRoundTrip(word, secs);
    NonEmptySame(secs);
  }

  lemma ReadableStrip(word: set<char>, b: string)
    requires Readable(word, b)
    ensures Strip(b) == b
  {
    TrimmedStrip(b);
  }
}

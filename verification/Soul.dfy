/** AgentSoul documents: markdown to sections, sections to canonical markdown, sections to system prompt. */
module Soul {
  import opened Text
  import opened TextLines
  import Utf8

  const ORDER: seq<string> := ["Identity", "Personality", "Values", "Expertise", "Guidelines"]

  const VOICE := "## Voice messages\n" + "When the user's input is wrapped in <voice_transcript>…</voice_transcript>,"
                 + " the transcript has already been shown to the user as a confirmation."
                 + " Respond directly to the content — do not quote, repeat, or acknowledge" + " the transcript itself."

  const MAX_PROMPT_BYTES := 64 * 1024

  /** The class `\w` of Unicode strings is a parameter; of it only this matters. */
  predicate WordClass(word: set<char>) {
    (forall c | c in word :: !IsSpace(c)) && forall c | IsAlnum(c) :: c in word
  }

  /** `^##\s+(\w+)\s*$` on a stripped line. */
  function HeaderName(word: set<char>, t: string): Option<string> {
    if !StartsWith(t, "##") || |t| == 2 || !IsSpace(t[2]) then None
    else
      var name := LStrip(t[2..]);
      if name != "" && forall c | c in name :: c in word then Some(name) else None
  }

  function HeaderOf(word: set<char>, line: string): Option<string> { HeaderName(word, Strip(line)) }

  type Sections = map<string, string>

  /** The parser's variables `current`, `buf` and `sections`. */
  datatype Reading = Reading(current: Option<string>, buf: seq<string>, sections: Sections)

  function Flush(st: Reading): Sections {
    if st.current.Some? then st.sections[st.current.value := Strip(Join("\n", st.buf))] else st.sections
  }

  /** `None` is the `ValueError` on an unknown section header. */
  function ParseFrom(word: set<char>, lines: seq<string>, st: Reading): Option<Sections> {
    if lines == [] then Some(Flush(st))
    else
      var h := HeaderOf(word, lines[0]);
      if h.Some? then
        if h.value in ORDER then ParseFrom(word, lines[1..], Reading(Some(h.value), [], Flush(st))) else None
      else ParseFrom(word, lines[1..], if st.current.Some? then st.(buf := st.buf + [lines[0]]) else st)
  }

  const START := Reading(None, [], map[])

  function Parse(word: set<char>, markdown: string): Option<Sections> {
    if Strip(markdown) == "" then Some(map[]) else ParseFrom(word, SplitLines(markdown), START)
  }

  /** `parse_soul_markdown`. */
  method ParseSoul(word: set<char>, markdown: string) returns (r: Option<Sections>)
    ensures r == Parse(word, markdown)
  {
    hide HeaderName, Flush, SplitLines, Strip;
    if Strip(markdown) == "" {
      return Some(map[]);
    }
    var lines := SplitLines(markdown);
    var st := START;
    assert lines[0..] == lines;
    for i := 0 to |lines|
      invariant ParseFrom(word, lines[i..], st) == ParseFrom(word, lines, START)
    {
      assert lines[i..][0] == lines[i] && lines[i..][1..] == lines[i + 1..];
      var h := HeaderOf(word, lines[i]);
      if h.Some? {
        if h.value !in ORDER {
          return None;
        }
        st := Reading(Some(h.value), [], Flush(st));
      } else if st.current.Some? {
        st := st.(buf := st.buf + [lines[i]]);
      }
    }
    r := Some(Flush(st));
  }

  function Body(secs: Sections, name: string): string { if name in secs then Strip(secs[name]) else "" }

  /** The non-empty sections, in the given order. */
  function Entries(secs: Sections, names: seq<string>): seq<(string, string)> {
    if names == [] then []
    else
      var n := |names| - 1;
      Entries(secs, names[..n]) + if Body(secs, names[n]) != "" then [(names[n], Body(secs, names[n]))] else []
  }

  function PartText(e: (string, string)): string { "## " + e.0 + "\n" + e.1 }

  function Parts(es: seq<(string, string)>): seq<string> {
    seq(|es|, i requires 0 <= i < |es| => PartText(es[i]))
  }

  function MergeText(es: seq<(string, string)>): string { Join("\n\n", Parts(es)) + if es != [] then "\n" else "" }

  function Merge(secs: Sections): string { MergeText(Entries(secs, ORDER)) }

  /** A section, if it has text. */
  function One(secs: Sections, name: string): seq<(string, string)> {
    if Body(secs, name) != "" then [(name, Body(secs, name))] else []
  }

  lemma EntriesSnoc(secs: Sections, names: seq<string>, name: string)
    ensures Entries(secs, names + [name]) == Entries(secs, names) + One(secs, name)
  {
    assert (names + [name])[..|names|] == names;
  }

  lemma SpelledOut(secs: Sections)
    ensures Entries(secs, ORDER)
            == One(secs, "Identity") + One(secs, "Personality") + One(secs, "Values") + One(secs, "Expertise")
               + One(secs, "Guidelines")
  {
    EntriesSnoc(secs, [], "Identity");
    EntriesSnoc(secs, ["Identity"], "Personality");
    EntriesSnoc(secs, ["Identity", "Personality"], "Values");
    EntriesSnoc(secs, ["Identity", "Personality", "Values"], "Expertise");
    EntriesSnoc(secs, ["Identity", "Personality", "Values", "Expertise"], "Guidelines");
    hide One, Entries;
    assert [] + ["Identity"] == ["Identity"] && Entries(secs, []) == [] by {
      EntriesNone(secs);
    }
    assert ["Identity"] + ["Personality"] == ["Identity", "Personality"];
    assert ["Identity", "Personality"] + ["Values"] == ["Identity", "Personality", "Values"];
    assert ["Identity", "Personality", "Values"] + ["Expertise"] == ["Identity", "Personality", "Values", "Expertise"];
    assert ["Identity", "Personality", "Values", "Expertise"] + ["Guidelines"] == ORDER;
    assert [] + One(secs, "Identity") == One(secs, "Identity");
  }

  lemma EntriesNone(secs: Sections)
    ensures Entries(secs, []) == []
  {
  }

  /** The part list both canonical forms are made of. */
  method PartList(secs: Sections) returns (parts: seq<string>)
    ensures parts == Parts(Entries(secs, ORDER))
  {
    parts := [];
    for i := 0 to |ORDER|
      invariant parts == Parts(Entries(secs, ORDER[..i]))
    {
      var body := Body(secs, ORDER[i]);
      assert ORDER[..i + 1][..i] == ORDER[..i];
      if body != "" {
        parts := parts + [PartText((ORDER[i], body))];
      }
    }
    assert ORDER[..|ORDER|] == ORDER;
  }

  /** `merge_soul_sections`. */
  method MergeSoul(secs: Sections) returns (markdown: string)
    ensures markdown == Merge(secs)
    ensures markdown == MergeText(One(secs, "Identity") + One(secs, "Personality") + One(secs, "Values")
                                  + One(secs, "Expertise") + One(secs, "Guidelines"))
  {
    SpelledOut(secs);
    var parts := PartList(secs);
    markdown := Join("\n\n", parts) + (if parts != [] then "\n" else "");
  }

  /** The prompt that goes with a canonical document: the document, a blank line, and the voice note. */
  function Prompt(canonical: string): string { if canonical == "" then VOICE else canonical + "\n" + VOICE }

  /** `None` is the `ValueError` on an over-long prompt. */
  function Compose(secs: Sections): Option<string> {
    if Utf8.Length(Prompt(Merge(secs))) > MAX_PROMPT_BYTES then None else Some(Prompt(Merge(secs)))
  }

  /** `compose_soul_document`: the prompt is that of the canonical document of the same sections, and it is refused
      exactly when its UTF-8 form is over the limit. */
  method ComposeSoul(secs: Sections) returns (r: Option<string>)
    ensures r.Some? ==> r.value == Prompt(Merge(secs))
    ensures r.None? <==> |Utf8.Encode(Prompt(Merge(secs)))| > 65536
  {
    hide Utf8.Length, VOICE, Join, Entries, PartText;
    var parts := PartList(secs);
    ComposedText(Entries(secs, ORDER));
    parts := parts + [VOICE];
    var composed := Join("\n\n", parts);
    Utf8.LengthCounts(composed);
    r := if Utf8.Length(composed) > MAX_PROMPT_BYTES then None else Some(composed);
  }

  lemma ComposedText(es: seq<(string, string)>)
    ensures Join("\n\n", Parts(es) + [VOICE]) == Prompt(MergeText(es))
  {
    hide VOICE;
    if es == [] {
      assert Parts(es) + [VOICE] == [VOICE];
    } else {
      JoinConcat("\n\n", Parts(es), [VOICE]);
      hide Join;
      var j := Join("\n\n", Parts(es));
      assert j + "\n\n" + VOICE == (j + "\n") + "\n" + VOICE;
      assert Join("\n\n", [VOICE]) == VOICE by { JoinLone(VOICE); }
    }
  }

  lemma JoinLone(s: string)
    ensures Join("\n\n", [s]) == s
  {
  }

  function ComposeMarkdown(word: set<char>, markdown: string): Option<string> {
    var secs := Parse(word, markdown);
    if secs.None? then None else Compose(secs.value)
  }
}

/** Resolving and rewriting the links of one file in an archive wave. */
module LinkRewrite {
  import opened Text
  import opened PosixPaths
  import opened TokenEdit
  import opened TokenScan

  const CATEGORIES: seq<string> := ["frames", "analyses", "specs", "goal", "plans"]

  function Tail(category: string, basename: string): string { "artifacts/" + category + "/" + basename }

  function NewTail(month: string, basename: string): string { "artifacts/archive/" + month + "/" + basename }

  /** A repo-relative directory as the tool writes it: "" for the root. */
  predicate GoodDir(d: string) { d == "" || AllOrdinary(Split(d, '/')) }

  function DirSegs(d: string): seq<string> { if d == "" then [] else Split(d, '/') }

  /** The tool's `src_dir or "."`. */
  function DirOr(d: string): string { if d == "" then "." else d }

  datatype Style = Root | Relative

  datatype Hit = Hit(path: string, style: Style)

  /** A link that says where it starts is read from its own directory only. */
  predicate Dotted(tok: string) { StartsWith(tok, "./") || StartsWith(tok, "../") }

  /** The path a link points at when read from its directory. */
  function Reading(dir: string, tok: string): string { NormPath(JoinPath(DirOr(dir), tok)) }

  /** A link `tok` in a file of directory `dir` can be read as the path `p`: from that directory, or, unless it is
      dotted, from the repository root. */
  predicate Reads(dir: string, tok: string, p: string) { p == Reading(dir, tok) || (!Dotted(tok) && p == NormPath(tok)) }

  /** The link can be read as one of the paths. */
  predicate Hits(dir: string, tok: string, rels: set<string>) { exists p :: p in rels && Reads(dir, tok, p) }

  /** Which of `rels` the token `tok`, written in a file of directory `dir`, points at. */
  function MatchOld(dir: string, tok: string, rels: set<string>): (r: Option<Hit>)
    ensures r.Some? ==> r.value.path in rels
    ensures r.Some? <==> Hits(dir, tok, rels)
  {
    var relForm := NormPath(JoinPath(DirOr(dir), tok));
    if StartsWith(tok, "./") || StartsWith(tok, "../") then
      if relForm in rels then Some(Hit(relForm, Relative)) else None
    else if NormPath(tok) in rels then Some(Hit(NormPath(tok), Root))
    else if relForm in rels then Some(Hit(relForm, Relative))
    else None
  }

  /** The resolver finds a path exactly if the link can be read as one; the reading from the root comes first. */
  lemma MatchMeaning(dir: string, tok: string, rels: set<string>)
    ensures MatchOld(dir, tok, rels).None? <==> forall p | p in rels :: !Reads(dir, tok, p)
    ensures var r := MatchOld(dir, tok, rels);
            r.Some? ==>
              && Reads(dir, tok, r.value.path) && (r.value.style == Root <==> !Dotted(tok) && NormPath(tok) in rels)
              && r.value.path == if r.value.style == Root then NormPath(tok) else Reading(dir, tok)
  {
    hide NormPath, JoinPath, DirOr;
  }

  /** The replacement for a link that pointed at `hit`, as seen from `dstDir`. */
  function RewriteRef(cwd: seq<string>, dstDir: string, hit: Hit, newByOld: map<string, string>): string
    requires hit.path in newByOld
  {
    if hit.style == Root then newByOld[hit.path] else RelPath(cwd, newByOld[hit.path], DirOr(dstDir))
  }

  /** What each token of a text that points at a moved file is replaced by. */
  function Replacements(cwd: seq<string>, text: string, srcDir: string, dstDir: string, newByOld: map<string, string>)
    : map<string, string>
  {
    map tok | tok in Tokens(text) && MatchOld(srcDir, tok, newByOld.Keys).Some?
      :: RewriteRef(cwd, dstDir, MatchOld(srcDir, tok, newByOld.Keys).value, newByOld)
  }

  function Rewritten(cwd: seq<string>, text: string, srcDir: string, dstDir: string, newByOld: map<string, string>): string {
    Edit(text, Replacements(cwd, text, srcDir, dstDir, newByOld))
  }

  /** The tokens of `toks` that can be read as one of `rels` from `dir`. */
  function Pointing(dir: string, toks: seq<string>, rels: set<string>): seq<string> {
    if toks == [] then []
    else (if Hits(dir, toks[0], rels) then [toks[0]] else []) + Pointing(dir, toks[1..], rels)
  }

  /** Splice the replacements into the text; `parts`, `last` and `count` as in the tool. */
  method RewriteText(cwd: seq<string>, text: string, srcDir: string, dstDir: string, newByOld: map<string, string>)
    returns (out: string, count: nat)
    ensures out == Rewritten(cwd, text, srcDir, dstDir, newByOld)
    ensures count == |Pointing(srcDir, Tokens(text), newByOld.Keys)|
  {
    hide Hits, MatchOld, RewriteRef, Splice, SpanTokens, FindIter, Edit, Tokens, Concat, Pointing, Ordered, EditToken;
    var spans := FindIter(text, 0);
    ghost var repl := Replacements(cwd, text, srcDir, dstDir, newByOld);
    ScanIsEdit(text, repl);
    var parts: seq<string> := [];
    var last: nat := 0;
    count := 0;
    ghost var pos: nat := 0;
    EmitNone(text, Splice(text, 0, spans[0..], repl));
    assert spans[0..] == spans;
    for k := 0 to |spans|
      invariant last <= pos && Ordered(text, pos, spans[k..]) && pos <= |text|
      invariant Concat(parts) + (text[last..pos] + Splice(text, pos, spans[k..], repl)) == Rewritten(cwd, text, srcDir, dstDir, newByOld)
      invariant forall x | x in SpanTokens(text, pos, spans[k..]) :: x in Tokens(text)
      invariant count + |Pointing(srcDir, SpanTokens(text, pos, spans[k..]), newByOld.Keys)|
                == |Pointing(srcDir, Tokens(text), newByOld.Keys)|
    {
      var s := spans[k];
      NextSpan(text, pos, spans, k, repl);
      var tok := text[s.start..s.end];
      assert SpanTokens(text, pos, spans[k..])[0] == tok;
      PointingCons(srcDir, tok, SpanTokens(text, s.end, spans[k + 1..]), newByOld.Keys);
      EditTokenIs(tok, repl);
      var matched := MatchOld(srcDir, tok, newByOld.Keys);
      if matched.Some? {
        var ref := RewriteRef(cwd, dstDir, matched.value, newByOld);
        EmitMatched(parts, text, last, pos, s, ref, Splice(text, s.end, spans[k + 1..], repl));
        parts := parts + [text[last..s.start]] + [ref];
        last := s.end;
        count := count + 1;
      } else {
        EmitKept(text, last, pos, s, Splice(text, s.end, spans[k + 1..], repl));
      }
      pos := s.end;
    }
    assert spans[|spans|..] == [];
    SpansDone(text, pos, repl);
    PointingNil(srcDir, newByOld.Keys);
    ConcatSnoc(parts, text[last..]);
    assert text[last..pos] + text[pos..] == text[last..];
    parts := parts + [text[last..]];
    out := Concat(parts);
  }

  const UNREWRITTEN := "unrewritten reference to moved artifact: "

  function Prefixed(pre: string, items: seq<string>): seq<string> {
    seq(|items|, i requires 0 <= i < |items| => pre + items[i])
  }

  lemma PrefixedNil(pre: string)
    ensures Prefixed(pre, []) == []
  {
  }

  lemma PrefixedSnoc(pre: string, items: seq<string>, x: string)
    ensures Prefixed(pre, items + [x]) == Prefixed(pre, items) + [pre + x]
  {
  }

  lemma FoundStep(refDir: string, found: seq<string>, tok: string, rest: seq<string>, oldRels: set<string>)
    ensures var hit := if MatchOld(refDir, tok, oldRels).Some? then found + [tok] else found;
            found + Pointing(refDir, [tok] + rest, oldRels) == hit + Pointing(refDir, rest, oldRels)
  {
    hide Hits, MatchOld, Pointing;
    PointingCons(refDir, tok, rest, oldRels);
    ConcatAssoc(found, [tok], Pointing(refDir, rest, oldRels));
    assert [] + Pointing(refDir, rest, oldRels) == Pointing(refDir, rest, oldRels);
  }

  /** The check the tool runs on its own output. */
  method BrokenRefs(text: string, refDir: string, oldRels: set<string>) returns (broken: seq<string>)
    ensures broken == Prefixed(UNREWRITTEN, Pointing(refDir, Tokens(text), oldRels))
  {
    hide Hits, MatchOld, Splice, SpanTokens, FindIter, Tokens, Pointing, Ordered, UNREWRITTEN, Prefixed;
    PrefixedNil(UNREWRITTEN);
    var spans := FindIter(text, 0);
    ScanIsEdit(text, map[]);
    broken := [];
    ghost var pos: nat := 0;
    ghost var found := [];
    assert spans[0..] == spans;
    for i := 0 to |spans|
      invariant Ordered(text, pos, spans[i..])
      invariant found + Pointing(refDir, SpanTokens(text, pos, spans[i..]), oldRels) == Pointing(refDir, Tokens(text), oldRels)
      invariant broken == Prefixed(UNREWRITTEN, found)
    {
      var s := spans[i];
      NextSpan(text, pos, spans, i, map[]);
      var tok := text[s.start..s.end];
      FoundStep(refDir, found, tok, SpanTokens(text, s.end, spans[i + 1..]), oldRels);
      if MatchOld(refDir, tok, oldRels) != None {
        PrefixedSnoc(UNREWRITTEN, found, tok);
        broken := broken + [UNREWRITTEN + tok];
        found := found + [tok];
      }
      pos := s.end;
    }
    assert spans[|spans|..] == [];
    SpansDone(text, pos, map[]);
    PointingNil(refDir, oldRels);
    assert found + [] == found;
  }

  lemma PointingCons(dir: string, tok: string, rest: seq<string>, rels: set<string>)
    ensures Pointing(dir, [tok] + rest, rels)
            == (if MatchOld(dir, tok, rels).Some? then [tok] else []) + Pointing(dir, rest, rels)
  {
    hide Hits, MatchOld;
    assert ([tok] + rest)[1..] == rest;
  }

  lemma PointingNil(dir: string, rels: set<string>)
    ensures Pointing(dir, [], rels) == []
  {
  }

  lemma EditTokenIs(tok: string, m: map<string, string>)
    ensures EditToken(tok, m) == if tok in m then m[tok] else tok
  {
  }

  lemma SpansDone(t: string, pos: nat, m: map<string, string>)
    requires Ordered(t, pos, [])
    ensures Splice(t, pos, [], m) == t[pos..] && SpanTokens(t, pos, []) == []
  {
  }

  lemma NextSpan(t: string, pos: nat, spans: seq<Span>, k: nat, m: map<string, string>)
    requires k < |spans| && Ordered(t, pos, spans[k..])
    ensures var s := spans[k];
            && pos <= s.start <= s.end <= |t| && Ordered(t, s.end, spans[k + 1..])
            && SpanTokens(t, pos, spans[k..]) == [t[s.start..s.end]] + SpanTokens(t, s.end, spans[k + 1..])
            && Splice(t, pos, spans[k..], m)
               == t[pos..s.start] + EditToken(t[s.start..s.end], m) + Splice(t, s.end, spans[k + 1..], m)
  {
    OrderedBound(t, pos, spans[k..]);
    assert spans[k..][1..] == spans[k + 1..];
    assert spans[k..] == [spans[k]] + spans[k + 1..];
    SpanCons(t, pos, spans[k], spans[k + 1..], m);
  }

  lemma EmitNone(t: string, rest: string)
    ensures Concat([]) + (t[0..0] + rest) == rest
  {
  }

  lemma EmitMatched(parts: seq<string>, t: string, last: nat, pos: nat, s: Span, ref: string, rest: string)
    requires last <= pos <= s.start <= s.end <= |t|
    ensures Concat(parts + [t[last..s.start]] + [ref]) + (t[s.end..s.end] + rest)
            == Concat(parts) + (t[last..pos] + (t[pos..s.start] + ref + rest))
  {
    ConcatSnoc(parts, t[last..s.start]);
    ConcatSnoc(parts + [t[last..s.start]], ref);
    assert t[last..s.start] == t[last..pos] + t[pos..s.start];
  }

  lemma EmitKept(t: string, last: nat, pos: nat, s: Span, rest: string)
    requires last <= pos <= s.start <= s.end <= |t|
    ensures t[last..s.end] + rest == t[last..pos] + (t[pos..s.start] + t[s.start..s.end] + rest)
  {
  }
}

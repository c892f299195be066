/** What a rewritten text is worth: no link is left pointing at a path that moved away, and every
    rewritten link points at the new place. */
module LinkTheorems {
  import opened Text
  import opened PosixPaths
  import opened PathTokens
  import opened TokenEdit
  import opened LinkRewrite

  /** Any single path component of name characters; `YYYY-MM` is one. */
  predicate GoodMonth(m: string) { m != "" && m != "." && m != ".." && forall k | 0 <= k < |m| :: IsName(m[k]) }

  /** `artifacts/<category>/<basename>` with a swept category. */
  predicate IsTail(p: string) {
    var s := Split(p, '/');
    |s| == 3 && s[0] == "artifacts" && s[1] in CATEGORIES && Ordinary(s[2])
  }

  function BaseOf(p: string): string
    requires IsTail(p)
  {
    Split(p, '/')[2]
  }

  /** The move table of a wave: old tails to new tails with the same basename. */
  predicate WaveMap(month: string, newByOld: map<string, string>) {
    GoodMonth(month) && forall p | p in newByOld :: IsTail(p) && newByOld[p] == NewTail(month, BaseOf(p))
  }

  function NewSegs(month: string, base: string): seq<string> { ["artifacts", "archive", month, base] }

  predicate SlashFree(segs: seq<string>) { forall s | s in segs :: s != "" && '/' !in s }

  function Last(segs: seq<string>): string
    requires segs != []
  {
    segs[|segs| - 1]
  }

  lemma JoinFour(a: string, b: string, c: string, d: string)
    ensures Join("/", [a, b, c, d]) == a + "/" + (b + "/" + (c + "/" + d))
  {
    assert [a, b, c, d][1..] == [b, c, d] && [b, c, d][1..] == [c, d] && [c, d][1..] == [d];
    assert Join("/", [c, d]) == c + "/" + d;
    assert Join("/", [b, c, d]) == b + "/" + Join("/", [c, d]);
  }

  lemma NewTailText(month: string, base: string)
    ensures NewTail(month, base) == "artifacts" + "/" + ("archive" + "/" + (month + "/" + base))
  {
    assert "artifacts" + "/" + ("archive" + "/") == "artifacts/archive/";
  }

  lemma NewTailSegs(month: string, base: string)
    requires GoodMonth(month) && Ordinary(base)
    ensures AllOrdinary(NewSegs(month, base))
    ensures NewTail(month, base) == PathOf(NewSegs(month, base))
    ensures Split(NewTail(month, base), '/') == NewSegs(month, base)
  {
    assert AllOrdinary(NewSegs(month, base));
    hide Ordinary, GoodMonth, NewTail;
    JoinFour("artifacts", "archive", month, base);
    NewTailText(month, base);
    SplitPathOf(NewSegs(month, base)) by { assert forall s | Ordinary(s) :: s != "" && '/' !in s by { OrdinaryParts(); } }
  }

  lemma OrdinaryParts()
    ensures forall s | Ordinary(s) :: s != "" && '/' !in s
  {
  }

  lemma NotTail(segs: seq<string>)
    requires SlashFree(segs)
    requires |segs| != 3 || segs[0] != "artifacts" || segs[1] == "archive"
    ensures !IsTail(PathOf(segs))
  {
    SplitPathOf(segs);
  }

  lemma {:induction false} NormParts(abs: bool, acc: seq<string>, comps: seq<string>)
    requires SlashFree(acc) && forall c | c in comps :: '/' !in c
    ensures SlashFree(Norm(abs, acc, comps))
    decreases |comps|
  {
    if comps != [] {
      assert comps[0] in comps;
      NormParts(abs, NormStep(abs, acc, comps[0]), comps[1..]);
    }
  }

  lemma NormLast(acc: seq<string>, comps: seq<string>)
    requires comps != [] && Ordinary(Last(comps))
    ensures var n := Norm(false, acc, comps); n != [] && Last(n) == Last(comps)
  {
    var init := comps[..|comps| - 1];
    assert comps == init + [Last(comps)];
    NormAppend(false, acc, init, [Last(comps)]);
  }

  /** Normalising keeps an ordinary last component. */
  lemma NormPathLast(p: string)
    requires !StartsWith(p, "/") && Ordinary(Last(Split(p, '/')))
    ensures Last(Split(NormPath(p), '/')) == Last(Split(p, '/'))
  {
    SplitParts(p, '/');
    NormParts(false, [], Split(p, '/'));
    NormLast([], Split(p, '/'));
    SplitPathOf(Norm(false, [], Split(p, '/')));
  }

  lemma DirOrSegs(dir: string)
    requires GoodDir(dir)
    ensures AllOrdinary(DirSegs(dir)) && DirOr(dir) == PathOf(DirSegs(dir))
  {
    JoinSplit(dir, '/');
  }

  lemma DirOrText(dir: string)
    requires GoodDir(dir)
    ensures var d := DirOr(dir); d != "" && d[0] != '/' && d[|d| - 1] != '/'
  {
    DirOrSegs(dir);
    PathOfRelative(DirSegs(dir));
    if dir != "" {
      JoinLast(DirSegs(dir));
    }
  }

  lemma JoinedText(d: string, tok: string)
    requires d != "" && d[0] != '/' && d[|d| - 1] != '/' && tok != "" && tok[0] != '/'
    ensures JoinPath(d, tok) == d + ['/'] + tok && !StartsWith(JoinPath(d, tok), "/")
  {
  }

  lemma JoinedLast(dir: string, tok: string)
    requires GoodDir(dir) && tok != "" && tok[0] != '/'
    ensures var p := JoinPath(DirOr(dir), tok); !StartsWith(p, "/") && Last(Split(p, '/')) == Last(Split(tok, '/'))
  {
    var d := DirOr(dir);
    DirOrText(dir);
    JoinedText(d, tok);
    hide JoinPath, StartsWith, DirOr, Split;
    SplitConcat(d, tok, '/');
    LastConcat(Split(d, '/'), Split(tok, '/'));
  }

  lemma LastConcat(a: seq<string>, b: seq<string>)
    requires b != []
    ensures Last(a + b) == Last(b)
  {
  }

  /** A markdown basename: the last component of a token. */
  predicate MdName(b: string) { IsToken(b) && '/' !in b }

  lemma MdOrdinary(b: string)
    requires MdName(b)
    ensures Ordinary(b) && 'm' in b
  {
    assert b[|b| - 1] == 'd' || b[|b| - 1] == 'x';
    assert b[|b| - 2] == 'm' || b[|b| - 3] == 'm';
  }

  predicate MdEnd(t: string) { ExtAt(t, 0, |t|) && forall k | 0 <= k < |t| :: IsPath(t[k]) }

  lemma MdEndAfter(t: string, k: nat)
    requires MdEnd(t) && k < |t| && t[k] == '/'
    ensures MdEnd(t[k + 1..])
  {
    var rest := t[k + 1..];
    assert forall n | 0 <= n < |rest| :: rest[n] == t[k + 1 + n];
  }

  /** Everything before a slash can be dropped from a string that ends in a markdown basename. */
  lemma {:induction false} MdEndLast(t: string)
    requires MdEnd(t)
    ensures MdName(Last(Split(t, '/')))
    decreases |t|
  {
    if '/' !in t {
      SplitNone(t, '/');
    } else {
      var k :| 0 <= k < |t| && t[k] == '/';
      MdEndAfter(t, k);
      MdEndLast(t[k + 1..]);
      hide MdEnd, MdName;
      SplitConcat(t[..k], t[k + 1..], '/');
      assert t == t[..k] + ['/'] + t[k + 1..];
    }
  }

  lemma TokenLast(tok: string)
    requires IsToken(tok)
    ensures MdName(Last(Split(tok, '/'))) && Ordinary(Last(Split(tok, '/')))
    ensures tok != "" && tok[0] != '/' && !StartsWith(tok, "/")
  {
    MdEndLast(tok);
    MdOrdinary(Last(Split(tok, '/')));
  }

  /** The path a token resolves to, if any, has the token's last component. */
  lemma HitLast(dir: string, tok: string, rels: set<string>)
    requires GoodDir(dir) && IsToken(tok) && MatchOld(dir, tok, rels).Some?
    ensures Last(Split(MatchOld(dir, tok, rels).value.path, '/')) == Last(Split(tok, '/'))
  {
    TokenLast(tok);
    JoinedLast(dir, tok);
    hide JoinPath, IsToken, Ordinary, StartsWith, GoodDir, Last;
    NormPathLast(JoinPath(DirOr(dir), tok));
    NormPathLast(tok);
    hide NormPath;
  }

  /** A token that resolves to a moved path ends in that path's basename. */
  lemma HitBase(dir: string, tok: string, rels: set<string>)
    requires GoodDir(dir) && IsToken(tok)
    requires MatchOld(dir, tok, rels).Some? && IsTail(MatchOld(dir, tok, rels).value.path)
    ensures MdName(BaseOf(MatchOld(dir, tok, rels).value.path))
    ensures BaseOf(MatchOld(dir, tok, rels).value.path) == Last(Split(tok, '/'))
  {
    TokenLast(tok);
    HitLast(dir, tok, rels);
    hide Hits, MatchOld, IsToken, MdName, Ordinary, GoodDir;
  }

  // ---------------------------------------------------------------------------------------------
  // The replacement text
  // ---------------------------------------------------------------------------------------------

  /** A component a replacement may contain. */
  predicate Plain(seg: string) { seg != "" && '/' !in seg && forall k | 0 <= k < |seg| :: IsName(seg[k]) }

  lemma {:induction false} JoinPlain(segs: seq<string>)
    requires segs != [] && forall s | s in segs :: Plain(s)
    ensures var j := Join("/", segs);
            && j != "" && j[0] != '/' && j[|j| - 1] != '/'
            && (forall k | 0 <= k < |j| :: IsPath(j[k]))
            && (forall k | 0 < k < |j| :: j[k - 1] == '/' ==> j[k] != '/')
  {
    assert Plain(segs[0]) by { assert segs[0] in segs; }
    if |segs| > 1 {
      assert forall s | s in segs[1..] :: s in segs;
      JoinPlain(segs[1..]);
      JoinPlainCons(segs[0], Join("/", segs[1..]));
    }
  }

  lemma JoinPlainCons(a: string, b: string)
    requires Plain(a) && b != "" && b[0] != '/' && (forall k | 0 <= k < |b| :: IsPath(b[k]))
    requires forall k | 0 < k < |b| :: b[k - 1] == '/' ==> b[k] != '/'
    ensures var j := a + "/" + b;
            && (forall k | 0 <= k < |j| :: IsPath(j[k]))
            && (forall k | 0 < k < |j| :: j[k - 1] == '/' ==> j[k] != '/')
  {
    var j := a + "/" + b;
    forall k | 0 < k < |j| && j[k - 1] == '/'
      ensures j[k] != '/'
    {
      if k > |a| + 1 {
        assert b[k - |a| - 2] == '/';
      }
    }
  }

  /** Plain components ending in a markdown basename make a token. */
  lemma PlainToken(segs: seq<string>)
    requires segs != [] && (forall s | s in segs :: Plain(s)) && MdName(Last(segs))
    ensures IsToken(PathOf(segs)) && Fits(PathOf(segs))
  {
    JoinPlain(segs);
    JoinTail(segs);
    TailToken(PathOf(segs), Last(segs));
  }

  lemma TailToken(j: string, b: string)
    requires EndsWith(j, b) && MdName(b) && j[0] != '/' && j[|j| - 1] != '/'
    requires forall k | 0 <= k < |j| :: IsPath(j[k])
    requires forall k | 0 < k < |j| :: j[k - 1] == '/' ==> j[k] != '/'
    ensures IsToken(j) && Fits(j)
  {
    assert forall k | 0 <= k < |b| :: j[|j| - |b| + k] == b[k];
  }

  lemma {:induction false} JoinTail(segs: seq<string>)
    requires segs != []
    ensures EndsWith(Join("/", segs), Last(segs))
  {
    if |segs| > 1 {
      JoinTail(segs[1..]);
    }
  }

  /** Nothing but climbing: no letter in it, so no token can end in it. */
  lemma {:induction false} UpsFit(n: nat)
    ensures Fits(PathOf(Ups(n))) && 'm' !in PathOf(Ups(n))
  {
    if n <= 1 {
      assert Ups(n) == [] || Ups(n) == [".."];
    } else {
      assert Ups(n)[1..] == Ups(n - 1) && Ups(n)[0] == "..";
      UpsFit(n - 1);
      assert PathOf(Ups(n)) == ".." + "/" + PathOf(Ups(n - 1));
      hide Ups, PathOf;
      UpAhead(PathOf(Ups(n - 1)));
    }
  }

  lemma UpAhead(q: string)
    requires Fits(q) && 'm' !in q
    ensures Fits(".." + "/" + q) && 'm' !in ".." + "/" + q
  {
    var s := ".." + "/" + q;
    assert s[|s| - 1] == q[|q| - 1] && forall k | 3 <= k < |s| :: s[k] == q[k - 3];
  }

  lemma NewPlain(month: string, base: string)
    requires GoodMonth(month) && MdName(base)
    ensures forall s | s in NewSegs(month, base) :: Plain(s)
    ensures Ordinary(base)
  {
    MdOrdinary(base);
    assert Plain("artifacts") && Plain("archive");
    assert Plain(month) by {
      assert forall c | c in month :: IsName(c);
    }
  }

  /** The components of a relative replacement. */
  function RefSegs(dstDir: string, month: string, base: string): seq<string> {
    RelSegs(DirSegs(dstDir), NewSegs(month, base))
  }

  lemma RelativeFits(dstDir: string, month: string, base: string)
    requires GoodDir(dstDir) && GoodMonth(month) && MdName(base)
    ensures Fits(PathOf(RefSegs(dstDir, month, base)))
  {
    var from, to := DirSegs(dstDir), NewSegs(month, base);
    var i := CommonLen(from, to);
    NewPlain(month, base);
    hide MdName, GoodMonth, GoodDir, Fits;
    RelSegsParts(from, to);
    if i < |to| {
      assert Plain("..");
      assert to[i..][|to[i..]| - 1] == base;
      PlainToken(RelSegs(from, to));
    } else {
      assert RelSegs(from, to) == Ups(|from| - i);
      UpsFit(|from| - i);
    }
  }

  lemma RelativeLands(cwd: seq<string>, dstDir: string, month: string, base: string)
    requires AllOrdinary(cwd) && GoodDir(dstDir) && GoodMonth(month) && Ordinary(base)
    ensures var q := RelPath(cwd, NewTail(month, base), DirOr(dstDir));
            && q == PathOf(RefSegs(dstDir, month, base))
            && NormPath(JoinPath(DirOr(dstDir), q)) == NewTail(month, base)
  {
    NewTailSegs(month, base);
    DirOrSegs(dstDir);
    hide Ordinary, GoodMonth, GoodDir, NewTail, DirOr;
    RelPathSegs(cwd, DirSegs(dstDir), NewSegs(month, base));
    RelPathInverse(cwd, DirSegs(dstDir), NewSegs(month, base));
  }

  /** A relative replacement read from the repository root is no moved path, and the new path only
      when it is spelled in full. */
  lemma RelativeAsRoot(dstDir: string, month: string, base: string)
    requires GoodDir(dstDir) && GoodMonth(month) && Ordinary(base)
    ensures var q := PathOf(RefSegs(dstDir, month, base));
            !Dotted(q) ==> !IsTail(NormPath(q)) && (|Split(NormPath(q), '/')| == 4 ==> NormPath(q) == NewTail(month, base))
  {
    var from, to := DirSegs(dstDir), NewSegs(month, base);
    var i := CommonLen(from, to);
    var rel := RelSegs(from, to);
    NewTailSegs(month, base);
    if |from| == i {
      assert rel == to[i..];
      assert AllOrdinary(rel) by { assert forall s | s in to[i..] :: s in to; }
      NormPathOf(rel);
      SplitPathOf(rel);
      assert |rel| == 4 ==> rel == to;
    } else {
      assert rel[0] == "..";
      ClimbDotted(rel);
    }
  }

  lemma ClimbDotted(rel: seq<string>)
    requires rel != [] && rel[0] == ".."
    ensures var q := PathOf(rel); Dotted(q) || (q == ".." && Split(NormPath(q), '/') == [".."])
  {
    if |rel| == 1 {
      SplitNone("..", '/');
      assert Norm(false, [], [".."]) == [".."];
    } else {
      assert PathOf(rel) == ".." + "/" + Join("/", rel[1..]);
      assert ".." + "/" == "../";
    }
  }

  // ---------------------------------------------------------------------------------------------
  // One link
  // ---------------------------------------------------------------------------------------------

  lemma AsHit(dir: string, q: string, rels: set<string>, path: string)
    requires path in rels && NormPath(JoinPath(DirOr(dir), q)) == path
    requires !Dotted(q) ==> NormPath(q) == path || NormPath(q) !in rels
    ensures MatchOld(dir, q, rels).Some? && MatchOld(dir, q, rels).value.path == path
  {
  }

  lemma NewTailFour(month: string, newByOld: map<string, string>, p: string)
    requires WaveMap(month, newByOld)
    ensures p in newByOld.Keys ==> IsTail(p)
    ensures p in newByOld.Values ==> |Split(p, '/')| == 4 && !IsTail(p)
  {
    if p in newByOld.Values {
      var q :| q in newByOld && newByOld[q] == p;
      NewTailSegs(month, BaseOf(q));
    }
  }

  lemma FullIsNew(dstDir: string, month: string, base: string)
    requires GoodDir(dstDir) && GoodMonth(month) && Ordinary(base)
    ensures var q := NewTail(month, base);
            && NormPath(q) == q && !Dotted(q) && !IsTail(q)
            && !IsTail(NormPath(JoinPath(DirOr(dstDir), q)))
  {
    var from, to := DirSegs(dstDir), NewSegs(month, base);
    NewTailSegs(month, base);
    DirOrSegs(dstDir);
    OrdinaryParts();
    assert !Dotted(NewTail(month, base));
    hide Ordinary, GoodDir, GoodMonth, Dotted, NormPath, JoinPath, IsTail;
    NormPathOf(to);
    JoinPathOf(from, to);
    NormOrdinary(false, from, to);
    NotTail(to);
    NotTail(from + to);
  }

  /** A link is rewritten to a path that (1) cannot merge with the text after it, (2) resolves, in the
      style it was written and from the file's new directory, to where its target went, (3) is found
      there by the tool's own resolver, and (4) does not resolve to anything that moved away. */
  lemma RefResolves(cwd: seq<string>, srcDir: string, dstDir: string, tok: string, month: string, newByOld: map<string, string>)
    requires AllOrdinary(cwd) && GoodDir(srcDir) && GoodDir(dstDir) && IsToken(tok) && WaveMap(month, newByOld)
    requires MatchOld(srcDir, tok, newByOld.Keys).Some?
    ensures var hit := MatchOld(srcDir, tok, newByOld.Keys).value;
            var q := RewriteRef(cwd, dstDir, hit, newByOld);
            && Fits(q)
            && (if hit.style == Root then NormPath(q) else NormPath(JoinPath(DirOr(dstDir), q))) == newByOld[hit.path]
            && MatchOld(dstDir, q, newByOld.Values).Some?
            && MatchOld(dstDir, q, newByOld.Values).value.path == newByOld[hit.path]
            && MatchOld(dstDir, q, newByOld.Keys) == None
  {
    hide NormPath, JoinPath, GoodDir, Fits, IsToken, IsTail, GoodMonth;
    var hit := MatchOld(srcDir, tok, newByOld.Keys).value;
    var q := RewriteRef(cwd, dstDir, hit, newByOld);
    HitBase(srcDir, tok, newByOld.Keys);
    var base := BaseOf(hit.path);
    MdOrdinary(base);
    if hit.style == Root {
      RootFits(month, base);
      FullIsNew(dstDir, month, base);
    } else {
      RelativeFits(dstDir, month, base);
      RelativeLands(cwd, dstDir, month, base);
      RelativeAsRoot(dstDir, month, base);
      NewTailFour(month, newByOld, NormPath(q));
      NewTailFour(month, newByOld, newByOld[hit.path]);
      AsHit(dstDir, q, newByOld.Values, newByOld[hit.path]);
    }
  }

  lemma RootFits(month: string, base: string)
    requires GoodMonth(month) && MdName(base)
    ensures Fits(NewTail(month, base))
  {
    NewPlain(month, base);
    NewTailSegs(month, base);
    PlainToken(NewSegs(month, base));
  }

  // ---------------------------------------------------------------------------------------------
  // One file
  // ---------------------------------------------------------------------------------------------

  /** Tokens that did not point at a moved file from the old directory but do from the new one. */
  function Stranded(toks: seq<string>, srcDir: string, dstDir: string, rels: set<string>): seq<string> {
    if toks == [] then []
    else (if !Hits(srcDir, toks[0], rels) && Hits(dstDir, toks[0], rels) then [toks[0]] else [])
         + Stranded(toks[1..], srcDir, dstDir, rels)
  }

  lemma ReplacementsKeep(cwd: seq<string>, text: string, srcDir: string, dstDir: string, month: string, newByOld: map<string, string>)
    requires AllOrdinary(cwd) && GoodDir(srcDir) && GoodDir(dstDir) && WaveMap(month, newByOld)
    ensures var m := Replacements(cwd, text, srcDir, dstDir, newByOld);
            && Keeps(m)
            && (forall tok | tok in m :: MatchOld(dstDir, m[tok], newByOld.Keys) == None)
            && (forall tok | tok in Tokens(text) :: tok in m <==> MatchOld(srcDir, tok, newByOld.Keys).Some?)
  {
    hide Hits, MatchOld, RewriteRef, WaveMap, Fits, GoodDir, IsToken;
    var m := Replacements(cwd, text, srcDir, dstDir, newByOld);
    TokensAreTokens(text);
    forall tok | tok in m
      ensures Fits(m[tok]) && MatchOld(dstDir, m[tok], newByOld.Keys) == None
    {
      RefResolves(cwd, srcDir, dstDir, tok, month, newByOld);
    }
  }

  lemma {:induction false} PointingEdited(toks: seq<string>, m: map<string, string>, srcDir: string, dstDir: string, rels: set<string>)
    requires forall tok | tok in toks :: IsToken(tok)
    requires forall tok | tok in m :: MatchOld(dstDir, m[tok], rels) == None
    requires forall tok | tok in toks :: tok in m <==> MatchOld(srcDir, tok, rels).Some?
    ensures Pointing(dstDir, EditedTokens(toks, m), rels) == Stranded(toks, srcDir, dstDir, rels)
  {
    hide Hits, MatchOld, IsToken;
    if toks != [] {
      var t := toks[0];
      assert t in toks;
      PointingEdited(toks[1..], m, srcDir, dstDir, rels);
      var rest := EditedTokens(toks[1..], m);
      var q := EditToken(t, m);
      PointingCons(dstDir, q, rest, rels);
      if !IsToken(q) {
        assert [] + rest == rest;
      }
    }
  }

  /** Re-scanning the rewritten text from the file's new directory finds exactly the stranded tokens. */
  lemma RescanExact(cwd: seq<string>, text: string, srcDir: string, dstDir: string, month: string, newByOld: map<string, string>)
    requires AllOrdinary(cwd) && GoodDir(srcDir) && GoodDir(dstDir) && WaveMap(month, newByOld)
    ensures Pointing(dstDir, Tokens(Rewritten(cwd, text, srcDir, dstDir, newByOld)), newByOld.Keys)
            == Stranded(Tokens(text), srcDir, dstDir, newByOld.Keys)
  {
    hide Hits, MatchOld, RewriteRef, WaveMap, GoodDir, IsToken, Edit, Replacements, Keeps, Tokens;
    var m := Replacements(cwd, text, srcDir, dstDir, newByOld);
    ReplacementsKeep(cwd, text, srcDir, dstDir, month, newByOld);
    TokensOfEdit(text, m);
    TokensAreTokens(text);
    PointingEdited(Tokens(text), m, srcDir, dstDir, newByOld.Keys);
  }

  lemma {:induction false} StrandedNone(toks: seq<string>, dir: string, rels: set<string>)
    ensures Stranded(toks, dir, dir, rels) == []
  {
    hide Hits, MatchOld;
    if toks != [] {
      StrandedNone(toks[1..], dir, rels);
    }
  }

  lemma {:induction false} PointingNone(toks: seq<string>, dir: string, rels: set<string>)
    ensures Pointing(dir, toks, rels) == [] <==> forall tok | tok in toks :: MatchOld(dir, tok, rels) == None
  {
    hide Hits, MatchOld;
    if toks != [] {
      PointingNone(toks[1..], dir, rels);
      assert Hits(dir, toks[0], rels) <==> MatchOld(dir, toks[0], rels).Some?;
      assert forall t | t in toks :: t == toks[0] || t in toks[1..];
    }
  }

  /** No link of the text, wherever it is read from, leads to one of the paths. */
  predicate NoneReads(dir: string, toks: seq<string>, rels: set<string>) {
    forall tok, p | tok in toks && p in rels :: !Reads(dir, tok, p)
  }

  lemma PointingNothing(dir: string, toks: seq<string>, rels: set<string>)
    ensures Pointing(dir, toks, rels) == [] <==> NoneReads(dir, toks, rels)
  {
    PointingNone(toks, dir, rels);
    hide Pointing, MatchOld, Reads;
    forall tok | tok in toks
      ensures MatchOld(dir, tok, rels) == None <==> forall p | p in rels :: !Reads(dir, tok, p)
    {
      MatchMeaning(dir, tok, rels);
    }
  }

  /** A file that stays where it is has no stale link left after the rewrite, and a second rewrite
      changes nothing. */
  lemma UnmovedFileIsClean(cwd: seq<string>, text: string, dir: string, month: string, newByOld: map<string, string>)
    requires AllOrdinary(cwd) && GoodDir(dir) && WaveMap(month, newByOld)
    ensures var out := Rewritten(cwd, text, dir, dir, newByOld);
            && Pointing(dir, Tokens(out), newByOld.Keys) == [] && NoneReads(dir, Tokens(out), newByOld.Keys)
            && Rewritten(cwd, out, dir, dir, newByOld) == out
  {
    hide Hits, MatchOld, RewriteRef, WaveMap, GoodDir, Edit, Tokens, Rewritten, NoneReads;
    var out := Rewritten(cwd, text, dir, dir, newByOld);
    RescanExact(cwd, text, dir, dir, month, newByOld);
    StrandedNone(Tokens(text), dir, newByOld.Keys);
    CleanIsFixed(cwd, out, dir, dir, newByOld);
    PointingNothing(dir, Tokens(out), newByOld.Keys);
  }

  /** The full path of a moved file, written in a file of any directory, becomes the full new path. */
  lemma FullPathRewritten(cwd: seq<string>, text: string, srcDir: string, dstDir: string, month: string,
                          newByOld: map<string, string>, p: string)
    requires WaveMap(month, newByOld) && p in newByOld && p in Tokens(text)
    ensures var m := Replacements(cwd, text, srcDir, dstDir, newByOld); p in m && m[p] == newByOld[p]
  {
    TailReadsAsItself(p);
    hide Tokens, NormPath, JoinPath, Hits, Dotted, WaveMap;
    MatchMeaning(srcDir, p, newByOld.Keys);
  }

  lemma TailReadsAsItself(p: string)
    requires IsTail(p)
    ensures NormPath(p) == p && !Dotted(p)
  {
    var s := Split(p, '/');
    JoinSplit(p, '/');
    assert Ordinary(s[1]) by {
      assert s[1] == "frames" || s[1] == "analyses" || s[1] == "specs" || s[1] == "goal" || s[1] == "plans";
    }
    assert AllOrdinary(s) by {
      assert forall x | x in s :: x == s[0] || x == s[1] || x == s[2];
    }
    assert "/" == ['/'];
    hide Split, NormPath, IsTail, Ordinary;
    NormPathOf(s);
    assert PathOf(s) == p;
    FirstLetter(p, s);
  }

  lemma FirstLetter(p: string, s: seq<string>)
    requires |s| == 3 && s[0] == "artifacts" && p == Join(['/'], s)
    ensures !Dotted(p)
  {
    assert p[0] == s[0][0];
    assert "artifacts"[0] == 'a' && "./"[0] == '.' && "../"[0] == '.';
  }

  /** A text that is nothing but that path becomes the new path. */
  lemma LonePathRewritten(cwd: seq<string>, srcDir: string, dstDir: string, month: string, newByOld: map<string, string>, p: string)
    requires WaveMap(month, newByOld) && p in newByOld && IsToken(p)
    ensures Rewritten(cwd, p, srcDir, dstDir, newByOld) == newByOld[p]
  {
    LoneToken(p);
    hide Tokens, WaveMap, IsToken, Edit, Replacements;
    FullPathRewritten(cwd, p, srcDir, dstDir, month, newByOld, p);
    LoneEdit(p, Replacements(cwd, p, srcDir, dstDir, newByOld));
  }

  lemma LoneToken(q: string)
    requires IsToken(q)
    ensures Tokens(q) == [q]
  {
    assert WellCut(Cut("", q, ""));
    assert "" + q + "" == q;
    CutUnique(Cut("", q, ""));
    LongestUnique(q, Some(|q|));
    assert q[..|q|] == q;
    assert Tokens("") == [];
  }

  lemma LoneEdit(q: string, m: map<string, string>)
    requires IsToken(q) && q in m
    ensures Edit(q, m) == m[q]
  {
    assert WellCut(Cut("", q, ""));
    assert "" + q + "" == q;
    CutUnique(Cut("", q, ""));
    LongestUnique(q, Some(|q|));
    assert q[..|q|] == q && q[|q|..] == "";
    assert Edit("", m) == "";
    assert "" + (m[q] + "") + "" == m[q];
  }

  lemma CleanIsFixed(cwd: seq<string>, out: string, dir: string, dstDir: string, newByOld: map<string, string>)
    requires Pointing(dir, Tokens(out), newByOld.Keys) == []
    ensures Rewritten(cwd, out, dir, dstDir, newByOld) == out
  {
    hide Hits, MatchOld, RewriteRef, Edit, Tokens;
    PointingNone(Tokens(out), dir, newByOld.Keys);
    EditIdentity(out, Replacements(cwd, out, dir, dstDir, newByOld));
  }

  /** For any file, moved or not: the re-scan is empty exactly when no token of the original text
      starts to point at a moved path because the file itself moved. */
  lemma CleanExactly(cwd: seq<string>, text: string, srcDir: string, dstDir: string, month: string, newByOld: map<string, string>)
    requires AllOrdinary(cwd) && GoodDir(srcDir) && GoodDir(dstDir) && WaveMap(month, newByOld)
    ensures Pointing(dstDir, Tokens(Rewritten(cwd, text, srcDir, dstDir, newByOld)), newByOld.Keys) == []
            <==> forall tok | tok in Tokens(text) ::
                   Hits(dstDir, tok, newByOld.Keys) ==> Hits(srcDir, tok, newByOld.Keys)
  {
    hide Hits, MatchOld, WaveMap, GoodDir, Tokens, Rewritten;
    RescanExact(cwd, text, srcDir, dstDir, month, newByOld);
    StrandedEmpty(Tokens(text), srcDir, dstDir, newByOld.Keys);
  }

  lemma {:induction false} StrandedEmpty(toks: seq<string>, srcDir: string, dstDir: string, rels: set<string>)
    ensures Stranded(toks, srcDir, dstDir, rels) == []
            <==> forall tok | tok in toks :: Hits(dstDir, tok, rels) ==> Hits(srcDir, tok, rels)
  {
    hide Hits, MatchOld;
    if toks != [] {
      StrandedEmpty(toks[1..], srcDir, dstDir, rels);
      assert forall t | t in toks :: t == toks[0] || t in toks[1..];
    }
  }

  /** Everything outside the rewritten links is copied: the output is the original's pieces woven with
      the original tokens, the matched ones replaced. */
  lemma OnlyLinksChange(cwd: seq<string>, text: string, srcDir: string, dstDir: string, newByOld: map<string, string>)
    ensures var toks := Tokens(text);
            var out := EditAll(toks, Replacements(cwd, text, srcDir, dstDir, newByOld));
            && text == Weave(Outside(text), toks)
            && Rewritten(cwd, text, srcDir, dstDir, newByOld) == Weave(Outside(text), out)
            && forall k | 0 <= k < |toks| ::
                 var hit := MatchOld(srcDir, toks[k], newByOld.Keys);
                 out[k] == if hit.Some? then RewriteRef(cwd, dstDir, hit.value, newByOld) else toks[k]
  {
    hide Hits, MatchOld, RewriteRef, Edit, Tokens, Weave, Outside;
    var m := Replacements(cwd, text, srcDir, dstDir, newByOld);
    TextWeaves(text);
    EditWeaves(text, m);
  }
}

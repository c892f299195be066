/** The links of a file that itself moves: what a clean plan does not promise, and how a plan comes out broken. */
module WaveLinks {
  import opened Text
  import opened PosixPaths
  import opened TokenEdit
  import opened LinkRewrite
  import opened LinkTheorems
  import opened ArchiveWave
  import opened FileMoves
  import opened WaveTheorems
  import opened WaveResume

  lemma ReadingSegs(dir: string, tok: string)
    requires GoodDir(dir) && tok != "" && tok[0] != '/'
    ensures Reading(dir, tok) == PathOf(Norm(false, DirSegs(dir), Split(tok, '/')))
  {
    var d := DirOr(dir);
    DirOrText(dir);
    DirOrSegs(dir);
    NormPathOf(DirSegs(dir));
    hide GoodDir, Norm;
    JoinedText(d, tok);
    SplitConcat(d, tok, '/');
    NormAppend(false, [], Split(d, '/'), Split(tok, '/'));
  }

  /** Paths of different depth are different. */
  lemma DepthsApart(a: seq<string>, b: seq<string>)
    requires SlashFree(a) && SlashFree(b) && "." !in a && "." !in b && |a| != |b|
    ensures PathOf(a) != PathOf(b)
  {
    SplitPathOf(a);
    SplitPathOf(b);
    assert a != ["."] && b != ["."];
  }

  lemma NormalParts(dir: seq<string>, comps: seq<string>)
    requires AllOrdinary(dir) && forall c | c in comps :: '/' !in c
    ensures SlashFree(Norm(false, dir, comps)) && "." !in Norm(false, dir, comps)
  {
    OrdinaryParts();
    NormParts(false, dir, comps);
    NoDotParts(dir, comps);
  }

  lemma {:induction false} NoDotParts(acc: seq<string>, comps: seq<string>)
    requires "." !in acc
    ensures "." !in Norm(false, acc, comps)
    decreases |comps|
  {
    if comps != [] {
      NoDotParts(NormStep(false, acc, comps[0]), comps[1..]);
    }
  }

  /** From `artifacts/<category>` to `artifacts/archive/<month>` every relative link changes what it points at. */
  lemma MovedLinkTurns(dir: string, month: string, tok: string)
    requires GoodDir(dir) && |DirSegs(dir)| == 2 && GoodMonth(month) && tok != "" && tok[0] != '/'
    ensures Reading(dir, tok) != Reading(ArchiveDir(month), tok)
  {
    var from, to, comps := DirSegs(dir), ARCHIVE + [month], Split(tok, '/');
    ArchiveDirSegs(month);
    DirOrSegs(dir);
    SplitParts(tok, '/');
    ReadingSegs(dir, tok);
    ReadingSegs(ArchiveDir(month), tok);
    hide GoodDir, Norm, Reading, ArchiveDir;
    NormalParts(from, comps);
    NormalParts(to, comps);
    DepthsDiffer(from, to, comps);
    DepthsApart(Norm(false, from, comps), Norm(false, to, comps));
  }

  lemma TailParent(p: string)
    requires IsTail(p)
    ensures GoodDir(ParentDir(p)) && |DirSegs(ParentDir(p))| == 2
  {
    var s := Split(p, '/');
    assert Ordinary(s[0]) && Ordinary(s[1]) by {
      CategorySlashFree(s[1]);
    }
    var up := s[..2];
    assert forall x | x in up :: x == s[0] || x == s[1];
    SplitJoin(up, '/');
    JoinFirst(up);
  }

  lemma {:induction false} KeptToken(toks: seq<string>, m: map<string, string>, tok: string)
    requires tok in toks && tok !in m && IsToken(tok)
    ensures tok in EditedTokens(toks, m)
  {
    if tok != toks[0] {
      KeptToken(toks[1..], m, tok);
    }
  }

  /** In a file that moves, every token that pointed at no moved file is kept as it is, and read relative to the file
      it points at another path than before, whether or not the plan was clean. */
  lemma UnmovedTargetsTurn(cwd: seq<string>, p: string, text: string, tok: string, month: string, table: map<string, string>)
    requires AllOrdinary(cwd) && WaveMap(month, table) && p in table
    requires tok in Tokens(text) && !Hits(ParentDir(p), tok, table.Keys)
    ensures tok in Tokens(RewrittenFile(cwd, p, text, table))
    ensures Reading(ParentDir(p), tok) != Reading(ParentDir(FinalPath(p, table)), tok)
  {
    TailParent(p);
    MovesToArchive(month, table, p);
    ArchiveDirGood(month, table);
    TokensAreTokens(text);
    TokenLast(tok);
    hide Reading, ArchiveDir, WaveMap, Hits, MatchOld, RewriteRef, Edit, Tokens, GoodDir, IsToken, Keeps, ParentDir;
    MovedLinkTurns(ParentDir(p), month, tok) by { MonthOf(month, table); }
    var m := Replacements(cwd, text, ParentDir(p), ArchiveDir(month), table);
    ReplacementsKeep(cwd, text, ParentDir(p), ArchiveDir(month), month, table);
    TokensOfEdit(text, m);
    KeptToken(Tokens(text), m, tok);
  }

  lemma MonthOf(month: string, table: map<string, string>)
    requires WaveMap(month, table)
    ensures GoodMonth(month)
  {
  }

  // ---------------------------------------------------------------------------------------------
  // A broken plan
  // ---------------------------------------------------------------------------------------------

  const FROM_FRAMES: seq<string> := ["..", "..", "analyses"]

  /** `../../analyses/x.md`: from `artifacts/frames` it points outside the artifacts, from the archive into them. */
  function StrayLink(x: string): string { PathOf(FROM_FRAMES + [x]) }

  lemma StrayToken(x: string)
    requires MdName(x)
    ensures IsToken(StrayLink(x)) && Dotted(StrayLink(x)) && Split(StrayLink(x), '/') == FROM_FRAMES + [x]
  {
    var segs := FROM_FRAMES + [x];
    MdOrdinary(x);
    assert Plain("..") && Plain("analyses");
    assert Plain(x);
    assert segs[0] == ".." && segs[1] == ".." && segs[2] == "analyses" && segs[3] == x;
    PlainToken(segs);
    SplitPathOf(segs);
    ClimbDotted(segs);
    assert |segs| > 1;
  }

  lemma StrayComps(x: string)
    requires Ordinary(x)
    ensures FROM_FRAMES + [x] == Ups(2) + ["analyses", x] && AllOrdinary(["analyses", x])
  {
    assert Ordinary("analyses");
  }

  lemma ClimbTwo(dir: seq<string>, down: seq<string>)
    requires AllOrdinary(dir) && |dir| >= 2 && AllOrdinary(down)
    ensures Norm(false, dir, Ups(2) + down) == dir[..|dir| - 2] + down
  {
    var up := dir[..|dir| - 2];
    assert AllOrdinary(up) by { assert forall s | s in up :: s in dir; }
    hide Norm, Ordinary;
    NormAppend(false, dir, Ups(2), down);
    NormUps(dir, 2);
    NormOrdinary(false, up, down);
  }

  lemma FramesDir(a: string)
    requires Ordinary(a)
    ensures var d := ParentDir(Tail("frames", a)); GoodDir(d) && DirSegs(d) == ["artifacts", "frames"]
    ensures GoodPath(Tail("frames", a)) && IsTail(Tail("frames", a)) && BaseOf(Tail("frames", a)) == a
  {
    TailSegs("frames", a);
    TailParent(Tail("frames", a));
    var up := ["artifacts", "frames"];
    assert ["artifacts", "frames", a][..2] == up;
    assert Ordinary("artifacts") && Ordinary("frames");
    SplitJoin(up, '/');
    JoinFirst(up);
  }

  /** What the stray link points at from a directory, as components. */
  lemma StraySegs(dir: string, x: string)
    requires GoodDir(dir) && |DirSegs(dir)| >= 2 && MdName(x)
    ensures Reading(dir, StrayLink(x)) == PathOf(DirSegs(dir)[..|DirSegs(dir)| - 2] + ["analyses", x])
  {
    MdOrdinary(x);
    StrayComps(x);
    StrayToken(x);
    TokenLast(StrayLink(x));
    DirOrSegs(dir);
    var down := ["analyses", x];
    hide Reading, StrayLink, GoodDir, Norm, DirSegs, Ordinary, MdName, IsToken, Dotted, FROM_FRAMES;
    ReadingSegs(dir, StrayLink(x));
    ClimbTwo(DirSegs(dir), down);
  }

  /** From `artifacts/frames` the stray link points at `analyses/x.md`, which is no artifact. */
  lemma StrayFromFrames(a: string, x: string)
    requires Ordinary(a) && MdName(x)
    ensures !IsTail(Reading(ParentDir(Tail("frames", a)), StrayLink(x)))
  {
    FramesDir(a);
    MdOrdinary(x);
    var dir := ParentDir(Tail("frames", a));
    var segs := ["analyses", x];
    assert DirSegs(dir)[..0] + segs == segs;
    NotTail(segs) by { assert segs[0] == "analyses" && segs[1] == x; }
    hide Reading, StrayLink, ParentDir, GoodDir, Tail, IsTail, Ordinary, MdName, DirSegs;
    StraySegs(dir, x);
  }

  /** From the archive it points at `artifacts/analyses/x.md`. */
  lemma StrayFromArchive(x: string, month: string)
    requires MdName(x) && GoodMonth(month)
    ensures Reading(ArchiveDir(month), StrayLink(x)) == Tail("analyses", x)
  {
    ArchiveDirSegs(month);
    MdOrdinary(x);
    TailSegs("analyses", x);
    assert (ARCHIVE + [month])[..1] + ["analyses", x] == ["artifacts", "analyses", x];
    hide Reading, StrayLink, ArchiveDir, GoodDir, Tail, IsTail, Ordinary, MdName, DirSegs;
    StraySegs(ArchiveDir(month), x);
    JoinSplit(Tail("analyses", x), '/');
  }

  /** A plan over two moving files, the first with a single link that turns onto the second. */
  lemma TurnsOnto(cwd: seq<string>, p: string, y: string, link: string, month: string, table: map<string, string>)
    requires AllOrdinary(cwd) && WaveMap(month, table) && table.Keys == {p, y} && p != y
    requires GoodPath(p) && GoodPath(y) && IsToken(link) && Dotted(link)
    requires Reading(ParentDir(p), link) !in table && Reading(ArchiveDir(month), link) in table
    ensures MatchOld(ParentDir(p), link, table.Keys) == None
    ensures !AllClean(cwd, map[p := link, y := ""], [p, y], table)
  {
    hide Tokens, WaveMap, GoodPath, IsToken, ArchiveDir, ParentDir, NormPath, JoinPath, AllClean;
    LoneToken(link);
    MovesToArchive(month, table, p);
    BrokenExactly(cwd, map[p := link, y := ""], [p, y], month, table);
    assert link in Tokens(map[p := link, y := ""][p]) && p in [p, y];
  }

  /** A plan that comes out broken although every rewritten link is right. Both files move; the link in the first
      pointed at no moved file before, and points at the second from where the first will be. */
  lemma BrokenPlan(cwd: seq<string>, a: string, x: string, month: string)
    requires AllOrdinary(cwd) && MdName(a) && MdName(x) && GoodMonth(month)
    ensures var p, y := Tail("frames", a), Tail("analyses", x);
            var table := map[p := NewTail(month, a), y := NewTail(month, x)];
            && WaveMap(month, table) && !Hits(ParentDir(p), StrayLink(x), table.Keys)
            && !AllClean(cwd, map[p := StrayLink(x), y := ""], [p, y], table)
  {
    var p, y := Tail("frames", a), Tail("analyses", x);
    BrokenPlanPaths(a, x, month);
    StrayToken(x);
    MdOrdinary(a);
    hide Tail, NewTail, IsTail, GoodPath, MdName, Ordinary, GoodMonth, WaveMap, StrayLink, Reading, Hits, MatchOld, AllClean;
    StrayFromFrames(a, x);
    StrayFromArchive(x, month);
    TurnsOnto(cwd, p, y, StrayLink(x), month, map[p := NewTail(month, a), y := NewTail(month, x)]);
  }

  lemma BrokenPlanPaths(a: string, x: string, month: string)
    requires MdName(a) && MdName(x) && GoodMonth(month)
    ensures var p, y := Tail("frames", a), Tail("analyses", x);
            && p != y && IsTail(p) && IsTail(y) && GoodPath(p) && GoodPath(y)
            && WaveMap(month, map[p := NewTail(month, a), y := NewTail(month, x)])
  {
    MdOrdinary(a);
    MdOrdinary(x);
    TailSegs("frames", a);
    TailSegs("analyses", x);
    assert "frames"[0] != "analyses"[0];
    hide Tail, NewTail, IsTail, MdName, Ordinary, GoodMonth;
    GoodTail(Tail("frames", a));
    GoodTail(Tail("analyses", x));
  }

  lemma GoodTail(p: string)
    requires IsTail(p)
    ensures GoodPath(p)
  {
    var s := Split(p, '/');
    CategorySlashFree(s[1]);
    assert forall x | x in s :: x == s[0] || x == s[1] || x == s[2];
  }

  // ---------------------------------------------------------------------------------------------
  // A clean plan that leaves a dead link
  // ---------------------------------------------------------------------------------------------

  /** A bare basename read from `artifacts/frames` and from the archive. */
  lemma BareReadings(a: string, b: string, month: string)
    requires Ordinary(a) && MdName(b) && GoodMonth(month)
    ensures Reading(ParentDir(Tail("frames", a)), b) == Tail("frames", b)
    ensures Reading(ArchiveDir(month), b) == NewTail(month, b)
  {
    hide Reading, ArchiveDir, ParentDir, Tail, NewTail, Ordinary, MdName, GoodMonth;
    BareInFrames(a, b);
    BareInArchive(b, month);
  }

  lemma BareInFrames(a: string, b: string)
    requires Ordinary(a) && MdName(b)
    ensures Reading(ParentDir(Tail("frames", a)), b) == Tail("frames", b)
  {
    MdOrdinary(b);
    TokenLast(b);
    FramesDir(a);
    TailSegs("frames", b);
    SplitNone(b, '/');
    var from := ["artifacts", "frames"];
    assert AllOrdinary(from) by { DirOrSegs(ParentDir(Tail("frames", a))); }
    assert from + [b] == ["artifacts", "frames", b];
    hide Reading, ParentDir, GoodDir, Norm, Tail, IsTail, Ordinary, MdName;
    ReadingSegs(ParentDir(Tail("frames", a)), b);
    NormOrdinary(false, from, [b]);
    JoinSplit(Tail("frames", b), '/');
  }

  lemma BareInArchive(b: string, month: string)
    requires MdName(b) && GoodMonth(month)
    ensures Reading(ArchiveDir(month), b) == NewTail(month, b)
  {
    MdOrdinary(b);
    TokenLast(b);
    ArchiveDirSegs(month);
    NewTailSegs(month, b);
    SplitNone(b, '/');
    var to := ARCHIVE + [month];
    assert to + [b] == NewSegs(month, b);
    hide Reading, ArchiveDir, GoodDir, Norm, NewTail, IsTail, Ordinary, MdName;
    ReadingSegs(ArchiveDir(month), b);
    NormOrdinary(false, to, [b]);
  }

  lemma BareFromArchive(b: string, month: string, newByOld: map<string, string>)
    requires MdName(b) && WaveMap(month, newByOld)
    ensures MatchOld(ArchiveDir(month), b, newByOld.Keys) == None
  {
    MdOrdinary(b);
    ArchiveDirGood(month, newByOld);
    BareReadings("a", b, month);
    NewTailSegs(month, b);
    if MatchOld(ArchiveDir(month), b, newByOld.Keys).Some? {
      BareHit(ArchiveDir(month), b, newByOld.Keys, month, newByOld);
    }
  }

  /** One file moves and links to a neighbour that does not: the plan is clean, the wave loses no file, and the link,
      which had a target before, points at nothing afterwards. */
  lemma CleanPlanDeadLink(cwd: seq<string>, a: string, b: string, month: string)
    requires AllOrdinary(cwd) && MdName(a) && MdName(b) && a != b && GoodMonth(month)
    ensures var p, q := Tail("frames", a), Tail("frames", b);
            var move := Move(p, NewTail(month, a));
            var files := map[p := b, q := ""];
            var tree := RewrittenTree(cwd, files, [p, q], Table([move]));
            && WaveMap(month, Table([move])) && Movable(files, [move]) && Unopposed(files, [move])
            && AllClean(cwd, files, [p, q], Table([move]))
            && Tokens(files[p]) == [b] && Reading(ParentDir(p), b) in files
            && Movable(tree, [move]) && b in Tokens(RewrittenFile(cwd, p, files[p], Table([move])))
            && Reading(ParentDir(move.dst), b) !in MoveAll(tree, [move])
  {
    hide NewTail, Tail, IsTail, ParentDir, MdName, GoodMonth, Tokens, WaveMap, ArchiveDir, Reading;
    hide Hits, MatchOld, Rewritten, Table, Pointing, AllClean, RewrittenTree, RewrittenFile, Movable, Unopposed, MoveAll;
    DeadLinkBefore(cwd, a, b, month);
    DeadLinkAfter(cwd, a, b, month);
  }

  lemma DeadLinkBefore(cwd: seq<string>, a: string, b: string, month: string)
    requires AllOrdinary(cwd) && MdName(a) && MdName(b) && a != b && GoodMonth(month)
    ensures var p, q := Tail("frames", a), Tail("frames", b);
            var move := Move(p, NewTail(month, a));
            var files := map[p := b, q := ""];
            && WaveMap(month, Table([move])) && Movable(files, [move]) && Unopposed(files, [move])
            && AllClean(cwd, files, [p, q], Table([move]))
            && Tokens(files[p]) == [b] && Reading(ParentDir(p), b) in files
  {
    var p, q := Tail("frames", a), Tail("frames", b);
    var move := Move(p, NewTail(month, a));
    OneMove(move);
    DeadLinkPaths(a, b, month);
    BareReadings(a, b, month) by { MdOrdinary(a); }
    LoneToken(b);
    hide NewTail, Tail, IsTail, GoodPath, ParentDir, MdName, Ordinary, GoodMonth, Tokens, WaveMap, ArchiveDir, Reading;
    hide Table, AllClean;
    DeadLinkClean(cwd, a, b, month, Table([move]));
    LoneMove(map[p := b, q := ""], move);
  }

  lemma DeadLinkKept(cwd: seq<string>, a: string, b: string, month: string, table: map<string, string>)
    requires AllOrdinary(cwd) && MdName(a) && MdName(b) && a != b && GoodMonth(month)
    requires table == map[Tail("frames", a) := NewTail(month, a)]
    ensures b in Tokens(RewrittenFile(cwd, Tail("frames", a), b, table))
  {
    DeadLinkPaths(a, b, month);
    LoneToken(b);
    NoHitBefore(a, b, table);
    hide NewTail, Tail, IsTail, ParentDir, MdName, Ordinary, GoodMonth, Tokens, WaveMap, ArchiveDir, Reading;
    hide Hits, MatchOld, Rewritten, RewrittenFile;
    UnmovedTargetsTurn(cwd, Tail("frames", a), b, b, month, table);
  }

  lemma DeadLinkGone(a: string, b: string, month: string, tree: Tree)
    requires MdName(a) && MdName(b) && a != b && GoodMonth(month)
    requires tree.Keys == {Tail("frames", a), Tail("frames", b)}
    ensures var move := Move(Tail("frames", a), NewTail(month, a));
            Movable(tree, [move]) && Reading(ParentDir(move.dst), b) !in MoveAll(tree, [move])
  {
    var p, q := Tail("frames", a), Tail("frames", b);
    var move := Move(p, NewTail(month, a));
    DeadLinkPaths(a, b, month);
    BareReadings(a, b, month) by { MdOrdinary(a); }
    MovesToArchive(month, map[p := move.dst], p);
    hide NewTail, Tail, IsTail, GoodPath, ParentDir, MdName, Ordinary, GoodMonth, WaveMap, ArchiveDir, Reading;
    hide Movable, MoveAll;
    LoneMoveKeys(tree, move, q);
  }

  lemma DeadLinkAfter(cwd: seq<string>, a: string, b: string, month: string)
    requires AllOrdinary(cwd) && MdName(a) && MdName(b) && a != b && GoodMonth(month)
    ensures var p, q := Tail("frames", a), Tail("frames", b);
            var move := Move(p, NewTail(month, a));
            var files := map[p := b, q := ""];
            var tree := RewrittenTree(cwd, files, [p, q], Table([move]));
            && Movable(tree, [move]) && b in Tokens(RewrittenFile(cwd, p, files[p], Table([move])))
            && Reading(ParentDir(move.dst), b) !in MoveAll(tree, [move])
  {
    var p, q := Tail("frames", a), Tail("frames", b);
    var move := Move(p, NewTail(month, a));
    var files := map[p := b, q := ""];
    hide NewTail, Tail, ParentDir, MdName, GoodMonth, Tokens, Reading, Table, RewrittenTree, RewrittenFile, Movable, MoveAll;
    hide ArchiveDir, WaveMap, GoodPath, IsTail, Ordinary, AllOrdinary;
    assert p != q by { DeadLinkPaths(a, b, month); }
    OneMove(move);
    var tree := RewrittenTree(cwd, files, [p, q], Table([move]));
    TreeKeys(cwd, files, [p, q], Table([move]));
    DeadLinkKept(cwd, a, b, month, Table([move]));
    DeadLinkGone(a, b, month, tree);
  }

  lemma LoneMoveKeys(tree: Tree, m: Move, other: string)
    requires tree.Keys == {m.src, other} && m.src != other && m.dst !in tree
    ensures Movable(tree, [m]) && MoveAll(tree, [m]).Keys == {other, m.dst}
  {
    assert m.src in tree.Keys;
    LoneMove(tree, m);
    MoveOneIsAll(tree, m);
    assert MoveOne(tree, m).Keys == tree.Keys - {m.src} + {m.dst};
  }

  lemma LoneMove(files: Tree, m: Move)
    requires m.src in files && m.dst !in files
    ensures Movable(files, [m]) && Unopposed(files, [m])
  {
  }

  lemma DeadLinkPaths(a: string, b: string, month: string)
    requires MdName(a) && MdName(b) && a != b && GoodMonth(month)
    ensures var p, q, dst := Tail("frames", a), Tail("frames", b), NewTail(month, a);
            && p != q && dst != p && dst != q && NewTail(month, b) !in {p, q, dst}
            && WaveMap(month, map[p := dst]) && GoodPath(p) && GoodPath(q)
  {
    MdOrdinary(a);
    MdOrdinary(b);
    FramesDir(a);
    FramesDir(b);
    TailSegs("frames", a);
    TailSegs("frames", b);
    NewTailSegs(month, a);
    NewTailSegs(month, b);
    hide Tail, NewTail, IsTail, GoodPath, MdName, Ordinary, GoodMonth;
    assert NewSegs(month, a)[3] == a && NewSegs(month, b)[3] == b;
  }

  /** One file moves, and none of its tokens turns onto it. */
  lemma LoneMoverClean(cwd: seq<string>, files: Tree, scan: seq<string>, p: string, month: string, table: map<string, string>)
    requires AllOrdinary(cwd) && WaveMap(month, table) && table.Keys == {p}
    requires p in files && forall f | f in scan :: f in files && GoodPath(f)
    requires forall tok | tok in Tokens(files[p]) :: MatchOld(ArchiveDir(month), tok, table.Keys) == None
    ensures AllClean(cwd, files, scan, table)
  {
    hide Tokens, WaveMap, GoodPath, ArchiveDir, ParentDir, AllClean, Hits, MatchOld;
    MovesToArchive(month, table, p);
    BrokenExactly(cwd, files, scan, month, table);
  }

  lemma DeadLinkClean(cwd: seq<string>, a: string, b: string, month: string, table: map<string, string>)
    requires AllOrdinary(cwd) && MdName(a) && MdName(b) && a != b && GoodMonth(month)
    requires table == map[Tail("frames", a) := NewTail(month, a)]
    ensures var p, q := Tail("frames", a), Tail("frames", b); AllClean(cwd, map[p := b, q := ""], [p, q], table)
  {
    var p, q := Tail("frames", a), Tail("frames", b);
    DeadLinkPaths(a, b, month);
    LoneToken(b);
    hide *;
    BareFromArchive(b, month, table);
    LoneLinkClean(cwd, p, q, b, month, table);
  }

  lemma LoneLinkClean(cwd: seq<string>, p: string, q: string, b: string, month: string, table: map<string, string>)
    requires AllOrdinary(cwd) && WaveMap(month, table) && table.Keys == {p} && p != q && GoodPath(p) && GoodPath(q)
    requires Tokens(b) == [b] && MatchOld(ArchiveDir(month), b, table.Keys) == None
    ensures AllClean(cwd, map[p := b, q := ""], [p, q], table)
  {
    hide *;
    var files := map[p := b, q := ""];
    assert files[p] == b;
    LoneMoverClean(cwd, files, [p, q], p, month, table);
  }

  lemma OneMove(m: Move)
    ensures Table([m]) == map[m.src := m.dst]
  {
    assert [m][..0] == [];
    assert Table([m][..0]) == map[];
  }

  /** The neighbour does not move, so the link points at no moved file. */
  lemma NoHitBefore(a: string, b: string, table: map<string, string>)
    requires MdName(a) && MdName(b) && a != b && table.Keys == {Tail("frames", a)}
    ensures MatchOld(ParentDir(Tail("frames", a)), b, table.Keys) == None
  {
    MdOrdinary(a);
    FramesDir(a);
    TailSegs("frames", a);
    if MatchOld(ParentDir(Tail("frames", a)), b, table.Keys).Some? {
      SplitNone(b, '/');
      HitLast(ParentDir(Tail("frames", a)), b, table.Keys);
    }
  }
}

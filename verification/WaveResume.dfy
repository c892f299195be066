/** Running the wave again after a run that was cut short. */
module WaveResume {
  import opened Text
  import opened PosixPaths
  import opened PathTokens
  import opened TokenEdit
  import opened LinkRewrite
  import opened LinkTheorems
  import opened FileMoves
  import opened ArchiveWave
  import opened WaveTheorems

  // ---------------------------------------------------------------------------------------------
  // A second rewrite
  // ---------------------------------------------------------------------------------------------

  const ARCHIVE: seq<string> := ["artifacts", "archive"]

  /** Where a wave of the given month puts its files. */
  function ArchiveDir(month: string): string { Join("/", ARCHIVE + [month]) }

  lemma ArchiveDirSegs(month: string)
    requires GoodMonth(month)
    ensures AllOrdinary(ARCHIVE + [month])
    ensures Split(ArchiveDir(month), '/') == ARCHIVE + [month]
    ensures GoodDir(ArchiveDir(month)) && DirSegs(ArchiveDir(month)) == ARCHIVE + [month]
  {
    var segs := ARCHIVE + [month];
    assert forall c | c in month :: IsName(c);
    assert segs[0] == "artifacts" && segs[1] == "archive" && segs[2] == month;
    SplitJoin(segs, '/');
    JoinFirst(segs);
  }

  lemma MovesToArchive(month: string, newByOld: map<string, string>, p: string)
    requires WaveMap(month, newByOld) && p in newByOld
    ensures ParentDir(newByOld[p]) == ArchiveDir(month)
  {
    NewTailSegs(month, BaseOf(p));
    assert NewSegs(month, BaseOf(p))[..3] == ARCHIVE + [month];
  }

  /** A relative link from the archive directory to a file in it is the bare basename. */
  lemma SiblingLink(cwd: seq<string>, month: string, base: string)
    requires AllOrdinary(cwd) && GoodMonth(month) && Ordinary(base)
    ensures RelPath(cwd, NewTail(month, base), DirOr(ArchiveDir(month))) == base
  {
    var from := ARCHIVE + [month];
    ArchiveDirSegs(month);
    RelativeLands(cwd, ArchiveDir(month), month, base);
    assert NewSegs(month, base) == from + [base];
    assert from + [] == from;
    RelSegsShift(from, [], [base]);
    assert Ups(0) + [base] == [base];
  }

  predicate SubMap(rest: map<string, string>, all: map<string, string>) {
    forall p | p in rest :: p in all && rest[p] == all[p]
  }

  /** A bare basename read from any directory can only point at a moved file of that name there. */
  lemma BareHit(dir: string, base: string, rels: set<string>, month: string, newByOld: map<string, string>)
    requires GoodDir(dir) && MdName(base) && WaveMap(month, newByOld) && rels <= newByOld.Keys
    requires MatchOld(dir, base, rels).Some?
    ensures var hit := MatchOld(dir, base, rels).value; hit.style == Relative && newByOld[hit.path] == NewTail(month, base)
  {
    MdOrdinary(base);
    SplitNone(base, '/');
    NormPathOf([base]);
    assert !IsTail(base);
    var hit := MatchOld(dir, base, rels).value;
    assert IsTail(hit.path);
    HitBase(dir, base, rels);
  }

  /** A rewritten link, seen again from the file's old directory, is rewritten to itself or left alone. */
  lemma SameAgain(cwd: seq<string>, dir: string, tok: string, month: string, newByOld: map<string, string>,
                  rest: map<string, string>)
    requires AllOrdinary(cwd) && GoodDir(dir) && IsToken(tok) && WaveMap(month, newByOld) && SubMap(rest, newByOld)
    requires MatchOld(dir, tok, newByOld.Keys).Some?
    ensures var q := RewriteRef(cwd, ArchiveDir(month), MatchOld(dir, tok, newByOld.Keys).value, newByOld);
            var again := MatchOld(dir, q, rest.Keys);
            again.Some? ==> RewriteRef(cwd, ArchiveDir(month), again.value, rest) == q
  {
    hide IsToken, GoodMonth, GoodDir, ArchiveDir, NormPath, JoinPath, MdName, RelPath;
    var hit := MatchOld(dir, tok, newByOld.Keys).value;
    HitBase(dir, tok, newByOld.Keys);
    var base := BaseOf(hit.path);
    MdOrdinary(base);
    if hit.style == Root {
      FullIsNew(dir, month, base);
    } else {
      SiblingLink(cwd, month, base);
      if MatchOld(dir, base, rest.Keys).Some? {
        BareHit(dir, base, rest.Keys, month, newByOld);
      }
    }
  }

  lemma FewerHits(dir: string, tok: string, a: set<string>, b: set<string>)
    requires a <= b && MatchOld(dir, tok, b) == None
    ensures MatchOld(dir, tok, a) == None
  {
  }

  /** A text all of whose tokens the rewrite of a moving file has produced: rewriting it, for the same wave or for what
      is left of it, changes nothing. */
  lemma PartAgain(cwd: seq<string>, text: string, part: string, dir: string, month: string, newByOld: map<string, string>,
                  rest: map<string, string>)
    requires AllOrdinary(cwd) && GoodDir(dir) && WaveMap(month, newByOld) && SubMap(rest, newByOld)
    requires forall q | q in Tokens(part) :: q in Tokens(Rewritten(cwd, text, dir, ArchiveDir(month), newByOld))
    ensures Rewritten(cwd, part, dir, ArchiveDir(month), rest) == part
  {
    hide Hits, MatchOld, RewriteRef, WaveMap, IsToken, Edit, Tokens, ArchiveDir, Keeps, EditedTokens;
    ArchiveDirGood(month, newByOld);
    var m := Replacements(cwd, text, dir, ArchiveDir(month), newByOld);
    var again := Replacements(cwd, part, dir, ArchiveDir(month), rest);
    ReplacementsKeep(cwd, text, dir, ArchiveDir(month), month, newByOld);
    TokensOfEdit(text, m);
    TokensAreTokens(text);
    assert rest.Keys <= newByOld.Keys;
    forall q | q in Tokens(part) && q in again
      ensures again[q] == q
    {
      var tok := EditedFrom(Tokens(text), m, q);
      if tok in m {
        SameAgain(cwd, dir, tok, month, newByOld, rest);
      } else {
        FewerHits(dir, tok, rest.Keys, newByOld.Keys);
      }
    }
    EditIdentity(part, again);
  }

  /** A file that is to move: rewriting it again, for the same wave or for what is left of it, changes nothing. */
  lemma RewriteAgain(cwd: seq<string>, text: string, dir: string, month: string, newByOld: map<string, string>,
                     rest: map<string, string>)
    requires AllOrdinary(cwd) && GoodDir(dir) && WaveMap(month, newByOld) && SubMap(rest, newByOld)
    ensures var out := Rewritten(cwd, text, dir, ArchiveDir(month), newByOld);
            Rewritten(cwd, out, dir, ArchiveDir(month), rest) == out
  {
    hide *;
    PartAgain(cwd, text, Rewritten(cwd, text, dir, ArchiveDir(month), newByOld), dir, month, newByOld, rest);
  }

  lemma ArchiveDirGood(month: string, newByOld: map<string, string>)
    requires WaveMap(month, newByOld)
    ensures GoodDir(ArchiveDir(month))
  {
    ArchiveDirSegs(month);
  }

  /** Rewriting any file of the tree again for the same wave changes nothing. */
  lemma FileAgain(cwd: seq<string>, p: string, text: string, month: string, table: map<string, string>)
    requires AllOrdinary(cwd) && GoodPath(p) && WaveMap(month, table)
    ensures RewrittenFile(cwd, p, RewrittenFile(cwd, p, text, table), table) == RewrittenFile(cwd, p, text, table)
  {
    hide Rewritten, ParentDir, WaveMap, GoodPath, ArchiveDir;
    ParentGood(p);
    if p in table {
      MovesToArchive(month, table, p);
      RewriteAgain(cwd, text, ParentDir(p), month, table, table);
    } else {
      UnmovedFileIsClean(cwd, text, ParentDir(p), month, table);
    }
  }

  /** The tree when only the first `r` files were rewritten, rewritten again, is the rewritten tree. */
  lemma TreeAgain(cwd: seq<string>, files: Tree, scan: seq<string>, r: nat, month: string, table: map<string, string>)
    requires AllOrdinary(cwd) && WaveMap(month, table) && r <= |scan|
    requires forall f | f in scan :: f in files && GoodPath(f)
    ensures RewrittenTree(cwd, RewrittenTree(cwd, files, scan[..r], table), scan, table) == RewrittenTree(cwd, files, scan, table)
  {
    hide RewrittenFile, GoodPath, WaveMap;
    assert forall f | f in scan[..r] :: f in scan;
    forall p | p in scan[..r]
      ensures RewrittenFile(cwd, p, RewrittenFile(cwd, p, files[p], table), table) == RewrittenFile(cwd, p, files[p], table)
    {
      FileAgain(cwd, p, files[p], month, table);
    }
  }

  // ---------------------------------------------------------------------------------------------
  // What is left of a wave
  // ---------------------------------------------------------------------------------------------

  lemma SourcesApart(moves: seq<Move>, k: nat)
    requires Distinct(moves) && k <= |moves|
    ensures Distinct(moves[k..])
    ensures forall m, n | m in moves[..k] && n in moves[k..] :: m.src != n.src
  {
    forall m, n | m in moves[..k] && n in moves[k..]
      ensures m.src != n.src
    {
      var i :| 0 <= i < k && moves[i] == m;
      var j :| 0 <= j < |moves[k..]| && moves[k..][j] == n;
      assert moves[k + j] == n;
    }
  }

  lemma RestOfTable(moves: seq<Move>, k: nat)
    requires Distinct(moves) && k <= |moves|
    ensures Distinct(moves[k..]) && SubMap(Table(moves[k..]), Table(moves))
    ensures forall m | m in moves[..k] :: m.src !in Table(moves[k..])
  {
    var rest := moves[k..];
    SourcesApart(moves, k);
    TableHas(moves);
    TableHas(rest);
    hide Table, Distinct;
    assert forall n | n in rest :: n in moves;
  }

  lemma SubMapClean(dir: string, toks: seq<string>, rest: map<string, string>, all: map<string, string>)
    requires SubMap(rest, all) && Pointing(dir, toks, all.Keys) == []
    ensures Pointing(dir, toks, rest.Keys) == []
  {
    hide Hits, MatchOld;
    PointingNone(toks, dir, all.Keys);
    PointingNone(toks, dir, rest.Keys);
    assert rest.Keys <= all.Keys;
    forall tok | tok in toks
      ensures MatchOld(dir, tok, rest.Keys) == None
    {
      FewerHits(dir, tok, rest.Keys, all.Keys);
    }
  }

  /** The text a file has after the rewrite and the first `k` moves of a clean wave: read where it now is and where
      it will end up, nothing is left to rewrite. */
  lemma NothingLeft(cwd: seq<string>, from: string, text: string, p: string, month: string, table: map<string, string>,
                    rest: map<string, string>)
    requires AllOrdinary(cwd) && GoodPath(from) && WaveMap(month, table) && SubMap(rest, table)
    requires StaleLinks(cwd, from, text, table) == []
    requires (from in table && p == table[from] && p !in rest) || (from == p && (p in rest || p !in table))
    ensures var now := RewrittenFile(cwd, from, text, table);
            RewrittenFile(cwd, p, now, rest) == now && StaleLinks(cwd, p, now, rest) == []
  {
    hide Rewritten, ParentDir, WaveMap, GoodPath, ArchiveDir, Tokens, Pointing;
    var now := RewrittenFile(cwd, from, text, table);
    var final := ParentDir(FinalPath(from, table));
    SubMapClean(final, Tokens(now), rest, table);
    if p in rest {
      ParentGood(p);
      MovesToArchive(month, table, p);
      RewriteAgain(cwd, text, ParentDir(p), month, table, rest);
    } else {
      CleanIsFixed(cwd, now, final, final, rest);
    }
  }

  /** What may be scanned after some moves: the scanned files that are still there, and files that were moved. */
  ghost predicate Rescan(scan2: seq<string>, after: Tree, scan: seq<string>, done: seq<Move>) {
    && (forall p | p in scan2 :: p in after && (p in scan || exists m :: m in done && m.dst == p))
    && forall p | p in scan && p in after :: p in scan2
  }

  /** A file of the tree after `k` moves is one of the rewritten files, moved or not yet moved. */
  lemma CameFrom(tree: Tree, moves: seq<Move>, k: nat, p: string) returns (from: string)
    requires Movable(tree, moves) && k <= |moves| && Movable(tree, moves[..k])
    requires p in MoveAll(tree, moves[..k])
    ensures from in tree && MoveAll(tree, moves[..k])[p] == tree[from]
    ensures (exists m :: m in moves[..k] && m.src == from && m.dst == p)
            || (from == p && (forall m | m in moves[..k] :: m.src != p && m.dst != p))
  {
    hide MoveAll;
    var done := moves[..k];
    assert forall m | m in done :: m in moves;
    if exists n :: n in done && n.dst == p {
      var m := LandedAt(tree, done, p);
      from := m.src;
    } else {
      Untouched(tree, done, p);
      from := p;
    }
  }

  predicate Wave(month: string, files: Tree, scan: seq<string>, moves: seq<Move>) {
    && (forall f | f in scan :: f in files && GoodPath(f)) && (forall m | m in moves :: m.src in scan)
    && Distinct(moves) && Movable(files, moves) && WaveMap(month, Table(moves))
  }

  lemma NotASource(moves: seq<Move>, k: nat, m: Move)
    requires Distinct(moves) && k <= |moves| && m in moves[..k]
    requires forall a, b | a in moves && b in moves :: a.src != b.dst
    ensures m.dst !in Table(moves[k..])
  {
    RestOfTable(moves, k);
    TableHas(moves[k..]);
    hide Table;
    forall n | n in moves[k..]
      ensures n.src != m.dst
    {
      assert n in moves && m in moves;
    }
  }

  lemma SourceOf(moves: seq<Move>, p: string) returns (m: Move)
    requires Distinct(moves) && p in Table(moves)
    ensures m in moves && m.src == p
  {
    TableHas(moves);
    hide Table;
    m :| m in moves && m.src == p;
  }

  lemma StillToMove(moves: seq<Move>, k: nat, p: string)
    requires Distinct(moves) && k <= |moves| && forall m | m in moves[..k] :: m.src != p
    ensures p in Table(moves) ==> p in Table(moves[k..])
  {
    SourcesApart(moves, k);
    hide Table, Distinct;
    if p in Table(moves) {
      var m := SourceOf(moves, p);
      assert moves == moves[..k] + moves[k..];
      TableHas(moves[k..]);
    }
  }

  lemma TreeAt(cwd: seq<string>, files: Tree, scan: seq<string>, table: map<string, string>, p: string)
    requires p in scan && p in files
    ensures var tree := RewrittenTree(cwd, files, scan, table); p in tree && tree[p] == RewrittenFile(cwd, p, files[p], table)
  {
    hide RewrittenFile;
  }

  lemma CleanAt(cwd: seq<string>, files: Tree, scan: seq<string>, table: map<string, string>, p: string)
    requires (forall f | f in scan :: f in files) && AllClean(cwd, files, scan, table) && p in scan
    ensures StaleLinks(cwd, p, files[p], table) == []
  {
    hide StaleLinks;
  }

  /** Where a file of the second run came from, and what the second run's table says of it. */
  lemma ResumedFrom(tree: Tree, scan: seq<string>, moves: seq<Move>, k: nat, p: string) returns (from: string)
    requires Movable(tree, moves) && Distinct(moves) && k <= |moves| && Movable(tree, moves[..k])
    requires (forall m | m in moves :: m.src in scan) && p in MoveAll(tree, moves[..k])
    requires p in scan || exists m :: m in moves[..k] && m.dst == p
    ensures from in scan && from in tree && MoveAll(tree, moves[..k])[p] == tree[from]
    ensures var table, rest := Table(moves), Table(moves[k..]);
            (from in table && p == table[from] && p !in rest) || (from == p && (p in rest || p !in table))
  {
    assert forall a, b | a in moves && b in moves :: a.src != b.dst;
    TableHas(moves);
    hide Table, MoveAll, Movable, Distinct;
    from := CameFrom(tree, moves, k, p);
    assert forall m | m in moves[..k] :: m in moves;
    if m :| m in moves[..k] && m.src == from && m.dst == p {
      NotASource(moves, k, m);
    } else {
      StillToMove(moves, k, p);
    }
  }

  /** One file of the second run. */
  lemma FileResumed(cwd: seq<string>, files: Tree, scan: seq<string>, month: string, moves: seq<Move>, k: nat, p: string)
    requires AllOrdinary(cwd) && Wave(month, files, scan, moves) && k <= |moves|
    requires AllClean(cwd, files, scan, Table(moves))
    requires var tree := RewrittenTree(cwd, files, scan, Table(moves));
             && Movable(tree, moves) && Movable(tree, moves[..k]) && p in MoveAll(tree, moves[..k])
             && (p in scan || exists m :: m in moves[..k] && m.dst == p)
    ensures var text := MoveAll(RewrittenTree(cwd, files, scan, Table(moves)), moves[..k])[p];
            RewrittenFile(cwd, p, text, Table(moves[k..])) == text && StaleLinks(cwd, p, text, Table(moves[k..])) == []
  {
    var table := Table(moves);
    var tree := RewrittenTree(cwd, files, scan, table);
    RestOfTable(moves, k);
    hide Table, MoveAll, Movable, StaleLinks, RewrittenFile, WaveMap, GoodPath, RewrittenTree, AllClean, Distinct;
    var from := ResumedFrom(tree, scan, moves, k, p);
    TreeAt(cwd, files, scan, table, from);
    CleanAt(cwd, files, scan, table, from);
    NothingLeft(cwd, from, files[from], p, month, table, Table(moves[k..]));
  }

  /** Running a clean wave again after it stopped anywhere, short of the middle of a write: the second plan is clean,
      and carrying it out gives the tree the first run would have given. */
  lemma RunAgain(cwd: seq<string>, before: Tree, after: Tree, scan: seq<string>, scan2: seq<string>, month: string,
                 moves: seq<Move>, at: Progress)
    requires AllOrdinary(cwd) && Wave(month, before, scan, moves) && AllClean(cwd, before, scan, Table(moves))
    requires Reached(cwd, before, after, scan, moves, at) && at.torn.None?
    requires Rescan(scan2, after, scan, moves[..at.moved])
    ensures var rest := moves[at.moved..];
            var tree := RewrittenTree(cwd, before, scan, Table(moves));
            var tree2 := RewrittenTree(cwd, after, scan2, Table(rest));
            && AllClean(cwd, after, scan2, Table(rest))
            && Movable(tree2, rest) && Movable(tree, moves) && MoveAll(tree2, rest) == MoveAll(tree, moves)
  {
    hide Table, MoveAll, Movable, WaveMap, GoodPath, RewrittenTree, AllClean, Distinct, Rescan;
    TreeKeys(cwd, before, scan, Table(moves));
    MovableKeys(before, RewrittenTree(cwd, before, scan, Table(moves)), moves);
    if at.rewritten < |scan| {
      StoppedRewriting(cwd, before, after, scan, scan2, month, moves, at);
    } else {
      assert scan[..|scan|] == scan;
      StoppedMoving(cwd, before, after, scan, scan2, month, moves, at.moved);
    }
  }

  lemma StoppedRewriting(cwd: seq<string>, before: Tree, after: Tree, scan: seq<string>, scan2: seq<string>, month: string,
                         moves: seq<Move>, at: Progress)
    requires AllOrdinary(cwd) && Wave(month, before, scan, moves) && AllClean(cwd, before, scan, Table(moves))
    requires Reached(cwd, before, after, scan, moves, at) && at.torn.None? && at.rewritten < |scan|
    requires Rescan(scan2, after, scan, moves[..at.moved])
    ensures at.moved == 0
    ensures RewrittenTree(cwd, after, scan2, Table(moves[at.moved..])) == RewrittenTree(cwd, before, scan, Table(moves))
    ensures AllClean(cwd, after, scan2, Table(moves[at.moved..]))
    ensures moves[at.moved..] == moves
  {
    var table, r := Table(moves), at.rewritten;
    assert moves[0..] == moves && moves[..0] == [];
    NoneMoved(RewrittenTree(cwd, before, scan[..r], table), moves);
    assert after == RewrittenTree(cwd, before, scan[..r], table);
    TreeKeys(cwd, before, scan[..r], table);
    SameScan(before, after, scan, scan2);
    hide Table, MoveAll, Movable, GoodPath, RewrittenTree, AllClean, Distinct, Rescan, WaveMap;
    TreeAgain(cwd, before, scan, r, month, table);
    SameTree(cwd, after, scan, scan2, table);
    CleanAgain(cwd, before, scan, scan2, r, month, table);
  }

  lemma SameScan(before: Tree, after: Tree, scan: seq<string>, scan2: seq<string>)
    requires Rescan(scan2, after, scan, []) && after.Keys == before.Keys && forall f | f in scan :: f in before
    ensures forall p :: p in scan2 <==> p in scan
  {
    assert forall p :: p in after <==> p in after.Keys;
  }

  lemma SameTree(cwd: seq<string>, files: Tree, scan: seq<string>, scan2: seq<string>, table: map<string, string>)
    requires forall p :: p in scan2 <==> p in scan
    ensures RewrittenTree(cwd, files, scan2, table) == RewrittenTree(cwd, files, scan, table)
  {
    hide RewrittenFile;
  }

  lemma CleanAgain(cwd: seq<string>, files: Tree, scan: seq<string>, scan2: seq<string>, r: nat, month: string,
                   table: map<string, string>)
    requires AllOrdinary(cwd) && WaveMap(month, table) && r <= |scan|
    requires forall f | f in scan :: f in files && GoodPath(f)
    requires (forall p :: p in scan2 <==> p in scan) && AllClean(cwd, files, scan, table)
    ensures var after := RewrittenTree(cwd, files, scan[..r], table);
            (forall f | f in scan2 :: f in after) && AllClean(cwd, after, scan2, table)
  {
    var after := RewrittenTree(cwd, files, scan[..r], table);
    assert forall f | f in scan[..r] :: f in scan;
    TreeKeys(cwd, files, scan[..r], table);
    assert forall p :: p in after <==> p in after.Keys;
    forall f | f in scan2
      ensures StaleLinks(cwd, f, after[f], table) == []
    {
      CleanAt(cwd, files, scan, table, f);
      hide WaveMap, GoodPath, AllClean, StaleLinks, RewrittenFile;
      if f in scan[..r] {
        TreeAt(cwd, files, scan[..r], table, f);
        FileAgain(cwd, f, files[f], month, table);
        StaleSame(cwd, f, files[f], RewrittenFile(cwd, f, files[f], table), table);
      }
    }
  }

  lemma StaleSame(cwd: seq<string>, p: string, a: string, b: string, table: map<string, string>)
    requires RewrittenFile(cwd, p, a, table) == RewrittenFile(cwd, p, b, table)
    ensures StaleLinks(cwd, p, a, table) == StaleLinks(cwd, p, b, table)
  {
    hide RewrittenFile, Pointing, Tokens;
  }

  lemma StoppedMoving(cwd: seq<string>, before: Tree, after: Tree, scan: seq<string>, scan2: seq<string>, month: string,
                      moves: seq<Move>, k: nat)
    requires AllOrdinary(cwd) && Wave(month, before, scan, moves) && AllClean(cwd, before, scan, Table(moves))
    requires k <= |moves| && Rescan(scan2, after, scan, moves[..k])
    requires var tree := RewrittenTree(cwd, before, scan, Table(moves));
             Movable(tree, moves) && Movable(tree, moves[..k]) && after == MoveAll(tree, moves[..k])
    ensures var rest := moves[k..];
            var tree := RewrittenTree(cwd, before, scan, Table(moves));
            && RewrittenTree(cwd, after, scan2, Table(rest)) == after
            && AllClean(cwd, after, scan2, Table(rest))
            && Movable(after, rest) && MoveAll(after, rest) == MoveAll(tree, moves)
  {
    var tree := RewrittenTree(cwd, before, scan, Table(moves));
    hide Table, MoveAll, Movable, Wave, StaleLinks, RewrittenFile, RewrittenTree, AllClean;
    assert moves == moves[..k] + moves[k..];
    MoveAllSplit(tree, moves[..k], moves[k..]);
    forall p | p in scan2
      ensures p in after && Fixed(cwd, p, after[p], Table(moves[k..]))
    {
      FileResumed(cwd, before, scan, month, moves, k, p);
    }
    TreeFixed(cwd, after, scan2, Table(moves[k..]));
  }

  /** Neither rewriting nor checking the file does anything. */
  predicate Fixed(cwd: seq<string>, p: string, text: string, table: map<string, string>) {
    RewrittenFile(cwd, p, text, table) == text && StaleLinks(cwd, p, text, table) == []
  }

  lemma TreeFixed(cwd: seq<string>, files: Tree, scan: seq<string>, table: map<string, string>)
    requires forall p | p in scan :: p in files && Fixed(cwd, p, files[p], table)
    ensures RewrittenTree(cwd, files, scan, table) == files && AllClean(cwd, files, scan, table)
  {
    hide RewrittenFile, StaleLinks;
  }
}

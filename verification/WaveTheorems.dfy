/** What a whole wave guarantees: no stale link anywhere in the final tree, and exactly when no file
    is lost. */
module WaveTheorems {
  import opened Text
  import opened PosixPaths
  import opened TokenEdit
  import opened LinkRewrite
  import opened LinkTheorems
  import opened ArchiveWave
  import opened FileMoves

  /** A directory listing: real names, each file once. */
  predicate Listing(cands: seq<Candidate>) {
    && (forall c | c in cands :: GoodCandidate(c))
    && (forall i, j | 0 <= i < j < |cands| ::
          cands[i].category != cands[j].category || cands[i].basename != cands[j].basename)
  }

  lemma SplitThree(a: string, b: string, c: string)
    requires '/' !in a && '/' !in b && '/' !in c
    ensures Split(a + "/" + (b + "/" + c), '/') == [a, b, c]
  {
    SplitJoin([a, b, c], '/');
    assert [a, b, c][1..] == [b, c] && [b, c][1..] == [c];
    assert Join("/", [b, c]) == b + "/" + c;
  }

  lemma TailText(category: string, basename: string)
    ensures Tail(category, basename) == "artifacts" + "/" + (category + "/" + basename)
  {
    assert "artifacts" + "/" == "artifacts/";
  }

  lemma TailSegs(category: string, basename: string)
    requires category in CATEGORIES && Ordinary(basename)
    ensures Split(Tail(category, basename), '/') == ["artifacts", category, basename]
    ensures IsTail(Tail(category, basename)) && BaseOf(Tail(category, basename)) == basename
  {
    CategorySlashFree(category);
    TailText(category, basename);
    hide Tail, Split;
    SplitThree("artifacts", category, basename);
  }

  lemma CategorySlashFree(category: string)
    requires category in CATEGORIES
    ensures '/' !in category
  {
    assert category == "frames" || category == "analyses" || category == "specs" || category == "goal" || category == "plans";
  }

  // ---------------------------------------------------------------------------------------------
  // The moves
  // ---------------------------------------------------------------------------------------------

  lemma {:induction false} MovesFrom(cands: seq<Candidate>, month: string, closed: set<int>, m: Move)
    requires m in MovesOf(cands, month, closed)
    ensures exists c :: c in cands && m == MoveOf(c, month)
  {
    hide MoveOf;
    var init, c := cands[..|cands| - 1], cands[|cands| - 1];
    if m in MovesOf(init, month, closed) {
      MovesFrom(init, month, closed, m);
      var d :| d in init && m == MoveOf(d, month);
      assert d in cands;
    } else {
      assert c in cands;
    }
  }

  lemma DistinctSources(c: Candidate, d: Candidate, month: string)
    requires GoodCandidate(c) && GoodCandidate(d)
    requires c.category != d.category || c.basename != d.basename
    ensures MoveOf(c, month).src != MoveOf(d, month).src
  {
    TailSegs(c.category, c.basename);
    TailSegs(d.category, d.basename);
  }

  lemma SourceIsNoDest(c: Candidate, d: Candidate, month: string)
    requires GoodCandidate(c) && GoodCandidate(d) && GoodMonth(month)
    ensures MoveOf(c, month).src != MoveOf(d, month).dst
  {
    TailSegs(c.category, c.basename);
    NewTailSegs(month, d.basename);
  }

  predicate Distinct(moves: seq<Move>) { forall i, j | 0 <= i < j < |moves| :: moves[i].src != moves[j].src }

  lemma {:induction false} MovesDistinct(cands: seq<Candidate>, month: string, closed: set<int>)
    requires Listing(cands)
    ensures Distinct(MovesOf(cands, month, closed))
  {
    hide MoveOf, GoodCandidate;
    if cands != [] {
      var n := |cands| - 1;
      var init, c := cands[..n], cands[n];
      var rest := MovesOf(init, month, closed);
      assert forall d | d in init :: d in cands;
      MovesDistinct(init, month, closed);
      forall i | 0 <= i < |rest|
        ensures rest[i].src != MoveOf(c, month).src
      {
        MovesFrom(init, month, closed, rest[i]);
        var d :| d in init && rest[i] == MoveOf(d, month);
        DistinctSources(d, c, month);
      }
    }
  }

  lemma {:induction false} TableHas(moves: seq<Move>)
    requires Distinct(moves)
    ensures forall m | m in moves :: m.src in Table(moves) && Table(moves)[m.src] == m.dst
    ensures forall p | p in Table(moves) :: exists m :: m in moves && m.src == p
  {
    if moves != [] {
      var n := |moves| - 1;
      TableHas(moves[..n]);
      assert moves == moves[..n] + [moves[n]];
    }
  }

  /** The table built from a directory listing is a wave table, and the moves can be carried out. */
  lemma MovesAreAWave(cands: seq<Candidate>, month: string, closed: set<int>, files: Tree)
    requires Listing(cands) && GoodMonth(month)
    requires forall c | c in cands :: Tail(c.category, c.basename) in files
    ensures var moves := MovesOf(cands, month, closed);
            Distinct(moves) && WaveMap(month, Table(moves)) && Movable(files, moves)
  {
    var moves := MovesOf(cands, month, closed);
    MovesDistinct(cands, month, closed);
    TableHas(moves);
    forall m | m in moves
      ensures m.src in files && IsTail(m.src) && m.dst == NewTail(month, BaseOf(m.src))
    {
      MovesFrom(cands, month, closed, m);
      var c :| c in cands && m == MoveOf(c, month);
      TailSegs(c.category, c.basename);
    }
    forall m, n | m in moves && n in moves
      ensures m.src != n.dst
    {
      MovesFrom(cands, month, closed, m);
      MovesFrom(cands, month, closed, n);
      var c :| c in cands && m == MoveOf(c, month);
      var d :| d in cands && n == MoveOf(d, month);
      SourceIsNoDest(c, d, month);
    }
  }

  // ---------------------------------------------------------------------------------------------
  // The final tree
  // ---------------------------------------------------------------------------------------------

  /** The plan came out clean: then every scanned file, read where it ends up in the final tree, has no
      link to a path that moved away, whatever overwrote what. */
  lemma CleanPlanCleanTree(cwd: seq<string>, files: Tree, scan: seq<string>, moves: seq<Move>, p: string)
    requires forall f | f in scan :: f in files
    requires Distinct(moves) && Movable(files, moves) && forall m | m in moves :: m.src in scan
    requires AllClean(cwd, files, scan, Table(moves)) && p in scan
    ensures var tree := RewrittenTree(cwd, files, scan, Table(moves));
            var q := FinalPath(p, Table(moves));
            && Movable(tree, moves) && q in MoveAll(tree, moves)
            && NoneReads(ParentDir(q), Tokens(MoveAll(tree, moves)[q]), Table(moves).Keys)
  {
    hide NoneReads, Pointing, Tokens, ParentDir, Table, Rewritten;
    var table := Table(moves);
    var tree := RewrittenTree(cwd, files, scan, table);
    var q := FinalPath(p, table);
    TableHas(moves);
    if exists n :: n in moves && n.dst == q {
      var m := LandedAt(tree, moves, q);
      assert StaleLinks(cwd, m.src, files[m.src], table) == [];
    } else {
      Untouched(tree, moves, q);
      assert StaleLinks(cwd, p, files[p], table) == [];
    }
    PointingNothing(ParentDir(q), Tokens(MoveAll(tree, moves)[q]), table.Keys);
  }

  lemma ParentGood(p: string)
    requires GoodPath(p)
    ensures GoodDir(ParentDir(p))
  {
    var s := Split(p, '/');
    var up := s[..|s| - 1];
    assert AllOrdinary(up) by { assert forall x | x in up :: x in s; }
    if up != [] {
      SplitPathOf(up);
    }
  }

  /** Only a file that itself moves can make a plan come out broken, and only with a token that did not
      point at a moved path from the old directory but does from the new one. */
  lemma BrokenExactly(cwd: seq<string>, files: Tree, scan: seq<string>, month: string, table: map<string, string>)
    requires AllOrdinary(cwd) && WaveMap(month, table)
    requires forall f | f in scan :: f in files && GoodPath(f)
    ensures AllClean(cwd, files, scan, table)
            <==> forall p, tok | p in scan && p in table && tok in Tokens(files[p]) ::
                   Hits(ParentDir(table[p]), tok, table.Keys) ==> Hits(ParentDir(p), tok, table.Keys)
  {
    hide Tokens, ParentDir, MatchOld, Hits, Rewritten, Pointing, GoodPath;
    forall p | p in scan
      ensures StaleLinks(cwd, p, files[p], table) == []
              <==> forall tok | tok in Tokens(files[p]) ::
                     Hits(ParentDir(FinalPath(p, table)), tok, table.Keys) ==> Hits(ParentDir(p), tok, table.Keys)
    {
      ParentGood(p);
      FinalGood(month, table, p);
      ParentGood(FinalPath(p, table));
      CleanExactly(cwd, files[p], ParentDir(p), ParentDir(FinalPath(p, table)), month, table);
    }
  }

  lemma FinalGood(month: string, table: map<string, string>, p: string)
    requires WaveMap(month, table) && GoodPath(p)
    ensures GoodPath(FinalPath(p, table))
  {
    if p in table {
      NewTailSegs(month, BaseOf(p));
    }
  }

  /** Two files of a wave collide exactly when they have the same basename. */
  lemma CollisionsAreSharedBasenames(month: string, moves: seq<Move>)
    requires GoodMonth(month)
    requires forall m | m in moves :: IsTail(m.src) && m.dst == NewTail(month, BaseOf(m.src))
    ensures DistinctTargets(moves)
            <==> forall i, j | 0 <= i < j < |moves| :: BaseOf(moves[i].src) != BaseOf(moves[j].src)
  {
    hide NewTail, IsTail, BaseOf;
    forall i, j | 0 <= i < j < |moves|
      ensures moves[i].dst != moves[j].dst <==> BaseOf(moves[i].src) != BaseOf(moves[j].src)
    {
      NewTailInjective(month, moves[i].src, moves[j].src);
    }
  }

  lemma NewTailInjective(month: string, p: string, q: string)
    requires GoodMonth(month) && IsTail(p) && IsTail(q)
    ensures NewTail(month, BaseOf(p)) == NewTail(month, BaseOf(q)) <==> BaseOf(p) == BaseOf(q)
  {
    NewTailSegs(month, BaseOf(p));
    NewTailSegs(month, BaseOf(q));
  }

  // ---------------------------------------------------------------------------------------------
  // The command
  // ---------------------------------------------------------------------------------------------

  /** A run of the command: the plan was broken, or it was applied and came this far. */
  datatype Run = Broken | Applied(end: Ending, at: Progress)

  /** `main` with `--apply`: plan, refuse on broken links, otherwise apply. An error while applying escapes as an
      exception, which also exits with 1. */
  method RunWave(repo: Repo, cwd: seq<string>, scan: seq<string>, cands: seq<Candidate>, month: string, closed: set<int>,
                 useGit: bool, struck: bool)
    returns (exitCode: int, r: Run)
    requires forall f | f in scan :: f in repo.files
    requires forall i, j | 0 <= i < j < |scan| :: scan[i] != scan[j]
    requires Listing(cands) && GoodMonth(month)
    requires forall c | c in cands :: Tail(c.category, c.basename) in scan
    modifies repo
    ensures exitCode == if r.Applied? && r.end == Finished then 0 else 1
    ensures !struck ==>
              (exitCode == 0 <==>
               && AllClean(cwd, old(repo.files), scan, Table(MovesOf(cands, month, closed)))
               && (!useGit || Unopposed(old(repo.files), MovesOf(cands, month, closed))))
    ensures r.Applied? ==> if struck then r.end != Finished else r.end != Halted
    ensures r.Broken? <==> !AllClean(cwd, old(repo.files), scan, Table(MovesOf(cands, month, closed)))
    ensures r.Broken? ==> repo.files == old(repo.files)
    ensures r.Applied? ==> Reached(cwd, old(repo.files), repo.files, scan, MovesOf(cands, month, closed), r.at)
    ensures r.Applied? && r.end != Halted ==>
              (r.end == Finished <==> !useGit || Unopposed(old(repo.files), MovesOf(cands, month, closed)))
    ensures r.Applied? && r.end == Refused ==>
              var moves := MovesOf(cands, month, closed);
              useGit && r.at == Progress(|scan|, r.at.moved, None) && r.at.moved < |moves| && moves[r.at.moved].dst in repo.files
    ensures useGit ==> |repo.files| == |old(repo.files)|
    ensures r.Applied? && r.end == Finished ==>
              var moves := MovesOf(cands, month, closed);
              var tree := RewrittenTree(cwd, old(repo.files), scan, Table(moves));
              && Movable(tree, moves) && repo.files == MoveAll(tree, moves)
              && forall p | p in scan ::
                   var q := FinalPath(p, Table(moves));
                   q in repo.files && NoneReads(ParentDir(q), Tokens(repo.files[q]), Table(moves).Keys)
  {
    hide NoneReads, Tokens, ParentDir, Table, RewrittenTree, AllClean, MovesOf, Movable, Reached, Unopposed, MoveAll;
    var plan := BuildPlan(cwd, repo.files, scan, cands, month, closed);
    if plan.broken != [] {
      return 1, Broken;
    }
    ghost var before := repo.files;
    MovesAreAWave(cands, month, closed, before);
    var e, at := repo.ApplyPlan(cwd, scan, plan.moves, useGit, struck);
    if useGit {
      NoneLost(cwd, before, repo.files, scan, plan.moves, at);
    }
    if e == Finished {
      MovesInScan(cands, month, closed, scan);
      ReachedAll(cwd, before, repo.files, scan, plan.moves, at);
      forall p | p in scan
        ensures var q := FinalPath(p, Table(plan.moves));
                q in repo.files && NoneReads(ParentDir(q), Tokens(repo.files[q]), Table(plan.moves).Keys)
      {
        CleanPlanCleanTree(cwd, before, scan, plan.moves, p);
      }
    }
    exitCode := if e == Finished then 0 else 1;
    r := Applied(e, at);
  }

  lemma ReachedAll(cwd: seq<string>, before: Tree, after: Tree, scan: seq<string>, moves: seq<Move>, at: Progress)
    requires (forall f | f in scan :: f in before) && Reached(cwd, before, after, scan, moves, at)
    requires at == Progress(|scan|, |moves|, None)
    ensures var tree := RewrittenTree(cwd, before, scan, Table(moves)); Movable(tree, moves) && after == MoveAll(tree, moves)
  {
    hide RewrittenTree, Movable, MoveAll;
    assert scan[..|scan|] == scan && moves[..|moves|] == moves;
  }

  /** Wherever a run that met no taken destination stopped, no file is gone. */
  lemma NoneLost(cwd: seq<string>, before: Tree, after: Tree, scan: seq<string>, moves: seq<Move>, at: Progress)
    requires (forall f | f in scan :: f in before) && Reached(cwd, before, after, scan, moves, at)
    requires Unopposed(before, moves[..at.moved])
    ensures |after| == |before|
  {
    hide RewrittenTree, Movable, MoveAll, Unopposed;
    var tree := RewrittenTree(cwd, before, scan[..at.rewritten], Table(moves));
    TreeKeys(cwd, before, scan[..at.rewritten], Table(moves));
    SameSize(before, tree);
    if at.torn.None? {
      UnopposedKeys(before, tree, moves[..at.moved]);
      UnopposedKeepsFiles(tree, moves[..at.moved]);
    } else {
      assert after.Keys == tree.Keys;
      SameSize(tree, after);
    }
  }

  lemma SameSize(a: Tree, b: Tree)
    requires a.Keys == b.Keys
    ensures |a| == |b|
  {
    assert |a| == |a.Keys| && |b| == |b.Keys|;
  }

  lemma MovesInScan(cands: seq<Candidate>, month: string, closed: set<int>, scan: seq<string>)
    requires forall c | c in cands :: Tail(c.category, c.basename) in scan
    ensures forall m | m in MovesOf(cands, month, closed) :: m.src in scan
  {
    forall m | m in MovesOf(cands, month, closed)
      ensures m.src in scan
    {
      MovesFrom(cands, month, closed, m);
    }
  }
}

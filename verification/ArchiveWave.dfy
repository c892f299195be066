/** Planning and applying an archive wave over a whole tree of files, given as a map from
    repo-relative path to text. */
module ArchiveWave {
  import opened Text
  import opened PosixPaths
  import opened TokenEdit
  import opened LinkRewrite
  import opened LinkTheorems
  import opened FileMoves

  datatype Candidate = Candidate(category: string, basename: string, issue: Option<int>)

  datatype WavePlan = WavePlan(moves: seq<Move>, rewrites: map<string, nat>, broken: seq<string>)

  /** A top-level file of a swept category. */
  predicate GoodCandidate(c: Candidate) { c.category in CATEGORIES && Ordinary(c.basename) }

  predicate Selected(c: Candidate, closed: set<int>) { c.issue.Some? && c.issue.value in closed }

  function MoveOf(c: Candidate, month: string): Move { Move(Tail(c.category, c.basename), NewTail(month, c.basename)) }

  function MovesOf(cands: seq<Candidate>, month: string, closed: set<int>): seq<Move> {
    if cands == [] then []
    else
      var rest := MovesOf(cands[..|cands| - 1], month, closed);
      var c := cands[|cands| - 1];
      if Selected(c, closed) then rest + [MoveOf(c, month)] else rest
  }

  function Table(moves: seq<Move>): map<string, string> {
    if moves == [] then map[] else var m := moves[|moves| - 1]; Table(moves[..|moves| - 1])[m.src := m.dst]
  }

  /** `_repo_dir`: "" for a file at the root. */
  function ParentDir(p: string): string {
    var s := Split(p, '/'); Join("/", s[..|s| - 1])
  }

  /** The directory is what comes before the last slash. */
  lemma ParentDirMeaning(dir: string, base: string)
    requires '/' !in base
    ensures ParentDir(dir + "/" + base) == dir && ParentDir(base) == ""
  {
    SplitConcat(dir, base, '/');
    SplitNone(base, '/');
    assert ['/'] == "/";
    hide Split;
    JoinSplit(dir, '/');
    assert (Split(dir, '/') + [base])[..|Split(dir, '/')|] == Split(dir, '/');
  }

  predicate GoodPath(p: string) { AllOrdinary(Split(p, '/')) }

  function FinalPath(p: string, table: map<string, string>): string { if p in table then table[p] else p }

  function RewrittenFile(cwd: seq<string>, p: string, text: string, table: map<string, string>): string {
    Rewritten(cwd, text, ParentDir(p), ParentDir(FinalPath(p, table)), table)
  }

  /** Links of a rewritten file that still point at a moved path when read where the file ends up. */
  function StaleLinks(cwd: seq<string>, p: string, text: string, table: map<string, string>): seq<string> {
    Pointing(ParentDir(FinalPath(p, table)), Tokens(RewrittenFile(cwd, p, text, table)), table.Keys)
  }

  function LinkCount(p: string, text: string, table: map<string, string>): nat {
    |Pointing(ParentDir(p), Tokens(text), table.Keys)|
  }

  function RewrittenTree(cwd: seq<string>, files: Tree, scan: seq<string>, table: map<string, string>): Tree {
    map p | p in files :: if p in scan then RewrittenFile(cwd, p, files[p], table) else files[p]
  }

  /** Directories the moving files end up in, by source path. */
  function DstDirs(table: map<string, string>): map<string, string> { map p | p in table :: ParentDir(table[p]) }

  /** First loop of `build_plan`: pick the candidates whose issue is closed. */
  method CollectMoves(cands: seq<Candidate>, month: string, closed: set<int>)
    returns (moves: seq<Move>, table: map<string, string>, dstDirBySrc: map<string, string>)
    ensures moves == MovesOf(cands, month, closed) && table == Table(moves) && dstDirBySrc == DstDirs(table)
  {
    hide ParentDir, MoveOf;
    moves, table, dstDirBySrc := [], map[], map[];
    for k := 0 to |cands|
      invariant moves == MovesOf(cands[..k], month, closed)
      invariant table == Table(moves)
      invariant dstDirBySrc == DstDirs(table)
    {
      var c := cands[k];
      assert cands[..k + 1][..k] == cands[..k];
      if Selected(c, closed) {
        var m := MoveOf(c, month);
        assert (moves + [m])[..|moves|] == moves;
        moves := moves + [m];
        table := table[m.src := m.dst];
        dstDirBySrc := dstDirBySrc[m.src := ParentDir(m.dst)];
      }
    }
    assert cands[..|cands|] == cands;
  }

  predicate AllClean(cwd: seq<string>, files: Tree, scan: seq<string>, table: map<string, string>)
    requires forall f | f in scan :: f in files
  {
    forall f | f in scan :: StaleLinks(cwd, f, files[f], table) == []
  }

  /** How many links of each scanned file are rewritten, for the files that have any. */
  function LinkCounts(files: Tree, scan: seq<string>, table: map<string, string>): map<string, nat>
    requires forall f | f in scan :: f in files
  {
    map f | f in scan && LinkCount(f, files[f], table) > 0 :: LinkCount(f, files[f], table)
  }

  /** One message per link left stale, file by file. */
  function Complaints(cwd: seq<string>, files: Tree, scan: seq<string>, table: map<string, string>): seq<string>
    requires forall f | f in scan :: f in files
  {
    if scan == [] then []
    else
      var n := |scan| - 1;
      Complaints(cwd, files, scan[..n], table)
      + Prefixed(scan[n] + ": ", Prefixed(UNREWRITTEN, StaleLinks(cwd, scan[n], files[scan[n]], table)))
  }

  /** Second loop of `build_plan`: simulate the rewrite and scan the simulated result. */
  method SimulateRewrites(cwd: seq<string>, files: Tree, scan: seq<string>, table: map<string, string>, dstDirBySrc: map<string, string>)
    returns (rewrites: map<string, nat>, broken: seq<string>)
    requires forall f | f in scan :: f in files
    requires dstDirBySrc == DstDirs(table)
    ensures rewrites == LinkCounts(files, scan, table)
    ensures broken == Complaints(cwd, files, scan, table)
    ensures broken == [] <==> AllClean(cwd, files, scan, table)
  {
    hide LinkCount, StaleLinks, RewrittenFile, ParentDir, Rewritten, Pointing, Tokens, LinkCounts, AllClean, UNREWRITTEN;
    rewrites, broken := map[], [];
    NoneSimulated(files, table);
    for k := 0 to |scan|
      invariant rewrites == LinkCounts(files, scan[..k], table)
      invariant broken == Complaints(cwd, files, scan[..k], table)
    {
      var f := scan[k];
      var srcDir := ParentDir(f);
      var dstDir := if f in dstDirBySrc then dstDirBySrc[f] else srcDir;
      var newText, n := RewriteText(cwd, files[f], srcDir, dstDir, table);
      FileSpec(cwd, f, files[f], table);
      SimulateStep(files, scan, k, table);
      if n > 0 {
        rewrites := rewrites[f := n];
      }
      var stale := BrokenRefs(newText, dstDir, table.Keys);
      ghost var before := broken;
      for i := 0 to |stale|
        invariant broken == before + Prefixed(f + ": ", stale[..i])
      {
        broken := broken + [f + ": " + stale[i]];
      }
      assert stale[..|stale|] == stale && scan[..k + 1][..k] == scan[..k];
    }
    assert scan[..|scan|] == scan;
    NoComplaints(cwd, files, scan, table);
  }

  lemma {:induction false} NoComplaints(cwd: seq<string>, files: Tree, scan: seq<string>, table: map<string, string>)
    requires forall f | f in scan :: f in files
    ensures Complaints(cwd, files, scan, table) == [] <==> AllClean(cwd, files, scan, table)
  {
    hide StaleLinks, UNREWRITTEN;
    if scan != [] {
      var n := |scan| - 1;
      NoComplaints(cwd, files, scan[..n], table);
      assert scan == scan[..n] + [scan[n]];
    }
  }

  /** Simulate the wave: the moves, the link counts, and the links the rewrite would leave stale. */
  method BuildPlan(cwd: seq<string>, files: Tree, scan: seq<string>, cands: seq<Candidate>, month: string, closed: set<int>)
    returns (plan: WavePlan)
    requires forall f | f in scan :: f in files
    ensures plan.moves == MovesOf(cands, month, closed)
    ensures plan.rewrites == LinkCounts(files, scan, Table(plan.moves))
    ensures plan.broken == Complaints(cwd, files, scan, Table(plan.moves))
    ensures plan.broken == [] <==> AllClean(cwd, files, scan, Table(plan.moves))
  {
    hide StaleLinks, LinkCount, MovesOf, Table, Complaints;
    var moves, table, dstDirBySrc := CollectMoves(cands, month, closed);
    if table == map[] {
      forall f | f in scan
        ensures StaleLinks(cwd, f, files[f], map[]) == [] && LinkCount(f, files[f], map[]) == 0
      {
        NothingMoves(cwd, f, files[f]);
      }
      NoComplaints(cwd, files, scan, map[]);
      return WavePlan(moves, map[], []);
    }
    var rewrites, broken := SimulateRewrites(cwd, files, scan, table, dstDirBySrc);
    plan := WavePlan(moves, rewrites, broken);
  }

  lemma FileSpec(cwd: seq<string>, p: string, text: string, table: map<string, string>)
    ensures var dstDir := if p in table then ParentDir(table[p]) else ParentDir(p);
            && RewrittenFile(cwd, p, text, table) == Rewritten(cwd, text, ParentDir(p), dstDir, table)
            && StaleLinks(cwd, p, text, table) == Pointing(dstDir, Tokens(RewrittenFile(cwd, p, text, table)), table.Keys)
            && LinkCount(p, text, table) == |Pointing(ParentDir(p), Tokens(text), table.Keys)|
  {
    hide Rewritten, Pointing, Tokens, ParentDir;
  }

  lemma NoneSimulated(files: Tree, table: map<string, string>)
    ensures LinkCounts(files, [], table) == map[]
  {
  }

  lemma SimulateStep(files: Tree, scan: seq<string>, k: nat, table: map<string, string>)
    requires k < |scan| && forall f | f in scan :: f in files
    ensures var n := LinkCount(scan[k], files[scan[k]], table);
            LinkCounts(files, scan[..k + 1], table)
            == if n > 0 then LinkCounts(files, scan[..k], table)[scan[k] := n] else LinkCounts(files, scan[..k], table)
  {
    hide LinkCount;
    assert scan[..k + 1] == scan[..k] + [scan[k]];
  }

  lemma NoneRewritten(cwd: seq<string>, files: Tree, table: map<string, string>)
    ensures RewrittenTree(cwd, files, [], table) == files
  {
  }

  lemma TreeStep(cwd: seq<string>, files: Tree, scan: seq<string>, k: nat, table: map<string, string>)
    requires k < |scan| && scan[k] in files && scan[k] !in scan[..k]
    ensures var t := RewrittenTree(cwd, files, scan[..k], table);
            && scan[k] in t && t[scan[k]] == files[scan[k]]
            && RewrittenTree(cwd, files, scan[..k + 1], table) == t[scan[k] := RewrittenFile(cwd, scan[k], files[scan[k]], table)]
  {
    hide RewrittenFile;
    assert scan[..k + 1] == scan[..k] + [scan[k]];
  }

  lemma NothingMoves(cwd: seq<string>, p: string, text: string)
    ensures StaleLinks(cwd, p, text, map[]) == [] && LinkCount(p, text, map[]) == 0
  {
    hide Rewritten, Pointing, Tokens, ParentDir, MatchOld, RewrittenFile;
    var none: map<string, string> := map[];
    assert none.Keys == {};
    FileSpec(cwd, p, text, none);
    PointingNone(Tokens(text), ParentDir(p), {});
    PointingNone(Tokens(RewrittenFile(cwd, p, text, map[])), ParentDir(p), {});
  }

  /** How carrying out a plan ended: done; refused, because `git mv` found a destination taken; or cut short, by any
      other error or by a kill. */
  datatype Ending = Finished | Refused | Halted

  /** How far a run came: files rewritten, files moved, and the file that was being written, if any. */
  datatype Progress = Progress(rewritten: nat, moved: nat, torn: Option<string>)

  /** The tree a run leaves that came this far. A file being written holds a prefix of its new text. */
  predicate Reached(cwd: seq<string>, before: Tree, after: Tree, scan: seq<string>, moves: seq<Move>, at: Progress)
    requires forall f | f in scan :: f in before
  {
    && at.rewritten <= |scan| && at.moved <= |moves| && (at.rewritten < |scan| ==> at.moved == 0)
    && var tree := RewrittenTree(cwd, before, scan[..at.rewritten], Table(moves));
    if at.torn.None? then Movable(tree, moves[..at.moved]) && after == MoveAll(tree, moves[..at.moved])
    else Torn(cwd, before, tree, after, scan, at.rewritten, at.torn.value, Table(moves))
  }

  predicate Torn(cwd: seq<string>, before: Tree, tree: Tree, after: Tree, scan: seq<string>, k: nat, f: string,
                 table: map<string, string>)
  {
    && k < |scan| && f == scan[k] && f in before && f in after && after == tree[f := after[f]]
    && StartsWith(RewrittenFile(cwd, f, before[f], table), after[f])
  }

  lemma TreeKeys(cwd: seq<string>, files: Tree, scan: seq<string>, table: map<string, string>)
    ensures RewrittenTree(cwd, files, scan, table).Keys == files.Keys
  {
    hide RewrittenFile;
  }

  class Repo {
    var files: Tree

    constructor (files: Tree)
      ensures this.files == files
    {
      this.files := files;
    }

    /** `write_text`; cut short, it leaves a prefix. */
    method WriteText(path: string, text: string, struck: bool)
      modifies this
      ensures path in files && files == old(files)[path := files[path]] && StartsWith(text, files[path])
      ensures !struck ==> files[path] == text
    {
      var n: int := *;
      files := files[path := if struck && 0 <= n < |text| then text[..n] else text];
    }

    /** Rewrite every inbound reference, until an error or a kill strikes, if one does. */
    method RewriteFiles(cwd: seq<string>, scan: seq<string>, table: map<string, string>, struck: bool)
      returns (done: nat, torn: Option<string>)
      requires forall f | f in scan :: f in files
      requires forall i, j | 0 <= i < j < |scan| :: scan[i] != scan[j]
      modifies this
      ensures done <= |scan| && (!struck ==> done == |scan| && torn.None?)
      ensures torn.None? ==> files == RewrittenTree(cwd, old(files), scan[..done], table)
      ensures torn.Some? ==>
                Torn(cwd, old(files), RewrittenTree(cwd, old(files), scan[..done], table), files, scan, done, torn.value, table)
    {
      hide RewrittenFile, ParentDir, Rewritten, Pointing, Tokens, RewrittenTree;
      NoneRewritten(cwd, files, table);
      torn := None;
      for k := 0 to |scan|
        invariant files == RewrittenTree(cwd, old(files), scan[..k], table)
      {
        var here: bool := *;
        if here && struck {
          return k, None;
        }
        var path := scan[k];
        var srcDir := ParentDir(path);
        var dstDir := if path in table then ParentDir(table[path]) else srcDir;
        TreeStep(cwd, old(files), scan, k, table);
        var text := files[path];
        var newText, n := RewriteText(cwd, text, srcDir, dstDir, table);
        FileSpec(cwd, path, text, table);
        if n > 0 && newText != text {
          here := *;
          WriteText(path, newText, here && struck);
          if here && struck {
            return k, Some(path);
          }
        } else if n == 0 {
          CleanIsFixed(cwd, text, srcDir, dstDir, table);
        }
      }
      assert scan[..|scan|] == scan;
      done := |scan|;
    }

    /** `_move`: `git mv` refuses a destination that exists, `os.replace` overwrites it. */
    method MoveFile(m: Move, useGit: bool, struck: bool) returns (e: Ending, moved: bool)
      requires m.src in files
      modifies this
      ensures files == if moved then MoveOne(old(files), m) else old(files)
      ensures if struck then e != Finished else e != Halted
      ensures e == Finished ==> moved
      ensures e == Refused ==> !moved
      ensures e == Refused ==> useGit && m.dst in old(files)
      ensures useGit && m.dst in old(files) ==> !moved && e != Finished
    {
      var early: bool := *;
      if early && struck {
        return Halted, false;
      }
      if useGit && m.dst in files {
        return Refused, false;
      }
      files := MoveOne(files, m);
      moved := true;
      e := if struck then Halted else Finished;
    }

    /** The loop over the moves. */
    method MoveFiles(moves: seq<Move>, useGit: bool, struck: bool) returns (e: Ending, moved: nat)
      requires Movable(files, moves)
      modifies this
      ensures if struck then e != Finished else e != Halted
      ensures moved <= |moves| && Movable(old(files), moves[..moved]) && files == MoveAll(old(files), moves[..moved])
      ensures useGit ==> Unopposed(old(files), moves[..moved])
      ensures e == Finished ==> moved == |moves|
      ensures e == Refused ==> useGit && moved < |moves| && moves[moved].dst in files
      ensures e != Halted ==> (e == Finished <==> !useGit || Unopposed(old(files), moves))
    {
      hide Movable, MoveAll, Unopposed;
      assert Unopposed(files, moves[..0]) by { NoneUnopposed(files, moves); }
      assert Movable(files, moves[..0]) && MoveAll(files, moves[..0]) == files by { NoneMoved(files, moves); }
      for k := 0 to |moves|
        invariant Movable(old(files), moves[..k]) && files == MoveAll(old(files), moves[..k])
        invariant useGit ==> Unopposed(old(files), moves[..k])
      {
        MoveNext(old(files), moves, k);
        NextUnopposed(old(files), moves, k);
        var done;
        var here: bool := *;
        e, done := MoveFile(moves[k], useGit, here && struck);
        if e == Refused {
          if Unopposed(old(files), moves) {
            UnopposedTake(old(files), moves, k + 1);
          }
        }
        if e != Finished {
          return e, if done then k + 1 else k;
        }
      }
      assert moves[..|moves|] == moves;
      moved := |moves|;
      e := if struck then Halted else Finished;
    }

    /** Rewrite every scanned file in place, then move the candidates one by one; `struck` says that an error or a kill
        strikes on the way. */
    method ApplyPlan(cwd: seq<string>, scan: seq<string>, moves: seq<Move>, useGit: bool, struck: bool)
      returns (e: Ending, at: Progress)
      requires forall f | f in scan :: f in files
      requires forall i, j | 0 <= i < j < |scan| :: scan[i] != scan[j]
      requires Movable(files, moves)
      modifies this
      ensures Reached(cwd, old(files), files, scan, moves, at)
      ensures if struck then e != Finished else e != Halted
      ensures e != Halted ==> at.rewritten == |scan| && at.torn.None?
      ensures e == Finished ==> at.moved == |moves|
      ensures e == Refused ==> useGit && at.moved < |moves| && moves[at.moved].dst in files
      ensures e != Halted ==> (e == Finished <==> !useGit || Unopposed(old(files), moves))
      ensures useGit ==> Unopposed(old(files), moves[..at.moved])
    {
      hide RewrittenFile, Table, Movable, MoveAll, Unopposed, RewrittenTree;
      var here: bool := *;
      var done, torn := RewriteFiles(cwd, scan, Table(moves), here && struck);
      TreeKeys(cwd, old(files), scan[..done], Table(moves));
      assert moves[..0] == [];
      NoneUnopposed(old(files), moves);
      if torn.Some? || done < |scan| {
        NoneMoved(files, moves);
        return Halted, Progress(done, 0, torn);
      }
      ghost var tree := files;
      MovableKeys(old(files), files, moves);
      UnopposedKeys(old(files), files, moves);
      var moved;
      e, moved := MoveFiles(moves, useGit, struck);
      UnopposedKeys(old(files), tree, moves[..moved]);
      at := Progress(|scan|, moved, None);
    }
  }

  lemma NoneMoved(files: Tree, moves: seq<Move>)
    ensures Movable(files, moves[..0]) && MoveAll(files, moves[..0]) == files
  {
  }

  lemma NoneUnopposed(files: Tree, moves: seq<Move>)
    ensures Unopposed(files, moves[..0])
  {
  }
}

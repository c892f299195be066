/** Moving the files of a tree one by one: with `os.replace`, which overwrites, or with `git mv`, which refuses. */
module FileMoves {

  /** Repo-relative path to text. */
  type Tree = map<string, string>

  /** `src` and `dst` are the canonical old and new tails. */
  datatype Move = Move(src: string, dst: string)

  /** `os.replace`: the destination is overwritten. */
  function MoveOne(files: Tree, m: Move): Tree
    requires m.src in files
  {
    (files - {m.src})[m.dst := files[m.src]]
  }

  predicate Movable(files: Tree, moves: seq<Move>) {
    && (forall m | m in moves :: m.src in files)
    && (forall i, j | 0 <= i < j < |moves| :: moves[i].src != moves[j].src)
    && (forall m, n | m in moves && n in moves :: m.src != n.dst)
  }

  lemma MovableStep(files: Tree, moves: seq<Move>)
    requires Movable(files, moves) && moves != []
    ensures Movable(MoveOne(files, moves[0]), moves[1..])
  {
    var rest := moves[1..];
    assert forall m | m in rest :: m in moves;
    forall m | m in rest
      ensures m.src in MoveOne(files, moves[0])
    {
      var k :| 1 <= k < |moves| && moves[k] == m;
    }
  }

  function MoveAll(files: Tree, moves: seq<Move>): Tree
    requires Movable(files, moves)
    decreases |moves|
  {
    if moves == [] then files
    else MovableStep(files, moves); MoveAll(MoveOne(files, moves[0]), moves[1..])
  }

  // ---------------------------------------------------------------------------------------------
  // Part of the moves
  // ---------------------------------------------------------------------------------------------

  lemma MovablePart(files: Tree, a: seq<Move>, b: seq<Move>)
    requires Movable(files, a + b)
    ensures Movable(files, a)
  {
    var all := a + b;
    assert forall m | m in a :: m in all;
    assert forall i | 0 <= i < |a| :: a[i] == all[i];
  }

  /** Carrying out some moves leaves the others to be carried out, and the result is the same. */
  lemma {:induction false} MoveAllSplit(files: Tree, a: seq<Move>, b: seq<Move>)
    requires Movable(files, a + b)
    ensures Movable(files, a) && Movable(MoveAll(files, a), b)
    ensures MoveAll(files, a + b) == MoveAll(MoveAll(files, a), b)
    decreases |a|
  {
    MovablePart(files, a, b);
    if a == [] {
      assert a + b == b;
    } else {
      assert (a + b)[0] == a[0] && (a + b)[1..] == a[1..] + b;
      MovableStep(files, a + b);
      MovableStep(files, a);
      hide Movable;
      MoveAllSplit(MoveOne(files, a[0]), a[1..], b);
    }
  }

  /** After `k` moves, move `k` can be carried out, and gives the tree after `k + 1` moves. */
  lemma MoveNext(files: Tree, moves: seq<Move>, k: nat)
    requires Movable(files, moves) && k < |moves|
    ensures Movable(files, moves[..k]) && Movable(files, moves[..k + 1])
    ensures moves[k].src in MoveAll(files, moves[..k])
    ensures MoveAll(files, moves[..k + 1]) == MoveOne(MoveAll(files, moves[..k]), moves[k])
  {
    var a, b := moves[..k + 1], moves[k + 1..];
    assert moves == a + b && a == moves[..k] + [moves[k]];
    MovablePart(files, a, b);
    MoveAllSplit(files, moves[..k], [moves[k]]);
    MoveOneIsAll(MoveAll(files, moves[..k]), moves[k]);
  }

  lemma MoveOneIsAll(files: Tree, m: Move)
    requires Movable(files, [m])
    ensures m.src in files && MoveAll(files, [m]) == MoveOne(files, m)
  {
    assert m in [m] && [m][1..] == [];
  }

  lemma MovableTake(files: Tree, moves: seq<Move>, k: nat)
    requires Movable(files, moves) && k <= |moves|
    ensures Movable(files, moves[..k])
  {
    assert moves == moves[..k] + moves[k..];
    MovablePart(files, moves[..k], moves[k..]);
  }

  /** Whether files can be moved only asks which paths there are. */
  lemma MovableKeys(a: Tree, b: Tree, moves: seq<Move>)
    requires Movable(a, moves) && a.Keys == b.Keys
    ensures Movable(b, moves)
  {
    forall m | m in moves
      ensures m.src in b
    {
      assert m.src in a.Keys;
    }
  }

  // ---------------------------------------------------------------------------------------------
  // Where files end up
  // ---------------------------------------------------------------------------------------------

  /** What ends up at a destination: the last file moved there. */
  lemma {:induction false} LandedAt(files: Tree, moves: seq<Move>, q: string) returns (m: Move)
    requires Movable(files, moves) && exists n :: n in moves && n.dst == q
    ensures m in moves && m.dst == q
    ensures q in MoveAll(files, moves) && MoveAll(files, moves)[q] == files[m.src]
    decreases |moves|
  {
    var m0, rest := moves[0], moves[1..];
    MovableStep(files, moves);
    assert m0 in moves && moves == [m0] + rest;
    if exists n :: n in rest && n.dst == q {
      m := LandedAt(MoveOne(files, m0), rest, q);
      assert m in moves;
      var k :| 1 <= k < |moves| && moves[k] == m;
    } else {
      m := m0;
      Untouched(MoveOne(files, m0), rest, q);
      assert forall n | n in rest :: n.src != q;
    }
  }

  /** What no file moves to is there afterwards exactly when it was there and did not move. */
  lemma {:induction false} Untouched(files: Tree, moves: seq<Move>, q: string)
    requires Movable(files, moves) && forall n | n in moves :: n.dst != q
    ensures q in MoveAll(files, moves) <==> q in files && forall n | n in moves :: n.src != q
    ensures q in MoveAll(files, moves) ==> MoveAll(files, moves)[q] == files[q]
    decreases |moves|
  {
    if moves != [] {
      var m0, rest := moves[0], moves[1..];
      MovableStep(files, moves);
      assert m0 in moves && moves == [m0] + rest;
      Untouched(MoveOne(files, m0), rest, q);
    }
  }

  predicate Free(files: Tree, moves: seq<Move>) { forall m | m in moves :: m.dst !in files }

  predicate DistinctTargets(moves: seq<Move>) { forall i, j | 0 <= i < j < |moves| :: moves[i].dst != moves[j].dst }

  lemma MoveOneSize(files: Tree, m: Move)
    requires m.src in files && m.src != m.dst
    ensures |MoveOne(files, m)| == if m.dst in files then |files| - 1 else |files|
  {
    var t := MoveOne(files, m);
    assert t.Keys == files.Keys - {m.src} + {m.dst};
    assert |t| == |t.Keys| && |files| == |files.Keys|;
  }

  /** Moving keeps the number of files exactly when no destination was taken and no two files move to
      the same place. */
  lemma {:induction false} NoFileLostExactly(files: Tree, moves: seq<Move>)
    requires Movable(files, moves)
    ensures |MoveAll(files, moves)| <= |files|
    ensures |MoveAll(files, moves)| == |files| <==> Free(files, moves) && DistinctTargets(moves)
    decreases |moves|
  {
    if moves != [] {
      var m0, rest := moves[0], moves[1..];
      var next := MoveOne(files, m0);
      MovableStep(files, moves);
      NoFileLostExactly(next, rest);
      assert m0 in moves && moves == [m0] + rest;
      MoveOneSize(files, m0);
      FreeStep(files, moves);
    }
  }

  lemma FreeStep(files: Tree, moves: seq<Move>)
    requires Movable(files, moves) && moves != []
    ensures Free(files, moves) && DistinctTargets(moves)
            <==> moves[0].dst !in files && Free(MoveOne(files, moves[0]), moves[1..]) && DistinctTargets(moves[1..])
  {
    var m0, rest := moves[0], moves[1..];
    assert m0 in moves && moves == [m0] + rest;
    if m0.dst !in files && Free(MoveOne(files, m0), rest) && DistinctTargets(rest) {
      forall j | 0 < j < |moves|
        ensures m0.dst != moves[j].dst
      {
        assert moves[j] == rest[j - 1] && rest[j - 1] in rest;
      }
      forall i, j | 0 <= i < j < |moves|
        ensures moves[i].dst != moves[j].dst
      {
        assert i > 0 ==> rest[i - 1].dst != rest[j - 1].dst;
      }
      forall m | m in moves
        ensures m.dst !in files
      {
        assert m == m0 || m in rest;
        assert m in rest ==> m.dst !in MoveOne(files, m0) && m.dst != m0.src;
      }
    }
    if Free(files, moves) && DistinctTargets(moves) {
      forall m | m in rest
        ensures m.dst !in MoveOne(files, m0)
      {
        var k :| 1 <= k < |moves| && moves[k] == m;
      }
    }
  }

  /** Then every moved file is found at its new path and every other file where it was. */
  lemma EveryFileSurvives(files: Tree, moves: seq<Move>)
    requires Movable(files, moves) && Free(files, moves) && DistinctTargets(moves)
    ensures var final := MoveAll(files, moves);
            && (forall m | m in moves :: m.dst in final && final[m.dst] == files[m.src])
            && (forall p | p in files && (forall m | m in moves :: m.src != p) :: p in final && final[p] == files[p])
  {
    var final := MoveAll(files, moves);
    forall m | m in moves
      ensures m.dst in final && final[m.dst] == files[m.src]
    {
      var l := LandedAt(files, moves, m.dst);
      SameTarget(moves, l, m);
    }
    forall p | p in files && (forall m | m in moves :: m.src != p)
      ensures p in final && final[p] == files[p]
    {
      Untouched(files, moves, p);
    }
  }

  lemma SameTarget(moves: seq<Move>, l: Move, m: Move)
    requires DistinctTargets(moves) && l in moves && m in moves && l.dst == m.dst
    ensures l == m
  {
    var i :| 0 <= i < |moves| && moves[i] == l;
    var j :| 0 <= j < |moves| && moves[j] == m;
    assert i == j;
  }

  // ---------------------------------------------------------------------------------------------
  // `git mv`
  // ---------------------------------------------------------------------------------------------

  /** `git mv` carries out these moves: no destination is taken when its turn comes. */
  predicate Unopposed(files: Tree, moves: seq<Move>) { Free(files, moves) && DistinctTargets(moves) }

  /** A move meets a free destination exactly when its destination was free to begin with and no earlier
      move went there. */
  lemma NextUnopposed(files: Tree, moves: seq<Move>, k: nat)
    requires Movable(files, moves) && k < |moves|
    ensures Movable(files, moves[..k])
    ensures Unopposed(files, moves[..k + 1])
            <==> Unopposed(files, moves[..k]) && moves[k].dst !in MoveAll(files, moves[..k])
  {
    var before, q := moves[..k], moves[k].dst;
    MovableTake(files, moves, k);
    assert moves[..k + 1] == before + [moves[k]];
    SourcesLeave(files, moves, k);
    hide Movable, MoveAll, Unopposed;
    if exists n :: n in before && n.dst == q {
      var n := LandedAt(files, before, q);
      SharedTarget(files, before, n, moves[k]);
    } else {
      Untouched(files, before, q);
      UnopposedSnoc(files, before, moves[k]);
    }
  }

  lemma SharedTarget(files: Tree, moves: seq<Move>, n: Move, m: Move)
    requires n in moves && n.dst == m.dst
    ensures !Unopposed(files, moves + [m])
  {
    var i :| 0 <= i < |moves| && moves[i] == n;
    var all := moves + [m];
    assert all[i].dst == all[|moves|].dst;
  }

  /** A destination that was taken is not vacated by another move. */
  lemma SourcesLeave(files: Tree, moves: seq<Move>, k: nat)
    requires Movable(files, moves) && k < |moves|
    ensures forall n | n in moves[..k] :: n.src != moves[k].dst
  {
    assert moves[k] in moves && forall n | n in moves[..k] :: n in moves;
  }

  lemma UnopposedSnoc(files: Tree, moves: seq<Move>, m: Move)
    requires forall n | n in moves :: n.dst != m.dst
    ensures Unopposed(files, moves + [m]) <==> Unopposed(files, moves) && m.dst !in files
  {
    var all := moves + [m];
    assert forall i | 0 <= i < |moves| :: all[i] == moves[i] && moves[i] in moves;
    assert all[|moves|] == m;
    if Unopposed(files, all) {
      assert forall n | n in moves :: n in all;
      assert m in all;
    }
  }

  /** Moves that meet no taken destination lose no file. */
  lemma UnopposedKeepsFiles(files: Tree, moves: seq<Move>)
    requires Movable(files, moves) && Unopposed(files, moves)
    ensures |MoveAll(files, moves)| == |files|
  {
    NoFileLostExactly(files, moves);
  }

  lemma UnopposedTake(files: Tree, moves: seq<Move>, k: nat)
    requires k <= |moves| && Unopposed(files, moves)
    ensures Unopposed(files, moves[..k])
  {
    assert forall m | m in moves[..k] :: m in moves;
  }

  lemma UnopposedKeys(a: Tree, b: Tree, moves: seq<Move>)
    requires a.Keys == b.Keys
    ensures Unopposed(a, moves) == Unopposed(b, moves)
  {
    assert forall p :: p in a <==> p in a.Keys;
    assert forall p :: p in b <==> p in b.Keys;
  }
}

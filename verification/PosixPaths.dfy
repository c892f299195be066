/** The parts of `posixpath` the archive wave relies on (`normpath`, `join`, `relpath`),
    on relative paths, with the inverse law that makes a recomputed link land where it should. */
module PosixPaths {
  import opened Text

  /** A path component that is a real name: not empty, not `.`, not `..`, no slash. */
  predicate Ordinary(seg: string) { seg != "" && seg != "." && seg != ".." && '/' !in seg }

  predicate AllOrdinary(segs: seq<string>) { forall s | s in segs :: Ordinary(s) }

  /** One turn of the loop in `normpath`; `abs` says whether the path had a leading slash. */
  function NormStep(abs: bool, acc: seq<string>, comp: string): seq<string> {
    if comp == "" || comp == "." then acc
    else if comp != ".." || (!abs && acc == []) || (acc != [] && acc[|acc| - 1] == "..") then acc + [comp]
    else if acc != [] then acc[..|acc| - 1]
    else acc
  }

  function Norm(abs: bool, acc: seq<string>, comps: seq<string>): seq<string>
    decreases |comps|
  {
    if comps == [] then acc else Norm(abs, NormStep(abs, acc, comps[0]), comps[1..])
  }

  /** The path string of a list of components; `normpath` answers `.` for the empty list. */
  function PathOf(segs: seq<string>): string { if segs == [] then "." else Join("/", segs) }

  /** `posixpath.normpath`. */
  function NormPath(p: string): string {
    if !StartsWith(p, "/") then PathOf(Norm(false, [], Split(p, '/')))
    else (if StartsWith(p, "//") && !StartsWith(p, "///") then "//" else "/") + Join("/", Norm(true, [], Split(p, '/')))
  }

  /** `posixpath.join`. */
  function JoinPath(a: string, b: string): string {
    if StartsWith(b, "/") then b else if a == "" || a[|a| - 1] == '/' then a + b else a + "/" + b
  }

  /** Components of `abspath(p)` in working directory `cwd`. */
  function AbsSegs(cwd: seq<string>, p: string): seq<string> {
    Norm(true, [], (if StartsWith(p, "/") then [] else cwd) + Split(p, '/'))
  }

  function CommonLen(a: seq<string>, b: seq<string>): (n: nat)
    ensures n <= |a| && n <= |b| && a[..n] == b[..n]
    ensures n < |a| && n < |b| ==> a[n] != b[n]
  {
    if a != [] && b != [] && a[0] == b[0] then
      var n := CommonLen(a[1..], b[1..]);
      assert a[..n + 1] == [a[0]] + a[1..][..n];
      assert b[..n + 1] == [b[0]] + b[1..][..n];
      n + 1
    else 0
  }

  function Ups(n: nat): seq<string> { seq(n, _ => "..") }

  function RelSegs(from: seq<string>, to: seq<string>): seq<string> {
    var i := CommonLen(from, to);
    Ups(|from| - i) + to[i..]
  }

  /** `posixpath.relpath(path, start)` in working directory `cwd`. */
  function RelPath(cwd: seq<string>, path: string, start: string): string {
    PathOf(RelSegs(AbsSegs(cwd, start), AbsSegs(cwd, path)))
  }

  lemma {:induction false} NormAppend(abs: bool, acc: seq<string>, a: seq<string>, b: seq<string>)
    ensures Norm(abs, acc, a + b) == Norm(abs, Norm(abs, acc, a), b)
    decreases |a|
  {
    if a == [] {
      assert a + b == b;
    } else {
      assert (a + b)[1..] == a[1..] + b;
      NormAppend(abs, NormStep(abs, acc, a[0]), a[1..], b);
    }
  }

  lemma {:induction false} NormOrdinary(abs: bool, acc: seq<string>, comps: seq<string>)
    requires AllOrdinary(comps)
    ensures Norm(abs, acc, comps) == acc + comps
    decreases |comps|
  {
    if comps != [] {
      assert comps[0] in comps;
      NormOrdinary(abs, acc + [comps[0]], comps[1..]);
      assert acc + [comps[0]] + comps[1..] == acc + comps;
    }
  }

  lemma {:induction false} NormUps(acc: seq<string>, n: nat)
    requires AllOrdinary(acc) && n <= |acc|
    ensures Norm(false, acc, Ups(n)) == acc[..|acc| - n]
    decreases n
  {
    if n > 0 {
      assert Ups(n)[1..] == Ups(n - 1);
      assert acc[|acc| - 1] in acc;
      NormUps(acc[..|acc| - 1], n - 1);
      assert acc[..|acc| - 1][..|acc| - n] == acc[..|acc| - n];
    }
  }

  lemma SplitPathOf(segs: seq<string>)
    requires forall s | s in segs :: s != "" && '/' !in s
    ensures Split(PathOf(segs), '/') == if segs == [] then ["."] else segs
  {
    if segs == [] {
      SplitNone(".", '/');
    } else {
      SplitJoin(segs, '/');
    }
  }

  lemma PathOfRelative(segs: seq<string>)
    requires forall s | s in segs :: s != "" && '/' !in s
    ensures PathOf(segs) != "" && PathOf(segs)[0] != '/' && !StartsWith(PathOf(segs), "/")
  {
    if segs != [] {
      JoinFirst(segs);
    }
  }

  /** Normalising the path string of ordinary components gives it back. */
  lemma NormPathOf(segs: seq<string>)
    requires AllOrdinary(segs)
    ensures Norm(false, [], Split(PathOf(segs), '/')) == segs
    ensures NormPath(PathOf(segs)) == PathOf(segs)
  {
    SplitPathOf(segs);
    PathOfRelative(segs);
    if segs != [] {
      NormOrdinary(false, [], segs);
    }
  }

  lemma AbsOrdinary(cwd: seq<string>, segs: seq<string>)
    requires AllOrdinary(cwd) && AllOrdinary(segs)
    ensures AbsSegs(cwd, PathOf(segs)) == cwd + segs
  {
    SplitPathOf(segs);
    PathOfRelative(segs);
    NormOrdinary(true, [], cwd);
    NormAppend(true, [], cwd, Split(PathOf(segs), '/'));
    assert [] + cwd == cwd;
    if segs == [] {
      assert Norm(true, cwd, ["."]) == cwd == cwd + segs;
    } else {
      NormOrdinary(true, cwd, segs);
    }
  }

  lemma {:induction false} CommonLenShift(pre: seq<string>, a: seq<string>, b: seq<string>)
    ensures CommonLen(pre + a, pre + b) == |pre| + CommonLen(a, b)
    decreases |pre|
  {
    if pre == [] {
      assert pre + a == a && pre + b == b;
    } else {
      assert (pre + a)[1..] == pre[1..] + a && (pre + b)[1..] == pre[1..] + b;
      CommonLenShift(pre[1..], a, b);
    }
  }

  /** A relative path climbs and then names: every component is `..` or comes from the target. */
  lemma RelSegsParts(from: seq<string>, to: seq<string>)
    ensures forall s | s in RelSegs(from, to) :: s == ".." || s in to
  {
    var i := CommonLen(from, to);
    forall s | s in RelSegs(from, to)
      ensures s == ".." || s in to
    {
      assert s in Ups(|from| - i) || s in to[i..];
    }
  }

  lemma RelSegsShift(pre: seq<string>, a: seq<string>, b: seq<string>)
    ensures RelSegs(pre + a, pre + b) == RelSegs(a, b)
  {
    CommonLenShift(pre, a, b);
    var i := CommonLen(a, b);
    assert (pre + b)[|pre| + i..] == b[i..];
    assert |pre + a| - (|pre| + i) == |a| - i;
  }

  /** The working directory cancels: `relpath` only looks at the two directories. */
  lemma RelPathSegs(cwd: seq<string>, from: seq<string>, to: seq<string>)
    requires AllOrdinary(cwd) && AllOrdinary(from) && AllOrdinary(to)
    ensures RelPath(cwd, PathOf(to), PathOf(from)) == PathOf(RelSegs(from, to))
  {
    AbsOrdinary(cwd, from);
    AbsOrdinary(cwd, to);
    RelSegsShift(cwd, from, to);
  }

  /** `join(from, rel)` normalises to a walk of `rel` starting at `from`. */
  lemma JoinPathSegs(from: seq<string>, rel: seq<string>)
    requires AllOrdinary(from)
    requires rel != [] && forall s | s in rel :: s != "" && '/' !in s
    ensures !StartsWith(JoinPath(PathOf(from), Join("/", rel)), "/")
    ensures Norm(false, [], Split(JoinPath(PathOf(from), Join("/", rel)), '/')) == Norm(false, from, rel)
  {
    var a, b := PathOf(from), Join("/", rel);
    JoinFirst(rel);
    PathOfRelative(from);
    assert JoinPath(a, b) == a + ['/'] + b by {
      if from != [] {
        JoinLast(from);
      }
    }
    assert Split(a + ['/'] + b, '/') == Split(a, '/') + rel by {
      SplitConcat(a, b, '/');
      SplitJoin(rel, '/');
    }
    NormAppend(false, [], Split(a, '/'), rel);
    NormPathOf(from);
  }

  /** The same for a relative path that may be empty, written `.`. */
  lemma JoinPathOf(from: seq<string>, rel: seq<string>)
    requires AllOrdinary(from)
    requires forall s | s in rel :: s != "" && '/' !in s
    ensures NormPath(JoinPath(PathOf(from), PathOf(rel))) == PathOf(Norm(false, from, rel))
  {
    if rel == [] {
      JoinPathSegs(from, ["."]);
      assert NormStep(false, from, ".") == from;
    } else {
      JoinPathSegs(from, rel);
    }
  }

  lemma JoinFirst(segs: seq<string>)
    requires segs != [] && forall s | s in segs :: s != "" && '/' !in s
    ensures var j := Join("/", segs); j != "" && j[0] != '/' && !StartsWith(j, "/")
  {
    assert segs[0] in segs;
    assert segs[0][0] in segs[0];
    assert Join("/", segs)[0] == segs[0][0];
  }

  lemma {:induction false} JoinLast(segs: seq<string>)
    requires segs != [] && forall s | s in segs :: s != "" && '/' !in s
    ensures var j := Join("/", segs); j != "" && j[|j| - 1] != '/'
  {
    assert segs[0] in segs;
    if |segs| == 1 {
      assert segs[0][|segs[0]| - 1] in segs[0];
    } else {
      assert forall s | s in segs[1..] :: s in segs;
      JoinLast(segs[1..]);
    }
  }

  lemma Walk(pre: seq<string>, a: seq<string>, b: seq<string>)
    requires AllOrdinary(pre + a) && AllOrdinary(pre + b)
    ensures Norm(false, pre + a, Ups(|a|) + b) == pre + b
  {
    NormAppend(false, pre + a, Ups(|a|), b);
    NormUps(pre + a, |a|);
    assert (pre + a)[..|pre|] == pre;
    assert AllOrdinary(b) by {
      assert forall s | s in b :: s in pre + b;
    }
    NormOrdinary(false, pre, b);
  }

  /** Walking the relative components from `from` arrives at `to`. */
  lemma RelSegsLand(from: seq<string>, to: seq<string>)
    requires AllOrdinary(from) && AllOrdinary(to)
    ensures Norm(false, from, RelSegs(from, to)) == to
  {
    var i := CommonLen(from, to);
    assert from == from[..i] + from[i..] && to == from[..i] + to[i..];
    Walk(from[..i], from[i..], to[i..]);
  }

  /** `normpath(join(d, relpath(n, d))) == n` for every normalised `d` and `n` that stay inside the
      tree they are relative to, whatever the working directory; either may be `.`. */
  lemma RelPathInverse(cwd: seq<string>, from: seq<string>, to: seq<string>)
    requires AllOrdinary(cwd) && AllOrdinary(from) && AllOrdinary(to)
    ensures var r := RelPath(cwd, PathOf(to), PathOf(from));
            NormPath(JoinPath(PathOf(from), r)) == PathOf(to)
  {
    RelPathSegs(cwd, from, to);
    RelSegsParts(from, to);
    RelSegsLand(from, to);
    JoinPathOf(from, RelSegs(from, to));
  }

  // ---------------------------------------------------------------------------------------------
  // Depth
  // ---------------------------------------------------------------------------------------------

  predicate NoDots(segs: seq<string>) { forall s | s in segs :: s != "" && s != "." && s != ".." }

  lemma NormSnoc(acc: seq<string>, comps: seq<string>, c: string)
    ensures Norm(false, acc, comps + [c]) == NormStep(false, Norm(false, acc, comps), c)
  {
    NormAppend(false, acc, comps, [c]);
    assert [c][1..] == [];
  }

  /** A normalised relative path climbs, and then only names. */
  lemma {:induction false} NormalForm(comps: seq<string>) returns (climbs: nat, names: seq<string>)
    ensures Norm(false, [], comps) == Ups(climbs) + names && NoDots(names)
  {
    if comps == [] {
      climbs, names := 0, [];
    } else {
      var n := |comps| - 1;
      climbs, names := NormalForm(comps[..n]);
      assert comps == comps[..n] + [comps[n]];
      NormSnoc([], comps[..n], comps[n]);
      climbs, names := StepForm(climbs, names, comps[n]);
    }
  }

  lemma StepForm(climbs: nat, names: seq<string>, c: string) returns (climbs2: nat, names2: seq<string>)
    requires NoDots(names)
    ensures NormStep(false, Ups(climbs) + names, c) == Ups(climbs2) + names2 && NoDots(names2)
  {
    var acc := Ups(climbs) + names;
    if c == "" || c == "." {
      climbs2, names2 := climbs, names;
    } else if c != ".." {
      climbs2, names2 := climbs, names + [c];
      assert acc + [c] == Ups(climbs) + (names + [c]);
    } else if names == [] {
      climbs2, names2 := climbs + 1, [];
      assert acc + [".."] == Ups(climbs + 1) + [];
    } else {
      var n := |names| - 1;
      climbs2, names2 := climbs, names[..n];
      assert acc[|acc| - 1] == names[n] && names[n] in names;
      assert acc[..|acc| - 1] == Ups(climbs) + names[..n];
      assert forall s | s in names[..n] :: s in names;
    }
  }

  /** Walking components from a directory is walking their normal form. */
  lemma {:induction false} NormTwice(acc: seq<string>, comps: seq<string>)
    ensures Norm(false, acc, comps) == Norm(false, acc, Norm(false, [], comps))
  {
    if comps != [] {
      var n := |comps| - 1;
      var init, c := comps[..n], comps[n];
      assert comps == init + [c];
      NormTwice(acc, init);
      NormSnoc(acc, init, c);
      NormSnoc([], init, c);
      var climbs, names := NormalForm(init);
      StepTwice(acc, Ups(climbs) + names, c, climbs, names);
    }
  }

  lemma StepTwice(acc: seq<string>, normal: seq<string>, c: string, climbs: nat, names: seq<string>)
    requires normal == Ups(climbs) + names && NoDots(names)
    ensures NormStep(false, Norm(false, acc, normal), c) == Norm(false, acc, NormStep(false, normal, c))
  {
    if c != "" && c != "." {
      if c != ".." || names == [] {
        NormSnoc(acc, normal, c);
        assert normal != [] && names == [] ==> normal[|normal| - 1] == "..";
      } else {
        var n := |normal| - 1;
        var x := normal[n];
        assert x == names[|names| - 1] && x in names;
        assert normal == normal[..n] + [x];
        NormSnoc(acc, normal[..n], x);
      }
    }
  }

  lemma {:induction false} NormClimbs(j: nat, n: nat)
    ensures Norm(false, Ups(j), Ups(n)) == Ups(j + n)
    decreases n
  {
    if n > 0 {
      assert Ups(n)[1..] == Ups(n - 1);
      assert Ups(j) + [".."] == Ups(j + 1);
      NormClimbs(j + 1, n - 1);
    }
  }

  lemma UpsConcat(j: nat, n: nat)
    ensures Ups(j) + Ups(n) == Ups(j + n) && Ups(0) == []
  {
  }

  /** Climbing `n` times from a directory: its ancestor, or a path that still climbs. */
  lemma ClimbFrom(acc: seq<string>, n: nat)
    requires AllOrdinary(acc)
    ensures Norm(false, acc, Ups(n)) == if n <= |acc| then acc[..|acc| - n] else Ups(n - |acc|)
  {
    hide *;
    if n <= |acc| {
      NormUps(acc, n);
    } else {
      ClimbPast(acc, n - |acc|);
    }
  }

  lemma ClimbPast(acc: seq<string>, n: nat)
    requires AllOrdinary(acc)
    ensures Norm(false, acc, Ups(|acc| + n)) == Ups(n)
  {
    hide *;
    UpsConcat(|acc|, n);
    NormAppend(false, acc, Ups(|acc|), Ups(n));
    NormUps(acc, |acc|);
    assert acc[..0] == [];
    NormClimbs(0, n);
  }

  lemma {:induction false} NormNames(acc: seq<string>, names: seq<string>)
    requires NoDots(names)
    ensures Norm(false, acc, names) == acc + names
    decreases |names|
  {
    if names != [] {
      assert names[0] in names && forall s | s in names[1..] :: s in names;
      NormNames(acc + [names[0]], names[1..]);
      assert acc + [names[0]] + names[1..] == acc + names;
    }
  }

  /** The same relative path read from two directories whose depths differ by one never arrives at the same place. */
  lemma DepthsDiffer(a: seq<string>, b: seq<string>, comps: seq<string>)
    requires AllOrdinary(a) && AllOrdinary(b) && |b| == |a| + 1
    ensures |Norm(false, a, comps)| != |Norm(false, b, comps)|
  {
    var climbs, names := NormalForm(comps);
    NormTwice(a, comps);
    NormTwice(b, comps);
    NormAppend(false, a, Ups(climbs), names);
    NormAppend(false, b, Ups(climbs), names);
    ClimbFrom(a, climbs);
    ClimbFrom(b, climbs);
    NormNames(Norm(false, a, Ups(climbs)), names);
    NormNames(Norm(false, b, Ups(climbs)), names);
  }

  // ---------------------------------------------------------------------------------------------
  // Normalising is walking
  // ---------------------------------------------------------------------------------------------

  /** Where a walk has come: so many directories above the start, then down these components. */
  datatype Place = Place(ups: nat, below: seq<string>)

  function Go(at: Place, comp: string): Place {
    if comp == "" || comp == "." then at
    else if comp != ".." then at.(below := at.below + [comp])
    else if at.below != [] then at.(below := at.below[..|at.below| - 1])
    else at.(ups := at.ups + 1)
  }

  function Trail(at: Place, comps: seq<string>): Place
    decreases |comps|
  {
    if comps == [] then at else Trail(Go(at, comps[0]), comps[1..])
  }

  predicate NoUps(segs: seq<string>) { forall k | 0 <= k < |segs| :: segs[k] != ".." }

  lemma {:induction false} NormWalks(at: Place, comps: seq<string>)
    requires NoUps(at.below)
    ensures var end := Trail(at, comps);
            NoUps(end.below) && Norm(false, Ups(at.ups) + at.below, comps) == Ups(end.ups) + end.below
    decreases |comps|
  {
    hide NormStep, Go, NoUps, Ups;
    if comps != [] {
      StepGoes(at, comps[0]);
      NormWalks(Go(at, comps[0]), comps[1..]);
    }
  }

  lemma StepGoes(at: Place, comp: string)
    requires NoUps(at.below)
    ensures var next := Go(at, comp);
            NoUps(next.below) && NormStep(false, Ups(at.ups) + at.below, comp) == Ups(next.ups) + next.below
  {
    var acc := Ups(at.ups) + at.below;
    if comp == ".." {
      if at.below != [] {
        assert acc[|acc| - 1] == at.below[|at.below| - 1];
        assert acc[..|acc| - 1] == Ups(at.ups) + at.below[..|at.below| - 1];
      } else {
        assert acc == Ups(at.ups) && Ups(at.ups) + [comp] == Ups(at.ups + 1);
        assert acc != [] ==> acc[|acc| - 1] == "..";
        assert Ups(at.ups + 1) + at.below == Ups(at.ups + 1);
      }
    } else {
      assert acc + [comp] == Ups(at.ups) + (at.below + [comp]);
    }
  }

  lemma {:induction false} RootWalks(at: Place, comps: seq<string>)
    requires NoUps(at.below)
    ensures Norm(true, at.below, comps) == Trail(at, comps).below
    decreases |comps|
  {
    if comps != [] {
      assert NormStep(true, at.below, comps[0]) == Go(at, comps[0]).below && NoUps(Go(at, comps[0]).below);
      hide NormStep, Go, NoUps;
      RootWalks(Go(at, comps[0]), comps[1..]);
    }
  }

  lemma SlashesAhead(p: string)
    ensures StartsWith(p, "/") <==> p != "" && p[0] == '/'
    ensures StartsWith(p, "//") <==> |p| > 1 && p[0] == '/' && p[1] == '/'
    ensures StartsWith(p, "///") <==> |p| > 2 && p[0] == '/' && p[1] == '/' && p[2] == '/'
  {
    assert |p| > 0 ==> p[..1] == [p[0]];
    assert |p| > 1 ==> p[..2] == [p[0], p[1]];
    assert |p| > 2 ==> p[..3] == [p[0], p[1], p[2]];
    assert "/" == ['/'] && "//" == ['/', '/'] && "///" == ['/', '/', '/'];
  }

  /** A normal path names where walking along the path ends: from the start for a relative one; from the root, which has
      no parent, for an absolute one. Exactly two leading slashes are kept. */
  lemma NormPathMeaning(p: string)
    ensures var end := Trail(Place(0, []), Split(p, '/'));
            NormPath(p)
            == if p == "" || p[0] != '/' then PathOf(Ups(end.ups) + end.below)
               else if |p| > 1 && p[1] == '/' && (|p| == 2 || p[2] != '/') then "//" + Join("/", end.below)
               else "/" + Join("/", end.below)
  {
    var start := Place(0, []);
    SlashesAhead(p);
    assert Ups(0) + start.below == [] && NoUps(start.below);
    hide Norm, Trail, Split, Join, PathOf, Ups, StartsWith;
    NormWalks(start, Split(p, '/'));
    RootWalks(start, Split(p, '/'));
  }
}

/** Listing and planning again in the tree that a run left behind, wherever it stopped. */
module WaveRerun {
  import opened Text
  import opened PosixPaths
  import opened PathTokens
  import opened TokenEdit
  import opened Census
  import opened LinkRewrite
  import opened LinkTheorems
  import opened FileMoves
  import opened ArchiveWave
  import opened WaveTheorems
  import opened WaveResume

  // ---------------------------------------------------------------------------------------------
  // A rewritten file belongs to the same issue
  // ---------------------------------------------------------------------------------------------

  lemma TokenHasDot(q: string)
    requires IsToken(q)
    ensures '.' in q
  {
  }

  lemma RootHasDot(month: string, base: string)
    requires MdName(base)
    ensures '.' in NewTail(month, base)
  {
    TokenHasDot(base);
    assert forall c | c in base :: c in NewTail(month, base);
  }

  lemma RelativeHasDot(dstDir: string, month: string, base: string)
    requires GoodDir(dstDir) && GoodMonth(month) && MdName(base)
    ensures '.' in PathOf(RefSegs(dstDir, month, base))
  {
    var from, to := DirSegs(dstDir), NewSegs(month, base);
    var i := CommonLen(from, to);
    NewPlain(month, base);
    RelSegsParts(from, to);
    hide GoodMonth, GoodDir, Fits, IsToken;
    if i < |to| {
      assert Plain("..");
      assert to[i..][|to[i..]| - 1] == base;
      PlainToken(RelSegs(from, to));
      TokenHasDot(PathOf(RelSegs(from, to)));
    } else {
      assert RelSegs(from, to) == Ups(|from| - i);
      UpsHaveDot(|from| - i);
    }
  }

  lemma UpsHaveDot(n: nat)
    ensures '.' in PathOf(Ups(n))
  {
    if n > 0 {
      assert Ups(n)[0] == ".." && ".."[0] == '.';
    }
  }

  lemma RefIsSolid(cwd: seq<string>, srcDir: string, dstDir: string, tok: string, month: string, newByOld: map<string, string>)
    requires AllOrdinary(cwd) && GoodDir(srcDir) && GoodDir(dstDir) && IsToken(tok) && WaveMap(month, newByOld)
    requires MatchOld(srcDir, tok, newByOld.Keys).Some?
    ensures var q := RewriteRef(cwd, dstDir, MatchOld(srcDir, tok, newByOld.Keys).value, newByOld);
            '.' in q && forall k | 0 <= k < |q| :: IsPath(q[k])
  {
    RefResolves(cwd, srcDir, dstDir, tok, month, newByOld);
    HitBase(srcDir, tok, newByOld.Keys);
    var hit := MatchOld(srcDir, tok, newByOld.Keys).value;
    var base := BaseOf(hit.path);
    MdOrdinary(base);
    hide NormPath, JoinPath, GoodDir, IsToken, IsTail, GoodMonth, MdName, Hits, MatchOld, RelPath;
    if hit.style == Root {
      RootHasDot(month, base);
    } else {
      RelativeHasDot(dstDir, month, base);
      RelativeLands(cwd, dstDir, month, base);
    }
  }

  lemma ReplacementsSolid(cwd: seq<string>, text: string, srcDir: string, dstDir: string, month: string,
                          newByOld: map<string, string>)
    requires AllOrdinary(cwd) && GoodDir(srcDir) && GoodDir(dstDir) && WaveMap(month, newByOld)
    ensures Solid(Replacements(cwd, text, srcDir, dstDir, newByOld))
  {
    hide Hits, MatchOld, RewriteRef, WaveMap, GoodDir, IsToken, Tokens;
    var m := Replacements(cwd, text, srcDir, dstDir, newByOld);
    TokensAreTokens(text);
    forall tok | tok in m
      ensures '.' in m[tok] && forall k | 0 <= k < |m[tok]| :: IsPath(m[tok][k])
    {
      RefIsSolid(cwd, srcDir, dstDir, tok, month, newByOld);
    }
  }

  /** The census finds the same issue in a rewritten file, whether or not the file moves. */
  lemma IssueSurvives(d: set<char>, number: string -> int, cwd: seq<string>, p: string, base: string, text: string,
                      month: string, table: map<string, string>)
    requires DigitClass(d) && AllOrdinary(cwd) && GoodPath(p) && WaveMap(month, table)
    ensures IssueOf(d, number, base, RewrittenFile(cwd, p, text, table)) == IssueOf(d, number, base, text)
  {
    hide WaveMap, GoodPath, ParentDir, DigitClass, Edit, FrontIssue, BaseIssue, Replacements, Solid, ArchiveDir, GoodDir;
    ParentGood(p);
    var dst := ParentDir(FinalPath(p, table));
    assert GoodDir(dst) by {
      if p in table {
        MovesToArchive(month, table, p);
        ArchiveDirGood(month, table);
      }
    }
    ReplacementsSolid(cwd, text, ParentDir(p), dst, month, table);
    FrontKept(d, text, Replacements(cwd, text, ParentDir(p), dst, table), true);
  }

  // ---------------------------------------------------------------------------------------------
  // The listing
  // ---------------------------------------------------------------------------------------------

  /** A suffix of the documents the wave sweeps; a leading dot starts no suffix. */
  predicate DocName(b: string) { (EndsWith(b, ".md") && |b| > 3) || (EndsWith(b, ".mdx") && |b| > 4) }

  function Place(category: string): nat {
    if category == "frames" then 0 else if category == "analyses" then 1 else if category == "specs" then 2
    else if category == "goal" then 3 else 4
  }

  /** A file of a swept category. */
  datatype Name = Name(category: string, basename: string)

  function NameOf(c: Candidate): Name { Name(c.category, c.basename) }

  function PathIn(n: Name): string { Tail(n.category, n.basename) }

  predicate Before(a: Name, b: Name) {
    Place(a.category) < Place(b.category) || (a.category == b.category && Less(a.basename, b.basename))
  }

  predicate Sorted(ns: seq<Name>) { forall i, j | 0 <= i < j < |ns| :: Before(ns[i], ns[j]) }

  function Names(cands: seq<Candidate>): seq<Name> { seq(|cands|, i requires 0 <= i < |cands| => NameOf(cands[i])) }

  /** What `iter_candidates` finds in a tree: every document directly in a swept category, category by category and by
      name, with the issue its text or name gives. */
  ghost predicate Lists(d: set<char>, number: string -> int, cands: seq<Candidate>, files: Tree) {
    && Sorted(Names(cands))
    && (forall c | c in cands ::
          GoodCandidate(c) && DocName(c.basename) && PathIn(NameOf(c)) in files
          && c.issue == IssueOf(d, number, c.basename, files[PathIn(NameOf(c))]))
    && (forall p | p in files && IsTail(p) && DocName(BaseOf(p)) :: exists c :: c in cands && PathIn(NameOf(c)) == p)
  }

  // ---------------------------------------------------------------------------------------------
  // `iter_candidates`
  // ---------------------------------------------------------------------------------------------

  const DOC_SUFFIXES: set<string> := {".md", ".mdx"}

  function LastDot(b: string): (i: int)
    ensures -1 <= i < |b| && (i >= 0 ==> b[i] == '.') && forall k | i < k < |b| :: b[k] != '.'
  {
    if b == "" then -1 else if b[|b| - 1] == '.' then |b| - 1 else LastDot(b[..|b| - 1])
  }

  /** `PurePath.suffix`: from the last dot on, unless the name begins or ends with that dot. */
  function PathSuffix(b: string): string { if 0 < LastDot(b) < |b| - 1 then b[LastDot(b)..] else "" }

  lemma SuffixIs(b: string)
    ensures PathSuffix(b) in DOC_SUFFIXES <==> DocName(b)
  {
    if |b| > 3 {
      assert b[|b| - 3..] == [b[|b| - 3], b[|b| - 2], b[|b| - 1]];
    }
    if |b| > 4 {
      assert b[|b| - 4..] == [b[|b| - 4], b[|b| - 3], b[|b| - 2], b[|b| - 1]];
    }
    assert ".md" == ['.', 'm', 'd'] && ".mdx" == ['.', 'm', 'd', 'x'];
  }

  /** A file directly in a swept category. */
  predicate InDir(p: string, category: string) { IsTail(p) && Split(p, '/')[1] == category }

  predicate InCategory(p: string, category: string) { InDir(p, category) && DocName(BaseOf(p)) }

  lemma CategoryPath(p: string, category: string)
    requires InDir(p, category)
    ensures category in CATEGORIES && Ordinary(BaseOf(p)) && PathIn(Name(category, BaseOf(p))) == p
  {
    var s := Split(p, '/');
    JoinSplit(p, '/');
    assert s == ["artifacts", category, BaseOf(p)];
    TailText(category, BaseOf(p));
    hide Split, Tail, CATEGORIES;
    JoinThree("artifacts", category, BaseOf(p));
  }

  lemma JoinThree(a: string, b: string, c: string)
    ensures Join(['/'], [a, b, c]) == a + "/" + (b + "/" + c)
  {
    assert [a, b, c][1..] == [b, c] && [b, c][1..] == [c];
    assert Join(['/'], [b, c]) == b + "/" + c;
  }

  /** What `Lists` says of one category. */
  ghost predicate ListsCategory(d: set<char>, number: string -> int, category: string, cs: seq<Candidate>, files: Tree) {
    && Sorted(Names(cs))
    && (forall c | c in cs ::
          c.category == category && GoodCandidate(c) && DocName(c.basename) && PathIn(NameOf(c)) in files
          && c.issue == IssueOf(d, number, c.basename, files[PathIn(NameOf(c))]))
    && (forall p | p in files && InCategory(p, category) :: exists c :: c in cs && PathIn(NameOf(c)) == p)
  }

  /** The documents among these names of one directory. */
  ghost predicate ListsNames(d: set<char>, number: string -> int, category: string, cs: seq<Candidate>, bases: seq<string>,
                             files: Tree)
  {
    && Sorted(Names(cs))
    && (forall c | c in cs ::
          && c.category == category && c.basename in bases && GoodCandidate(c) && DocName(c.basename)
          && PathIn(NameOf(c)) in files && c.issue == IssueOf(d, number, c.basename, files[PathIn(NameOf(c))]))
    && forall b | b in bases && DocName(b) :: exists c :: c in cs && NameOf(c) == Name(category, b)
  }

  /** The files of one directory by name, without those of another suffix. */
  method ListCategory(d: set<char>, number: string -> int, category: string, files: Tree) returns (cs: seq<Candidate>)
    ensures ListsCategory(d, number, category, cs, files)
  {
    hide *;
    BasesAre(files, category);
    var sorted := SortedList(BasesIn(files, category));
    cs := [];
    NothingListed(d, number, category, files);
    for k := 0 to |sorted|
      invariant ListsNames(d, number, category, cs, sorted[..k], files)
    {
      var base := sorted[k];
      assert base in sorted && sorted[..k + 1] == sorted[..k] + [base];
      SuffixIs(base);
      if PathSuffix(base) !in DOC_SUFFIXES {
        SkipName(d, number, category, cs, sorted[..k], base, files);
        continue;
      }
      TakeName(d, number, category, cs, sorted, k, files);
      cs := cs + [Candidate(category, base, IssueOf(d, number, base, files[PathIn(Name(category, base))]))];
    }
    assert sorted[..|sorted|] == sorted;
    NoneMissing(d, number, category, files, sorted, cs);
  }

  /** The names of the files in one directory. */
  function BasesIn(files: Tree, category: string): set<string> { set p | p in files && InDir(p, category) :: BaseOf(p) }

  lemma BasesAre(files: Tree, category: string)
    ensures forall b | b in BasesIn(files, category) ::
              category in CATEGORIES && Ordinary(b) && PathIn(Name(category, b)) in files
    ensures forall p | p in files && InDir(p, category) :: BaseOf(p) in BasesIn(files, category)
  {
    hide Tail, CATEGORIES, Ordinary;
    var bases := BasesIn(files, category);
    forall b | b in bases
      ensures category in CATEGORIES && Ordinary(b) && PathIn(Name(category, b)) in files
    {
      var p :| p in files && InDir(p, category) && BaseOf(p) == b;
      CategoryPath(p, category);
    }
  }

  lemma NothingListed(d: set<char>, number: string -> int, category: string, files: Tree)
    ensures ListsNames(d, number, category, [], [], files)
  {
  }

  lemma SkipName(d: set<char>, number: string -> int, category: string, cs: seq<Candidate>, bases: seq<string>, base: string,
                 files: Tree)
    requires ListsNames(d, number, category, cs, bases, files) && !DocName(base)
    ensures ListsNames(d, number, category, cs, bases + [base], files)
  {
    hide Sorted, DocName, GoodCandidate, PathIn, IssueOf;
  }

  lemma TakeName(d: set<char>, number: string -> int, category: string, cs: seq<Candidate>, bases: seq<string>, k: nat,
                 files: Tree)
    requires k < |bases| && Ascending(bases) && ListsNames(d, number, category, cs, bases[..k], files)
    requires DocName(bases[k]) && category in CATEGORIES && Ordinary(bases[k]) && PathIn(Name(category, bases[k])) in files
    ensures var c := Candidate(category, bases[k], IssueOf(d, number, bases[k], files[PathIn(Name(category, bases[k]))]));
            ListsNames(d, number, category, cs + [c], bases[..k] + [bases[k]], files)
  {
    var c := Candidate(category, bases[k], IssueOf(d, number, bases[k], files[PathIn(Name(category, bases[k]))]));
    SortedSnoc(cs, c, bases, k);
    hide Sorted, DocName, PathIn, IssueOf, CATEGORIES, Ordinary;
    forall b | b in bases[..k] + [bases[k]] && DocName(b)
      ensures exists x :: x in cs + [c] && NameOf(x) == Name(category, b)
    {
      if b in bases[..k] {
        var x :| x in cs && NameOf(x) == Name(category, b);
        assert x in cs + [c];
      } else {
        assert c in cs + [c];
      }
    }
  }

  lemma SortedSnoc(cs: seq<Candidate>, c: Candidate, bases: seq<string>, k: nat)
    requires Sorted(Names(cs)) && k < |bases| && Ascending(bases) && c.basename == bases[k]
    requires forall x | x in cs :: x.category == c.category && x.basename in bases[..k]
    ensures Sorted(Names(cs + [c]))
  {
    hide Less;
    forall i | 0 <= i < |cs|
      ensures Less(cs[i].basename, c.basename)
    {
      assert cs[i] in cs;
      var j :| 0 <= j < k && bases[..k][j] == cs[i].basename;
    }
    var all := Names(cs + [c]);
    assert forall i | 0 <= i < |cs| :: all[i] == Names(cs)[i];
  }

  lemma NoneMissing(d: set<char>, number: string -> int, category: string, files: Tree, bases: seq<string>, cs: seq<Candidate>)
    requires forall p | p in files && InDir(p, category) :: BaseOf(p) in bases
    requires ListsNames(d, number, category, cs, bases, files)
    ensures ListsCategory(d, number, category, cs, files)
  {
    hide DocName, IsTail, Tail, Sorted, GoodCandidate, IssueOf;
    forall p | p in files && InCategory(p, category)
      ensures exists c :: c in cs && PathIn(NameOf(c)) == p
    {
      CategoryPath(p, category);
      var c :| c in cs && NameOf(c) == Name(category, BaseOf(p));
    }
  }

  /** The candidates of the first `k` categories. */
  ghost predicate ListsUpTo(d: set<char>, number: string -> int, k: nat, cands: seq<Candidate>, files: Tree)
    requires k <= |CATEGORIES|
  {
    && Sorted(Names(cands))
    && (forall c | c in cands ::
          c.category in CATEGORIES[..k] && GoodCandidate(c) && DocName(c.basename) && PathIn(NameOf(c)) in files
          && c.issue == IssueOf(d, number, c.basename, files[PathIn(NameOf(c))]))
    && (forall p, i | p in files && 0 <= i < k && InCategory(p, CATEGORIES[i]) :: exists c :: c in cands && PathIn(NameOf(c)) == p)
  }

  lemma PlaceIs(i: nat)
    requires i < |CATEGORIES|
    ensures Place(CATEGORIES[i]) == i
  {
    assert "frames"[0] == 'f' && "analyses"[0] == 'a' && "specs"[0] == 's' && "goal"[0] == 'g' && "plans"[0] == 'p';
  }

  lemma NextCategory(d: set<char>, number: string -> int, k: nat, cands: seq<Candidate>, cs: seq<Candidate>, files: Tree)
    requires k < |CATEGORIES| && ListsUpTo(d, number, k, cands, files) && ListsCategory(d, number, CATEGORIES[k], cs, files)
    ensures ListsUpTo(d, number, k + 1, cands + cs, files)
  {
    hide Less, IssueOf, DocName, Ordinary, Tail, InCategory, Place;
    forall c, e | c in cands && e in cs
      ensures Before(NameOf(c), NameOf(e))
    {
      var i :| 0 <= i < k && CATEGORIES[i] == c.category;
      PlaceIs(i);
      PlaceIs(k);
    }
    SortedConcat(cands, cs);
    assert forall i | 0 <= i < k :: CATEGORIES[..k + 1][i] == CATEGORIES[..k][i];
    assert CATEGORIES[..k + 1] == CATEGORIES[..k] + [CATEGORIES[k]];
    forall p, i | p in files && 0 <= i < k + 1 && InCategory(p, CATEGORIES[i])
      ensures exists c :: c in cands + cs && PathIn(NameOf(c)) == p
    {
      if i < k {
        var c :| c in cands && PathIn(NameOf(c)) == p;
        assert c in cands + cs;
      } else {
        var c :| c in cs && PathIn(NameOf(c)) == p;
        assert c in cands + cs;
      }
    }
  }

  lemma SortedConcat(a: seq<Candidate>, b: seq<Candidate>)
    requires Sorted(Names(a)) && Sorted(Names(b)) && forall c, e | c in a && e in b :: Before(NameOf(c), NameOf(e))
    ensures Sorted(Names(a + b))
  {
    hide Before, NameOf;
    assert Names(a + b) == Names(a) + Names(b);
    forall i, j | 0 <= i < j < |Names(a) + Names(b)|
      ensures Before((Names(a) + Names(b))[i], (Names(a) + Names(b))[j])
    {
      if i < |a| <= j {
        assert a[i] in a && b[j - |a|] in b;
      }
    }
  }

  /** `iter_candidates`. */
  method IterCandidates(d: set<char>, number: string -> int, files: Tree) returns (out: seq<Candidate>)
    ensures Lists(d, number, out, files)
  {
    out := [];
    for k := 0 to |CATEGORIES|
      invariant ListsUpTo(d, number, k, out, files)
    {
      var cs := ListCategory(d, number, CATEGORIES[k], files);
      NextCategory(d, number, k, out, cs, files);
      out := out + cs;
    }
    ListsAll(d, number, out, files);
  }

  lemma ListsAll(d: set<char>, number: string -> int, cands: seq<Candidate>, files: Tree)
    requires ListsUpTo(d, number, |CATEGORIES|, cands, files)
    ensures Lists(d, number, cands, files)
  {
    hide IssueOf, Tail, Sorted, CATEGORIES, Ordinary, DocName;
    forall p | p in files && IsTail(p) && DocName(BaseOf(p))
      ensures exists c :: c in cands && PathIn(NameOf(c)) == p
    {
      var i :| 0 <= i < |CATEGORIES| && CATEGORIES[i] == Split(p, '/')[1];
      assert InCategory(p, CATEGORIES[i]);
    }
  }

  lemma BeforeAsymmetric(a: Name, b: Name)
    requires Before(a, b)
    ensures !Before(b, a) && a != b
  {
    LessTotal(a.basename, b.basename);
    hide Less;
  }

  lemma ListsIsListing(d: set<char>, number: string -> int, cands: seq<Candidate>, files: Tree)
    requires Lists(d, number, cands, files)
    ensures Listing(cands)
  {
    hide Before, IssueOf, DocName, GoodCandidate, PathIn, IsTail;
    forall i, j | 0 <= i < j < |cands|
      ensures cands[i].category != cands[j].category || cands[i].basename != cands[j].basename
    {
      BeforeAsymmetric(Names(cands)[i], Names(cands)[j]);
    }
  }

  /** The files a wave moves. */
  function Chosen(cands: seq<Candidate>, closed: set<int>): seq<Name> {
    if cands == [] then []
    else
      var n := |cands| - 1;
      Chosen(cands[..n], closed) + if Selected(cands[n], closed) then [NameOf(cands[n])] else []
  }

  function MoveOfName(n: Name, month: string): Move { Move(PathIn(n), NewTail(month, n.basename)) }

  lemma {:induction false} ChosenMoves(cands: seq<Candidate>, month: string, closed: set<int>)
    ensures |MovesOf(cands, month, closed)| == |Chosen(cands, closed)|
    ensures forall i | 0 <= i < |Chosen(cands, closed)| ::
              MovesOf(cands, month, closed)[i] == MoveOfName(Chosen(cands, closed)[i], month)
  {
    hide Tail, NewTail, Selected;
    if cands != [] {
      ChosenMoves(cands[..|cands| - 1], month, closed);
    }
  }

  lemma {:induction false} ChosenHas(cands: seq<Candidate>, closed: set<int>)
    ensures forall n :: n in Chosen(cands, closed) <==> exists c :: c in cands && Selected(c, closed) && NameOf(c) == n
  {
    hide Selected, NameOf;
    if cands != [] {
      var k := |cands| - 1;
      ChosenHas(cands[..k], closed);
      assert forall c :: c in cands <==> c in cands[..k] || c == cands[k] by {
        assert cands == cands[..k] + [cands[k]];
      }
    }
  }

  lemma {:induction false} ChosenSorted(cands: seq<Candidate>, closed: set<int>)
    requires Sorted(Names(cands))
    ensures Sorted(Chosen(cands, closed))
  {
    hide Selected, Before, NameOf;
    if cands != [] {
      var k := |cands| - 1;
      NamesTake(cands, k);
      ChosenSorted(cands[..k], closed);
      ChosenHas(cands[..k], closed);
      forall n | n in Chosen(cands[..k], closed)
        ensures Before(n, NameOf(cands[k]))
      {
        var c :| c in cands[..k] && Selected(c, closed) && NameOf(c) == n;
        var i :| 0 <= i < k && cands[i] == c;
        assert Names(cands)[i] == n && Names(cands)[k] == NameOf(cands[k]);
      }
    }
  }

  lemma NamesTake(cands: seq<Candidate>, k: nat)
    requires k <= |cands| && Sorted(Names(cands))
    ensures Sorted(Names(cands[..k]))
  {
    hide Before, NameOf;
    assert forall i | 0 <= i < k :: Names(cands[..k])[i] == Names(cands)[i];
  }

  /** Sorted lists of the same names are equal. */
  lemma {:induction false} SameOrder(a: seq<Name>, b: seq<Name>)
    requires Sorted(a) && Sorted(b) && forall n :: n in a <==> n in b
    ensures a == b
  {
    hide Before;
    assert (a == [] || a[0] in a) && (b == [] || b[0] in b);
    if a != [] && b != [] {
      HeadsAgree(a, b);
      forall n
        ensures n in a[1..] <==> n in b[1..]
      {
        NotAgain(a, n);
        NotAgain(b, n);
      }
      SameOrder(a[1..], b[1..]);
      assert a == [a[0]] + a[1..] && b == [b[0]] + b[1..];
    }
  }

  lemma HeadsAgree(a: seq<Name>, b: seq<Name>)
    requires Sorted(a) && Sorted(b) && a != [] && b != [] && a[0] in b && b[0] in a
    ensures a[0] == b[0]
  {
    hide Before;
    if a[0] != b[0] {
      BeforeAsymmetric(a[0], b[0]);
    }
  }

  lemma NotAgain(a: seq<Name>, n: Name)
    requires Sorted(a) && a != []
    ensures n in a[1..] <==> n in a && n != a[0]
  {
    hide Before;
    if n in a[1..] {
      BeforeAsymmetric(a[0], n);
    }
  }

  // ---------------------------------------------------------------------------------------------
  // Planning again
  // ---------------------------------------------------------------------------------------------

  /** The wave moves the file: a document of a swept category whose issue is closed. */
  predicate Picked(d: set<char>, number: string -> int, closed: set<int>, files: Tree, n: Name) {
    && n.category in CATEGORIES && Ordinary(n.basename) && DocName(n.basename) && PathIn(n) in files
    && ClosedIn(d, number, closed, n.basename, files[PathIn(n)])
  }

  predicate ClosedIn(d: set<char>, number: string -> int, closed: set<int>, base: string, text: string) {
    var i := IssueOf(d, number, base, text); i.Some? && i.value in closed
  }

  lemma SamePathSameName(a: Name, b: Name)
    requires a.category in CATEGORIES && Ordinary(a.basename) && b.category in CATEGORIES && Ordinary(b.basename)
    requires PathIn(a) == PathIn(b)
    ensures a == b
  {
    TailSegs(a.category, a.basename);
    TailSegs(b.category, b.basename);
  }

  /** What a wave moves, read off the tree. */
  lemma ChosenFrom(d: set<char>, number: string -> int, cands: seq<Candidate>, files: Tree, closed: set<int>, n: Name)
    requires Lists(d, number, cands, files)
    ensures n in Chosen(cands, closed) <==> Picked(d, number, closed, files, n)
  {
    ChosenHas(cands, closed);
    hide IssueOf, DocName, Ordinary, Tail, IsTail, CATEGORIES, Chosen, Sorted;
    if Picked(d, number, closed, files, n) {
      TailSegs(n.category, n.basename);
      var c :| c in cands && PathIn(NameOf(c)) == PathIn(n);
      SamePathSameName(NameOf(c), n);
    }
  }

  lemma InRest(cands: seq<Candidate>, month: string, closed: set<int>, k: nat, n: Name)
    requires Listing(cands) && k <= |Chosen(cands, closed)| && k <= |MovesOf(cands, month, closed)|
    ensures var done := MovesOf(cands, month, closed)[..k];
            n in Chosen(cands, closed)[k..] <==> n in Chosen(cands, closed) && forall m | m in done :: m.src != PathIn(n)
  {
    ChosenMoves(cands, month, closed);
    MovesDistinct(cands, month, closed);
    hide Chosen, MovesOf, Listing, PathIn;
    var ns, moves := Chosen(cands, closed), MovesOf(cands, month, closed);
    assert forall i | 0 <= i < k :: moves[..k][i] == moves[i] && moves[i] in moves[..k] && moves[i].src == PathIn(ns[i]);
    if n in ns[k..] {
      var j :| 0 <= j < |ns[k..]| && ns[k..][j] == n;
      assert ns[k + j] == n;
      forall m | m in moves[..k]
        ensures m.src != PathIn(n)
      {
        var i :| 0 <= i < k && moves[..k][i] == m;
        assert moves[i].src != moves[k + j].src;
      }
    }
    if n in ns && forall m | m in moves[..k] :: m.src != PathIn(n) {
      var j :| 0 <= j < |ns| && ns[j] == n;
      assert j >= k;
      assert n == ns[k..][j - k];
    }
  }

  /** The artifacts that are left: those that have not moved, and each is as closed as it was. */
  ghost predicate Left(d: set<char>, number: string -> int, closed: set<int>, before: Tree, after: Tree, done: seq<Move>) {
    && (forall p | IsTail(p) :: p in after <==> p in before && forall m | m in done :: m.src != p)
    && forall p | p in after && p in before && IsTail(p) && DocName(BaseOf(p)) ::
         ClosedIn(d, number, closed, BaseOf(p), after[p]) == ClosedIn(d, number, closed, BaseOf(p), before[p])
  }

  lemma PickedAgain(d: set<char>, number: string -> int, closed: set<int>, before: Tree, after: Tree, done: seq<Move>, n: Name)
    requires Left(d, number, closed, before, after, done)
    ensures Picked(d, number, closed, after, n)
            <==> Picked(d, number, closed, before, n) && forall m | m in done :: m.src != PathIn(n)
  {
    hide ClosedIn, DocName, Ordinary, Tail, IsTail, CATEGORIES;
    if n.category in CATEGORIES && Ordinary(n.basename) {
      TailSegs(n.category, n.basename);
    }
  }

  /** Listing the tree that is left and planning again yields the moves that are left, in order. */
  lemma MovesAgain(d: set<char>, number: string -> int, before: Tree, after: Tree, cands: seq<Candidate>,
                   cands2: seq<Candidate>, month: string, closed: set<int>, k: nat)
    requires Lists(d, number, cands, before) && Lists(d, number, cands2, after) && k <= |MovesOf(cands, month, closed)|
    requires Left(d, number, closed, before, after, MovesOf(cands, month, closed)[..k])
    ensures MovesOf(cands2, month, closed) == MovesOf(cands, month, closed)[k..]
  {
    hide Left, Picked, Chosen, MovesOf;
    var ns, ns2 := Chosen(cands, closed), Chosen(cands2, closed);
    ChosenMoves(cands, month, closed);
    ChosenMoves(cands2, month, closed);
    ChosenSorted(cands, closed);
    ChosenSorted(cands2, closed);
    ListsIsListing(d, number, cands, before);
    forall n
      ensures n in ns2 <==> n in ns[k..]
    {
      ChosenFrom(d, number, cands, before, closed, n);
      ChosenFrom(d, number, cands2, after, closed, n);
      PickedAgain(d, number, closed, before, after, MovesOf(cands, month, closed)[..k], n);
      InRest(cands, month, closed, k, n);
    }
    hide Lists, Before;
    SameOrder(ns2, ns[k..]);
  }

  /** No destination of a wave is a swept artifact. */
  lemma DestinationIsNoTail(month: string, table: map<string, string>, p: string)
    requires WaveMap(month, table) && p in table
    ensures !IsTail(table[p])
  {
    NewTailSegs(month, BaseOf(p));
  }

  lemma TailUntouched(tree: Tree, done: seq<Move>, month: string, table: map<string, string>, p: string)
    requires WaveMap(month, table) && IsTail(p) && Movable(tree, done)
    requires forall m | m in done :: m.src in table && table[m.src] == m.dst
    ensures p in MoveAll(tree, done) <==> p in tree && forall m | m in done :: m.src != p
    ensures p in MoveAll(tree, done) ==> MoveAll(tree, done)[p] == tree[p]
  {
    hide WaveMap, IsTail, MoveAll, Movable;
    forall m | m in done
      ensures m.dst != p
    {
      DestinationIsNoTail(month, table, m.src);
    }
    Untouched(tree, done, p);
  }

  lemma DoneInTable(moves: seq<Move>, k: nat)
    requires Distinct(moves) && k <= |moves|
    ensures forall m | m in moves[..k] :: m.src in Table(moves) && Table(moves)[m.src] == m.dst
  {
    TableHas(moves);
    hide Table, Distinct;
  }

  /** What a run that did not stop inside a write leaves. */
  lemma LeftAfter(d: set<char>, number: string -> int, closed: set<int>, cwd: seq<string>, before: Tree, after: Tree,
                  scan: seq<string>, month: string, moves: seq<Move>, at: Progress)
    requires DigitClass(d) && AllOrdinary(cwd) && Wave(month, before, scan, moves)
    requires Reached(cwd, before, after, scan, moves, at) && at.torn.None?
    ensures Left(d, number, closed, before, after, moves[..at.moved])
  {
    var table, done := Table(moves), moves[..at.moved];
    var tree := RewrittenTree(cwd, before, scan[..at.rewritten], table);
    hide Table, MoveAll, Movable, WaveMap, GoodPath, RewrittenTree, Distinct, IsTail, ClosedIn, DigitClass, AllOrdinary;
    DoneInTable(moves, at.moved);
    TreeKeys(cwd, before, scan[..at.rewritten], table);
    LeftByMoves(d, number, closed, cwd, before, scan, at.rewritten, month, table, done);
  }

  lemma LeftByMoves(d: set<char>, number: string -> int, closed: set<int>, cwd: seq<string>, before: Tree, scan: seq<string>,
                    r: nat, month: string, table: map<string, string>, done: seq<Move>)
    requires DigitClass(d) && AllOrdinary(cwd) && WaveMap(month, table) && r <= |scan|
    requires (forall f | f in scan :: f in before && GoodPath(f))
    requires forall m | m in done :: m.src in table && table[m.src] == m.dst
    requires Movable(RewrittenTree(cwd, before, scan[..r], table), done)
    ensures Left(d, number, closed, before, MoveAll(RewrittenTree(cwd, before, scan[..r], table), done), done)
  {
    var tree := RewrittenTree(cwd, before, scan[..r], table);
    hide *;
    TreeKeys(cwd, before, scan[..r], table);
    forall p | IsTail(p)
      ensures p in MoveAll(tree, done) <==> p in tree && forall m | m in done :: m.src != p
      ensures p in MoveAll(tree, done) ==> MoveAll(tree, done)[p] == tree[p]
    {
      TailUntouched(tree, done, month, table, p);
    }
    forall p | p in before && IsTail(p)
      ensures p in tree && ClosedIn(d, number, closed, BaseOf(p), tree[p]) == ClosedIn(d, number, closed, BaseOf(p), before[p])
    {
      ClosedSurvives(d, number, closed, cwd, before, scan, r, month, table, p);
    }
    LeftFrom(d, number, closed, before, tree, MoveAll(tree, done), done);
  }

  lemma LeftFrom(d: set<char>, number: string -> int, closed: set<int>, before: Tree, tree: Tree, after: Tree, done: seq<Move>)
    requires tree.Keys == before.Keys
    requires forall p | IsTail(p) :: p in after <==> p in tree && forall m | m in done :: m.src != p
    requires forall p | IsTail(p) && p in after && p in tree :: after[p] == tree[p]
    requires forall p | p in before && IsTail(p) && DocName(BaseOf(p)) ::
               p in tree && ClosedIn(d, number, closed, BaseOf(p), tree[p]) == ClosedIn(d, number, closed, BaseOf(p), before[p])
    ensures Left(d, number, closed, before, after, done)
  {
    hide ClosedIn, IsTail, DocName;
    assert forall p :: p in tree <==> p in tree.Keys;
    assert forall p :: p in before <==> p in before.Keys;
  }

  lemma ClosedSurvives(d: set<char>, number: string -> int, closed: set<int>, cwd: seq<string>, files: Tree,
                       scan: seq<string>, r: nat, month: string, table: map<string, string>, p: string)
    requires DigitClass(d) && AllOrdinary(cwd) && WaveMap(month, table) && r <= |scan|
    requires (forall f | f in scan :: f in files && GoodPath(f)) && p in files && IsTail(p)
    ensures var tree := RewrittenTree(cwd, files, scan[..r], table);
            && p in tree
            && ClosedIn(d, number, closed, BaseOf(p), tree[p]) == ClosedIn(d, number, closed, BaseOf(p), files[p])
  {
    hide WaveMap, GoodPath, IsTail, IssueOf, RewrittenFile, DigitClass;
    if p in scan[..r] {
      assert p in scan;
      IssueSurvives(d, number, cwd, p, BaseOf(p), files[p], month, table);
    }
  }

  /** What `scan_text_files` finds; whether it keeps a file depends on the path alone. */
  ghost predicate Scans(keep: string -> bool, scan: seq<string>, files: Tree) {
    forall p :: p in scan <==> p in files && keep(p)
  }

  lemma RescanFrom(keep: string -> bool, cwd: seq<string>, before: Tree, after: Tree, scan: seq<string>, scan2: seq<string>,
                   moves: seq<Move>, at: Progress)
    requires Scans(keep, scan, before) && Scans(keep, scan2, after) && (forall f | f in scan :: f in before)
    requires Reached(cwd, before, after, scan, moves, at) && at.torn.None?
    ensures Rescan(scan2, after, scan, moves[..at.moved])
  {
    var done := moves[..at.moved];
    var tree := RewrittenTree(cwd, before, scan[..at.rewritten], Table(moves));
    TreeKeys(cwd, before, scan[..at.rewritten], Table(moves));
    hide Table, MoveAll, Movable, RewrittenTree;
    forall p | p in scan2
      ensures p in after && (p in scan || exists m :: m in done && m.dst == p)
    {
      if forall m | m in done :: m.dst != p {
        Untouched(tree, done, p);
        assert p in tree.Keys;
      }
    }
  }

  /** Running a clean wave again. The tree that is left is listed, scanned and planned from the start, for the same month
      and census: the plan is clean, its moves are the ones not yet done, and carrying it out gives the tree the first
      run would have given. */
  lemma RunFromLeft(d: set<char>, number: string -> int, keep: string -> bool, cwd: seq<string>, before: Tree, after: Tree,
                    scan: seq<string>, scan2: seq<string>, cands: seq<Candidate>, cands2: seq<Candidate>, month: string,
                    closed: set<int>, at: Progress)
    requires DigitClass(d) && AllOrdinary(cwd) && GoodMonth(month)
    requires Lists(d, number, cands, before) && Lists(d, number, cands2, after)
    requires Scans(keep, scan, before) && Scans(keep, scan2, after) && forall c | c in cands :: keep(PathIn(NameOf(c)))
    requires (forall f | f in scan :: f in before && GoodPath(f)) && (forall f | f in scan2 :: f in after)
    requires AllClean(cwd, before, scan, Table(MovesOf(cands, month, closed)))
    requires Reached(cwd, before, after, scan, MovesOf(cands, month, closed), at) && at.torn.None?
    ensures var moves, rest := MovesOf(cands, month, closed), MovesOf(cands2, month, closed);
            var tree := RewrittenTree(cwd, before, scan, Table(moves));
            var tree2 := RewrittenTree(cwd, after, scan2, Table(rest));
            && rest == moves[at.moved..] && AllClean(cwd, after, scan2, Table(rest))
            && Movable(tree2, rest) && Movable(tree, moves) && MoveAll(tree2, rest) == MoveAll(tree, moves)
  {
    var moves := MovesOf(cands, month, closed);
    WaveFromListing(d, number, keep, before, scan, cands, month, closed);
    hide *;
    LeftAfter(d, number, closed, cwd, before, after, scan, month, moves, at);
    AtMost(cwd, before, after, scan, moves, at);
    MovesAgain(d, number, before, after, cands, cands2, month, closed, at.moved);
    RescanFrom(keep, cwd, before, after, scan, scan2, moves, at);
    RunAgain(cwd, before, after, scan, scan2, month, moves, at);
  }

  lemma AtMost(cwd: seq<string>, before: Tree, after: Tree, scan: seq<string>, moves: seq<Move>, at: Progress)
    requires (forall f | f in scan :: f in before) && Reached(cwd, before, after, scan, moves, at)
    ensures at.moved <= |moves|
  {
  }

  lemma WaveFromListing(d: set<char>, number: string -> int, keep: string -> bool, files: Tree, scan: seq<string>,
                        cands: seq<Candidate>, month: string, closed: set<int>)
    requires GoodMonth(month) && Lists(d, number, cands, files) && Scans(keep, scan, files)
    requires (forall f | f in scan :: f in files && GoodPath(f)) && forall c | c in cands :: keep(PathIn(NameOf(c)))
    ensures Wave(month, files, scan, MovesOf(cands, month, closed))
  {
    ListsIsListing(d, number, cands, files);
    hide Listing, GoodMonth, Movable, Distinct, WaveMap, Table, GoodPath, IssueOf, Sorted, MovesOf;
    MovesAreAWave(cands, month, closed, files);
    forall m | m in MovesOf(cands, month, closed)
      ensures m.src in scan
    {
      MovesFrom(cands, month, closed, m);
      var c :| c in cands && m == MoveOf(c, month);
    }
  }

  // ---------------------------------------------------------------------------------------------
  // A file torn inside a write
  // ---------------------------------------------------------------------------------------------

  /** The cut goes through no run of path characters. */
  predicate CleanCut(t: string, j: nat)
    requires j <= |t|
  {
    j == 0 || j == |t| || !IsPath(t[j - 1]) || !IsPath(t[j])
  }

  lemma TokensAlong(c: Cut, t: string)
    requires WellCut(c) && t == c.gap + c.run + c.tail && t != ""
    ensures Tokens(t) == RunTokens(c.run) + Tokens(c.tail)
  {
    CutUnique(c);
    hide RunTokens, WellCut, CutOf;
  }

  lemma TokensChar(t: string)
    requires t != "" && !IsPath(t[0])
    ensures Tokens(t) == Tokens(t[1..])
  {
    hide *;
    var c := CutOf(t[1..]);
    assert t == [t[0]] + t[1..];
    Prepend([t[0]], c.gap, c.run, c.tail);
    TokensGrown(t[0], c);
    if t[1..] == "" {
      assert c.gap == "" && c.run == "" && c.tail == "";
      NoRunTokens();
      NoTokens();
    } else {
      TokensAlong(c, t[1..]);
    }
  }

  lemma TokensGrown(x: char, c: Cut)
    requires !IsPath(x) && WellCut(c)
    ensures Tokens([x] + c.gap + c.run + c.tail) == RunTokens(c.run) + Tokens(c.tail)
  {
    var all := Cut([x] + c.gap, c.run, c.tail);
    assert WellCut(all);
    hide *;
    TokensAlong(all, [x] + c.gap + c.run + c.tail);
  }

  lemma NoRunTokens()
    ensures RunTokens("") == []
  {
    MatchAtLongest("", 0);
  }

  lemma TokensFirstRun(run: string, x: string)
    requires run != "" && AllPath(run) && Boundary(x)
    ensures Tokens(run + x) == RunTokens(run) + Tokens(x)
  {
    var c := Cut("", run, x);
    assert WellCut(c) && run + x == c.gap + c.run + c.tail;
    hide *;
    TokensAlong(c, run + x);
  }

  /** At a clean cut the tokens of a text are those of its parts. */
  lemma {:induction false} TokensSplit(x: string, y: string)
    requires CleanCut(x + y, |x|)
    ensures Tokens(x + y) == Tokens(x) + Tokens(y)
    decreases |x|
  {
    hide Tokens, IsPath, RunTokens;
    var t := x + y;
    if x == "" {
      assert t == y && Tokens(x) == [] by { NoTokens(); }
    } else if !IsPath(x[0]) {
      TokensChar(x);
      TokensChar(t);
      assert t[1..] == x[1..] + y;
      assert |x| > 1 ==> t[1..][|x| - 2] == t[|x| - 1];
      assert y != "" ==> t[1..][|x| - 1] == t[|x|];
      TokensSplit(x[1..], y);
    } else {
      var run, rest := FirstRun(x);
      assert t == run + (rest + y);
      RunEnds(run, rest, y);
      TokensFirstRun(run, rest);
      TokensFirstRun(run, rest + y);
      ShorterCut(run, rest, y);
      TokensSplit(rest, y);
      ConcatAssoc(RunTokens(run), Tokens(rest), Tokens(y));
    }
  }

  lemma NoTokens()
    ensures Tokens("") == []
  {
  }

  lemma RunEnds(run: string, rest: string, y: string)
    requires run != "" && AllPath(run) && Boundary(rest) && CleanCut(run + rest + y, |run + rest|)
    ensures Boundary(rest + y)
  {
    var t := run + rest + y;
    assert rest == "" ==> t[|run| - 1] == run[|run| - 1];
    assert rest == "" && y != "" ==> t[|run|] == y[0];
  }

  lemma ShorterCut(run: string, rest: string, y: string)
    requires CleanCut(run + rest + y, |run + rest|)
    ensures CleanCut(rest + y, |rest|)
  {
    var t, u := run + rest + y, rest + y;
    hide IsPath;
    assert t == run + u;
    assert rest != "" ==> u[|rest| - 1] == t[|run + rest| - 1];
    assert y != "" ==> u[|rest|] == t[|run + rest|];
  }

  /** A prefix of a rewritten text, cut cleanly: rewriting it changes nothing, and it holds no stale link the whole text
      does not hold. */
  lemma TornFile(cwd: seq<string>, p: string, text: string, j: nat, month: string, table: map<string, string>)
    requires AllOrdinary(cwd) && GoodPath(p) && WaveMap(month, table)
    requires j <= |RewrittenFile(cwd, p, text, table)| && CleanCut(RewrittenFile(cwd, p, text, table), j)
    ensures var part := RewrittenFile(cwd, p, text, table)[..j];
            && RewrittenFile(cwd, p, part, table) == part
            && (StaleLinks(cwd, p, text, table) == [] ==> StaleLinks(cwd, p, part, table) == [])
  {
    var out := RewrittenFile(cwd, p, text, table);
    var part := out[..j];
    hide GoodPath, WaveMap, ArchiveDir, Rewritten, Pointing, Tokens, IsPath, RewrittenFile, ParentDir;
    assert out == part + out[j..];
    TokensSplit(part, out[j..]);
    assert forall q | q in Tokens(part) :: q in Tokens(out);
    PartFixed(cwd, p, text, part, month, table);
    var final := ParentDir(FinalPath(p, table));
    PointingNone(Tokens(out), final, table.Keys);
    PointingNone(Tokens(part), final, table.Keys);
  }

  lemma PartFixed(cwd: seq<string>, p: string, text: string, part: string, month: string, table: map<string, string>)
    requires AllOrdinary(cwd) && GoodPath(p) && WaveMap(month, table)
    requires forall q | q in Tokens(part) :: q in Tokens(RewrittenFile(cwd, p, text, table))
    ensures RewrittenFile(cwd, p, part, table) == part
  {
    hide GoodPath, WaveMap, ArchiveDir, Rewritten, Pointing, Tokens, ParentDir;
    ParentGood(p);
    if p in table {
      MovesToArchive(month, table, p);
      PartAgain(cwd, text, part, ParentDir(p), month, table, table);
    } else {
      UnmovedFileIsClean(cwd, text, ParentDir(p), month, table);
      PointingNone(Tokens(RewrittenFile(cwd, p, text, table)), ParentDir(p), table.Keys);
      PointingNone(Tokens(part), ParentDir(p), table.Keys);
      CleanIsFixed(cwd, part, ParentDir(p), ParentDir(p), table);
    }
  }

  /** The tree a run leaves that stopped inside a write. */
  lemma TornState(cwd: seq<string>, before: Tree, after: Tree, scan: seq<string>, moves: seq<Move>, at: Progress)
    requires (forall f | f in scan :: f in before) && Reached(cwd, before, after, scan, moves, at) && at.torn.Some?
    ensures var f := at.torn.value;
            && at.rewritten <= |scan| && f in scan && f in before && f in after && after.Keys == before.Keys
            && after == RewrittenTree(cwd, before, scan[..at.rewritten], Table(moves))[f := after[f]]
            && StartsWith(RewrittenFile(cwd, f, before[f], Table(moves)), after[f])
  {
    TreeKeys(cwd, before, scan[..at.rewritten], Table(moves));
    hide RewrittenTree, RewrittenFile, Table, StartsWith;
  }

  /** The second run over a tree with a torn file, when it makes the same moves. */
  lemma TornTree(cwd: seq<string>, before: Tree, after: Tree, scan: seq<string>, month: string, moves: seq<Move>, at: Progress)
    requires AllOrdinary(cwd) && Wave(month, before, scan, moves) && Reached(cwd, before, after, scan, moves, at) && at.torn.Some?
    ensures var f, table := at.torn.value, Table(moves);
            && f in scan && f in before && f in after && after.Keys == before.Keys
            && RewrittenTree(cwd, after, scan, table)
               == RewrittenTree(cwd, before, scan, table)[f := RewrittenFile(cwd, f, after[f], table)]
  {
    var f, table, r := at.torn.value, Table(moves), at.rewritten;
    WaveParts(month, before, scan, moves);
    hide *;
    TornState(cwd, before, after, scan, moves, at);
    TreeKeys(cwd, before, scan[..r], table);
    TreeAgain(cwd, before, scan, r, month, table);
    UpdatedTree(cwd, RewrittenTree(cwd, before, scan[..r], table), after, f, scan, table);
  }

  lemma WaveParts(month: string, files: Tree, scan: seq<string>, moves: seq<Move>)
    requires Wave(month, files, scan, moves)
    ensures (forall f | f in scan :: f in files && GoodPath(f)) && WaveMap(month, Table(moves))
  {
  }

  lemma UpdatedTree(cwd: seq<string>, tree: Tree, after: Tree, f: string, scan: seq<string>, table: map<string, string>)
    requires f in scan && f in tree && f in after && after == tree[f := after[f]]
    ensures RewrittenTree(cwd, after, scan, table) == RewrittenTree(cwd, tree, scan, table)[f := RewrittenFile(cwd, f, after[f], table)]
  {
    hide RewrittenFile;
  }

  /** A torn file leaves the artifacts in place; only its own issue may read differently. */
  lemma LeftTorn(d: set<char>, number: string -> int, closed: set<int>, cwd: seq<string>, before: Tree, after: Tree,
                 scan: seq<string>, month: string, moves: seq<Move>, at: Progress)
    requires DigitClass(d) && AllOrdinary(cwd) && Wave(month, before, scan, moves)
    requires Reached(cwd, before, after, scan, moves, at) && at.torn.Some? && at.torn.value in before && at.torn.value in after
    requires var f := at.torn.value;
             IsTail(f) && DocName(BaseOf(f)) ==> ClosedIn(d, number, closed, BaseOf(f), after[f]) == ClosedIn(d, number, closed, BaseOf(f), before[f])
    ensures Left(d, number, closed, before, after, [])
  {
    var f, table, r := at.torn.value, Table(moves), at.rewritten;
    TornState(cwd, before, after, scan, moves, at);
    hide WaveMap, GoodPath, Movable, Distinct, Table, Torn, RewrittenTree, ClosedIn, IsTail, DigitClass, DocName;
    forall p | p in before && IsTail(p) && DocName(BaseOf(p))
      ensures p in after && ClosedIn(d, number, closed, BaseOf(p), after[p]) == ClosedIn(d, number, closed, BaseOf(p), before[p])
    {
      ClosedSurvives(d, number, closed, cwd, before, scan, r, month, table, p);
    }
    LeftFrom(d, number, closed, before, after, after, []);
  }

  /** Running again after a stop inside a write, on the same census. The moves are planned as before exactly when the
      torn text gives the file's issue as closed as the whole text did, or the file is no artifact; and then every other
      file ends up as if the first run had finished, while the torn file keeps its torn text, rewritten once more: with
      a clean cut, as it is. What was cut off does not come back. */
  lemma RunFromTorn(d: set<char>, number: string -> int, keep: string -> bool, cwd: seq<string>, before: Tree, after: Tree,
                    scan: seq<string>, scan2: seq<string>, cands: seq<Candidate>, cands2: seq<Candidate>, month: string,
                    closed: set<int>, at: Progress)
    requires DigitClass(d) && AllOrdinary(cwd) && GoodMonth(month)
    requires Lists(d, number, cands, before) && Lists(d, number, cands2, after)
    requires Scans(keep, scan, before) && Scans(keep, scan2, after) && forall c | c in cands :: keep(PathIn(NameOf(c)))
    requires (forall f | f in scan :: f in before && GoodPath(f)) && (forall f | f in scan2 :: f in after)
    requires Reached(cwd, before, after, scan, MovesOf(cands, month, closed), at) && at.torn.Some?
    ensures var f, moves := at.torn.value, MovesOf(cands, month, closed);
            var table := Table(moves);
            && f in before && f in after && f in scan
            && (MovesOf(cands2, month, closed) == moves
                <==> (IsTail(f) && DocName(BaseOf(f)) ==>
                        ClosedIn(d, number, closed, BaseOf(f), after[f]) == ClosedIn(d, number, closed, BaseOf(f), before[f])))
            && RewrittenTree(cwd, after, scan2, table)
               == RewrittenTree(cwd, before, scan, table)[f := RewrittenFile(cwd, f, after[f], table)]
            && (CutCleanly(RewrittenFile(cwd, f, before[f], table), after[f]) ==>
                  RewrittenFile(cwd, f, after[f], table) == after[f])
  {
    var f, moves := at.torn.value, MovesOf(cands, month, closed);
    WaveFromListing(d, number, keep, before, scan, cands, month, closed);
    WaveParts(month, before, scan, moves);
    hide *;
    TornTree(cwd, before, after, scan, month, moves, at);
    if CutCleanly(RewrittenFile(cwd, f, before[f], Table(moves)), after[f]) {
      TornKept(cwd, f, before[f], after[f], month, Table(moves));
    }
    ScansSame(keep, scan, scan2, before, after);
    SameTree(cwd, after, scan, scan2, Table(moves));
    TornMoves(d, number, cwd, before, after, scan, cands, cands2, month, closed, at);
  }

  /** The torn text is a prefix, and the cut is clean. */
  predicate CutCleanly(whole: string, part: string) { StartsWith(whole, part) && CleanCut(whole, |part|) }

  lemma TornKept(cwd: seq<string>, p: string, text: string, part: string, month: string, table: map<string, string>)
    requires AllOrdinary(cwd) && GoodPath(p) && WaveMap(month, table) && CutCleanly(RewrittenFile(cwd, p, text, table), part)
    ensures RewrittenFile(cwd, p, part, table) == part
  {
    hide GoodPath, WaveMap, RewrittenFile, CleanCut, StaleLinks;
    TornFile(cwd, p, text, |part|, month, table);
  }

  lemma ScansSame(keep: string -> bool, scan: seq<string>, scan2: seq<string>, before: Tree, after: Tree)
    requires Scans(keep, scan, before) && Scans(keep, scan2, after) && after.Keys == before.Keys
    ensures forall p :: p in scan2 <==> p in scan
  {
    assert forall p :: p in before <==> p in before.Keys;
    assert forall p :: p in after <==> p in after.Keys;
  }

  lemma TornMoves(d: set<char>, number: string -> int, cwd: seq<string>, before: Tree, after: Tree, scan: seq<string>,
                  cands: seq<Candidate>, cands2: seq<Candidate>, month: string, closed: set<int>, at: Progress)
    requires DigitClass(d) && AllOrdinary(cwd) && Lists(d, number, cands, before) && Lists(d, number, cands2, after)
    requires Wave(month, before, scan, MovesOf(cands, month, closed))
    requires Reached(cwd, before, after, scan, MovesOf(cands, month, closed), at) && at.torn.Some?
    requires at.torn.value in before && at.torn.value in after
    ensures var f := at.torn.value;
            MovesOf(cands2, month, closed) == MovesOf(cands, month, closed)
            <==> (IsTail(f) && DocName(BaseOf(f)) ==>
                    ClosedIn(d, number, closed, BaseOf(f), after[f]) == ClosedIn(d, number, closed, BaseOf(f), before[f]))
  {
    hide *;
    var f, moves := at.torn.value, MovesOf(cands, month, closed);
    if IsTail(f) && DocName(BaseOf(f)) ==>
         ClosedIn(d, number, closed, BaseOf(f), after[f]) == ClosedIn(d, number, closed, BaseOf(f), before[f])
    {
      LeftTorn(d, number, closed, cwd, before, after, scan, month, moves, at);
      assert moves[..0] == [] && moves[0..] == moves;
      MovesAgain(d, number, before, after, cands, cands2, month, closed, 0);
    } else {
      OtherMoves(d, number, before, after, cands, cands2, month, closed, f);
    }
  }

  /** A file whose selection differs makes the moves differ. */
  lemma OtherMoves(d: set<char>, number: string -> int, before: Tree, after: Tree, cands: seq<Candidate>,
                   cands2: seq<Candidate>, month: string, closed: set<int>, f: string)
    requires Lists(d, number, cands, before) && Lists(d, number, cands2, after)
    requires f in before && f in after && IsTail(f) && DocName(BaseOf(f))
    requires ClosedIn(d, number, closed, BaseOf(f), after[f]) != ClosedIn(d, number, closed, BaseOf(f), before[f])
    ensures MovesOf(cands2, month, closed) != MovesOf(cands, month, closed)
  {
    hide ClosedIn, DocName, Lists, Chosen, MovesOf, Tail, CATEGORIES, Ordinary;
    var n := Name(Split(f, '/')[1], BaseOf(f));
    CategoryPath(f, n.category);
    ChosenFrom(d, number, cands, before, closed, n);
    ChosenFrom(d, number, cands2, after, closed, n);
    if MovesOf(cands2, month, closed) == MovesOf(cands, month, closed) {
      if n in Chosen(cands, closed) {
        MovesTellChosen(d, number, after, cands, cands2, month, closed, n);
      } else {
        MovesTellChosen(d, number, before, cands2, cands, month, closed, n);
      }
    }
  }

  lemma MovesTellChosen(d: set<char>, number: string -> int, files: Tree, cands: seq<Candidate>, cands2: seq<Candidate>,
                        month: string, closed: set<int>, n: Name)
    requires Lists(d, number, cands2, files) && MovesOf(cands, month, closed) == MovesOf(cands2, month, closed)
    requires n in Chosen(cands, closed) && n.category in CATEGORIES && Ordinary(n.basename)
    ensures n in Chosen(cands2, closed)
  {
    ChosenMoves(cands, month, closed);
    ChosenMoves(cands2, month, closed);
    hide Lists, Chosen, MovesOf, Tail, NewTail, CATEGORIES, Ordinary, DocName, ClosedIn;
    var i :| 0 <= i < |Chosen(cands, closed)| && Chosen(cands, closed)[i] == n;
    var n2 := Chosen(cands2, closed)[i];
    ChosenFrom(d, number, cands2, files, closed, n2);
    SamePathSameName(n2, n);
  }
}

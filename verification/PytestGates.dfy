/** The CI partitions of the test suite, and the two gates over them. */
module PytestGates {
  import opened Text

  datatype Test = Test(id: string, path: string, markers: set<string>)

  // ---------------------------------------------------------------------------------------------
  // Partitions
  // ---------------------------------------------------------------------------------------------

  datatype Expr = Has(marker: string) | Not(e: Expr) | And(l: Expr, r: Expr) | Or(l: Expr, r: Expr) | Any

  predicate Holds(e: Expr, markers: set<string>) {
    match e
    case Has(m) => m in markers
    case Not(x) => !Holds(x, markers)
    case And(l, r) => Holds(l, markers) && Holds(r, markers)
    case Or(l, r) => Holds(l, markers) || Holds(r, markers)
    case Any => true
  }

  const LIVE_ACL := "live_acl"
  const SUBPROCESS_NATS := "subprocess_nats"
  const DEPLOY_CONTRACT := "deploy_contract"
  const NK_TOOLING := "nk_tooling"
  const NATS_INTEGRATION := "nats_integration"

  const FACTORY_UNIT_MARKERS :=
    And(And(And(And(Not(Has(LIVE_ACL)), Not(Has(SUBPROCESS_NATS))), Not(Has(DEPLOY_CONTRACT))), Not(Has(NK_TOOLING))),
        Not(Has(NATS_INTEGRATION)))

  const FACTORY_INFRA_MARKERS :=
    Or(Or(Or(Has(LIVE_ACL), Has(SUBPROCESS_NATS)), Has(DEPLOY_CONTRACT)), Has(NK_TOOLING))

  datatype Partition = Partition(name: string, paths: seq<string>, ignores: seq<string>, markers: Expr)

  const FACTORY_UNIT := Partition("factory_unit", ["tests/"], ["tests/e2e"], FACTORY_UNIT_MARKERS)
  const FACTORY_INFRA := Partition("factory_infra", ["tests/"], ["tests/integration", "tests/e2e"], FACTORY_INFRA_MARKERS)
  const FACTORY_INTEGRATION := Partition("factory_integration", ["tests/nats/integration/"], [], Has(NATS_INTEGRATION))
  const FACTORY_TOTAL := Partition("factory_total", ["tests/"], ["tests/e2e"], Any)

  const NATS_TESTS := "packages/roxabi-nats/tests"
  const NATS_TOTAL := Partition("roxabi_nats_total", [NATS_TESTS], [], Any)
  const NATS_COVERAGE := Partition("roxabi_nats_coverage", [NATS_TESTS], [], Not(Has(SUBPROCESS_NATS)))
  const NATS_SUBPROCESS := Partition("roxabi_nats_subprocess", [NATS_TESTS], [], Has(SUBPROCESS_NATS))

  /** A file below a directory given with or without a closing slash. */
  predicate Below(path: string, dir: string) { StartsWith(path, if EndsWith(dir, "/") then dir else dir + "/") }

  /** Whether an invocation with these arguments collects the test. */
  predicate Selects(p: Partition, t: Test) {
    && (exists d | d in p.paths :: Below(t.path, d)) && (forall d | d in p.ignores :: !Below(t.path, d))
    && Holds(p.markers, t.markers)
  }

  function Collected(p: Partition, tests: set<Test>): set<Test> { set t | t in tests && Selects(p, t) }

  // ---------------------------------------------------------------------------------------------
  // The directory gate
  // ---------------------------------------------------------------------------------------------

  const MARKERS: seq<string> := [NATS_INTEGRATION, SUBPROCESS_NATS, DEPLOY_CONTRACT, NK_TOOLING, LIVE_ACL]

  function Allowed(marker: string): seq<string> {
    if marker == NATS_INTEGRATION then ["tests/nats/integration/"]
    else if marker == SUBPROCESS_NATS then ["packages/roxabi-nats/tests/", "tests/nats/", "tests/bootstrap/", "tests/typing/"]
    else if marker == DEPLOY_CONTRACT then ["tests/deploy/"]
    else ["tests/scripts/"]
  }

  function Denied(marker: string): seq<string> { if marker == SUBPROCESS_NATS then ["tests/nats/integration/"] else [] }

  predicate StartsWithAny(path: string, prefixes: seq<string>) { exists p | p in prefixes :: StartsWith(path, p) }

  predicate Misplaced(path: string, prefixes: seq<string>, denied: seq<string>) {
    StartsWithAny(path, denied) || !StartsWithAny(path, prefixes)
  }

  /** One error of the gate: the marker, the file, and which of the two rules it breaks. */
  datatype LayoutError = UnderDenied(marker: string, path: string) | NotAllowed(marker: string, path: string)

  /** The errors reported for one marker, in order; a denied prefix takes precedence. */
  function Offending(marker: string, paths: seq<string>, prefixes: seq<string>, denied: seq<string>): seq<LayoutError> {
    if paths == [] then []
    else
      var n := |paths| - 1;
      Offending(marker, paths[..n], prefixes, denied)
      + if StartsWithAny(paths[n], denied) then [UnderDenied(marker, paths[n])]
        else if !StartsWithAny(paths[n], prefixes) then [NotAllowed(marker, paths[n])]
        else []
  }

  /** `_check_allowlist`. */
  method CheckAllowlist(marker: string, paths: seq<string>, prefixes: seq<string>, denied: seq<string>)
    returns (errors: seq<LayoutError>)
    ensures errors == Offending(marker, paths, prefixes, denied)
    ensures forall e | e in errors :: e.marker == marker && e.path in paths && Misplaced(e.path, prefixes, denied)
    ensures forall p | p in paths && Misplaced(p, prefixes, denied) ::
              (if StartsWithAny(p, denied) then UnderDenied(marker, p) else NotAllowed(marker, p)) in errors
  {
    hide StartsWithAny;
    errors := [];
    for k := 0 to |paths|
      invariant errors == Offending(marker, paths[..k], prefixes, denied)
    {
      assert paths[..k + 1][..k] == paths[..k];
      if StartsWithAny(paths[k], denied) {
        errors := errors + [UnderDenied(marker, paths[k])];
        continue;
      }
      if !StartsWithAny(paths[k], prefixes) {
        errors := errors + [NotAllowed(marker, paths[k])];
      }
    }
    assert paths[..|paths|] == paths;
    OffendingHas(marker, paths, prefixes, denied);
  }

  lemma {:induction false} OffendingHas(marker: string, paths: seq<string>, prefixes: seq<string>, denied: seq<string>)
    ensures forall e | e in Offending(marker, paths, prefixes, denied) ::
              e.marker == marker && e.path in paths && Misplaced(e.path, prefixes, denied)
    ensures forall p | p in paths && Misplaced(p, prefixes, denied) ::
              (if StartsWithAny(p, denied) then UnderDenied(marker, p) else NotAllowed(marker, p))
              in Offending(marker, paths, prefixes, denied)
  {
    hide StartsWithAny;
    if paths != [] {
      var n := |paths| - 1;
      OffendingHas(marker, paths[..n], prefixes, denied);
      assert paths == paths[..n] + [paths[n]];
    }
  }

  /** Where a test with this marker may lie, marker by marker. */
  predicate WellPlaced(path: string, m: string) {
    && (m == "nats_integration" ==> StartsWith(path, "tests/nats/integration/"))
    && (m == "subprocess_nats" ==>
          && !StartsWith(path, "tests/nats/integration/")
          && (|| StartsWith(path, "packages/roxabi-nats/tests/") || StartsWith(path, "tests/nats/")
              || StartsWith(path, "tests/bootstrap/") || StartsWith(path, "tests/typing/")))
    && (m == "deploy_contract" ==> StartsWith(path, "tests/deploy/"))
    && (m == "nk_tooling" || m == "live_acl" ==> StartsWith(path, "tests/scripts/"))
  }

  lemma NoneOf(path: string)
    ensures !StartsWithAny(path, [])
  {
  }

  lemma OneOf(path: string, a: string)
    ensures StartsWithAny(path, [a]) <==> StartsWith(path, a)
  {
    assert a in [a];
  }

  lemma OneOfFour(path: string, a: string, b: string, c: string, d: string)
    ensures StartsWithAny(path, [a, b, c, d])
            <==> StartsWith(path, a) || StartsWith(path, b) || StartsWith(path, c) || StartsWith(path, d)
  {
    hide StartsWith;
    var ps := [a, b, c, d];
    assert a in ps && b in ps && c in ps && d in ps;
  }

  lemma MarkerNamesDiffer()
    ensures LIVE_ACL != SUBPROCESS_NATS && LIVE_ACL != DEPLOY_CONTRACT && LIVE_ACL != NATS_INTEGRATION
    ensures NK_TOOLING != SUBPROCESS_NATS && NK_TOOLING != DEPLOY_CONTRACT && NK_TOOLING != NATS_INTEGRATION
    ensures SUBPROCESS_NATS != NATS_INTEGRATION && DEPLOY_CONTRACT != NATS_INTEGRATION && DEPLOY_CONTRACT != SUBPROCESS_NATS
  {
    assert LIVE_ACL[0] == 'l' && SUBPROCESS_NATS[0] == 's' && DEPLOY_CONTRACT[0] == 'd';
    assert NK_TOOLING[1] == 'k' && NATS_INTEGRATION[0] == 'n' && NATS_INTEGRATION[1] == 'a' && NK_TOOLING[0] == 'n';
  }

  lemma PlacedMeaning(path: string, m: string)
    requires m in MARKERS
    ensures WellPlaced(path, m) <==> !Misplaced(path, Allowed(m), Denied(m))
  {
    MarkerNamesDiffer();
    OneOf(path, "tests/nats/integration/");
    OneOf(path, "tests/deploy/");
    OneOf(path, "tests/scripts/");
    OneOfFour(path, "packages/roxabi-nats/tests/", "tests/nats/", "tests/bootstrap/", "tests/typing/");
    NoneOf(path);
    hide StartsWithAny, StartsWith;
  }

  /** Every test with the marker lies where the marker allows. */
  predicate MarkerOk(tests: set<Test>, m: string) { forall t | t in tests && m in t.markers :: WellPlaced(t.path, m) }

  /** Every marked test lies where its markers allow. */
  predicate LayoutOk(tests: set<Test>) { forall m | m in MARKERS :: MarkerOk(tests, m) }

  /** One turn of the verdict loop. */
  method CheckMarker(tests: set<Test>, m: string) returns (errors: seq<LayoutError>)
    requires m in MARKERS
    ensures errors == [] <==> MarkerOk(tests, m)
  {
    hide Misplaced, Allowed, Denied, WellPlaced, MARKERS;
    var marked := set t | t in tests && m in t.markers :: t.path;
    assert forall t | t in tests && m in t.markers :: t.path in marked;
    forall t | t in tests
      ensures WellPlaced(t.path, m) <==> !Misplaced(t.path, Allowed(m), Denied(m))
    {
      PlacedMeaning(t.path, m);
    }
    var paths := SortedList(marked);
    errors := CheckAllowlist(m, paths, Allowed(m), Denied(m));
    if errors != [] {
      assert errors[0] in errors;
    }
  }

  /** The verdict loop of the directory gate. `None` is a collection that failed. */
  method DirMarkerGate(collected: Option<set<Test>>) returns (exit: int)
    ensures exit == if collected.None? then 2 else if LayoutOk(collected.value) then 0 else 1
  {
    hide MarkerOk, MARKERS;
    if collected.None? {
      return 2;
    }
    var errors: seq<LayoutError> := [];
    for k := 0 to |MARKERS|
      invariant errors == [] <==> forall m | m in MARKERS[..k] :: MarkerOk(collected.value, m)
    {
      assert MARKERS[..k + 1] == MARKERS[..k] + [MARKERS[k]];
      var more := CheckMarker(collected.value, MARKERS[k]);
      errors := errors + more;
    }
    assert MARKERS[..|MARKERS|] == MARKERS;
    exit := if errors == [] then 0 else 1;
  }

  // ---------------------------------------------------------------------------------------------
  // The partition gate
  // ---------------------------------------------------------------------------------------------

  function Union<T>(parts: seq<set<T>>): set<T> { if parts == [] then {} else Union(parts[..|parts| - 1]) + parts[|parts| - 1] }

  predicate Pairwise<T>(parts: seq<set<T>>) { forall i, j | 0 <= i < j < |parts| :: parts[i] !! parts[j] }

  method CheckDisjoint<T(==)>(a: set<T>, b: set<T>) returns (ok: bool)
    ensures ok <==> a !! b
  {
    var overlap := a * b;
    ok := overlap == {};
    assert overlap == {} ==> forall x | x in a :: x !in b || x in overlap;
  }

  /** `_check_cover`. */
  method CheckCover<T(==)>(total: set<T>, parts: seq<set<T>>) returns (ok: bool)
    ensures ok <==> Union(parts) == total
  {
    var union: set<T> := {};
    for k := 0 to |parts|
      invariant union == Union(parts[..k])
    {
      assert parts[..k + 1][..k] == parts[..k];
      union := union + parts[k];
    }
    assert parts[..|parts|] == parts;
    var missing := total - union;
    var extra := union - total;
    ok := true;
    if missing != {} {
      ok := false;
    }
    if extra != {} {
      ok := false;
    }
    if ok {
      assert forall x | x in total :: x !in missing;
      assert forall x | x in union :: x !in extra;
    }
  }

  predicate RowDisjoint<T>(parts: seq<set<T>>, i: nat, n: nat)
    requires n <= |parts| && i < |parts|
  {
    forall j | i < j < n :: parts[i] !! parts[j]
  }

  /** `_validate_group`, after collection; `None` when a collection failed. */
  method ValidateGroup<T(==)>(total: Option<set<T>>, parts: seq<Option<set<T>>>) returns (ok: Option<bool>, counts: seq<nat>)
    ensures ok.None? <==> total.None? || exists p | p in parts :: p.None?
    ensures ok.Some? ==> (ok.value <==> Pairwise(Sets(parts)) && Union(Sets(parts)) == total.value)
    ensures ok.Some? ==> |counts| == |parts| + 1 && counts[0] == |total.value|
    ensures ok.Some? ==> forall k | 0 <= k < |parts| :: counts[k + 1] == |Sets(parts)[k]|
    ensures ok == Some(true) ==> Total(Sets(parts)) == counts[0]
  {
    counts := [];
    if total.None? || exists p | p in parts :: p.None? {
      return None, counts;
    }
    var ids := Sets(parts);
    var good := true;
    for i := 0 to |ids|
      invariant good <==> forall k | 0 <= k < i :: RowDisjoint(ids, k, |ids|)
    {
      ghost var before := good;
      for j := i + 1 to |ids|
        invariant good <==> before && RowDisjoint(ids, i, j)
      {
        var d := CheckDisjoint(ids[i], ids[j]);
        good := d && good;
      }
    }
    assert good <==> Pairwise(ids) by { RowsArePairs(ids); }
    var c := CheckCover(total.value, ids);
    good := c && good;
    counts := [|total.value|];
    for k := 0 to |ids|
      invariant |counts| == k + 1 && counts[0] == |total.value| && forall j | 0 <= j < k :: counts[j + 1] == |ids[j]|
    {
      counts := counts + [|ids[k]|];
    }
    ok := Some(good);
    if good {
      CountsAddUp(ids);
    }
  }

  lemma RowsArePairs<T>(ids: seq<set<T>>)
    ensures (forall k | 0 <= k < |ids| :: RowDisjoint(ids, k, |ids|)) <==> Pairwise(ids)
  {
    if forall k | 0 <= k < |ids| :: RowDisjoint(ids, k, |ids|) {
      forall i, j | 0 <= i < j < |ids|
        ensures ids[i] !! ids[j]
      {
        assert RowDisjoint(ids, i, |ids|);
      }
    }
  }

  /** What the collections returned, when none of them failed. */
  function Sets<T>(parts: seq<Option<set<T>>>): seq<set<T>> {
    seq(|parts|, i requires 0 <= i < |parts| => if parts[i].Some? then parts[i].value else {})
  }

  function Total<T>(parts: seq<set<T>>): nat { if parts == [] then 0 else Total(parts[..|parts| - 1]) + |parts[|parts| - 1]| }

  lemma {:induction false} UnionHas<T>(parts: seq<set<T>>)
    ensures forall x :: x in Union(parts) <==> exists i :: 0 <= i < |parts| && x in parts[i]
  {
    if parts != [] {
      var n := |parts| - 1;
      UnionHas(parts[..n]);
      forall x
        ensures x in Union(parts) <==> exists i :: 0 <= i < |parts| && x in parts[i]
      {
        if x in Union(parts[..n]) {
          var i :| 0 <= i < |parts[..n]| && x in parts[..n][i];
          assert x in parts[i];
        }
        if i :| 0 <= i < |parts| && x in parts[i] {
          assert i < n ==> x in parts[..n][i];
        }
      }
    }
  }

  /** Disjoint parts that cover the total add up to it. */
  lemma {:induction false} CountsAddUp<T>(parts: seq<set<T>>)
    requires Pairwise(parts)
    ensures Total(parts) == |Union(parts)|
  {
    if parts != [] {
      var n := |parts| - 1;
      CountsAddUp(parts[..n]);
      UnionHas(parts[..n]);
      assert Union(parts[..n]) !! parts[n];
    }
  }

  const FACTORY_PARTS: seq<Partition> := [FACTORY_UNIT, FACTORY_INFRA, FACTORY_INTEGRATION]
  const NATS_PARTS: seq<Partition> := [NATS_COVERAGE, NATS_SUBPROCESS]

  /** A collection fails for a reason of its own, or because it selects nothing: pytest then exits with 5. */
  predicate Collects(p: Partition, tests: set<Test>, failing: set<string>) {
    p.name !in failing && Collected(p, tests) != {}
  }

  /** `_collect_ids`. */
  function CollectIds(p: Partition, tests: set<Test>, failing: set<string>): Option<set<Test>> {
    if Collects(p, tests, failing) then Some(Collected(p, tests)) else None
  }

  function Parts(parts: seq<Partition>, tests: set<Test>): seq<set<Test>> {
    seq(|parts|, i requires 0 <= i < |parts| => Collected(parts[i], tests))
  }

  predicate GroupCollects(total: Partition, parts: seq<Partition>, tests: set<Test>, failing: set<string>) {
    Collects(total, tests, failing) && forall p | p in parts :: Collects(p, tests, failing)
  }

  /** Every test of the total lies in exactly one part, and no other test in any. */
  predicate Splits(total: Partition, parts: seq<Partition>, tests: set<Test>) {
    Pairwise(Parts(parts, tests)) && Union(Parts(parts, tests)) == Collected(total, tests)
  }

  /** One turn of the gate's loop over the groups. */
  method CheckGroup(total: Partition, parts: seq<Partition>, tests: set<Test>, failing: set<string>) returns (ok: Option<bool>)
    ensures ok.Some? <==> GroupCollects(total, parts, tests, failing)
    ensures ok.Some? ==> (ok.value <==> Splits(total, parts, tests))
  {
    hide Collects, Collected, Pairwise, Union;
    var ids := seq(|parts|, i requires 0 <= i < |parts| => CollectIds(parts[i], tests, failing));
    assert forall i | 0 <= i < |parts| :: ids[i] == CollectIds(parts[i], tests, failing) && ids[i] in ids;
    var counts;
    ok, counts := ValidateGroup(CollectIds(total, tests, failing), ids);
    if ok.Some? {
      assert Sets(ids) == Parts(parts, tests);
    }
  }

  predicate BothCollect(tests: set<Test>, failing: set<string>) {
    GroupCollects(FACTORY_TOTAL, FACTORY_PARTS, tests, failing) && GroupCollects(NATS_TOTAL, NATS_PARTS, tests, failing)
  }

  predicate BothSplit(tests: set<Test>) {
    Splits(FACTORY_TOTAL, FACTORY_PARTS, tests) && Splits(NATS_TOTAL, NATS_PARTS, tests)
  }

  function PartitionExit(tests: set<Test>, failing: set<string>, drift: bool): int {
    if !BothCollect(tests, failing) then 2 else if !drift && BothSplit(tests) then 0 else 1
  }

  /** The partition gate; `drift` says that the workflow file misses a partition. */
  method PartitionGate(tests: set<Test>, failing: set<string>, drift: bool) returns (exit: int)
    ensures exit == PartitionExit(tests, failing, drift)
  {
    hide GroupCollects, Splits, FACTORY_TOTAL, FACTORY_PARTS, NATS_TOTAL, NATS_PARTS;
    var ok := !drift;
    var collectFailed := false;
    var factory := CheckGroup(FACTORY_TOTAL, FACTORY_PARTS, tests, failing);
    if factory.None? {
      collectFailed := true;
    } else {
      ok := factory.value && ok;
    }
    var nats := CheckGroup(NATS_TOTAL, NATS_PARTS, tests, failing);
    if nats.None? {
      collectFailed := true;
    } else {
      ok := nats.value && ok;
    }
    if collectFailed {
      return 2;
    }
    exit := if ok then 0 else 1;
  }

  // ---------------------------------------------------------------------------------------------
  // What the first gate says of the second
  // ---------------------------------------------------------------------------------------------

  predicate ExactlyOne(a: bool, b: bool, c: bool) { (a && !b && !c) || (!a && b && !c) || (!a && !b && c) }

  predicate Infra(t: Test) { Holds(FACTORY_INFRA_MARKERS, t.markers) }

  predicate InfraMarked(t: Test) {
    "live_acl" in t.markers || "subprocess_nats" in t.markers || "deploy_contract" in t.markers || "nk_tooling" in t.markers
  }

  lemma OneDir(p: Partition, t: Test, dir: string)
    requires p.paths == [dir]
    ensures Selects(p, t)
            <==> Below(t.path, dir) && (forall d | d in p.ignores :: !Below(t.path, d)) && Holds(p.markers, t.markers)
  {
    hide Below, Holds;
    assert dir in p.paths;
  }

  lemma PoolMembers(t: Test)
    requires Selects(FACTORY_TOTAL, t)
    ensures Selects(FACTORY_UNIT, t) <==> Holds(FACTORY_UNIT_MARKERS, t.markers)
    ensures Selects(FACTORY_INFRA, t) <==> Infra(t) && !Below(t.path, "tests/integration")
    ensures Selects(FACTORY_INTEGRATION, t) <==> NATS_INTEGRATION in t.markers && Below(t.path, "tests/nats/integration/")
  {
    OneDir(FACTORY_TOTAL, t, "tests/");
    OneDir(FACTORY_UNIT, t, "tests/");
    OneDir(FACTORY_INFRA, t, "tests/");
    OneDir(FACTORY_INTEGRATION, t, "tests/nats/integration/");
    hide Below, Selects, FACTORY_UNIT_MARKERS, FACTORY_INFRA_MARKERS;
    assert "tests/e2e" in FACTORY_TOTAL.ignores;
    assert "tests/integration" in FACTORY_INFRA.ignores;
  }

  lemma UnitIsTheRest(t: Test)
    ensures Holds(FACTORY_UNIT_MARKERS, t.markers) <==> !Infra(t) && NATS_INTEGRATION !in t.markers
  {
    InfraMeans(t);
    NotHas(LIVE_ACL, t.markers);
    NotHas(SUBPROCESS_NATS, t.markers);
    NotHas(DEPLOY_CONTRACT, t.markers);
    NotHas(NK_TOOLING, t.markers);
    NotHas(NATS_INTEGRATION, t.markers);
    var two := And(Not(Has(LIVE_ACL)), Not(Has(SUBPROCESS_NATS)));
    var three := And(two, Not(Has(DEPLOY_CONTRACT)));
    var four := And(three, Not(Has(NK_TOOLING)));
    assert Holds(three, t.markers) <==> Holds(two, t.markers) && DEPLOY_CONTRACT !in t.markers;
    assert Holds(four, t.markers) <==> Holds(three, t.markers) && NK_TOOLING !in t.markers;
  }

  lemma NotHas(marker: string, markers: set<string>)
    ensures Holds(Not(Has(marker)), markers) <==> marker !in markers
  {
    assert Holds(Has(marker), markers) <==> marker in markers;
  }

  lemma InfraMeans(t: Test)
    ensures Infra(t) <==> InfraMarked(t)
  {
    var two := Or(Has(LIVE_ACL), Has(SUBPROCESS_NATS));
    var three := Or(two, Has(DEPLOY_CONTRACT));
    assert Holds(Has(NK_TOOLING), t.markers) <==> NK_TOOLING in t.markers;
    assert Holds(two, t.markers) <==> LIVE_ACL in t.markers || SUBPROCESS_NATS in t.markers;
    assert Holds(three, t.markers) <==> Holds(two, t.markers) || DEPLOY_CONTRACT in t.markers;
  }

  lemma BelowMeaning(path: string, dir: string)
    ensures Below(path, dir + "/") <==> exists rest :: path == dir + "/" + rest
    ensures !EndsWith(dir, "/") ==> (Below(path, dir) <==> Below(path, dir + "/"))
  {
    assert (dir + "/")[|dir|..] == "/";
    if StartsWith(path, dir + "/") {
      assert path == path[..|dir| + 1] + path[|dir| + 1..];
    }
    if rest :| path == dir + "/" + rest {
      assert path[..|dir| + 1] == dir + "/";
    }
  }

  /** Which tests the seven invocations collect. */
  lemma PartitionsCollect(t: Test)
    ensures Selects(FACTORY_TOTAL, t) <==> Below(t.path, "tests/") && !Below(t.path, "tests/e2e")
    ensures Selects(FACTORY_UNIT, t)
            <==> && Below(t.path, "tests/") && !Below(t.path, "tests/e2e")
                 && !InfraMarked(t) && "nats_integration" !in t.markers
    ensures Selects(FACTORY_INFRA, t)
            <==> && Below(t.path, "tests/") && !Below(t.path, "tests/e2e") && !Below(t.path, "tests/integration")
                 && InfraMarked(t)
    ensures Selects(FACTORY_INTEGRATION, t) <==> Below(t.path, "tests/nats/integration/") && "nats_integration" in t.markers
    ensures Selects(NATS_TOTAL, t) <==> Below(t.path, "packages/roxabi-nats/tests")
    ensures Selects(NATS_COVERAGE, t) <==> Below(t.path, "packages/roxabi-nats/tests") && "subprocess_nats" !in t.markers
    ensures Selects(NATS_SUBPROCESS, t) <==> Below(t.path, "packages/roxabi-nats/tests") && "subprocess_nats" in t.markers
  {
    InfraMeans(t);
    UnitIsTheRest(t);
    NotHas(SUBPROCESS_NATS, t.markers);
    OneBut(FACTORY_TOTAL, t, "tests/", "tests/e2e");
    OneBut(FACTORY_UNIT, t, "tests/", "tests/e2e");
    OneButTwo(FACTORY_INFRA, t, "tests/", "tests/integration", "tests/e2e");
    OneOnly(FACTORY_INTEGRATION, t, "tests/nats/integration/");
    OneOnly(NATS_TOTAL, t, "packages/roxabi-nats/tests");
    OneOnly(NATS_COVERAGE, t, "packages/roxabi-nats/tests");
    OneOnly(NATS_SUBPROCESS, t, "packages/roxabi-nats/tests");
    hide Below, Selects, InfraMarked, FACTORY_UNIT_MARKERS, FACTORY_INFRA_MARKERS;
  }

  lemma OneOnly(p: Partition, t: Test, dir: string)
    requires p.paths == [dir] && p.ignores == []
    ensures Selects(p, t) <==> Below(t.path, dir) && Holds(p.markers, t.markers)
  {
    hide Below, Holds, Selects;
    OneDir(p, t, dir);
  }

  lemma OneBut(p: Partition, t: Test, dir: string, a: string)
    requires p.paths == [dir] && p.ignores == [a]
    ensures Selects(p, t) <==> Below(t.path, dir) && !Below(t.path, a) && Holds(p.markers, t.markers)
  {
    hide Below, Holds, Selects;
    OneDir(p, t, dir);
    assert a in p.ignores;
  }

  lemma OneButTwo(p: Partition, t: Test, dir: string, a: string, b: string)
    requires p.paths == [dir] && p.ignores == [a, b]
    ensures Selects(p, t) <==> Below(t.path, dir) && !Below(t.path, a) && !Below(t.path, b) && Holds(p.markers, t.markers)
  {
    hide Below, Holds, Selects;
    OneDir(p, t, dir);
    assert a in p.ignores && b in p.ignores;
  }

  /** Exactly which tests of the factory pool lie in one partition and no other. */
  lemma InOnePartition(t: Test)
    requires Selects(FACTORY_TOTAL, t)
    ensures ExactlyOne(Selects(FACTORY_UNIT, t), Selects(FACTORY_INFRA, t), Selects(FACTORY_INTEGRATION, t))
            <==> if "nats_integration" in t.markers
                 then Below(t.path, "tests/nats/integration/") <==> !(InfraMarked(t) && !Below(t.path, "tests/integration"))
                 else InfraMarked(t) ==> !Below(t.path, "tests/integration")
  {
    InfraMeans(t);
    PoolMembers(t);
    UnitIsTheRest(t);
    hide Selects, Below, Infra, FACTORY_UNIT_MARKERS;
  }

  // Under `tests/`, the character after the slash tells the allowed directories apart.

  lemma SixthChar(path: string, prefix: string)
    requires |prefix| > 6 && StartsWith(path, prefix)
    ensures |path| > 6 && path[0] == prefix[0] && path[6] == prefix[6]
  {
    assert path[..|prefix|][6] == path[6] && path[..|prefix|][0] == path[0];
  }

  /** Where the layout gate lets an infra marker be. */
  lemma InfraPlace(t: Test)
    requires Infra(t) && forall m | m in MARKERS && m in t.markers :: WellPlaced(t.path, m)
    ensures !StartsWith(t.path, "tests/nats/integration/")
    ensures |t.path| > 6 && (t.path[0] == 'p' || t.path[6] in {'n', 'b', 't', 'd', 's'})
  {
    var m := InfraMarker(t);
    PlacedMeaning(t.path, m);
    assert StartsWithAny(t.path, Allowed(m)) && !StartsWithAny(t.path, Denied(m));
    hide Infra, MARKERS, Misplaced, WellPlaced;
    var p :| p in Allowed(m) && StartsWith(t.path, p);
    AllowedChars(m, p);
    SixthChar(t.path, p);
    assert "tests/nats/integration/"[6] == 'n';
    if m == SUBPROCESS_NATS {
      DeniedIs(t.path);
    } else if StartsWith(t.path, "tests/nats/integration/") {
      SixthChar(t.path, "tests/nats/integration/");
    }
  }

  lemma InfraMarker(t: Test) returns (m: string)
    requires Infra(t)
    ensures m in t.markers && m in MARKERS && (m == LIVE_ACL || m == SUBPROCESS_NATS || m == DEPLOY_CONTRACT || m == NK_TOOLING)
  {
    InfraMeans(t);
    m := if LIVE_ACL in t.markers then LIVE_ACL else if SUBPROCESS_NATS in t.markers then SUBPROCESS_NATS
         else if DEPLOY_CONTRACT in t.markers then DEPLOY_CONTRACT else NK_TOOLING;
  }

  lemma DeniedIs(path: string)
    requires !StartsWithAny(path, Denied(SUBPROCESS_NATS))
    ensures !StartsWith(path, "tests/nats/integration/")
  {
    assert "tests/nats/integration/" in Denied(SUBPROCESS_NATS);
  }

  lemma AllowedChars(m: string, p: string)
    requires m == LIVE_ACL || m == SUBPROCESS_NATS || m == DEPLOY_CONTRACT || m == NK_TOOLING
    requires p in Allowed(m)
    ensures |p| > 6
    ensures m == SUBPROCESS_NATS ==> p[0] == 'p' || p[6] == 'n' || p[6] == 'b' || p[6] == 't'
    ensures m != SUBPROCESS_NATS ==> p[6] == 'd' || p[6] == 's'
  {
    MarkerNamesDiffer();
  }

  lemma NatsPlace(t: Test)
    requires NATS_INTEGRATION in t.markers
    requires forall m | m in MARKERS && m in t.markers :: WellPlaced(t.path, m)
    ensures Below(t.path, "tests/nats/integration/")
  {
    assert NATS_INTEGRATION in MARKERS && WellPlaced(t.path, NATS_INTEGRATION);
    SlashEnds();
  }

  lemma SlashEnds()
    ensures EndsWith("tests/nats/integration/", "/")
  {
    var d := "tests/nats/integration/";
    assert d[|d| - 1..] == "/";
  }

  lemma NotIntegration(path: string)
    requires |path| > 6 && path[0] == 't' && path[6] != 'i'
    ensures !Below(path, "tests/integration")
  {
    var d := "tests/integration";
    assert d[|d| - 1] == 'n' && "/"[0] == '/';
    assert !EndsWith(d, "/") && (d + "/")[6] == 'i';
    if StartsWith(path, d + "/") {
      SixthChar(path, d + "/");
    }
  }

  lemma InTests(t: Test)
    requires Selects(FACTORY_TOTAL, t)
    ensures t.path != "" && t.path[0] == 't'
  {
    OneDir(FACTORY_TOTAL, t, "tests/");
    var d := "tests/";
    assert d[|d| - 1..] == "/";
    assert StartsWith(t.path, d);
    assert t.path[..|d|][0] == t.path[0];
  }

  /** Under the layout gate, every test of the factory pool lies in exactly one partition. */
  lemma LayoutGivesOnePartition(tests: set<Test>, t: Test)
    requires LayoutOk(tests) && t in tests && Selects(FACTORY_TOTAL, t)
    ensures ExactlyOne(Selects(FACTORY_UNIT, t), Selects(FACTORY_INFRA, t), Selects(FACTORY_INTEGRATION, t))
  {
    hide Selects, Below, Infra, InfraMarked, WellPlaced, StartsWith, MARKERS;
    InfraMeans(t);
    InOnePartition(t);
    InTests(t);
    if Infra(t) {
      InfraPlace(t);
      NotIntegration(t.path);
    }
    if NATS_INTEGRATION in t.markers {
      NatsPlace(t);
      BelowNats(t.path);
    }
  }

  lemma BelowNats(path: string)
    requires Below(path, "tests/nats/integration/")
    ensures StartsWith(path, "tests/nats/integration/")
  {
    SlashEnds();
  }

  /** If the layout gate passes, the partitions of both pools are disjoint and cover them. */
  lemma LayoutSplits(tests: set<Test>)
    requires LayoutOk(tests)
    ensures Splits(FACTORY_TOTAL, FACTORY_PARTS, tests) && Splits(NATS_TOTAL, NATS_PARTS, tests)
  {
    hide Selects, LayoutOk;
    forall t | t in tests
      ensures Selects(FACTORY_TOTAL, t) ==>
                ExactlyOne(Selects(FACTORY_UNIT, t), Selects(FACTORY_INFRA, t), Selects(FACTORY_INTEGRATION, t))
      ensures Selects(FACTORY_UNIT, t) || Selects(FACTORY_INFRA, t) || Selects(FACTORY_INTEGRATION, t) ==> Selects(FACTORY_TOTAL, t)
      ensures Selects(NATS_TOTAL, t) <==> Selects(NATS_COVERAGE, t) || Selects(NATS_SUBPROCESS, t)
      ensures !(Selects(NATS_COVERAGE, t) && Selects(NATS_SUBPROCESS, t))
    {
      PartsInTotal(t);
      NatsPool(t);
      if Selects(FACTORY_TOTAL, t) {
        LayoutGivesOnePartition(tests, t);
      }
    }
    ThreeSplit(FACTORY_TOTAL, FACTORY_UNIT, FACTORY_INFRA, FACTORY_INTEGRATION, tests);
    TwoSplit(NATS_TOTAL, NATS_COVERAGE, NATS_SUBPROCESS, tests);
  }

  lemma ThreeSplit(total: Partition, a: Partition, b: Partition, c: Partition, tests: set<Test>)
    requires forall t | t in tests && Selects(total, t) :: ExactlyOne(Selects(a, t), Selects(b, t), Selects(c, t))
    requires forall t | t in tests && (Selects(a, t) || Selects(b, t) || Selects(c, t)) :: Selects(total, t)
    ensures Splits(total, [a, b, c], tests)
  {
    hide Selects;
    assert Parts([a, b, c], tests) == [Collected(a, tests), Collected(b, tests), Collected(c, tests)];
    UnionOfThree(Collected(a, tests), Collected(b, tests), Collected(c, tests));
  }

  lemma TwoSplit(total: Partition, a: Partition, b: Partition, tests: set<Test>)
    requires forall t | t in tests :: Selects(total, t) <==> Selects(a, t) || Selects(b, t)
    requires forall t | t in tests :: !(Selects(a, t) && Selects(b, t))
    ensures Splits(total, [a, b], tests)
  {
    hide Selects;
    assert Parts([a, b], tests) == [Collected(a, tests), Collected(b, tests)];
    UnionOfTwo(Collected(a, tests), Collected(b, tests));
  }

  /** No partition of either group selects nothing. */
  predicate NoneEmpty(tests: set<Test>) { forall p | p in FACTORY_PARTS + NATS_PARTS :: Collected(p, tests) != {} }

  /** A pool with a test in one of its partitions is not empty. */
  lemma TotalsCollect(tests: set<Test>)
    ensures Collected(FACTORY_INTEGRATION, tests) != {} ==> Collected(FACTORY_TOTAL, tests) != {}
    ensures Collected(NATS_COVERAGE, tests) != {} ==> Collected(NATS_TOTAL, tests) != {}
  {
    hide Selects;
    forall t | t in tests
      ensures Selects(FACTORY_INTEGRATION, t) ==> Selects(FACTORY_TOTAL, t)
      ensures Selects(NATS_COVERAGE, t) ==> Selects(NATS_TOTAL, t)
    {
      PartsInTotal(t);
      NatsPool(t);
    }
    assert forall t | t in Collected(FACTORY_INTEGRATION, tests) :: t in Collected(FACTORY_TOTAL, tests);
    assert forall t | t in Collected(NATS_COVERAGE, tests) :: t in Collected(NATS_TOTAL, tests);
  }

  const ALL_PARTITIONS: seq<Partition> := [FACTORY_TOTAL, NATS_TOTAL] + FACTORY_PARTS + NATS_PARTS

  /** Exactly when every collection goes through. */
  lemma CollectsExactly(tests: set<Test>, failing: set<string>)
    ensures BothCollect(tests, failing) <==> NoneEmpty(tests) && forall p | p in ALL_PARTITIONS :: p.name !in failing
  {
    TotalsCollect(tests);
    hide Collected;
    assert FACTORY_INTEGRATION in FACTORY_PARTS && NATS_COVERAGE in NATS_PARTS;
    hide FACTORY_TOTAL, NATS_TOTAL, FACTORY_PARTS, NATS_PARTS, FACTORY_INTEGRATION, NATS_COVERAGE;
    assert forall p :: p in ALL_PARTITIONS <==> p == FACTORY_TOTAL || p == NATS_TOTAL || p in FACTORY_PARTS || p in NATS_PARTS;
    assert forall p :: p in FACTORY_PARTS + NATS_PARTS <==> p in FACTORY_PARTS || p in NATS_PARTS;
  }

  /** Where the layout gate passes, the partition gate never finds a violation of the partitions: it passes exactly when no
      partition is empty, no collection fails otherwise and the workflow file is in step. */
  lemma LayoutImpliesPartitions(tests: set<Test>, failing: set<string>, drift: bool)
    requires LayoutOk(tests)
    ensures PartitionExit(tests, failing, drift) == if !BothCollect(tests, failing) then 2 else if drift then 1 else 0
    ensures PartitionExit(tests, failing, drift) == 0
            <==> NoneEmpty(tests) && (forall p | p in ALL_PARTITIONS :: p.name !in failing) && !drift
  {
    hide BothCollect, Splits, LayoutOk, NoneEmpty;
    LayoutSplits(tests);
    CollectsExactly(tests, failing);
  }

  /** A suite without a test of one of the partitions: the layout gate may pass, the partition gate never does. */
  lemma WithoutMarker(tests: set<Test>, m: string, p: Partition)
    requires (m == NATS_INTEGRATION && p == FACTORY_INTEGRATION) || (m == SUBPROCESS_NATS && p == NATS_SUBPROCESS)
    requires forall t | t in tests :: m !in t.markers
    ensures !NoneEmpty(tests)
  {
    assert FACTORY_INTEGRATION in FACTORY_PARTS && NATS_SUBPROCESS in NATS_PARTS;
    hide Below;
    forall t | t in tests
      ensures !Selects(p, t)
    {
      assert !Holds(Has(m), t.markers);
    }
    assert Collected(p, tests) == {};
  }

  lemma NatsPool(t: Test)
    ensures Selects(NATS_TOTAL, t) <==> Selects(NATS_COVERAGE, t) || Selects(NATS_SUBPROCESS, t)
    ensures !(Selects(NATS_COVERAGE, t) && Selects(NATS_SUBPROCESS, t))
  {
    OneDir(NATS_TOTAL, t, NATS_TESTS);
    OneDir(NATS_COVERAGE, t, NATS_TESTS);
    OneDir(NATS_SUBPROCESS, t, NATS_TESTS);
    hide Selects, Below;
  }

  lemma PartsInTotal(t: Test)
    ensures Selects(FACTORY_UNIT, t) || Selects(FACTORY_INFRA, t) || Selects(FACTORY_INTEGRATION, t) ==> Selects(FACTORY_TOTAL, t)
  {
    OneDir(FACTORY_TOTAL, t, "tests/");
    OneDir(FACTORY_UNIT, t, "tests/");
    OneDir(FACTORY_INFRA, t, "tests/");
    OneDir(FACTORY_INTEGRATION, t, "tests/nats/integration/");
    hide Selects;
    assert "tests/e2e" in FACTORY_INFRA.ignores && "tests/e2e" in FACTORY_UNIT.ignores;
    if Selects(FACTORY_INTEGRATION, t) {
      BelowNats(t.path);
      NatsInTests(t.path);
    }
  }

  lemma NatsInTests(path: string)
    requires StartsWith(path, "tests/nats/integration/")
    ensures Below(path, "tests/") && !Below(path, "tests/e2e")
  {
    var d := "tests/nats/integration/";
    SixthChar(path, d);
    assert d[..6] == "tests/" && "tests/"[5..] == "/";
    assert path[..6] == path[..|d|][..6];
    var e := "tests/e2e" + "/";
    assert "tests/e2e"[8] == 'e' && !EndsWith("tests/e2e", "/");
    assert e[6] == 'e' && d[6] == 'n';
    if StartsWith(path, e) {
      SixthChar(path, e);
    }
  }

  lemma UnionOfThree<T>(a: set<T>, b: set<T>, c: set<T>)
    ensures Union([a, b, c]) == a + b + c
  {
    assert [a, b, c][..2] == [a, b] && [a, b][..1] == [a] && [a][..0] == [];
    assert Union([a]) == a && Union([a, b]) == a + b;
  }

  lemma UnionOfTwo<T>(a: set<T>, b: set<T>)
    ensures Union([a, b]) == a + b
  {
    assert [a, b][..1] == [a] && [a][..0] == [];
    assert Union([a]) == a;
  }
}

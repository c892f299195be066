/** The ACL matrix, its effective grants, and the flattened matrix the parity gate compares. */
module AclMatrix {
  import opened Text
  import opened Nats

  datatype Status = Active | Retired

  /** `groups` is an optional key of the JSON object. */
  datatype Identity = Identity(
    status: Status,
    publish: seq<string>,
    subscribe: seq<string>,
    allowResponses: bool,
    groups: Option<seq<string>>)

  datatype Entry = Entry(name: string, id: Identity)

  datatype Group = Group(publish: seq<string>, subscribe: seq<string>)

  datatype Flow = Flow(requester: string, responder: string)

  /** `identities` keeps the insertion order of the dictionary. */
  datatype Matrix = Matrix(version: string, identities: seq<Entry>, flows: seq<Flow>, groups: map<string, Group>)

  function GroupsOf(id: Identity): seq<string> { if id.groups.Some? then id.groups.value else [] }

  predicate DistinctNames(es: seq<Entry>) { forall i, j | 0 <= i < j < |es| :: es[i].name != es[j].name }

  /** What the loader guarantees: names are keys, and group references resolve. */
  predicate ValidMatrix(m: Matrix) {
    && DistinctNames(m.identities)
    && (forall e | e in m.identities :: forall g | g in GroupsOf(e.id) :: g in m.groups)
  }

  datatype Direction = Publish | Subscribe

  function OwnOf(id: Identity, d: Direction): seq<string> { if d == Publish then id.publish else id.subscribe }

  function GroupList(g: Group, d: Direction): seq<string> { if d == Publish then g.publish else g.subscribe }

  function FromGroups(gnames: seq<string>, groups: map<string, Group>, d: Direction): seq<string>
    requires forall g | g in gnames :: g in groups
  {
    if gnames == [] then []
    else
      var n := |gnames| - 1;
      FromGroups(gnames[..n], groups, d) + GroupList(groups[gnames[n]], d)
  }

  function Inbox(requester: string): string { "_inbox." + requester + ".>" }

  /** The inbox grants the flows derive for `name`. */
  function Inboxes(flows: seq<Flow>, name: string, d: Direction): seq<string> {
    if flows == [] then []
    else
      var n := |flows| - 1;
      var f := flows[n];
      var mine := if d == Publish then f.responder == name else f.requester == name;
      Inboxes(flows[..n], name, d) + if mine then [Inbox(f.requester)] else []
  }

  /** `if x not in l: l.append(x)`. */
  function AddNew(l: seq<string>, x: string): seq<string> { if x in l then l else l + [x] }

  function AddAll(l: seq<string>, xs: seq<string>): seq<string> {
    if xs == [] then l else AddNew(AddAll(l, xs[..|xs| - 1]), xs[|xs| - 1])
  }

  /** `list(dict.fromkeys(xs))`: first occurrences, in order. */
  function Dedup(xs: seq<string>): seq<string> { AddAll([], xs) }

  /** Everything an identity is granted, with repetitions. */
  function AllGrants(m: Matrix, e: Entry, d: Direction): seq<string>
    requires ValidMatrix(m) && e in m.identities
  {
    OwnOf(e.id, d) + FromGroups(GroupsOf(e.id), m.groups, d) + Inboxes(m.flows, e.name, d)
  }

  function Effective(m: Matrix, e: Entry, d: Direction): seq<string>
    requires ValidMatrix(m) && e in m.identities
  {
    Dedup(AllGrants(m, e, d))
  }

  // ---------------------------------------------------------------------------------------------
  // The loops of `effective_grants`
  // ---------------------------------------------------------------------------------------------

  /** The list for one identity when only the given flows have been applied. */
  function ListFor(m: Matrix, flows: seq<Flow>, e: Entry, d: Direction): seq<string>
    requires ValidMatrix(m) && e in m.identities
  {
    Dedup(OwnOf(e.id, d) + FromGroups(GroupsOf(e.id), m.groups, d) + Inboxes(flows, e.name, d))
  }

  function ActiveNames(es: seq<Entry>): set<string> { set e | e in es && e.id.status == Active :: e.name }

  /** The state of the dictionary `pub_allow` or `sub_allow` after the identities `es` and the given flows. */
  predicate IsAllow(m: Matrix, es: seq<Entry>, flows: seq<Flow>, d: Direction, allow: map<string, seq<string>>)
    requires ValidMatrix(m) && forall e | e in es :: e in m.identities
  {
    && allow.Keys == ActiveNames(es)
    && forall e | e in es && e.id.status == Active :: e.name in allow && allow[e.name] == ListFor(m, flows, e, d)
  }

  lemma AddAllSnoc(l: seq<string>, xs: seq<string>, x: string)
    ensures AddAll(l, xs + [x]) == AddNew(AddAll(l, xs), x)
  {
    assert (xs + [x])[..|xs|] == xs;
  }

  lemma {:induction false} AddAllConcat(l: seq<string>, xs: seq<string>, ys: seq<string>)
    ensures AddAll(l, xs + ys) == AddAll(AddAll(l, xs), ys)
  {
    if ys == [] {
      assert xs + ys == xs;
    } else {
      var n := |ys| - 1;
      AddAllConcat(l, xs, ys[..n]);
      assert ys == ys[..n] + [ys[n]];
      assert xs + ys == (xs + ys[..n]) + [ys[n]];
      AddAllSnoc(l, xs + ys[..n], ys[n]);
    }
  }

  lemma UniqueName(m: Matrix, e: Entry, f: Entry)
    requires ValidMatrix(m) && e in m.identities && f in m.identities && e.name == f.name
    ensures e == f
  {
    var i :| 0 <= i < |m.identities| && m.identities[i] == e;
    var j :| 0 <= j < |m.identities| && m.identities[j] == f;
    assert i == j;
  }

  lemma FlowStep(m: Matrix, flows: seq<Flow>, k: nat, e: Entry, d: Direction)
    requires ValidMatrix(m) && e in m.identities && k < |flows|
    ensures var f := flows[k];
            ListFor(m, flows[..k + 1], e, d)
            == if (if d == Publish then f.responder else f.requester) == e.name
               then AddNew(ListFor(m, flows[..k], e, d), Inbox(f.requester))
               else ListFor(m, flows[..k], e, d)
  {
    var f := flows[k];
    var base := OwnOf(e.id, d) + FromGroups(GroupsOf(e.id), m.groups, d);
    assert flows[..k + 1][..k] == flows[..k];
    if (if d == Publish then f.responder else f.requester) == e.name {
      assert base + (Inboxes(flows[..k], e.name, d) + [Inbox(f.requester)]) == base + Inboxes(flows[..k], e.name, d) + [Inbox(f.requester)];
      AddAllSnoc([], base + Inboxes(flows[..k], e.name, d), Inbox(f.requester));
    } else {
      assert Inboxes(flows[..k], e.name, d) + [] == Inboxes(flows[..k], e.name, d);
    }
  }

  /** Group expansion of one identity, both directions at once. */
  method Expand(m: Matrix, e: Entry) returns (pub: seq<string>, sub: seq<string>)
    requires ValidMatrix(m) && e in m.identities
    ensures pub == OwnOf(e.id, Publish) + FromGroups(GroupsOf(e.id), m.groups, Publish)
    ensures sub == OwnOf(e.id, Subscribe) + FromGroups(GroupsOf(e.id), m.groups, Subscribe)
  {
    pub, sub := e.id.publish, e.id.subscribe;
    var gnames := GroupsOf(e.id);
    for j := 0 to |gnames|
      invariant pub == OwnOf(e.id, Publish) + FromGroups(gnames[..j], m.groups, Publish)
      invariant sub == OwnOf(e.id, Subscribe) + FromGroups(gnames[..j], m.groups, Subscribe)
    {
      var g := m.groups[gnames[j]];
      assert gnames[..j + 1][..j] == gnames[..j];
      pub := pub + g.publish;
      sub := sub + g.subscribe;
    }
    assert gnames[..|gnames|] == gnames;
  }

  lemma NoFlows(m: Matrix, e: Entry, d: Direction)
    requires ValidMatrix(m) && e in m.identities
    ensures ListFor(m, [], e, d) == Dedup(OwnOf(e.id, d) + FromGroups(GroupsOf(e.id), m.groups, d))
  {
    var base := OwnOf(e.id, d) + FromGroups(GroupsOf(e.id), m.groups, d);
    assert base + [] == base;
  }

  lemma AllowAdd(m: Matrix, es: seq<Entry>, k: nat, d: Direction, allow: map<string, seq<string>>)
    requires ValidMatrix(m) && es == m.identities && k < |es|
    requires forall e | e in es[..k] :: e in m.identities
    requires IsAllow(m, es[..k], [], d, allow)
    ensures forall e | e in es[..k + 1] :: e in m.identities
    ensures IsAllow(m, es[..k + 1], [], d,
                    if es[k].id.status == Active then allow[es[k].name := ListFor(m, [], es[k], d)] else allow)
  {
    hide ListFor, ActiveNames, ValidMatrix;
    var e := es[k];
    assert es[..k + 1] == es[..k] + [e];
    EarlierName(m, k);
    ActiveSnoc(es[..k], e);
  }

  lemma EarlierName(m: Matrix, k: nat)
    requires ValidMatrix(m) && k < |m.identities|
    ensures forall f | f in m.identities[..k] :: f.name != m.identities[k].name
  {
  }

  lemma ActiveSnoc(es: seq<Entry>, e: Entry)
    ensures ActiveNames(es + [e]) == ActiveNames(es) + if e.id.status == Active then {e.name} else {}
  {
  }

  /** Steps 1 to 3 of `effective_grants`: own grants and groups, deduplicated. */
  method ExpandAll(m: Matrix) returns (pubAllow: map<string, seq<string>>, subAllow: map<string, seq<string>>)
    requires ValidMatrix(m)
    ensures IsAllow(m, m.identities, [], Publish, pubAllow) && IsAllow(m, m.identities, [], Subscribe, subAllow)
  {
    pubAllow, subAllow := map[], map[];
    hide ListFor, FromGroups, Inboxes, AddAll, IsAllow, Dedup;
    var es := m.identities;
    NoneAllowed(m);
    for k := 0 to |es|
      invariant forall e | e in es[..k] :: e in m.identities
      invariant IsAllow(m, es[..k], [], Publish, pubAllow)
      invariant IsAllow(m, es[..k], [], Subscribe, subAllow)
    {
      var e := es[k];
      AllowAdd(m, es, k, Publish, pubAllow);
      AllowAdd(m, es, k, Subscribe, subAllow);
      if e.id.status != Retired {
        var pub, sub := Expand(m, e);
        NoFlows(m, e, Publish);
        NoFlows(m, e, Subscribe);
        pubAllow := pubAllow[e.name := Dedup(pub)];
        subAllow := subAllow[e.name := Dedup(sub)];
      }
    }
    assert es[..|es|] == es;
  }

  lemma NoneAllowed(m: Matrix)
    requires ValidMatrix(m)
    ensures IsAllow(m, [], [], Publish, map[]) && IsAllow(m, [], [], Subscribe, map[])
  {
  }

  /** `effective_grants`: the two dictionaries it builds, with step 4, the flow inboxes. */
  method EffectiveGrants(m: Matrix) returns (pubAllow: map<string, seq<string>>, subAllow: map<string, seq<string>>)
    requires ValidMatrix(m)
    ensures IsAllow(m, m.identities, m.flows, Publish, pubAllow)
    ensures IsAllow(m, m.identities, m.flows, Subscribe, subAllow)
  {
    hide IsAllow, Inbox;
    pubAllow, subAllow := ExpandAll(m);
    for k := 0 to |m.flows|
      invariant IsAllow(m, m.identities, m.flows[..k], Publish, pubAllow)
      invariant IsAllow(m, m.identities, m.flows[..k], Subscribe, subAllow)
    {
      var f := m.flows[k];
      var inbox := Inbox(f.requester);
      AllowFlow(m, k, Publish, pubAllow);
      AllowFlow(m, k, Subscribe, subAllow);
      if f.requester in subAllow && inbox !in subAllow[f.requester] {
        subAllow := subAllow[f.requester := subAllow[f.requester] + [inbox]];
      }
      if f.responder in pubAllow && inbox !in pubAllow[f.responder] {
        pubAllow := pubAllow[f.responder := pubAllow[f.responder] + [inbox]];
      }
    }
    assert m.flows[..|m.flows|] == m.flows;
  }

  lemma AllowFlow(m: Matrix, k: nat, d: Direction, allow: map<string, seq<string>>)
    requires ValidMatrix(m) && k < |m.flows|
    requires IsAllow(m, m.identities, m.flows[..k], d, allow)
    ensures var f := m.flows[k];
            var name := if d == Publish then f.responder else f.requester;
            var inbox := Inbox(f.requester);
            IsAllow(m, m.identities, m.flows[..k + 1], d,
                    if name in allow && inbox !in allow[name] then allow[name := allow[name] + [inbox]] else allow)
  {
    hide ListFor, Inbox;
    var f := m.flows[k];
    var name := if d == Publish then f.responder else f.requester;
    var inbox := Inbox(f.requester);
    var after := if name in allow && inbox !in allow[name] then allow[name := allow[name] + [inbox]] else allow;
    assert after.Keys == allow.Keys;
    forall e | e in m.identities && e.id.status == Active
      ensures e.name in after && after[e.name] == ListFor(m, m.flows[..k + 1], e, d)
    {
      FlowStep(m, m.flows, k, e, d);
      assert e.name in allow && allow[e.name] == ListFor(m, m.flows[..k], e, d);
    }
  }

  /** The lists `effective_grants` ends with are the deduplicated lists of everything granted. */
  lemma AllowIsEffective(m: Matrix, d: Direction, allow: map<string, seq<string>>, e: Entry)
    requires ValidMatrix(m) && IsAllow(m, m.identities, m.flows, d, allow) && e in m.identities
    ensures e.name in allow <==> e.id.status == Active
    ensures e.id.status == Active ==> allow[e.name] == Effective(m, e, d)
  {
    hide ListFor, Effective;
    assert ListFor(m, m.flows, e, d) == Effective(m, e, d) by { EffectiveIsListFor(m, e, d); }
    if e.name in allow {
      var f :| f in m.identities && f.id.status == Active && f.name == e.name;
      UniqueName(m, e, f);
    }
  }

  lemma EffectiveIsListFor(m: Matrix, e: Entry, d: Direction)
    requires ValidMatrix(m) && e in m.identities
    ensures ListFor(m, m.flows, e, d) == Effective(m, e, d)
  {
  }

  // ---------------------------------------------------------------------------------------------
  // Deduplication
  // ---------------------------------------------------------------------------------------------

  predicate NoRepeats(l: seq<string>) { forall i, j | 0 <= i < j < |l| :: l[i] != l[j] }

  lemma {:induction false} AddAllSet(l: seq<string>, xs: seq<string>)
    ensures forall x :: x in AddAll(l, xs) <==> x in l || x in xs
    ensures NoRepeats(l) ==> NoRepeats(AddAll(l, xs))
  {
    if xs != [] {
      var n := |xs| - 1;
      AddAllSet(l, xs[..n]);
      assert xs == xs[..n] + [xs[n]];
    }
  }

  lemma LastIsFresh(p: seq<string>, x: string)
    requires NoRepeats(p + [x])
    ensures x !in p
  {
    assert forall i | 0 <= i < |p| :: p[i] == (p + [x])[i] && (p + [x])[i] != (p + [x])[|p|];
  }

  /** Adding to a list without repetitions what it does not yet contain, in order, appends it. */
  lemma {:induction false} AddAllFresh(l: seq<string>, xs: seq<string>)
    requires NoRepeats(l + xs)
    ensures AddAll(l, xs) == l + xs
  {
    if xs == [] {
      assert l + xs == l;
    } else {
      var n := |xs| - 1;
      assert l + xs == (l + xs[..n]) + [xs[n]];
      assert NoRepeats(l + xs[..n]) by {
        assert forall i | 0 <= i < |l + xs[..n]| :: (l + xs[..n])[i] == (l + xs)[i];
      }
      AddAllFresh(l, xs[..n]);
      LastIsFresh(l + xs[..n], xs[n]);
    }
  }

  lemma {:induction false} AddAllOld(l: seq<string>, xs: seq<string>)
    requires forall x | x in xs :: x in l
    ensures AddAll(l, xs) == l
  {
    if xs != [] {
      AddAllOld(l, xs[..|xs| - 1]);
    }
  }

  /** Deduplicating again, and adding grants that are already there, changes nothing. */
  lemma DedupStable(xs: seq<string>, again: seq<string>)
    requires forall x | x in again :: x in xs
    ensures Dedup(Dedup(xs) + again) == Dedup(xs)
  {
    AddAllSet([], xs);
    AddAllFresh([], Dedup(xs));
    assert [] + Dedup(xs) == Dedup(xs);
    AddAllConcat([], Dedup(xs), again);
    AddAllOld(Dedup(xs), again);
  }

  // ---------------------------------------------------------------------------------------------
  // Flattening
  // ---------------------------------------------------------------------------------------------

  function Flat(m: Matrix, e: Entry): Entry
    requires ValidMatrix(m) && e in m.identities
  {
    Entry(e.name, e.id.(publish := Effective(m, e, Publish), subscribe := Effective(m, e, Subscribe), groups := None))
  }

  function FlatEntries(m: Matrix, es: seq<Entry>): seq<Entry>
    requires ValidMatrix(m) && forall e | e in es :: e in m.identities
  {
    if es == [] then []
    else
      var n := |es| - 1;
      FlatEntries(m, es[..n]) + if es[n].id.status == Active then [Flat(m, es[n])] else []
  }

  function Flatten(m: Matrix): Matrix
    requires ValidMatrix(m)
  {
    Matrix(m.version, FlatEntries(m, m.identities), m.flows, map[])
  }

  /** `build_effective_json`: copy each active identity, overwrite its lists, drop its groups. */
  method BuildEffective(m: Matrix) returns (r: Matrix)
    requires ValidMatrix(m)
    ensures r == Flatten(m)
    ensures r.version == m.version && r.flows == m.flows && r.groups == map[]
    ensures forall e | e in r.identities :: e.id.groups == None && e.id.status == Active
  {
    hide IsAllow, Effective;
    var pub, sub := EffectiveGrants(m);
    var out: seq<Entry> := [];
    for k := 0 to |m.identities|
      invariant forall e | e in m.identities[..k] :: e in m.identities
      invariant out == FlatEntries(m, m.identities[..k])
      invariant forall e | e in out :: e.id.groups == None && e.id.status == Active
    {
      var e := m.identities[k];
      assert m.identities[..k + 1][..k] == m.identities[..k];
      AllowIsEffective(m, Publish, pub, e);
      AllowIsEffective(m, Subscribe, sub, e);
      if e.id.status == Active {
        var idOut := e.id.(publish := pub[e.name], subscribe := sub[e.name]);
        out := out + [Entry(e.name, idOut.(groups := None))];
      }
    }
    assert m.identities[..|m.identities|] == m.identities;
    r := Matrix(m.version, out, m.flows, map[]);
  }

  lemma {:induction false} FlatFrom(m: Matrix, es: seq<Entry>, f: Entry)
    requires ValidMatrix(m) && forall e | e in es :: e in m.identities
    requires f in FlatEntries(m, es)
    ensures exists e :: e in es && e.id.status == Active && f == Flat(m, e)
  {
    hide Flat;
    var n := |es| - 1;
    if f in FlatEntries(m, es[..n]) {
      FlatFrom(m, es[..n], f);
      var e :| e in es[..n] && e.id.status == Active && f == Flat(m, e);
      assert e in es;
    } else {
      assert es[n] in es;
    }
  }

  lemma {:induction false} FlatDistinct(m: Matrix, es: seq<Entry>)
    requires ValidMatrix(m) && (forall e | e in es :: e in m.identities)
    requires DistinctNames(es)
    ensures DistinctNames(FlatEntries(m, es))
  {
    if es != [] {
      var n := |es| - 1;
      var init := FlatEntries(m, es[..n]);
      FlatDistinct(m, es[..n]);
      forall i | 0 <= i < |init|
        ensures init[i].name != es[n].name
      {
        FlatFrom(m, es[..n], init[i]);
      }
    }
  }

  lemma FlattenValid(m: Matrix)
    requires ValidMatrix(m)
    ensures ValidMatrix(Flatten(m))
    ensures forall f | f in Flatten(m).identities :: exists e :: e in m.identities && e.id.status == Active && f == Flat(m, e)
  {
    FlattenDistinct(m);
    var r := Flatten(m);
    hide Flat, Flatten;
    forall f | f in r.identities
      ensures forall g | g in GroupsOf(f.id) :: g in r.groups
      ensures exists e :: e in m.identities && e.id.status == Active && f == Flat(m, e)
    {
      FlatIsActive(m, f);
      var e :| e in m.identities && e.id.status == Active && f == Flat(m, e);
      FlatNoGroups(m, e);
    }
  }

  lemma FlattenDistinct(m: Matrix)
    requires ValidMatrix(m)
    ensures DistinctNames(Flatten(m).identities)
  {
    FlatDistinct(m, m.identities);
  }

  lemma FlatNoGroups(m: Matrix, e: Entry)
    requires ValidMatrix(m) && e in m.identities
    ensures GroupsOf(Flat(m, e).id) == []
  {
  }

  /** Flattening keeps each active identity's effective lists, order included. */
  lemma FlattenEffective(m: Matrix, e: Entry, d: Direction)
    requires ValidMatrix(m) && e in m.identities && e.id.status == Active
    requires ValidMatrix(Flatten(m)) && Flat(m, e) in Flatten(m).identities
    ensures Effective(Flatten(m), Flat(m, e), d) == Effective(m, e, d)
  {
    var inboxes := Inboxes(m.flows, e.name, d);
    var all := AllGrants(m, e, d);
    assert forall x | x in inboxes :: x in all;
    DedupStable(all, inboxes);
    assert Dedup(all) + [] == Dedup(all);
  }

  /** The dictionaries `effective_grants` builds from the flattened matrix are the ones it builds from the original. */
  lemma FlattenSameGrants(m: Matrix, d: Direction, allow: map<string, seq<string>>, flat: map<string, seq<string>>)
    requires ValidMatrix(m) && IsAllow(m, m.identities, m.flows, d, allow)
    requires ValidMatrix(Flatten(m)) && IsAllow(Flatten(m), Flatten(m).identities, m.flows, d, flat)
    ensures allow == flat
  {
    hide IsAllow, Effective, Flatten, Flat, ValidMatrix;
    forall name | name in allow
      ensures name in flat && flat[name] == allow[name]
    {
      var e := AllowedEntry(m, d, allow, name);
      SameGrants(m, d, allow, flat, e);
    }
    forall name | name in flat
      ensures name in allow
    {
      FlattenFlows(m);
      var f := AllowedEntry(Flatten(m), d, flat, name);
      FlatIsActive(m, f);
      var e :| e in m.identities && e.id.status == Active && f == Flat(m, e);
      SameGrants(m, d, allow, flat, e);
      assert f.name == e.name by { FlatName(m, e); }
    }
    assert allow.Keys == flat.Keys;
  }

  lemma FlattenFlows(m: Matrix)
    requires ValidMatrix(m)
    ensures Flatten(m).flows == m.flows
  {
  }

  lemma FlatName(m: Matrix, e: Entry)
    requires ValidMatrix(m) && e in m.identities
    ensures Flat(m, e).name == e.name && Flat(m, e).id.status == e.id.status
  {
  }

  lemma FlatIsActive(m: Matrix, f: Entry)
    requires ValidMatrix(m) && f in Flatten(m).identities
    ensures exists e :: e in m.identities && e.id.status == Active && f == Flat(m, e)
  {
    FlatFrom(m, m.identities, f);
  }

  lemma AllowedEntry(m: Matrix, d: Direction, allow: map<string, seq<string>>, name: string) returns (e: Entry)
    requires ValidMatrix(m) && IsAllow(m, m.identities, m.flows, d, allow) && name in allow
    ensures e in m.identities && e.id.status == Active && e.name == name
  {
    hide ListFor;
    e :| e in m.identities && e.id.status == Active && e.name == name;
  }

  lemma SameGrants(m: Matrix, d: Direction, allow: map<string, seq<string>>, flat: map<string, seq<string>>, e: Entry)
    requires ValidMatrix(m) && IsAllow(m, m.identities, m.flows, d, allow)
    requires ValidMatrix(Flatten(m)) && IsAllow(Flatten(m), Flatten(m).identities, m.flows, d, flat)
    requires e in m.identities && e.id.status == Active
    ensures e.name in allow && e.name in flat && flat[e.name] == allow[e.name]
  {
    FlatInFlatten(m, m.identities, e);
    FlattenFlows(m);
    FlatName(m, e);
    FlattenEffective(m, e, d);
    hide IsAllow, Effective, Flatten, Flat, ValidMatrix, FlatEntries;
    assert Flat(m, e) in Flatten(m).identities by { FlattenEntries(m); }
    AllowIsEffective(m, d, allow, e);
    AllowIsEffective(Flatten(m), d, flat, Flat(m, e));
  }

  lemma FlattenEntries(m: Matrix)
    requires ValidMatrix(m)
    ensures Flatten(m).identities == FlatEntries(m, m.identities)
  {
  }

  lemma FlatInFlatten(m: Matrix, es: seq<Entry>, e: Entry)
    requires ValidMatrix(m) && (forall f | f in es :: f in m.identities)
    requires e in es && e.id.status == Active
    ensures Flat(m, e) in FlatEntries(m, es)
  {
    hide Flat;
    var n := |es| - 1;
    if e != es[n] {
      assert es == es[..n] + [es[n]];
      FlatInFlatten(m, es[..n], e);
    }
  }

  /** Flattening twice is flattening once. */
  lemma FlattenIdempotent(m: Matrix)
    requires ValidMatrix(m)
    ensures ValidMatrix(Flatten(m)) && Flatten(Flatten(m)) == Flatten(m)
  {
    FlattenValid(m);
    FlatAgain(m, Flatten(m).identities);
  }

  lemma {:induction false} FlatAgain(m: Matrix, fs: seq<Entry>)
    requires ValidMatrix(m) && ValidMatrix(Flatten(m)) && forall f | f in fs :: f in Flatten(m).identities
    ensures FlatEntries(Flatten(m), fs) == fs
  {
    hide Flat, Flatten, ValidMatrix;
    if fs != [] {
      var n := |fs| - 1;
      FlatAgain(m, fs[..n]);
      assert fs[n] in fs;
      FlatFixed(m, fs[n]);
      assert fs == fs[..n] + [fs[n]];
    }
  }

  lemma FlatFixed(m: Matrix, f: Entry)
    requires ValidMatrix(m) && ValidMatrix(Flatten(m)) && f in Flatten(m).identities
    ensures f.id.status == Active && Flat(Flatten(m), f) == f
  {
    hide Effective, ValidMatrix;
    FlatFrom(m, m.identities, f);
    var e :| e in m.identities && e.id.status == Active && f == Flat(m, e);
    FlattenEffective(m, e, Publish);
    FlattenEffective(m, e, Subscribe);
  }

  // ---------------------------------------------------------------------------------------------
  // What the grants mean
  // ---------------------------------------------------------------------------------------------

  /** Subjects below a requester's own inbox: `_inbox`, then the requester's tokens, then one or more. */
  predicate InInbox(requester: string, subject: string) {
    var p, s := ["_inbox"] + Toks(requester), Toks(subject);
    ">" !in Toks(requester) && |p| < |s| && Agree(p, s, |p|)
  }

  /** Subjects an identity may use: those one of its own grants or of its groups' grants matches, and those in the inbox
      of a requester it answers, or in its own if it requests. */
  predicate Granted(m: Matrix, e: Entry, d: Direction, subject: string)
    requires ValidMatrix(m) && e in m.identities
  {
    || (exists g | g in (if d == Publish then e.id.publish else e.id.subscribe) :: Matches(g, subject))
    || (e.id.groups.Some? && exists gname | gname in e.id.groups.value ::
          exists g | g in (if d == Publish then m.groups[gname].publish else m.groups[gname].subscribe) :: Matches(g, subject))
    || (exists f | f in m.flows :: (if d == Publish then f.responder else f.requester) == e.name && InInbox(f.requester, subject))
  }

  /** The inbox grant matches the subjects in the inbox. */
  lemma InboxMeaning(requester: string, subject: string)
    ensures Matches(Inbox(requester), subject) <==> InInbox(requester, subject)
  {
    InboxToks(requester);
    var p, q := Toks(Inbox(requester)), ["_inbox"] + Toks(requester);
    assert p == q + [">"];
    hide Toks, Inbox;
    assert forall i | 0 <= i < |q| :: p[i] == q[i];
    assert "_inbox"[0] != ">"[0];
    if ">" in Toks(requester) {
      var i :| 0 <= i < |Toks(requester)| && Toks(requester)[i] == ">";
      assert p[i + 1] == ">";
    }
  }

  lemma InboxToks(requester: string)
    ensures Toks(Inbox(requester)) == ["_inbox"] + Toks(requester) + [">"]
  {
    SplitNone("_inbox", '.');
    SplitNone(">", '.');
    assert "_inbox." == "_inbox" + ['.'] && ".>" == ['.'] + ">";
    SplitConcat(requester, ">", '.');
    SplitConcat("_inbox", requester + ['.'] + ">", '.');
    assert Inbox(requester) == "_inbox" + ['.'] + (requester + ['.'] + ">");
  }

  /** An ordinary name's inbox: the second token is the name itself. */
  lemma PlainInbox(requester: string, subject: string)
    requires '.' !in requester && requester != "*" && requester != ">"
    ensures Matches(Inbox(requester), subject)
            <==> |Toks(subject)| >= 3 && Toks(subject)[0] == "_inbox" && Toks(subject)[1] == requester
  {
    InboxMeaning(requester, subject);
    SplitNone(requester, '.');
    assert Toks(requester) == [requester];
    assert "_inbox"[0] != "*"[0];
  }

  lemma {:induction false} FromGroupsHas(gnames: seq<string>, groups: map<string, Group>, d: Direction, g: string)
    requires forall n | n in gnames :: n in groups
    ensures g in FromGroups(gnames, groups, d) <==> exists n :: n in gnames && g in GroupList(groups[n], d)
  {
    if gnames != [] {
      var k := |gnames| - 1;
      FromGroupsHas(gnames[..k], groups, d, g);
      assert gnames == gnames[..k] + [gnames[k]];
      assert forall n :: n in gnames <==> n in gnames[..k] || n == gnames[k];
    }
  }

  lemma {:induction false} InboxesHas(flows: seq<Flow>, name: string, d: Direction, g: string)
    ensures g in Inboxes(flows, name, d)
            <==> exists f :: f in flows && (if d == Publish then f.responder else f.requester) == name && g == Inbox(f.requester)
  {
    hide Inbox;
    if flows != [] {
      var k := |flows| - 1;
      InboxesHas(flows[..k], name, d, g);
      assert flows == flows[..k] + [flows[k]];
      assert forall f :: f in flows <==> f in flows[..k] || f == flows[k];
    }
  }

  /** What the grants of an identity match, source by source. */
  lemma SomeGrant(m: Matrix, e: Entry, d: Direction, g: string)
    requires ValidMatrix(m) && e in m.identities
    ensures g in Effective(m, e, d)
            <==> || g in OwnOf(e.id, d)
                 || (exists n :: n in GroupsOf(e.id) && g in GroupList(m.groups[n], d))
                 || (exists f :: f in m.flows && (if d == Publish then f.responder else f.requester) == e.name && g == Inbox(f.requester))
  {
    hide Inbox, FromGroups, Inboxes;
    AddAllSet([], AllGrants(m, e, d));
    FromGroupsHas(GroupsOf(e.id), m.groups, d, g);
    InboxesHas(m.flows, e.name, d, g);
  }

  /** The effective list of an identity allows exactly the subjects its matrix entry grants. */
  lemma EffectiveMeaning(m: Matrix, e: Entry, d: Direction, subject: string)
    requires ValidMatrix(m) && e in m.identities
    ensures (exists g | g in Effective(m, e, d) :: Matches(g, subject)) <==> Granted(m, e, d, subject)
  {
    hide Matches, Inbox, InInbox, Effective;
    forall f | f in m.flows
      ensures Matches(Inbox(f.requester), subject) <==> InInbox(f.requester, subject)
    {
      InboxMeaning(f.requester, subject);
    }
    if g :| g in Effective(m, e, d) && Matches(g, subject) {
      SomeGrant(m, e, d, g);
    }
    if Granted(m, e, d, subject) {
      if g :| g in OwnOf(e.id, d) && Matches(g, subject) {
        SomeGrant(m, e, d, g);
      } else if n, g :| n in GroupsOf(e.id) && g in GroupList(m.groups[n], d) && Matches(g, subject) {
        SomeGrant(m, e, d, g);
      } else {
        var f :| f in m.flows && (if d == Publish then f.responder else f.requester) == e.name && InInbox(f.requester, subject);
        SomeGrant(m, e, d, Inbox(f.requester));
      }
    }
  }
}

/** `--add-identity NAME`: one run, and any sequence of runs that fail at any step and are tried again. */
module AddIdentity {
  import opened Text
  import opened AclMatrix
  import opened AuthConf
  import opened SeedFiles
  import opened Keystore

  datatype State = Noop | Repaired | Added

  datatype Result = Refused | Failed | Reports(state: State)

  /** NAME is declared and active, and every other active identity has its seed. */
  predicate Admitted(m: Matrix, name: string, files: Files) {
    name in ActiveNames(m.identities) && forall n | n in ActiveNames(m.identities) && n != name :: SeedFile(n) in files
  }

  predicate BlockPresent(name: string, files: Files) {
    CONF in files && exists u | u in ParseAuthConf(files[CONF]).users :: u.commentName == name
  }

  /** `_add_identity_detect_state`. */
  function Detect(name: string, files: Files): State {
    if SeedFile(name) in files && BlockPresent(name, files) then Noop
    else if SeedFile(name) in files then Repaired
    else Added
  }

  function Seeded(name: string, seed: string, files: Files): Files { files[SeedFile(name) := SeedText(seed)] }

  function Rendered(m: Matrix, pub: string -> string, files: Files): Files
    requires ValidMatrix(m) && HasSeeds(m, files)
  {
    files[CONF := Rendering(m, pub, files)]
  }

  /** The directory when only `auth.conf` remains to be written. */
  function Ready(name: string, seed: string, files: Files): Files {
    if Detect(name, files) == Added then Seeded(name, seed, files) else files
  }

  lemma ReadyHasSeeds(m: Matrix, name: string, seed: string, files: Files)
    requires Admitted(m, name, files)
    ensures HasSeeds(m, Ready(name, seed, files))
  {
  }

  /** The seeds of the other active identities give keys. */
  predicate OthersValid(m: Matrix, pub: string -> string, name: string, files: Files) {
    KeysValid(pub, ActiveNames(m.identities) - {name}, files)
  }

  predicate AllValid(m: Matrix, pub: string -> string, files: Files) { KeysValid(pub, ActiveNames(m.identities), files) }

  /** What one run may do to the directory; `seed` is what the provider generates. Nothing is written before the other
      identities' keys are there, and `auth.conf` only once all are. */
  predicate Run(m: Matrix, pub: string -> string, name: string, seed: string, before: Files, after: Files, r: Result)
    requires ValidMatrix(m)
  {
    if !Admitted(m, name, before) then after == before && !r.Reports?
    else
      ReadyHasSeeds(m, name, seed, before);
      var state := Detect(name, before);
      var ready := Ready(name, seed, before);
      match r
      case Refused => false
      case Reports(s) =>
        s == state && if state == Noop then after == before else AllValid(m, pub, ready) && after == Rendered(m, pub, ready)
      case Failed =>
        || after == before
        || (state == Added && OthersValid(m, pub, name, before) && (Littered(before, after) || after == ready))
        || (state != Noop && AllValid(m, pub, ready) && (Littered(ready, after) || after == Rendered(m, pub, ready)))
  }

  /** `_add_identity_validate`. */
  method Validate(m: Matrix, name: string, store: Store) returns (ok: bool)
    ensures ok == Admitted(m, name, FilesOf(store.seeds))
  {
    hide ActiveNames, ActiveList;
    if name !in ActiveNames(m.identities) {
      return false;
    }
    var active := ActiveList(m.identities);
    ActiveListNames(m.identities);
    for k := 0 to |active|
      invariant forall n | n in active[..k] && n != name :: SeedFile(n) in FilesOf(store.seeds)
    {
      assert active[..k + 1] == active[..k] + [active[k]];
      if active[k] != name && SeedFile(active[k]) !in FilesOf(store.seeds) {
        assert active[k] in ActiveNames(m.identities);
        return false;
      }
    }
    assert active[..|active|] == active;
    ok := true;
  }

  /** What a run answers that nothing strikes: it refuses, it finds nothing to do, it reports, or a seed gives no key. */
  function Answer(m: Matrix, pub: string -> string, name: string, seed: string, files: Files): Result {
    if !Admitted(m, name, files) then Refused
    else if SeedFile(name) in files && BlockPresent(name, files) then Reports(Noop)
    else if !AllValid(m, pub, Ready(name, seed, files)) then Failed
    else Reports(if SeedFile(name) in files then Repaired else Added)
  }

  lemma AnswerByState(m: Matrix, pub: string -> string, name: string, seed: string, files: Files)
    ensures Answer(m, pub, name, seed, files)
            == if !Admitted(m, name, files) then Refused
               else if Detect(name, files) != Noop && !AllValid(m, pub, Ready(name, seed, files)) then Failed
               else Reports(Detect(name, files))
  {
    hide AllValid, Admitted, BlockPresent, Ready;
  }

  /** What a run leaves that stops at a seed giving no key: the new seed is on disk when the key is its own. */
  function AtBadKey(m: Matrix, pub: string -> string, name: string, seed: string, files: Files): Files {
    if OthersValid(m, pub, name, files) then Ready(name, seed, files) else files
  }

  /** All keys are there when the others' and NAME's own are. */
  lemma ReadyValid(m: Matrix, pub: string -> string, name: string, seed: string, files: Files)
    requires Admitted(m, name, files)
    ensures var ready := Ready(name, seed, files);
            AllValid(m, pub, ready)
            <==> OthersValid(m, pub, name, files) && SeedFile(name) in ready && ValidKey(pub, ready[SeedFile(name)])
  {
    hide ActiveNames, SeedText, BlockPresent, ValidKey;
    var ready := Ready(name, seed, files);
    forall n | n in ActiveNames(m.identities) - {name}
      ensures SeedFile(n) in files && SeedFile(n) in ready && ready[SeedFile(n)] == files[SeedFile(n)]
    {
      SeedFilesDiffer(n, name);
    }
  }

  /** The keys of the other active identities, from their seeds. */
  method OtherKeys(m: Matrix, pub: string -> string, name: string, store: Store, fault: Fault)
    returns (e: Ending, pubkeys: map<string, string>)
    requires Admitted(m, name, FilesOf(store.seeds))
    ensures fault.None? ==> (e == Finished <==> OthersValid(m, pub, name, FilesOf(store.seeds)))
    ensures e == Finished ==> pubkeys.Keys == ActiveNames(m.identities) - {name} && OthersValid(m, pub, name, FilesOf(store.seeds))
    ensures forall n | n in pubkeys ::
              SeedFile(n) in FilesOf(store.seeds) && pubkeys[n] == PubkeyOf(pub, FilesOf(store.seeds)[SeedFile(n)])
  {
    hide ActiveNames, ActiveList, PubkeyOf, SeedFile;
    var active := ActiveList(m.identities);
    ActiveListNames(m.identities);
    pubkeys := map[];
    for k := 0 to |active|
      invariant pubkeys.Keys == (set n | n in active[..k] && n != name)
      invariant forall n | n in pubkeys :: |pubkeys[n]| == KEY_LENGTH
      invariant forall n | n in pubkeys ::
                  SeedFile(n) in FilesOf(store.seeds) && pubkeys[n] == PubkeyOf(pub, FilesOf(store.seeds)[SeedFile(n)])
    {
      assert active[..k + 1] == active[..k] + [active[k]];
      if active[k] != name {
        var here: bool := *;
        if here && fault.Some? {
          return fault.value, pubkeys;
        }
        assert active[k] in active;
        var key;
        here := *;
        e, key := store.PubkeyFromSeed(pub, FilesOf(store.seeds)[SeedFile(active[k])], if here then fault else None);
        if e != Finished {
          return;
        }
        pubkeys := pubkeys[active[k] := key];
      }
    }
    assert active[..|active|] == active;
    assert pubkeys.Keys == ActiveNames(m.identities) - {name};
    e := Finished;
  }

  /** The seed of `_add_identity_write`: the one `gen_seed` answers is written when added, the one on disk read back when
      repaired. */
  method OwnKey(m: Matrix, pub: string -> string, name: string, seed: string, state: State, store: Store, fault: Fault)
    returns (e: Ending, key: string)
    requires state == Detect(name, FilesOf(store.seeds)) && state != Noop
    modifies store`seeds
    ensures SeedFile(name) in Ready(name, seed, old(FilesOf(store.seeds)))
    ensures fault.None? ==>
              (e == Finished <==> ValidKey(pub, Ready(name, seed, old(FilesOf(store.seeds)))[SeedFile(name)]))
    ensures fault.None? || e == Finished ==> FilesOf(store.seeds) == Ready(name, seed, old(FilesOf(store.seeds)))
    ensures e == Finished ==>
              && SeedFile(name) in FilesOf(store.seeds) && key == PubkeyOf(pub, FilesOf(store.seeds)[SeedFile(name)])
              && ValidKey(pub, FilesOf(store.seeds)[SeedFile(name)])
    ensures e != Finished && state == Repaired ==> FilesOf(store.seeds) == old(FilesOf(store.seeds))
    ensures e != Finished && state == Added ==>
              Littered(old(FilesOf(store.seeds)), FilesOf(store.seeds))
              || FilesOf(store.seeds) == Ready(name, seed, old(FilesOf(store.seeds)))
  {
    hide PubkeyOf, SeedFile, SeedText, BlockPresent, IsTemp;
    key := "";
    PubkeyOfText(pub, seed);
    var here: bool := *;
    if here && fault.Some? {
      return fault.value, key;
    }
    var later: bool := *;
    if state == Added {
      SeedNotTemp(name);
      here := *;
      e := store.AtomicWrite(SeedFile(name), SeedText(seed), if here then fault else None);
      if e != Finished {
        return;
      }
      e, key := store.PubkeyFromSeed(pub, seed, if later then fault else None);
    } else {
      e, key := store.PubkeyFromSeed(pub, FilesOf(store.seeds)[SeedFile(name)], if later then fault else None);
    }
  }

  /** The rotation log after a run. */
  function Gain(name: string, logged: bool): seq<LogEntry> {
    if logged then [LogEntry(name, "seed-generated", "factory-acl-add-identity")] else []
  }

  /** Only the run that generates the seed appends to the log, and only after everything is written. */
  predicate MayLog(m: Matrix, pub: string -> string, name: string, seed: string, before: Files, after: Files, r: Result)
    requires ValidMatrix(m)
  {
    && Admitted(m, name, before) && Detect(name, before) == Added && (r == Reports(Added) || r == Failed)
    && AllValid(m, pub, Ready(name, seed, before))
    && (ReadyHasSeeds(m, name, seed, before); after == Rendered(m, pub, Ready(name, seed, before)))
  }

  /** `_add_identity_write`. */
  method Write(m: Matrix, pub: string -> string, name: string, seed: string, state: State, store: Store, fault: Fault)
    returns (e: Ending)
    requires ValidMatrix(m) && Admitted(m, name, FilesOf(store.seeds))
    requires state == Detect(name, FilesOf(store.seeds)) && state != Noop
    modifies store`seeds
    ensures HasSeeds(m, Ready(name, seed, old(FilesOf(store.seeds))))
    ensures fault.None? ==> (e == Finished <==> AllValid(m, pub, Ready(name, seed, old(FilesOf(store.seeds)))))
    ensures e == Finished ==>
              && AllValid(m, pub, Ready(name, seed, old(FilesOf(store.seeds))))
              && FilesOf(store.seeds) == Rendered(m, pub, Ready(name, seed, old(FilesOf(store.seeds))))
    ensures e != Finished ==> Run(m, pub, name, seed, old(FilesOf(store.seeds)), FilesOf(store.seeds), Failed)
    ensures fault.None? && e != Finished ==>
              FilesOf(store.seeds) == AtBadKey(m, pub, name, seed, old(FilesOf(store.seeds)))
  {
    hide PubkeyOf, SeedFile, SeedText, BlockPresent, IsTemp, ConfText, UsersOf, ValidMatrix, ActiveNames, HasKeys, Rendering, ValidKey;
    ghost var before := FilesOf(store.seeds);
    ReadyHasSeeds(m, name, seed, before);
    ReadyValid(m, pub, name, seed, before);
    var here: bool := *;
    var pubkeys;
    e, pubkeys := OtherKeys(m, pub, name, store, if here then fault else None);
    if e != Finished {
      return;
    }
    var key;
    here := *;
    e, key := OwnKey(m, pub, name, seed, state, store, if here then fault else None);
    if e != Finished {
      return;
    }
    pubkeys := pubkeys[name := key];
    KeysReady(m, pub, name, seed, before, pubkeys);
    var content := RenderAuthConf(m, pubkeys);
    ConfNotTemp();
    here := *;
    e := store.AtomicWrite(CONF, content, if here then fault else None);
  }

  /** `_mode_add_identity`; what strikes it, if anything, is `fault`. */
  method AddIdentity(m: Matrix, pub: string -> string, name: string, seed: string, store: Store, fault: Fault)
    returns (r: Result, logged: bool)
    requires ValidMatrix(m)
    modifies store`seeds, store`log
    ensures Run(m, pub, name, seed, old(FilesOf(store.seeds)), FilesOf(store.seeds), r)
    ensures if fault.None? then r == Answer(m, pub, name, seed, old(FilesOf(store.seeds))) else !r.Reports?
    ensures fault.None? && r == Failed ==>
              FilesOf(store.seeds) == AtBadKey(m, pub, name, seed, old(FilesOf(store.seeds)))
    ensures logged ==> MayLog(m, pub, name, seed, old(FilesOf(store.seeds)), FilesOf(store.seeds), r)
    ensures store.log == old(store.log) + Gain(name, logged)
  {
    hide ValidMatrix, AllValid, OthersValid, Admitted, Detect, Rendered, Ready, Littered, HasSeeds, Answer;
    AnswerByState(m, pub, name, seed, FilesOf(store.seeds));
    logged := false;
    var here: bool := *;
    if here && fault.Some? {
      return Failed, logged;
    }
    var ok := Validate(m, name, store);
    if !ok {
      return Refused, logged;
    }
    here := *;
    if here && fault.Some? {
      return Failed, logged;
    }
    var state := Detect(name, FilesOf(store.seeds));
    if state == Noop {
      return if fault.Some? then Failed else Reports(Noop), logged;
    }
    here := *;
    var e := Write(m, pub, name, seed, state, store, if here then fault else None);
    if e != Finished {
      return Failed, logged;
    }
    if state == Added {
      here := *;
      e, logged := store.RotationLogAppend(LogEntry(name, "seed-generated", "factory-acl-add-identity"),
                                           if here then fault else None);
      if e != Finished {
        return Failed, logged;
      }
    }
    r := if fault.Some? then Failed else Reports(state);
  }

  /** The keys gathered are the keys of the seeds on disk, so what is rendered is their rendering. */
  lemma KeysReady(m: Matrix, pub: string -> string, name: string, seed: string, before: Files, pubkeys: map<string, string>)
    requires ValidMatrix(m) && Admitted(m, name, before)
    requires pubkeys.Keys == ActiveNames(m.identities)
    requires SeedFile(name) in Ready(name, seed, before)
    requires pubkeys[name] == PubkeyOf(pub, Ready(name, seed, before)[SeedFile(name)])
    requires forall n | n in pubkeys && n != name :: pubkeys[n] == PubkeyOf(pub, before[SeedFile(n)])
    requires OthersValid(m, pub, name, before) && ValidKey(pub, Ready(name, seed, before)[SeedFile(name)])
    ensures AllValid(m, pub, Ready(name, seed, before))
    ensures HasSeeds(m, Ready(name, seed, before)) && HasKeys(m, pubkeys)
    ensures ConfText(UsersOf(m, pubkeys, m.identities)) == Rendering(m, pub, Ready(name, seed, before))
  {
    hide PubkeyOf, ConfText, UsersOf, ActiveNames, ValidMatrix, SeedText, BlockPresent;
    var ready := Ready(name, seed, before);
    forall n | n in pubkeys
      ensures SeedFile(n) in ready && pubkeys[n] == PubkeyOf(pub, ready[SeedFile(n)]) && ValidKey(pub, ready[SeedFile(n)])
    {
      SeedFilesDiffer(n, name);
    }
    assert KeysOn(m, pub, ready) == pubkeys;
    KeysOnHas(m, pub, ready);
  }
}

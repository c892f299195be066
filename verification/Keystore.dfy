/** `--regenerate` and `--add-identity`: the seeds directory, its backups and the rotation log, changed
    one step at a time. Every step may fail: an exception is raised, or the process is killed. What strikes a method from
    outside is an input of it; where it strikes, and what is half done then, is left open. */
module Keystore {
  import opened Text
  import opened AclMatrix
  import opened AuthConf
  import opened SeedFiles

  datatype LogEntry = LogEntry(secret: string, reason: string, trigger: string)

  /** How a run ended: it finished, an error raised an exception, the operator interrupted it
      (`KeyboardInterrupt`, which may arrive between any two steps), or the process was killed. */
  datatype Ending = Finished | Raised | Interrupted | Killed

  datatype Outcome = Regenerated | BackupFailed | RolledBack(cause: Ending) | RestoreFailed(cause: Ending) | Died

  /** What the modes change. */
  datatype StoreState = StoreState(seeds: Option<Files>, backups: map<nat, Files>, log: seq<LogEntry>)

  function FilesOf(dir: Option<Files>): Files { if dir.Some? then dir.value else map[] }

  /** The names `mkstemp` picks. */
  predicate IsTemp(name: string) { StartsWith(name, "tmp") && '.' !in name }

  /** `after` is `before` with, at most, a temporary file left behind. */
  predicate Littered(before: Files, after: Files) {
    && (forall k | k in before :: k in after && after[k] == before[k])
    && (forall k | k in after && k !in before :: IsTemp(k))
  }

  /** Files outside `written` are as they were. */
  predicate OthersKept(before: Files, after: Files, written: set<string>) {
    forall f | f in before && f !in written :: f in after && after[f] == before[f]
  }

  function Rotations(names: seq<string>): seq<LogEntry> {
    seq(|names|, i requires 0 <= i < |names| => LogEntry(names[i], "seed-generated", "factory-acl-genkeys"))
  }

  /** The entries whose append went through. */
  function Kept(entries: seq<LogEntry>, wrote: seq<bool>): seq<LogEntry>
    requires |entries| == |wrote|
  {
    if entries == [] then []
    else
      var n := |entries| - 1;
      Kept(entries[..n], wrote[..n]) + if wrote[n] then [entries[n]] else []
  }

  /** The active identities' rotations, in order. */
  function AllRotations(m: Matrix): seq<LogEntry> { Rotations(ActiveList(m.identities)) }

  function AllSeedFiles(m: Matrix): set<string> { set n | n in ActiveNames(m.identities) :: SeedFile(n) }

  /** What strikes a method from outside, if anything. */
  type Fault = f: Option<Ending> | f != Some(Finished) witness None

  function EndingOf(f: Fault): Ending { if f.Some? then f.value else Finished }

  /** What `gen_seed` answers for every identity to be provisioned gives a key. */
  predicate SeedsValid(m: Matrix, pub: string -> string, seedOf: string -> string) {
    forall n | n in ActiveNames(m.identities) :: ValidKey(pub, seedOf(n))
  }

  /** The seeds of these identities are the ones `gen_seed` answered. */
  predicate Generated(names: set<string>, seedOf: string -> string, files: Files) {
    forall n | n in names :: SeedFile(n) in files && files[SeedFile(n)] == SeedText(seedOf(n))
  }

  /** How provisioning ends: finished, unless it is struck or some seed gives no key. */
  predicate ProvisionEnds(m: Matrix, pub: string -> string, seedOf: string -> string, fault: Fault, e: Ending) {
    if fault.None? then e == if SeedsValid(m, pub, seedOf) then Finished else Raised
    else e == fault.value || (e == Raised && !SeedsValid(m, pub, seedOf))
  }

  class Store {
    var seeds: Option<Files>
    var backups: map<nat, Files>
    var log: seq<LogEntry>

    function Current(): StoreState
      reads this
    {
      StoreState(seeds, backups, log)
    }

    /** Some name `mkstemp` may pick. */
    method FreshTemp(files: Files) returns (tmp: string)
      ensures IsTemp(tmp) && tmp !in files
    {
      var names := SortedList(files.Keys);
      var n: nat := 0;
      for k := 0 to |names|
        invariant forall i | 0 <= i < k :: |names[i]| <= n
        modifies {}
      {
        n := if |names[k]| > n then |names[k]| else n;
      }
      tmp := "tmp" + seq(n, _ => 'a');
      assert tmp[..3] == "tmp";
      assert forall i | 0 <= i < |names| :: names[i] != tmp;
    }

    /** `atomic_write` into the seeds directory: temporary file, then rename. The handler removes the temporary file
        after an exception, if it can; an interrupt or a kill leaves it. */
    method AtomicWrite(name: string, content: string, fault: Fault) returns (e: Ending)
      requires !IsTemp(name)
      modifies this`seeds
      ensures e == EndingOf(fault)
      ensures e == Finished ==> seeds == Some(FilesOf(old(seeds))[name := content])
      ensures e != Finished ==> Littered(FilesOf(old(seeds)), FilesOf(seeds))
      ensures old(seeds).Some? ==> seeds.Some?
    {
      ghost var before := FilesOf(seeds);
      var early: bool := *;
      if fault.Some? && early {
        return fault.value;
      }
      if seeds.None? {
        seeds := Some(map[]);
      }
      var tmp: string := *;
      if !IsTemp(tmp) || tmp in seeds.value {
        tmp := FreshTemp(seeds.value);
      }
      var partial: string := *;
      seeds := Some(seeds.value[tmp := partial]);
      if fault.Some? {
        var unlinked: bool := *;
        if fault.value == Raised && unlinked {
          seeds := Some(seeds.value - {tmp});
        }
        return fault.value;
      }
      seeds := Some((seeds.value - {tmp})[name := content]);
      assert seeds.value == before[name := content];
      e := Finished;
    }

    /** `pubkey_from_seed`; the key must have 56 characters. */
    method PubkeyFromSeed(pub: string -> string, seed: string, fault: Fault) returns (e: Ending, key: string)
      ensures key == PubkeyOf(pub, seed)
      ensures e == if fault.Some? then fault.value else if ValidKey(pub, seed) then Finished else Raised
      ensures e == Finished ==> |key| == 56
    {
      key := PubkeyOf(pub, seed);
      e := if fault.Some? then fault.value else if |key| == KEY_LENGTH then Finished else Raised;
    }

    /** The shell bridge swallows operating-system errors and timeouts, and drops the line; anything else it raises
        escapes, whether or not the line was written. */
    method RotationLogAppend(entry: LogEntry, fault: Fault) returns (e: Ending, wrote: bool)
      modifies this`log
      ensures e == EndingOf(fault)
      ensures log == if wrote then old(log) + [entry] else old(log)
    {
      wrote := *;
      if wrote {
        log := log + [entry];
      }
      e := EndingOf(fault);
    }

    /** The seed loop of `_mode_full_provision`. */
    method ProvisionSeeds(active: seq<string>, pub: string -> string, seedOf: string -> string, fault: Fault)
      returns (e: Ending, pubkeys: map<string, string>, pending: seq<LogEntry>)
      requires seeds.Some?
      modifies this`seeds
      ensures seeds.Some?
      ensures fault.None? ==> e == if forall n | n in active :: ValidKey(pub, seedOf(n)) then Finished else Raised
      ensures fault.Some? && e != Finished ==> e == fault.value || (e == Raised && exists n :: n in active && !ValidKey(pub, seedOf(n)))
      ensures e == Finished ==>
                && SeedsDone(active, pub, seedOf, pubkeys, old(seeds.value), seeds.value) && pending == Rotations(active)
    {
      hide PubkeyOf, SeedFile, SeedText, IsTemp, EndsWith, StartsWith, ValidKey, SeedsDone;
      pubkeys, pending := map[], [];
      NoSeedsDone(pub, seedOf, seeds.value);
      for k := 0 to |active|
        invariant seeds.Some? && pending == Rotations(active[..k])
        invariant SeedsDone(active[..k], pub, seedOf, pubkeys, old(seeds.value), seeds.value)
      {
        var name := active[k];
        assert name in active && active[..k + 1] == active[..k] + [name];
        var here: bool := *;
        if here && fault.Some? {
          return fault.value, pubkeys, pending;
        }
        SeedNotTemp(name);
        here := *;
        ghost var files := seeds.value;
        e := AtomicWrite(SeedFile(name), SeedText(seedOf(name)), if here then fault else None);
        if e != Finished {
          return;
        }
        var key;
        here := *;
        e, key := PubkeyFromSeed(pub, seedOf(name), if here then fault else None);
        if e != Finished {
          return;
        }
        SeedStep(active[..k], name, pub, seedOf, pubkeys, old(seeds.value), files);
        pubkeys := pubkeys[name := key];
        pending := pending + [LogEntry(name, "seed-generated", "factory-acl-genkeys")];
      }
      assert active[..|active|] == active;
      DoneValid(active, pub, seedOf, pubkeys, old(seeds.value), seeds.value);
      e := Finished;
    }

    /** The flush point: one append per pending entry, until one raises. */
    method Flush(pending: seq<LogEntry>, fault: Fault) returns (e: Ending, wrote: seq<bool>)
      modifies this`log
      ensures e == EndingOf(fault)
      ensures |wrote| <= |pending| && log == old(log) + Kept(pending[..|wrote|], wrote)
      ensures e == Finished ==> |wrote| == |pending|
    {
      hide Kept;
      wrote := [];
      NoneKept(log, pending);
      for k := 0 to |pending|
        invariant |wrote| == k && log == old(log) + Kept(pending[..k], wrote)
      {
        var here: bool := *;
        var w;
        KeptSnoc(old(log), pending, wrote, false);
        KeptSnoc(old(log), pending, wrote, true);
        e, w := RotationLogAppend(pending[k], if here then fault else None);
        wrote := wrote + [w];
        if e != Finished {
          return;
        }
      }
      e := EndingOf(fault);
    }

    /** `_mode_full_provision` up to the flush point. */
    method ProvisionFiles(m: Matrix, pub: string -> string, seedOf: string -> string, fault: Fault)
      returns (e: Ending, pending: seq<LogEntry>)
      requires ValidMatrix(m)
      modifies this`seeds
      ensures ProvisionEnds(m, pub, seedOf, fault, e)
      ensures e == Finished ==>
                && pending == AllRotations(m) && seeds.Some? && InPlace(m, pub, FilesOf(old(seeds)), seeds.value)
                && Generated(ActiveNames(m.identities), seedOf, seeds.value)
    {
      hide PubkeyOf, SeedFile, IsTemp, ConfText, UsersOf, ValidMatrix, InPlace, ActiveList, HasKeys, OthersKept, ValidKey, Generated;
      hide ActiveNames;
      var active := ActiveList(m.identities);
      ActiveListNames(m.identities);
      pending := [];
      var here: bool := *;
      if here && fault.Some? {
        return fault.value, pending;
      }
      if seeds.None? {
        seeds := Some(map[]);
      }
      here := *;
      var pubkeys;
      e, pubkeys, pending := ProvisionSeeds(active, pub, seedOf, if here then fault else None);
      if e != Finished {
        return;
      }
      SeedsWritten(m, pub, seedOf, pubkeys, FilesOf(old(seeds)), seeds.value);
      var content := RenderAuthConf(m, pubkeys);
      ConfNotTemp();
      here := *;
      e := AtomicWrite(CONF, content, if here then fault else None);
      if e != Finished {
        return;
      }
      e := EndingOf(fault);
    }

    /** `_mode_full_provision`; `flushing` says that the flush point was reached. */
    method FullProvision(m: Matrix, pub: string -> string, seedOf: string -> string, fault: Fault)
      returns (e: Ending, flushing: bool, wrote: seq<bool>)
      requires ValidMatrix(m)
      modifies this`seeds, this`log
      ensures ProvisionEnds(m, pub, seedOf, fault, e)
      ensures ProvisionStep(m, pub, seedOf, old(Current()), Current(), e, flushing, wrote)
    {
      hide ValidMatrix, InPlace, Kept, Rotations, ActiveList, Generated, SeedsValid;
      flushing, wrote := false, [];
      NoneKept(log, AllRotations(m));
      var here: bool := *;
      var pending;
      e, pending := ProvisionFiles(m, pub, seedOf, if here then fault else None);
      if e != Finished {
        return;
      }
      flushing := true;
      e, wrote := Flush(pending, fault);
    }

    /** `_backup_seeds`: copy the directory aside, then delete it. Nothing of it is inside the rollback, so an interrupt
        that comes before the `try` leaves no directory. */
    method BackupSeeds(epoch: nat, fault: Fault) returns (ok: bool)
      modifies this`seeds, this`backups
      ensures ok <==> fault.None? && (old(seeds).Some? ==> epoch !in old(backups))
      ensures BackupStep(epoch, old(Current()), Current(), ok)
    {
      var here: bool := *;
      if here && fault.Some? {
        return false;
      }
      if seeds.None? {
        return fault.None?;
      }
      if epoch in backups {
        return false;
      }
      var part: set<string> := *;
      here := *;
      if here && fault.Some? {
        backups := backups[epoch := map k | k in seeds.value && k in part :: seeds.value[k]];
        return false;
      }
      backups := backups[epoch := seeds.value];
      here := *;
      if here && fault.Some? {
        seeds := Some(map k | k in seeds.value && k in part :: seeds.value[k]);
        return false;
      }
      seeds := None;
      ok := fault.None?;
    }

    /** `_restore_on_failure`: wipe whatever is there, then copy the backup back in. */
    method RestoreOnFailure(backup: Option<nat>, fault: Fault) returns (ok: bool)
      modifies this`seeds
      ensures ok <==> fault.None? || backup.None? || backup.value !in backups
      ensures RestoreStep(backup, old(Current()), Current(), ok)
    {
      if backup.None? || backup.value !in backups {
        return true;
      }
      var part: set<string> := *;
      var here: bool := *;
      if seeds.Some? {
        if here && fault.Some? {
          seeds := Some(map k | k in seeds.value && k in part :: seeds.value[k]);
          return false;
        }
        seeds := None;
      }
      if fault.Some? {
        seeds := if here then None else Some(map k | k in backups[backup.value] && k in part :: backups[backup.value][k]);
        return false;
      }
      seeds := Some(backups[backup.value]);
      ok := true;
    }

    /** `_mode_regenerate`, once confirmed; `e` is how provisioning ended. A kill runs no handler. What strikes the
        backup, the provisioning and the restoring decides the outcome. */
    method Regenerate(epoch: nat, m: Matrix, pub: string -> string, seedOf: string -> string, atBackup: Fault, fault: Fault,
                      atRestore: Fault)
      returns (o: Outcome, e: Ending, flushing: bool, wrote: seq<bool>, ghost mid: StoreState, ghost late: StoreState)
      requires ValidMatrix(m)
      modifies this
      ensures RegenerateRun(epoch, m, pub, seedOf, old(Current()), mid, late, Current(), o, flushing, wrote)
      ensures o == OutcomeOf(atBackup.None? && (old(seeds).Some? ==> epoch !in old(backups)), e,
                             atRestore.None? || old(seeds).None?)
      ensures !o.BackupFailed? ==> ProvisionEnds(m, pub, seedOf, fault, e)
      ensures old(seeds).Some? && !o.BackupFailed? && e != Finished && fault != Some(Killed) && atRestore.None? ==> seeds == old(seeds)
    {
      hide BackupStep, ProvisionStep, RestoreStep, ValidMatrix, SeedsValid;
      flushing, wrote, e := false, [], Finished;
      var backup := if seeds.Some? then Some(epoch) else None;
      var ok := BackupSeeds(epoch, atBackup);
      mid, late := Current(), Current();
      if !ok {
        return BackupFailed, e, flushing, wrote, mid, late;
      }
      BackedUp(epoch, old(Current()), mid);
      e, flushing, wrote := FullProvision(m, pub, seedOf, fault);
      late := Current();
      BackupsKept(m, pub, seedOf, mid, late, e, flushing, wrote);
      if e == Killed {
        return Died, e, flushing, wrote, mid, late;
      }
      if e == Finished {
        return Regenerated, e, flushing, wrote, mid, late;
      }
      ok := RestoreOnFailure(backup, atRestore);
      o := if ok then RolledBack(e) else RestoreFailed(e);
      if backup.Some? && ok {
        RestoredExactly(epoch, old(Current()), mid, late, Current());
      }
    }
  }

  /** The outcome of a run: `backedUp` and `restored` say that nothing struck the backup and the restoring. */
  function OutcomeOf(backedUp: bool, e: Ending, restored: bool): Outcome {
    if !backedUp then BackupFailed
    else if e == Finished then Regenerated
    else if e == Killed then Died
    else if restored then RolledBack(e)
    else RestoreFailed(e)
  }

  lemma BackedUp(epoch: nat, before: StoreState, mid: StoreState)
    requires BackupStep(epoch, before, mid, true)
    ensures before.seeds.Some? ==> epoch in mid.backups && mid.backups[epoch] == before.seeds.value
  {
  }

  lemma BackupsKept(m: Matrix, pub: string -> string, seedOf: string -> string, mid: StoreState, late: StoreState, e: Ending,
                    flushing: bool, wrote: seq<bool>)
    requires ValidMatrix(m) && ProvisionStep(m, pub, seedOf, mid, late, e, flushing, wrote)
    ensures late.backups == mid.backups
  {
  }

  lemma RestoredExactly(epoch: nat, before: StoreState, mid: StoreState, late: StoreState, after: StoreState)
    requires before.seeds.Some? && epoch in late.backups && late.backups[epoch] == before.seeds.value
    requires RestoreStep(Some(epoch), late, after, true)
    ensures after.seeds == before.seeds
  {
  }

  // ---------------------------------------------------------------------------------------------
  // The steps of `--regenerate`, as relations between states
  // ---------------------------------------------------------------------------------------------

  /** The directory is gone and complete in the backup; or the old contents are still in one of the two places, and what
      is left of the directory is a part of them. */
  predicate BackupStep(epoch: nat, before: StoreState, after: StoreState, ok: bool) {
    && after.log == before.log
    && (forall k | k in before.backups :: k in after.backups && after.backups[k] == before.backups[k])
    && if ok then
         && after.seeds.None? && (before.seeds.Some? ==> epoch !in before.backups)
         && after.backups == if before.seeds.Some? then before.backups[epoch := before.seeds.value] else before.backups
       else
         after.seeds == before.seeds
         || (before.seeds.Some? && epoch in after.backups && after.backups[epoch] == before.seeds.value
             && forall k | k in FilesOf(after.seeds) :: k in before.seeds.value && after.seeds.value[k] == before.seeds.value[k])
  }

  /** Every seed is in place and gives a key, `auth.conf` is their rendering, and nothing else has changed. */
  predicate InPlace(m: Matrix, pub: string -> string, before: Files, after: Files)
    requires ValidMatrix(m)
  {
    && Provisioned(m, pub, after) && KeysValid(pub, ActiveNames(m.identities), after)
    && after.Keys == before.Keys + AllSeedFiles(m) + {CONF}
    && OthersKept(before, after, AllSeedFiles(m) + {CONF})
  }

  /** The log grows only once every seed and `auth.conf` are in place. */
  predicate ProvisionStep(m: Matrix, pub: string -> string, seedOf: string -> string, before: StoreState, after: StoreState,
                          e: Ending, flushing: bool, wrote: seq<bool>)
    requires ValidMatrix(m)
  {
    && after.backups == before.backups
    && |wrote| <= |AllRotations(m)| && after.log == before.log + Kept(AllRotations(m)[..|wrote|], wrote)
    && (!flushing ==> e != Finished && wrote == [] && after.log == before.log)
    && (e == Finished ==> |wrote| == |AllRotations(m)|)
    && (flushing ==>
          && after.seeds.Some? && InPlace(m, pub, FilesOf(before.seeds), after.seeds.value)
          && Generated(ActiveNames(m.identities), seedOf, after.seeds.value))
  }

  /** A completed restore leaves exactly the backup. */
  predicate RestoreStep(backup: Option<nat>, before: StoreState, after: StoreState, ok: bool) {
    && after.log == before.log && after.backups == before.backups
    && if backup.None? || backup.value !in before.backups then ok && after == before
       else ok ==> after.seeds == Some(before.backups[backup.value])
  }

  /** The seeds of `done` are the generated ones, `pubkeys` are their keys, and nothing else has changed. */
  ghost predicate SeedsDone(done: seq<string>, pub: string -> string, seedOf: string -> string, pubkeys: map<string, string>,
                            before: Files, files: Files)
  {
    && (forall n :: n in pubkeys <==> n in done)
    && (forall n | n in done :: ValidKey(pub, seedOf(n)) && pubkeys[n] == PubkeyOf(pub, seedOf(n)))
    && (forall n | n in done :: SeedFile(n) in files && files[SeedFile(n)] == SeedText(seedOf(n)))
    && files.Keys == before.Keys + (set n | n in done :: SeedFile(n))
    && OthersKept(before, files, set n | n in done :: SeedFile(n))
  }

  lemma NoSeedsDone(pub: string -> string, seedOf: string -> string, files: Files)
    ensures SeedsDone([], pub, seedOf, map[], files, files)
  {
  }

  lemma DoneValid(done: seq<string>, pub: string -> string, seedOf: string -> string, pubkeys: map<string, string>,
                  before: Files, files: Files)
    requires SeedsDone(done, pub, seedOf, pubkeys, before, files)
    ensures forall n | n in done :: ValidKey(pub, seedOf(n))
  {
  }

  lemma SeedStep(done: seq<string>, name: string, pub: string -> string, seedOf: string -> string,
                 pubkeys: map<string, string>, before: Files, files: Files)
    requires SeedsDone(done, pub, seedOf, pubkeys, before, files) && ValidKey(pub, seedOf(name))
    ensures SeedsDone(done + [name], pub, seedOf, pubkeys[name := PubkeyOf(pub, seedOf(name))], before,
                      files[SeedFile(name) := SeedText(seedOf(name))])
  {
    hide PubkeyOf, SeedFile, SeedText, ValidKey, OthersKept;
    SeedNames(done, name);
    FilesStep(before, files, set n | n in done :: SeedFile(n), SeedFile(name), SeedText(seedOf(name)));
    SeedTexts(done, name, seedOf, files);
    SeedKeys(done, name, pub, seedOf, pubkeys);
  }

  lemma SeedKeys(done: seq<string>, name: string, pub: string -> string, seedOf: string -> string, pubkeys: map<string, string>)
    requires forall n :: n in pubkeys <==> n in done
    requires forall n | n in done :: ValidKey(pub, seedOf(n)) && pubkeys[n] == PubkeyOf(pub, seedOf(n))
    requires ValidKey(pub, seedOf(name))
    ensures var keys := pubkeys[name := PubkeyOf(pub, seedOf(name))];
            && (forall n :: n in keys <==> n in done + [name])
            && forall n | n in done + [name] :: ValidKey(pub, seedOf(n)) && keys[n] == PubkeyOf(pub, seedOf(n))
  {
    hide PubkeyOf, ValidKey;
  }

  lemma SeedTexts(done: seq<string>, name: string, seedOf: string -> string, files: Files)
    requires forall n | n in done :: SeedFile(n) in files && files[SeedFile(n)] == SeedText(seedOf(n))
    ensures var after := files[SeedFile(name) := SeedText(seedOf(name))];
            forall n | n in done + [name] :: SeedFile(n) in after && after[SeedFile(n)] == SeedText(seedOf(n))
  {
    hide SeedFile, SeedText;
    forall n | n in done
      ensures SeedFile(n) == SeedFile(name) ==> n == name
    {
      SeedFilesDiffer(n, name);
    }
  }

  lemma FilesStep(before: Files, files: Files, written: set<string>, f: string, text: string)
    requires files.Keys == before.Keys + written && OthersKept(before, files, written)
    ensures files[f := text].Keys == before.Keys + (written + {f}) && OthersKept(before, files[f := text], written + {f})
  {
  }

  lemma SeedNames(done: seq<string>, name: string)
    ensures (set n | n in done + [name] :: SeedFile(n)) == (set n | n in done :: SeedFile(n)) + {SeedFile(name)}
  {
    hide SeedFile;
    assert forall n | n in done :: n in done + [name];
    assert name in done + [name];
  }

  /** All seeds written and their keys gathered, the rendered configuration completes the directory. */
  lemma SeedsWritten(m: Matrix, pub: string -> string, seedOf: string -> string, pubkeys: map<string, string>, before: Files,
                     seeds: Files)
    requires ValidMatrix(m) && SeedsDone(ActiveList(m.identities), pub, seedOf, pubkeys, before, seeds)
    ensures HasKeys(m, pubkeys)
    ensures var after := seeds[CONF := ConfText(UsersOf(m, pubkeys, m.identities))];
            InPlace(m, pub, before, after) && Generated(ActiveNames(m.identities), seedOf, after)
  {
    hide Provisioned, InPlace, KeysValid, Generated, ConfText, UsersOf, ValidMatrix, SeedsDone, ActiveList, ActiveNames, OthersKept;
    SeedsAre(m, pub, seedOf, pubkeys, before, seeds);
    WriteConf(m, pub, seeds, pubkeys);
    ConfPlaces(m, pub, seedOf, before, seeds, ConfText(UsersOf(m, pubkeys, m.identities)));
  }

  lemma SeedsAre(m: Matrix, pub: string -> string, seedOf: string -> string, pubkeys: map<string, string>, before: Files,
                 seeds: Files)
    requires SeedsDone(ActiveList(m.identities), pub, seedOf, pubkeys, before, seeds)
    ensures pubkeys.Keys == ActiveNames(m.identities)
    ensures forall n | n in pubkeys :: SeedFile(n) in seeds && pubkeys[n] == PubkeyOf(pub, seeds[SeedFile(n)])
    ensures Generated(ActiveNames(m.identities), seedOf, seeds) && KeysValid(pub, ActiveNames(m.identities), seeds)
    ensures seeds.Keys == before.Keys + AllSeedFiles(m) && OthersKept(before, seeds, AllSeedFiles(m))
  {
    hide PubkeyOf, SeedFile, SeedText, ActiveNames, ActiveList;
    ActiveListNames(m.identities);
    forall n | n in ActiveList(m.identities)
      ensures PubkeyOf(pub, SeedText(seedOf(n))) == PubkeyOf(pub, seedOf(n))
    {
      PubkeyOfText(pub, seedOf(n));
    }
    assert AllSeedFiles(m) == (set n | n in ActiveList(m.identities) :: SeedFile(n));
  }

  lemma ConfPlaces(m: Matrix, pub: string -> string, seedOf: string -> string, before: Files, seeds: Files, conf: string)
    requires ValidMatrix(m) && Provisioned(m, pub, seeds[CONF := conf])
    requires Generated(ActiveNames(m.identities), seedOf, seeds) && KeysValid(pub, ActiveNames(m.identities), seeds)
    requires seeds.Keys == before.Keys + AllSeedFiles(m) && OthersKept(before, seeds, AllSeedFiles(m))
    ensures InPlace(m, pub, before, seeds[CONF := conf]) && Generated(ActiveNames(m.identities), seedOf, seeds[CONF := conf])
  {
    hide ValidMatrix, Provisioned, AllSeedFiles, ActiveNames, SeedFile, SeedText, ValidKey;
    forall n | n in ActiveNames(m.identities)
      ensures SeedFile(n) != CONF
    {
      SeedFilesDiffer(n, n);
    }
  }

  /** A run: backup, provisioning, and the handler, which a kill skips. */
  predicate RegenerateRun(epoch: nat, m: Matrix, pub: string -> string, seedOf: string -> string, before: StoreState,
                          mid: StoreState, late: StoreState, after: StoreState, o: Outcome, flushing: bool, wrote: seq<bool>)
    requires ValidMatrix(m)
  {
    var backup := if before.seeds.Some? then Some(epoch) else None;
    match o
    case BackupFailed => BackupStep(epoch, before, after, false) && !flushing && wrote == []
    case Regenerated =>
      BackupStep(epoch, before, mid, true) && ProvisionStep(m, pub, seedOf, mid, late, Finished, flushing, wrote) && after == late
    case Died =>
      BackupStep(epoch, before, mid, true) && ProvisionStep(m, pub, seedOf, mid, late, Killed, flushing, wrote) && after == late
    case RolledBack(cause) =>
      && cause != Finished && cause != Killed
      && BackupStep(epoch, before, mid, true) && ProvisionStep(m, pub, seedOf, mid, late, cause, flushing, wrote)
      && RestoreStep(backup, late, after, true)
    case RestoreFailed(cause) =>
      && cause != Finished && cause != Killed
      && BackupStep(epoch, before, mid, true) && ProvisionStep(m, pub, seedOf, mid, late, cause, flushing, wrote)
      && RestoreStep(backup, late, after, false)
  }

  lemma NoneKept(log: seq<LogEntry>, entries: seq<LogEntry>)
    ensures log + Kept(entries[..0], []) == log
  {
  }

  lemma KeptSnoc(log: seq<LogEntry>, entries: seq<LogEntry>, wrote: seq<bool>, w: bool)
    requires |wrote| < |entries|
    ensures var k := |wrote|;
            log + Kept(entries[..k + 1], wrote + [w])
            == if w then log + Kept(entries[..k], wrote) + [entries[k]] else log + Kept(entries[..k], wrote)
  {
    KeptOneMore(entries, wrote, w);
    hide Kept;
    var k := |wrote|;
    var kept := Kept(entries[..k], wrote);
    assert log + (kept + [entries[k]]) == log + kept + [entries[k]] && kept + [] == kept;
  }

  lemma KeptOneMore(entries: seq<LogEntry>, wrote: seq<bool>, w: bool)
    requires |wrote| < |entries|
    ensures var k := |wrote|;
            Kept(entries[..k + 1], wrote + [w]) == Kept(entries[..k], wrote) + if w then [entries[k]] else []
  {
    var k := |wrote|;
    assert entries[..k + 1][..k] == entries[..k] && (wrote + [w])[..k] == wrote;
  }

  lemma SeedNotTemp(name: string)
    ensures !IsTemp(SeedFile(name))
  {
    var f := SeedFile(name);
    assert f[|name|] == '.';
  }

  lemma ConfNotTemp()
    ensures !IsTemp(CONF)
  {
    assert CONF[4] == '.';
  }

  /** When no append was dropped, the log gained exactly one entry per identity, in order. */
  lemma {:induction false} KeptAll(entries: seq<LogEntry>, wrote: seq<bool>)
    requires |entries| == |wrote| && forall k | 0 <= k < |wrote| :: wrote[k]
    ensures Kept(entries, wrote) == entries
  {
    if entries != [] {
      var n := |entries| - 1;
      KeptAll(entries[..n], wrote[..n]);
      assert entries == entries[..n] + [entries[n]];
    }
  }
}

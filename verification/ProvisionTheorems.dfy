/** What provisioning guarantees: the keys in `auth.conf` after a regeneration, and recovery of
    `--add-identity` from a failure at any step. */
module ProvisionTheorems {
  import opened Text
  import opened AclMatrix
  import opened AuthConf
  import opened AuthConfBlocks
  import opened AuthConfRoundTrip
  import opened AuthConfTheorems
  import opened SeedFiles
  import opened Keystore
  import opened AddIdentity

  /** Active names and effective grants free of structural characters, and keys too. */
  ghost predicate SafeSetup(m: Matrix, pub: string -> string)
    requires ValidMatrix(m)
  {
    && (forall s :: pub(s) != "" && Safe(pub(s)))
    && forall e | e in m.identities && e.id.status == Active ::
         && e.name != "" && Safe(e.name)
         && (forall g | g in Effective(m, e, Publish) :: Safe(g)) && (forall g | g in Effective(m, e, Subscribe) :: Safe(g))
  }

  lemma {:induction false} SafeUsers(m: Matrix, pub: string -> string, files: Files, es: seq<Entry>)
    requires ValidMatrix(m) && HasSeeds(m, files) && HasKeys(m, KeysOn(m, pub, files)) && SafeSetup(m, pub)
    requires forall e | e in es :: e in m.identities
    ensures forall u | u in UsersOf(m, KeysOn(m, pub, files), es) :: SafeUser(u)
  {
    hide Effective, ValidMatrix, ActiveNames, Safe, Trim, HasSeeds;
    if es != [] {
      var n := |es| - 1;
      SafeUsers(m, pub, files, es[..n]);
      assert es[n] in es;
    }
  }

  /** In a provisioned directory, the parsed `auth.conf` names every active identity with the public key of
      its seed on disk, and nobody else. */
  lemma KeysMatchSeeds(m: Matrix, pub: string -> string, files: Files)
    requires ValidMatrix(m) && SafeSetup(m, pub) && Provisioned(m, pub, files)
    ensures var users := ParseAuthConf(files[CONF]).users;
            && (forall e | e in m.identities && e.id.status == Active ::
                  exists i | 0 <= i < |users| ::
                    users[i].commentName == e.name && users[i].nkey == PubkeyOf(pub, files[SeedFile(e.name)]))
            && (forall u | u in users ::
                  u.commentName in ActiveNames(m.identities) && u.nkey == PubkeyOf(pub, files[SeedFile(u.commentName)]))
  {
    hide ConfText, ParseAuthConf, ValidMatrix, PubkeyOf, SafeSetup, SafeUser, Effective;
    KeysOnHas(m, pub, files);
    var keys := KeysOn(m, pub, files);
    var us := UsersOf(m, keys, m.identities);
    SafeUsers(m, pub, files, m.identities);
    UsersRoundTrip(us);
    var users := ParseAuthConf(files[CONF]).users;
    assert users == ExpectedAll(us);
    forall e | e in m.identities && e.id.status == Active
      ensures exists i | 0 <= i < |users| ::
                users[i].commentName == e.name && users[i].nkey == PubkeyOf(pub, files[SeedFile(e.name)])
    {
      var i := UserAt(m, keys, m.identities, e);
      assert users[i] == Expected(us[i]);
    }
    UsersHaveKeys(m, keys, m.identities);
  }

  lemma {:induction false} UsersHaveKeys(m: Matrix, keys: map<string, string>, es: seq<Entry>)
    requires ValidMatrix(m) && HasKeys(m, keys) && forall e | e in es :: e in m.identities
    ensures forall u | u in UsersOf(m, keys, es) :: u.name in ActiveNames(m.identities) && u.name in keys && u.key == keys[u.name]
  {
    hide Effective, ValidMatrix;
    if es != [] {
      var n := |es| - 1;
      UsersHaveKeys(m, keys, es[..n]);
      assert es[n] in es;
    }
  }

  /** A provisioned directory needs no further run. */
  lemma ProvisionedIsNoop(m: Matrix, pub: string -> string, name: string, files: Files)
    requires ValidMatrix(m) && SafeSetup(m, pub) && Provisioned(m, pub, files) && name in ActiveNames(m.identities)
    ensures Detect(name, files) == Noop
  {
    hide ParseAuthConf, ValidMatrix, PubkeyOf, SafeSetup, Rendering;
    KeysMatchSeeds(m, pub, files);
    var e :| e in m.identities && e.id.status == Active && e.name == name;
    var users := ParseAuthConf(files[CONF]).users;
    var i :| 0 <= i < |users| && users[i].commentName == e.name;
    assert users[i] in users;
  }

  // ---------------------------------------------------------------------------------------------
  // Single runs
  // ---------------------------------------------------------------------------------------------

  /** No run touches another file, and NAME's seed is never replaced. */
  lemma RunKeeps(m: Matrix, pub: string -> string, name: string, seed: string, before: Files, after: Files, r: Result)
    requires ValidMatrix(m) && Run(m, pub, name, seed, before, after, r)
    ensures forall f | f in before && f != CONF :: f in after && after[f] == before[f]
    ensures forall f | f in after && f !in before :: f == CONF || f == SeedFile(name) || IsTemp(f)
  {
    hide ActiveNames, ValidMatrix, BlockPresent, Rendering, SeedText, IsTemp;
    if Admitted(m, name, before) {
      ReadyHasSeeds(m, name, seed, before);
    }
  }

  /** NAME's block is absent, or `auth.conf` is already the rendering of the seeds on disk. */
  predicate Recoverable(m: Matrix, pub: string -> string, name: string, files: Files)
    requires ValidMatrix(m)
  {
    !BlockPresent(name, files) || Provisioned(m, pub, files)
  }

  lemma LitterKeeps(m: Matrix, pub: string -> string, name: string, before: Files, after: Files)
    requires ValidMatrix(m) && Admitted(m, name, before) && Littered(before, after)
    ensures Admitted(m, name, after)
    ensures BlockPresent(name, after) == BlockPresent(name, before)
    ensures SeedFile(name) in after <==> SeedFile(name) in before
    ensures Provisioned(m, pub, before) ==> Provisioned(m, pub, after)
  {
    hide ActiveNames, ValidMatrix, ParseAuthConf, IsTemp, Rendering;
    SeedNotTemp(name);
    ConfNotTemp();
    if Provisioned(m, pub, before) {
      SameSeedsSameRendering(m, pub, before, after);
    }
  }

  lemma RenderedIsProvisioned(m: Matrix, pub: string -> string, files: Files)
    requires ValidMatrix(m) && HasSeeds(m, files)
    ensures Provisioned(m, pub, Rendered(m, pub, files))
  {
    hide ActiveNames, ValidMatrix, Rendering;
    var after := Rendered(m, pub, files);
    forall name | name in ActiveNames(m.identities)
      ensures SeedFile(name) in after && after[SeedFile(name)] == files[SeedFile(name)]
    {
      SeedFilesDiffer(name, name);
    }
    SameSeedsSameRendering(m, pub, files, after);
  }

  lemma SeededKeepsConf(name: string, seed: string, files: Files)
    ensures BlockPresent(name, Seeded(name, seed, files)) == BlockPresent(name, files)
  {
    SeedFilesDiffer(name, name);
    hide ParseAuthConf;
  }

  lemma ReadyRecoverable(m: Matrix, pub: string -> string, name: string, seed: string, files: Files)
    requires ValidMatrix(m) && Admitted(m, name, files) && Recoverable(m, pub, name, files)
    ensures Admitted(m, name, Ready(name, seed, files)) && Recoverable(m, pub, name, Ready(name, seed, files))
  {
    hide ValidMatrix, BlockPresent, Rendering, SeedText;
    if Detect(name, files) == Added {
      SeededKeepsConf(name, seed, files);
    }
  }

  /** Every run keeps the directory recoverable, and a run that reports leaves it provisioned. */
  lemma RunRecovers(m: Matrix, pub: string -> string, name: string, seed: string, before: Files, after: Files, r: Result)
    requires ValidMatrix(m) && Run(m, pub, name, seed, before, after, r)
    requires Admitted(m, name, before) && Recoverable(m, pub, name, before)
    ensures Admitted(m, name, after) && Recoverable(m, pub, name, after)
    ensures r.Reports? ==> Provisioned(m, pub, after)
  {
    hide *;
    ReadyHasSeeds(m, name, seed, before);
    ReadyRecoverable(m, pub, name, seed, before);
    var ready := Ready(name, seed, before);
    RenderedRecovers(m, pub, name, ready);
    RunCases(m, pub, name, seed, before, after, r);
    if r == Reports(Noop) {
      NoopIsProvisioned(m, pub, name, before);
    } else if Littered(before, after) {
      LitterRecovers(m, pub, name, before, after);
    } else if Littered(ready, after) {
      LitterRecovers(m, pub, name, ready, after);
    }
  }

  lemma RunCases(m: Matrix, pub: string -> string, name: string, seed: string, before: Files, after: Files, r: Result)
    requires ValidMatrix(m) && Run(m, pub, name, seed, before, after, r) && Admitted(m, name, before)
    ensures var ready := Ready(name, seed, before);
            && HasSeeds(m, ready) && (r == Reports(Noop) ==> after == before && Detect(name, before) == Noop)
            && (|| (after == before && (r.Reports? ==> r == Reports(Noop)))
                || after == Rendered(m, pub, ready)
                || (!r.Reports? && (Littered(before, after) || Littered(ready, after))))
  {
    ReadyHasSeeds(m, name, seed, before);
    assert Littered(Ready(name, seed, before), Ready(name, seed, before));
    hide ValidMatrix, Rendered, Ready, HasSeeds, Littered, Admitted, Detect, AllValid, OthersValid;
  }

  lemma NoopIsProvisioned(m: Matrix, pub: string -> string, name: string, files: Files)
    requires ValidMatrix(m) && Recoverable(m, pub, name, files) && Detect(name, files) == Noop
    ensures Provisioned(m, pub, files)
  {
    hide ValidMatrix, BlockPresent, Provisioned;
  }

  lemma LitterRecovers(m: Matrix, pub: string -> string, name: string, before: Files, after: Files)
    requires ValidMatrix(m) && Admitted(m, name, before) && Littered(before, after) && Recoverable(m, pub, name, before)
    ensures Admitted(m, name, after) && Recoverable(m, pub, name, after)
  {
    hide ValidMatrix, BlockPresent, Provisioned, Littered, Admitted;
    LitterKeeps(m, pub, name, before, after);
  }

  lemma RenderedRecovers(m: Matrix, pub: string -> string, name: string, files: Files)
    requires ValidMatrix(m) && HasSeeds(m, files) && Admitted(m, name, files)
    ensures var after := Rendered(m, pub, files);
            Admitted(m, name, after) && Recoverable(m, pub, name, after) && Provisioned(m, pub, after)
  {
    RenderedIsProvisioned(m, pub, files);
    hide ValidMatrix, BlockPresent, Provisioned, ActiveNames, Rendering;
  }

  // ---------------------------------------------------------------------------------------------
  // Sequences of runs
  // ---------------------------------------------------------------------------------------------

  datatype Step = Step(seed: string, after: Files, r: Result, logged: bool)

  predicate Runs(m: Matrix, pub: string -> string, name: string, start: Files, steps: seq<Step>)
    requires ValidMatrix(m)
    decreases |steps|
  {
    steps == []
    || (Run(m, pub, name, steps[0].seed, start, steps[0].after, steps[0].r)
        && (steps[0].logged ==> MayLog(m, pub, name, steps[0].seed, start, steps[0].after, steps[0].r))
        && Runs(m, pub, name, steps[0].after, steps[1..]))
  }

  /** Over any sequence of runs, other files stay as they were, and NAME's seed, once on disk, is never
      replaced. */
  lemma {:induction false} SeedsSurvive(m: Matrix, pub: string -> string, name: string, start: Files, steps: seq<Step>, k: nat)
    requires ValidMatrix(m) && Runs(m, pub, name, start, steps) && k < |steps|
    ensures forall f | f in start && f != CONF :: f in steps[k].after && steps[k].after[f] == start[f]
    ensures forall f | f in steps[k].after && f !in start :: f == CONF || f == SeedFile(name) || IsTemp(f)
    decreases k
  {
    hide ValidMatrix, Run, IsTemp, SeedFile, MayLog;
    RunKeeps(m, pub, name, steps[0].seed, start, steps[0].after, steps[0].r);
    if k > 0 {
      SeedsSurvive(m, pub, name, steps[0].after, steps[1..], k - 1);
      assert steps[1..][k - 1] == steps[k];
    }
  }

  lemma {:induction false} RunsRecover(m: Matrix, pub: string -> string, name: string, start: Files, steps: seq<Step>, k: nat)
    requires ValidMatrix(m) && Runs(m, pub, name, start, steps) && k < |steps|
    requires Admitted(m, name, start) && Recoverable(m, pub, name, start)
    ensures Admitted(m, name, steps[k].after) && Recoverable(m, pub, name, steps[k].after)
    ensures steps[k].r.Reports? ==> Provisioned(m, pub, steps[k].after)
    decreases k
  {
    hide ValidMatrix, Run, MayLog, Admitted, Recoverable, Provisioned;
    RunRecovers(m, pub, name, steps[0].seed, start, steps[0].after, steps[0].r);
    if k > 0 {
      RunsRecover(m, pub, name, steps[0].after, steps[1..], k - 1);
      assert steps[1..][k - 1] == steps[k];
    }
  }

  /** However many runs failed, and at whatever steps: as soon as one reports, `auth.conf` is the rendering of
      the seeds on disk and the next run has nothing to do. */
  lemma CrashThenRerun(m: Matrix, pub: string -> string, name: string, start: Files, steps: seq<Step>, k: nat)
    requires ValidMatrix(m) && SafeSetup(m, pub) && Runs(m, pub, name, start, steps) && k < |steps|
    requires Admitted(m, name, start) && Recoverable(m, pub, name, start)
    requires steps[k].r.Reports?
    ensures Provisioned(m, pub, steps[k].after) && Detect(name, steps[k].after) == Noop
  {
    hide ValidMatrix, Runs, Provisioned, SafeSetup, Detect, Recoverable;
    RunsRecover(m, pub, name, start, steps, k);
    ProvisionedIsNoop(m, pub, name, steps[k].after);
  }

  /** The block of NAME is there but its seed is not, and the other seeds give keys: a run killed right after writing
      the new seed leaves the old key in `auth.conf`, and the next run reports that there is nothing to do. */
  lemma StaleBlock(m: Matrix, pub: string -> string, name: string, start: Files, seed: string) returns (steps: seq<Step>)
    requires ValidMatrix(m) && Admitted(m, name, start) && OthersValid(m, pub, name, start)
    requires BlockPresent(name, start) && SeedFile(name) !in start
    ensures |steps| == 2 && steps[1].r == Reports(Noop) && Runs(m, pub, name, start, steps)
    ensures steps[1].after == Seeded(name, seed, start)
  {
    hide ValidMatrix, BlockPresent, ActiveNames, Rendering, SeedText, OthersValid, AllValid;
    var after := Seeded(name, seed, start);
    SeededKeepsConf(name, seed, start);
    ReadyHasSeeds(m, name, seed, start);
    assert Run(m, pub, name, seed, start, after, Failed);
    assert Run(m, pub, name, "", after, after, Reports(Noop));
    steps := [Step(seed, after, Failed, false), Step("", after, Reports(Noop), false)];
    assert steps[1..] == [Step("", after, Reports(Noop), false)];
    assert Runs(m, pub, name, after, steps[1..]);
  }

  /** Without NAME's seed and with a seed of another active identity that gives no key, a run does nothing. */
  lemma StuckRun(m: Matrix, pub: string -> string, name: string, seed: string, before: Files, after: Files, r: Result)
    requires ValidMatrix(m) && Run(m, pub, name, seed, before, after, r)
    requires Admitted(m, name, before) && SeedFile(name) !in before && !OthersValid(m, pub, name, before)
    ensures after == before && !r.Reports?
  {
    ReadyHasSeeds(m, name, seed, before);
    hide ValidMatrix, Rendered, Ready, Littered, Admitted, AllValid, OthersValid, SeedFile;
    ReadyValid(m, pub, name, seed, before);
  }

  lemma {:induction false} Stuck(m: Matrix, pub: string -> string, name: string, start: Files, steps: seq<Step>, k: nat)
    requires ValidMatrix(m) && Runs(m, pub, name, start, steps) && k < |steps|
    requires Admitted(m, name, start) && SeedFile(name) !in start && !OthersValid(m, pub, name, start)
    ensures steps[k].after == start && !steps[k].r.Reports?
    decreases k
  {
    hide ValidMatrix, Run, MayLog, Admitted, OthersValid, SeedFile;
    StuckRun(m, pub, name, steps[0].seed, start, steps[0].after, steps[0].r);
    if k > 0 {
      Stuck(m, pub, name, start, steps[1..], k - 1);
      assert steps[1..][k - 1] == steps[k];
    }
  }

  /** One stale block cannot carry the keys of two different seeds. */
  lemma OneKeyPerBlock(m: Matrix, pub: string -> string, name: string, start: Files, s1: string, s2: string)
    requires ValidMatrix(m) && SafeSetup(m, pub) && BlockPresent(name, start)
    requires Provisioned(m, pub, Seeded(name, s1, start)) && Provisioned(m, pub, Seeded(name, s2, start))
    ensures PubkeyOf(pub, s1) == PubkeyOf(pub, s2)
  {
    hide ValidMatrix, ParseAuthConf, Rendering, SafeSetup, PubkeyOf, SeedText, ActiveNames;
    SeedFilesDiffer(name, name);
    KeysMatchSeeds(m, pub, Seeded(name, s1, start));
    KeysMatchSeeds(m, pub, Seeded(name, s2, start));
    var u :| u in ParseAuthConf(start[CONF]).users && u.commentName == name;
    PubkeyOfText(pub, s1);
    PubkeyOfText(pub, s2);
  }

  lemma NotRecoverable(m: Matrix, pub: string -> string, name: string, start: Files, s1: string, s2: string)
    returns (steps: seq<Step>, k: nat)
    requires ValidMatrix(m) && SafeSetup(m, pub) && PubkeyOf(pub, s1) != PubkeyOf(pub, s2)
    requires Admitted(m, name, start) && !Recoverable(m, pub, name, start)
    requires SeedFile(name) in start || OthersValid(m, pub, name, start)
    ensures Runs(m, pub, name, start, steps) && k < |steps| && steps[k].r.Reports? && !Provisioned(m, pub, steps[k].after)
  {
    hide ValidMatrix, BlockPresent, SafeSetup, PubkeyOf, Provisioned, Seeded, OthersValid, AllValid;
    if SeedFile(name) in start {
      hide Provisioned;
      steps, k := [Step("", start, Reports(Noop), false)], 0;
      assert Run(m, pub, name, "", start, start, Reports(Noop));
      assert Runs(m, pub, name, start, []);
    } else {
      var stale := if Provisioned(m, pub, Seeded(name, s1, start)) then s2 else s1;
      if Provisioned(m, pub, Seeded(name, s1, start)) && Provisioned(m, pub, Seeded(name, s2, start)) {
        OneKeyPerBlock(m, pub, name, start, s1, s2);
      }
      steps := StaleBlock(m, pub, name, start, stale);
      k := 1;
    }
  }

  /** A run that reports is out of reach: NAME has no seed, and some other active identity's seed gives no key. */
  predicate Blocked(m: Matrix, pub: string -> string, name: string, files: Files) {
    SeedFile(name) !in files && !OthersValid(m, pub, name, files)
  }

  /** Exactly when every run sequence that reports leaves the directory provisioned: NAME has no block yet, or the
      directory is provisioned already, or no run can report. */
  lemma RecoversExactly(m: Matrix, pub: string -> string, name: string, start: Files, s1: string, s2: string)
    requires ValidMatrix(m) && SafeSetup(m, pub) && PubkeyOf(pub, s1) != PubkeyOf(pub, s2)
    requires Admitted(m, name, start)
    ensures Recoverable(m, pub, name, start) || Blocked(m, pub, name, start)
            <==> forall steps: seq<Step>, k: nat | Runs(m, pub, name, start, steps) && k < |steps| && steps[k].r.Reports? ::
                   Provisioned(m, pub, steps[k].after)
  {
    hide ValidMatrix, SafeSetup, PubkeyOf, Provisioned, Recoverable, Runs, Admitted, OthersValid;
    if Recoverable(m, pub, name, start) {
      forall steps: seq<Step>, k: nat | Runs(m, pub, name, start, steps) && k < |steps| && steps[k].r.Reports?
        ensures Provisioned(m, pub, steps[k].after)
      {
        RunsRecover(m, pub, name, start, steps, k);
      }
    } else if Blocked(m, pub, name, start) {
      forall steps: seq<Step>, k: nat | Runs(m, pub, name, start, steps) && k < |steps|
        ensures !steps[k].r.Reports?
      {
        Stuck(m, pub, name, start, steps, k);
      }
    } else {
      var steps, k := NotRecoverable(m, pub, name, start, s1, s2);
    }
  }

  // ---------------------------------------------------------------------------------------------
  // Which seeds are logged
  // ---------------------------------------------------------------------------------------------

  /** What a sequence of runs appends to the rotation log. */
  function LogGain(name: string, steps: seq<Step>): seq<LogEntry> {
    if steps == [] then [] else Gain(name, steps[0].logged) + LogGain(name, steps[1..])
  }

  function StateBefore(start: Files, steps: seq<Step>, k: nat): Files
    requires k <= |steps|
  {
    if k == 0 then start else steps[k - 1].after
  }

  lemma OnlyAddedLogs(m: Matrix, pub: string -> string, name: string, seed: string, before: Files, after: Files, r: Result)
    requires ValidMatrix(m) && MayLog(m, pub, name, seed, before, after, r)
    ensures SeedFile(name) !in before && SeedFile(name) in after
  {
    hide ValidMatrix, BlockPresent, Rendering, SeedText, ActiveNames;
  }

  /** A seed that is there already is never logged by a later run. */
  lemma {:induction false} PresentNeverLogged(m: Matrix, pub: string -> string, name: string, start: Files, steps: seq<Step>)
    requires ValidMatrix(m) && Runs(m, pub, name, start, steps) && SeedFile(name) in start
    ensures LogGain(name, steps) == []
    decreases |steps|
  {
    hide ValidMatrix, Run, MayLog, SeedFile, IsTemp;
    if steps != [] {
      var s := steps[0];
      if s.logged {
        OnlyAddedLogs(m, pub, name, s.seed, start, s.after, s.r);
      }
      SeedFilesDiffer(name, name);
      RunKeeps(m, pub, name, s.seed, start, s.after, s.r);
      PresentNeverLogged(m, pub, name, s.after, steps[1..]);
    }
  }

  /** Over any sequence of runs, a generated seed has its log entry exactly when the run that wrote it also came to its
      append and the append went through; no other run ever logs it. */
  lemma {:induction false} SeedLoggedExactly(m: Matrix, pub: string -> string, name: string, start: Files, steps: seq<Step>,
                                             w: nat)
    requires ValidMatrix(m) && Runs(m, pub, name, start, steps) && w < |steps|
    requires SeedFile(name) !in StateBefore(start, steps, w) && SeedFile(name) in steps[w].after
    ensures LogGain(name, steps) == Gain(name, steps[w].logged)
    decreases w
  {
    hide ValidMatrix, Run, MayLog, SeedFile, IsTemp;
    var s := steps[0];
    if w == 0 {
      PresentNeverLogged(m, pub, name, s.after, steps[1..]);
      assert Gain(name, s.logged) + [] == Gain(name, s.logged);
    } else {
      NotYetWritten(m, pub, name, start, steps, w);
      if s.logged {
        OnlyAddedLogs(m, pub, name, s.seed, start, s.after, s.r);
      }
      assert steps[1..][w - 1] == steps[w];
      assert w > 1 ==> steps[1..][w - 2] == steps[w - 1];
      SeedLoggedExactly(m, pub, name, s.after, steps[1..], w - 1);
    }
  }

  lemma NotYetWritten(m: Matrix, pub: string -> string, name: string, start: Files, steps: seq<Step>, w: nat)
    requires ValidMatrix(m) && Runs(m, pub, name, start, steps) && 0 < w < |steps|
    requires SeedFile(name) !in StateBefore(start, steps, w)
    ensures SeedFile(name) !in steps[0].after
  {
    hide ValidMatrix, Run, MayLog, SeedFile, IsTemp;
    SeedFilesDiffer(name, name);
    if w > 1 {
      SeedsSurvive(m, pub, name, steps[0].after, steps[1..], w - 2);
      assert steps[1..][w - 2] == steps[w - 1];
    }
  }

  /** The runs generate NAME's seed. */
  predicate Creates(name: string, start: Files, steps: seq<Step>) {
    steps != [] && SeedFile(name) !in start && SeedFile(name) in steps[|steps| - 1].after
  }

  /** Exactly when every run sequence that generates NAME's seed logs it: only if none can generate it, because the seed
      is there already or some other active identity's seed gives no key. Wherever a seed can be generated, the run
      may be killed before it is logged. */
  lemma LoggedForSureExactly(m: Matrix, pub: string -> string, name: string, start: Files, seed: string)
    requires ValidMatrix(m) && Admitted(m, name, start)
    ensures SeedFile(name) in start || !OthersValid(m, pub, name, start)
            <==> forall steps: seq<Step> | Runs(m, pub, name, start, steps) && Creates(name, start, steps) ::
                   LogGain(name, steps) == Gain(name, true)
  {
    hide ValidMatrix, Admitted, OthersValid, SeedFile, Runs, LogGain;
    if SeedFile(name) in start {
    } else if !OthersValid(m, pub, name, start) {
      forall steps: seq<Step> | Runs(m, pub, name, start, steps)
        ensures !Creates(name, start, steps)
      {
        if steps != [] {
          Stuck(m, pub, name, start, steps, |steps| - 1);
        }
      }
    } else {
      var steps := KilledAfterSeed(m, pub, name, start, seed);
      assert Creates(name, start, steps);
    }
  }

  /** One run, killed right after the seed was written. */
  lemma KilledAfterSeed(m: Matrix, pub: string -> string, name: string, start: Files, seed: string) returns (steps: seq<Step>)
    requires ValidMatrix(m) && Admitted(m, name, start) && OthersValid(m, pub, name, start) && SeedFile(name) !in start
    ensures Runs(m, pub, name, start, steps) && LogGain(name, steps) == []
    ensures |steps| == 1 && SeedFile(name) in steps[0].after
  {
    SeedThenDies(m, pub, name, start, seed);
    hide ValidMatrix, Run, Admitted, OthersValid, SeedText;
    steps := [Step(seed, Seeded(name, seed, start), Failed, false)];
    assert steps[1..] == [];
  }

  /** A run killed right after the seed was written, and its repair: the directory is provisioned, and the new seed
      has no log entry, nor will any later run give it one. */
  lemma UnloggedSeed(m: Matrix, pub: string -> string, name: string, start: Files, seed: string) returns (steps: seq<Step>)
    requires ValidMatrix(m) && Admitted(m, name, start) && OthersValid(m, pub, name, start) && ValidKey(pub, seed)
    requires !BlockPresent(name, start) && SeedFile(name) !in start
    ensures |steps| == 2 && steps[1].r == Reports(Repaired) && Runs(m, pub, name, start, steps)
    ensures Provisioned(m, pub, steps[1].after) && LogGain(name, steps) == []
  {
    var after := Seeded(name, seed, start);
    SeedThenDies(m, pub, name, start, seed);
    SeededKeepsConf(name, seed, start);
    SeededValid(m, pub, name, seed, start);
    RenderedIsProvisioned(m, pub, after);
    SeedThenRepairs(m, pub, name, after);
    hide *;
    var last := Rendered(m, pub, after);
    steps := [Step(seed, after, Failed, false), Step("", last, Reports(Repaired), false)];
    TwoRuns(m, pub, name, start, steps[0], steps[1]);
  }

  lemma TwoRuns(m: Matrix, pub: string -> string, name: string, start: Files, a: Step, b: Step)
    requires ValidMatrix(m) && !a.logged && !b.logged
    requires Run(m, pub, name, a.seed, start, a.after, a.r) && Run(m, pub, name, b.seed, a.after, b.after, b.r)
    ensures Runs(m, pub, name, start, [a, b]) && LogGain(name, [a, b]) == []
  {
    hide ValidMatrix, Run, MayLog;
    assert [a, b][1..] == [b] && [b][1..] == [];
    assert Runs(m, pub, name, b.after, []) && Runs(m, pub, name, a.after, [b]);
    assert LogGain(name, [b]) == [];
  }

  lemma SeedThenDies(m: Matrix, pub: string -> string, name: string, start: Files, seed: string)
    requires ValidMatrix(m) && Admitted(m, name, start) && OthersValid(m, pub, name, start) && SeedFile(name) !in start
    ensures var after := Seeded(name, seed, start);
            && Run(m, pub, name, seed, start, after, Failed) && HasSeeds(m, after)
            && Admitted(m, name, after) && SeedFile(name) in after
  {
    ReadyHasSeeds(m, name, seed, start);
    hide ValidMatrix, BlockPresent, ActiveNames, Rendering, SeedText, OthersValid, AllValid;
  }

  lemma SeededValid(m: Matrix, pub: string -> string, name: string, seed: string, start: Files)
    requires OthersValid(m, pub, name, start) && ValidKey(pub, seed)
    ensures AllValid(m, pub, Seeded(name, seed, start))
  {
    hide ActiveNames, SeedText, PubkeyOf;
    PubkeyOfText(pub, seed);
    forall n | n in ActiveNames(m.identities)
      ensures var after := Seeded(name, seed, start); SeedFile(n) in after && ValidKey(pub, after[SeedFile(n)])
    {
      SeedFilesDiffer(n, name);
    }
  }

  lemma SeedThenRepairs(m: Matrix, pub: string -> string, name: string, after: Files)
    requires ValidMatrix(m) && HasSeeds(m, after) && AllValid(m, pub, after)
    requires Admitted(m, name, after) && !BlockPresent(name, after) && SeedFile(name) in after
    ensures Run(m, pub, name, "", after, Rendered(m, pub, after), Reports(Repaired))
  {
    hide ValidMatrix, BlockPresent, ActiveNames, Rendering, SeedText, AllValid;
  }

  // ---------------------------------------------------------------------------------------------
  // `--regenerate`
  // ---------------------------------------------------------------------------------------------

  /** What any run of `--regenerate` guarantees. A rollback restores the directory exactly; before the flush point
      no failure touches the log; success provisions every active identity and nothing else; and at every exit the
      old contents are in place or in the backup. */
  lemma RegenerateGuarantees(epoch: nat, m: Matrix, pub: string -> string, seedOf: string -> string, before: StoreState,
                             mid: StoreState, late: StoreState, after: StoreState, o: Outcome, flushing: bool, wrote: seq<bool>)
    requires ValidMatrix(m) && RegenerateRun(epoch, m, pub, seedOf, before, mid, late, after, o, flushing, wrote)
    ensures o.RolledBack? && before.seeds.Some? ==> after.seeds == before.seeds
    ensures !flushing ==> after.log == before.log
    ensures |wrote| <= |AllRotations(m)| && after.log == before.log + Kept(AllRotations(m)[..|wrote|], wrote)
    ensures o.Regenerated? ==>
              && after.seeds.Some? && Provisioned(m, pub, after.seeds.value)
              && Generated(ActiveNames(m.identities), seedOf, after.seeds.value)
              && after.seeds.value.Keys == AllSeedFiles(m) + {CONF} && |wrote| == |AllRotations(m)|
    ensures before.seeds.Some? ==>
              after.seeds == before.seeds || (epoch in after.backups && after.backups[epoch] == before.seeds.value)
    ensures forall k | k in before.backups :: k in after.backups && after.backups[k] == before.backups[k]
  {
    hide ValidMatrix, Provisioned, Generated, AllRotations, AllSeedFiles, Kept;
    assert before.log + [] == before.log;
    NoneKept(before.log, AllRotations(m));
  }

  lemma {:induction false} KeptNothing(entries: seq<LogEntry>, wrote: seq<bool>)
    requires |entries| == |wrote|
    ensures Kept(entries, wrote) == [] <==> forall k | 0 <= k < |wrote| :: !wrote[k]
  {
    if wrote != [] {
      var n := |wrote| - 1;
      KeptNothing(entries[..n], wrote[..n]);
    }
  }

  /** A failure leaves the log as it was exactly when no append had gone through yet. */
  lemma LogUnchangedExactly(epoch: nat, m: Matrix, pub: string -> string, seedOf: string -> string, before: StoreState,
                            mid: StoreState, late: StoreState, after: StoreState, o: Outcome, flushing: bool, wrote: seq<bool>)
    requires ValidMatrix(m) && RegenerateRun(epoch, m, pub, seedOf, before, mid, late, after, o, flushing, wrote)
    ensures after.log == before.log <==> forall k | 0 <= k < |wrote| :: !wrote[k]
  {
    hide ValidMatrix, RegenerateRun, AllRotations, Kept;
    RegenerateGuarantees(epoch, m, pub, seedOf, before, mid, late, after, o, flushing, wrote);
    KeptNothing(AllRotations(m)[..|wrote|], wrote);
  }

  function NameOf(file: string): string { if EndsWith(file, ".seed") then file[..|file| - 5] else file }

  /** The active identities' seeds, freshly generated. */
  function FreshSeeds(m: Matrix, seedOf: string -> string): Files {
    map f | f in AllSeedFiles(m) :: SeedText(seedOf(NameOf(f)))
  }

  lemma FreshHas(m: Matrix, pub: string -> string, seedOf: string -> string)
    requires SeedsValid(m, pub, seedOf)
    ensures var seeds := FreshSeeds(m, seedOf);
            HasSeeds(m, seeds) && AllValid(m, pub, seeds) && Generated(ActiveNames(m.identities), seedOf, seeds)
  {
    hide ActiveNames, SeedText, PubkeyOf;
    var seeds := FreshSeeds(m, seedOf);
    forall n | n in ActiveNames(m.identities)
      ensures SeedFile(n) in seeds && ValidKey(pub, seeds[SeedFile(n)]) && seeds[SeedFile(n)] == SeedText(seedOf(n))
    {
      assert NameOf(SeedFile(n)) == n;
      PubkeyOfText(pub, seedOf(n));
    }
  }

  /** The directory after provisioning from nothing. */
  function FreshDirectory(m: Matrix, pub: string -> string, seedOf: string -> string): Files
    requires ValidMatrix(m) && HasSeeds(m, FreshSeeds(m, seedOf))
  {
    Rendered(m, pub, FreshSeeds(m, seedOf))
  }

  lemma FreshInPlace(m: Matrix, pub: string -> string, seedOf: string -> string)
    requires ValidMatrix(m) && SeedsValid(m, pub, seedOf)
    ensures HasSeeds(m, FreshSeeds(m, seedOf)) && InPlace(m, pub, map[], FreshDirectory(m, pub, seedOf))
    ensures Generated(ActiveNames(m.identities), seedOf, FreshDirectory(m, pub, seedOf))
  {
    FreshHas(m, pub, seedOf);
    var seeds := FreshSeeds(m, seedOf);
    hide *;
    RenderedIsProvisioned(m, pub, seeds);
    PlaceFresh(m, pub, seedOf);
  }

  lemma PlaceFresh(m: Matrix, pub: string -> string, seedOf: string -> string)
    requires ValidMatrix(m) && HasSeeds(m, FreshSeeds(m, seedOf)) && AllValid(m, pub, FreshSeeds(m, seedOf))
    requires Generated(ActiveNames(m.identities), seedOf, FreshSeeds(m, seedOf))
    requires Provisioned(m, pub, Rendered(m, pub, FreshSeeds(m, seedOf)))
    ensures InPlace(m, pub, map[], FreshDirectory(m, pub, seedOf))
    ensures Generated(ActiveNames(m.identities), seedOf, FreshDirectory(m, pub, seedOf))
  {
    hide ValidMatrix, Rendering, Provisioned, SeedText, ActiveNames, HasSeeds, KeysValid, SeedFile, AllSeedFiles, Generated, InPlace;
    var seeds := FreshSeeds(m, seedOf);
    assert OthersKept(map[], seeds, AllSeedFiles(m));
    ConfPlaces(m, pub, seedOf, map[], seeds, Rendering(m, pub, seeds));
  }

  /** A run that is rolled back while the log has grown: the appends begin, the first goes through, and then one is
      interrupted or raises. An existing directory is back as it was, one that was created stays, and the log says
      that the first identity was rotated. */
  lemma LogOutlivesRollback(epoch: nat, m: Matrix, pub: string -> string, seedOf: string -> string, before: StoreState,
                            cause: Ending)
    returns (mid: StoreState, late: StoreState, after: StoreState)
    requires ValidMatrix(m) && SeedsValid(m, pub, seedOf)
    requires AllRotations(m) != [] && (before.seeds.Some? ==> epoch !in before.backups)
    requires cause == Interrupted || cause == Raised
    ensures RegenerateRun(epoch, m, pub, seedOf, before, mid, late, after, RolledBack(cause), true, [true])
    ensures before.seeds.Some? ==> after.seeds == before.seeds
    ensures after.log == before.log + [AllRotations(m)[0]]
  {
    FreshInPlace(m, pub, seedOf);
    hide *;
    mid := BacksUp(epoch, before);
    late := StoreState(Some(FreshDirectory(m, pub, seedOf)), mid.backups, before.log + [AllRotations(m)[0]]);
    FirstFlushed(m, pub, seedOf, mid, late, cause);
    after := Restores(epoch, before, mid, late);
    RollsBack(epoch, m, pub, seedOf, before, mid, late, after, cause, [true]);
  }

  lemma BacksUp(epoch: nat, before: StoreState) returns (mid: StoreState)
    requires before.seeds.Some? ==> epoch !in before.backups
    ensures BackupStep(epoch, before, mid, true) && mid.seeds.None? && mid.log == before.log
    ensures before.seeds.Some? ==> epoch in mid.backups && mid.backups[epoch] == before.seeds.value
  {
    mid := before;
    if before.seeds.Some? {
      mid := StoreState(None, before.backups[epoch := before.seeds.value], before.log);
    }
  }

  lemma Restores(epoch: nat, before: StoreState, mid: StoreState, late: StoreState) returns (after: StoreState)
    requires before.seeds.Some? ==> epoch in mid.backups && mid.backups[epoch] == before.seeds.value
    requires late.backups == mid.backups
    ensures RestoreStep(if before.seeds.Some? then Some(epoch) else None, late, after, true) && after.log == late.log
    ensures before.seeds.Some? ==> after.seeds == before.seeds
  {
    after := if before.seeds.Some? then late.(seeds := before.seeds) else late;
  }

  lemma RollsBack(epoch: nat, m: Matrix, pub: string -> string, seedOf: string -> string, before: StoreState, mid: StoreState,
                  late: StoreState, after: StoreState, cause: Ending, wrote: seq<bool>)
    requires ValidMatrix(m) && (cause == Interrupted || cause == Raised)
    requires BackupStep(epoch, before, mid, true) && ProvisionStep(m, pub, seedOf, mid, late, cause, true, wrote)
    requires RestoreStep(if before.seeds.Some? then Some(epoch) else None, late, after, true)
    ensures RegenerateRun(epoch, m, pub, seedOf, before, mid, late, after, RolledBack(cause), true, wrote)
  {
    hide ValidMatrix, BackupStep, ProvisionStep, RestoreStep;
  }

  lemma FirstFlushed(m: Matrix, pub: string -> string, seedOf: string -> string, mid: StoreState, late: StoreState,
                     cause: Ending)
    requires ValidMatrix(m) && mid.seeds.None? && late.seeds.Some? && InPlace(m, pub, map[], late.seeds.value)
    requires Generated(ActiveNames(m.identities), seedOf, late.seeds.value)
    requires AllRotations(m) != [] && cause != Finished
    requires late.backups == mid.backups && late.log == mid.log + [AllRotations(m)[0]]
    ensures ProvisionStep(m, pub, seedOf, mid, late, cause, true, [true])
  {
    FirstKept(AllRotations(m));
    hide ValidMatrix, InPlace, Generated, AllRotations, Kept;
  }

  lemma FirstKept(entries: seq<LogEntry>)
    requires entries != []
    ensures Kept(entries[..1], [true]) == [entries[0]]
  {
    assert entries[..1] == [entries[0]] && [entries[0]][..0] == [] && [true][..0] == [];
    assert Kept([], []) == [];
  }

  /** From a given start, every run that is rolled back leaves the log as it was. */
  ghost predicate RollbackKeepsLog(epoch: nat, m: Matrix, pub: string -> string, seedOf: string -> string, before: StoreState,
                                   cause: Ending)
    requires ValidMatrix(m)
  {
    forall mid: StoreState, late: StoreState, after: StoreState, flushing: bool, wrote: seq<bool> |
        RegenerateRun(epoch, m, pub, seedOf, before, mid, late, after, RolledBack(cause), flushing, wrote) ::
      after.log == before.log
  }

  /** There is nothing to log, or no run comes to the flush point: no identity is active, the backup's name is taken, or
      some generated seed gives no key. */
  predicate NoFlush(epoch: nat, m: Matrix, pub: string -> string, seedOf: string -> string, before: StoreState) {
    AllRotations(m) == [] || (before.seeds.Some? && epoch in before.backups) || !SeedsValid(m, pub, seedOf)
  }

  /** Exactly when it does: if there is nothing to log, or no run gets as far as the log and the rollback. */
  lemma RollbackKeepsLogExactly(epoch: nat, m: Matrix, pub: string -> string, seedOf: string -> string, before: StoreState,
                                cause: Ending)
    requires ValidMatrix(m) && (cause == Interrupted || cause == Raised)
    ensures RollbackKeepsLog(epoch, m, pub, seedOf, before, cause) <==> NoFlush(epoch, m, pub, seedOf, before)
  {
    hide ValidMatrix, RegenerateRun, AllRotations, SeedsValid, RollbackKeepsLog;
    if NoFlush(epoch, m, pub, seedOf, before) {
      forall mid: StoreState, late: StoreState, after: StoreState, flushing: bool, wrote: seq<bool> |
          RegenerateRun(epoch, m, pub, seedOf, before, mid, late, after, RolledBack(cause), flushing, wrote)
        ensures after.log == before.log
      {
        NothingToLog(epoch, m, pub, seedOf, before, mid, late, after, cause, flushing, wrote);
      }
      AllKeepLog(epoch, m, pub, seedOf, before, cause);
    } else {
      var mid, late, after := LogOutlivesRollback(epoch, m, pub, seedOf, before, cause);
      SomeGrows(epoch, m, pub, seedOf, before, cause, mid, late, after, true, [true]);
    }
  }

  /** The flush point is reached only when every generated seed gives a key. */
  lemma FlushedValid(m: Matrix, pub: string -> string, seedOf: string -> string, files: Files)
    requires Generated(ActiveNames(m.identities), seedOf, files) && KeysValid(pub, ActiveNames(m.identities), files)
    ensures SeedsValid(m, pub, seedOf)
  {
    hide ActiveNames, SeedFile, SeedText, PubkeyOf;
    forall n | n in ActiveNames(m.identities)
      ensures ValidKey(pub, seedOf(n))
    {
      PubkeyOfText(pub, seedOf(n));
    }
  }

  lemma NothingToLog(epoch: nat, m: Matrix, pub: string -> string, seedOf: string -> string, before: StoreState,
                     mid: StoreState, late: StoreState, after: StoreState, cause: Ending, flushing: bool, wrote: seq<bool>)
    requires ValidMatrix(m) && RegenerateRun(epoch, m, pub, seedOf, before, mid, late, after, RolledBack(cause), flushing, wrote)
    requires NoFlush(epoch, m, pub, seedOf, before)
    ensures after.log == before.log
  {
    hide ValidMatrix, AllRotations, SeedsValid, RestoreStep, Generated, Kept;
    RegenerateGuarantees(epoch, m, pub, seedOf, before, mid, late, after, RolledBack(cause), flushing, wrote);
    if AllRotations(m) == [] {
      assert wrote == [] && AllRotations(m)[..0] == [];
      NoneKept(before.log, AllRotations(m));
    } else if flushing {
      FlushedValid(m, pub, seedOf, late.seeds.value);
    }
  }

  lemma AllKeepLog(epoch: nat, m: Matrix, pub: string -> string, seedOf: string -> string, before: StoreState, cause: Ending)
    requires ValidMatrix(m)
    requires forall mid: StoreState, late: StoreState, after: StoreState, flushing: bool, wrote: seq<bool> |
                 RegenerateRun(epoch, m, pub, seedOf, before, mid, late, after, RolledBack(cause), flushing, wrote) ::
               after.log == before.log
    ensures RollbackKeepsLog(epoch, m, pub, seedOf, before, cause)
  {
    hide ValidMatrix, RegenerateRun;
  }

  lemma SomeGrows(epoch: nat, m: Matrix, pub: string -> string, seedOf: string -> string, before: StoreState, cause: Ending,
                  mid: StoreState, late: StoreState, after: StoreState, flushing: bool, wrote: seq<bool>)
    requires ValidMatrix(m) && after.log != before.log
    requires RegenerateRun(epoch, m, pub, seedOf, before, mid, late, after, RolledBack(cause), flushing, wrote)
    ensures !RollbackKeepsLog(epoch, m, pub, seedOf, before, cause)
  {
    hide ValidMatrix, RegenerateRun;
  }
}

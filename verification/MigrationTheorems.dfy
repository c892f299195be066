/** Any number of start-ups, cut short or not, with the application at work in between. */
module MigrationTheorems {
  import opened Text
  import opened Migration

  const AUTH := "auth.db"
  const CONFIG := "config.db"
  const DISCORD := "discord.db"
  const CONFIG_TABLES: seq<string> := ["agents", "bot_agent_map", "agent_runtime_state", "bot_secrets", "user_prefs"]
  const CONFIG_PREFIX := ".config_db_migrate_"
  const DISCORD_PREFIX := ".discord_db_migrate_"

  /** The sentinel table is there and has a row. */
  predicate Complete(files: Files, dst: string) {
    dst in files && "_migration_complete" in files[dst] && files[dst]["_migration_complete"].rows != []
  }

  /** The migration of one destination. */
  datatype Plan = Plan(src: string, dst: string, tables: seq<string>, prefix: string)

  predicate ValidPlan(p: Plan) {
    SENTINEL !in p.tables && !IsTemp(p.src, p.prefix) && !IsTemp(p.dst, p.prefix) && p.src != p.dst
  }

  /** A start-up, or work of the running application. */
  datatype Step = Start(after: Files, readFails: bool, e: Ending) | Work(after: Files)

  /** The application may change any row anywhere, but leaves the sentinel alone. */
  predicate Worked(before: Files, after: Files, dst: string) { Complete(before, dst) <==> Complete(after, dst) }

  predicate StepOk(p: Plan, before: Files, s: Step) {
    match s
    case Start(after, readFails, e) => Startup(before, after, p.src, p.dst, p.tables, p.prefix, readFails, e)
    case Work(after) => Worked(before, after, p.dst)
  }

  function StateAt(start: Files, steps: seq<Step>, k: nat): Files
    requires k <= |steps|
  {
    if k == 0 then start else steps[k - 1].after
  }

  predicate Runs(p: Plan, start: Files, steps: seq<Step>) {
    forall k | 0 <= k < |steps| :: StepOk(p, StateAt(start, steps, k), steps[k])
  }

  /** Every look for the sentinel succeeds. */
  predicate ReadsWork(steps: seq<Step>) { forall s | s in steps :: s.Start? ==> !s.readFails }

  /** The sentinel appears only through a finished copy of the source as it is then. */
  lemma SentinelAppears(p: Plan, before: Files, s: Step)
    requires ValidPlan(p) && StepOk(p, before, s) && !Complete(before, p.dst) && Complete(s.after, p.dst)
    ensures s.Start? && s.e == Finished && p.src in before && s.after[p.dst] == Migrated(before[p.src], p.tables)
  {
    hide Migrated, HasSentinel, IsTemp;
  }

  /** A start-up that can read the sentinel changes nothing. */
  lemma SentinelStays(p: Plan, before: Files, s: Step)
    requires StepOk(p, before, s) && Complete(before, p.dst) && (s.Start? ==> !s.readFails)
    ensures Complete(s.after, p.dst) && (s.Start? ==> s.after == before && s.e == Finished)
  {
    hide Migrated;
  }

  /** Once the sentinel is there it stays, and no later start-up touches any file. */
  lemma {:induction false} LaterRunsKeep(p: Plan, start: Files, steps: seq<Step>, i: nat, k: nat)
    requires Runs(p, start, steps) && ReadsWork(steps) && i <= k < |steps|
    requires Complete(StateAt(start, steps, i), p.dst)
    ensures Complete(StateAt(start, steps, k), p.dst) && Complete(StateAt(start, steps, k + 1), p.dst)
    ensures steps[k].Start? ==> StateAt(start, steps, k + 1) == StateAt(start, steps, k) && steps[k].e == Finished
    decreases k
  {
    hide StepOk, Complete;
    if i < k {
      LaterRunsKeep(p, start, steps, i, k - 1);
    }
    assert steps[k] in steps;
    SentinelStays(p, StateAt(start, steps, k), steps[k]);
  }

  lemma {:induction false} FirstComplete(p: Plan, start: Files, steps: seq<Step>, n: nat) returns (k: nat)
    requires n <= |steps| && !Complete(start, p.dst) && Complete(StateAt(start, steps, n), p.dst)
    ensures k < n && !Complete(StateAt(start, steps, k), p.dst) && Complete(StateAt(start, steps, k + 1), p.dst)
    decreases n
  {
    hide Complete;
    if Complete(StateAt(start, steps, n - 1), p.dst) {
      k := FirstComplete(p, start, steps, n - 1);
    } else {
      k := n - 1;
    }
  }

  /** Over any run: a destination that carries the sentinel got it from one finished copy, which gave it every
      row the source then had in the listed tables, and no start-up since has replaced it. */
  lemma SentinelMeansMigrated(p: Plan, start: Files, steps: seq<Step>) returns (k: nat)
    requires ValidPlan(p) && Runs(p, start, steps) && ReadsWork(steps)
    requires !Complete(start, p.dst) && Complete(StateAt(start, steps, |steps|), p.dst)
    requires forall i | 0 <= i <= |steps| :: p.src in StateAt(start, steps, i) ==> Consistent(StateAt(start, steps, i)[p.src])
    ensures k < |steps| && steps[k].Start? && p.src in StateAt(start, steps, k)
    ensures var source := StateAt(start, steps, k)[p.src];
            p.dst in steps[k].after
            && forall t | t in p.tables && t in source :: t in steps[k].after[p.dst] && steps[k].after[p.dst][t] == source[t]
    ensures forall j | k < j < |steps| && steps[j].Start? :: StateAt(start, steps, j + 1) == StateAt(start, steps, j)
  {
    hide StepOk, Complete, Consistent, HasSentinel, Migrated;
    k := FirstComplete(p, start, steps, |steps|);
    SentinelAppears(p, StateAt(start, steps, k), steps[k]);
    MigratedHoldsRows(StateAt(start, steps, k)[p.src], p.tables);
    assert p.dst in steps[k].after by { CompleteHas(steps[k].after, p.dst); }
    forall j | k < j < |steps| && steps[j].Start?
      ensures StateAt(start, steps, j + 1) == StateAt(start, steps, j)
    {
      LaterRunsKeep(p, start, steps, k + 1, j);
    }
  }

  lemma CompleteHas(files: Files, dst: string)
    requires Complete(files, dst)
    ensures dst in files
  {
  }

  /** A start-up that nothing interrupts, with the source there, ends with the sentinel exactly when it was there
      already or every listed table and column has a plain name. */
  lemma UninterruptedRun(p: Plan, before: Files, after: Files, readFails: bool, e: Ending)
    requires ValidPlan(p) && Startup(before, after, p.src, p.dst, p.tables, p.prefix, readFails, e)
    requires (e == Finished || e == Rejected) && p.src in before
    ensures Complete(after, p.dst) <==> (Complete(before, p.dst) && !readFails) || Migratable(before[p.src], p.tables)
  {
    hide IsTemp, CopyTables;
  }

  /** A finished start-up keeps what the destination held exactly when the sentinel was there and could be read, or
      the copy happens to be the same. A database the stores created themselves has no sentinel and is discarded. */
  lemma DestinationKeptExactly(p: Plan, before: Files, after: Files, readFails: bool)
    requires ValidPlan(p) && Startup(before, after, p.src, p.dst, p.tables, p.prefix, readFails, Finished)
    requires p.dst in before
    ensures p.dst in after && after[p.dst] == before[p.dst]
            <==> (Complete(before, p.dst) && !readFails) || (p.src in before && before[p.dst] == Migrated(before[p.src], p.tables))
  {
    hide IsTemp, Migrated;
  }

  const CONFIG_PLAN := Plan(AUTH, CONFIG, CONFIG_TABLES, CONFIG_PREFIX)
  const DISCORD_PLAN := Plan(AUTH, DISCORD, ["discord_threads"], DISCORD_PREFIX)

  lemma PlansValid()
    ensures ValidPlan(CONFIG_PLAN) && ValidPlan(DISCORD_PLAN)
  {
    assert AUTH[0] == 'a' && CONFIG[0] == 'c' && DISCORD[0] == 'd' && CONFIG_PREFIX[0] == '.' && DISCORD_PREFIX[0] == '.';
    forall t | t in CONFIG_TABLES
      ensures t != SENTINEL
    {
      assert t[0] != '_' && SENTINEL[0] == '_';
    }
    assert "discord_threads"[0] == 'd';
  }

  /** What the two copies carry over from `auth.db`: the rows of these tables, as they are, and nothing else. */
  lemma StoresCarried(before: Files, after: Files, discord: bool, readFails: bool)
    requires var p := if discord then DISCORD_PLAN else CONFIG_PLAN;
             && Startup(before, after, p.src, p.dst, p.tables, p.prefix, readFails, Finished)
             && !(Complete(before, p.dst) && !readFails)
    requires "auth.db" in before && Consistent(before["auth.db"])
    ensures var tables := if discord then {"discord_threads"}
                          else {"agents", "bot_agent_map", "agent_runtime_state", "bot_secrets", "user_prefs"};
            var dst := if discord then "discord.db" else "config.db";
            && Complete(after, dst)
            && (forall t :: t in after[dst] <==> t == "_migration_complete" || (t in tables && t in before["auth.db"]))
            && forall t | t in tables && t in before["auth.db"] :: after[dst][t] == before["auth.db"][t]
    ensures forall f | f in before && f != "discord.db" && f != "config.db" :: f in after && after[f] == before[f]
  {
    PlansValid();
    var p := if discord then DISCORD_PLAN else CONFIG_PLAN;
    MigratedHoldsRows(before[p.src], p.tables);
    hide HasSentinel, Migrated, Migratable, Consistent, IsTemp;
  }

  /** The two guards of a start-up, in order; the second runs only if the first finished. */
  method OpenStores(vault: Vault, configFails: bool, discordFails: bool, atConfig: Fault, atDiscord: Fault)
    returns (config: Ending, discord: Option<Ending>, ghost mid: Files)
    modifies vault
    ensures atConfig.None? ==>
              config == if Succeeds(old(vault.files), AUTH, CONFIG, CONFIG_TABLES, configFails) then Finished else Rejected
    ensures atDiscord.None? && discord.Some? ==>
              discord.value == if Succeeds(mid, AUTH, DISCORD, ["discord_threads"], discordFails) then Finished else Rejected
    ensures var p := CONFIG_PLAN; Startup(old(vault.files), mid, p.src, p.dst, p.tables, p.prefix, configFails, config)
    ensures discord.Some? <==> config == Finished
    ensures var p := DISCORD_PLAN;
            if discord.Some? then Startup(mid, vault.files, p.src, p.dst, p.tables, p.prefix, discordFails, discord.value)
            else vault.files == mid
  {
    hide Startup, IsTemp, Succeeds;
    PlansValid();
    discord := None;
    config := vault.Ensure(AUTH, CONFIG, CONFIG_TABLES, CONFIG_PREFIX, configFails, atConfig);
    mid := vault.files;
    if config == Finished {
      var e := vault.Ensure(AUTH, DISCORD, ["discord_threads"], DISCORD_PREFIX, discordFails, atDiscord);
      discord := Some(e);
    }
  }
}

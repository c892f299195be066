/** Start-up migration of tables out of `auth.db`, guarded by a sentinel and cut short at any step. */
module Migration {
  import opened Text

  /** Rows with the same key conflict; a row without a key never does. */
  datatype Row = Row(key: Option<string>, cells: seq<string>)

  datatype Table = Table(columns: seq<string>, rows: seq<Row>)

  type Db = map<string, Table>

  type Files = map<string, Db>

  const SENTINEL := "_migration_complete"

  predicate HasSentinel(db: Db) { SENTINEL in db && db[SENTINEL].rows != [] }

  predicate IdentCore(s: string) {
    s != "" && !IsDigit(s[0]) && forall k | 0 <= k < |s| :: IsAlnum(s[k]) || s[k] == '_'
  }

  /** `^[A-Za-z_][A-Za-z0-9_]*$`, where `$` also matches before a closing newline. */
  predicate Ident(s: string) { IdentCore(s) || (s != "" && s[|s| - 1] == '\n' && IdentCore(s[..|s| - 1])) }

  predicate LetterOrUnderscore(c: char) { 'a' <= c <= 'z' || 'A' <= c <= 'Z' || c == '_' }

  predicate Word(w: string) {
    w != "" && LetterOrUnderscore(w[0]) && forall k | 0 <= k < |w| :: LetterOrUnderscore(w[k]) || '0' <= w[k] <= '9'
  }

  /** A name as SQL writes it: a letter or underscore, then those and digits; a newline may follow. */
  ghost predicate PlainName(s: string) { exists w: string :: (s == w || s == w + "\n") && Word(w) }

  lemma WordMeaning(w: string)
    ensures IdentCore(w) <==> Word(w)
  {
    if w != "" && forall k | 0 <= k < |w| :: IsAlnum(w[k]) || w[k] == '_' {
      assert IsAlnum(w[0]) || w[0] == '_';
    }
  }

  lemma IdentMeaning(s: string)
    ensures Ident(s) <==> PlainName(s)
  {
    hide IdentCore, Word;
    WordMeaning(s);
    if s != "" {
      WordMeaning(s[..|s| - 1]);
      if s[|s| - 1] == '\n' {
        assert s == s[..|s| - 1] + "\n";
      }
    }
    if PlainName(s) {
      var w: string :| (s == w || s == w + "\n") && Word(w);
      assert s == w + "\n" ==> s[..|s| - 1] == w;
    }
  }

  predicate Conflicts(rows: seq<Row>, r: Row) { r.key.Some? && exists x | x in rows :: x.key == r.key }

  /** `INSERT OR IGNORE`, row by row. */
  function InsertAll(rows: seq<Row>, more: seq<Row>): seq<Row> {
    if more == [] then rows
    else
      var n := |more| - 1;
      var before := InsertAll(rows, more[..n]);
      if Conflicts(before, more[n]) then before else before + [more[n]]
  }

  /** What SQLite keeps true of any table: no two rows conflict. */
  predicate Consistent(db: Db) {
    forall t | t in db :: forall i, j | 0 <= i < j < |db[t].rows| :: db[t].rows[i].key.Some? ==> db[t].rows[i].key != db[t].rows[j].key
  }

  /** The listed tables the source has, in a new database. */
  function CopyTables(src: Db, tables: seq<string>): Db {
    if tables == [] then map[]
    else
      var n := |tables| - 1;
      var t := tables[n];
      if t in src then CopyTables(src, tables[..n])[t := Table(src[t].columns, InsertAll([], src[t].rows))]
      else CopyTables(src, tables[..n])
  }

  function Migrated(src: Db, tables: seq<string>): Db { CopyTables(src, tables)[SENTINEL := Table(["migrated_at"], [Row(None, ["now"])])] }

  /** Names that pass the checks, tables listed once, and the sentinel's name left alone. */
  predicate Migratable(src: Db, tables: seq<string>) {
    && (forall t | t in tables :: Ident(t) && t != SENTINEL && (t in src ==> forall c | c in src[t].columns :: Ident(c)))
    && forall i, j | 0 <= i < j < |tables| && tables[i] == tables[j] :: tables[i] !in src
  }

  function CountRows(src: Db, tables: seq<string>): nat {
    if tables == [] then 0
    else
      var n := |tables| - 1;
      CountRows(src, tables[..n]) + if tables[n] in src then |src[tables[n]].rows| else 0
  }

  /** `Rejected` is an error the input causes; `Faulted` any other exception; `Killed` runs no handler. */
  datatype Ending = Finished | Rejected | Faulted | Killed

  /** What strikes a method from outside, if anything. */
  type Fault = f: Option<Ending> | f != Some(Finished) && f != Some(Rejected) witness None

  function EndingOf(f: Fault): Ending { if f.Some? then f.value else Finished }

  predicate IsTemp(name: string, prefix: string) { StartsWith(name, prefix) }

  /** At most temporary files were left behind. */
  predicate Littered(before: Files, after: Files, prefix: string) {
    && (forall f | f in before :: f in after && after[f] == before[f])
    && (forall f | f in after && f !in before :: IsTemp(f, prefix))
  }

  // ---------------------------------------------------------------------------------------------
  // Lemmas about copying
  // ---------------------------------------------------------------------------------------------

  lemma {:induction false} InsertAllConsistent(rows: seq<Row>)
    requires forall i, j | 0 <= i < j < |rows| :: rows[i].key.Some? ==> rows[i].key != rows[j].key
    ensures InsertAll([], rows) == rows
  {
    if rows != [] {
      var n := |rows| - 1;
      InsertAllConsistent(rows[..n]);
      assert rows == rows[..n] + [rows[n]];
      forall x | x in rows[..n] && rows[n].key.Some?
        ensures x.key != rows[n].key
      {
        var i :| 0 <= i < n && rows[i] == x;
      }
    }
  }

  lemma InsertNone(rows: seq<Row>)
    ensures InsertAll(rows, []) == rows
  {
  }

  lemma {:induction false} CopyTablesHas(src: Db, tables: seq<string>)
    requires Consistent(src)
    ensures forall t :: t in CopyTables(src, tables) <==> t in tables && t in src
    ensures forall t | t in CopyTables(src, tables) :: CopyTables(src, tables)[t] == src[t]
  {
    hide InsertAll;
    if tables != [] {
      var n := |tables| - 1;
      CopyTablesHas(src, tables[..n]);
      assert tables == tables[..n] + [tables[n]];
      if tables[n] in src {
        InsertAllConsistent(src[tables[n]].rows);
      }
    }
  }

  /** A migrated database carries the sentinel and holds, table by table, exactly the rows the source had. */
  lemma MigratedHoldsRows(src: Db, tables: seq<string>)
    requires Consistent(src) && SENTINEL !in tables
    ensures HasSentinel(Migrated(src, tables))
    ensures forall t | t in tables && t in src :: t in Migrated(src, tables) && Migrated(src, tables)[t] == src[t]
    ensures forall t | t in Migrated(src, tables) && t != SENTINEL :: t in tables && t in src
  {
    hide CopyTables;
    CopyTablesHas(src, tables);
  }

  /** The rows counted are the rows that arrive. */
  lemma {:induction false} RowsConserved(src: Db, tables: seq<string>)
    requires Consistent(src) && Migratable(src, tables)
    ensures CountRows(src, tables) == CountRows(Migrated(src, tables), tables)
  {
    hide Consistent;
    CopyTablesHas(src, tables);
    SameCount(src, Migrated(src, tables), tables);
  }

  lemma {:induction false} SameCount(a: Db, b: Db, tables: seq<string>)
    requires forall t | t in tables :: (t in a <==> t in b) && (t in a ==> a[t] == b[t])
    ensures CountRows(a, tables) == CountRows(b, tables)
  {
    if tables != [] {
      var n := |tables| - 1;
      assert tables[n] in tables;
      SameCount(a, b, tables[..n]);
    }
  }

  // ---------------------------------------------------------------------------------------------
  // The steps
  // ---------------------------------------------------------------------------------------------

  class Vault {
    var files: Files

    /** Some name `mkstemp` may pick. */
    method FreshTemp(prefix: string) returns (tmp: string)
      ensures IsTemp(tmp, prefix) && tmp !in files
    {
      var names := files.Keys;
      var n: nat := 0;
      while names != {}
        invariant names <= files.Keys && forall f | f in files && f !in names :: |f| <= n
        decreases |names|
        modifies {}
      {
        var f :| f in names;
        n := if |f| > n then |f| else n;
        names := names - {f};
      }
      tmp := prefix + seq(n + 1, _ => 'a');
      assert tmp[..|prefix|] == prefix;
    }

    /** The statements of one table; `Finished` when the table was copied or is not in the source. */
    method CopyTable(src: Db, table: string, dst: Db, fault: Fault) returns (e: Ending, after: Db, n: nat)
      ensures e == Rejected || e == EndingOf(fault)
      ensures e == Finished ==>
                && Ident(table) && (table in src ==> table !in dst && forall c | c in src[table].columns :: Ident(c))
                && after == (if table in src then dst[table := Table(src[table].columns, InsertAll([], src[table].rows))] else dst)
                && n == (if table in src then |src[table].rows| else 0)
      ensures e == Rejected ==>
                !Ident(table) || (table in src && (table in dst || exists c | c in src[table].columns :: !Ident(c)))
    {
      hide InsertAll, Ident;
      after, n := dst, 0;
      if !Ident(table) {
        return Rejected, after, n;
      }
      var here: bool := *;
      if here && fault.Some? {
        return fault.value, after, n;
      }
      if table !in src {
        return EndingOf(fault), after, n;
      }
      if table in dst {
        return Rejected, after, n;
      }
      var cols := src[table].columns;
      for k := 0 to |cols|
        invariant forall c | c in cols[..k] :: Ident(c)
      {
        assert cols[..k + 1] == cols[..k] + [cols[k]];
        if !Ident(cols[k]) {
          assert cols[k] in cols;
          return Rejected, after, n;
        }
      }
      assert cols[..|cols|] == cols;
      var rows := src[table].rows;
      var done: seq<Row> := [];
      InsertNone([]);
      assert rows[..0] == [];
      for k := 0 to |rows|
        invariant done == InsertAll([], rows[..k])
      {
        InsertSnoc([], rows, k);
        if !Conflicts(done, rows[k]) {
          done := done + [rows[k]];
        }
      }
      assert rows[..|rows|] == rows;
      after := dst[table := Table(cols, done)];
      n := |rows|;
      e := EndingOf(fault);
    }

    /** The table loop of `_atomic_table_copy`. */
    method CopyAll(src: Db, tables: seq<string>, fault: Fault) returns (e: Ending, dst: Db, total: nat)
      requires SENTINEL !in tables
      ensures e == Rejected || e == EndingOf(fault)
      ensures e == Finished ==> dst == CopyTables(src, tables) && total == CountRows(src, tables) && Migratable(src, tables)
      ensures e == Rejected ==> !Migratable(src, tables)
    {
      hide InsertAll, Ident;
      dst, total := map[], 0;
      for k := 0 to |tables|
        invariant dst == CopyTables(src, tables[..k]) && total == CountRows(src, tables[..k])
        invariant Migratable(src, tables[..k])
        invariant forall t :: t in dst <==> t in tables[..k] && t in src
        modifies {}
      {
        assert tables[..k + 1][..k] == tables[..k] && tables[..k + 1] == tables[..k] + [tables[k]];
        var n;
        var here: bool := *;
        e, dst, n := CopyTable(src, tables[k], dst, if here then fault else None);
        if e == Rejected {
          NotMigratable(src, tables, k);
        }
        if e != Finished {
          return;
        }
        total := total + n;
        MigratableSnoc(src, tables, k);
      }
      assert tables[..|tables|] == tables;
      e := EndingOf(fault);
    }

    /** The part of `_atomic_table_copy` under `try`: fill the temporary database and commit, or remove it. */
    method FillTemp(tmp: string, src: Db, tables: seq<string>, fault: Fault) returns (e: Ending, total: nat)
      requires SENTINEL !in tables && tmp in files
      modifies this
      ensures e == Rejected || e == EndingOf(fault)
      ensures e == Finished ==>
                files == old(files)[tmp := Migrated(src, tables)] && total == CountRows(src, tables) && Migratable(src, tables)
      ensures e == Rejected ==> !Migratable(src, tables)
      ensures e != Finished ==> files == old(files) || files == old(files) - {tmp}
    {
      hide CopyTables, Migratable, CountRows;
      var dst;
      e, dst, total := CopyAll(src, tables, fault);
      if e == Finished {
        files := files[tmp := dst[SENTINEL := Table(["migrated_at"], [Row(None, ["now"])])]];
        return;
      }
      if e != Killed {
        if * {
          files := files - {tmp};
        }
      }
    }

    /** `_atomic_table_copy`: a temporary database, then a rename. */
    method AtomicTableCopy(srcName: string, dstName: string, tables: seq<string>, prefix: string, fault: Fault)
      returns (e: Ending, total: nat)
      requires SENTINEL !in tables && !IsTemp(srcName, prefix) && !IsTemp(dstName, prefix)
      modifies this
      ensures e == Rejected || e == EndingOf(fault)
      ensures e == Finished ==>
                files == if srcName in old(files) then old(files)[dstName := Migrated(old(files)[srcName], tables)] else old(files)
      ensures e == Finished ==> total == if srcName in old(files) then CountRows(old(files)[srcName], tables) else 0
      ensures e == Finished && srcName in old(files) ==> Migratable(old(files)[srcName], tables)
      ensures e == Rejected ==> srcName in old(files) && !Migratable(old(files)[srcName], tables)
      ensures e != Finished ==> Littered(old(files), files, prefix)
    {
      hide Migrated, Migratable, IsTemp, CountRows, Littered;
      ghost var before := files;
      NoLitter(files, prefix);
      total := 0;
      if srcName !in files {
        return EndingOf(fault), total;
      }
      var here: bool := *;
      if here && fault.Some? {
        return fault.value, total;
      }
      var tmp: string := *;
      if !IsTemp(tmp, prefix) || tmp in files {
        tmp := FreshTemp(prefix);
      }
      files := files[tmp := map[]];
      here := *;
      e, total := FillTemp(tmp, files[srcName], tables, if here then fault else None);
      if e != Finished {
        TempLeft(before, map[], tmp, files, prefix);
        return;
      }
      if fault.Some? {
        TempLeft(before, files[tmp], tmp, files, prefix);
        return fault.value, total;
      }
      Renamed(before, files, tmp, dstName);
      files := (files - {tmp})[dstName := files[tmp]];
    }

    /** `_ensure_config_db` and `_ensure_discord_db`; `readFails` is an `sqlite3.Error` while looking for the sentinel. */
    method Ensure(srcName: string, dstName: string, tables: seq<string>, prefix: string, readFails: bool, fault: Fault)
      returns (e: Ending)
      requires SENTINEL !in tables && !IsTemp(srcName, prefix) && !IsTemp(dstName, prefix) && srcName != dstName
      modifies this
      ensures Startup(old(files), files, srcName, dstName, tables, prefix, readFails, e)
      ensures e == Rejected || Kept(old(files), dstName, readFails) || e == EndingOf(fault)
      ensures fault.None? ==>
                e == if Succeeds(old(files), srcName, dstName, tables, readFails) then Finished else Rejected
    {
      hide Migrated, Migratable, IsTemp;
      var here: bool := *;
      if dstName in files && (readFails || !HasSentinel(files[dstName])) {
        if here && fault.Some? {
          return fault.value;
        }
        files := files - {dstName};
        here := *;
        if here && fault.Some? {
          return fault.value;
        }
      }
      e := Finished;
      if dstName !in files {
        var total;
        e, total := AtomicTableCopy(srcName, dstName, tables, prefix, fault);
      }
    }
  }

  /** A destination is kept when it carries the sentinel and the sentinel can be read. */
  predicate Kept(files: Files, dst: string, readFails: bool) { dst in files && !readFails && HasSentinel(files[dst]) }

  /** There is nothing to do, or every listed table and column of the source has a plain name. */
  predicate Succeeds(files: Files, src: string, dst: string, tables: seq<string>, readFails: bool) {
    Kept(files, dst, readFails) || (src in files ==> Migratable(files[src], tables))
  }

  /** What one start-up may do to the files. */
  predicate Startup(before: Files, after: Files, src: string, dst: string, tables: seq<string>, prefix: string,
                    readFails: bool, e: Ending)
  {
    if Kept(before, dst, readFails) then after == before && e == Finished
    else
      var cleared := before - {dst};
      match e
      case Finished =>
        if src in before then Migratable(before[src], tables) && after == cleared[dst := Migrated(before[src], tables)]
        else after == cleared
      case Rejected => src in before && !Migratable(before[src], tables) && Littered(cleared, after, prefix)
      case _ => after == before || Littered(cleared, after, prefix)
  }

  lemma NoLitter(files: Files, prefix: string)
    ensures Littered(files, files, prefix)
  {
  }

  lemma TempLeft(before: Files, db: Db, tmp: string, after: Files, prefix: string)
    requires IsTemp(tmp, prefix) && tmp !in before && (after == before[tmp := db] || after == before[tmp := db] - {tmp})
    ensures Littered(before, after, prefix)
  {
    hide IsTemp;
  }

  lemma Renamed(before: Files, files: Files, tmp: string, dst: string)
    requires tmp !in before && tmp in files && tmp != dst && files == before[tmp := files[tmp]]
    ensures (files - {tmp})[dst := files[tmp]] == before[dst := files[tmp]]
  {
  }

  lemma NotMigratable(src: Db, tables: seq<string>, k: nat)
    requires k < |tables|
    requires var t := tables[k];
             || !Ident(t) || (t in src && exists c | c in src[t].columns :: !Ident(c))
             || (t in src && t in tables[..k])
    ensures !Migratable(src, tables)
  {
    var t := tables[k];
    assert t in tables;
    if t in src && t in tables[..k] {
      var i :| 0 <= i < k && tables[..k][i] == t;
      assert tables[i] == tables[k];
    }
  }

  lemma MigratableSnoc(src: Db, tables: seq<string>, k: nat)
    requires k < |tables| && Migratable(src, tables[..k])
    requires var t := tables[k];
             Ident(t) && t != SENTINEL && (t in src ==> t !in tables[..k] && forall c | c in src[t].columns :: Ident(c))
    ensures Migratable(src, tables[..k + 1])
  {
    hide Ident;
    var ts := tables[..k + 1];
    assert ts == tables[..k] + [tables[k]];
    forall i, j | 0 <= i < j < |ts| && ts[i] == ts[j]
      ensures ts[i] !in src
    {
      if j < k {
        assert tables[..k][i] == tables[..k][j];
      } else {
        assert tables[..k][i] == tables[k];
      }
    }
  }

  lemma InsertSnoc(rows: seq<Row>, more: seq<Row>, k: nat)
    requires k < |more|
    ensures InsertAll(rows, more[..k + 1])
            == if Conflicts(InsertAll(rows, more[..k]), more[k]) then InsertAll(rows, more[..k])
               else InsertAll(rows, more[..k]) + [more[k]]
  {
    assert more[..k + 1][..k] == more[..k];
  }
}

/** The migration of legacy vhtlc rows: a loop with several failure points, crashes, and an irreversible final drop. */
module Migration {
  import opened Results

  /** What a row means, which no failure changes: the recomputed id of the vhtlc, and the script of its contract. */
  datatype World = World(idOf: string -> Option<string>, scriptOf: string -> Option<string>)

  /** The legacy rows while the table exists, the new table, and the contract manager's scripts and import calls. */
  datatype Db = Db(legacy: Option<seq<string>>, vhtlcs: map<string, string>, tracked: set<string>, imports: seq<string>)

  /** Which of the calls for a row fail. */
  datatype Faults = Faults(get: bool, lookup: bool, importing: bool, add: bool)

  const NO_FAULTS := Faults(false, false, false, false)

  /** The import of the contract, unless it is tracked already or the call fails. */
  function Imported(db: Db, script: string, f: Faults): Db {
    if script in db.tracked || f.importing then db
    else db.(tracked := db.tracked + {script}, imports := db.imports + [script])
  }

  /** The insertion of the id, which fails for an id that is taken. */
  function Recorded(db: Db, id: string, script: string, f: Faults): Db {
    if f.add || id in db.vhtlcs then db else db.(vhtlcs := db.vhtlcs[id := script])
  }

  datatype RowResult = Migrated | AlreadyThere | Skipped

  /** One pass of the loop body. */
  function Row(w: World, db: Db, row: string, f: Faults): (Db, RowResult) {
    if w.idOf(row).None? then (db, Skipped)
    else
      var id := w.idOf(row).value;
      if !f.get && id in db.vhtlcs then (db, AlreadyThere)
      else if w.scriptOf(row).None? || f.lookup then (db, Skipped)
      else
        var script := w.scriptOf(row).value;
        if script !in db.tracked && f.importing then (db, Skipped)
        else
          var db' := Imported(db, script, f);
          if f.add || id in db.vhtlcs then (db', Skipped) else (Recorded(db', id, script, f), Migrated)
  }

  /** The first n rows, each with its faults. */
  function Rows(w: World, db: Db, rows: seq<string>, faults: seq<Faults>, n: nat): (Db, nat, nat)
    requires n <= |rows| <= |faults|
  {
    if n == 0 then (db, 0, 0)
    else
      var (d, migrated, skipped) := Rows(w, db, rows, faults, n - 1);
      var (d', r) := Row(w, d, rows[n - 1], faults[n - 1]);
      (d', migrated + if r.Migrated? then 1 else 0, skipped + if r.Skipped? then 1 else 0)
  }

  /** The store and the contract manager that migrateVhtlcs works on. */
  class Migrator {
    var db: Db
    const w: World

    constructor (w: World, db: Db)
      ensures this.db == db && this.w == w
    {
      this.w, this.db := w, db;
    }

    /** migrateVhtlcs, with the faults of its calls for each row, of the reads before the loop, and of the drop. */
    method MigrateVhtlcs(readFails: bool, faults: seq<Faults>, dropFails: bool)
      returns (migrated: nat, skipped: nat, err: bool)
      requires db.legacy.Some? ==> |faults| >= |db.legacy.value|
      modifies this`db
      ensures readFails || old(db).legacy.None? ==> db == old(db) && migrated == 0 && skipped == 0 && err == readFails
      ensures !readFails && old(db).legacy.Some? ==>
        var rows := old(db).legacy.value;
        var (d, m, k) := Rows(w, old(db), rows, faults, |rows|);
        && migrated == m && skipped == k && err == (skipped == 0 && dropFails)
        && db == if skipped == 0 && !dropFails then d.(legacy := None) else d
    {
      migrated, skipped, err := 0, 0, false;
      if readFails {
        return 0, 0, true;
      }
      if db.legacy.None? {
        return;
      }
      var rows := db.legacy.value;
      var i := 0;
      while i < |rows|
        invariant 0 <= i <= |rows|
        invariant (db, migrated, skipped) == Rows(w, old(db), rows, faults, i)
      {
        var row, f := rows[i], faults[i];
        i := i + 1;
        var built := w.idOf(row);
        if built.None? {
          skipped := skipped + 1;
          continue;
        }
        var id := built.value;
        if !f.get && id in db.vhtlcs {
          continue;
        }
        var contract := w.scriptOf(row);
        if contract.None? {
          skipped := skipped + 1;
          continue;
        }
        if f.lookup {
          skipped := skipped + 1;
          continue;
        }
        var script := contract.value;
        if script !in db.tracked {
          if f.importing {
            skipped := skipped + 1;
            continue;
          }
          db := db.(tracked := db.tracked + {script}, imports := db.imports + [script]);
        }
        if f.add || id in db.vhtlcs {
          skipped := skipped + 1;
          continue;
        }
        db := db.(vhtlcs := db.vhtlcs[id := script]);
        migrated := migrated + 1;
      }
      if skipped == 0 {
        if dropFails {
          err := true;
        } else {
          db := db.(legacy := None);
        }
      }
    }
  }

  // ---- When the drop happens ----

  lemma RowKeeps(w: World, db: Db, row: string, f: Faults)
    ensures var (d, r) := Row(w, db, row, f);
      && (forall id :: id in db.vhtlcs ==> id in d.vhtlcs && d.vhtlcs[id] == db.vhtlcs[id])
      && d.legacy == db.legacy
      && (!r.Skipped? ==> w.idOf(row).Some? && w.idOf(row).value in d.vhtlcs)
  {}

  lemma {:induction false} NoSkipMeansAll(w: World, db: Db, rows: seq<string>, faults: seq<Faults>, n: nat)
    requires n <= |rows| <= |faults| && Rows(w, db, rows, faults, n).2 == 0
    ensures forall j :: 0 <= j < n ==>
      w.idOf(rows[j]).Some? && w.idOf(rows[j]).value in Rows(w, db, rows, faults, n).0.vhtlcs
    ensures Rows(w, db, rows, faults, n).0.legacy == db.legacy
  {
    if n > 0 {
      NoSkipMeansAll(w, db, rows, faults, n - 1);
      RowKeeps(w, Rows(w, db, rows, faults, n - 1).0, rows[n - 1], faults[n - 1]);
    }
  }

  /** A pass counts what it records. */
  lemma {:induction false} MigratedCounts(w: World, db: Db, rows: seq<string>, faults: seq<Faults>, n: nat)
    requires n <= |rows| <= |faults|
    ensures var (d, migrated, skipped) := Rows(w, db, rows, faults, n);
      |d.vhtlcs| == |db.vhtlcs| + migrated && migrated + skipped <= n
  {
    hide Row;
    if n > 0 {
      MigratedCounts(w, db, rows, faults, n - 1);
      RowCounts(w, Rows(w, db, rows, faults, n - 1).0, rows[n - 1], faults[n - 1]);
    }
  }

  lemma RowCounts(w: World, db: Db, row: string, f: Faults)
    ensures var (d, r) := Row(w, db, row, f);
      |d.vhtlcs| == |db.vhtlcs| + if r.Migrated? then 1 else 0
  {
    hide Imported;
    if w.idOf(row).Some? && w.scriptOf(row).Some? {
      SameTable(db, w.scriptOf(row).value, f);
    }
  }

  lemma SameTable(db: Db, script: string, f: Faults)
    ensures Imported(db, script, f).vhtlcs == db.vhtlcs
  {}

  /** A row whose calls all succeed is skipped only when it cannot be rebuilt. */
  lemma CleanRow(w: World, db: Db, row: string)
    ensures var (d, r) := Row(w, db, row, NO_FAULTS);
      && (r.Skipped? <==> w.idOf(row).None? || (w.idOf(row).value !in db.vhtlcs && w.scriptOf(row).None?))
      && (forall id :: id in d.vhtlcs <==> (id in db.vhtlcs || (w.idOf(row) == Some(id) && w.scriptOf(row).Some?)))
  {}

  /**
   * A row that can be rebuilt and is not recorded yet is recorded unless a call it needs fails; that of the first
   * query is not needed.
   */
  lemma UnrecordedRow(w: World, db: Db, row: string, f: Faults, id: string, script: string)
    requires w.idOf(row) == Some(id) && w.scriptOf(row) == Some(script) && id !in db.vhtlcs
    ensures var (d, r) := Row(w, db, row, f);
      && (r == if f.lookup || (f.importing && script !in db.tracked) || f.add then Skipped else Migrated)
      && (id in d.vhtlcs <==> r == Migrated)
      && (script in d.tracked <==> script in db.tracked || (!f.lookup && !f.importing))
  {}

  // ---- Runs that crash ----

  /** How far the row in progress got when the process died. */
  datatype Cut = BeforeImport | AfterImport | AfterAdd

  /** The effects of a row that is cut off. */
  function CutRow(w: World, db: Db, row: string, f: Faults, cut: Cut): Db {
    match cut
    case BeforeImport => db
    case AfterImport => Row(w, db, row, f.(add := true)).0
    case AfterAdd => Row(w, db, row, f).0
  }

  /** One start of the migration: it crashes in row n, or goes through and drops the table when it may. */
  ghost predicate Starts(w: World, db: Db, db': Db, faults: seq<Faults>, n: nat, cut: Cut, drops: bool) {
    if db.legacy.None? then db' == db
    else
      var rows := db.legacy.value;
      && |faults| >= |rows| && n <= |rows|
      && var (d, _, skipped) := Rows(w, db, rows, faults, n);
         if n < |rows| then db' == CutRow(w, d, rows[n], faults[n], cut)
         else db' == if skipped == 0 && drops then d.(legacy := None) else d
  }

  ghost predicate Start(w: World, db: Db, db': Db) {
    exists faults: seq<Faults>, n: nat, cut: Cut, drops: bool :: Starts(w, db, db', faults, n, cut, drops)
  }

  /** Any number of starts, crashed or not. */
  ghost predicate IsHistory(w: World, dbs: seq<Db>) {
    |dbs| > 0 && forall i :: 0 < i < |dbs| ==> Start(w, dbs[i - 1], dbs[i])
  }

  function NoFaults(n: nat): (f: seq<Faults>)
    ensures |f| == n && forall i :: 0 <= i < n ==> f[i] == NO_FAULTS
  {
    seq(n, i => NO_FAULTS)
  }

  /** A start that nothing disturbs. */
  function CleanRun(w: World, db: Db): Db {
    if db.legacy.None? then db
    else
      var rows := db.legacy.value;
      var (d, _, skipped) := Rows(w, db, rows, NoFaults(|rows|), |rows|);
      if skipped == 0 then d.(legacy := None) else d
  }

  /** One of the first n rows has the id and can be rebuilt. */
  ghost predicate Builds(w: World, rows: seq<string>, n: nat, id: string)
    requires n <= |rows|
  {
    exists i :: 0 <= i < n && w.idOf(rows[i]) == Some(id) && w.scriptOf(rows[i]).Some?
  }

  /** The row's id is recorded already, or will be by this row or one before it. */
  ghost predicate Covered(w: World, rows: seq<string>, v: map<string, string>, j: nat)
    requires j < |rows|
  {
    w.idOf(rows[j]).Some? && (w.idOf(rows[j]).value in v || Builds(w, rows, j + 1, w.idOf(rows[j]).value))
  }

  lemma BuildsMore(w: World, rows: seq<string>, n: nat, id: string)
    requires 0 < n <= |rows|
    ensures Builds(w, rows, n, id) <==>
      Builds(w, rows, n - 1, id) || (w.idOf(rows[n - 1]) == Some(id) && w.scriptOf(rows[n - 1]).Some?)
  {}

  lemma {:induction false} CleanPassRecords(w: World, db: Db, rows: seq<string>, n: nat, id: string)
    requires n <= |rows|
    ensures var v := Rows(w, db, rows, NoFaults(|rows|), n).0.vhtlcs;
      id in v <==> id in db.vhtlcs || Builds(w, rows, n, id)
  {
    if n > 0 {
      hide Row, Builds;
      CleanPassRecords(w, db, rows, n - 1, id);
      CleanRow(w, Rows(w, db, rows, NoFaults(|rows|), n - 1).0, rows[n - 1]);
      BuildsMore(w, rows, n, id);
    }
  }

  lemma {:induction false} CleanPassSkips(w: World, db: Db, rows: seq<string>, n: nat)
    requires n <= |rows|
    ensures Rows(w, db, rows, NoFaults(|rows|), n).2 == 0 <==>
      forall j :: 0 <= j < n ==> Covered(w, rows, db.vhtlcs, j)
  {
    if n > 0 {
      hide Row, Builds;
      CleanPassSkips(w, db, rows, n - 1);
      var d := Rows(w, db, rows, NoFaults(|rows|), n - 1).0;
      CleanRow(w, d, rows[n - 1]);
      if w.idOf(rows[n - 1]).Some? {
        var id := w.idOf(rows[n - 1]).value;
        CleanPassRecords(w, db, rows, n - 1, id);
        BuildsMore(w, rows, n, id);
        assert n - 1 + 1 == n;
      }
      assert Row(w, d, rows[n - 1], NO_FAULTS).1.Skipped? <==> !Covered(w, rows, db.vhtlcs, n - 1);
    }
  }

  /** An undisturbed start drops the legacy table exactly when each row is recorded or can be. */
  lemma DropsExactly(w: World, db: Db, rows: seq<string>)
    requires db.legacy == Some(rows)
    ensures CleanRun(w, db).legacy == None <==> forall j :: 0 <= j < |rows| ==> Covered(w, rows, db.vhtlcs, j)
  {
    hide Rows, Covered;
    CleanPassSkips(w, db, rows, |rows|);
    LegacyStays(w, db, rows, |rows|);
  }

  lemma {:induction false} LegacyStays(w: World, db: Db, rows: seq<string>, n: nat)
    requires n <= |rows|
    ensures Rows(w, db, rows, NoFaults(|rows|), n).0.legacy == db.legacy
  {
    if n > 0 {
      LegacyStays(w, db, rows, n - 1);
      RowKeeps(w, Rows(w, db, rows, NoFaults(|rows|), n - 1).0, rows[n - 1], NO_FAULTS);
    }
  }

  // ---- What every history keeps ----

  /** A row that can be migrated. */
  predicate Good(w: World, row: string) {
    w.idOf(row).Some? && w.scriptOf(row).Some?
  }

  /**
   * Rows with one id that is not recorded yet have one script; a legacy table keyed by that id has only one such row.
   */
  predicate Consistent(w: World, rows: seq<string>, v0: map<string, string>) {
    forall i, j :: 0 <= i < |rows| && 0 <= j < |rows| && Clash(w, rows, i, j) ==> w.idOf(rows[i]).value in v0
  }

  predicate Clash(w: World, rows: seq<string>, i: nat, j: nat)
    requires i < |rows| && j < |rows|
  {
    Good(w, rows[i]) && Good(w, rows[j]) && w.idOf(rows[i]) == w.idOf(rows[j]) &&
        w.scriptOf(rows[i]) != w.scriptOf(rows[j])
  }

  /** v holds what v0 held, and otherwise only ids of rows, with their scripts. */
  ghost predicate Between(w: World, rows: seq<string>, v0: map<string, string>, v: map<string, string>) {
    && (forall id :: id in v0 ==> id in v && v[id] == v0[id])
    && (forall id :: id in v && id !in v0 ==>
          exists j :: 0 <= j < |rows| && Good(w, rows[j]) && w.idOf(rows[j]).value == id &&
              w.scriptOf(rows[j]).value == v[id])
  }

  /** v holds every row that can be migrated. */
  predicate Complete(w: World, rows: seq<string>, v: map<string, string>) {
    forall j :: 0 <= j < |rows| && Good(w, rows[j]) ==> w.idOf(rows[j]).value in v
  }

  /** There is only one complete table. */
  lemma CompleteIsUnique(w: World, rows: seq<string>, v0: map<string, string>, a: map<string, string>,
                         b: map<string, string>)
    requires Consistent(w, rows, v0) && Between(w, rows, v0, a) && Between(w, rows, v0, b) && Complete(w, rows, a) &&
      Complete(w, rows, b)
    ensures a == b
  {
    CompleteAgrees(w, rows, v0, a, b);
    CompleteAgrees(w, rows, v0, b, a);
  }

  lemma CompleteAgrees(w: World, rows: seq<string>, v0: map<string, string>, a: map<string, string>,
                       b: map<string, string>)
    requires Consistent(w, rows, v0) && Between(w, rows, v0, a) && Between(w, rows, v0, b) && Complete(w, rows, b)
    ensures forall id :: id in a ==> id in b && b[id] == a[id]
  {
    forall id | id in a ensures id in b && b[id] == a[id] {
      if id !in v0 {
        var j :| 0 <= j < |rows| && Good(w, rows[j]) && w.idOf(rows[j]).value == id &&
            w.scriptOf(rows[j]).value == a[id];
        assert id in b;
        var k :| 0 <= k < |rows| && Good(w, rows[k]) && w.idOf(rows[k]).value == id &&
            w.scriptOf(rows[k]).value == b[id];
        assert !Clash(w, rows, j, k);
      }
    }
  }

  lemma RowBetween(w: World, db: Db, rows: seq<string>, v0: map<string, string>, j: nat, f: Faults)
    requires j < |rows| && Between(w, rows, v0, db.vhtlcs)
    ensures Between(w, rows, v0, Row(w, db, rows[j], f).0.vhtlcs)
  {}

  lemma {:induction false} RowsBetween(w: World, db: Db, rows: seq<string>, faults: seq<Faults>, n: nat,
                                       v0: map<string, string>)
    requires n <= |rows| <= |faults| && Between(w, rows, v0, db.vhtlcs)
    ensures Between(w, rows, v0, Rows(w, db, rows, faults, n).0.vhtlcs)
    ensures Rows(w, db, rows, faults, n).0.legacy == db.legacy
  {
    hide Between;
    if n > 0 {
      RowsBetween(w, db, rows, faults, n - 1, v0);
      var d := Rows(w, db, rows, faults, n - 1).0;
      RowBetween(w, d, rows, v0, n - 1, faults[n - 1]);
      RowKeeps(w, d, rows[n - 1], faults[n - 1]);
    }
  }

  /** Each script is imported at most once, and never when it was tracked before. */
  ghost predicate ImportedOnce(tracked0: set<string>, imports0: seq<string>, db: Db) {
    && imports0 <= db.imports
    && (forall i :: |imports0| <= i < |db.imports| ==> db.imports[i] in db.tracked && db.imports[i] !in tracked0)
    && (forall i, j :: |imports0| <= i < j < |db.imports| ==> db.imports[i] != db.imports[j])
    && tracked0 <= db.tracked
  }

  lemma RowImportsOnce(w: World, db: Db, row: string, f: Faults, t0: set<string>, i0: seq<string>)
    requires ImportedOnce(t0, i0, db)
    ensures ImportedOnce(t0, i0, Row(w, db, row, f).0)
  {}

  lemma {:induction false} RowsImportOnce(w: World, db: Db, rows: seq<string>, faults: seq<Faults>, n: nat,
                                          t0: set<string>, i0: seq<string>)
    requires n <= |rows| <= |faults| && ImportedOnce(t0, i0, db)
    ensures ImportedOnce(t0, i0, Rows(w, db, rows, faults, n).0)
  {
    hide ImportedOnce;
    if n > 0 {
      RowsImportOnce(w, db, rows, faults, n - 1, t0, i0);
      RowImportsOnce(w, Rows(w, db, rows, faults, n - 1).0, rows[n - 1], faults[n - 1], t0, i0);
    }
  }

  /** What is newly recorded is tracked, and what is newly tracked has been imported. */
  ghost predicate Followed(first: Db, db: Db) {
    && first.imports <= db.imports
    && (forall id :: id in db.vhtlcs && id !in first.vhtlcs ==> db.vhtlcs[id] in db.tracked)
    && (forall script :: script in db.tracked <==> script in first.tracked || script in db.imports[|first.imports|..])
  }

  lemma FollowedAtFirst(first: Db)
    ensures Followed(first, first)
  {
    assert first.imports[|first.imports|..] == [];
  }

  lemma ImportFollows(first: Db, db: Db, script: string, f: Faults)
    requires Followed(first, db)
    ensures Followed(first, Imported(db, script, f))
  {
    var d := Imported(db, script, f);
    if d != db {
      assert d.imports[|first.imports|..] == db.imports[|first.imports|..] + [script];
    }
  }

  lemma RecordFollows(first: Db, db: Db, id: string, script: string, f: Faults)
    requires Followed(first, db) && script in db.tracked
    ensures Followed(first, Recorded(db, id, script, f))
  {}

  lemma RowFollows(w: World, first: Db, db: Db, row: string, f: Faults)
    requires Followed(first, db)
    ensures Followed(first, Row(w, db, row, f).0)
  {
    hide Followed, Recorded;
    if w.idOf(row).Some? && w.scriptOf(row).Some? {
      var script := w.scriptOf(row).value;
      ImportFollows(first, db, script, f);
      if script in Imported(db, script, f).tracked {
        RecordFollows(first, Imported(db, script, f), w.idOf(row).value, script, f);
      }
    }
  }

  lemma {:induction false} RowsFollow(w: World, first: Db, db: Db, rows: seq<string>, faults: seq<Faults>, n: nat)
    requires n <= |rows| <= |faults| && Followed(first, db)
    ensures Followed(first, Rows(w, db, rows, faults, n).0)
  {
    hide Followed, Row;
    if n > 0 {
      RowsFollow(w, first, db, rows, faults, n - 1);
      RowFollows(w, first, Rows(w, db, rows, faults, n - 1).0, rows[n - 1], faults[n - 1]);
    }
  }

  lemma DroppedFollows(first: Db, db: Db)
    requires Followed(first, db)
    ensures Followed(first, db.(legacy := None))
  {}

  /** The invariant of histories that began with the rows and the table v0. */
  ghost predicate Inv(w: World, rows: seq<string>, first: Db, db: Db) {
    && Between(w, rows, first.vhtlcs, db.vhtlcs) && ImportedOnce(first.tracked, first.imports, db)
    && Followed(first, db)
    && (db.legacy == Some(rows) || (db.legacy == None && AllThere(w, rows, db.vhtlcs)))
  }

  /** Every row's id is in the table. */
  predicate AllThere(w: World, rows: seq<string>, v: map<string, string>) {
    forall j :: 0 <= j < |rows| ==> w.idOf(rows[j]).Some? && w.idOf(rows[j]).value in v
  }

  lemma StartKeeps(w: World, rows: seq<string>, first: Db, db: Db, db': Db)
    requires Inv(w, rows, first, db) && Start(w, db, db')
    ensures Inv(w, rows, first, db')
  {
    hide Between, ImportedOnce, Followed, Row, Rows;
    if db.legacy == Some(rows) {
      var faults: seq<Faults>, n: nat, cut: Cut, drops: bool :| Starts(w, db, db', faults, n, cut, drops);
      var d := Rows(w, db, rows, faults, n).0;
      RowsBetween(w, db, rows, faults, n, first.vhtlcs);
      RowsImportOnce(w, db, rows, faults, n, first.tracked, first.imports);
      RowsFollow(w, first, db, rows, faults, n);
      if n < |rows| {
        var f := if cut == AfterImport then faults[n].(add := true) else faults[n];
        RowBetween(w, d, rows, first.vhtlcs, n, f);
        RowImportsOnce(w, d, rows[n], f, first.tracked, first.imports);
        RowFollows(w, first, d, rows[n], f);
        RowKeeps(w, d, rows[n], f);
      } else if Rows(w, db, rows, faults, n).2 == 0 {
        NoSkipMeansAll(w, db, rows, faults, n);
        DroppedImports(first, d);
        DroppedFollows(first, d);
      }
    }
  }

  lemma DroppedImports(first: Db, d: Db)
    requires ImportedOnce(first.tracked, first.imports, d)
    ensures ImportedOnce(first.tracked, first.imports, d.(legacy := None))
  {}

  lemma {:induction false} HistoryKeeps(w: World, rows: seq<string>, dbs: seq<Db>, i: nat)
    requires IsHistory(w, dbs) && i < |dbs| && dbs[0].legacy == Some(rows)
    ensures Inv(w, rows, dbs[0], dbs[i])
  {
    hide Start;
    FollowedAtFirst(dbs[0]);
    if i > 0 {
      hide Inv, Followed;
      HistoryKeeps(w, rows, dbs, i - 1);
      assert Start(w, dbs[i - 1], dbs[i]);
      StartKeeps(w, rows, dbs[0], dbs[i - 1], dbs[i]);
    }
  }

  // ---- Main results ----

  /** The legacy table is gone only when every row's id is in the new table. */
  lemma DroppedOnlyWhenComplete(w: World, rows: seq<string>, dbs: seq<Db>, i: nat)
    requires IsHistory(w, dbs) && i < |dbs| && dbs[0].legacy == Some(rows) && dbs[i].legacy == None
    ensures AllThere(w, rows, dbs[i].vhtlcs)
  {
    HistoryKeeps(w, rows, dbs, i);
  }

  /** However often the migration starts and crashes, no script is imported twice. */
  lemma EachScriptImportedOnce(w: World, rows: seq<string>, dbs: seq<Db>, i: nat, a: nat, b: nat)
    requires IsHistory(w, dbs) && i < |dbs| && dbs[0].legacy == Some(rows)
    requires |dbs[0].imports| <= a < b < |dbs[i].imports|
    ensures dbs[i].imports[a] != dbs[i].imports[b] && dbs[i].imports[a] !in dbs[0].tracked
  {
    HistoryKeeps(w, rows, dbs, i);
  }

  /**
   * What every start records, crashed or not, it has given to the contract manager before: the scripts of the newly
   * recorded ids are tracked, and just those scripts are newly tracked that were imported.
   */
  lemma RecordedIsTracked(w: World, rows: seq<string>, dbs: seq<Db>, i: nat, id: string)
    requires IsHistory(w, dbs) && i < |dbs| && dbs[0].legacy == Some(rows)
    requires id in dbs[i].vhtlcs && id !in dbs[0].vhtlcs
    ensures dbs[0].imports <= dbs[i].imports
    ensures var script := dbs[i].vhtlcs[id];
      && script in dbs[i].tracked
      && (script !in dbs[0].tracked ==> script in dbs[i].imports[|dbs[0].imports|..])
      && (script in dbs[0].tracked ==> script !in dbs[i].imports[|dbs[0].imports|..])
    ensures forall s :: s in dbs[i].tracked <==> s in dbs[0].tracked || s in dbs[i].imports[|dbs[0].imports|..]
  {
    HistoryKeeps(w, rows, dbs, i);
    hide Between, IsHistory;
    var news := dbs[i].imports[|dbs[0].imports|..];
    forall k | 0 <= k < |news| ensures news[k] !in dbs[0].tracked {
      assert news[k] == dbs[i].imports[|dbs[0].imports| + k];
    }
  }

  /**
   * Once the legacy table is gone, each of its rows is recorded, and the script recorded for it, unless it was so at
   * the start, is tracked and was imported exactly once if it was not tracked before.
   */
  lemma DroppedMeansImported(w: World, rows: seq<string>, dbs: seq<Db>, i: nat, j: nat)
    requires IsHistory(w, dbs) && i < |dbs| && dbs[0].legacy == Some(rows) && dbs[i].legacy == None && j < |rows|
    ensures w.idOf(rows[j]).Some? && w.idOf(rows[j]).value in dbs[i].vhtlcs
    ensures var id := w.idOf(rows[j]).value;
      id !in dbs[0].vhtlcs ==>
        && dbs[i].vhtlcs[id] in dbs[i].tracked
        && (dbs[i].vhtlcs[id] !in dbs[0].tracked ==>
              exists k :: OnlyImport(dbs[0], dbs[i], k, dbs[i].vhtlcs[id]))
  {
    DroppedOnlyWhenComplete(w, rows, dbs, i);
    var id := w.idOf(rows[j]).value;
    if id !in dbs[0].vhtlcs {
      RecordedIsTracked(w, rows, dbs, i, id);
      var script := dbs[i].vhtlcs[id];
      if script !in dbs[0].tracked {
        ImportedAt(w, rows, dbs, i, script);
      }
    }
  }

  /** Of the imports since first, the k-th and no other is that of the script. */
  ghost predicate OnlyImport(first: Db, db: Db, k: int, script: string) {
    |first.imports| <= k < |db.imports| &&
        forall l :: |first.imports| <= l < |db.imports| ==> (db.imports[l] == script <==> l == k)
  }

  lemma ImportedAt(w: World, rows: seq<string>, dbs: seq<Db>, i: nat, script: string)
    requires IsHistory(w, dbs) && i < |dbs| && dbs[0].legacy == Some(rows)
    requires |dbs[0].imports| <= |dbs[i].imports| && script in dbs[i].imports[|dbs[0].imports|..]
    ensures exists k :: OnlyImport(dbs[0], dbs[i], k, script)
  {
    HistoryKeeps(w, rows, dbs, i);
    hide Between, IsHistory, Followed;
    var news := dbs[i].imports[|dbs[0].imports|..];
    var m :| 0 <= m < |news| && news[m] == script;
    assert OnlyImport(dbs[0], dbs[i], |dbs[0].imports| + m, script);
  }

  lemma {:induction false} CleanRowsComplete(w: World, db: Db, rows: seq<string>, n: nat)
    requires n <= |rows|
    ensures var v := Rows(w, db, rows, NoFaults(|rows|), n).0.vhtlcs;
      forall j :: 0 <= j < n && Good(w, rows[j]) ==> w.idOf(rows[j]).value in v
  {
    if n > 0 {
      CleanRowsComplete(w, db, rows, n - 1);
      var d := Rows(w, db, rows, NoFaults(|rows|), n - 1).0;
      RowKeeps(w, d, rows[n - 1], NO_FAULTS);
    }
  }

  lemma CleanRunCompletes(w: World, rows: seq<string>, first: Db, db: Db)
    requires Inv(w, rows, first, db)
    ensures Between(w, rows, first.vhtlcs, CleanRun(w, db).vhtlcs) && Complete(w, rows, CleanRun(w, db).vhtlcs)
  {
    hide Between, Row, Rows;
    if db.legacy.Some? {
      CleanRowsComplete(w, db, rows, |rows|);
      RowsBetween(w, db, rows, NoFaults(|rows|), |rows|, first.vhtlcs);
    }
  }

  /**
   * After any number of starts that failed or crashed anywhere, one undisturbed start leaves the table that a single
   * undisturbed start would have left in the first place.
   */
  lemma CrashesDoNotMatter(w: World, rows: seq<string>, dbs: seq<Db>, i: nat)
    requires IsHistory(w, dbs) && i < |dbs| && dbs[0].legacy == Some(rows) && Consistent(w, rows, dbs[0].vhtlcs)
    ensures CleanRun(w, dbs[i]).vhtlcs == CleanRun(w, dbs[0]).vhtlcs
  {
    HistoryKeeps(w, rows, dbs, i);
    HistoryKeeps(w, rows, dbs, 0);
    hide IsHistory, Between, Consistent, Complete, Inv;
    CleanRunCompletes(w, rows, dbs[0], dbs[i]);
    CleanRunCompletes(w, rows, dbs[0], dbs[0]);
    CompleteIsUnique(w, rows, dbs[0].vhtlcs, CleanRun(w, dbs[i]).vhtlcs, CleanRun(w, dbs[0]).vhtlcs);
  }

  /** Whatever failed or crashed before, one undisturbed start leaves the same table. */
  ghost predicate CrashProof(w: World, db: Db) {
    forall dbs: seq<Db>, i: nat :: IsHistory(w, dbs) && i < |dbs| && dbs[0] == db ==>
        CleanRun(w, dbs[i]).vhtlcs == CleanRun(w, db).vhtlcs
  }

  /** That is so if and only if no two rows share an id that is not recorded yet and differ in script. */
  lemma CrashProofExactly(w: World, rows: seq<string>, db: Db)
    requires db.legacy == Some(rows)
    ensures CrashProof(w, db) <==> Consistent(w, rows, db.vhtlcs)
  {
    hide Row, Rows, CleanRun, Start;
    if Consistent(w, rows, db.vhtlcs) {
      forall dbs: seq<Db>, i: nat | IsHistory(w, dbs) && i < |dbs| && dbs[0] == db
        ensures CleanRun(w, dbs[i]).vhtlcs == CleanRun(w, db).vhtlcs
      {
        CrashesDoNotMatter(w, rows, dbs, i);
      }
    } else {
      var i, j :| 0 <= i < |rows| && 0 <= j < |rows| && Clash(w, rows, i, j) && w.idOf(rows[i]).value !in db.vhtlcs;
      ClashMatters(w, rows, db, i, j);
    }
  }

  /** A start in which only the calls for row g succeed. */
  function Only(g: nat, n: nat): (f: seq<Faults>)
    ensures |f| == n && forall k :: 0 <= k < n ==> f[k] == if k == g then NO_FAULTS else NO_FAULTS.(lookup := true)
  {
    seq(n, k => if k == g then NO_FAULTS else NO_FAULTS.(lookup := true))
  }

  lemma {:induction false} OnlyOneRow(w: World, db: Db, rows: seq<string>, g: nat, n: nat)
    requires g < |rows| && n <= |rows|
    ensures Rows(w, db, rows, Only(g, |rows|), n).0 == if n <= g then db else Row(w, db, rows[g], NO_FAULTS).0
  {
    if n > 0 {
      OnlyOneRow(w, db, rows, g, n - 1);
    }
  }

  /** The start that records row g alone, and the undisturbed one after it. */
  lemma RecordedFirst(w: World, rows: seq<string>, db: Db, g: nat)
    requires db.legacy == Some(rows) && g < |rows| && Good(w, rows[g]) && w.idOf(rows[g]).value !in db.vhtlcs &&
      CrashProof(w, db)
    ensures w.idOf(rows[g]).value in CleanRun(w, db).vhtlcs
    ensures CleanRun(w, db).vhtlcs[w.idOf(rows[g]).value] == w.scriptOf(rows[g]).value
  {
    hide Rows, CleanRun, NoFaults, Between, Complete, ImportedOnce;
    var id, script := w.idOf(rows[g]).value, w.scriptOf(rows[g]).value;
    OnlyOneRow(w, db, rows, g, |rows|);
    var d := Row(w, db, rows[g], NO_FAULTS).0;
    assert id in d.vhtlcs && d.vhtlcs[id] == script && d.legacy == db.legacy;
    assert Starts(w, db, d, Only(g, |rows|), |rows|, BeforeImport, false);
    assert IsHistory(w, [db, d]);
    KeptByCleanRun(w, rows, d, id);
    assert [db, d][0] == db && [db, d][1] == d;
  }

  lemma KeptByCleanRun(w: World, rows: seq<string>, db: Db, id: string)
    requires db.legacy == Some(rows) && id in db.vhtlcs
    ensures id in CleanRun(w, db).vhtlcs && CleanRun(w, db).vhtlcs[id] == db.vhtlcs[id]
  {
    hide Rows, Row;
    RowsBetween(w, db, rows, NoFaults(|rows|), |rows|, db.vhtlcs);
  }

  lemma ClashMatters(w: World, rows: seq<string>, db: Db, i: nat, j: nat)
    requires db.legacy == Some(rows) && i < |rows| && j < |rows| && Clash(w, rows, i, j) &&
      w.idOf(rows[i]).value !in db.vhtlcs
    ensures !CrashProof(w, db)
  {
    hide CrashProof, CleanRun;
    if CrashProof(w, db) {
      RecordedFirst(w, rows, db, i);
      RecordedFirst(w, rows, db, j);
    }
  }

  /** For instance, a failed import of one of two rows with the same id changes which script is recorded. */
  lemma OneIdTwoScripts(w: World, a: string, b: string, id: string, s: string, t: string)
    requires w.idOf(a) == Some(id) && w.idOf(b) == Some(id) && w.scriptOf(a) == Some(s) && w.scriptOf(b) == Some(t) &&
      s != t
    ensures var db := Db(Some([a, b]), map[], {}, []);
      var (d, _, _) := Rows(w, db, [a, b], [Faults(false, true, false, false), NO_FAULTS], 2);
      CleanRun(w, d).vhtlcs != CleanRun(w, db).vhtlcs
  {
    var db := Db(Some([a, b]), map[], {}, []);
    var faults := [Faults(false, true, false, false), NO_FAULTS];
    var d := Rows(w, db, [a, b], faults, 2).0;
    assert Rows(w, db, [a, b], faults, 1).0 == db;
    assert d.vhtlcs == map[id := t] && d.legacy == db.legacy;
    TwoRows(w, db, a, b);
    TwoRows(w, d, a, b);
  }

  lemma TwoRows(w: World, db: Db, a: string, b: string)
    requires db.legacy == Some([a, b]) && w.idOf(a).Some? && w.idOf(b) == w.idOf(a) && w.scriptOf(a).Some?
    ensures CleanRun(w, db).vhtlcs
         == if w.idOf(a).value in db.vhtlcs then db.vhtlcs else db.vhtlcs[w.idOf(a).value := w.scriptOf(a).value]
  {
    var rows, faults := [a, b], NoFaults(2);
    var d1 := Rows(w, db, rows, faults, 1).0;
    assert Rows(w, db, rows, faults, 0).0 == db;
    assert d1 == Row(w, db, a, NO_FAULTS).0;
    assert Rows(w, db, rows, faults, 2).0 == Row(w, d1, b, NO_FAULTS).0;
  }
}

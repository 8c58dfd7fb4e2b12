/** `sp_archive_alarm_month`: copy a finished month into its own tables, check, delete in batches. */
module ArchiveProcedure {
  import opened Options
  import opened Calendar
  import opened Decimal
  import opened Faults
  import opened HistoryRows
  import opened IdSets
  import opened Naturals
  import HistoryTables

  type Database = map<string, Table>

  datatype Reason = BadFormat | NotPast | NullRange | LowCount | SqlError
  datatype Outcome = Done | Failed(reason: Reason)
  datatype Status = Running | Completed | Broken

  /** A row of `alarm_archive_runs`. */
  datatype RunRecord = RunRecord(source: string, target: string, status: Status, copied: int, deleted: int)

  const DELETE_BATCH: nat := 5000

  function TableAt(db: Database, name: string): Table {
    if name in db then db[name] else map[]
  }

  function TargetName(base: string, suffix: string): string {
    base + "_" + suffix
  }

  /** `p_month REGEXP '^[0-9]{6}$'`. */
  predicate IsYyyymm(p: string) {
    |p| == 6 && IsDigits(p)
  }

  /** STR_TO_DATE of the month's first day; NULL for a month that does not exist. */
  function MonthOf(p: string): Option<int>
    requires IsYyyymm(p)
  {
    var m := Value(p[4..]);
    if 1 <= m <= 12 then Some(Value(p[..4]) * 12 + m - 1) else None
  }

  /** The procedure and the query builder call a month's table by the same name. */
  lemma TargetIsArchiveName(base: string, p: string)
    requires IsYyyymm(p) && MonthOf(p).Some? && HistoryTables.ValidIdentifier(base)
    ensures HistoryTables.ArchiveName(base, MonthAt(MonthOf(p).value)) == HistoryTables.Ok(TargetName(base, p))
  {
    var y, m := Value(p[..4]), Value(p[4..]);
    PadOfValue(p[..4]);
    PadOfValue(p[4..]);
    assert p == p[..4] + p[4..];
    assert MonthAt(y * 12 + m - 1) == Date(y, m, 1);
    HistoryTables.ArchiveNameValid(base, Date(y, m, 1));
  }

  /** No source table is another one's month table. */
  ghost predicate Roles(enabled: seq<string>, suffix: string) {
    && (forall i, j :: 0 <= i < j < |enabled| ==> enabled[i] != enabled[j])
    && (forall i, j :: 0 <= i < |enabled| && 0 <= j < |enabled| ==> TargetName(enabled[i], suffix) != enabled[j])
  }

  lemma TargetsDiffer(a: string, b: string, suffix: string)
    ensures TargetName(a, suffix) == TargetName(b, suffix) ==> a == b
  {
    var ta, tb := TargetName(a, suffix), TargetName(b, suffix);
    if ta == tb {
      assert |a| == |b| && ta[..|a|] == a && tb[..|b|] == b;
    }
  }

  /** A table is the same in both databases. */
  ghost predicate Same(db: Database, db': Database, name: string) {
    (name in db <==> name in db') && TableAt(db, name) == TableAt(db', name)
  }

  ghost predicate PairPartway(db: Database, db': Database, base: string, suffix: string, k: int) {
    var t := TargetName(base, suffix);
    && (base in db <==> base in db') && (t in db ==> t in db')
    && Partway(TableAt(db, base), TableAt(db, t), TableAt(db', base), TableAt(db', t), k)
  }

  ghost predicate PairDone(db: Database, db': Database, base: string, suffix: string, k: int) {
    var t := TargetName(base, suffix);
    && base in db && base in db' && t in db'
    && db'[base] == Remaining(db[base], k)
    && db'[t] == Copied(db[base], TableAt(db, t), k)
  }

  ghost predicate Involved(enabled: seq<string>, suffix: string, name: string) {
    exists i :: 0 <= i < |enabled| && (enabled[i] == name || TargetName(enabled[i], suffix) == name)
  }

  /** A state in which a call may leave the database. */
  ghost predicate Between(db: Database, db': Database, enabled: seq<string>, suffix: string, k: int) {
    && (forall i :: 0 <= i < |enabled| ==> PairPartway(db, db', enabled[i], suffix, k))
    && (forall name :: !Involved(enabled, suffix, name) ==> Same(db, db', name))
  }

  /** The state after a call that went through. */
  ghost predicate Clean(db: Database, db': Database, enabled: seq<string>, suffix: string, k: int) {
    && (forall i :: 0 <= i < |enabled| ==> PairDone(db, db', enabled[i], suffix, k))
    && (forall name :: !Involved(enabled, suffix, name) ==> Same(db, db', name))
  }

  lemma DoneIsPartway(db: Database, db': Database, base: string, suffix: string, k: int)
    requires PairDone(db, db', base, suffix, k)
    ensures PairPartway(db, db', base, suffix, k)
  {
    assert db[base].Keys - db'[base].Keys <= MonthIds(db[base], k);
  }

  /** A clean run has only one outcome. */
  lemma CleanIsUnique(db: Database, a: Database, b: Database, enabled: seq<string>, suffix: string, k: int)
    requires Clean(db, a, enabled, suffix, k) && Clean(db, b, enabled, suffix, k)
    ensures a == b
  {
    forall name ensures Same(a, b, name) {
      if Involved(enabled, suffix, name) {
        var i :| 0 <= i < |enabled| && (enabled[i] == name || TargetName(enabled[i], suffix) == name);
        assert PairDone(db, a, enabled[i], suffix, k) && PairDone(db, b, enabled[i], suffix, k);
      } else {
        assert Same(db, a, name) && Same(db, b, name);
      }
    }
    assert forall name :: name in a <==> name in b by {
      forall name ensures name in a <==> name in b { assert Same(a, b, name); }
    }
    forall name | name in a ensures a[name] == b[name] { assert Same(a, b, name); }
  }

  /**
   Retry: from wherever a call stopped, a later call that goes through leaves exactly the tables one
   undisturbed call would have left.
   */
  lemma RetryReachesTheSame(db: Database, stopped: Database, end: Database, enabled: seq<string>, suffix: string,
                            k: int)
    requires Between(db, stopped, enabled, suffix, k) && Clean(stopped, end, enabled, suffix, k)
    ensures Clean(db, end, enabled, suffix, k)
  {
    forall i | 0 <= i < |enabled| ensures PairDone(db, end, enabled[i], suffix, k) {
      var base, t := enabled[i], TargetName(enabled[i], suffix);
      assert PairPartway(db, stopped, base, suffix, k) && PairDone(stopped, end, base, suffix, k);
      PartwayRetries(TableAt(db, base), TableAt(db, t), TableAt(stopped, base), TableAt(stopped, t), k);
    }
    forall name | !Involved(enabled, suffix, name) ensures Same(db, end, name) {
      assert Same(db, stopped, name) && Same(stopped, end, name);
    }
  }

  /** Wherever a call stops, every row of a source table or its month table is still in one of the two. */
  lemma NoRowLost(db: Database, db': Database, enabled: seq<string>, suffix: string, k: int, i: nat, r: AlarmRow)
    requires Between(db, db', enabled, suffix, k) && i < |enabled|
    requires AgreeOnMonth(TableAt(db, enabled[i]), TableAt(db, TargetName(enabled[i], suffix)), k)
    requires Present(r, TableAt(db, enabled[i]), TableAt(db, TargetName(enabled[i], suffix)))
    ensures Present(r, TableAt(db', enabled[i]), TableAt(db', TargetName(enabled[i], suffix)))
  {
    var base, t := enabled[i], TargetName(enabled[i], suffix);
    assert PairPartway(db, db', base, suffix, k);
    PartwayKeepsRows(TableAt(db, base), TableAt(db, t), TableAt(db', base), TableAt(db', t), k, r);
  }

  lemma PairStays(db: Database, db1: Database, db2: Database, base: string, suffix: string, k: int)
    requires Same(db1, db2, base) && Same(db1, db2, TargetName(base, suffix))
    ensures PairPartway(db, db1, base, suffix, k) ==> PairPartway(db, db2, base, suffix, k)
    ensures PairDone(db, db1, base, suffix, k) ==> PairDone(db, db2, base, suffix, k)
  {
  }

  /** A pair not touched yet. */
  lemma PairBegins(db: Database, db1: Database, db2: Database, base: string, suffix: string, k: int)
    requires Same(db, db1, base) && Same(db, db1, TargetName(base, suffix))
    ensures PairPartway(db, db1, base, suffix, k)
    ensures PairPartway(db1, db2, base, suffix, k) ==> PairPartway(db, db2, base, suffix, k)
    ensures PairDone(db1, db2, base, suffix, k) ==> PairDone(db, db2, base, suffix, k)
  {
  }

  /** Two different sources have four different tables. */
  lemma PairsApart(enabled: seq<string>, suffix: string, i: nat, j: nat)
    requires Roles(enabled, suffix) && i < |enabled| && j < |enabled| && i != j
    ensures enabled[i] != enabled[j] && enabled[i] != TargetName(enabled[j], suffix)
    ensures TargetName(enabled[i], suffix) != enabled[j]
      && TargetName(enabled[i], suffix) != TargetName(enabled[j], suffix)
  {
    TargetsDiffer(enabled[i], enabled[j], suffix);
  }

  /** Why one table's turn may fail: a statement did, its source does not exist, or two rows share an id. */
  ghost predicate Excuse(db: Database, base: string, suffix: string, k: int, fault: Fault, reason: Reason) {
    || (reason == SqlError && (fault.Some? || base !in db))
    || (reason == LowCount && !AgreeOnMonth(TableAt(db, base), TableAt(db, TargetName(base, suffix)), k))
  }

  /** The DELETEs for a month of `n` rows: batches of 5000, and one that finds nothing. */
  function Deletes(n: nat): nat {
    (n + 4999) / 5000 + 1
  }

  /** The check on the counts finds fewer rows in the month table than in the source. */
  predicate CountsLow(hot: Table, target: Table, k: int) {
    |MonthIds(Copied(hot, target, k), k)| < |MonthIds(hot, k)|
  }

  /** The source exists and the check on the counts passes. */
  predicate Passes(db: Database, base: string, suffix: string, k: int) {
    base in db && !CountsLow(db[base], TableAt(db, TargetName(base, suffix)), k)
  }

  /** The statements of one turn: the run's INSERT, CREATE, helper, copy, two counts, the DELETEs, the run's UPDATE. */
  function Statements(hot: Table, k: int): nat {
    6 + Deletes(|MonthIds(hot, k)|) + 1
  }

  function AllStatements(db: Database, enabled: seq<string>, k: int): nat {
    if enabled == [] then 0
    else
      var n := |enabled| - 1;
      AllStatements(db, enabled[..n], k) + Statements(TableAt(db, enabled[n]), k)
  }

  /** What one DELETE ... LIMIT takes. */
  function Batch(t: Table, k: int): set<int> {
    FirstIds(MonthIds(t, k), DELETE_BATCH)
  }

  /** `fault` lets `n` statements run. */
  predicate Lets(fault: Fault, n: nat) {
    fault.None? || fault.value >= n
  }

  function After(fault: Fault, n: nat): Fault
    requires Lets(fault, n)
  {
    if fault.None? then None else Some(fault.value - n)
  }

  /** The run record of a source: how many rows came into its month table, and how many left it. */
  function RecordOf(db: Database, now: Database, base: string, suffix: string, status: Status): RunRecord {
    var t := TargetName(base, suffix);
    RunRecord(base, t, status, |TableAt(now, t)| - |TableAt(db, t)|, |TableAt(db, base)| - |TableAt(now, base)|)
  }

  /** The records of a call: one for each of the first sources, in order, all but the last completed. */
  ghost predicate Recorded(db: Database, now: Database, enabled: seq<string>, suffix: string,
                           records: seq<RunRecord>) {
    && |records| <= |enabled|
    && forall i :: 0 <= i < |records| ==>
         && (records[i].status == Completed || (records[i].status == Broken && i == |records| - 1))
         && records[i] == RecordOf(db, now, enabled[i], suffix, records[i].status)
  }

  class ArchiveStore {
    var tables: Database
    var runs: seq<RunRecord>

    constructor (tables: Database)
      ensures this.tables == tables && runs == []
    {
      this.tables, runs := tables, [];
    }

    /** The exit handler writes what was counted so far; the last statement writes `Completed`. */
    method CloseRun(status: Status, copied: int, deleted: int)
      requires runs != []
      modifies this`runs
      ensures runs == old(runs)[..|old(runs)| - 1]
        + [old(runs)[|old(runs)| - 1].(status := status, copied := copied, deleted := deleted)]
    {
      var last := runs[|runs| - 1];
      runs := runs[..|runs| - 1] + [last.(status := status, copied := copied, deleted := deleted)];
    }

    /**
     The delete loop. `fault` is how many more statements run before one fails, `None` when none does;
     `deleted` is `v_deleted`.
     */
    method DeleteMonth(base: string, k: int, fault: Fault) returns (ok: bool, deleted: int, left: Fault)
      requires base in tables
      modifies this`tables
      ensures tables.Keys == old(tables).Keys && forall name :: name in tables && name != base ==>
        tables[name] == old(tables)[name]
      ensures Thinned(old(tables)[base], tables[base], k)
      ensures deleted == |old(tables)[base]| - |tables[base]|
      ensures ok ==> tables[base] == Remaining(old(tables)[base], k)
      ensures ok <==> Lets(fault, Deletes(|MonthIds(old(tables)[base], k)|))
      ensures ok ==> left == After(fault, Deletes(|MonthIds(old(tables)[base], k)|))
      ensures !ok ==> deleted == Smaller(|MonthIds(old(tables)[base], k)|, 5000 * fault.value)
    {
      hide InRange, Remaining, Thinned, MonthIds, Deleting, Deletes, Batch, Smaller;
      WholeIsThinned(tables[base], k);
      ghost var hot := tables[base];
      ghost var n := |MonthIds(hot, k)|;
      NoDeleteYet(n);
      ghost var ran := 0;
      deleted, left := 0, fault;
      while true
        invariant base in tables && tables == old(tables)[base := tables[base]]
        invariant Thinned(hot, tables[base], k)
        invariant deleted == |hot| - |tables[base]| == n - |MonthIds(tables[base], k)|
        invariant Lets(fault, ran) && left == After(fault, ran)
        invariant Deleting(n, ran, |MonthIds(tables[base], k)|)
        decreases Deletes(n) - ran
      {
        var t := tables[base];
        NextDelete(hot, t, k, ran);
        if Fails(left) {
          return false, deleted, left;
        }
        left := Tick(left);
        var gone := Batch(t, k);
        tables := tables[base := t - gone];
        ran := ran + 1;
        deleted := deleted + |gone|;
        if |gone| == 0 {
          return true, deleted, left;
        }
      }
    }

    /** Create, copy, count, delete: what one turn of the cursor loop does between opening and closing its run. */
    method ArchiveRows(base: string, suffix: string, k: int, fault: Fault)
      returns (r: Outcome, copied: int, deleted: int, left: Fault)
      modifies this`tables
      ensures forall name :: name != base && name != TargetName(base, suffix) ==> Same(old(tables), tables, name)
      ensures PairPartway(old(tables), tables, base, suffix, k)
      ensures r.Done? ==> PairDone(old(tables), tables, base, suffix, k)
      ensures r.Failed? ==> Excuse(old(tables), base, suffix, k, fault, r.reason)
      ensures r.Done? <==> Passes(old(tables), base, suffix, k)
                             && Lets(fault, 5 + Deletes(|MonthIds(TableAt(old(tables), base), k)|))
      ensures r.Done? ==> left == After(fault, 5 + Deletes(|MonthIds(TableAt(old(tables), base), k)|))
      ensures copied == |TableAt(tables, TargetName(base, suffix))| - |TableAt(old(tables), TargetName(base, suffix))|
      ensures deleted == |TableAt(old(tables), base)| - |TableAt(tables, base)|
    {
      hide Partway, Copied, Remaining, MonthIds, InRange, AgreeOnMonth, PairPartway, PairDone, CopyMade, TargetName,
          Deletes;
      var t := TargetName(base, suffix);
      ghost var db := tables;
      TargetIsOther(base, suffix);
      StoppedBeforeCopy(db, base, suffix, k);
      copied, deleted, left := 0, 0, fault;

      // CREATE TABLE IF NOT EXISTS ... LIKE
      if Fails(left) || base !in tables {
        return Failed(SqlError), 0, 0, left;
      }
      left := Tick(left);
      tables := Opened(tables, t);

      // the column helper, then the copy
      if Fails(left) || Fails(Tick(left)) {
        return Failed(SqlError), 0, 0, left;
      }
      left := Tick(Tick(left));
      var before := |tables[t]|;
      CopyOpened(db, base, suffix, k);
      tables := tables[t := Copied(tables[base], tables[t], k)];
      copied := |tables[t]| - before;
      ghost var copy := tables;
      StoppedAfterCopy(db, copy, base, suffix, k);
      CopyNames(db, copy, base, suffix, k);

      // the two counts
      if Fails(left) || Fails(Tick(left)) {
        return Failed(SqlError), copied, 0, left;
      }
      left := Tick(Tick(left));
      if |MonthIds(tables[t], k)| < |MonthIds(tables[base], k)| {
        if AgreeOnMonth(TableAt(db, base), TableAt(db, t), k) {
          CheckPasses(db, copy, base, suffix, k);
        }
        return Failed(LowCount), copied, 0, left;
      }

      var ok: bool;
      ok, deleted, left := DeleteMonth(base, k, left);
      DeletingKeepsCopy(db, copy, tables, base, suffix, k);
      StoppedAfterCopy(db, tables, base, suffix, k);
      CopyNames(db, tables, base, suffix, k);
      r := if ok then Done else Failed(SqlError);
    }

    /** One turn of the cursor loop. */
    method ArchiveTable(base: string, suffix: string, k: int, fault: Fault) returns (r: Outcome, left: Fault)
      modifies this
      ensures forall name :: name != base && name != TargetName(base, suffix) ==> Same(old(tables), tables, name)
      ensures PairPartway(old(tables), tables, base, suffix, k)
      ensures r.Done? ==> PairDone(old(tables), tables, base, suffix, k)
      ensures r.Failed? ==> Excuse(old(tables), base, suffix, k, fault, r.reason)
      ensures r.Done? <==>
        Passes(old(tables), base, suffix, k) && Lets(fault, Statements(TableAt(old(tables), base), k))
      ensures r.Done? ==> left == After(fault, Statements(TableAt(old(tables), base), k))
      ensures fault == Some(0) ==> r.Failed? && runs == old(runs) && tables == old(tables)
      ensures fault != Some(0) ==>
        runs == old(runs) + [RecordOf(old(tables), tables, base, suffix, if r.Done? then Completed else Broken)]
    {
      hide PairPartway, PairDone, TargetName, AgreeOnMonth, Same, Passes, Deletes, MonthIds;
      if Fails(fault) {
        StoppedBeforeCopy(tables, base, suffix, k);
        NothingChanged(tables);
        return Failed(SqlError), fault;
      }
      runs := runs + [RunRecord(base, TargetName(base, suffix), Running, 0, 0)];
      var copied: int, deleted: int;
      r, copied, deleted, left := ArchiveRows(base, suffix, k, Tick(fault));
      if r.Done? && Fails(left) {
        DoneIsPartway(old(tables), tables, base, suffix, k);
        r := Failed(SqlError);
      }
      CloseRun(if r.Done? then Completed else Broken, copied, deleted);
      left := Tick(left);
    }

    /** `sp_archive_alarm_month`, for the enabled source tables, in the month `now`. */
    method ArchiveMonth(p: string, enabled: seq<string>, now: Date, fault: Fault) returns (r: Outcome)
      requires Roles(enabled, p) && ValidDate(now)
      modifies this
      ensures !IsYyyymm(p) ==> r == Failed(BadFormat) && tables == old(tables)
      ensures IsYyyymm(p) && MonthOf(p).Some? && MonthOf(p).value >= MonthIndex(now) ==>
        r == Failed(NotPast) && tables == old(tables)
      ensures IsYyyymm(p) && MonthOf(p).None? ==>
        tables == old(tables) && (r.Done? <==> enabled == [])
      ensures IsYyyymm(p) && MonthOf(p).Some? ==>
        var k := MonthOf(p).value;
        && Between(old(tables), tables, enabled, p, k)
        && (r.Done? ==> Clean(old(tables), tables, enabled, p, k))
        && ((forall i :: 0 <= i < |enabled| ==>
               AgreeOnMonth(TableAt(old(tables), enabled[i]), TableAt(old(tables), TargetName(enabled[i], p)), k))
            ==> r != Failed(LowCount))
        && old(runs) <= runs && Recorded(old(tables), tables, enabled, p, runs[|old(runs)|..])
        && (r.Done? ==> |runs| == |old(runs)| + |enabled| && forall i :: |old(runs)| <= i < |runs| ==>
              runs[i].status == Completed)
        && (k < MonthIndex(now) ==>
              (r.Done? <==> (forall i :: 0 <= i < |enabled| ==> Passes(old(tables), enabled[i], p, k))
                              && Lets(fault, AllStatements(old(tables), enabled, k))))
    {
      hide PairPartway, PairDone, AgreeOnMonth, Passes, Statements, AllStatements, Turned, Between, Clean, TargetName,
          Same, Roles, Recorded, RecordOf;
      if !IsYyyymm(p) {
        return Failed(BadFormat);
      }
      var month := MonthOf(p);
      if month.None? {
        // the comparison with NULL does not fire; the NOT NULL columns of the run record do
        return if enabled == [] then Done else Failed(NullRange);
      }
      var k := month.value;
      NoRecord(tables, enabled, p);
      assert runs[|runs|..] == [];
      if k >= MonthIndex(now) {
        Unchanged(tables, enabled, p, k);
        return Failed(NotPast);
      }
      var left := fault;
      var i := 0;
      ghost var records: seq<RunRecord> := [];
      NoTurnYet(tables, enabled, p, k);
      NoStatements(tables, enabled, k);
      while i < |enabled|
        invariant 0 <= i <= |enabled|
        invariant Lets(fault, AllStatements(old(tables), enabled[..i], k))
        invariant left == After(fault, AllStatements(old(tables), enabled[..i], k))
        invariant forall j :: 0 <= j < i ==> Passes(old(tables), enabled[j], p, k)
        invariant Turned(old(tables), tables, enabled, p, k, i)
        invariant runs == old(runs) + records && |records| == i
        invariant Recorded(old(tables), tables, enabled, p, records)
        invariant forall j :: 0 <= j < i ==> records[j].status == Completed
      {
        ghost var before := tables;
        PassesSame(old(tables), tables, enabled, i, p, k);
        MoreStatements(old(tables), enabled, i, k);
        var o: Outcome;
        o, left := ArchiveTable(enabled[i], p, k, left);
        NextTurn(old(tables), before, tables, enabled, p, k, i);
        NextRecord(old(tables), before, tables, enabled, p, k, records, if o.Done? then Completed else Broken);
        ghost var made := if |runs| == |old(runs)| + i then [] else [runs[|old(runs)| + i]];
        assert runs[|old(runs)|..] == records + made;
        records := records + made;
        if o.Failed? {
          return o;
        }
        i := i + 1;
      }
      assert enabled[..i] == enabled;
      AllTurned(old(tables), tables, enabled, p, k);
      r := Done;
    }
  }

  /** The first `i` sources are done, and the other tables are as they were. */
  ghost predicate Turned(db: Database, now: Database, enabled: seq<string>, suffix: string, k: int, i: nat)
    requires i <= |enabled|
  {
    && (forall j :: 0 <= j < i ==> PairDone(db, now, enabled[j], suffix, k))
    && (forall j :: i <= j < |enabled| ==>
          Same(db, now, enabled[j]) && Same(db, now, TargetName(enabled[j], suffix)))
    && (forall name :: !Involved(enabled, suffix, name) ==> Same(db, now, name))
  }

  lemma NoTurnYet(db: Database, enabled: seq<string>, suffix: string, k: int)
    ensures Turned(db, db, enabled, suffix, k, 0)
  {
  }

  lemma NoStatements(db: Database, enabled: seq<string>, k: int)
    ensures AllStatements(db, enabled[..0], k) == 0
  {
  }

  lemma AllTurned(db: Database, now: Database, enabled: seq<string>, suffix: string, k: int)
    requires Turned(db, now, enabled, suffix, k, |enabled|)
    ensures Clean(db, now, enabled, suffix, k) && Between(db, now, enabled, suffix, k)
  {
    hide PairDone, PairPartway;
    forall j | 0 <= j < |enabled| ensures PairPartway(db, now, enabled[j], suffix, k) {
      DoneIsPartway(db, now, enabled[j], suffix, k);
    }
  }

  /** One more turn, broken off anywhere or done. */
  lemma NextTurn(db: Database, before: Database, now: Database, enabled: seq<string>, suffix: string, k: int, i: nat)
    requires Roles(enabled, suffix) && i < |enabled| && Turned(db, before, enabled, suffix, k, i)
    requires forall name :: name != enabled[i] && name != TargetName(enabled[i], suffix) ==> Same(before, now, name)
    requires PairPartway(before, now, enabled[i], suffix, k)
    ensures PairDone(before, now, enabled[i], suffix, k) ==> Turned(db, now, enabled, suffix, k, i + 1)
    ensures Between(db, now, enabled, suffix, k)
  {
    hide PairDone, PairPartway, TargetName, Roles, Same;
    PairBegins(db, before, now, enabled[i], suffix, k);
    forall j | 0 <= j < |enabled| && j != i
      ensures Same(before, now, enabled[j]) && Same(before, now, TargetName(enabled[j], suffix))
    {
      PairsApart(enabled, suffix, i, j);
    }
    forall j | 0 <= j < i
      ensures PairDone(db, now, enabled[j], suffix, k) && PairPartway(db, now, enabled[j], suffix, k)
    {
      PairStays(db, before, now, enabled[j], suffix, k);
      DoneIsPartway(db, now, enabled[j], suffix, k);
    }
    forall j | i < j < |enabled|
      ensures Same(db, now, enabled[j]) && Same(db, now, TargetName(enabled[j], suffix))
      ensures PairPartway(db, now, enabled[j], suffix, k)
    {
      SameChain(db, before, now, enabled[j]);
      SameChain(db, before, now, TargetName(enabled[j], suffix));
      PairBegins(db, now, now, enabled[j], suffix, k);
    }
    forall name | !Involved(enabled, suffix, name) ensures Same(db, now, name) {
      assert enabled[i] != name && TargetName(enabled[i], suffix) != name;
      SameChain(db, before, now, name);
    }
  }

  /** A further source's record leaves those before it right. */
  lemma NextRecord(db: Database, before: Database, now: Database, enabled: seq<string>, suffix: string, k: int,
                   records: seq<RunRecord>, status: Status)
    requires Roles(enabled, suffix) && |records| < |enabled| && Turned(db, before, enabled, suffix, k, |records|)
    requires forall name :: name != enabled[|records|] && name != TargetName(enabled[|records|], suffix) ==>
      Same(before, now, name)
    requires Recorded(db, before, enabled, suffix, records) && status != Running
    requires forall j :: 0 <= j < |records| ==> records[j].status == Completed
    ensures Recorded(db, now, enabled, suffix, records)
    ensures var next := RecordOf(before, now, enabled[|records|], suffix, status);
      next.status == status && Recorded(db, now, enabled, suffix, records + [next])
    ensures records + [] == records
  {
    hide PairDone, TargetName, Roles, RecordOf, Same;
    var i := |records|;
    NothingChanged(db);
    NothingChanged(now);
    forall j | 0 <= j < i ensures records[j] == RecordOf(db, now, enabled[j], suffix, records[j].status) {
      PairsApart(enabled, suffix, i, j);
      SameRecord(db, before, db, now, enabled[j], suffix, records[j].status);
    }
    SameRecord(db, now, before, now, enabled[i], suffix, status);
  }

  lemma SameRecord(db: Database, now: Database, db': Database, now': Database, base: string, suffix: string,
                   status: Status)
    requires Same(db, db', base) && Same(db, db', TargetName(base, suffix))
    requires Same(now, now', base) && Same(now, now', TargetName(base, suffix))
    ensures RecordOf(db, now, base, suffix, status) == RecordOf(db', now', base, suffix, status)
    ensures RecordOf(db, now, base, suffix, status).status == status
  {
    hide TargetName;
  }

  lemma NoRecord(db: Database, enabled: seq<string>, suffix: string)
    ensures Recorded(db, db, enabled, suffix, [])
  {
  }

  lemma SameChain(a: Database, b: Database, c: Database, name: string)
    requires Same(a, b, name) && Same(b, c, name)
    ensures Same(a, c, name)
  {
  }

  lemma PassesSame(db: Database, db': Database, enabled: seq<string>, i: nat, suffix: string, k: int)
    requires i < |enabled| && Turned(db, db', enabled, suffix, k, i)
    ensures Passes(db, enabled[i], suffix, k) <==> Passes(db', enabled[i], suffix, k)
    ensures Statements(TableAt(db, enabled[i]), k) == Statements(TableAt(db', enabled[i]), k)
    ensures AgreeOnMonth(TableAt(db, enabled[i]), TableAt(db, TargetName(enabled[i], suffix)), k)
       <==> AgreeOnMonth(TableAt(db', enabled[i]), TableAt(db', TargetName(enabled[i], suffix)), k)
  {
  }

  lemma MoreStatements(db: Database, enabled: seq<string>, i: nat, k: int)
    requires i < |enabled|
    ensures AllStatements(db, enabled[..i + 1], k)
         == AllStatements(db, enabled[..i], k) + Statements(TableAt(db, enabled[i]), k)
    ensures AllStatements(db, enabled[..i + 1], k) <= AllStatements(db, enabled, k)
  {
    hide Statements;
    assert enabled[..i + 1][..i] == enabled[..i];
    StatementsGrow(db, enabled, i + 1, k);
  }

  lemma {:induction false} StatementsGrow(db: Database, enabled: seq<string>, i: nat, k: int)
    requires i <= |enabled|
    ensures AllStatements(db, enabled[..i], k) <= AllStatements(db, enabled, k)
  {
    hide Statements;
    if i == |enabled| {
      assert enabled[..i] == enabled;
    } else {
      StatementsGrow(db, enabled[..|enabled| - 1], i, k);
      assert enabled[..|enabled| - 1][..i] == enabled[..i];
    }
  }

  lemma NothingChanged(db: Database)
    ensures forall name :: Same(db, db, name)
  {
  }

  lemma Unchanged(db: Database, enabled: seq<string>, suffix: string, k: int)
    ensures Between(db, db, enabled, suffix, k)
  {
  }

  lemma WholeIsThinned(hot: Table, k: int)
    ensures Thinned(hot, hot, k)
  {
  }

  /** One batch of the delete loop. */
  lemma RemoveKeeps(hot: Table, t: Table, gone: set<int>, k: int)
    requires Thinned(hot, t, k) && gone <= MonthIds(t, k)
    ensures Thinned(hot, t - gone, k) && |t - gone| == |t| - |gone|
  {
    hide InRange;
    assert gone <= t.Keys;
    forall id | id in hot.Keys - (t - gone).Keys ensures id in MonthIds(hot, k) {
      if id in t {
        assert id in gone && id in MonthIds(t, k) && t[id] == hot[id];
      } else {
        assert id in hot.Keys - t.Keys;
      }
    }
    assert (t - gone).Keys == t.Keys - gone;
    assert |t - gone| == |(t - gone).Keys| && |t| == |t.Keys|;
  }

  /** After `ran` DELETEs that found rows, `rest` of the month's `n` rows are left. */
  ghost predicate Deleting(n: nat, ran: nat, rest: nat) {
    rest == n - Smaller(n, 5000 * ran) && (ran > 0 ==> 5000 * (ran - 1) < n)
  }

  lemma NoDeleteYet(n: nat)
    ensures Deleting(n, 0, n)
  {
  }

  lemma DeleteCounts(n: nat, ran: nat, rest: nat)
    requires Deleting(n, ran, rest)
    ensures ran < Deletes(n) && n - rest == Smaller(n, 5000 * ran)
    ensures rest > 0 ==> Deleting(n, ran + 1, rest - Smaller(rest, DELETE_BATCH))
    ensures rest == 0 ==> ran + 1 == Deletes(n)
  {
  }

  /** The next DELETE: a full batch or the rest, and when there is none the month is gone. */
  lemma NextDelete(hot: Table, t: Table, k: int, ran: nat)
    requires Thinned(hot, t, k) && Deleting(|MonthIds(hot, k)|, ran, |MonthIds(t, k)|)
    ensures var n, rest, gone := |MonthIds(hot, k)|, |MonthIds(t, k)|, Batch(t, k);
      && ran < Deletes(n) && n - rest == Smaller(n, 5000 * ran)
      && Thinned(hot, t - gone, k) && |t - gone| == |t| - |gone| && |MonthIds(t - gone, k)| == rest - |gone|
      && (gone != {} ==> Deleting(n, ran + 1, rest - |gone|))
      && (gone == {} ==> ran + 1 == Deletes(n) && t - gone == Remaining(hot, k) && rest == 0)
  {
    hide Thinned, MonthIds, Remaining, Deleting, Deletes;
    var gone := Batch(t, k);
    DeleteCounts(|MonthIds(hot, k)|, ran, |MonthIds(t, k)|);
    RemoveKeeps(hot, t, gone, k);
    RemoveCounts(t, gone, k);
    if gone == {} {
      EmptyMeansDone(t, hot, gone, k);
    }
  }

  lemma RemoveCounts(t: Table, gone: set<int>, k: int)
    requires gone <= MonthIds(t, k)
    ensures |MonthIds(t - gone, k)| == |MonthIds(t, k)| - |gone|
  {
    hide InRange;
    assert MonthIds(t - gone, k) == MonthIds(t, k) - gone;
  }

  lemma EmptyMeansDone(t: Table, hot: Table, gone: set<int>, k: int)
    requires gone == {} && MonthIds(t, k) == {} && Thinned(hot, t, k)
    ensures t - gone == t == Remaining(hot, k)
  {
    hide InRange;
    forall id | id in t ensures id !in MonthIds(hot, k) {
      assert id !in MonthIds(t, k);
    }
    assert t.Keys == Remaining(hot, k).Keys by {
      forall id ensures id in t.Keys <==> id in hot.Keys - MonthIds(hot, k) {
        if id in hot.Keys && id !in t.Keys { assert id in hot.Keys - t.Keys; }
      }
    }
    forall id | id in t ensures t[id] == Remaining(hot, k)[id] { }
  }

  /** The tables once the target exists, which adds no row. */
  function Opened(db: Database, t: string): Database {
    db[t := TableAt(db, t)]
  }

  lemma StoppedBeforeCopy(db: Database, base: string, suffix: string, k: int)
    ensures PairPartway(db, db, base, suffix, k)
    ensures base in db ==> PairPartway(db, Opened(db, TargetName(base, suffix)), base, suffix, k)
  {
    hide Copied, MonthIds;
    TargetIsOther(base, suffix);
  }

  lemma TargetIsOther(base: string, suffix: string)
    ensures TargetName(base, suffix) != base
  {
    assert |TargetName(base, suffix)| > |base|;
  }

  ghost predicate CopyMade(db: Database, db': Database, base: string, suffix: string, k: int) {
    var t := TargetName(base, suffix);
    && base in db && base in db' && t in db'
    && db'[t] == Copied(db[base], TableAt(db, t), k)
    && Thinned(db[base], db'[base], k)
    && (forall name :: name != base && name != t ==> Same(db, db', name))
  }

  lemma StoppedAfterCopy(db: Database, db': Database, base: string, suffix: string, k: int)
    requires CopyMade(db, db', base, suffix, k)
    ensures PairPartway(db, db', base, suffix, k)
    ensures db'[base] == Remaining(db[base], k) ==> PairDone(db, db', base, suffix, k)
  {
    hide Copied, MonthIds, Remaining;
  }

  /** The copy is made, and nothing deleted yet. */
  lemma CopyOpened(db: Database, base: string, suffix: string, k: int)
    requires base in db
    ensures var t := TargetName(base, suffix);
      var db1 := Opened(db, t);
      t in db1 && base in db1 && CopyMade(db, db1[t := Copied(db1[base], db1[t], k)], base, suffix, k)
  {
    hide Copied, MonthIds;
    TargetIsOther(base, suffix);
  }

  /** The delete loop keeps the copy. */
  lemma DeletingKeepsCopy(db: Database, copy: Database, db': Database, base: string, suffix: string, k: int)
    requires CopyMade(db, copy, base, suffix, k) && copy[base] == db[base]
    requires db'.Keys == copy.Keys && forall name :: name in db' && name != base ==> db'[name] == copy[name]
    requires Thinned(copy[base], db'[base], k)
    ensures CopyMade(db, db', base, suffix, k)
  {
    hide Copied, MonthIds;
    TargetIsOther(base, suffix);
    forall name | name != base && name != TargetName(base, suffix) ensures Same(db, db', name) {
      assert Same(db, copy, name);
    }
  }

  lemma CopyNames(db: Database, db': Database, base: string, suffix: string, k: int)
    requires CopyMade(db, db', base, suffix, k)
    ensures base in db' && TargetName(base, suffix) in db'
    ensures forall name :: name != base && name != TargetName(base, suffix) ==> Same(db, db', name)
  {
  }

  /** The count check passes when equal ids mean equal rows. */
  lemma CheckPasses(db: Database, copy: Database, base: string, suffix: string, k: int)
    requires CopyMade(db, copy, base, suffix, k) && copy[base] == db[base]
    requires AgreeOnMonth(TableAt(db, base), TableAt(db, TargetName(base, suffix)), k)
    ensures |MonthIds(copy[TargetName(base, suffix)], k)| >= |MonthIds(copy[base], k)|
  {
    hide Copied, MonthIds, AgreeOnMonth;
    CountNeverLow(db[base], TableAt(db, TargetName(base, suffix)), k);
  }
}

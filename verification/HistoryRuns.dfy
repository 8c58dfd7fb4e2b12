/** Runs of inserts and archive passes, and what queries see after them. */
module HistoryRuns {
  import opened Options
  import opened Calendar
  import opened HistoryTables
  import opened HistoryRows
  import opened ArchiveProcedure
  import opened HistoryQuery

  ghost predicate FinishedPass(db: Database, db': Database, base: string, p: string, k: int) {
    IsYyyymm(p) && MonthOf(p) == Some(k) && PairDone(db, db', base, p, k)
  }

  /** The physical tables, and the rows inserted so far. */
  datatype Moment = Moment(db: Database, logical: Table)

  datatype Change =
    | Insert(row: AlarmRow)     // into the hot table, under a fresh id
    | Pass(month: string)       // an archive pass, stopped anywhere

  ghost predicate Follows(a: Moment, b: Moment, change: Change, base: string, current: Date) {
    match change
    case Insert(r) =>
      && base in a.db && r.id !in a.logical && ValidTime(r.createAt)
      && b == Moment(a.db[base := a.db[base][r.id := r]], a.logical[r.id := r])
    case Pass(p) => PassStep(a.db, b.db, base, p, current) && b.logical == a.logical
  }

  /** `current` is the month at the end of the run; a month that was over at a pass is over then. */
  ghost predicate History(moments: seq<Moment>, changes: seq<Change>, base: string, current: Date) {
    && |moments| == |changes| + 1
    && forall i :: 0 <= i < |changes| ==> Follows(moments[i], moments[i + 1], changes[i], base, current)
  }

  predicate InsertsInto(change: Change, k: int) {
    change.Insert? && MonthIndex(change.row.createAt.date) == k
  }

  ghost predicate Finishes(moments: seq<Moment>, changes: seq<Change>, base: string, k: int, i: nat)
    requires |moments| == |changes| + 1 && i < |changes|
  {
    changes[i].Pass? && FinishedPass(moments[i].db, moments[i + 1].db, base, changes[i].month, k)
  }

  /** A pass of month `k` went through after its last insert, or there was nothing to archive. */
  ghost predicate WasArchived(moments: seq<Moment>, changes: seq<Change>, base: string, k: int)
    requires |moments| == |changes| + 1
  {
    || (MonthClear(moments[0].db, base, k) && forall j :: 0 <= j < |changes| ==> !InsertsInto(changes[j], k))
    || exists i :: 0 <= i < |changes| && Finishes(moments, changes, base, k, i)
         && forall j :: i < j < |changes| ==> !InsertsInto(changes[j], k)
  }

  lemma ArchiveUntouched(db: Database, base: string, t: Table, j: int)
    requires ValidIdentifier(base)
    ensures ArchiveOf(db[base := t], base, j) == ArchiveOf(db, base, j)
  {
    hide ValidIdentifier;
    MonthAtIndex(j);
    if ArchiveName(base, MonthAt(j)).Ok? {
      ArchiveNameValid(base, MonthAt(j));
      ArchiveNamesDiffer(base, MonthAt(j), MonthAt(j));
    }
  }

  lemma InsertOwnMonths(a: Moment, b: Moment, r: AlarmRow, base: string, current: Date)
    requires Follows(a, b, Insert(r), base, current) && ValidIdentifier(base) && OwnMonths(a.db, base, current)
    ensures OwnMonths(b.db, base, current)
    ensures forall x: AlarmRow :: InArchive(b.db, base, x) <==> InArchive(a.db, base, x)
  {
    hide ArchiveOf, ValidIdentifier, ValidTime, MonthIndex;
    forall j ensures ArchiveOf(b.db, base, j) == ArchiveOf(a.db, base, j) {
      ArchiveUntouched(a.db, base, b.db[base], j);
    }
  }

  lemma FreshInHot(a: Moment, r: AlarmRow, base: string, current: Date)
    requires Stores(a.db, base, current, a.logical) && r.id !in a.logical
    ensures r.id !in TableAt(a.db, base)
  {
    hide InArchive, MonthIndex, ValidTime;
    var hot := TableAt(a.db, base);
    forall id | id in hot ensures id in a.logical {
      assert Somewhere(a.db, base, current, hot[id]);
    }
  }

  /** A row inserted into the hot table under a fresh id is one more stored row. */
  lemma InsertKeepsStores(a: Moment, b: Moment, r: AlarmRow, base: string, current: Date)
    requires Follows(a, b, Insert(r), base, current) && ValidIdentifier(base) && Stores(a.db, base, current, a.logical)
    ensures Stores(b.db, base, current, b.logical)
  {
    hide OwnMonths, ValidIdentifier, ValidTime, InArchive, MonthIndex;
    InsertOwnMonths(a, b, r, base, current);
    FreshInHot(a, r, base, current);
    forall x: AlarmRow ensures Holds(b.logical, x) <==> Somewhere(b.db, base, current, x) {
      assert Holds(a.logical, x) <==> Somewhere(a.db, base, current, x);
    }
  }

  lemma ChangeKeepsStores(a: Moment, b: Moment, change: Change, base: string, current: Date)
    requires Follows(a, b, change, base, current) && ValidIdentifier(base) && Stores(a.db, base, current, a.logical)
    ensures Stores(b.db, base, current, b.logical)
  {
    hide Stores, ValidIdentifier, PairPartway, PairDone, OthersKept, MonthClear;
    match change
    case Insert(r) => InsertKeepsStores(a, b, r, base, current);
    case Pass(p) => ArchivingKeepsLogical(a.db, b.db, base, p, current, a.logical);
  }

  /** A pass clears a month exactly when it goes through for that month. */
  lemma PassClears(db: Database, db': Database, base: string, p: string, current: Date, k: int)
    requires PassStep(db, db', base, p, current) && OwnMonths(db, base, current)
    ensures MonthClear(db', base, k) <==> MonthClear(db, base, k) || FinishedPass(db, db', base, p, k)
  {
    hide ArchiveOf, OwnMonths, PairPartway, PairDone, TargetName, MonthClear, MonthIndex, IsYyyymm, MonthOf;
    ClearMonths(db, db', base, p, current);
    if MonthClear(db', base, k) && !MonthClear(db, base, k) {
      if MonthOf(p).value == k {
        EmptiedIsDone(db, db', base, p, current);
      } else {
        OtherStaysFull(db, db', base, p, current, k);
      }
    }
  }

  lemma OtherStaysFull(db: Database, db': Database, base: string, p: string, current: Date, k: int)
    requires PassStep(db, db', base, p, current) && OwnMonths(db, base, current) && MonthOf(p).value != k
    requires !MonthClear(db, base, k)
    ensures !MonthClear(db', base, k)
  {
    hide ArchiveOf, TargetName, MonthOf, IsYyyymm, MonthAt, Before, ValidTime, Copied, MonthIndex;
    var hot := TableAt(db, base);
    var id :| id in hot && MonthIndex(hot[id].createAt.date) == k;
    InMonth(hot[id].createAt, MonthOf(p).value);
    assert id !in MonthIds(hot, MonthOf(p).value);
    assert id in TableAt(db', base) && TableAt(db', base)[id] == hot[id];
  }

  /** A pass that empties its month has gone through. */
  lemma EmptiedIsDone(db: Database, db': Database, base: string, p: string, current: Date)
    requires PassStep(db, db', base, p, current) && OwnMonths(db, base, current)
    requires !MonthClear(db, base, MonthOf(p).value) && MonthClear(db', base, MonthOf(p).value)
    ensures PairDone(db, db', base, p, MonthOf(p).value)
  {
    hide ArchiveOf, TargetName, MonthOf, IsYyyymm, MonthAt, Before, ValidTime, MonthIndex;
    var k := MonthOf(p).value;
    var hot, hot' := TableAt(db, base), TableAt(db', base);
    var id :| id in hot && MonthIndex(hot[id].createAt.date) == k;
    assert id !in hot';
    assert hot' != hot;
    forall x | x in hot ensures x in hot' <==> x !in MonthIds(hot, k) {
      InMonth(hot[x].createAt, k);
      if x in hot' { assert hot'[x] == hot[x]; }
    }
    assert hot'.Keys == Remaining(hot, k).Keys;
    forall x | x in hot' ensures hot'[x] == Remaining(hot, k)[x] {
      assert hot'[x] == hot[x];
    }
    assert hot' == Remaining(hot, k);
    InMonth(hot[id].createAt, k);
    assert id in TableAt(db', TargetName(base, p));
  }

  /** Inserts unclear their month; passes clear theirs when they go through. */
  lemma ChangeClears(a: Moment, b: Moment, change: Change, base: string, current: Date, k: int)
    requires Follows(a, b, change, base, current) && Stores(a.db, base, current, a.logical)
    ensures change.Insert? ==> (MonthClear(b.db, base, k) <==> MonthClear(a.db, base, k) && !InsertsInto(change, k))
    ensures change.Pass? ==> (MonthClear(b.db, base, k) <==>
      MonthClear(a.db, base, k) || FinishedPass(a.db, b.db, base, change.month, k))
  {
    hide OwnMonths, PassStep, MonthIndex, FinishedPass, ValidTime;
    match change
    case Pass(p) => PassClears(a.db, b.db, base, p, current, k);
    case Insert(r) =>
      assert TableAt(b.db, base)[r.id] == r;
      FreshInHot(a, r, base, current);
      forall id | id in TableAt(a.db, base)
        ensures id in TableAt(b.db, base)
          && TableAt(b.db, base)[id] == TableAt(a.db, base)[id]
      {
      }
  }

  /** A change takes a row out of the hot table. */
  ghost predicate Takes(a: Moment, b: Moment, base: string, r: AlarmRow) {
    InHot(a.db, base, r) && !InHot(b.db, base, r)
  }

  /** Only a pass over the row's own month takes it, and then it is in that month's archive. */
  lemma TakenByItsMonth(a: Moment, b: Moment, change: Change, base: string, current: Date, r: AlarmRow)
    requires Follows(a, b, change, base, current) && ValidIdentifier(base) && Stores(a.db, base, current, a.logical)
    requires Takes(a, b, base, r)
    ensures change.Pass? && IsYyyymm(change.month) && MonthOf(change.month) == Some(MonthIndex(r.createAt.date))
    ensures InArchive(b.db, base, r)
  {
    hide OwnMonths, ValidIdentifier, ValidTime, InArchive, MonthIndex, MonthOf, IsYyyymm, ArchiveOf, TargetName,
        Partway, OthersKept;
    assert Somewhere(a.db, base, current, r);
    match change
    case Insert(x) => FreshInHot(a, x, base, current);
    case Pass(p) =>
      ChangeKeepsStores(a, b, change, base, current);
      assert Somewhere(b.db, base, current, r);
      RowOfHot(a, base, current, r);
      if MonthIndex(r.createAt.date) != MonthOf(p).value {
        OtherMonthStays(a.db, b.db, base, p, current, r);
      }
  }

  lemma RowOfHot(a: Moment, base: string, current: Date, r: AlarmRow)
    requires OwnMonths(a.db, base, current) && InHot(a.db, base, r)
    ensures ValidTime(r.createAt)
  {
  }

  lemma OtherMonthStays(db: Database, db': Database, base: string, p: string, current: Date, r: AlarmRow)
    requires PassStep(db, db', base, p, current) && InHot(db, base, r) && ValidTime(r.createAt)
    requires MonthIndex(r.createAt.date) != MonthOf(p).value
    ensures InHot(db', base, r)
  {
    hide ArchiveOf, TargetName, MonthOf, IsYyyymm, MonthAt, Before, ValidTime, Copied, MonthIndex, OthersKept, Partway;
    var k, t := MonthOf(p).value, TargetName(base, p);
    InMonth(r.createAt, k);
    PartwayOutsideUntouched(TableAt(db, base), TableAt(db, t), TableAt(db', base), TableAt(db', t), k, r.id);
  }

  /** A pass that goes through takes every row of its month. */
  lemma FinishedTakes(a: Moment, b: Moment, p: string, base: string, current: Date, r: AlarmRow)
    requires Follows(a, b, Pass(p), base, current) && Stores(a.db, base, current, a.logical)
    requires FinishedPass(a.db, b.db, base, p, MonthIndex(r.createAt.date))
    ensures !InHot(b.db, base, r)
  {
    hide Stores, PassStep, MonthIndex, FinishedPass, MonthClear;
    ChangeClears(a, b, Pass(p), base, current, MonthIndex(r.createAt.date));
    ClearHasNone(b.db, base, r);
  }

  lemma ClearHasNone(db: Database, base: string, r: AlarmRow)
    requires MonthClear(db, base, MonthIndex(r.createAt.date))
    ensures !InHot(db, base, r)
  {
    hide MonthIndex;
  }

  /** A row comes into the hot table only when it is inserted. */
  lemma HotOrigin(a: Moment, b: Moment, change: Change, base: string, current: Date, r: AlarmRow)
    requires Follows(a, b, change, base, current) && InHot(b.db, base, r) && !InHot(a.db, base, r)
    ensures change == Insert(r)
  {
    hide ValidTime, MonthIndex, MonthOf, IsYyyymm, ArchiveOf, TargetName, OthersKept;
  }

  lemma Shorter(moments: seq<Moment>, changes: seq<Change>, base: string, current: Date)
    requires History(moments, changes, base, current) && changes != []
    ensures History(moments[..|changes|], changes[..|changes| - 1], base, current)
    ensures var n := |changes| - 1; Follows(moments[n], moments[n + 1], changes[n], base, current)
  {
    hide Follows;
    var n := |changes| - 1;
    forall i | 0 <= i < n
      ensures Follows(moments[..n + 1][i], moments[..n + 1][i + 1], changes[..n][i], base,
        current)
    {
      assert Follows(moments[i], moments[i + 1], changes[i], base, current);
    }
  }

  /** One more change: what it does to the condition on the run. */
  lemma ArchivedNext(moments: seq<Moment>, changes: seq<Change>, base: string, k: int)
    requires |moments| == |changes| + 1 && changes != []
    ensures var n := |changes| - 1;
      WasArchived(moments, changes, base, k) <==>
        || (WasArchived(moments[..n + 1], changes[..n], base, k) && !InsertsInto(changes[n], k))
        || Finishes(moments, changes, base, k, n)
  {
    hide MonthClear, FinishedPass, MonthIndex;
    var n := |changes| - 1;
    var ms, cs := moments[..n + 1], changes[..n];
    if WasArchived(moments, changes, base, k) && !Finishes(moments, changes, base, k, n) {
      assert !InsertsInto(changes[n], k);
      if i :| 0 <= i < |changes| && Finishes(moments, changes, base, k, i)
              && forall j :: i < j < |changes| ==> !InsertsInto(changes[j], k) {
        assert Finishes(ms, cs, base, k, i);
      }
    }
    if WasArchived(ms, cs, base, k) && !InsertsInto(changes[n], k) {
      if i :| 0 <= i < |cs| && Finishes(ms, cs, base, k, i) && forall j :: i < j < |cs| ==> !InsertsInto(cs[j], k) {
        assert Finishes(moments, changes, base, k, i);
        forall j | i < j < |changes| ensures !InsertsInto(changes[j], k) {
          if j < n { assert cs[j] == changes[j]; }
        }
      } else {
        forall j | 0 <= j < |changes| ensures !InsertsInto(changes[j], k) {
          if j < n { assert cs[j] == changes[j]; }
        }
      }
    }
  }

  lemma {:induction false} HistoryKeeps(moments: seq<Moment>, changes: seq<Change>, base: string, current: Date, k: int)
    requires History(moments, changes, base, current) && ValidIdentifier(base)
    requires Stores(moments[0].db, base, current, moments[0].logical)
    ensures Stores(moments[|changes|].db, base, current, moments[|changes|].logical)
    ensures MonthClear(moments[|changes|].db, base, k) <==> WasArchived(moments, changes, base, k)
    decreases |changes|
  {
    hide Stores, Follows, MonthClear, WasArchived, FinishedPass, InsertsInto;
    if changes == [] {
      NothingYet(moments, base, k);
    } else {
      var n := |changes| - 1;
      Shorter(moments, changes, base, current);
      HistoryKeeps(moments[..n + 1], changes[..n], base, current, k);
      ChangeKeepsStores(moments[n], moments[n + 1], changes[n], base, current);
      ChangeClears(moments[n], moments[n + 1], changes[n], base, current, k);
      ArchivedNext(moments, changes, base, k);
      PassInsertsNothing(changes[n], k);
    }
  }

  lemma NothingYet(moments: seq<Moment>, base: string, k: int)
    requires |moments| == 1
    ensures WasArchived(moments, [], base, k) <==> MonthClear(moments[0].db, base, k)
  {
  }

  lemma PassInsertsNothing(change: Change, k: int)
    ensures change.Pass? ==> !InsertsInto(change, k)
  {
  }

  /**
   After any run of inserts and archive passes, broken off or finished, in any order: the tables store the
   inserted rows, and every past month is archived if and only if each has a pass that went through after
   its last insert.
   */
  lemma ArchivedRunIsSettled(moments: seq<Moment>, changes: seq<Change>, base: string, current: Date)
    requires History(moments, changes, base, current) && ValidIdentifier(base)
    requires Stores(moments[0].db, base, current, moments[0].logical)
    ensures var end := moments[|changes|];
      && Stores(end.db, base, current, end.logical)
      && (Settled(end.db, base, current, end.logical) <==>
            (forall k :: k < MonthIndex(current) ==> WasArchived(moments, changes, base, k)))
  {
    hide Stores, Follows, WasArchived, MonthClear;
    HistoryKeeps(moments, changes, base, current, 0);
    forall k | k < MonthIndex(current)
      ensures MonthClear(moments[|changes|].db, base, k) <==> WasArchived(moments, changes, base, k)
    {
      HistoryKeeps(moments, changes, base, current, k);
    }
  }

  /** The rows a run inserts. */
  function Inserted(changes: seq<Change>): Table {
    if changes == [] then map[]
    else
      var before, last := Inserted(changes[..|changes| - 1]), changes[|changes| - 1];
      if last.Insert? then before[last.row.id := last.row] else before
  }

  lemma {:induction false} LogicalIsInserted(moments: seq<Moment>, changes: seq<Change>, base: string, current: Date)
    requires History(moments, changes, base, current) && moments[0].logical == map[]
    ensures moments[|changes|].logical == Inserted(changes)
    decreases |changes|
  {
    hide PassStep;
    if changes != [] {
      Shorter(moments, changes, base, current);
      LogicalIsInserted(moments[..|changes|], changes[..|changes| - 1], base, current);
    }
  }

  lemma EmptyStores(base: string, current: Date)
    requires ValidIdentifier(base)
    ensures Stores(map[base := map[]], base, current, map[])
  {
    hide ValidIdentifier, MonthIndex, ValidTime;
    var none: Database := map[];
    forall j ensures ArchiveOf(map[base := map[]], base, j) == map[] {
      ArchiveUntouched(none, base, map[], j);
    }
  }

  /**
   From empty tables on: when each past month has a finished pass after its last insert, a query is answered
   with exactly the page of all rows ever inserted that it wants, newest first.
   */
  lemma InsertedRowsAreReturned(moments: seq<Moment>, changes: seq<Change>, base: string, current: Date, q: Query,
                                out: seq<AlarmRow>)
    requires History(moments, changes, base, current) && moments[0] == Moment(map[base := map[]], map[])
    requires forall k :: k < MonthIndex(current) ==> WasArchived(moments, changes, base, k)
    requires GoodQuery(base, q, current)
    ensures Plan(base, q, current).Ok? && DistinctIds(WantedRows(Inserted(changes), q))
    ensures var tables, db := Plan(base, q, current).value, moments[|changes|].db;
      Answers(db, tables, q, out) <==>
        && Parses(q.filter) && (forall i :: 0 <= i < |tables| ==> tables[i] in db)
        && out == Page(Listing(WantedRows(Inserted(changes), q)), q.filter)
  {
    hide Stores, Follows, WasArchived, Settled, Plan, Answers, WantedRows, Page, Parses, Inserted;
    EmptyStores(base, current);
    ArchivedRunIsSettled(moments, changes, base, current);
    LogicalIsInserted(moments, changes, base, current);
    QueryRefines(moments[|changes|].db, base, q, current, Inserted(changes), out);
  }
}

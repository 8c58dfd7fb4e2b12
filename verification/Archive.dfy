/** History rows and tables, and what one archive pass does to a hot table and its month table. */
module HistoryRows {
  import opened Options
  import opened Calendar
  import opened IdSets

  /** `rest` are the columns that no query and no statistic looks at. */
  datatype AlarmRow = AlarmRow(
    id: int, location: Option<string>, device: Option<string>, deviceId: Option<string>, tag: Option<string>,
    faultType: Option<string>, tagValue: Option<string>, createAt: DateTime, rest: seq<Option<string>>)

  /** A table, by primary key. */
  type Table = map<int, AlarmRow>

  ghost predicate ProperTable(t: Table) {
    forall id :: id in t ==> t[id].id == id && ValidTime(t[id].createAt)
  }

  /** `create_at >= start AND create_at < end` for month `k`. */
  predicate InRange(r: AlarmRow, k: int) {
    !Before(r.createAt, Midnight(MonthAt(k))) && Before(r.createAt, Midnight(MonthAt(k + 1)))
  }

  function MonthIds(t: Table, k: int): set<int> {
    set id | id in t && InRange(t[id], k)
  }

  /** INSERT ... SELECT of the month's rows whose id is not in the target yet. */
  function Copied(hot: Table, target: Table, k: int): Table {
    target + map id | id in MonthIds(hot, k) && id !in target :: hot[id]
  }

  /** The hot table without the month. */
  function Remaining(hot: Table, k: int): Table {
    hot - MonthIds(hot, k)
  }

  /** In the month being archived, equal ids mean equal rows. */
  ghost predicate AgreeOnMonth(hot: Table, target: Table, k: int) {
    forall id :: id in MonthIds(hot, k) && id in target ==> hot[id] == target[id]
  }

  /** Only rows of the month are gone from the hot table, and nothing else changed in it. */
  ghost predicate Thinned(hot: Table, hot': Table, k: int) {
    && hot'.Keys <= hot.Keys && hot.Keys - hot'.Keys <= MonthIds(hot, k)
    && forall id :: id in hot' ==> hot'[id] == hot[id]
  }

  /** Where a pass may stop: before the copy, or after it with some of the month's rows deleted. */
  ghost predicate Partway(hot: Table, target: Table, hot': Table, target': Table, k: int) {
    || (hot' == hot && target' == target)
    || (target' == Copied(hot, target, k) && Thinned(hot, hot', k))
  }

  /** A row is in one of the two tables. */
  ghost predicate Present(r: AlarmRow, hot: Table, target: Table) {
    (r.id in hot && hot[r.id] == r) || (r.id in target && target[r.id] == r)
  }

  /** Wherever a pass stops, no row is lost and none is invented. */
  lemma PartwayKeepsRows(hot: Table, target: Table, hot': Table, target': Table, k: int, r: AlarmRow)
    requires Partway(hot, target, hot', target', k) && AgreeOnMonth(hot, target, k)
    ensures Present(r, hot, target) ==> Present(r, hot', target')
    ensures Present(r, hot', target') && ProperTable(hot) && ProperTable(target) ==> Present(r, hot, target)
  {
  }

  /** Rows outside the month stay in the hot table as they were. */
  lemma PartwayOutsideUntouched(hot: Table, target: Table, hot': Table, target': Table, k: int, id: int)
    requires Partway(hot, target, hot', target', k) && id in hot && !InRange(hot[id], k)
    ensures id in hot' && hot'[id] == hot[id]
    ensures id in target' <==> id in target
  {
  }

  /** Running again from wherever a pass stopped ends where an undisturbed pass ends. */
  lemma PartwayRetries(hot: Table, target: Table, hot': Table, target': Table, k: int)
    requires Partway(hot, target, hot', target', k)
    ensures Copied(hot', target', k) == Copied(hot, target, k)
    ensures Remaining(hot', k) == Remaining(hot, k)
  {
    if hot' != hot || target' != target {
      assert forall id :: id in MonthIds(hot', k) ==> id in MonthIds(hot, k);
      assert Copied(hot', target', k) == target';
      forall id | id in Remaining(hot', k) ensures Remaining(hot', k)[id] == hot[id] { }
      forall id ensures id in Remaining(hot', k) <==> id in Remaining(hot, k) {
        if id in hot && id !in hot' {
          assert id in hot.Keys - hot'.Keys;
        }
      }
    }
  }

  /**
   A completed pass keeps every row exactly when no row of the month meets a different row of the same id
   in the month table.
   */
  lemma ArchivingKeepsAllExactly(hot: Table, target: Table, k: int)
    requires ProperTable(hot) && ProperTable(target)
    ensures (forall r :: Present(r, hot, target) ==> Present(r, Remaining(hot, k), Copied(hot, target, k)))
       <==> AgreeOnMonth(hot, target, k)
  {
    var hot', target' := Remaining(hot, k), Copied(hot, target, k);
    if AgreeOnMonth(hot, target, k) {
      assert hot.Keys - hot'.Keys <= MonthIds(hot, k);
      forall r | Present(r, hot, target) ensures Present(r, hot', target') {
        PartwayKeepsRows(hot, target, hot', target', k, r);
      }
    } else {
      var id :| id in MonthIds(hot, k) && id in target && hot[id] != target[id];
      assert Present(hot[id], hot, target) && !Present(hot[id], hot', target');
    }
  }

  /** With agreeing ids the month table never counts fewer rows than the hot table. */
  lemma CountNeverLow(hot: Table, target: Table, k: int)
    requires AgreeOnMonth(hot, target, k)
    ensures |MonthIds(Copied(hot, target, k), k)| >= |MonthIds(hot, k)|
  {
    var t := Copied(hot, target, k);
    forall id | id in MonthIds(hot, k) ensures id in MonthIds(t, k) {
      assert id in t && t[id] == hot[id];
    }
    SubsetSize(MonthIds(hot, k), MonthIds(t, k));
  }
}

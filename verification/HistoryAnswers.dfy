/** What a history query answers, told from times, ids and filter values alone (src/history.rs). */
module HistoryAnswers {
  import opened Options
  import opened Calendar
  import opened HistoryTables
  import opened HistoryRows
  import opened ArchiveProcedure
  import opened HistoryQuery
  import opened HistoryRuns

  /** The row's time lies in the range, and each column that is asked for has the wanted value. */
  predicate AskedFor(q: Query, r: AlarmRow) {
    var f := q.filter;
    && !Before(r.createAt, q.startAt) && Before(r.createAt, q.endAt)
    && (f.location.Some? ==> r.location == f.location)
    && (f.device.Some? ==> r.device == f.device)
    && (f.deviceId.Some? ==> r.deviceId == f.deviceId)
    && (f.faultType.Some? ==> r.faultType == f.faultType)
    && (f.tagValue.Some? ==> r.tagValue == f.tagValue)
  }

  /** `a` is later than `b`, or as late with the greater id. */
  predicate Newer(a: AlarmRow, b: AlarmRow) {
    Before(b.createAt, a.createAt) || (a.createAt == b.createAt && a.id > b.id)
  }

  ghost predicate NewestFirst(rows: seq<AlarmRow>) {
    forall i, j :: 0 <= i < j < |rows| ==> Newer(rows[i], rows[j])
  }

  /** All rows of the table that are asked for, newest first. */
  ghost predicate IsListing(t: Table, q: Query, rows: seq<AlarmRow>) {
    NewestFirst(rows) && forall r :: r in rows <==> r.id in t && t[r.id] == r && AskedFor(q, r)
  }

  /** `out` is `rows` without the first `skip`, up to the limit. */
  ghost predicate IsPage(out: seq<AlarmRow>, rows: seq<AlarmRow>, skip: nat, limit: Option<nat>) {
    && (forall i :: 0 <= i < |out| ==> skip + i < |rows| && out[i] == rows[skip + i])
    && (limit.Some? ==> |out| <= limit.value)
    && (skip + |out| >= |rows| || (limit.Some? && |out| == limit.value))
  }

  lemma NewerIsAhead(a: AlarmRow, b: AlarmRow)
    ensures Newer(a, b) <==> Ahead(a, b)
  {
  }

  lemma AskedIsWanted(q: Query, r: AlarmRow)
    ensures AskedFor(q, r) <==> Wanted(q, r)
  {
    hide Before;
    var f := q.filter;
    if Wanted(q, r) {
      assert WantedOf(f, Location) == f.location && WantedOf(f, Device) == f.device;
      assert WantedOf(f, DeviceId) == f.deviceId && WantedOf(f, FaultType) == f.faultType;
      assert WantedOf(f, TagValue) == f.tagValue;
    }
  }

  lemma OnlyListing(t: Table, q: Query, rows: seq<AlarmRow>)
    requires ProperTable(t) && DistinctIds(WantedRows(t, q))
    ensures IsListing(t, q, rows) <==> rows == Listing(WantedRows(t, q))
  {
    hide AskedFor, Newer, Ahead, Wanted;
    var listing := Listing(WantedRows(t, q));
    ListingSorted(WantedRows(t, q));
    forall r: AlarmRow ensures r in listing <==> r.id in t && t[r.id] == r && AskedFor(q, r) { AskedIsWanted(q, r); }
    forall a, b ensures Newer(a, b) <==> Ahead(a, b) { NewerIsAhead(a, b); }
    if IsListing(t, q, rows) {
      SortedUnique(rows, listing);
    }
  }

  lemma OnlyPage(out: seq<AlarmRow>, rows: seq<AlarmRow>, f: Filter)
    ensures IsPage(out, rows, if f.offset.Some? then f.offset.value else 0, f.limit) <==> out == Page(rows, f)
  {
    var skip := if f.offset.Some? then f.offset.value else 0;
    var page := Page(rows, f);
    if IsPage(out, rows, skip, f.limit) {
      if out != [] { assert skip + (|out| - 1) < |rows| by { var last := out[|out| - 1]; } }
      assert out == page;
    }
  }

  /**
   When every past month is archived, a query is answered with a page of the logical table's rows that are
   asked for, newest first, equal times by descending id; and it is answered whenever the selected tables exist
   and there is no OFFSET without a LIMIT.
   */
  lemma AnswersExactly(db: Database, base: string, q: Query, current: Date, logical: Table, out: seq<AlarmRow>)
    requires GoodQuery(base, q, current) && Settled(db, base, current, logical)
    ensures Plan(base, q, current).Ok?
    ensures var tables := Plan(base, q, current).value;
      Answers(db, tables, q, out) <==>
        && (q.filter.limit.None? ==> q.filter.offset.None?) && (forall i :: 0 <= i < |tables| ==> tables[i] in db)
        && exists rows :: IsListing(logical, q, rows)
             && IsPage(out, rows, if q.filter.offset.Some? then q.filter.offset.value else 0, q.filter.limit)
  {
    hide Settled, Plan, Answers, Page, WantedRows, Listing, IsListing, IsPage, Before, ValidIdentifier;
    QueryRefines(db, base, q, current, logical, out);
    SettledProper(db, base, current, logical);
    var listing := Listing(WantedRows(logical, q));
    forall rows ensures IsListing(logical, q, rows) <==> rows == listing { OnlyListing(logical, q, rows); }
    assert IsListing(logical, q, listing);
    OnlyPage(out, listing, q.filter);
  }

  /** Whatever the tables hold, archived or not, no row of an answer is older than a later one. */
  lemma AnswersNewestFirst(db: Database, tables: seq<string>, q: Query, out: seq<AlarmRow>, i: nat, j: nat)
    requires Answers(db, tables, q, out) && i < j < |out|
    ensures !Before(out[i].createAt, out[j].createAt)
    ensures out[i].createAt == out[j].createAt ==> out[i].id >= out[j].id
  {
    hide IsUnion, Before;
    var rows :| IsUnion(db, tables, q, rows) && Sorted(rows) && out == Page(rows, q.filter);
    var skip := if q.filter.offset.Some? then q.filter.offset.value else 0;
    OnlyPage(out, rows, q.filter);
    assert out[i] == rows[skip + i] && out[j] == rows[skip + j];
    assert !Ahead(rows[skip + j], rows[skip + i]);
  }

  /** Every row of a page is newer than every row of a later page. */
  lemma PagesNewestFirst(db: Database, base: string, q: Query, current: Date, logical: Table, n: nat,
                         outs: seq<seq<AlarmRow>>, k: nat, l: nat, a: AlarmRow, b: AlarmRow)
    requires GoodQuery(base, q, current) && Settled(db, base, current, logical)
    requires Plan(base, q, current).Ok? && AnswerPages(db, Plan(base, q, current).value, q, n, outs)
    requires k < l < |outs| && a in outs[k] && b in outs[l]
    ensures Before(b.createAt, a.createAt) || (a.createAt == b.createAt && a.id > b.id)
  {
    hide Settled, Plan, Answers, Wanted, WantedRows, Listing, Before, ValidIdentifier;
    SettledProper(db, base, current, logical);
    WantedDistinct(logical, q);
    var listing := Listing(WantedRows(logical, q));
    ListingSorted(WantedRows(logical, q));
    var i := PlaceOfPage(db, base, q, current, logical, n, outs, k, a);
    var j := PlaceOfPage(db, base, q, current, logical, n, outs, l, b);
    LaterPage(n, k, l);
    assert Ahead(listing[i], listing[j]);
  }

  lemma LaterPage(n: nat, k: nat, l: nat)
    requires k < l
    ensures k * n + n <= l * n
  {
    assert (l - k - 1) * n >= 0;
    assert l * n == k * n + n + (l - k - 1) * n;
  }

  /** Where in the listing a row of page `k` stands. */
  lemma PlaceOfPage(db: Database, base: string, q: Query, current: Date, logical: Table, n: nat,
                    outs: seq<seq<AlarmRow>>, k: nat, a: AlarmRow) returns (i: nat)
    requires GoodQuery(base, q, current) && Settled(db, base, current, logical)
    requires Plan(base, q, current).Ok? && AnswerPages(db, Plan(base, q, current).value, q, n, outs)
    requires k < |outs| && a in outs[k]
    ensures DistinctIds(WantedRows(logical, q))
    ensures k * n <= i < k * n + n && i < |Listing(WantedRows(logical, q))|
    ensures Listing(WantedRows(logical, q))[i] == a
  {
    hide Settled, Plan, Answers, Wanted, WantedRows, Page, Listing, Before, ValidIdentifier;
    SettledProper(db, base, current, logical);
    WantedDistinct(logical, q);
    var page := q.(filter := PageFilter(q.filter, n, k));
    SamePlan(base, q, n, k, current);
    PageRows(logical, q, n, k);
    assert Answers(db, Plan(base, q, current).value, page, outs[k]);
    QueryRefines(db, base, page, current, logical, outs[k]);
    OnlyPage(outs[k], Listing(WantedRows(logical, q)), page.filter);
    var m :| 0 <= m < |outs[k]| && outs[k][m] == a;
    i := k * n + m;
  }

  // ---- after runs ----

  /** The rows of a run's inserts are the rows it has inserted: no insert meets an id in use. */
  lemma {:induction false} InsertedAre(moments: seq<Moment>, changes: seq<Change>, base: string, current: Date,
                                       r: AlarmRow)
    requires History(moments, changes, base, current) && moments[0].logical == map[]
    ensures r.id in Inserted(changes) && Inserted(changes)[r.id] == r <==> Insert(r) in changes
    decreases |changes|
  {
    hide PassStep, ValidTime;
    if changes != [] {
      var n := |changes| - 1;
      Shorter(moments, changes, base, current);
      InsertedAre(moments[..|changes|], changes[..n], base, current, r);
      LogicalIsInserted(moments[..|changes|], changes[..n], base, current);
      assert moments[..|changes|][n] == moments[n];
      assert changes == changes[..n] + [changes[n]];
    }
  }

  /** The rows inserted by the run and asked for, newest first. */
  ghost predicate IsInsertedListing(changes: seq<Change>, q: Query, rows: seq<AlarmRow>) {
    NewestFirst(rows) && forall r :: r in rows <==> Insert(r) in changes && AskedFor(q, r)
  }

  /**
   From empty tables on: when each past month has a finished pass after its last insert, a query is answered
   with the page of the inserted rows that are asked for, newest first.
   */
  lemma InsertedRowsNewestFirst(moments: seq<Moment>, changes: seq<Change>, base: string, current: Date, q: Query,
                                out: seq<AlarmRow>)
    requires History(moments, changes, base, current) && moments[0] == Moment(map[base := map[]], map[])
    requires forall k :: k < MonthIndex(current) ==> WasArchived(moments, changes, base, k)
    requires GoodQuery(base, q, current)
    ensures Plan(base, q, current).Ok?
    ensures var tables, db := Plan(base, q, current).value, moments[|changes|].db;
      Answers(db, tables, q, out) <==>
        && (q.filter.limit.None? ==> q.filter.offset.None?) && (forall i :: 0 <= i < |tables| ==> tables[i] in db)
        && exists rows :: IsInsertedListing(changes, q, rows)
             && IsPage(out, rows, if q.filter.offset.Some? then q.filter.offset.value else 0, q.filter.limit)
  {
    hide Stores, Follows, WasArchived, Settled, Plan, Answers, Inserted, IsPage, AskedFor, NewestFirst;
    EmptyStores(base, current);
    ArchivedRunIsSettled(moments, changes, base, current);
    LogicalIsInserted(moments, changes, base, current);
    AnswersExactly(moments[|changes|].db, base, q, current, Inserted(changes), out);
    forall rows ensures IsInsertedListing(changes, q, rows) <==> IsListing(Inserted(changes), q, rows) {
      forall r: AlarmRow ensures r.id in Inserted(changes) && Inserted(changes)[r.id] == r <==> Insert(r) in changes {
        InsertedAre(moments, changes, base, current, r);
      }
    }
  }
}

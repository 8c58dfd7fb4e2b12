/** `build_history_query` (src/history.rs): what the UNION ALL over the selected tables returns. */
module HistoryQuery {
  import opened Options
  import opened Calendar
  import opened Decimal
  import opened HistoryTables
  import opened HistoryRows
  import opened IdSets
  import opened SqlLogic
  import opened ArchiveProcedure

  datatype Filter = Filter(
    location: Option<string>, device: Option<string>, deviceId: Option<string>, faultType: Option<string>,
    tagValue: Option<string>, limit: Option<nat>, offset: Option<nat>)

  /** The columns that can be filtered. */
  datatype Column = Location | Device | DeviceId | FaultType | TagValue

  const COLUMNS: seq<Column> := [Location, Device, DeviceId, FaultType, TagValue]

  function WantedOf(f: Filter, column: Column): Option<string> {
    match column
    case Location => f.location
    case Device => f.device
    case DeviceId => f.deviceId
    case FaultType => f.faultType
    case TagValue => f.tagValue
  }

  function ValueOf(r: AlarmRow, column: Column): Option<string> {
    match column
    case Location => r.location
    case Device => r.device
    case DeviceId => r.deviceId
    case FaultType => r.faultType
    case TagValue => r.tagValue
  }

  /** `AND column = ?`, with the bound value. */
  datatype Clause = Clause(column: Column, value: string)

  function ClauseFor(f: Filter, column: Column): seq<Clause> {
    if WantedOf(f, column).Some? then [Clause(column, WantedOf(f, column).value)] else []
  }

  /** The clauses of the columns that have a wanted value, in the order of the columns. */
  function Clauses(f: Filter, columns: seq<Column>): seq<Clause> {
    if columns == [] then [] else ClauseFor(f, columns[0]) + Clauses(f, columns[1..])
  }

  /** `filter_sql`: the text grows by one clause for each filter given. */
  method FilterSql(f: Filter) returns (sql: seq<Clause>)
    ensures sql == Clauses(f, COLUMNS)
  {
    hide Clauses;
    sql := [];
    if f.location.Some? { sql := sql + [Clause(Location, f.location.value)]; }
    assert sql == ClauseFor(f, Location);
    if f.device.Some? { sql := sql + [Clause(Device, f.device.value)]; }
    assert sql == ClauseFor(f, Location) + ClauseFor(f, Device);
    if f.deviceId.Some? { sql := sql + [Clause(DeviceId, f.deviceId.value)]; }
    assert sql == ClauseFor(f, Location) + ClauseFor(f, Device) + ClauseFor(f, DeviceId);
    if f.faultType.Some? { sql := sql + [Clause(FaultType, f.faultType.value)]; }
    assert sql == ClauseFor(f, Location) + ClauseFor(f, Device) + ClauseFor(f, DeviceId) + ClauseFor(f, FaultType);
    if f.tagValue.Some? { sql := sql + [Clause(TagValue, f.tagValue.value)]; }
    ColumnByColumn(f);
  }

  lemma ColumnByColumn(f: Filter)
    ensures Clauses(f, COLUMNS)
         == ClauseFor(f, Location) + ClauseFor(f, Device) + ClauseFor(f, DeviceId) + ClauseFor(f, FaultType)
             + ClauseFor(f, TagValue)
  {
    hide ClauseFor;
    FirstColumn(f, Location, [Device, DeviceId, FaultType, TagValue]);
    FirstColumn(f, Device, [DeviceId, FaultType, TagValue]);
    FirstColumn(f, DeviceId, [FaultType, TagValue]);
    FirstColumn(f, FaultType, [TagValue]);
    FirstColumn(f, TagValue, []);
    assert COLUMNS == [Location] + [Device, DeviceId, FaultType, TagValue];
    assert [Device, DeviceId, FaultType, TagValue] == [Device] + [DeviceId, FaultType, TagValue];
    assert [DeviceId, FaultType, TagValue] == [DeviceId] + [FaultType, TagValue];
    assert [FaultType, TagValue] == [FaultType] + [TagValue];
    assert [TagValue] == [TagValue] + [];
  }

  lemma FirstColumn(f: Filter, column: Column, rest: seq<Column>)
    ensures Clauses(f, [column] + rest) == ClauseFor(f, column) + Clauses(f, rest)
  {
    assert ([column] + rest)[1..] == rest;
  }

  /** The test so far, and the clauses after it. */
  function WithClauses(test: Tri, clauses: seq<Clause>, r: AlarmRow): Tri
    decreases |clauses|
  {
    if clauses == [] then test
    else WithClauses(And(test, Eq(ValueOf(r, clauses[0].column), Some(clauses[0].value))), clauses[1..], r)
  }

  /** A range and its filter. */
  datatype Query = Query(startAt: DateTime, endAt: DateTime, filter: Filter)

  /** `WHERE create_at >= ? AND create_at < ?` and the clauses; `create_at` is never NULL. */
  function Where(q: Query, r: AlarmRow): Tri {
    WithClauses(And(ToTri(!Before(r.createAt, q.startAt)), ToTri(Before(r.createAt, q.endAt))),
        Clauses(q.filter, COLUMNS), r)
  }

  predicate Within(r: AlarmRow, startAt: DateTime, endAt: DateTime) {
    !Before(r.createAt, startAt) && Before(r.createAt, endAt)
  }

  /** Every column that is asked for has the wanted value, and so is not NULL. */
  ghost predicate Matches(f: Filter, r: AlarmRow) {
    forall column :: WantedOf(f, column).Some? ==> ValueOf(r, column) == WantedOf(f, column)
  }

  ghost predicate Wanted(q: Query, r: AlarmRow) {
    Within(r, q.startAt, q.endAt) && Matches(q.filter, r)
  }

  lemma {:induction false} ClausesMean(test: Tri, clauses: seq<Clause>, r: AlarmRow)
    ensures Accepted(WithClauses(test, clauses, r)) <==>
      Accepted(test) && forall k :: k in clauses ==> ValueOf(r, k.column) == Some(k.value)
    decreases |clauses|
  {
    if clauses != [] {
      var first := clauses[0];
      ClausesMean(And(test, Eq(ValueOf(r, first.column), Some(first.value))), clauses[1..], r);
      assert clauses == [first] + clauses[1..];
    }
  }

  lemma {:induction false} ClausesOf(f: Filter, columns: seq<Column>)
    ensures forall k :: k in Clauses(f, columns) <==> k.column in columns && WantedOf(f, k.column) == Some(k.value)
  {
    if columns != [] {
      ClausesOf(f, columns[1..]);
      assert columns == [columns[0]] + columns[1..];
    }
  }

  lemma AllColumns(column: Column)
    ensures column in COLUMNS
  {
    var all := COLUMNS;
    match column
    case Location => assert all[0] == column;
    case Device => assert all[1] == column;
    case DeviceId => assert all[2] == column;
    case FaultType => assert all[3] == column;
    case TagValue => assert all[4] == column;
  }

  /**
   The WHERE clause takes a row exactly when it lies in the range and every column asked for has the wanted
   value: a column without a filter is free, and a NULL column passes no filter.
   */
  lemma WhereMeans(q: Query, r: AlarmRow)
    ensures Accepted(Where(q, r)) <==> Wanted(q, r)
  {
    hide WithClauses, Clauses, WantedOf, ValueOf, Before;
    var test := And(ToTri(!Before(r.createAt, q.startAt)), ToTri(Before(r.createAt, q.endAt)));
    var clauses := Clauses(q.filter, COLUMNS);
    ClausesMean(test, clauses, r);
    ClausesOf(q.filter, COLUMNS);
    if forall k :: k in clauses ==> ValueOf(r, k.column) == Some(k.value) {
      forall column | WantedOf(q.filter, column).Some? ensures ValueOf(r, column) == WantedOf(q.filter, column) {
        AllColumns(column);
        assert Clause(column, WantedOf(q.filter, column).value) in clauses;
      }
    }
    forall k | k in clauses && Matches(q.filter, r) ensures ValueOf(r, k.column) == Some(k.value) {
      assert WantedOf(q.filter, k.column) == Some(k.value);
    }
  }

  predicate Holds(t: Table, r: AlarmRow) {
    r.id in t && t[r.id] == r
  }

  /** How often one branch returns a row. */
  function Hits(t: Table, q: Query, r: AlarmRow): nat {
    if Holds(t, r) && Accepted(Where(q, r)) then 1 else 0
  }

  lemma HitsMean(t: Table, q: Query, r: AlarmRow)
    ensures Hits(t, q, r) == if Holds(t, r) && Wanted(q, r) then 1 else 0
  {
    hide Where, Wanted;
    WhereMeans(q, r);
  }

  /** How often the UNION ALL returns a row. */
  function Occurrences(db: Database, tables: seq<string>, q: Query, r: AlarmRow): nat {
    if tables == [] then 0
    else Hits(TableAt(db, tables[0]), q, r) + Occurrences(db, tables[1..], q, r)
  }

  /** ORDER BY create_at DESC, id DESC. */
  predicate Ahead(a: AlarmRow, b: AlarmRow) {
    Before(b.createAt, a.createAt) || (a.createAt == b.createAt && b.id < a.id)
  }

  ghost predicate Sorted(rows: seq<AlarmRow>) {
    forall i, j :: 0 <= i < j < |rows| ==> !Ahead(rows[j], rows[i])
  }

  ghost predicate StrictlySorted(rows: seq<AlarmRow>) {
    forall i, j :: 0 <= i < j < |rows| ==> Ahead(rows[i], rows[j])
  }

  ghost predicate IsUnion(db: Database, tables: seq<string>, q: Query, rows: seq<AlarmRow>) {
    forall r :: multiset(rows)[r] == Occurrences(db, tables, q, r)
  }

  /** `LIMIT ? OFFSET ?`; an OFFSET without a LIMIT is not valid SQL. */
  predicate Parses(f: Filter) {
    f.offset.Some? ==> f.limit.Some?
  }

  function Page(rows: seq<AlarmRow>, f: Filter): seq<AlarmRow> {
    var skip := if f.offset.Some? then f.offset.value else 0;
    var rest := if skip <= |rows| then rows[skip..] else [];
    if f.limit.Some? && f.limit.value <= |rest| then rest[..f.limit.value] else rest
  }

  /** What the database may answer; none for a statement that does not parse or a table that does not exist. */
  ghost predicate Answers(db: Database, tables: seq<string>, q: Query, out: seq<AlarmRow>) {
    && Parses(q.filter) && (forall i :: 0 <= i < |tables| ==> tables[i] in db)
    && exists rows :: IsUnion(db, tables, q, rows) && Sorted(rows) && out == Page(rows, q.filter)
  }

  /** The plan's tables. */
  function Plan(base: string, q: Query, current: Date): Result<seq<string>>
    requires 1 <= q.startAt.date.month <= 12 && 1 <= q.endAt.date.month <= 12
  {
    match SelectHistoryTables(base, q.startAt, q.endAt, current)
    case Err(e) => Err(e)
    case Ok(tables) => if tables == [] then Err(NoTables) else Ok(tables)
  }

  // ---- where rows lie ----

  function ArchiveOf(db: Database, base: string, k: int): Table {
    match ArchiveName(base, MonthAt(k))
    case Ok(name) => TableAt(db, name)
    case Err(_) => map[]
  }

  /** Every month table holds rows of its own month only. */
  ghost predicate OwnMonths(db: Database, base: string, current: Date) {
    && ProperTable(TableAt(db, base))
    && forall k, id :: k < MonthIndex(current) && id in ArchiveOf(db, base, k) ==>
         var r := ArchiveOf(db, base, k)[id];
         r.id == id && ValidTime(r.createAt) && MonthIndex(r.createAt.date) == k
  }

  predicate InArchive(db: Database, base: string, r: AlarmRow) {
    Holds(ArchiveOf(db, base, MonthIndex(r.createAt.date)), r)
  }

  predicate InHot(db: Database, base: string, r: AlarmRow) {
    Holds(TableAt(db, base), r)
  }

  lemma ArchiveHits(db: Database, base: string, current: Date, k: int, q: Query, r: AlarmRow)
    requires OwnMonths(db, base, current) && k < MonthIndex(current)
    ensures Hits(ArchiveOf(db, base, k), q, r)
         == if k == MonthIndex(r.createAt.date) && InArchive(db, base, r) && Wanted(q, r) then 1 else 0
  {
    hide ArchiveOf, Wanted, Hits;
    HitsMean(ArchiveOf(db, base, k), q, r);
  }

  ghost function One(b: bool): nat { if b then 1 else 0 }

  lemma {:induction false} CountRange(db: Database, base: string, lo: int, hi: int, current: Date,
                                      tables: seq<string>, q: Query, r: AlarmRow)
    requires NamesOf(base, lo, hi, current, tables) && OwnMonths(db, base, current)
    requires ValidDate(current) && current.day == 1 && hi <= MonthIndex(current) + 1
    ensures var c, m := MonthIndex(current), MonthIndex(r.createAt.date);
      Occurrences(db, tables, q, r) ==
        One(lo <= m < hi && m < c && InArchive(db, base, r) && Wanted(q, r)) +
        One(lo <= c < hi && InHot(db, base, r) && Wanted(q, r))
    decreases |tables|
  {
    hide OwnMonths, InArchive, Wanted, ArchiveName, ArchiveOf, Hits;
    if tables != [] {
      HitsMean(TableAt(db, tables[0]), q, r);
      assert TableOf(base, lo + 0, current) == Ok(tables[0]);
      assert NamesOf(base, lo + 1, hi, current, tables[1..]) by {
        forall i | 0 <= i < |tables[1..]| ensures TableOf(base, lo + 1 + i, current) == Ok(tables[1..][i]) {
          assert TableOf(base, lo + (i + 1), current) == Ok(tables[i + 1]);
        }
      }
      CountRange(db, base, lo + 1, hi, current, tables[1..], q, r);
      FirstTable(db, base, lo, current, tables[0]);
      if lo < MonthIndex(current) {
        ArchiveHits(db, base, current, lo, q, r);
      }
    }
  }

  lemma FirstTable(db: Database, base: string, k: int, current: Date, name: string)
    requires TableOf(base, k, current) == Ok(name) && ValidDate(current) && current.day == 1 && k <= MonthIndex(current)
    ensures k == MonthIndex(current) ==> name == base
    ensures k < MonthIndex(current) ==> TableAt(db, name) == ArchiveOf(db, base, k)
  {
    hide ArchiveName;
    IndexOfMonth(current);
    MonthAtIndex(k);
  }

  /** The hot table is read exactly when the range reaches the current month. */
  ghost predicate ReachesCurrent(q: Query, current: Date) {
    Overlaps(MonthIndex(current), q.startAt, q.endAt)
  }

  ghost predicate GoodQuery(base: string, q: Query, current: Date) {
    && ValidIdentifier(base) && ValidTime(q.startAt) && ValidTime(q.endAt) && ValidDate(current) && current.day == 1
    && Before(q.startAt, q.endAt) && 0 <= MonthIndex(q.startAt.date) <= MonthIndex(current)
  }

  lemma RowOverlaps(q: Query, r: AlarmRow)
    requires Within(r, q.startAt, q.endAt) && ValidTime(r.createAt)
    ensures Overlaps(MonthIndex(r.createAt.date), q.startAt, q.endAt)
  {
    hide Before, MonthIndex, MonthAt, ValidTime;
    var m := MonthIndex(r.createAt.date);
    InMonth(r.createAt, m);
    var first, next := Midnight(MonthAt(m)), Midnight(MonthAt(m + 1));
    OrderSteps(first, r.createAt, q.endAt);
    OrderSteps(q.startAt, r.createAt, next);
  }

  lemma OrderSteps(a: DateTime, b: DateTime, c: DateTime)
    ensures !Before(b, a) && Before(b, c) ==> Before(a, c)
  {
  }

  lemma StartOverlaps(q: Query, current: Date)
    requires ValidTime(q.startAt) && Before(q.startAt, q.endAt)
    ensures Overlaps(MonthIndex(q.startAt.date), q.startAt, q.endAt)
  {
    hide Before, MonthIndex, MonthAt, ValidTime;
    var m := MonthIndex(q.startAt.date);
    InMonth(q.startAt, m);
    OrderSteps(Midnight(MonthAt(m)), q.startAt, q.endAt);
  }

  lemma TakenUpTo(k: int, current: Date)
    requires ValidDate(current) && current.day == 1
    ensures Taken(k, current) <==> k <= MonthIndex(current)
  {
    IndexOfMonth(current);
    MonthAtIndex(k);
    MonthOrder(k, MonthIndex(current));
  }

  lemma HiBound(endAt: DateTime, current: Date)
    ensures LastMonth(endAt, current) <= MonthIndex(current) + 1
  {
  }

  lemma NamedFrom(base: string, k: int, current: Date)
    requires ValidIdentifier(base) && k >= 0
    ensures TableOf(base, k, current).Ok?
  {
    hide ArchiveName;
    MonthAtIndex(k);
    ArchiveNameValid(base, MonthAt(k));
  }

  /** The plan of such a query exists and lists its months. */
  lemma PlanExists(base: string, q: Query, current: Date)
    requires GoodQuery(base, q, current)
    ensures var lo, hi := MonthIndex(q.startAt.date), LastMonth(q.endAt, current);
      && Plan(base, q, current).Ok? && lo < hi
      && NamesOf(base, lo, hi, current, Plan(base, q, current).value) && Distinct(Plan(base, q, current).value)
  {
    hide SelectHistoryTables, TableOf, LastMonth, Before, Taken, MonthAt;
    var lo := MonthIndex(q.startAt.date);
    SelectionExact(base, q.startAt, q.endAt, current);
    SelectedMonths(q.startAt, q.endAt, current);
    StartOverlaps(q, current);
    TakenUpTo(lo, current);
    NamedFrom(base, lo, current);
  }

  /** The plan of such a query exists, and a row is counted once for its month's archive and once for the hot table. */
  lemma CountExactly(db: Database, base: string, q: Query, current: Date, r: AlarmRow)
    requires GoodQuery(base, q, current) && OwnMonths(db, base, current) && ValidTime(r.createAt) && Wanted(q, r)
    ensures Plan(base, q, current).Ok?
    ensures var m := MonthIndex(r.createAt.date);
      Occurrences(db, Plan(base, q, current).value, q, r) ==
        One(m < MonthIndex(current) && InArchive(db, base, r)) + One(ReachesCurrent(q, current) && InHot(db, base, r))
  {
    hide OwnMonths, InArchive, InHot, NamesOf, Matches, Select, Before, Occurrences, LastMonth, ArchiveName;
    var lo, hi, c := MonthIndex(q.startAt.date), LastMonth(q.endAt, current), MonthIndex(current);
    PlanExists(base, q, current);
    SelectedMonths(q.startAt, q.endAt, current);
    HiBound(q.endAt, current);
    CountRange(db, base, lo, hi, current, Plan(base, q, current).value, q, r);
    RowOverlaps(q, r);
    TakenUpTo(MonthIndex(r.createAt.date), current);
    TakenUpTo(c, current);
    assert MonthIndex(q.startAt.date) <= c;
    assert lo <= c < hi <==> ReachesCurrent(q, current);
  }

  // ---- one logical table ----

  /** A row is in the hot table, or in its month's archive if that month is over. */
  predicate Somewhere(db: Database, base: string, current: Date, r: AlarmRow) {
    InHot(db, base, r) || (MonthIndex(r.createAt.date) < MonthIndex(current) && InArchive(db, base, r))
  }

  /** The physical tables hold the rows of `logical` and no others. */
  ghost predicate Stores(db: Database, base: string, current: Date, logical: Table) {
    && ProperTable(logical) && OwnMonths(db, base, current)
    && forall r: AlarmRow :: Holds(logical, r) <==> Somewhere(db, base, current, r)
  }

  ghost predicate MonthClear(db: Database, base: string, k: int) {
    forall id :: id in TableAt(db, base) ==> MonthIndex(TableAt(db, base)[id].createAt.date) != k
  }

  /** Every month before the current one is archived. */
  ghost predicate Settled(db: Database, base: string, current: Date, logical: Table) {
    Stores(db, base, current, logical) && forall k :: k < MonthIndex(current) ==> MonthClear(db, base, k)
  }

  /** Rows of the current month or later, met by the range, are met in the hot table. */
  lemma LateRowsReach(q: Query, base: string, current: Date, r: AlarmRow)
    requires GoodQuery(base, q, current) && Wanted(q, r) && ValidTime(r.createAt)
    requires MonthIndex(r.createAt.date) >= MonthIndex(current)
    ensures ReachesCurrent(q, current)
  {
    hide Matches, MonthAt;
    var c, m := MonthIndex(current), MonthIndex(r.createAt.date);
    RowOverlaps(q, r);
    StartOverlaps(q, current);
    MonthOrder(c, m);
    MonthOrder(MonthIndex(q.startAt.date), c);
    EarlierMonth(c, m, q.endAt);
    LaterMonth(MonthIndex(q.startAt.date), c, q.startAt);
  }

  lemma EarlierMonth(j: int, k: int, t: DateTime)
    requires j <= k && Before(Midnight(MonthAt(k)), t)
    ensures Before(Midnight(MonthAt(j)), t)
  {
    hide MonthAt;
    MonthOrder(j, k);
    BeforeTransitive(Midnight(MonthAt(j)), Midnight(MonthAt(k)), t);
  }

  lemma LaterMonth(j: int, k: int, t: DateTime)
    requires j <= k && Before(t, Midnight(MonthAt(j + 1)))
    ensures Before(t, Midnight(MonthAt(k + 1)))
  {
    hide MonthAt;
    MonthOrder(j + 1, k + 1);
    BeforeTransitive(t, Midnight(MonthAt(j + 1)), Midnight(MonthAt(k + 1)));
  }

  /**
   A stored row that a query wants is returned exactly once, unless archiving of its month was broken off:
   it is returned twice when it is in both tables and the range reaches the current month, and not at all
   when only the hot table has it and the range does not.
   */
  lemma ReturnedOnceExactly(db: Database, base: string, q: Query, current: Date, logical: Table, r: AlarmRow)
    requires GoodQuery(base, q, current) && Stores(db, base, current, logical) && Holds(logical, r) && Wanted(q, r)
    ensures Plan(base, q, current).Ok?
    ensures var past := MonthIndex(r.createAt.date) < MonthIndex(current);
      var n := Occurrences(db, Plan(base, q, current).value, q, r);
      && (n == 2 <==> past && InHot(db, base, r) && InArchive(db, base, r) && ReachesCurrent(q, current))
      && (n == 0 <==> past && InHot(db, base, r) && !InArchive(db, base, r) && !ReachesCurrent(q, current))
      && n <= 2
  {
    hide OwnMonths, InArchive, InHot, Plan, Occurrences, GoodQuery, Wanted, ReachesCurrent;
    ValidRow(logical, r);
    CountExactly(db, base, q, current, r);
    if MonthIndex(r.createAt.date) >= MonthIndex(current) {
      LateRowsReach(q, base, current, r);
    }
  }

  lemma ValidRow(t: Table, r: AlarmRow)
    requires ProperTable(t) && Holds(t, r)
    ensures ValidTime(r.createAt)
  {
  }

  /** Once every past month is archived, the UNION ALL counts each row as the logical table does. */
  lemma CountsLikeLogical(db: Database, base: string, q: Query, current: Date, logical: Table, r: AlarmRow)
    requires GoodQuery(base, q, current) && Settled(db, base, current, logical)
    ensures Plan(base, q, current).Ok?
    ensures Occurrences(db, Plan(base, q, current).value, q, r) == Hits(logical, q, r)
  {
    hide OwnMonths, InArchive, NamesOf, Plan, Occurrences, LastMonth, Wanted, ReachesCurrent, Hits;
    PlanExists(base, q, current);
    HitsMean(logical, q, r);
    if Holds(logical, r) && Wanted(q, r) {
      ReturnedOnceExactly(db, base, q, current, logical, r);
      if InHot(db, base, r) {
        assert MonthClear(db, base, MonthIndex(r.createAt.date)) ==> false by {
          assert TableAt(db, base)[r.id] == r;
        }
      }
    } else {
      HiBound(q.endAt, current);
      CountRange(db, base, MonthIndex(q.startAt.date), LastMonth(q.endAt, current), current,
                 Plan(base, q, current).value, q, r);
      assert !Somewhere(db, base, current, r) || !Wanted(q, r);
    }
  }

  // ---- the answer ----

  ghost function WantedRows(t: Table, q: Query): set<AlarmRow> {
    set id | id in t && Wanted(q, t[id]) :: t[id]
  }

  ghost predicate DistinctIds(s: set<AlarmRow>) {
    forall a, b :: a in s && b in s && a.id == b.id ==> a == b
  }

  lemma AheadTotal(a: AlarmRow, b: AlarmRow)
    requires a.id != b.id
    ensures Ahead(a, b) <==> !Ahead(b, a)
  {
    BeforeTotal(a.createAt, b.createAt);
  }

  lemma AheadTransitive(a: AlarmRow, b: AlarmRow, c: AlarmRow)
    requires Ahead(a, b) && Ahead(b, c)
    ensures Ahead(a, c)
  {
    BeforeTransitive(a.createAt, b.createAt, c.createAt);
  }

  lemma {:induction false} FirstExists(s: set<AlarmRow>)
    requires s != {} && DistinctIds(s)
    ensures exists a :: a in s && forall b :: b in s - {a} ==> Ahead(a, b)
    decreases |s|
  {
    hide Ahead;
    var x := Witness(s);
    var rest := s - {x};
    if rest == {} {
      assert x in s && forall b :: b in s - {x} ==> Ahead(x, b);
    } else {
      FirstExists(rest);
      var a :| a in rest && forall b :: b in rest - {a} ==> Ahead(a, b);
      AheadTotal(a, x);
      if Ahead(x, a) {
        forall b | b in s - {x} ensures Ahead(x, b) {
          if b != a { AheadTransitive(x, a, b); }
        }
      } else {
        assert forall b :: b in s - {a} ==> Ahead(a, b);
      }
    }
  }

  /** The rows in the order of the query. */
  ghost function Listing(s: set<AlarmRow>): (rows: seq<AlarmRow>)
    requires DistinctIds(s)
    ensures forall r :: r in rows <==> r in s
    decreases |s|
  {
    if s == {} then []
    else
      FirstExists(s);
      var a :| a in s && forall b :: b in s - {a} ==> Ahead(a, b);
      [a] + Listing(s - {a})
  }

  lemma {:induction false} ListingSorted(s: set<AlarmRow>)
    requires DistinctIds(s)
    ensures StrictlySorted(Listing(s)) && |Listing(s)| == |s|
    decreases |s|
  {
    hide Ahead;
    if s != {} {
      var rows := Listing(s);
      ListingSorted(s - {rows[0]});
      assert rows[1..] == Listing(s - {rows[0]});
      forall i, j | 0 <= i < j < |rows| ensures Ahead(rows[i], rows[j]) {
        assert rows[j] == rows[1..][j - 1] && rows[j] in s - {rows[0]};
        if i > 0 { assert rows[i] == rows[1..][i - 1]; }
      }
    }
  }

  /** A strictly sorted sequence holds every row at most once. */
  lemma {:induction false} OnceIfSorted(rows: seq<AlarmRow>, r: AlarmRow)
    requires StrictlySorted(rows)
    ensures multiset(rows)[r] == if r in rows then 1 else 0
  {
    hide StrictlySorted;
    if rows != [] {
      var rest := rows[1..];
      assert rows == [rows[0]] + rest;
      TailSorted(rows);
      TailMembers(rows, r);
      OnceIfSorted(rest, r);
    }
  }

  /** Only one strictly sorted sequence has given members. */
  lemma {:induction false} SortedUnique(a: seq<AlarmRow>, b: seq<AlarmRow>)
    requires StrictlySorted(a) && StrictlySorted(b) && forall r :: r in a <==> r in b
    ensures a == b
  {
    hide Ahead;
    NonEmptyHasMember(a);
    NonEmptyHasMember(b);
    if a != [] && b != [] {
      assert a[0] in b && b[0] in a;
      HeadsAgree(a, b);
      forall r ensures r in a[1..] <==> r in b[1..] {
        TailMembers(a, r);
        TailMembers(b, r);
      }
      TailSorted(a);
      TailSorted(b);
      SortedUnique(a[1..], b[1..]);
      assert a == [a[0]] + a[1..] && b == [b[0]] + b[1..];
    }
  }

  lemma AheadAsymmetric(a: AlarmRow, b: AlarmRow)
    ensures !(Ahead(a, b) && Ahead(b, a))
  {
    BeforeTotal(a.createAt, b.createAt);
  }

  lemma HeadsAgree(a: seq<AlarmRow>, b: seq<AlarmRow>)
    requires StrictlySorted(a) && StrictlySorted(b) && a != [] && b != [] && a[0] in b && b[0] in a
    ensures a[0] == b[0]
  {
    hide Ahead;
    FirstAhead(b, a[0]);
    FirstAhead(a, b[0]);
    AheadAsymmetric(a[0], b[0]);
  }

  lemma FirstAhead(s: seq<AlarmRow>, x: AlarmRow)
    requires StrictlySorted(s) && x in s
    ensures x == s[0] || Ahead(s[0], x)
  {
    hide Ahead;
    var i :| 0 <= i < |s| && s[i] == x;
    assert i == 0 || Ahead(s[0], s[i]);
  }

  lemma TailMembers(a: seq<AlarmRow>, r: AlarmRow)
    requires StrictlySorted(a) && a != []
    ensures r in a[1..] <==> r in a && r != a[0]
  {
    hide Ahead;
    AheadAsymmetric(a[0], a[0]);
    if r in a[1..] {
      var i :| 0 <= i < |a[1..]| && a[1..][i] == r;
      assert Ahead(a[0], a[i + 1]);
    }
    if r in a && r != a[0] {
      var i :| 0 <= i < |a| && a[i] == r;
      assert a[1..][i - 1] == r;
    }
  }

  lemma TailSorted(a: seq<AlarmRow>)
    requires StrictlySorted(a) && a != []
    ensures StrictlySorted(a[1..])
  {
    hide Ahead;
    var rest := a[1..];
    forall i, j | 0 <= i < j < |rest| ensures Ahead(rest[i], rest[j]) {
      assert Ahead(a[i + 1], a[j + 1]);
    }
  }

  /** Sorted rows, each at most once and with distinct ids, are strictly sorted. */
  lemma SortedIsStrict(t: Table, q: Query, rows: seq<AlarmRow>)
    requires ProperTable(t) && Sorted(rows) && forall r :: multiset(rows)[r] == Hits(t, q, r)
    ensures StrictlySorted(rows) && forall r :: r in rows <==> r in WantedRows(t, q)
  {
    hide Ahead, Wanted, Hits;
    forall r ensures r in rows <==> r in WantedRows(t, q) {
      assert r in rows <==> multiset(rows)[r] > 0;
      assert multiset(rows)[r] == Hits(t, q, r);
      HitsMean(t, q, r);
    }
    forall i, j | 0 <= i < j < |rows| ensures Ahead(rows[i], rows[j]) {
      IdsDiffer(t, q, rows, i, j);
      AheadTotal(rows[i], rows[j]);
    }
  }

  lemma IdsDiffer(t: Table, q: Query, rows: seq<AlarmRow>, i: nat, j: nat)
    requires i < j < |rows| && forall r :: multiset(rows)[r] == Hits(t, q, r)
    ensures rows[i].id != rows[j].id
  {
    hide Wanted;
    assert multiset(rows)[rows[i]] == Hits(t, q, rows[i]) && multiset(rows)[rows[j]] == Hits(t, q, rows[j]);
    assert rows[i] in rows && rows[j] in rows;
    if rows[i] == rows[j] {
      TwiceCounted(rows, i, j);
    }
  }

  lemma TwiceCounted(rows: seq<AlarmRow>, i: nat, j: nat)
    requires i < j < |rows| && rows[i] == rows[j]
    ensures multiset(rows)[rows[i]] >= 2
  {
    assert rows == rows[..i] + [rows[i]] + rows[i + 1..j] + [rows[j]] + rows[j + 1..];
    assert multiset(rows) == multiset(rows[..i]) + multiset([rows[i]]) + multiset(rows[i + 1..j])
                           + multiset([rows[j]]) + multiset(rows[j + 1..]);
  }

  lemma WantedDistinct(t: Table, q: Query)
    requires ProperTable(t)
    ensures DistinctIds(WantedRows(t, q))
  {
    hide Wanted;
  }

  /**
   Query refinement: when every past month is archived, the database answers a query over the physical
   tables with exactly the page of the logical table's rows, newest first; and it answers whenever the
   statement parses and the selected tables exist.
   */
  lemma QueryRefines(db: Database, base: string, q: Query, current: Date, logical: Table, out: seq<AlarmRow>)
    requires GoodQuery(base, q, current) && Settled(db, base, current, logical)
    ensures Plan(base, q, current).Ok?
    ensures DistinctIds(WantedRows(logical, q))
    ensures var tables := Plan(base, q, current).value;
      Answers(db, tables, q, out) <==>
        Parses(q.filter) && (forall i :: 0 <= i < |tables| ==> tables[i] in db)
            && out == Page(Listing(WantedRows(logical, q)), q.filter)
  {
    hide Settled, Plan, Occurrences, Hits, Ahead, Page, Parses, Wanted, ValidIdentifier, Before;
    CountsLikeLogicalAlways(db, base, q, current, logical);
    var tables := Plan(base, q, current).value;
    SettledProper(db, base, current, logical);
    WantedDistinct(logical, q);
    var s := WantedRows(logical, q);
    var listing := Listing(s);
    ListingSorted(s);
    ListingIsUnion(logical, q, listing);
    StrictIsSorted(listing);
    assert IsUnion(db, tables, q, listing);
    forall rows | IsUnion(db, tables, q, rows) && Sorted(rows) ensures rows == listing {
      SortedIsStrict(logical, q, rows);
      SortedUnique(rows, listing);
    }
  }

  lemma StrictIsSorted(rows: seq<AlarmRow>)
    requires StrictlySorted(rows)
    ensures Sorted(rows)
  {
    hide Ahead;
    forall i, j | 0 <= i < j < |rows| ensures !Ahead(rows[j], rows[i]) {
      AheadAsymmetric(rows[i], rows[j]);
    }
  }

  lemma SettledProper(db: Database, base: string, current: Date, logical: Table)
    requires Settled(db, base, current, logical)
    ensures ProperTable(logical)
  {
  }

  lemma CountsLikeLogicalAlways(db: Database, base: string, q: Query, current: Date, logical: Table)
    requires GoodQuery(base, q, current) && Settled(db, base, current, logical)
    ensures Plan(base, q, current).Ok?
    ensures forall r :: Occurrences(db, Plan(base, q, current).value, q, r) == Hits(logical, q, r)
  {
    hide Settled, Plan, Occurrences, Hits, ValidIdentifier, Before;
    PlanOk(base, q, current);
    forall r ensures Occurrences(db, Plan(base, q, current).value, q, r) == Hits(logical, q, r) {
      CountsLikeLogical(db, base, q, current, logical, r);
    }
  }

  lemma PlanOk(base: string, q: Query, current: Date)
    requires GoodQuery(base, q, current)
    ensures Plan(base, q, current).Ok?
  {
    hide Plan;
    PlanExists(base, q, current);
  }

  lemma ListingIsUnion(t: Table, q: Query, rows: seq<AlarmRow>)
    requires StrictlySorted(rows) && ProperTable(t) && forall r :: r in rows <==> r in WantedRows(t, q)
    ensures forall r :: multiset(rows)[r] == Hits(t, q, r)
  {
    hide Ahead, Wanted, Hits;
    forall r ensures multiset(rows)[r] == Hits(t, q, r) {
      OnceIfSorted(rows, r);
      HitsMean(t, q, r);
      assert r in WantedRows(t, q) <==> Holds(t, r) && Wanted(q, r);
    }
  }

  /** Two adjacent pages are the page over both. */
  lemma PagesTile(rows: seq<AlarmRow>, f: Filter, skip: nat, n: nat, m: nat)
    ensures Page(rows, f.(offset := Some(skip), limit := Some(n)))
      + Page(rows, f.(offset := Some(skip + n), limit := Some(m)))
         == Page(rows, f.(offset := Some(skip), limit := Some(n + m)))
  {
    var rest := if skip <= |rows| then rows[skip..] else [];
    if skip <= |rows| && n <= |rest| {
      assert rows[skip + n..] == rest[n..];
      if n + m <= |rest| {
        assert rest[..n] + rest[n..][..m] == rest[..n + m];
      }
    }
  }

  function PageFilter(f: Filter, n: nat, k: nat): Filter {
    f.(limit := Some(n), offset := Some(k * n))
  }

  /** The first `k` pages of `n` rows, one after the other. */
  function Pages(rows: seq<AlarmRow>, f: Filter, n: nat, k: nat): seq<AlarmRow> {
    if k == 0 then [] else Pages(rows, f, n, k - 1) + Page(rows, PageFilter(f, n, k - 1))
  }

  lemma {:induction false} PagesTogether(rows: seq<AlarmRow>, f: Filter, n: nat, k: nat)
    ensures Pages(rows, f, n, k) == Page(rows, f.(offset := Some(0), limit := Some(k * n)))
  {
    if k == 0 {
      assert rows[0..] == rows && k * n == 0;
    } else {
      PagesTogether(rows, f, n, k - 1);
      assert 0 + (k - 1) * n == (k - 1) * n && (k - 1) * n + n == k * n;
      PagesTile(rows, f, 0, (k - 1) * n, n);
    }
  }

  /** Consecutive pages of `n > 0` rows are, taken together, what the query gives without LIMIT and OFFSET. */
  lemma PagesAreAll(rows: seq<AlarmRow>, f: Filter, n: nat, k: nat)
    requires k * n >= |rows|
    ensures Pages(rows, f, n, k) == Page(rows, f.(limit := None, offset := None)) == rows
  {
    PagesTogether(rows, f, n, k);
    assert rows[0..] == rows;
  }

  /** The answers to the queries for page 0, 1, 2 and so on. */
  ghost predicate AnswerPages(db: Database, tables: seq<string>, q: Query, n: nat, outs: seq<seq<AlarmRow>>) {
    forall i :: 0 <= i < |outs| ==> Answers(db, tables, q.(filter := PageFilter(q.filter, n, i)), outs[i])
  }

  function Joined(outs: seq<seq<AlarmRow>>): seq<AlarmRow> {
    if outs == [] then [] else Joined(outs[..|outs| - 1]) + outs[|outs| - 1]
  }

  lemma PageWanted(q: Query, n: nat, k: nat, r: AlarmRow)
    ensures Wanted(q.(filter := PageFilter(q.filter, n, k)), r) <==> Wanted(q, r)
  {
    hide Before;
    forall column ensures WantedOf(PageFilter(q.filter, n, k), column) == WantedOf(q.filter, column) { }
  }

  lemma PageRows(t: Table, q: Query, n: nat, k: nat)
    ensures WantedRows(t, q.(filter := PageFilter(q.filter, n, k))) == WantedRows(t, q)
  {
    hide Wanted;
    forall r: AlarmRow ensures Wanted(q.(filter := PageFilter(q.filter, n, k)), r) <==> Wanted(q, r) {
      PageWanted(q, n, k, r);
    }
  }

  lemma {:induction false} AnsweredPages(db: Database, base: string, q: Query, current: Date, logical: Table, n: nat,
                                         outs: seq<seq<AlarmRow>>)
    requires GoodQuery(base, q, current) && Settled(db, base, current, logical)
    requires Plan(base, q, current).Ok? && AnswerPages(db, Plan(base, q, current).value, q, n, outs)
    ensures DistinctIds(WantedRows(logical, q))
    ensures Joined(outs) == Pages(Listing(WantedRows(logical, q)), q.filter, n, |outs|)
    decreases |outs|
  {
    hide Settled, Plan, Wanted, WantedRows, Answers, Page, ValidIdentifier, Before, Listing;
    SettledProper(db, base, current, logical);
    WantedDistinct(logical, q);
    if outs != [] {
      var k := |outs| - 1;
      assert AnswerPages(db, Plan(base, q, current).value, q, n, outs[..k]) by {
        forall i | 0 <= i < k
          ensures Answers(db, Plan(base, q, current).value,
            q.(filter := PageFilter(q.filter, n, i)), outs[..k][i])
        {
          assert outs[..k][i] == outs[i];
        }
      }
      AnsweredPages(db, base, q, current, logical, n, outs[..k]);
      var page := q.(filter := PageFilter(q.filter, n, k));
      SamePlan(base, q, n, k, current);
      PageRows(logical, q, n, k);
      QueryRefines(db, base, page, current, logical, outs[k]);
    }
  }

  lemma SamePlan(base: string, q: Query, n: nat, k: nat, current: Date)
    requires GoodQuery(base, q, current)
    ensures var page := q.(filter := PageFilter(q.filter, n, k));
      GoodQuery(base, page, current) && Plan(base, page, current) == Plan(base, q, current)
  {
    hide ValidIdentifier, Before;
  }

  /**
   Reading page after page of `n > 0` rows until they cover the rows gives every wanted row of the logical
   table once, newest first.
   */
  lemma PagesAreTheListing(db: Database, base: string, q: Query, current: Date, logical: Table, n: nat,
                           outs: seq<seq<AlarmRow>>)
    requires GoodQuery(base, q, current) && Settled(db, base, current, logical)
    requires Plan(base, q, current).Ok? && AnswerPages(db, Plan(base, q, current).value, q, n, outs)
    requires |outs| * n >= |WantedRows(logical, q)|
    ensures DistinctIds(WantedRows(logical, q)) && Joined(outs) == Listing(WantedRows(logical, q))
  {
    hide Settled, Plan, Wanted, WantedRows, AnswerPages, Page, Pages, Listing, ValidIdentifier, Before;
    AnsweredPages(db, base, q, current, logical, n, outs);
    ListingSorted(WantedRows(logical, q));
    PagesAreAll(Listing(WantedRows(logical, q)), q.filter, n, |outs|);
  }

  // ---- archiving under queries ----

  lemma MonthTables(db: Database, base: string, p: string)
    requires IsYyyymm(p) && MonthOf(p).Some? && ValidIdentifier(base)
    ensures ArchiveOf(db, base, MonthOf(p).value) == TableAt(db, TargetName(base, p))
  {
    hide ArchiveName;
    TargetIsArchiveName(base, p);
  }

  /** The archive tables of the other months stay as they are. */
  ghost predicate OthersKept(db: Database, db': Database, base: string, k: int) {
    forall j :: j != k ==> ArchiveOf(db', base, j) == ArchiveOf(db, base, j)
  }

  /** Stored rows agree wherever ids meet. */
  lemma StoredAgree(db: Database, base: string, current: Date, logical: Table, k: int)
    requires Stores(db, base, current, logical) && k < MonthIndex(current)
    ensures AgreeOnMonth(TableAt(db, base), ArchiveOf(db, base, k), k)
    ensures ProperTable(TableAt(db, base)) && ProperTable(ArchiveOf(db, base, k))
  {
    hide ArchiveOf;
    var hot, target := TableAt(db, base), ArchiveOf(db, base, k);
    forall id | id in MonthIds(hot, k) && id in target ensures hot[id] == target[id] {
      assert Holds(hot, hot[id]) && Somewhere(db, base, current, hot[id]);
      assert InArchive(db, base, target[id]) && Somewhere(db, base, current, target[id]);
    }
  }

  lemma CopiedOwnMonth(hot: Table, target: Table, hot': Table, target': Table, k: int)
    requires Partway(hot, target, hot', target', k) && ProperTable(hot) && ProperTable(target)
    requires forall id :: id in target ==> MonthIndex(target[id].createAt.date) == k
    ensures ProperTable(hot') && ProperTable(target')
    ensures forall id :: id in target' ==> MonthIndex(target'[id].createAt.date) == k
  {
    hide MonthAt, Before, ValidTime;
    forall id | id in target' && id !in target
      ensures id in hot && target'[id] == hot[id] && MonthIndex(target'[id].createAt.date) == k
    {
      assert id in MonthIds(hot, k);
      InMonth(hot[id].createAt, k);
    }
  }

  /** A row is in the pair of tables after a pass that stopped anywhere exactly when it was before. */
  lemma PairKeepsRow(hot: Table, target: Table, hot': Table, target': Table, k: int, r: AlarmRow)
    requires Partway(hot, target, hot', target', k) && AgreeOnMonth(hot, target, k) && ProperTable(hot)
      && ProperTable(target)
    ensures Holds(hot', r) || Holds(target', r) <==> Holds(hot, r) || Holds(target, r)
    ensures MonthIndex(r.createAt.date) != k ==> (Holds(hot', r) <==> Holds(hot, r))
  {
    hide MonthAt, Before, ValidTime;
    assert Present(r, hot, target) <==> Holds(hot, r) || Holds(target, r);
    assert Present(r, hot', target') <==> Holds(hot', r) || Holds(target', r);
    PartwayKeepsRows(hot, target, hot', target', k, r);
    if Holds(hot, r) && MonthIndex(r.createAt.date) != k {
      InMonth(r.createAt, k);
      PartwayOutsideUntouched(hot, target, hot', target', k, r.id);
    }
  }

  lemma SomewhereKept(db: Database, db': Database, base: string, p: string, current: Date, logical: Table, r: AlarmRow)
    requires IsYyyymm(p) && MonthOf(p).Some? && ValidIdentifier(base) && MonthOf(p).value < MonthIndex(current)
    requires Stores(db, base, current, logical)
    requires PairPartway(db, db', base, p, MonthOf(p).value)
    requires OthersKept(db, db', base, MonthOf(p).value)
    ensures Somewhere(db', base, current, r) <==> Somewhere(db, base, current, r)
  {
    hide ArchiveOf, Stores, TargetName, MonthOf, IsYyyymm, ValidIdentifier, Partway, AgreeOnMonth, ProperTable, Holds;
    var k := MonthOf(p).value;
    StoredAgree(db, base, current, logical, k);
    MonthTables(db, base, p);
    MonthTables(db', base, p);
    PairKeepsRow(TableAt(db, base), ArchiveOf(db, base, k), TableAt(db', base), ArchiveOf(db', base, k), k, r);
  }

  lemma OwnMonthsKept(db: Database, db': Database, base: string, p: string, current: Date)
    requires IsYyyymm(p) && MonthOf(p).Some? && ValidIdentifier(base) && MonthOf(p).value < MonthIndex(current)
    requires OwnMonths(db, base, current)
    requires PairPartway(db, db', base, p, MonthOf(p).value)
    requires OthersKept(db, db', base, MonthOf(p).value)
    ensures OwnMonths(db', base, current)
  {
    hide ArchiveOf, TargetName, MonthOf, IsYyyymm, ValidIdentifier, Partway, ValidTime, MonthIndex;
    var k := MonthOf(p).value;
    MonthTables(db, base, p);
    MonthTables(db', base, p);
    assert ProperTable(ArchiveOf(db, base, k));
    CopiedOwnMonth(TableAt(db, base), ArchiveOf(db, base, k), TableAt(db', base), ArchiveOf(db', base, k), k);
  }

  /**
   Wherever archiving of a past month stops, the tables still store the same logical rows; a finished month
   is clear.
   */
  lemma ArchivingKeepsLogical(db: Database, db': Database, base: string, p: string, current: Date, logical: Table)
    requires IsYyyymm(p) && MonthOf(p).Some? && ValidIdentifier(base) && MonthOf(p).value < MonthIndex(current)
    requires Stores(db, base, current, logical)
    requires PairPartway(db, db', base, p, MonthOf(p).value)
    requires OthersKept(db, db', base, MonthOf(p).value)
    ensures Stores(db', base, current, logical)
    ensures PairDone(db, db', base, p, MonthOf(p).value) ==> MonthClear(db', base, MonthOf(p).value)
    ensures forall j :: MonthClear(db, base, j) ==> MonthClear(db', base, j)
  {
    hide ArchiveOf, TargetName, MonthOf, IsYyyymm, ValidIdentifier, OwnMonths, Somewhere, PairPartway, PairDone, Same,
        MonthClear;
    forall r: AlarmRow ensures Somewhere(db', base, current, r) <==> Somewhere(db, base, current, r) {
      SomewhereKept(db, db', base, p, current, logical, r);
    }
    OwnMonthsKept(db, db', base, p, current);
    ClearMonths(db, db', base, p, current);
  }

  lemma ClearMonths(db: Database, db': Database, base: string, p: string, current: Date)
    requires IsYyyymm(p) && MonthOf(p).Some? && OwnMonths(db, base, current)
    requires PairPartway(db, db', base, p, MonthOf(p).value)
    ensures PairDone(db, db', base, p, MonthOf(p).value) ==> MonthClear(db', base, MonthOf(p).value)
    ensures forall j :: MonthClear(db, base, j) ==> MonthClear(db', base, j)
  {
    hide ArchiveOf, TargetName, MonthOf, IsYyyymm, MonthAt, Before, ValidTime, Copied, MonthIndex;
    var k := MonthOf(p).value;
    var hot := TableAt(db, base);
    forall id | id in hot && id !in MonthIds(hot, k) ensures MonthIndex(hot[id].createAt.date) != k {
      InMonth(hot[id].createAt, k);
    }
  }

  /** One pass of the archive procedure over `base`, for the month named `p`, stopped anywhere. */
  ghost predicate PassStep(db: Database, db': Database, base: string, p: string, current: Date) {
    && IsYyyymm(p) && MonthOf(p).Some? && MonthOf(p).value < MonthIndex(current)
    && PairPartway(db, db', base, p, MonthOf(p).value)
    && OthersKept(db, db', base, MonthOf(p).value)
  }

  /** No source table is named like an archive table of `base`. */
  ghost predicate Apart(enabled: seq<string>, base: string) {
    forall j, i :: 0 <= i < |enabled| ==> ArchiveName(base, MonthAt(j)) != Ok(enabled[i])
  }

  /** A call of `sp_archive_alarm_month`, wherever it stops, is such a pass for each enabled source. */
  lemma CallIsPassStep(db: Database, db': Database, enabled: seq<string>, p: string, i: nat, current: Date)
    requires IsYyyymm(p) && MonthOf(p).Some? && MonthOf(p).value < MonthIndex(current)
    requires Between(db, db', enabled, p, MonthOf(p).value)
    requires i < |enabled| && ValidIdentifier(enabled[i]) && Apart(enabled, enabled[i])
    ensures PassStep(db, db', enabled[i], p, current)
  {
    hide ArchiveName, ValidIdentifier, MonthOf, IsYyyymm, MonthIndex, PairPartway;
    var base, k := enabled[i], MonthOf(p).value;
    forall j | j != k ensures ArchiveOf(db', base, j) == ArchiveOf(db, base, j) {
      if ArchiveName(base, MonthAt(j)).Ok? {
        var name := ArchiveName(base, MonthAt(j)).value;
        forall n | 0 <= n < |enabled| ensures enabled[n] != name && TargetName(enabled[n], p) != name {
          assert ArchiveName(base, MonthAt(j)) != Ok(enabled[n]);
          OtherTargets(base, enabled[n], p, j);
        }
        assert Same(db, db', name);
      }
    }
  }

  /** An archive table of another month is nobody's target. */
  lemma OtherTargets(base: string, other: string, p: string, j: int)
    requires IsYyyymm(p) && MonthOf(p).Some? && j != MonthOf(p).value && ValidIdentifier(base)
    ensures ArchiveName(base, MonthAt(j)) != Ok(TargetName(other, p))
  {
    hide ValidIdentifier;
    var k := MonthOf(p).value;
    MonthAtIndex(j);
    MonthAtIndex(k);
    if ArchiveName(base, MonthAt(j)) == Ok(TargetName(other, p)) {
      ArchiveNameValid(base, MonthAt(j));
      ArchiveNameValid(base, MonthAt(k));
      TargetIsArchiveName(base, p);
      var suffix := Suffix(MonthAt(j));
      SuffixDigits(MonthAt(j));
      SameTail(base, suffix, other, p);
      ArchiveNamesDiffer(base, MonthAt(j), MonthAt(k));
    }
  }

  lemma SuffixDigits(d: Date)
    requires 1 <= d.month <= 12 && d.year >= 0
    ensures IsDigits(Suffix(d)) && |Suffix(d)| >= 6
  {
    PadChars(d.year, 4);
    PadChars(d.month, 2);
    MonthTextLength(d.month);
  }
}

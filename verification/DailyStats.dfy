/** `sp_refresh_daily_fault_stats`: three statistics tables counted from one day's fault rows. */
module DailyStats {
  import opened Options
  import opened Text
  import opened Calendar
  import opened HistoryRows
  import opened Faults
  import opened IdSets
  import opened ArchiveProcedure
  import HistoryTables
  import HistoryQuery

  const NO_AREA := "未分区"
  const NO_DEVICE := "未分类设备"
  const NO_FAULT := "未分类故障"

  /** A row of the temporary table. */
  datatype FaultRow = FaultRow(location: string, deviceType: string, deviceId: Option<string>, faultType: string)
  /** Where it came from: source table and row id. */
  datatype Origin = Origin(source: string, id: int)
  type FaultRows = map<Origin, FaultRow>

  /** A row of a statistics table: `total` is device_total or device_count. */
  datatype Stat = Stat(total: nat, faults: nat)
  datatype StatKey = StatKey(date: Date, group: string)
  type Stats = map<StatKey, Stat>

  datatype Device = Device(enabled: bool, location: string, deviceType: string)
  datatype Column = Area | DeviceType | FaultType

  /** COALESCE(tag_value, '0') <> '0'. */
  predicate IsFault(r: AlarmRow) {
    r.tagValue.Some? && r.tagValue.value != "0"
  }

  predicate OnDate(r: AlarmRow, date: Date) {
    !Before(r.createAt, Midnight(date)) && Before(r.createAt, Midnight(NextDay(date)))
  }

  function Normalised(r: AlarmRow): FaultRow {
    var fault := Filled(r.faultType);
    FaultRow(OrElse(Filled(r.location), NO_AREA), OrElse(Filled(r.device), NO_DEVICE), Filled(r.deviceId),
             if fault.Some? then fault.value else OrElse(Filled(r.tag), NO_FAULT))
  }

  function FaultIds(t: Table, date: Date): set<int> {
    set id | id in t && OnDate(t[id], date) && IsFault(t[id])
  }

  /** What one source contributes. */
  function RowsFrom(t: Table, source: string, date: Date): FaultRows {
    map id | id in FaultIds(t, date) :: Origin(source, id) := Normalised(t[id])
  }

  function ArchiveTableName(source: string, date: Date): string
    requires ValidDate(date)
  {
    TargetName(source, HistoryTables.Suffix(date))
  }

  /** The table a source's rows of that day are read from. */
  function QueryTable(db: Database, source: string, date: Date, today: Date): string
    requires ValidDate(date)
  {
    if DateBefore(date, FirstDayOfMonth(today)) && ArchiveTableName(source, date) in db
    then ArchiveTableName(source, date) else source
  }

  function Collected(db: Database, sources: seq<string>, date: Date, today: Date): FaultRows
    requires ValidDate(date)
  {
    if sources == [] then map[]
    else
      var n := |sources| - 1;
      Collected(db, sources[..n], date, today)
        + RowsFrom(TableAt(db, QueryTable(db, sources[n], date, today)), sources[n], date)
  }

  // ---- grouping ----

  function Label(row: FaultRow, col: Column): string {
    match col
    case Area => row.location
    case DeviceType => row.deviceType
    case FaultType => row.faultType
  }

  function Labels(rows: FaultRows, col: Column): set<string> {
    set o | o in rows :: Label(rows[o], col)
  }

  function Members(rows: FaultRows, col: Column, group: string): set<Origin> {
    set o | o in rows && Label(rows[o], col) == group
  }

  function DevicesOf(rows: FaultRows, col: Column, group: string): set<string> {
    set o | o in Members(rows, col, group) && rows[o].deviceId.Some? :: rows[o].deviceId.value
  }

  /** COUNT(DISTINCT device_id), which skips NULL. */
  function DistinctDevices(rows: FaultRows, col: Column, group: string): nat {
    |DevicesOf(rows, col, group)|
  }

  /** Enabled catalogue devices of an area or a device type. */
  function CatalogCount(devices: seq<Device>, col: Column, group: string): nat {
    if devices == [] then 0
    else
      var rest, last := CatalogCount(devices[..|devices| - 1], col, group), devices[|devices| - 1];
      rest + if last.enabled && ((col == Area && last.location == group)
                 || (col == DeviceType && last.deviceType == group)) then 1 else 0
  }

  function StatOf(rows: FaultRows, devices: seq<Device>, col: Column, group: string): Stat {
    var listed := CatalogCount(devices, col, group);
    Stat(if col != FaultType && listed != 0 then listed
        else DistinctDevices(rows, col, group), |Members(rows, col, group)|)
  }

  function DayStats(rows: FaultRows, devices: seq<Device>, col: Column, date: Date): Stats {
    map l | l in Labels(rows, col) :: StatKey(date, l) := StatOf(rows, devices, col, l)
  }

  function WithoutDate(stats: Stats, date: Date): Stats {
    map k | k in stats && k.date != date :: stats[k]
  }

  /** DELETE of the day, then INSERT ... GROUP BY. */
  function Replaced(stats: Stats, rows: FaultRows, devices: seq<Device>, col: Column, date: Date): Stats {
    WithoutDate(stats, date) + DayStats(rows, devices, col, date)
  }

  function OfDate(stats: Stats, date: Date): Stats {
    map k | k in stats && k.date == date :: stats[k]
  }

  /** A label is never blank: it is the trimmed column, or the placeholder when the column is NULL or blank. */
  lemma LabelsFilled(r: AlarmRow)
    ensures var row := Normalised(r);
      && row.location != "" && row.deviceType != "" && row.faultType != ""
      && (row.location == NO_AREA || (r.location.Some? && row.location == Trim(Spaces, r.location.value)))
      && (row.deviceType == NO_DEVICE || (r.device.Some? && row.deviceType == Trim(Spaces, r.device.value)))
      && (row.faultType == NO_FAULT || (r.faultType.Some? && row.faultType == Trim(Spaces, r.faultType.value))
          || (Filled(r.faultType).None? && r.tag.Some? && row.faultType == Trim(Spaces, r.tag.value)))
      && (Filled(r.faultType).Some? ==> row.faultType == Trim(Spaces, r.faultType.value))
      && (Filled(r.location).Some? ==> row.location == Trim(Spaces, r.location.value))
      && (Filled(r.device).Some? ==> row.deviceType == Trim(Spaces, r.device.value))
  {
    hide Trim;
  }

  lemma {:induction false} ImageSize(ids: set<Origin>, rows: FaultRows)
    requires forall o :: o in ids ==> o in rows
    ensures |set o | o in ids && rows[o].deviceId.Some? :: rows[o].deviceId.value| <= |ids|
    decreases |ids|
  {
    var image := set o | o in ids && rows[o].deviceId.Some? :: rows[o].deviceId.value;
    if ids == {} {
      assert image == {};
    } else {
      var x := Witness(ids);
      ImageSize(ids - {x}, rows);
      var rest := set o | o in ids - {x} && rows[o].deviceId.Some? :: rows[o].deviceId.value;
      if rows[x].deviceId.Some? {
        assert image == rest + {rows[x].deviceId.value};
      } else {
        assert image == rest;
      }
    }
  }

  /** The device number is the catalogue's when it lists devices there, and otherwise at most the fault count. */
  lemma DeviceNumbers(rows: FaultRows, devices: seq<Device>, col: Column, group: string)
    ensures var s, listed := StatOf(rows, devices, col, group), CatalogCount(devices, col, group);
      && (col != FaultType && listed > 0 ==> s.total == listed)
      && (col == FaultType || listed == 0 ==> s.total <= s.faults)
  {
    hide Label;
    ImageSize(Members(rows, col, group), rows);
  }

  // ---- totals ----

  /** SUM(fault_count). */
  ghost function Total(stats: Stats): nat {
    if stats == map[] then 0
    else
      var k :| k in stats;
      stats[k].faults + Total(stats - {k})
  }

  /** SUM(fault_count) of a day is the number of the rows counted, whichever column they are grouped by. */
  lemma DayTotal(rows: FaultRows, devices: seq<Device>, col: Column, date: Date)
    ensures Total(DayStats(rows, devices, col, date)) == |rows|
  {
    hide Label, StatOf;
    var stats := DayStats(rows, devices, col, date);
    forall k | k in stats ensures k.date == date && stats[k].faults == |Members(rows, col, k.group)| {
      StatFaults(rows, devices, col, k.group);
    }
    TotalOfGroups(stats, rows, col, date);
    assert Grouped(stats, rows, col) == rows.Keys by {
      forall o | o in rows ensures o in Grouped(stats, rows, col) {
        assert Label(rows[o], col) in Labels(rows, col);
        assert StatKey(date, Label(rows[o], col)) in stats;
      }
    }
    assert |rows| == |rows.Keys|;
  }

  lemma StatFaults(rows: FaultRows, devices: seq<Device>, col: Column, group: string)
    ensures StatOf(rows, devices, col, group).faults == |Members(rows, col, group)|
  {
  }

  /** The rows whose label has an entry. */
  ghost function Grouped(stats: Stats, rows: FaultRows, col: Column): set<Origin> {
    set o, k | o in rows && k in stats && k.group == Label(rows[o], col) :: o
  }

  /** Taking one entry away takes its members away. */
  lemma GroupedStep(stats: Stats, rows: FaultRows, col: Column, date: Date, k: StatKey)
    requires k in stats && forall j :: j in stats ==> j.date == date
    ensures Grouped(stats, rows, col) == Grouped(stats - {k}, rows, col) + Members(rows, col, k.group)
    ensures Grouped(stats - {k}, rows, col) !! Members(rows, col, k.group)
  {
    hide Label;
    var rest := stats - {k};
    forall o
      ensures o in Grouped(stats, rows, col) <==>
        o in Grouped(rest, rows, col) || o in Members(rows, col, k.group)
    {
      if o in Grouped(stats, rows, col) {
        var j :| j in stats && j.group == Label(rows[o], col);
        assert j == k || j in rest;
      }
    }
    forall o | o in Grouped(rest, rows, col) ensures o !in Members(rows, col, k.group) {
      var j :| j in rest && j.group == Label(rows[o], col);
      assert j.date == k.date && j != k;
    }
  }

  lemma {:induction false} TotalOfGroups(stats: Stats, rows: FaultRows, col: Column, date: Date)
    requires forall k :: k in stats ==> k.date == date && stats[k].faults == |Members(rows, col, k.group)|
    ensures Total(stats) == |Grouped(stats, rows, col)|
    decreases |stats|
  {
    hide Label, Members, Grouped;
    if stats == map[] {
      NothingGrouped(rows, col);
    } else {
      var k :| k in stats && Total(stats) == stats[k].faults + Total(stats - {k});
      TotalOfGroups(stats - {k}, rows, col, date);
      GroupedStep(stats, rows, col, date, k);
    }
  }

  lemma NothingGrouped(rows: FaultRows, col: Column)
    ensures Grouped(map[], rows, col) == {}
  {
  }

  /** The three tables' totals of a day are equal. */
  lemma SameTotals(rows: FaultRows, devices: seq<Device>, date: Date, a: Column, b: Column)
    ensures Total(DayStats(rows, devices, a, date)) == Total(DayStats(rows, devices, b, date)) == |rows|
  {
    hide DayStats, Total;
    DayTotal(rows, devices, a, date);
    DayTotal(rows, devices, b, date);
  }

  // ---- refreshing ----

  lemma ReplacedOfDate(stats: Stats, rows: FaultRows, devices: seq<Device>, col: Column, date: Date, other: Date)
    ensures OfDate(Replaced(stats, rows, devices, col, date), date) == DayStats(rows, devices, col, date)
    ensures other != date ==> OfDate(Replaced(stats, rows, devices, col, date), other) == OfDate(stats, other)
  {
    hide StatOf, Labels;
  }

  /** Refreshing twice is refreshing once. */
  lemma RefreshTwice(stats: Stats, rows: FaultRows, devices: seq<Device>, col: Column, date: Date)
    ensures Replaced(Replaced(stats, rows, devices, col, date), rows, devices, col, date)
         == Replaced(stats, rows, devices, col, date)
  {
    hide StatOf, Labels;
  }

  /** DELETE from the three tables, INSERT into the three, DROP of the temporary table. */
  const LAST_STATEMENTS: nat := 7

  function Turn(col: Column): nat {
    match col
    case Area => 1
    case DeviceType => 2
    case FaultType => 3
  }

  /** A table when `ran` of the last statements have run. */
  function Midway(ran: nat, stats: Stats, rows: FaultRows, devices: seq<Device>, col: Column, date: Date): Stats {
    if ran >= 3 + Turn(col) then Replaced(stats, rows, devices, col, date)
    else if ran >= Turn(col) then WithoutDate(stats, date)
    else stats
  }

  /** How many of the last statements run when each source takes one statement before them. */
  function Ran(fault: Fault, sources: nat): nat {
    if fault.None? || fault.value >= sources + LAST_STATEMENTS then LAST_STATEMENTS
    else if fault.value <= sources then 0
    else fault.value - sources
  }

  /**
   Wherever a refresh breaks off, the next one that goes through leaves the tables of an undisturbed
   refresh, and the other days were never touched.
   */
  lemma RefreshRepairs(ran: nat, stats: Stats, before: FaultRows, rows: FaultRows, devices: seq<Device>, col: Column,
                       date: Date, other: Date)
    ensures Replaced(Midway(ran, stats, before, devices, col, date), rows, devices, col, date)
      == Replaced(stats, rows, devices, col, date)
    ensures other != date ==> OfDate(Midway(ran, stats, before, devices, col, date), other) == OfDate(stats, other)
  {
    hide DayStats, Turn;
    DayKeys(before, devices, col, date);
    DayKeys(rows, devices, col, date);
  }

  lemma DayKeys(rows: FaultRows, devices: seq<Device>, col: Column, date: Date)
    ensures forall k :: k in DayStats(rows, devices, col, date) ==> k.date == date
  {
    hide StatOf, Labels;
  }

  /**
   A refresh that breaks off between the DELETE and the INSERT of a table leaves that table without the day,
   and only then.
   */
  lemma DayMissingExactly(ran: nat, stats: Stats, rows: FaultRows, devices: seq<Device>, col: Column, date: Date)
    requires rows != map[] && OfDate(stats, date) != map[]
    ensures OfDate(Midway(ran, stats, rows, devices, col, date), date) == map[] <==> Turn(col) <= ran < Turn(col) + 3
  {
    hide DayStats, Turn;
    DayTotal(rows, devices, col, date);
    ReplacedOfDate(stats, rows, devices, col, date, date);
    assert |rows| != 0;
    assert OfDate(WithoutDate(stats, date), date) == map[];
  }

  // ---- which rows are counted ----

  ghost predicate DistinctNames(sources: seq<string>) {
    forall i, j :: 0 <= i < j < |sources| ==> sources[i] != sources[j]
  }

  lemma {:induction false} CollectedRows(db: Database, sources: seq<string>, date: Date, today: Date, o: Origin)
    requires ValidDate(date) && DistinctNames(sources)
    ensures var t := TableAt(db, QueryTable(db, o.source, date, today));
      && (o in Collected(db, sources, date, today) <==> o.source in sources && o.id in FaultIds(t, date))
      && (o in Collected(db, sources, date, today) ==> Collected(db, sources, date, today)[o] == Normalised(t[o.id]))
  {
    hide Normalised, FaultIds, QueryTable, ValidDate;
    if sources != [] {
      var n := |sources| - 1;
      CollectedRows(db, sources[..n], date, today, o);
      assert sources == sources[..n] + [sources[n]];
      if o.source == sources[n] {
        assert o.source !in sources[..n];
      }
      RowsFromMember(TableAt(db, QueryTable(db, sources[n], date, today)), sources[n], date, o);
    }
  }

  lemma RowsFromMember(t: Table, source: string, date: Date, o: Origin)
    ensures o in RowsFrom(t, source, date) <==> o.source == source && o.id in FaultIds(t, date)
    ensures o in RowsFrom(t, source, date) ==> RowsFrom(t, source, date)[o] == Normalised(t[o.id])
  {
    hide Normalised;
    if o.source == source && o.id in FaultIds(t, date) {
      assert o == Origin(source, o.id);
    }
  }

  /** The sum over the sources of their fault rows of the day. */
  function FaultSum(db: Database, sources: seq<string>, date: Date, today: Date): nat
    requires ValidDate(date)
  {
    if sources == [] then 0
    else
      var n := |sources| - 1;
      FaultSum(db, sources[..n], date, today) + |FaultIds(TableAt(db, QueryTable(db, sources[n], date, today)), date)|
  }

  lemma RowsFromSize(t: Table, source: string, date: Date)
    ensures |RowsFrom(t, source, date)| == |FaultIds(t, date)|
  {
    hide FaultIds, Normalised;
    var rows := RowsFrom(t, source, date);
    OriginsSize(FaultIds(t, date), source);
    assert rows.Keys == set id | id in FaultIds(t, date) :: Origin(source, id);
    assert |rows| == |rows.Keys|;
  }

  lemma {:induction false} OriginsSize(ids: set<int>, source: string)
    ensures |set id | id in ids :: Origin(source, id)| == |ids|
    decreases |ids|
  {
    var all := set id | id in ids :: Origin(source, id);
    if ids == {} {
      assert all == {};
    } else {
      var x := Witness(ids);
      OriginsSize(ids - {x}, source);
      var rest := set id | id in ids - {x} :: Origin(source, id);
      assert all == rest + {Origin(source, x)};
      assert Origin(source, x) !in rest;
    }
  }

  /** The rows collected are as many as the sources' fault rows of the day. */
  lemma {:induction false} CollectedSize(db: Database, sources: seq<string>, date: Date, today: Date)
    requires ValidDate(date) && DistinctNames(sources)
    ensures |Collected(db, sources, date, today)| == FaultSum(db, sources, date, today)
  {
    hide FaultIds, QueryTable, RowsFrom, ValidDate;
    if sources != [] {
      var n := |sources| - 1;
      CollectedSize(db, sources[..n], date, today);
      var before := Collected(db, sources[..n], date, today);
      var last := RowsFrom(TableAt(db, QueryTable(db, sources[n], date, today)), sources[n], date);
      RowsFromSize(TableAt(db, QueryTable(db, sources[n], date, today)), sources[n], date);
      forall o | o in before ensures o !in last {
        CollectedRows(db, sources[..n], date, today, o);
        RowsFromMember(TableAt(db, QueryTable(db, sources[n], date, today)), sources[n], date, o);
      }
      assert (before + last).Keys == before.Keys + last.Keys;
      assert |before + last| == |(before + last).Keys| && |before| == |before.Keys| && |last| == |last.Keys|;
    }
  }

  // ---- statistics and archiving ----

  lemma RowsFromSame(a: Table, b: Table, source: string, date: Date)
    requires forall id :: id in FaultIds(a, date) && id in FaultIds(b, date) ==> a[id] == b[id]
    ensures RowsFrom(a, source, date) == RowsFrom(b, source, date) <==> FaultIds(a, date) == FaultIds(b, date)
  {
    hide FaultIds, Normalised;
    if RowsFrom(a, source, date) == RowsFrom(b, source, date) {
      forall id ensures id in FaultIds(a, date) <==> id in FaultIds(b, date) {
        RowsFromMember(a, source, date, Origin(source, id));
        RowsFromMember(b, source, date, Origin(source, id));
      }
    }
  }

  lemma ArchiveTable(db: Database, source: string, date: Date)
    requires ValidDate(date) && 0 <= date.year && HistoryTables.ValidIdentifier(source)
    ensures HistoryQuery.ArchiveOf(db, source, MonthIndex(date)) == TableAt(db, ArchiveTableName(source, date))
  {
    IndexOfMonth(date);
    HistoryTables.ArchiveNameValid(source, FirstDayOfMonth(date));
  }

  /** Where one id's row lies: `past` when the day's month is over. */
  ghost predicate Lies(hot: Table, archive: Table, logical: Table, past: bool, date: Date, id: int) {
    && (id in FaultIds(logical, date) <==> id in FaultIds(hot, date) || (past && id in FaultIds(archive, date)))
    && (id in hot ==> id in logical && hot[id] == logical[id])
    && (past && id in archive ==> id in logical && archive[id] == logical[id])
  }

  lemma ReadExactly(hot: Table, archive: Table, logical: Table, past: bool, date: Date, source: string)
    requires forall id :: Lies(hot, archive, logical, past, date, id)
    ensures RowsFrom(hot, source, date) == RowsFrom(logical, source, date)
       <==> (past ==> forall id :: id in FaultIds(archive, date) ==> id in FaultIds(hot, date))
    ensures past ==> (RowsFrom(archive, source, date) == RowsFrom(logical, source, date)
       <==> forall id :: id in FaultIds(hot, date) ==> id in archive)
  {
    hide RowsFrom, OnDate, IsFault, Lies;
    forall id ensures
        && (id in FaultIds(logical, date) <==> id in FaultIds(hot, date) || (past && id in FaultIds(archive, date)))
        && (id in hot ==> id in logical && hot[id] == logical[id])
        && (past && id in archive ==> id in logical && archive[id] == logical[id])
        && (past && id in FaultIds(hot, date) && id in archive ==> id in FaultIds(archive, date))
    {
      assert Lies(hot, archive, logical, past, date, id);
      LiesMeans(hot, archive, logical, past, date, id);
    }
    FaultIdsIn(hot);
    FaultIdsIn(archive);
    RowsFromSame(hot, logical, source, date);
    var inHot, inArchive, inLogical := FaultIds(hot, date), FaultIds(archive, date), FaultIds(logical, date);
    if past {
      RowsFromSame(archive, logical, source, date);
      assert inLogical == inHot + inArchive;
      if forall id :: id in inArchive ==> id in inHot {
        assert inArchive <= inHot;
      }
      assert inHot == inLogical <==> inArchive <= inHot;
      assert inArchive == inLogical <==> inHot <= inArchive;
      assert forall id :: id in inHot && id in archive ==> id in inArchive;
      if forall id :: id in inHot ==> id in archive {
        assert inHot <= inArchive;
      }
    } else {
      assert inLogical == inHot;
    }
  }

  lemma FaultIdsIn(t: Table)
    ensures forall date, id :: id in FaultIds(t, date) ==> id in t
  {
  }

  lemma LiesMeans(hot: Table, archive: Table, logical: Table, past: bool, date: Date, id: int)
    requires Lies(hot, archive, logical, past, date, id)
    ensures
      && (id in FaultIds(logical, date) <==> id in FaultIds(hot, date) || (past && id in FaultIds(archive, date)))
      && (id in hot ==> id in logical && hot[id] == logical[id])
      && (past && id in archive ==> id in logical && archive[id] == logical[id])
      && (past && id in FaultIds(hot, date) && id in archive ==> id in FaultIds(archive, date))
  {
  }

  /** A fault row of the day in the logical table lies in the hot table or the day's archive, and conversely. */
  lemma WhereFaultsLie(db: Database, source: string, logical: Table, date: Date, today: Date, id: int)
    requires ValidDate(date) && ValidDate(today) && 0 <= date.year
    requires HistoryTables.ValidIdentifier(source) && HistoryQuery.Stores(db, source, today, logical)
    ensures Lies(TableAt(db, source), TableAt(db, ArchiveTableName(source, date)), logical,
                 MonthIndex(date) < MonthIndex(today), date, id)
  {
    hide HistoryTables.ValidIdentifier, ArchiveTableName, HistoryQuery.ArchiveOf, NextDay, Before, ValidTime, IsFault,
        MonthIndex;
    var hot, archive := TableAt(db, source), TableAt(db, ArchiveTableName(source, date));
    ArchiveTable(db, source, date);
    if id in hot {
      assert HistoryQuery.Holds(hot, hot[id]) && HistoryQuery.Somewhere(db, source, today, hot[id]);
    }
    if MonthIndex(date) < MonthIndex(today) && id in archive {
      assert HistoryQuery.InArchive(db, source, archive[id]) && HistoryQuery.Somewhere(db, source, today, archive[id]);
    }
    if id in FaultIds(logical, date) {
      OnDay(logical[id].createAt, date);
      assert HistoryQuery.Holds(logical, logical[id]) && HistoryQuery.Somewhere(db, source, today, logical[id]);
    }
  }

  /**
   A source's rows of a day are counted like those of its logical table exactly when no fault row of that
   day is missing from an archive table that exists for a past month.
   */
  lemma CountsLikeLogicalExactly(db: Database, source: string, logical: Table, date: Date, today: Date)
    requires ValidDate(date) && ValidDate(today) && 0 <= date.year
    requires HistoryTables.ValidIdentifier(source) && HistoryQuery.Stores(db, source, today, logical)
    requires MonthIndex(date) <= MonthIndex(today)
    ensures var hot, archive := TableAt(db, source), ArchiveTableName(source, date);
      RowsFrom(TableAt(db, QueryTable(db, source, date, today)), source, date) == RowsFrom(logical, source, date) <==>
        (MonthIndex(date) < MonthIndex(today) && archive in db ==>
           forall id :: id in FaultIds(hot, date) ==> id in db[archive])
  {
    hide HistoryTables.ValidIdentifier, HistoryQuery.Stores, ArchiveTableName, FaultIds, RowsFrom, MonthIndex,
        ValidDate, Lies;
    var hot, archive := TableAt(db, source), TableAt(db, ArchiveTableName(source, date));
    var past := MonthIndex(date) < MonthIndex(today);
    forall id ensures Lies(hot, archive, logical, past, date, id) {
      WhereFaultsLie(db, source, logical, date, today, id);
    }
    PastDates(date, today);
    EmptyHasNoFaults(date);
    ReadExactly(hot, archive, logical, past, date, source);
  }

  lemma EmptyHasNoFaults(date: Date)
    ensures FaultIds(map[], date) == {}
  {
  }

  lemma PastDates(date: Date, today: Date)
    requires ValidDate(date) && ValidDate(today)
    ensures DateBefore(date, FirstDayOfMonth(today)) <==> MonthIndex(date) < MonthIndex(today)
  {
  }

  /** What a refresh reads for one source. */
  function RowsRead(db: Database, source: string, date: Date, today: Date): FaultRows
    requires ValidDate(date)
  {
    RowsFrom(TableAt(db, QueryTable(db, source, date, today)), source, date)
  }

  /**
   Archiving a past month leaves what a refresh of its days reads as it was, unless an archive table
   already stood there and lacked fault rows of the day; afterwards the refresh reads the logical rows.
   */
  lemma ReadSurvivesArchiving(db: Database, db': Database, source: string, p: string, logical: Table, date: Date,
                              today: Date)
    requires ValidDate(date) && ValidDate(today) && 0 <= date.year && HistoryTables.ValidIdentifier(source)
    requires HistoryQuery.Stores(db, source, today, logical) && HistoryQuery.PassStep(db, db', source, p, today)
    requires MonthOf(p) == Some(MonthIndex(date)) && PairDone(db, db', source, p, MonthIndex(date))
    ensures RowsRead(db', source, date, today) == RowsFrom(logical, source, date)
    ensures var hot, archive := TableAt(db, source), ArchiveTableName(source, date);
      RowsRead(db, source, date, today) == RowsRead(db', source, date, today) <==>
        (archive in db ==> forall id :: id in FaultIds(hot, date) ==> id in db[archive])
  {
    hide HistoryTables.ValidIdentifier, HistoryQuery.Stores, HistoryQuery.OthersKept, ArchiveTableName, QueryTable,
         FaultIds, RowsFrom, MonthIndex, MonthOf, IsYyyymm, PairPartway, PairDone, HistoryQuery.MonthClear;
    HistoryQuery.ArchivingKeepsLogical(db, db', source, p, today, logical);
    CountsLikeLogicalExactly(db, source, logical, date, today);
    CountsLikeLogicalExactly(db', source, logical, date, today);
    HotProper(db', source, today, logical);
    NoHotFaults(db', source, date);
  }

  lemma HotProper(db: Database, source: string, today: Date, logical: Table)
    requires HistoryQuery.Stores(db, source, today, logical)
    ensures ProperTable(TableAt(db, source))
  {
  }

  lemma NoHotFaults(db: Database, source: string, date: Date)
    requires ValidDate(date) && HistoryQuery.MonthClear(db, source, MonthIndex(date))
      && ProperTable(TableAt(db, source))
    ensures FaultIds(TableAt(db, source), date) == {}
  {
    hide IsFault, MonthIndex, ValidDate;
    var hot := TableAt(db, source);
    forall id ensures id !in FaultIds(hot, date) {
      if id in hot { OnDay(hot[id].createAt, date); }
    }
  }

  lemma {:induction false} CollectedSame(db: Database, db': Database, sources: seq<string>, date: Date, today: Date)
    requires ValidDate(date) && forall i :: 0 <= i < |sources| ==>
      RowsRead(db, sources[i], date, today) == RowsRead(db', sources[i], date, today)
    ensures Collected(db, sources, date, today) == Collected(db', sources, date, today)
  {
    hide ValidDate, RowsRead, QueryTable, RowsFrom;
    if sources != [] {
      var n := |sources| - 1;
      CollectedSame(db, db', sources[..n], date, today);
      assert RowsRead(db, sources[n], date, today) == RowsRead(db', sources[n], date, today);
      ReadMeans(db, sources[n], date, today);
      ReadMeans(db', sources[n], date, today);
    }
  }

  lemma ReadMeans(db: Database, source: string, date: Date, today: Date)
    requires ValidDate(date)
    ensures RowsRead(db, source, date, today) == RowsFrom(TableAt(db, QueryTable(db, source, date, today)), source,
      date)
  {
  }

  /**
   Every source's rows are stored, and its archive table for the day, if there is one, lacks no fault row of
   the day.
   */
  ghost predicate ReadyFor(db: Database, sources: seq<string>, logical: map<string, Table>, date: Date, today: Date)
    requires ValidDate(date)
  {
    forall i :: 0 <= i < |sources| ==>
      && sources[i] in logical && HistoryTables.ValidIdentifier(sources[i]) && HistoryQuery.Apart(sources, sources[i])
      && HistoryQuery.Stores(db, sources[i], today, logical[sources[i]])
      && (ArchiveTableName(sources[i], date) in db ==>
            forall id :: id in FaultIds(TableAt(db, sources[i]), date) ==> id in db[ArchiveTableName(sources[i], date)])
  }

  /** A whole call of the archive procedure leaves the statistics of the month's days as they were. */
  lemma RefreshSurvivesArchiving(db: Database, db': Database, sources: seq<string>, p: string,
                                 logical: map<string, Table>, date: Date, today: Date, stats: Stats,
                                 devices: seq<Device>, col: Column)
    requires ValidDate(date) && ValidDate(today) && 0 <= date.year && MonthIndex(date) < MonthIndex(today)
    requires IsYyyymm(p) && MonthOf(p) == Some(MonthIndex(date)) && Clean(db, db', sources, p, MonthIndex(date))
    requires ReadyFor(db, sources, logical, date, today)
    ensures Replaced(stats, Collected(db, sources, date, today), devices, col, date)
         == Replaced(stats, Collected(db', sources, date, today), devices, col, date)
  {
    hide Replaced, MonthIndex, MonthOf, IsYyyymm, PairDone, PairPartway, HistoryQuery.Stores, HistoryQuery.PassStep,
         HistoryTables.ValidIdentifier, HistoryQuery.Apart, RowsRead, FaultIds, ArchiveTableName;
    CleanIsBetween(db, db', sources, p, MonthIndex(date));
    forall i | 0 <= i < |sources|
      ensures RowsRead(db, sources[i], date, today)
        == RowsRead(db', sources[i], date, today)
    {
      HistoryQuery.CallIsPassStep(db, db', sources, p, i, today);
      ReadSurvivesArchiving(db, db', sources[i], p, logical[sources[i]], date, today);
    }
    CollectedSame(db, db', sources, date, today);
  }

  lemma CleanIsBetween(db: Database, db': Database, enabled: seq<string>, p: string, k: int)
    requires Clean(db, db', enabled, p, k)
    ensures Between(db, db', enabled, p, k)
  {
    hide PairDone, PairPartway, Involved, Same;
    forall i | 0 <= i < |enabled| ensures PairPartway(db, db', enabled[i], p, k) {
      DoneIsPartway(db, db', enabled[i], p, k);
    }
  }

  /** An archive pass that stopped between creating its table and copying hides the whole day from a refresh. */
  lemma EmptyArchiveHidesTheDay(db: Database, source: string, date: Date, today: Date)
    requires ValidDate(date) && ValidDate(today) && MonthIndex(date) < MonthIndex(today)
    requires ArchiveTableName(source, date) !in db
    ensures RowsRead(db, source, date, today) == RowsFrom(TableAt(db, source), source, date)
    ensures RowsRead(Opened(db, ArchiveTableName(source, date)), source, date, today) == map[]
  {
    hide ArchiveTableName, Normalised;
    PastDates(date, today);
    EmptyHasNoFaults(date);
  }
}

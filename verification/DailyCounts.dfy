/** What the statistics of a day say, told from the rows of the tables (`sp_refresh_daily_fault_stats`). */
module DailyCounts {
  import opened Options
  import opened Text
  import opened Calendar
  import opened Decimal
  import opened HistoryRows
  import opened IdSets
  import opened ArchiveProcedure
  import opened DailyStats
  import HistoryTables

  // ---- the tables that are read ----

  /** The six digits, or more from the year 10000 on, that name the month of a date. */
  predicate IsMonthName(s: string, date: Date) {
    IsDigits(s) && |s| >= 6 && (|s| == 6 || s[0] != '0') && Value(s) == date.year * 100 + date.month
  }

  predicate IsPast(date: Date, today: Date) {
    date.year < today.year || (date.year == today.year && date.month < today.month)
  }

  /** A day of a past month is read from the archive table of the month, if there is one. */
  ghost predicate IsReadFrom(db: Database, source: string, date: Date, today: Date, name: string) {
    if IsPast(date, today) && exists suffix :: IsMonthName(suffix, date) && source + "_" + suffix in db
    then name in db && exists suffix :: IsMonthName(suffix, date) && name == source + "_" + suffix
    else name == source
  }

  lemma PadLength(n: nat, width: nat)
    ensures |Pad(n, width)| == if |Digits(n)| < width then width else |Digits(n)|
    ensures IsDigits(Pad(n, width))
    ensures n > 0 && |Digits(n)| >= width ==> Pad(n, width)[0] != '0'
  {
    PadValue(n, width);
    if n > 0 { FirstDigit(n); }
  }

  lemma ValueOfTwo(s: string, a: char, b: char)
    requires IsDigits(s) && '0' <= a <= '9' && '0' <= b <= '9'
    ensures IsDigits(s + [a, b])
    ensures Value(s + [a, b]) == Value(s) * 100 + Value([a, b])
  {
    hide Value;
    ValueSnoc(s, a);
    ValueSnoc(s + [a], b);
    ValueSnoc([], a);
    ValueSnoc([a], b);
    assert s + [a, b] == s + [a] + [b] && [a, b] == [a] + [b] && [a] == [] + [a];
    OneDigit(0);
  }

  lemma SuffixNames(date: Date)
    requires 1 <= date.month <= 12 && date.year >= 0
    ensures IsMonthName(HistoryTables.Suffix(date), date)
  {
    hide Value, Digits, Zeros;
    var year, month := Pad(date.year, 4), Pad(date.month, 2);
    PadLength(date.year, 4);
    PadLength(date.month, 2);
    HistoryTables.MonthTextLength(date.month);
    PadValue(date.year, 4);
    PadValue(date.month, 2);
    ValueOfTwo(year, month[0], month[1]);
    assert month == [month[0], month[1]];
    ShortYear(date.year);
  }

  lemma ShortYear(year: nat)
    ensures |Pad(year, 4)| > 4 ==> Pad(year, 4)[0] != '0'
  {
    PadLength(year, 4);
    assert |Digits(0)| == 1;
  }

  lemma OneMonthName(s: string, t: string, date: Date)
    requires IsMonthName(s, date) && IsMonthName(t, date)
    ensures s == t
  {
    hide Value, Digits, Zeros;
    NamedByValue(s);
    NamedByValue(t);
  }

  /** The value determines such a run of digits. */
  lemma NamedByValue(s: string)
    requires IsDigits(s) && |s| >= 6 && (|s| == 6 || s[0] != '0')
    ensures s == Pad(Value(s), 6)
  {
    PadOfValue(s);
    NoZeroInFront(s);
  }

  lemma ReadFromIs(db: Database, source: string, date: Date, today: Date, name: string)
    requires ValidDate(date) && ValidDate(today) && date.year >= 0
    ensures IsReadFrom(db, source, date, today, name) <==> name == QueryTable(db, source, date, today)
  {
    hide IsMonthName, HistoryTables.Suffix;
    SuffixNames(date);
    forall s | IsMonthName(s, date) ensures s == HistoryTables.Suffix(date) {
      OneMonthName(s, HistoryTables.Suffix(date), date);
    }
    assert DateBefore(date, FirstDayOfMonth(today)) <==> IsPast(date, today);
    assert ArchiveTableName(source, date) == source + "_" + HistoryTables.Suffix(date);
  }

  // ---- the rows that are counted ----

  /** `r` is a fault row of the day in the table its source is read from. */
  ghost predicate IsCounted(db: Database, sources: seq<string>, date: Date, today: Date, o: Origin, r: AlarmRow) {
    && o.source in sources
    && (exists name ::
          IsReadFrom(db, o.source, date, today, name) && name in db && o.id in db[name] && r == db[name][o.id])
    && r.createAt.date == date && r.tagValue.Some? && r.tagValue.value != "0"
  }

  /** The group of a row is the text of its column, or the placeholder; fault types fall back on the tag first. */
  ghost predicate IsLabel(r: AlarmRow, col: Column, g: string) {
    match col
    case Area => Says(r.location, g) || (IsSilent(r.location) && g == "未分区")
    case DeviceType => Says(r.device, g) || (IsSilent(r.device) && g == "未分类设备")
    case FaultType =>
      || Says(r.faultType, g)
      || (IsSilent(r.faultType) && (Says(r.tag, g) || (IsSilent(r.tag) && g == "未分类故障")))
  }

  ghost predicate AreMembers(members: set<Origin>, db: Database, sources: seq<string>, date: Date, today: Date,
                             col: Column, g: string) {
    forall o :: o in members <==> exists r :: IsCounted(db, sources, date, today, o, r) && IsLabel(r, col, g)
  }

  /** The device ids that the group's rows name. */
  ghost predicate AreDevices(ids: set<string>, db: Database, sources: seq<string>, date: Date, today: Date,
                             col: Column, g: string) {
    forall d :: d in ids <==>
      exists o, r :: IsCounted(db, sources, date, today, o, r) && IsLabel(r, col, g) && Says(r.deviceId, d)
  }

  predicate IsListed(d: Device, col: Column, g: string) {
    d.enabled && match col
      case Area => d.location == g
      case DeviceType => d.deviceType == g
      case FaultType => false
  }

  /** The enabled devices the catalogue lists for an area or a device type. */
  function Listed(devices: seq<Device>, col: Column, g: string): set<int> {
    set i | 0 <= i < |devices| && IsListed(devices[i], col, g)
  }

  /**
   The entry of a group: none without a row; otherwise its faults are its rows, and its devices are those the
   catalogue lists, or without such the different device ids of its rows.
   */
  ghost predicate IsEntry(entry: Option<Stat>, db: Database, devices: seq<Device>, sources: seq<string>, date: Date,
                          today: Date, col: Column, g: string) {
    exists members, ids ::
      && AreMembers(members, db, sources, date, today, col, g) && AreDevices(ids, db, sources, date, today, col, g)
      && match entry
         case None => members == {}
         case Some(s) =>
           && members != {} && s.faults == |members|
           && s.total == if Listed(devices, col, g) != {} then |Listed(devices, col, g)| else |ids|
  }

  ghost predicate ShowsDay(stats: Stats, db: Database, devices: seq<Device>, sources: seq<string>, date: Date,
                           today: Date, col: Column) {
    forall g :: IsEntry(if StatKey(date, g) in stats then Some(stats[StatKey(date, g)]) else None, db, devices, sources,
                        date, today, col, g)
  }

  /** The columns of all tables hold valid times. */
  ghost predicate AllProper(db: Database) {
    forall name :: name in db ==> ProperTable(db[name])
  }

  lemma LabelIs(r: AlarmRow, col: Column, g: string)
    ensures IsLabel(r, col, g) <==> Label(Normalised(r), col) == g
  {
    hide Says, IsSilent, Filled;
    FilledIs(r.location);
    FilledIs(r.device);
    FilledIs(r.faultType);
    FilledIs(r.tag);
  }

  lemma DeviceIs(r: AlarmRow, d: string)
    ensures Says(r.deviceId, d) <==> Normalised(r).deviceId == Some(d)
  {
    hide Says, IsSilent, Filled;
    FilledIs(r.deviceId);
  }

  /** A row is counted exactly when it is collected, under the labels of `Normalised`. */
  lemma CountedIs(db: Database, sources: seq<string>, date: Date, today: Date, o: Origin)
    requires ValidDate(date) && ValidDate(today) && date.year >= 0 && DistinctNames(sources) && AllProper(db)
    ensures var rows, t := Collected(db, sources, date, today), TableAt(db, QueryTable(db, o.source, date, today));
      && (o in rows ==> o.id in t && rows[o] == Normalised(t[o.id]))
      && forall r :: IsCounted(db, sources, date, today, o, r) <==> o in rows && o.id in t && r == t[o.id]
  {
    hide Normalised, QueryTable, IsReadFrom, Before, NextDay, Collected, ValidDate;
    CollectedRows(db, sources, date, today, o);
    var name := QueryTable(db, o.source, date, today);
    forall n ensures IsReadFrom(db, o.source, date, today, n) <==> n == name {
      ReadFromIs(db, o.source, date, today, n);
    }
    if name in db && o.id in db[name] {
      OnDay(db[name][o.id].createAt, date);
    }
  }

  lemma {:induction false} ListedIs(devices: seq<Device>, col: Column, g: string)
    ensures |Listed(devices, col, g)| == CatalogCount(devices, col, g)
  {
    hide Listed;
    ListedSnoc(devices, col, g);
    if devices != [] {
      ListedIs(devices[..|devices| - 1], col, g);
    }
  }

  lemma ListedSnoc(devices: seq<Device>, col: Column, g: string)
    ensures devices == [] ==> Listed(devices, col, g) == {}
    ensures devices != [] ==>
      var n := |devices| - 1;
      var rest := Listed(devices[..n], col, g);
      Listed(devices, col, g) == (if IsListed(devices[n], col, g) then rest + {n} else rest) && n !in rest
  {
    hide IsListed;
  }

  lemma MemberIs(db: Database, sources: seq<string>, date: Date, today: Date, col: Column, g: string, o: Origin)
    requires ValidDate(date) && ValidDate(today) && date.year >= 0 && DistinctNames(sources) && AllProper(db)
    ensures o in Members(Collected(db, sources, date, today), col, g)
      <==> exists r :: IsCounted(db, sources, date, today, o, r) && IsLabel(r, col, g)
  {
    hide Normalised, Collected, QueryTable, IsCounted, IsLabel, Label, ValidDate, ProperTable;
    CountedIs(db, sources, date, today, o);
    forall r ensures IsLabel(r, col, g) <==> Label(Normalised(r), col) == g { LabelIs(r, col, g); }
  }

  lemma IdIs(db: Database, sources: seq<string>, date: Date, today: Date, col: Column, g: string, d: string)
    requires ValidDate(date) && ValidDate(today) && date.year >= 0 && DistinctNames(sources) && AllProper(db)
    ensures d in DevicesOf(Collected(db, sources, date, today), col, g) <==>
      exists o, r :: IsCounted(db, sources, date, today, o, r) && IsLabel(r, col, g) && Says(r.deviceId, d)
  {
    hide Normalised, Collected, QueryTable, IsCounted, IsLabel, Says, Label, ValidDate, ProperTable;
    var rows := Collected(db, sources, date, today);
    if d in DevicesOf(rows, col, g) {
      var o :| o in Members(rows, col, g) && rows[o].deviceId == Some(d);
      CountedIs(db, sources, date, today, o);
      var r := TableAt(db, QueryTable(db, o.source, date, today))[o.id];
      LabelIs(r, col, g);
      DeviceIs(r, d);
      assert IsCounted(db, sources, date, today, o, r) && IsLabel(r, col, g) && Says(r.deviceId, d);
    }
    if o, r :| IsCounted(db, sources, date, today, o, r) && IsLabel(r, col, g) && Says(r.deviceId, d) {
      CountedIs(db, sources, date, today, o);
      LabelIs(r, col, g);
      DeviceIs(r, d);
      assert o in Members(rows, col, g) && rows[o].deviceId == Some(d);
    }
  }

  lemma MembersAre(db: Database, sources: seq<string>, date: Date, today: Date, col: Column, g: string)
    requires ValidDate(date) && ValidDate(today) && date.year >= 0 && DistinctNames(sources) && AllProper(db)
    ensures AreMembers(Members(Collected(db, sources, date, today), col, g), db, sources, date, today, col, g)
  {
    hide Members, Collected, IsCounted, IsLabel, ValidDate, AllProper;
    forall o ensures o in Members(Collected(db, sources, date, today), col, g)
      <==> exists r :: IsCounted(db, sources, date, today, o, r) && IsLabel(r, col, g)
    {
      MemberIs(db, sources, date, today, col, g, o);
    }
  }

  lemma DevicesAre(db: Database, sources: seq<string>, date: Date, today: Date, col: Column, g: string)
    requires ValidDate(date) && ValidDate(today) && date.year >= 0 && DistinctNames(sources) && AllProper(db)
    ensures AreDevices(DevicesOf(Collected(db, sources, date, today), col, g), db, sources, date, today, col, g)
  {
    hide DevicesOf, Collected, IsCounted, IsLabel, Says, ValidDate, AllProper;
    forall d ensures d in DevicesOf(Collected(db, sources, date, today), col, g) <==>
      exists o, r :: IsCounted(db, sources, date, today, o, r) && IsLabel(r, col, g) && Says(r.deviceId, d)
    {
      IdIs(db, sources, date, today, col, g, d);
    }
  }

  lemma EntryIs(stats: Stats, rows: FaultRows, devices: seq<Device>, col: Column, date: Date, g: string)
    ensures var after, members := Replaced(stats, rows, devices, col, date), Members(rows, col, g);
      && (StatKey(date, g) in after <==> members != {})
      && (members != {} ==>
            && after[StatKey(date, g)].faults == |members|
            && after[StatKey(date, g)].total == if col != FaultType && CatalogCount(devices, col, g) != 0
                 then CatalogCount(devices, col, g) else |DevicesOf(rows, col, g)|)
  {
    hide Label, CatalogCount, DevicesOf;
    var members, labels := Members(rows, col, g), Labels(rows, col);
    if members != {} {
      var o := Witness(members);
      assert Label(rows[o], col) == g;
    }
    if g in labels {
      var o :| o in rows && Label(rows[o], col) == g;
      assert o in members;
    }
    assert StatKey(date, g) in DayStats(rows, devices, col, date) <==> g in labels;
  }

  /** After a refresh the day's entries are those of the groups of its fault rows. */
  lemma RefreshedEntry(stats: Stats, db: Database, devices: seq<Device>, sources: seq<string>, date: Date, today: Date,
                       col: Column, g: string)
    requires ValidDate(date) && ValidDate(today) && date.year >= 0 && DistinctNames(sources) && AllProper(db)
    ensures var after := Replaced(stats, Collected(db, sources, date, today), devices, col, date);
      IsEntry(if StatKey(date, g) in after then Some(after[StatKey(date, g)]) else None, db, devices, sources, date,
              today, col, g)
  {
    hide Replaced, Collected, Members, DevicesOf, AreMembers, AreDevices, Listed, CatalogCount, ValidDate, AllProper;
    var rows := Collected(db, sources, date, today);
    MembersAre(db, sources, date, today, col, g);
    DevicesAre(db, sources, date, today, col, g);
    ListedIs(devices, col, g);
    NoFaultTypeListed(devices, g);
    EntryIs(stats, rows, devices, col, date, g);
  }

  lemma NoFaultTypeListed(devices: seq<Device>, g: string)
    ensures Listed(devices, FaultType, g) == {}
  {
  }

  lemma RefreshedShows(stats: Stats, db: Database, devices: seq<Device>, sources: seq<string>, date: Date, today: Date,
                       col: Column)
    requires ValidDate(date) && ValidDate(today) && date.year >= 0 && DistinctNames(sources) && AllProper(db)
    ensures ShowsDay(Replaced(stats, Collected(db, sources, date, today), devices, col, date), db, devices, sources,
                     date, today, col)
  {
    hide Replaced, Collected, IsEntry, ValidDate, AllProper;
    forall g {
      RefreshedEntry(stats, db, devices, sources, date, today, col, g);
    }
  }
}

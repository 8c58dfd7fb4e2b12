/** `sp_refresh_daily_fault_stats`, statement by statement. */
module StatsProcedure {
  import opened Options
  import opened Calendar
  import opened Faults
  import opened ArchiveProcedure
  import opened DailyStats
  import opened DailyCounts

  lemma MidwayNone(stats: Stats, rows: FaultRows, devices: seq<Device>, col: Column, date: Date)
    ensures Midway(0, stats, rows, devices, col, date) == stats
  {
  }

  /** After a refresh that went through, each table's total of the day is the number of rows counted. */
  lemma MidwayAll(stats: Stats, rows: FaultRows, devices: seq<Device>, col: Column, date: Date)
    ensures Midway(LAST_STATEMENTS, stats, rows, devices, col, date) == Replaced(stats, rows, devices, col, date)
    ensures Total(OfDate(Midway(LAST_STATEMENTS, stats, rows, devices, col, date), date)) == |rows|
  {
    hide Replaced, DayStats, OfDate, Total;
    ReplacedOfDate(stats, rows, devices, col, date, date);
    DayTotal(rows, devices, col, date);
  }

  /** There is a date, and every source can be read. */
  ghost predicate Collects(db: Database, date: Option<Date>, today: Date, enabled: seq<string>)
    requires date.Some? ==> ValidDate(date.value)
  {
    date.Some? && forall i :: 0 <= i < |enabled| ==> QueryTable(db, enabled[i], date.value, today) in db
  }

  class StatsStore {
    var tables: Database
    var devices: seq<Device>
    var area: Stats
    var deviceType: Stats
    var faultType: Stats

    constructor (tables: Database, devices: seq<Device>)
      ensures this.tables == tables && this.devices == devices && area == map[] && deviceType == map[]
        && faultType == map[]
    {
      this.tables, this.devices := tables, devices;
      area, deviceType, faultType := map[], map[], map[];
    }

    /**
     `sp_refresh_daily_fault_stats`, on the day `today`. It fails for a NULL date and when a source's table
     does not exist, and then changes nothing; `fault` counts the statements before one that fails.
     */
    method Refresh(date: Option<Date>, today: Date, enabled: seq<string>, fault: Fault) returns (ok: bool)
      requires (date.Some? ==> ValidDate(date.value)) && DistinctNames(enabled)
      modifies this`area, this`deviceType, this`faultType
      ensures Collects(tables, date, today, enabled) ==>
        var rows, ran := Collected(tables, enabled, date.value, today), Ran(fault, |enabled|);
        && (ok <==> ran == LAST_STATEMENTS)
        && area == Midway(ran, old(area), rows, devices, Area, date.value)
        && deviceType == Midway(ran, old(deviceType), rows, devices, DeviceType, date.value)
        && faultType == Midway(ran, old(faultType), rows, devices, FaultType, date.value)
      ensures !Collects(tables, date, today, enabled) ==>
        !ok && area == old(area) && deviceType == old(deviceType) && faultType == old(faultType)
      ensures ok ==>
        var n := FaultSum(tables, enabled, date.value, today);
        && Total(OfDate(area, date.value)) == n && Total(OfDate(deviceType, date.value)) == n
            && Total(OfDate(faultType, date.value)) == n
      ensures ok && date.value.year >= 0 && ValidDate(today) && AllProper(tables) ==>
        && ShowsDay(area, tables, devices, enabled, date.value, today, Area)
        && ShowsDay(deviceType, tables, devices, enabled, date.value, today, DeviceType)
        && ShowsDay(faultType, tables, devices, enabled, date.value, today, FaultType)
    {
      hide QueryTable, Collected, FaultSum, Midway, Replaced, DayStats, OfDate, Total, ValidDate,
          ShowsDay, AllProper;
      if date.None? {
        return false;
      }
      var rows, left := CollectRows(date.value, today, enabled, fault);
      if rows.None? {
        if Collects(tables, date, today, enabled) {
          var counted := Collected(tables, enabled, date.value, today);
          MidwayNone(area, counted, devices, Area, date.value);
          MidwayNone(deviceType, counted, devices, DeviceType, date.value);
          MidwayNone(faultType, counted, devices, FaultType, date.value);
        }
        return false;
      }
      CollectedSize(tables, enabled, date.value, today);
      ok := ReplaceDay(rows.value, date.value, left);
      if ok {
        MidwayAll(old(area), rows.value, devices, Area, date.value);
        MidwayAll(old(deviceType), rows.value, devices, DeviceType, date.value);
        MidwayAll(old(faultType), rows.value, devices, FaultType, date.value);
        if date.value.year >= 0 && ValidDate(today) && AllProper(tables) {
          RefreshedShows(old(area), tables, devices, enabled, date.value, today, Area);
          RefreshedShows(old(deviceType), tables, devices, enabled, date.value, today, DeviceType);
          RefreshedShows(old(faultType), tables, devices, enabled, date.value, today, FaultType);
        }
      }
    }

    /** The cursor loop over the sources. */
    method CollectRows(date: Date, today: Date, enabled: seq<string>, fault: Fault)
      returns (rows: Option<FaultRows>, left: Fault)
      requires ValidDate(date)
      ensures rows.Some? <==> Collects(tables, Some(date), today, enabled) && (fault.None? || fault.value >= |enabled|)
      ensures rows.Some? ==> rows.value == Collected(tables, enabled, date, today)
      ensures rows.Some? ==> left == if fault.None? then None else Some(fault.value - |enabled|)
    {
      hide QueryTable, RowsFrom, ValidDate;
      var found: FaultRows := map[];
      left := fault;
      var i := 0;
      while i < |enabled|
        invariant 0 <= i <= |enabled|
        invariant fault.Some? ==> fault.value >= i
        invariant left == if fault.None? then None else Some(fault.value - i)
        invariant found == Collected(tables, enabled[..i], date, today)
        invariant forall j :: 0 <= j < i ==> QueryTable(tables, enabled[j], date, today) in tables
      {
        var source := QueryTable(tables, enabled[i], date, today);
        if source !in tables || Fails(left) {
          return None, left;
        }
        found := found + RowsFrom(tables[source], enabled[i], date);
        assert enabled[..i + 1][..i] == enabled[..i];
        left := Tick(left);
        i := i + 1;
      }
      assert enabled[..i] == enabled;
      rows := Some(found);
    }

    /** The last statements, up to one that fails. */
    method ReplaceDay(rows: FaultRows, date: Date, fault: Fault) returns (ok: bool)
      modifies this`area, this`deviceType, this`faultType
      ensures ok <==> Ran(fault, 0) == LAST_STATEMENTS
      ensures area == Midway(Ran(fault, 0), old(area), rows, devices, Area, date)
      ensures deviceType == Midway(Ran(fault, 0), old(deviceType), rows, devices, DeviceType, date)
      ensures faultType == Midway(Ran(fault, 0), old(faultType), rows, devices, FaultType, date)
    {
      hide DayStats, WithoutDate;
      var left := DeleteDay(date, fault);
      if left.None? {
        return false;
      }
      ok := InsertDay(rows, date, left.value);
    }

    /** The three DELETEs; what is left of `fault` when none of them fails. */
    method DeleteDay(date: Date, fault: Fault) returns (left: Option<Fault>)
      modifies this`area, this`deviceType, this`faultType
      ensures left == if fault.None? then Some(None) else if fault.value < 3 then None else Some(Some(fault.value - 3))
      ensures area == if fault.None? || fault.value >= 1 then WithoutDate(old(area), date) else old(area)
      ensures deviceType == if fault.None? || fault.value >= 2 then WithoutDate(old(deviceType), date)
        else old(deviceType)
      ensures faultType == if fault.None? || fault.value >= 3 then WithoutDate(old(faultType), date) else old(faultType)
    {
      hide WithoutDate;
      if Fails(fault) { return None; }
      area := WithoutDate(area, date);
      var rest := Tick(fault);
      if Fails(rest) { return None; }
      deviceType := WithoutDate(deviceType, date);
      rest := Tick(rest);
      if Fails(rest) { return None; }
      faultType := WithoutDate(faultType, date);
      left := Some(Tick(rest));
    }

    /** The three INSERTs and the DROP. */
    method InsertDay(rows: FaultRows, date: Date, fault: Fault) returns (ok: bool)
      modifies this`area, this`deviceType, this`faultType
      ensures ok <==> fault.None? || fault.value >= 4
      ensures area == if fault.None? || fault.value >= 1 then old(area) + DayStats(rows, devices, Area, date)
        else old(area)
      ensures deviceType == if fault.None? || fault.value >= 2
        then old(deviceType) + DayStats(rows, devices, DeviceType, date) else old(deviceType)
      ensures faultType == if fault.None? || fault.value >= 3
        then old(faultType) + DayStats(rows, devices, FaultType, date) else old(faultType)
    {
      hide DayStats;
      if Fails(fault) { return false; }
      area := area + DayStats(rows, devices, Area, date);
      var rest := Tick(fault);
      if Fails(rest) { return false; }
      deviceType := deviceType + DayStats(rows, devices, DeviceType, date);
      rest := Tick(rest);
      if Fails(rest) { return false; }
      faultType := faultType + DayStats(rows, devices, FaultType, date);
      ok := !Fails(Tick(rest));
    }
  }
}

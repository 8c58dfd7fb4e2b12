/** What a WCS event is mapped to: device catalogue, fault-code catalogue and the written values. */
module WcsCatalog {
  import opened Options
  import opened SqlLogic
  import opened Text
  import opened Order
  import opened Calendar
  import Words

  /** A row of `wcs_alarm_event_inbox`, without its processing columns. */
  datatype Event = Event(
    sourceEventId: Option<string>, areaCode: Option<string>, deviceCode: Option<string>, location: Option<string>,
    deviceType: Option<string>, deviceId: Option<string>, deviceName: Option<string>, deviceVendor: Option<string>,
    faultCode: string, faultValue: Option<string>, isActive: Option<int>, faultAt: Option<DateTime>,
    receivedAt: DateTime)

  /** A row of `wcs_device_catalog`. */
  datatype DeviceEntry = DeviceEntry(
    id: int, areaCode: string, deviceCode: string, sourceTable: string, location: string, deviceType: string,
    deviceId: string, deviceName: Option<string>, deviceVendor: Option<string>, enabled: bool)

  /** A row of `wcs_fault_code_catalog`, joined with the name of its fault type. */
  datatype FaultEntry = FaultEntry(
    id: int, location: Option<string>, deviceType: Option<string>, deviceVendor: Option<string>,
    deviceId: Option<string>, faultCode: string, faultName: string, faultTag: string, faultType: Option<string>,
    defaultTagValue: string, enabled: bool)

  datatype Catalogs = Catalogs(devices: seq<DeviceEntry>, faults: seq<FaultEntry>)

  const TABLES: set<string> := {"cpk_alarm_log", "flk_alarm_log", "ylk_alarm_log"}

  function Coalesce(a: Option<string>, b: Option<string>): Option<string> {
    if a.Some? then a else b
  }

  // ---- SELECT ... WHERE ... ORDER BY ... LIMIT 1 ----

  /** The first row in the order of `rank` among those that pass. */
  function Least<T>(rows: seq<T>, passes: T -> bool, rank: T -> seq<int>): Option<T> {
    if rows == [] then None
    else
      var rest := Least(rows[1..], passes, rank);
      if !passes(rows[0]) then rest
      else if rest.Some? && LexLess(rank(rest.value), rank(rows[0])) then rest
      else Some(rows[0])
  }

  lemma {:induction false} LeastIsLeast<T>(rows: seq<T>, passes: T -> bool, rank: T -> seq<int>)
    ensures var r := Least(rows, passes, rank);
      && (r.None? <==> forall q :: q in rows ==> !passes(q))
      && (r.Some? ==> r.value in rows && passes(r.value) &&
                      forall q :: q in rows && passes(q) ==> !LexLess(rank(q), rank(r.value)))
  {
    hide LexLess;
    if rows != [] {
      LeastIsLeast(rows[1..], passes, rank);
      var rest := Least(rows[1..], passes, rank);
      assert forall q :: q in rows <==> q == rows[0] || q in rows[1..];
      if passes(rows[0]) {
        LexTotal(rank(rows[0]), rank(rows[0]));
        forall q | q in rows[1..] && passes(q) ensures !LexLess(rank(q), rank(Least(rows, passes, rank).value)) {
          StaysLeast(rank(q), rank(rest.value), rank(rows[0]));
        }
        if rest.Some? { LexTotal(rank(rest.value), rank(rows[0])); }
      }
    }
  }

  lemma StaysLeast(q: seq<int>, least: seq<int>, r: seq<int>)
    requires !LexLess(q, least)
    ensures !LexLess(least, r) ==> !LexLess(q, r)
  {
    hide LexLess;
    LexTotal(q, least);
    LexTotal(least, r);
    LexTotal(q, r);
    if !LexLess(least, r) && LexLess(q, r) && q != least && least != r {
      LexTransitive(q, r, least);
    }
  }

  /** The order in which the table gives its rows does not matter, as long as no two rows rank the same. */
  lemma LeastIgnoresOrder<T>(a: seq<T>, b: seq<T>, passes: T -> bool, rank: T -> seq<int>)
    requires forall q :: q in a <==> q in b
    requires forall p, q :: p in a && q in a && rank(p) == rank(q) ==> p == q
    ensures Least(a, passes, rank) == Least(b, passes, rank)
  {
    hide LexLess, Least;
    LeastIsLeast(a, passes, rank);
    LeastIsLeast(b, passes, rank);
    var x, y := Least(a, passes, rank), Least(b, passes, rank);
    if x.Some? && y.Some? {
      LexTotal(rank(x.value), rank(y.value));
    }
  }

  // ---- the device catalogue ----

  const NO_CODE := "__none__"

  function AreaKey(e: Event): string { OrElse(Filled(e.areaCode), "") }

  function DeviceTest(e: Event, d: DeviceEntry): Tri {
    And(And(ToTri(d.enabled), Or(Eq(Some(d.areaCode), Some(AreaKey(e))), Eq(Some(d.areaCode), Some("")))),
        In(Some(d.deviceCode), [Some(OrElse(Filled(e.deviceCode), NO_CODE)),
            Some(OrElse(Filled(e.deviceId), NO_CODE))]))
  }

  function DeviceRank(e: Event, d: DeviceEntry): seq<int> {
    [if Accepted(Eq(Some(d.areaCode), Some(AreaKey(e)))) then 0 else 1, d.id]
  }

  function DeviceOf(e: Event, devices: seq<DeviceEntry>): Option<DeviceEntry> {
    Least(devices, (d: DeviceEntry) => Accepted(DeviceTest(e, d)), (d: DeviceEntry) => DeviceRank(e, d))
  }

  /** The event's columns after the device lookup. */
  datatype Mapping = Mapping(
    table: Option<string>, location: Option<string>, deviceType: Option<string>, deviceId: Option<string>,
    deviceName: Option<string>, deviceVendor: Option<string>)

  function MapDevice(e: Event, devices: seq<DeviceEntry>): Mapping {
    match DeviceOf(e, devices)
    case None => Mapping(None, e.location, e.deviceType, e.deviceId, e.deviceName, e.deviceVendor)
    case Some(d) =>
      Mapping(Some(d.sourceTable), Coalesce(Filled(e.location), Some(d.location)),
              Coalesce(Filled(e.deviceType), Some(d.deviceType)), Coalesce(Filled(e.deviceId), Some(d.deviceId)),
              Coalesce(Filled(e.deviceName), d.deviceName), Coalesce(Filled(e.deviceVendor), d.deviceVendor))
  }

  function UpperAscii(c: char): char {
    if 'a' <= c <= 'z' then (c as int - 32) as char else c
  }

  function Upper(s: string): string {
    seq(|s|, i requires 0 <= i < |s| => UpperAscii(s[i]))
  }

  /** LIKE '%part%'. */
  predicate Contains(s: string, part: string) {
    exists i :: 0 <= i <= |s| && Follows(s, i, part)
  }

  predicate Follows(s: string, i: nat, part: string) {
    i + |part| <= |s| && s[i..i + |part|] == part
  }

  predicate NamesArea(e: Event, location: Option<string>, code: string, part: string) {
    Upper(OrElse(e.areaCode, "")) == code || Contains(OrElse(location, ""), part)
  }

  function AreaTable(e: Event, location: Option<string>): Option<string> {
    if NamesArea(e, location, "CPK", "成品") then Some("cpk_alarm_log")
    else if NamesArea(e, location, "FLK", "辅料") then Some("flk_alarm_log")
    else if NamesArea(e, location, "YLK", "原料") then Some("ylk_alarm_log")
    else None
  }

  function TableOf(e: Event, m: Mapping): Option<string> {
    Coalesce(m.table, AreaTable(e, m.location))
  }

  function TableList(): seq<Option<string>> {
    [Some("cpk_alarm_log"), Some("flk_alarm_log"), Some("ylk_alarm_log")]
  }

  /** `v_source_table NOT IN (...)`. */
  function NotATable(t: Option<string>): Tri {
    Not(In(t, TableList()))
  }

  /** The table an event goes to; none when the procedure fails on it. */
  function Route(e: Event, c: Catalogs): Option<string> {
    var t := TableOf(e, MapDevice(e, c.devices));
    if Accepted(NotATable(t)) then None else t
  }

  /** The CHECK constraint of the device catalogue. */
  ghost predicate Checked(devices: seq<DeviceEntry>) {
    forall d :: d in devices ==> d.sourceTable in TABLES
  }

  lemma NotATableMeans(t: Option<string>)
    ensures Accepted(NotATable(t)) <==> t.Some? && t.value !in TABLES
    ensures t.None? ==> NotATable(t) == Unknown
  {
    var l := TableList();
    assert In(t, l[3..]) == False;
    assert In(t, l[2..]) == Or(Eq(t, l[2]), In(t, l[2..][1..])) && l[2..][1..] == l[3..];
    assert In(t, l[1..]) == Or(Eq(t, l[1]), In(t, l[1..][1..])) && l[1..][1..] == l[2..];
    assert In(t, l) == Or(Eq(t, l[0]), In(t, l[1..]));
  }

  /** Which catalogue rows can name an event's device. */
  predicate DeviceApplies(e: Event, d: DeviceEntry) {
    && d.enabled && (d.areaCode == AreaKey(e) || d.areaCode == "")
    && (d.deviceCode == OrElse(Filled(e.deviceCode), NO_CODE) || d.deviceCode == OrElse(Filled(e.deviceId), NO_CODE))
  }

  lemma DeviceTestMeans(e: Event, d: DeviceEntry)
    ensures Accepted(DeviceTest(e, d)) <==> DeviceApplies(e, d)
  {
    var a, b := Some(OrElse(Filled(e.deviceCode), NO_CODE)), Some(OrElse(Filled(e.deviceId), NO_CODE));
    assert [a, b][1..] == [b] && [b][1..] == [];
    assert In(Some(d.deviceCode), [a, b]) == Or(Eq(Some(d.deviceCode), a), In(Some(d.deviceCode), [b]));
    assert In(Some(d.deviceCode), [b]) == Or(Eq(Some(d.deviceCode), b), False);
  }

  /** Row `a` comes before row `b`: rows of the event's own area first, then by id. */
  predicate DeviceBefore(e: Event, a: DeviceEntry, b: DeviceEntry) {
    if (a.areaCode == AreaKey(e)) != (b.areaCode == AreaKey(e)) then a.areaCode == AreaKey(e) else a.id < b.id
  }

  /** The device lookup takes the first applicable row, and none exactly when none applies. */
  lemma DeviceChosen(e: Event, devices: seq<DeviceEntry>)
    ensures var r := DeviceOf(e, devices);
      && (r.None? <==> forall d :: d in devices ==> !DeviceApplies(e, d))
      && (r.Some? ==> r.value in devices && DeviceApplies(e, r.value) &&
                      forall d :: d in devices && DeviceApplies(e, d) ==> !DeviceBefore(e, d, r.value))
  {
    hide DeviceTest, DeviceApplies, DeviceRank, DeviceBefore, LexLess;
    var passes, rank := (d: DeviceEntry) => Accepted(DeviceTest(e, d)), (d: DeviceEntry) => DeviceRank(e, d);
    LeastIsLeast(devices, passes, rank);
    forall d | d in devices ensures passes(d) <==> DeviceApplies(e, d) {
      DeviceTestMeans(e, d);
    }
    var r := DeviceOf(e, devices);
    if r.Some? {
      forall d | d in devices && DeviceApplies(e, d) ensures !DeviceBefore(e, d, r.value) {
        DeviceRankMeans(e, d, r.value);
        assert passes(d) && !LexLess(rank(d), rank(r.value));
      }
    }
  }

  lemma DeviceRankMeans(e: Event, a: DeviceEntry, b: DeviceEntry)
    ensures LexLess(DeviceRank(e, a), DeviceRank(e, b)) <==> DeviceBefore(e, a, b)
  {
    hide AreaKey;
    var x, y := DeviceRank(e, a), DeviceRank(e, b);
    LexCons(x[0], [a.id], y[0], [b.id]);
    LexCons(a.id, [], b.id, []);
    assert x == [x[0]] + [a.id] && y == [y[0]] + [b.id] && [a.id] == [a.id] + [] && [b.id] == [b.id] + [];
  }

  /**
   With the catalogue's CHECK, the NOT IN test never fires: an event has no table exactly when no enabled
   catalogue row names its device and neither its area code nor its location names an area.
   */
  lemma NoTableExactly(e: Event, c: Catalogs)
    requires Checked(c.devices)
    ensures !Accepted(NotATable(TableOf(e, MapDevice(e, c.devices))))
    ensures Route(e, c).Some? ==> Route(e, c).value in TABLES
    ensures Route(e, c).None? <==>
      (forall d :: d in c.devices ==> !DeviceApplies(e, d)) && AreaTable(e, e.location).None?
  {
    hide DeviceTest, DeviceApplies, DeviceRank, NotATable, NamesArea;
    var passes, rank := (d: DeviceEntry) => Accepted(DeviceTest(e, d)), (d: DeviceEntry) => DeviceRank(e, d);
    LeastIsLeast(c.devices, passes, rank);
    forall d | d in c.devices ensures passes(d) <==> DeviceApplies(e, d) {
      DeviceTestMeans(e, d);
    }
    NotATableMeans(TableOf(e, MapDevice(e, c.devices)));
  }

  // ---- the fault-code catalogue ----

  /** `c.x IS NULL OR c.x = '' OR c.x = v`. */
  function Fits(column: Option<string>, v: Option<string>): Tri {
    Or(Or(IsNull(column), Eq(column, Some(""))), Eq(column, v))
  }

  function FaultTest(e: Event, m: Mapping, c: FaultEntry): Tri {
    And(And(And(And(And(ToTri(c.enabled), Eq(Some(c.faultCode), Some(e.faultCode))), Fits(c.location, m.location)),
                Fits(c.deviceType, m.deviceType)), Fits(c.deviceVendor, m.deviceVendor)), Fits(c.deviceId, m.deviceId))
  }

  function Mismatch(column: Option<string>, v: Option<string>): int {
    if Accepted(Eq(column, v)) then 0 else 1
  }

  function FaultRank(m: Mapping, c: FaultEntry): seq<int> {
    [Mismatch(c.deviceId, m.deviceId), Mismatch(c.deviceVendor, m.deviceVendor), Mismatch(c.deviceType, m.deviceType),
     Mismatch(c.location, m.location), c.id]
  }

  function FaultOf(e: Event, m: Mapping, faults: seq<FaultEntry>): Option<FaultEntry> {
    Least(faults, (c: FaultEntry) => Accepted(FaultTest(e, m, c)), (c: FaultEntry) => FaultRank(m, c))
  }

  /** A restriction of a catalogue row: absent, or met by the event. */
  predicate Allows(column: Option<string>, v: Option<string>) {
    column == None || column == Some("") || column == v
  }

  predicate FaultApplies(e: Event, m: Mapping, c: FaultEntry) {
    && c.enabled && c.faultCode == e.faultCode
    && Allows(c.location, m.location) && Allows(c.deviceType, m.deviceType)
    && Allows(c.deviceVendor, m.deviceVendor) && Allows(c.deviceId, m.deviceId)
  }

  predicate Names(column: Option<string>, v: Option<string>) {
    column.Some? && column == v
  }

  /** Row `a` is preferred to row `b`: the more telling column decides, then the smaller id. */
  predicate Preferred(m: Mapping, a: FaultEntry, b: FaultEntry) {
    if Names(a.deviceId, m.deviceId) != Names(b.deviceId, m.deviceId) then Names(a.deviceId, m.deviceId)
    else if Names(a.deviceVendor, m.deviceVendor) != Names(b.deviceVendor, m.deviceVendor) then
      Names(a.deviceVendor, m.deviceVendor)
    else if Names(a.deviceType, m.deviceType) != Names(b.deviceType, m.deviceType) then
      Names(a.deviceType, m.deviceType)
    else if Names(a.location, m.location) != Names(b.location, m.location) then Names(a.location, m.location)
    else a.id < b.id
  }

  lemma FaultTestMeans(e: Event, m: Mapping, c: FaultEntry)
    ensures Accepted(FaultTest(e, m, c)) <==> FaultApplies(e, m, c)
  {
    FitsMeans(c.location, m.location);
    FitsMeans(c.deviceType, m.deviceType);
    FitsMeans(c.deviceVendor, m.deviceVendor);
    FitsMeans(c.deviceId, m.deviceId);
    hide Fits, Allows;
  }

  lemma FitsMeans(column: Option<string>, v: Option<string>)
    ensures Accepted(Fits(column, v)) <==> Allows(column, v)
  {
  }

  lemma LexCons(x: int, a: seq<int>, y: int, b: seq<int>)
    ensures LexLess([x] + a, [y] + b) <==> x < y || (x == y && LexLess(a, b))
  {
    assert ([x] + a)[1..] == a && ([y] + b)[1..] == b;
  }

  lemma LexFive(a: seq<int>, b: seq<int>)
    requires |a| == |b| == 5
    ensures LexLess(a, b) <==>
      if a[0] != b[0] then a[0] < b[0] else if a[1] != b[1] then a[1] < b[1]
      else if a[2] != b[2] then a[2] < b[2] else if a[3] != b[3] then a[3] < b[3] else a[4] < b[4]
  {
    hide LexLess;
    LexTail(a, b, 0);
    LexTail(a, b, 1);
    LexTail(a, b, 2);
    LexTail(a, b, 3);
    LexTail(a, b, 4);
    LexTotal(a[5..], b[5..]);
    assert a[5..] == [] && b[5..] == [] && a[0..] == a && b[0..] == b;
  }

  lemma LexTail(a: seq<int>, b: seq<int>, i: nat)
    requires i < |a| == |b|
    ensures LexLess(a[i..], b[i..]) <==> a[i] < b[i] || (a[i] == b[i] && LexLess(a[i + 1..], b[i + 1..]))
  {
    LexCons(a[i], a[i + 1..], b[i], b[i + 1..]);
    assert a[i..] == [a[i]] + a[i + 1..] && b[i..] == [b[i]] + b[i + 1..];
  }

  lemma RankIsPreference(m: Mapping, a: FaultEntry, b: FaultEntry)
    ensures LexLess(FaultRank(m, a), FaultRank(m, b)) <==> Preferred(m, a, b)
  {
    LexFive(FaultRank(m, a), FaultRank(m, b));
  }

  /**
   The lookup takes an applicable row to which no applicable row is preferred, and finds nothing exactly
   when no row applies.
   */
  lemma FaultChosen(e: Event, m: Mapping, faults: seq<FaultEntry>)
    ensures var r := FaultOf(e, m, faults);
      && (r.None? <==> forall c :: c in faults ==> !FaultApplies(e, m, c))
      && (r.Some? ==> r.value in faults && FaultApplies(e, m, r.value) &&
                      forall c :: c in faults && FaultApplies(e, m, c) ==> !Preferred(m, c, r.value))
  {
    hide FaultTest, FaultApplies, FaultRank, Preferred, LexLess;
    var passes, rank := (c: FaultEntry) => Accepted(FaultTest(e, m, c)), (c: FaultEntry) => FaultRank(m, c);
    LeastIsLeast(faults, passes, rank);
    forall c | c in faults ensures passes(c) <==> FaultApplies(e, m, c) {
      FaultTestMeans(e, m, c);
    }
    var r := FaultOf(e, m, faults);
    if r.Some? {
      forall c | c in faults && FaultApplies(e, m, c) ensures !Preferred(m, c, r.value) {
        RankIsPreference(m, c, r.value);
        assert passes(c) && !LexLess(rank(c), rank(r.value));
      }
    }
  }

  /** The lookup does not depend on the order in which the catalogue gives its rows. */
  lemma FaultOrderIrrelevant(e: Event, m: Mapping, a: seq<FaultEntry>, b: seq<FaultEntry>)
    requires forall c :: c in a <==> c in b
    requires forall p, q :: p in a && q in a && p.id == q.id ==> p == q
    ensures FaultOf(e, m, a) == FaultOf(e, m, b)
  {
    hide FaultTest, LexLess, Least, Mismatch;
    var rank := (c: FaultEntry) => FaultRank(m, c);
    forall p, q | p in a && q in a && rank(p) == rank(q) ensures p == q {
      assert FaultRank(m, p)[4] == FaultRank(m, q)[4];
    }
    LeastIgnoresOrder(a, b, (c: FaultEntry) => Accepted(FaultTest(e, m, c)), rank);
  }

  // ---- what is written ----

  /** The history row of an event; `description` repeats `faultName`. */
  datatype HistoryRow = HistoryRow(
    sourceEventId: Option<string>, location: Option<string>, deviceType: Option<string>, deviceId: Option<string>,
    externalDeviceCode: Option<string>, nodeId: string, alias: string, tag: string, faultType: Option<string>,
    faultCode: string, faultName: string, tagState: string, tagValue: string, remark: string, createAt: DateTime)

  /** What the fault-code lookup yields, found or not. */
  datatype FaultInfo = FaultInfo(name: string, tag: Option<string>, faultType: Option<string>, defaultValue: string)

  function Unmaintained(code: string): FaultInfo {
    FaultInfo("未维护WCS故障代码：" + code, Some("WCS_" + code), None, "1")
  }

  function InfoOf(e: Event, m: Mapping, faults: seq<FaultEntry>): FaultInfo {
    match FaultOf(e, m, faults)
    case None => Unmaintained(e.faultCode)
    case Some(c) => FaultInfo(c.faultName, Filled(Some(c.faultTag)), c.faultType, c.defaultTagValue)
  }

  predicate MeansNormal(s: string) {
    s == "0" || s == "false" || s == "off" || s == "normal" || s == "ok" || s == "正常" || s == "无"
  }

  function TagValue(e: Event, info: FaultInfo): string {
    if e.isActive.Some? then (if e.isActive.value == 0 then "0" else "1")
    else if Filled(e.faultValue).None? then OrElse(Filled(Some(info.defaultValue)), "1")
    else if MeansNormal(Words.Lower(Filled(e.faultValue).value)) then "0" else "1"
  }

  function ExternalCode(e: Event): Option<string> {
    Coalesce(Filled(e.deviceCode), Filled(e.deviceId))
  }

  /** The device part of the node id and the alias. */
  function DeviceKey(e: Event, c: Catalogs): string {
    OrElse(Filled(MapDevice(e, c.devices).deviceId), OrElse(ExternalCode(e), "unknown"))
  }

  function NodeId(table: string, device: string, code: string): string {
    "wcs://" + table + "/" + device + "/" + code
  }

  /** The pairs are equal, or one device key goes on with a slash where the other fault code begins. */
  ghost predicate SplitAlike(a: string, x: string, b: string, y: string) {
    || (a == b && x == y)
    || Continues(a, x, b, y)
    || Continues(b, y, a, x)
  }

  ghost predicate Continues(a: string, x: string, b: string, y: string) {
    exists u: string :: a == b + "/" + u && y == u + "/" + x
  }

  lemma LongerContinues(a: string, x: string, b: string, y: string)
    requires a + "/" + x == b + "/" + y && |b| < |a|
    ensures Continues(a, x, b, y)
  {
    var l, r := a + "/" + x, b + "/" + y;
    var u := a[|b| + 1..];
    assert l[|b|] == a[|b|] && r[|b|] == '/';
    assert b == r[..|b|] == l[..|b|] == a[..|b|];
    assert a == b + "/" + u;
    assert y == r[|b| + 1..] == l[|b| + 1..] == u + "/" + x;
  }

  lemma SplitsExactly(a: string, x: string, b: string, y: string)
    ensures a + "/" + x == b + "/" + y <==> SplitAlike(a, x, b, y)
  {
    if a + "/" + x == b + "/" + y {
      if |b| < |a| {
        LongerContinues(a, x, b, y);
      } else if |a| < |b| {
        LongerContinues(b, y, a, x);
      } else {
        var l, r := a + "/" + x, b + "/" + y;
        assert a == l[..|a|] && b == r[..|b|] && x == l[|a| + 1..] && y == r[|b| + 1..];
      }
    }
    if Continues(a, x, b, y) { ContinuedAlike(a, x, b, y); }
    if Continues(b, y, a, x) { ContinuedAlike(b, y, a, x); }
  }

  lemma ContinuedAlike(a: string, x: string, b: string, y: string)
    requires Continues(a, x, b, y)
    ensures a + "/" + x == b + "/" + y
  {
    var u: string :| a == b + "/" + u && y == u + "/" + x;
    assert b + "/" + u + "/" + x == b + "/" + (u + "/" + x);
  }

  /**
   Two events write the same realtime row, which is found by table and node id, exactly when their tables
   agree and their device keys and fault codes do, or differ only in where a slash divides them.
   */
  lemma RealtimeRowsMeetExactly(d: Event, e: Event, c: Catalogs, s: string, t: string)
    ensures s == t && Derive(d, c, s).nodeId == Derive(e, c, t).nodeId
       <==> s == t && SplitAlike(DeviceKey(d, c), d.faultCode, DeviceKey(e, c), e.faultCode)
  {
    hide DeviceKey, MapDevice, InfoOf, TagValue, ExternalCode, Filled, SplitAlike;
    var a, b := DeviceKey(d, c), DeviceKey(e, c);
    var head := "wcs://" + s + "/";
    SplitsExactly(a, d.faultCode, b, e.faultCode);
    assert NodeId(s, a, d.faultCode) == head + (a + "/" + d.faultCode);
    assert NodeId(s, b, e.faultCode) == head + (b + "/" + e.faultCode);
    assert (head + (a + "/" + d.faultCode))[|head|..] == a + "/" + d.faultCode;
    assert (head + (b + "/" + e.faultCode))[|head|..] == b + "/" + e.faultCode;
  }

  function Derive(e: Event, c: Catalogs, table: string): HistoryRow {
    var m := MapDevice(e, c.devices);
    var info := InfoOf(e, m, c.faults);
    var device := DeviceKey(e, c);
    HistoryRow(
      e.sourceEventId, m.location, m.deviceType, m.deviceId, ExternalCode(e),
      NodeId(table, device, e.faultCode),
      "wcs." + OrElse(Filled(m.location), "unknown") + "." + device + "." + e.faultCode,
      OrElse(info.tag, "WCS_" + e.faultCode), info.faultType, e.faultCode, info.name,
      OrElse(Filled(e.faultValue), e.faultCode), TagValue(e, info),
      "WCS直写；故障代码=" + e.faultCode + "；原始值=" + OrElse(e.faultValue, "") + "；外部设备=" + OrElse(ExternalCode(e), ""),
      if e.faultAt.Some? then e.faultAt.value else e.receivedAt)
  }

  /**
   A written tag value is trimmed and not blank, so `'0'` is the only one that is not a fault; the event's flag
   decides it, then its fault value, then the catalogue's default.
   */
  lemma TagValueClean(e: Event, info: FaultInfo)
    ensures TagValue(e, info) != "" && Trim(Spaces, TagValue(e, info)) == TagValue(e, info)
    ensures TagValue(e, info) == "0" <==>
      || e.isActive == Some(0)
      || (e.isActive.None? && Filled(e.faultValue).None? && Trim(Spaces, info.defaultValue) == "0")
      || (e.isActive.None? && Filled(e.faultValue).Some?
          && MeansNormal(Words.Lower(Trim(Spaces, e.faultValue.value))))
  {
    TrimOfTrimmed(Spaces, "0");
    TrimOfTrimmed(Spaces, "1");
    TrimIsTrimmed(Spaces, info.defaultValue);
    TrimOfTrimmed(Spaces, Trim(Spaces, info.defaultValue));
  }
}

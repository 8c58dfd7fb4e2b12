/**
 What a WCS event becomes, column by column, told from the texts of the event and of the catalogue rows
 (migrations/202605200001_add_realtime_fault_count.sql).
 */
module WcsEvents {
  import opened Options
  import opened Text
  import opened WcsCatalog
  import opened WcsInbox
  import opened WcsProcedures
  import Calendar
  import opened Words
  import WcsRuns

  // ---- texts ----

  /** `r` is the column's own text, and `given` when it has none. */
  ghost predicate Takes(x: Option<string>, given: Option<string>, r: Option<string>) {
    (forall t :: Says(x, t) ==> r == Some(t)) && (IsSilent(x) ==> r == given)
  }

  lemma TakesIs(x: Option<string>, given: Option<string>, r: Option<string>)
    ensures Takes(x, given, r) <==> r == Coalesce(Filled(x), given)
  {
    hide Says, IsSilent, Filled;
    FilledIs(x);
  }

  // ---- the device ----

  /** The row is for the event's own area. */
  ghost predicate OwnArea(e: Event, d: DeviceEntry) {
    Says(e.areaCode, d.areaCode) || (IsSilent(e.areaCode) && d.areaCode == "")
  }

  /** The row has the event's device code or device id; a missing one reads `__none__`. */
  ghost predicate HasCode(e: Event, d: DeviceEntry) {
    || Says(e.deviceCode, d.deviceCode) || Says(e.deviceId, d.deviceCode)
    || ((IsSilent(e.deviceCode) || IsSilent(e.deviceId)) && d.deviceCode == "__none__")
  }

  ghost predicate IsCandidate(e: Event, d: DeviceEntry) {
    d.enabled && (OwnArea(e, d) || d.areaCode == "") && HasCode(e, d)
  }

  ghost predicate HasNoDevice(e: Event, devices: seq<DeviceEntry>) {
    forall d :: d in devices ==> !IsCandidate(e, d)
  }

  /** A candidate, of the own area if any is, with the smallest id among those. */
  ghost predicate IsDevice(e: Event, devices: seq<DeviceEntry>, d: DeviceEntry) {
    && d in devices && IsCandidate(e, d)
    && forall o :: o in devices && IsCandidate(e, o) ==>
         if OwnArea(e, o) == OwnArea(e, d) then d.id <= o.id else OwnArea(e, d)
  }

  lemma CandidateIs(e: Event, d: DeviceEntry)
    ensures OwnArea(e, d) <==> d.areaCode == AreaKey(e)
    ensures IsCandidate(e, d) <==> DeviceApplies(e, d)
  {
    hide Says, IsSilent, Filled;
    FilledIs(e.areaCode);
    FilledIs(e.deviceCode);
    FilledIs(e.deviceId);
    EmptySaysNothing(e.areaCode);
  }

  lemma EmptySaysNothing(x: Option<string>)
    ensures !Says(x, "")
  {
  }

  lemma DeviceIs(e: Event, devices: seq<DeviceEntry>)
    ensures match DeviceOf(e, devices)
      case None => HasNoDevice(e, devices)
      case Some(d) => IsDevice(e, devices, d)
  {
    hide DeviceOf, OwnArea, IsCandidate, DeviceApplies, AreaKey;
    DeviceChosen(e, devices);
    forall d ensures (OwnArea(e, d) <==> d.areaCode == AreaKey(e)) && (IsCandidate(e, d) <==> DeviceApplies(e, d)) {
      CandidateIs(e, d);
    }
    if DeviceOf(e, devices).Some? {
      var d := DeviceOf(e, devices).value;
      forall o | o in devices && IsCandidate(e, o)
        ensures if OwnArea(e, o) == OwnArea(e, d) then d.id <= o.id else OwnArea(e, d)
      {
        assert !DeviceBefore(e, o, d);
      }
    }
  }

  /** The event's columns after the lookup: its own texts first, what the row gives for missing ones. */
  ghost predicate Fills(e: Event, d: DeviceEntry, m: Mapping) {
    && m.table == Some(d.sourceTable)
    && Takes(e.location, Some(d.location), m.location)
    && Takes(e.deviceType, Some(d.deviceType), m.deviceType)
    && Takes(e.deviceId, Some(d.deviceId), m.deviceId)
    && Takes(e.deviceName, d.deviceName, m.deviceName)
    && Takes(e.deviceVendor, d.deviceVendor, m.deviceVendor)
  }

  /** Without a row the columns stay as they came, blanks and all. */
  ghost predicate Keeps(e: Event, m: Mapping) {
    && m.table == None && m.location == e.location && m.deviceType == e.deviceType && m.deviceId == e.deviceId
    && m.deviceName == e.deviceName && m.deviceVendor == e.deviceVendor
  }

  ghost predicate IsMapped(e: Event, devices: seq<DeviceEntry>, m: Mapping) {
    || (HasNoDevice(e, devices) && Keeps(e, m))
    || exists d :: IsDevice(e, devices, d) && Fills(e, d, m)
  }

  /** The device lookup fills the event's columns from the one row it finds, and from none only if none applies. */
  lemma MappedBy(e: Event, devices: seq<DeviceEntry>)
    ensures IsMapped(e, devices, MapDevice(e, devices))
  {
    hide DeviceOf, Takes, HasNoDevice, IsDevice, Filled;
    DeviceIs(e, devices);
    if DeviceOf(e, devices).Some? {
      var d, m := DeviceOf(e, devices).value, MapDevice(e, devices);
      TakesIs(e.location, Some(d.location), m.location);
      TakesIs(e.deviceType, Some(d.deviceType), m.deviceType);
      TakesIs(e.deviceId, Some(d.deviceId), m.deviceId);
      TakesIs(e.deviceName, d.deviceName, m.deviceName);
      TakesIs(e.deviceVendor, d.deviceVendor, m.deviceVendor);
      assert Fills(e, d, m);
    }
  }

  // ---- the table ----

  /** The column is `code`, a word in upper case, in any case. */
  predicate IsCode(x: Option<string>, code: string) {
    && x.Some? && |x.value| == |code|
    && forall i :: 0 <= i < |code| ==>
         x.value[i] == code[i] || ('a' <= x.value[i] <= 'z' && x.value[i] as int - 32 == code[i] as int)
  }

  ghost predicate Mentions(x: Option<string>, part: string) {
    exists left, right :: x == Some(left + part + right)
  }

  ghost predicate IsCpk(e: Event, location: Option<string>) {
    IsCode(e.areaCode, "CPK") || Mentions(location, "成品")
  }

  ghost predicate IsFlk(e: Event, location: Option<string>) {
    IsCode(e.areaCode, "FLK") || Mentions(location, "辅料")
  }

  ghost predicate IsYlk(e: Event, location: Option<string>) {
    IsCode(e.areaCode, "YLK") || Mentions(location, "原料")
  }

  lemma CodeIs(x: Option<string>, code: string)
    requires code != "" && forall i :: 0 <= i < |code| ==> 'A' <= code[i] <= 'Z'
    ensures IsCode(x, code) <==> Upper(OrElse(x, "")) == code
  {
    if x.Some? && |x.value| == |code| {
      assert forall i :: 0 <= i < |code| ==> Upper(x.value)[i] == UpperAscii(x.value[i]);
      if IsCode(x, code) { assert Upper(x.value) == code; }
    }
  }

  lemma MentionsIs(x: Option<string>, part: string)
    requires part != ""
    ensures Mentions(x, part) <==> Contains(OrElse(x, ""), part)
  {
    if Mentions(x, part) {
      var left, right :| x == Some(left + part + right);
      assert Follows(x.value, |left|, part);
    }
    if Contains(OrElse(x, ""), part) {
      var i :| 0 <= i <= |OrElse(x, "")| && Follows(OrElse(x, ""), i, part);
      var s := x.value;
      assert s == s[..i] + s[i..i + |part|] + s[i + |part|..];
    }
  }

  lemma AreasAre(e: Event, location: Option<string>)
    ensures IsCpk(e, location) <==> NamesArea(e, location, "CPK", "成品")
    ensures IsFlk(e, location) <==> NamesArea(e, location, "FLK", "辅料")
    ensures IsYlk(e, location) <==> NamesArea(e, location, "YLK", "原料")
  {
    hide IsCode, Mentions, Upper, Contains;
    CodeIs(e.areaCode, "CPK");
    CodeIs(e.areaCode, "FLK");
    CodeIs(e.areaCode, "YLK");
    MentionsIs(location, "成品");
    MentionsIs(location, "辅料");
    MentionsIs(location, "原料");
  }

  /** The table the row names, or else the one of the first area that the event names. */
  ghost predicate GoesTo(e: Event, m: Mapping, table: Option<string>) {
    match m.table
    case Some(t) =>
      table == if t == "cpk_alarm_log" || t == "flk_alarm_log" || t == "ylk_alarm_log" then Some(t) else None
    case None =>
      && (table == Some("cpk_alarm_log") <==> IsCpk(e, m.location))
      && (table == Some("flk_alarm_log") <==> !IsCpk(e, m.location) && IsFlk(e, m.location))
      && (table == Some("ylk_alarm_log") <==> !IsCpk(e, m.location) && !IsFlk(e, m.location) && IsYlk(e, m.location))
      && (table == None <==> !IsCpk(e, m.location) && !IsFlk(e, m.location) && !IsYlk(e, m.location))
  }

  /**
   An event goes to the table of its device row. Without one it goes to cpk_alarm_log exactly when its area
   code is CPK or its location has 成品 in it, to flk_alarm_log exactly when not that, but FLK or 辅料, and to
   ylk_alarm_log exactly when neither, but YLK or 原料; and nowhere otherwise.
   */
  lemma TableExactly(e: Event, c: Catalogs)
    ensures var m := MapDevice(e, c.devices); IsMapped(e, c.devices, m) && GoesTo(e, m, Route(e, c))
  {
    hide MapDevice, IsMapped, NamesArea, NotATable, IsCpk, IsFlk, IsYlk;
    var m := MapDevice(e, c.devices);
    MappedBy(e, c.devices);
    AreasAre(e, m.location);
    NotATableMeans(TableOf(e, m));
  }

  // ---- the fault ----

  /** An applicable row of the fault-code catalogue to which no other is preferred. */
  ghost predicate IsFault(e: Event, m: Mapping, faults: seq<FaultEntry>, f: FaultEntry) {
    f in faults && FaultApplies(e, m, f) && forall o :: o in faults && FaultApplies(e, m, o) ==> !Preferred(m, o, f)
  }

  /** What the catalogue says of the fault: name, tag, fault type and default value. */
  ghost predicate Tells(e: Event, m: Mapping, faults: seq<FaultEntry>, info: FaultInfo) {
    if forall f :: f in faults ==> !FaultApplies(e, m, f) then
      && info.name == "未维护WCS故障代码：" + e.faultCode && info.tag == Some("WCS_" + e.faultCode)
      && info.faultType == None && info.defaultValue == "1"
    else
      exists f :: IsFault(e, m, faults, f) && info.name == f.faultName && Takes(Some(f.faultTag), None, info.tag)
        && info.faultType == f.faultType && info.defaultValue == f.defaultTagValue
  }

  lemma InfoTold(e: Event, m: Mapping, faults: seq<FaultEntry>)
    ensures Tells(e, m, faults, InfoOf(e, m, faults))
  {
    hide FaultOf, FaultApplies, Preferred, Filled, Takes;
    FaultChosen(e, m, faults);
    if FaultOf(e, m, faults).Some? {
      var f := FaultOf(e, m, faults).value;
      TakesIs(Some(f.faultTag), None, Filled(Some(f.faultTag)));
      assert IsFault(e, m, faults, f);
    }
  }

  // ---- the tag value ----

  predicate IsNormal(s: string) {
    || IsWord(s, "0") || IsWord(s, "false") || IsWord(s, "off") || IsWord(s, "normal") || IsWord(s, "ok")
    || IsWord(s, "正常") || IsWord(s, "无")
  }

  lemma NormalIs(s: string)
    ensures IsNormal(s) <==> MeansNormal(Lower(s))
  {
    hide IsWord, Lower;
    WordIs(s, "0");
    WordIs(s, "false");
    WordIs(s, "off");
    WordIs(s, "normal");
    WordIs(s, "ok");
    WordIs(s, "正常");
    WordIs(s, "无");
  }

  /** The event's flag, or else its fault value, or else the catalogue's default. */
  ghost predicate Flags(e: Event, info: FaultInfo, value: string) {
    match e.isActive
    case Some(n) => value == if n == 0 then "0" else "1"
    case None =>
      && (IsSilent(e.faultValue) ==> Takes(Some(info.defaultValue), Some("1"), Some(value)))
      && forall t :: Says(e.faultValue, t) ==> value == if IsNormal(t) then "0" else "1"
  }

  lemma ValueFlags(e: Event, info: FaultInfo)
    ensures Flags(e, info, TagValue(e, info))
  {
    hide Filled, Says, IsSilent, Takes, MeansNormal, IsNormal;
    FilledIs(e.faultValue);
    TakesIs(Some(info.defaultValue), Some("1"), Some(TagValue(e, info)));
    if Filled(e.faultValue).Some? {
      NormalIs(Filled(e.faultValue).value);
    }
  }

  // ---- the event ----

  /**
   A request without a fault code is refused; otherwise the inbox row has the request's texts without the
   spaces around them, and NULL for those that have no text.
   */
  lemma WrittenEvent(w: WriteRequest, now: Calendar.DateTime)
    ensures Rejected(w) <==> IsSilent(w.faultCode)
    ensures !Rejected(w) ==>
      var e := Normalised(w, now);
      && Takes(w.sourceEventId, None, e.sourceEventId) && Takes(w.areaCode, None, e.areaCode)
      && Takes(w.deviceCode, None, e.deviceCode) && Takes(w.location, None, e.location)
      && Takes(w.deviceType, None, e.deviceType) && Takes(w.deviceId, None, e.deviceId)
      && Takes(w.deviceName, None, e.deviceName) && Takes(w.deviceVendor, None, e.deviceVendor)
      && Says(w.faultCode, e.faultCode) && Takes(w.faultValue, None, e.faultValue)
      && e.isActive == w.isActive && e.faultAt == w.faultAt && e.receivedAt == now
  {
    hide Filled, Says, IsSilent, Takes;
    FilledIs(w.faultCode);
    if !Rejected(w) {
      var e := Normalised(w, now);
      TakesIs(w.sourceEventId, None, e.sourceEventId);
      TakesIs(w.areaCode, None, e.areaCode);
      TakesIs(w.deviceCode, None, e.deviceCode);
      TakesIs(w.location, None, e.location);
      TakesIs(w.deviceType, None, e.deviceType);
      TakesIs(w.deviceId, None, e.deviceId);
      TakesIs(w.deviceName, None, e.deviceName);
      TakesIs(w.deviceVendor, None, e.deviceVendor);
      TakesIs(w.faultValue, None, e.faultValue);
    }
  }

  // ---- the row ----

  /** `s` is the column's text, and `other` when it has none. */
  ghost predicate Reads(x: Option<string>, other: string, s: string) {
    Takes(x, Some(other), Some(s))
  }

  /** The text of a column as it came, nothing for NULL. */
  function Plain(x: Option<string>): string {
    match x
    case Some(s) => s
    case None => ""
  }

  /** Every column of the history row, from the event's texts, the mapped columns and what the catalogue says. */
  ghost predicate Describes(e: Event, m: Mapping, info: FaultInfo, table: string, row: HistoryRow) {
    && row.sourceEventId == e.sourceEventId
    && row.location == m.location && row.deviceType == m.deviceType && row.deviceId == m.deviceId
    && (exists own :: Takes(e.deviceId, None, own) && Takes(e.deviceCode, own, row.externalDeviceCode))
    && (exists device, place ::
          && Reads(m.deviceId, match row.externalDeviceCode { case Some(x) => x case None => "unknown" }, device)
          && Reads(m.location, "unknown", place)
          && row.nodeId == "wcs://" + table + "/" + device + "/" + e.faultCode
          && row.alias == "wcs." + place + "." + device + "." + e.faultCode)
    && row.tag == (match info.tag { case Some(tag) => tag case None => "WCS_" + e.faultCode })
    && row.faultType == info.faultType && row.faultCode == e.faultCode && row.faultName == info.name
    && Reads(e.faultValue, e.faultCode, row.tagState) && Flags(e, info, row.tagValue)
    && row.remark == "WCS直写；故障代码=" + e.faultCode + "；原始值=" + Plain(e.faultValue) + "；外部设备="
                       + Plain(row.externalDeviceCode)
    && row.createAt == (match e.faultAt { case Some(t) => t case None => e.receivedAt })
  }

  lemma ReadsIs(x: Option<string>, other: string, s: string)
    ensures Reads(x, other, s) <==> s == OrElse(Filled(x), other)
  {
    hide Takes, Filled;
    TakesIs(x, Some(other), Some(s));
  }

  lemma RowDescribed(e: Event, c: Catalogs, table: string)
    ensures var m := MapDevice(e, c.devices); Describes(e, m, InfoOf(e, m, c.faults), table, Derive(e, c, table))
  {
    hide MapDevice, InfoOf, Filled, Takes, Reads, Flags, TagValue;
    var m, row := MapDevice(e, c.devices), Derive(e, c, table);
    var info := InfoOf(e, m, c.faults);
    TakesIs(e.deviceId, None, Filled(e.deviceId));
    TakesIs(e.deviceCode, Filled(e.deviceId), row.externalDeviceCode);
    ReadsIs(m.deviceId, OrElse(ExternalCode(e), "unknown"), DeviceKey(e, c));
    ReadsIs(m.location, "unknown", OrElse(Filled(m.location), "unknown"));
    ReadsIs(e.faultValue, e.faultCode, row.tagState);
    ValueFlags(e, info);
  }

  /**
   After any run a processed event points to a row in the table it goes to, and each column of that row
   holds what the event, its device row and its fault-code row say.
   */
  lemma ProcessedRowSpelledOut(c: Catalogs, steps: seq<Step>, id: int)
    requires Runs(c, START, steps) && id in After(c, START, steps).inbox
    requires After(c, START, steps).inbox[id].status == Processed
    ensures var st := After(c, START, steps);
      && st.inbox[id].mapped.Some? && st.inbox[id].mapped.value.target in st.history
      && var e, target := st.inbox[id].event, st.inbox[id].mapped.value.target;
      exists m, info ::
        && IsMapped(e, c.devices, m) && GoesTo(e, m, Some(target.table)) && Tells(e, m, c.faults, info)
        && Describes(e, m, info, target.table, st.history[target].row)
        && st.inbox[id].mapped.value.faultType == info.faultType
  {
    hide Runs, After, MapDevice, InfoOf, Derive, Route, IsMapped, GoesTo, Tells, Describes, Inv;
    WcsRuns.StartIsSound(c);
    WcsRuns.RunKeeps(c, START, steps);
    WcsRuns.ProcessedPointsToItsRow(c, steps, id);
    var st := After(c, START, steps);
    var e, target := st.inbox[id].event, st.inbox[id].mapped.value.target;
    var m := MapDevice(e, c.devices);
    TableExactly(e, c);
    InfoTold(e, m, c.faults);
    RowDescribed(e, c, target.table);
    MappedFaultType(c, st, id);
  }

  lemma MappedFaultType(c: Catalogs, st: State, id: int)
    requires Inv(c, st) && id in st.inbox && st.inbox[id].mapped.Some?
    ensures var e, t := st.inbox[id].event, st.inbox[id].mapped.value.target;
      st.inbox[id].mapped.value.faultType == InfoOf(e, MapDevice(e, c.devices), c.faults).faultType
  {
    hide MapDevice, InfoOf, TagValue, DeviceKey, ExternalCode, Filled, Route;
    assert WellMapped(c, st, id);
  }
}

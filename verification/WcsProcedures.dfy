/** `sp_process_wcs_alarm_event`, `sp_process_wcs_alarm_inbox` and `sp_write_wcs_alarm_event`, run on one connection. */
module WcsProcedures {
  import opened Options
  import opened Faults
  import opened IdSets
  import opened Text
  import opened Calendar
  import opened SqlLogic
  import opened WcsCatalog
  import opened WcsInbox

  const DEFAULT_BATCH: nat := 500

  // The statements after the claim, in order; a fault is counted from the claim on.
  const BEFORE_INSERT: nat := 3   // three SELECTs
  const BEFORE_UPSERT: nat := 4
  const BEFORE_MARK: nat := 5

  predicate Reaches(fault: Fault, statement: nat) {
    fault.None? || fault.value > statement
  }

  predicate Writes(c: Catalogs, e: Event, fault: Fault) {
    Route(e, c).Some? && Reaches(fault, BEFORE_INSERT)
  }

  predicate Completes(c: Catalogs, e: Event, fault: Fault) {
    Route(e, c).Some? && Reaches(fault, BEFORE_MARK)
  }

  /** What one call leaves of the inbox; `h` is the id the history row gets. */
  function InboxAfter(c: Catalogs, inbox: map<int, Entry>, id: int, h: int, fault: Fault): map<int, Entry> {
    if id !in inbox || !Claimable(inbox[id]) then inbox
    else
      var e := inbox[id];
      inbox[id := Entry(e.event, if Completes(c, e.event, fault) then Processed else Broken, e.attempts + 1,
                        if Completes(c, e.event, fault) then Some(MappedTo(c, e.event, h)) else e.mapped)]
  }

  function MappedTo(c: Catalogs, e: Event, h: int): Mapped
    requires Route(e, c).Some?
  {
    Mapped(Target(Route(e, c).value, h), Derive(e, c, Route(e, c).value).faultType)
  }

  function HistoryAfter(c: Catalogs, inbox: map<int, Entry>, history: map<Target, Written>, id: int, h: int,
                        fault: Fault)
    : map<Target, Written>
  {
    if id !in inbox || !Claimable(inbox[id]) || !Writes(c, inbox[id].event, fault) then history
    else
      var e := inbox[id].event;
      history[Target(Route(e, c).value, h) := Written(id, Derive(e, c, Route(e, c).value))]
  }

  /** What is sent to the realtime table. */
  function RealtimeAfter(c: Catalogs, inbox: map<int, Entry>, realtime: seq<Written>, id: int,
                         fault: Fault): seq<Written> {
    if id !in inbox || !Claimable(inbox[id]) || Route(inbox[id].event, c).None? || !Reaches(fault, BEFORE_UPSERT)
        then realtime
    else realtime + [Written(id, Derive(inbox[id].event, c, Route(inbox[id].event, c).value))]
  }

  lemma RouteMeans(e: Event, c: Catalogs)
    ensures var m := MapDevice(e, c.devices);
      var t := if m.table.None? then AreaTable(e, m.location) else m.table;
      Route(e, c) == if Accepted(NotATable(t)) then None else t
  {
    hide MapDevice, AreaTable, NotATable;
  }

  /**
   A call in which no statement fails ends processed exactly when a catalogue row names the event's device or
   its area code or location names an area; otherwise it ends failed and writes nothing.
   */
  lemma EndsProcessedExactly(c: Catalogs, inbox: map<int, Entry>, history: map<Target, Written>,
                             realtime: seq<Written>, id: int, h: int)
    requires id in inbox && Claimable(inbox[id]) && Checked(c.devices)
    ensures var e := inbox[id].event;
      var found := (exists d :: d in c.devices && DeviceApplies(e, d)) || AreaTable(e, e.location).Some?;
      var end := InboxAfter(c, inbox, id, h, None)[id];
      && end.status == (if found then Processed else Broken) && end.attempts == inbox[id].attempts + 1
      && (!found ==>
            && HistoryAfter(c, inbox, history, id, h, None) == history
            && RealtimeAfter(c, inbox, realtime, id, None) == realtime)
  {
    hide Route, Derive, DeviceApplies, AreaTable;
    NoTableExactly(inbox[id].event, c);
  }

  // ---- a call as a run of the machine ----

  /** The steps after the claim. */
  function Rest(c: Catalogs, e: Event, s: int, h: int, fault: Fault): seq<Step> {
    if !Writes(c, e, fault) then [Fail(s)]
    else if !Reaches(fault, BEFORE_UPSERT) then [Insert(s, h)] + [Fail(s)]
    else if !Reaches(fault, BEFORE_MARK) then [Insert(s, h)] + ([Upsert(s)] + [Fail(s)])
    else [Insert(s, h)] + ([Upsert(s)] + [Mark(s)])
  }

  function CallSteps(c: Catalogs, inbox: map<int, Entry>, first: Step, s: int, id: int, h: int,
                     fault: Fault): seq<Step> {
    if id !in inbox || !Claimable(inbox[id]) then [first] else [first] + Rest(c, inbox[id].event, s, h, fault)
  }

  ghost predicate FreshId(history: map<Target, Written>, h: int) {
    forall t :: t in history ==> t.id != h
  }

  function EndState(c: Catalogs, st: State, s: int, id: int, h: int, fault: Fault, todo: seq<int>): State {
    State(InboxAfter(c, st.inbox, id, h, fault), HistoryAfter(c, st.inbox, st.history, id, h, fault),
          st.sessions[s := Session(todo, Idle)])
  }

  /** Session `s` has just claimed event `id`, whose row was `before`. */
  ghost predicate JustClaimed(st: State, s: int, id: int, before: Entry) {
    && s in st.sessions && st.sessions[s].work == Busy(id, Claimed) && id in st.inbox && Claimable(before)
    && st.inbox[id] == before.(status := Processing, attempts := before.attempts + 1)
  }

  lemma RestFails(c: Catalogs, st: State, s: int, id: int, h: int, fault: Fault, before: Entry)
    requires JustClaimed(st, s, id, before) && !Writes(c, before.event, fault)
    ensures Runs(c, st, [Fail(s)])
    ensures After(c, st, [Fail(s)]) == EndState(c, st.(inbox := st.inbox[id := before]), s, id, h, fault,
      st.sessions[s].todo)
  {
    hide Runs, After, Route, Derive;
    OneStep(c, st, Fail(s));
  }

  lemma RestWrites(c: Catalogs, st: State, s: int, id: int, h: int, fault: Fault, before: Entry)
    requires JustClaimed(st, s, id, before) && Writes(c, before.event, fault) && !Reaches(fault, BEFORE_UPSERT)
      && FreshId(st.history, h)
    ensures Runs(c, st, [Insert(s, h)] + [Fail(s)])
    ensures After(c, st, [Insert(s, h)] + [Fail(s)])
         == EndState(c, st.(inbox := st.inbox[id := before]), s, id, h, fault, st.sessions[s].todo)
  {
    hide Runs, After, Route, Derive, FreshId;
    NotThere(st.history, Target(Route(before.event, c).value, h), h);
    var a := Apply(c, st, Insert(s, h));
    OneStep(c, a, Fail(s));
    ConsRun(c, st, Insert(s, h), [Fail(s)]);
  }

  function LastStep(s: int, fault: Fault): Step {
    if Reaches(fault, BEFORE_MARK) then Mark(s) else Fail(s)
  }

  lemma RestUpserts(c: Catalogs, st: State, s: int, id: int, h: int, fault: Fault, before: Entry)
    requires JustClaimed(st, s, id, before) && Writes(c, before.event, fault) && Reaches(fault, BEFORE_UPSERT)
      && FreshId(st.history, h)
    ensures Runs(c, st, [Insert(s, h)] + ([Upsert(s)] + [LastStep(s, fault)]))
    ensures After(c, st, [Insert(s, h)] + ([Upsert(s)] + [LastStep(s, fault)]))
         == EndState(c, st.(inbox := st.inbox[id := before]), s, id, h, fault, st.sessions[s].todo)
  {
    hide Runs, After, Route, Derive, FreshId;
    NotThere(st.history, Target(Route(before.event, c).value, h), h);
    var a := Apply(c, st, Insert(s, h));
    var b := Apply(c, a, Upsert(s));
    var last := LastStep(s, fault);
    OneStep(c, b, last);
    ConsRun(c, a, Upsert(s), [last]);
    ConsRun(c, st, Insert(s, h), [Upsert(s)] + [last]);
  }

  /** What `Rest` does once the event is claimed. */
  lemma RestRuns(c: Catalogs, st: State, s: int, id: int, h: int, fault: Fault, before: Entry)
    requires JustClaimed(st, s, id, before) && FreshId(st.history, h)
    ensures Runs(c, st, Rest(c, before.event, s, h, fault))
    ensures After(c, st, Rest(c, before.event, s, h, fault))
         == EndState(c, st.(inbox := st.inbox[id := before]), s, id, h, fault, st.sessions[s].todo)
  {
    hide Runs, After, Route, Derive, FreshId, JustClaimed, EndState;
    if !Writes(c, before.event, fault) {
      RestFails(c, st, s, id, h, fault, before);
    } else if !Reaches(fault, BEFORE_UPSERT) {
      RestWrites(c, st, s, id, h, fault, before);
    } else {
      RestUpserts(c, st, s, id, h, fault, before);
    }
  }

  /** A call of the procedure for `id`, made directly or as the next of a batch, is a run of the machine. */
  lemma CallRuns(c: Catalogs, st: State, first: Step, s: int, id: int, h: int, fault: Fault, todo: seq<int>)
    requires At(st, s) && FreshId(st.history, h)
    requires (first == Call(s, id) && st.sessions[s].todo == todo == [])
      || (first == Next(s) && st.sessions[s].todo == [id] + todo)
    ensures var steps := CallSteps(c, st.inbox, first, s, id, h, fault);
      Runs(c, st, steps) && After(c, st, steps) == EndState(c, st, s, id, h, fault, todo)
  {
    hide Runs, After, Route, Derive, FreshId, Rest;
    if first == Next(s) {
      assert st.sessions[s].todo[1..] == todo;
    }
    var a := Apply(c, st, first);
    if id in st.inbox && Claimable(st.inbox[id]) {
      RestRuns(c, a, s, id, h, fault, st.inbox[id]);
      ConsRun(c, st, first, Rest(c, st.inbox[id].event, s, h, fault));
      assert a.inbox[id := st.inbox[id]] == st.inbox;
      assert a.sessions[s].todo == todo;
    } else {
      OneStep(c, st, first);
    }
  }

  lemma NotThere(history: map<Target, Written>, t: Target, h: int)
    requires FreshId(history, h) && t.id == h
    ensures t !in history
  {
  }

  /** The database between two calls, seen through connection 0. */
  function Resting(inbox: map<int, Entry>, history: map<Target, Written>, todo: seq<int>): State {
    State(inbox, history, map[0 := Session(todo, Idle)])
  }

  function FaultFor(faults: map<int, nat>, id: int): Fault {
    if id in faults then Some(faults[id]) else None
  }

  /** One event's entry after a batch, and before it. */
  ghost predicate Attempted(c: Catalogs, before: Entry, after: Entry, fault: Fault) {
    && after.event == before.event && after.attempts == before.attempts + 1
    && after.status == (if Completes(c, before.event, fault) then Processed else Broken)
  }

  /** The calls for `ids` are made, each counted and ended; the other entries are as before. */
  ghost predicate BatchSoFar(c: Catalogs, before: map<int, Entry>, inbox: map<int, Entry>, ids: seq<int>,
                             faults: map<int, nat>) {
    && inbox.Keys == before.Keys
    && forall id :: id in before ==>
         if id in ids then Attempted(c, before[id], inbox[id], FaultFor(faults, id)) else inbox[id] == before[id]
  }

  lemma BatchList(inbox: map<int, Entry>, limit: nat)
    ensures var ids := BatchIds(inbox, limit);
      && (forall j, k :: 0 <= j < k < |ids| ==> ids[j] < ids[k])
      && (forall id :: id in ids ==> id in Eligible(inbox))
  {
  }

  lemma BatchStart(c: Catalogs, inbox: map<int, Entry>, faults: map<int, nat>)
    ensures BatchSoFar(c, inbox, inbox, [], faults)
  {
  }

  lemma BatchNext(c: Catalogs, before: map<int, Entry>, inbox: map<int, Entry>, ids: seq<int>, i: nat,
                  faults: map<int, nat>, h: int)
    requires i < |ids| && BatchSoFar(c, before, inbox, ids[..i], faults)
    requires forall j, k :: 0 <= j < k < |ids| ==> ids[j] < ids[k]
    requires forall id :: id in ids ==> id in Eligible(before)
    ensures BatchSoFar(c, before, InboxAfter(c, inbox, ids[i], h, FaultFor(faults, ids[i])), ids[..i + 1], faults)
  {
    hide Completes, Derive, Route;
    assert ids[i] in ids && ids[i] in Eligible(before);
    assert ids[i] !in ids[..i];
    assert ids[..i + 1] == ids[..i] + [ids[i]];
  }

  /** A batch of at most `limit`: exactly the first eligible events are attempted, once each. */
  ghost predicate AfterBatch(c: Catalogs, before: map<int, Entry>, after: map<int, Entry>, limit: nat,
                             faults: map<int, nat>) {
    && after.Keys == before.Keys
    && forall id :: id in before ==>
         if id in FirstIds(Eligible(before), limit) then Attempted(c, before[id], after[id], FaultFor(faults, id))
         else after[id] == before[id]
  }

  predicate Known(inbox: map<int, Entry>, ids: seq<int>) {
    forall i :: 0 <= i < |ids| ==> ids[i] in inbox
  }

  /** The history rows of a batch: one for each event whose call gets that far, under consecutive ids. */
  function BatchRows(c: Catalogs, inbox: map<int, Entry>, ids: seq<int>, h: int, faults: map<int, nat>)
    : (rows: map<Target, Written>)
    requires Known(inbox, ids)
    ensures forall t :: t in rows ==> h <= t.id < h + |rows|
  {
    if ids == [] then map[]
    else
      var n := |ids| - 1;
      WithNext(c, BatchRows(c, inbox, ids[..n], h, faults), ids[n], inbox[ids[n]].event, h, FaultFor(faults, ids[n]))
  }

  function WithNext(c: Catalogs, rows: map<Target, Written>, id: int, e: Event, h: int, fault: Fault)
    : (next: map<Target, Written>)
    requires forall t :: t in rows ==> t.id < h + |rows|
    ensures |next| == |rows| + if Writes(c, e, fault) then 1 else 0
  {
    if !Writes(c, e, fault) then rows
    else
      var t := Target(Route(e, c).value, h + |rows|);
      var next := rows[t := Written(id, Derive(e, c, t.table))];
      assert next.Keys == rows.Keys + {t} && |next| == |next.Keys| && |rows| == |rows.Keys|;
      next
  }

  /** What a batch sends to the realtime table. */
  function BatchUpserts(c: Catalogs, inbox: map<int, Entry>, ids: seq<int>, faults: map<int, nat>): seq<Written>
    requires Known(inbox, ids)
  {
    if ids == [] then []
    else
      var n := |ids| - 1;
      BatchUpserts(c, inbox, ids[..n], faults)
        + UpsertOf(c, ids[n], inbox[ids[n]].event, FaultFor(faults, ids[n]))
  }

  function UpsertOf(c: Catalogs, id: int, e: Event, fault: Fault): seq<Written> {
    if Route(e, c).Some? && Reaches(fault, BEFORE_UPSERT) then [Written(id, Derive(e, c, Route(e, c).value))] else []
  }

  /** What the calls for `ids` have written. */
  ghost predicate BatchWrote(c: Catalogs, before: map<int, Entry>, ids: seq<int>, h: int, faults: map<int, nat>,
                             history: map<Target, Written>, history': map<Target, Written>, next: int,
                             realtime: seq<Written>, realtime': seq<Written>) {
    && Known(before, ids)
    && history' == history + BatchRows(c, before, ids, h, faults)
    && next == h + |BatchRows(c, before, ids, h, faults)|
    && realtime' == realtime + BatchUpserts(c, before, ids, faults)
  }

  lemma BatchWroteNothing(c: Catalogs, before: map<int, Entry>, h: int, faults: map<int, nat>,
                          history: map<Target, Written>, realtime: seq<Written>)
    ensures BatchWrote(c, before, [], h, faults, history, history, h, realtime, realtime)
  {
  }

  /** One more call of a batch, on an event that is as it was before the batch. */
  lemma BatchGoesOn(c: Catalogs, before: map<int, Entry>, inbox: map<int, Entry>, ids: seq<int>, i: nat, h: int,
                    faults: map<int, nat>, history: map<Target, Written>, history': map<Target, Written>, next: int,
                    realtime: seq<Written>, realtime': seq<Written>)
    requires i < |ids| && BatchWrote(c, before, ids[..i], h, faults, history, history', next, realtime, realtime')
    requires ids[i] in before && ids[i] in inbox && inbox[ids[i]] == before[ids[i]] && Claimable(before[ids[i]])
    ensures var id, fault := ids[i], FaultFor(faults, ids[i]);
      BatchWrote(c, before, ids[..i + 1], h, faults, history, HistoryAfter(c, inbox, history', id, next, fault),
                 next + (if Writes(c, before[id].event, fault) then 1 else 0),
                 realtime, RealtimeAfter(c, inbox, realtime', id, fault))
  {
    hide Route, Derive, Writes, Reaches, BatchRows, BatchUpserts, WithNext, UpsertOf, Known, Claimable, FaultFor,
        HistoryAfter, RealtimeAfter;
    OneMoreKnown(before, ids, i);
    CallWrites(c, inbox, history', realtime', ids[i], next, FaultFor(faults, ids[i]));
    BatchSnoc(c, before, ids, i, h, faults);
    var e, fault, rows := before[ids[i]].event, FaultFor(faults, ids[i]), BatchRows(c, before, ids[..i], h, faults);
    var sent := BatchUpserts(c, before, ids[..i], faults);
    SumNext(c, history, history', rows, ids[i], e, h, next, fault);
    assert (realtime + sent) + UpsertOf(c, ids[i], e, fault) == realtime + (sent + UpsertOf(c, ids[i], e, fault));
  }

  /** What one call on an event that can be claimed writes. */
  lemma CallWrites(c: Catalogs, inbox: map<int, Entry>, history: map<Target, Written>, realtime: seq<Written>, id: int,
                   h: int, fault: Fault)
    requires id in inbox && Claimable(inbox[id])
    ensures var e := inbox[id].event;
      && RealtimeAfter(c, inbox, realtime, id, fault) == realtime + UpsertOf(c, id, e, fault)
      && HistoryAfter(c, inbox, history, id, h, fault) == if !Writes(c, e, fault) then history
           else history[Target(Route(e, c).value, h) := Written(id, Derive(e, c, Route(e, c).value))]
  {
    hide Route, Derive, Reaches, Claimable;
  }

  lemma BatchSnoc(c: Catalogs, before: map<int, Entry>, ids: seq<int>, i: nat, h: int, faults: map<int, nat>)
    requires i < |ids| && Known(before, ids[..i]) && Known(before, ids[..i + 1]) && ids[i] in before
    ensures var e, fault := before[ids[i]].event, FaultFor(faults, ids[i]);
      && BatchRows(c, before, ids[..i + 1], h, faults)
         == WithNext(c, BatchRows(c, before, ids[..i], h, faults), ids[i], e, h, fault)
      && BatchUpserts(c, before, ids[..i + 1], faults)
         == BatchUpserts(c, before, ids[..i], faults) + UpsertOf(c, ids[i], e, fault)
  {
    hide WithNext, UpsertOf;
    assert ids[..i + 1][..i] == ids[..i] && ids[..i + 1][i] == ids[i];
  }

  lemma OneMoreKnown(inbox: map<int, Entry>, ids: seq<int>, i: nat)
    requires i < |ids| && Known(inbox, ids[..i]) && ids[i] in inbox
    ensures Known(inbox, ids[..i + 1])
  {
    forall j | 0 <= j < i ensures ids[j] in inbox { assert ids[..i][j] == ids[j]; }
  }

  lemma SumUpdate<K, V>(a: map<K, V>, b: map<K, V>, k: K, v: V)
    ensures (a + b)[k := v] == a + b[k := v]
  {
  }

  lemma SumNext(c: Catalogs, history: map<Target, Written>, history': map<Target, Written>, rows: map<Target, Written>,
                id: int, e: Event, h: int, next: int, fault: Fault)
    requires (forall t :: t in rows ==> t.id < h + |rows|) && history' == history + rows && next == h + |rows|
    ensures history + WithNext(c, rows, id, e, h, fault) == if !Writes(c, e, fault) then history'
      else history'[Target(Route(e, c).value, next) := Written(id, Derive(e, c, Route(e, c).value))]
  {
    hide Route, Derive, Reaches;
    if Writes(c, e, fault) {
      var t := Target(Route(e, c).value, h + |rows|);
      assert t == Target(Route(e, c).value, next);
      SumUpdate(history, rows, t, Written(id, Derive(e, c, t.table)));
    }
  }

  /** A missing or invalid batch size is replaced by the default. */
  function Limit(batchSize: Option<int>): (limit: nat)
    ensures limit >= 1
  {
    if batchSize.Some? && batchSize.value >= 1 then batchSize.value else DEFAULT_BATCH
  }

  /** An event whose turn is still to come is as it was. */
  lemma NotYet(c: Catalogs, before: map<int, Entry>, inbox: map<int, Entry>, ids: seq<int>, i: nat,
               faults: map<int, nat>)
    requires i < |ids| && BatchSoFar(c, before, inbox, ids[..i], faults)
    requires forall j, k :: 0 <= j < k < |ids| ==> ids[j] < ids[k]
    requires forall id :: id in ids ==> id in Eligible(before)
    ensures ids[i] in before && ids[i] in inbox && inbox[ids[i]] == before[ids[i]] && Claimable(before[ids[i]])
  {
    hide Attempted;
    assert ids[i] in ids && ids[i] !in ids[..i];
  }

  lemma BatchDone(c: Catalogs, before: map<int, Entry>, inbox: map<int, Entry>, limit: nat, faults: map<int, nat>)
    requires BatchSoFar(c, before, inbox, BatchIds(before, limit), faults)
    ensures AfterBatch(c, before, inbox, limit, faults)
    ensures (forall id :: id in before ==> before[id].attempts <= 5)
      ==> forall id :: id in inbox ==> inbox[id].attempts <= 5
  {
    hide Completes;
    var chosen := FirstIds(Eligible(before), limit);
    forall id | id in before ensures
      if id in chosen then Attempted(c, before[id], inbox[id], FaultFor(faults, id)) else inbox[id] == before[id]
    {
      assert id in Ascending(chosen) <==> id in chosen;
    }
  }

  // ---- writing an event ----

  datatype WriteRequest = WriteRequest(
    sourceEventId: Option<string>, areaCode: Option<string>, deviceCode: Option<string>, location: Option<string>,
    deviceType: Option<string>, deviceId: Option<string>, deviceName: Option<string>, deviceVendor: Option<string>,
    faultCode: Option<string>, faultValue: Option<string>, isActive: Option<int>, faultAt: Option<DateTime>)

  /** The fault code is NULL or blank. */
  predicate Rejected(w: WriteRequest) {
    Filled(w.faultCode).None?
  }

  /** The inbox with the event in it. */
  function WithEvent(inbox: map<int, Entry>, id: int, e: Event): map<int, Entry> {
    if Duplicate(inbox, e) then inbox else inbox[id := Entry(e, Pending, 0, None)]
  }

  /** The call changes the event's entry only, and attempts a new one. */
  lemma EventAttempted(c: Catalogs, inbox: map<int, Entry>, id: int, e: Event, h: int, fault: Fault)
    requires Duplicate(inbox, e) <==> id in inbox
    ensures var seen := WithEvent(inbox, id, e);
      var after := InboxAfter(c, seen, id, h, fault);
      && after.Keys == inbox.Keys + {id}
      && (id !in inbox ==> Attempted(c, Entry(e, Pending, 0, None), after[id], fault))
      && forall other :: other in inbox && other != id ==> other in after && after[other] == inbox[other]
  {
    hide Duplicate, Completes, Derive, Route;
  }

  function Normalised(w: WriteRequest, now: DateTime): Event
    requires !Rejected(w)
  {
    Event(Filled(w.sourceEventId), Filled(w.areaCode), Filled(w.deviceCode), Filled(w.location), Filled(w.deviceType),
          Filled(w.deviceId), Filled(w.deviceName), Filled(w.deviceVendor), Filled(w.faultCode).value,
          Filled(w.faultValue), w.isActive, w.faultAt, now)
  }

  class InboxStore {
    const catalogs: Catalogs
    var inbox: map<int, Entry>
    var history: map<Target, Written>
    var realtime: seq<Written>
    var nextInboxId: int
    var nextHistoryId: int

    /** Auto-increment ids are ahead of all ids in use. */
    ghost predicate Valid()
      reads this
    {
      && (forall t :: t in history ==> t.id < nextHistoryId)
      && (forall id :: id in inbox ==> id < nextInboxId)
    }

    /** The machine state between calls. */
    function Quiet(): State
      reads this
    {
      Resting(inbox, history, [])
    }

    constructor (catalogs: Catalogs)
      ensures Valid() && this.catalogs == catalogs && Quiet() == Resting(map[], map[], []) && realtime == []
    {
      this.catalogs := catalogs;
      inbox, history, realtime := map[], map[], [];
      nextInboxId, nextHistoryId := 1, 1;
    }

    /** From the mapping to the realtime row; the result says where the event went, unless a statement failed. */
    method WriteRows(id: int, event: Event, fault: Fault) returns (mapped: Option<Mapped>)
      requires Valid()
      modifies this`history, this`realtime, this`nextHistoryId
      ensures Valid() && nextHistoryId == old(nextHistoryId) + if Writes(catalogs, event, fault) then 1 else 0
      ensures mapped == if Completes(catalogs, event, fault) then Some(MappedTo(catalogs, event, old(nextHistoryId)))
        else None
      ensures history == if Writes(catalogs, event, fault)
        then old(history)[Target(Route(event, catalogs).value, old(nextHistoryId)) :=
            Written(id, Derive(event, catalogs, Route(event, catalogs).value))]
        else old(history)
      ensures realtime == if Route(event, catalogs).Some? && Reaches(fault, BEFORE_UPSERT)
        then old(realtime) + [Written(id, Derive(event, catalogs, Route(event, catalogs).value))]
        else old(realtime)
      // three SELECTs come first, then the history INSERT, the realtime INSERT and the closing UPDATE
      ensures var goes := Route(event, catalogs).Some?;
        && (history != old(history) <==> goes && (fault.None? || fault.value >= 4))
        && (realtime != old(realtime) <==> goes && (fault.None? || fault.value >= 5))
        && (mapped.Some? <==> goes && (fault.None? || fault.value >= 6))
    {
      hide Derive, Filled, AreaTable, MapDevice, NotATable, Route, TableOf, Accepted;
      RouteMeans(event, catalogs);
      var mapping := MapDevice(event, catalogs.devices);
      var table := mapping.table;
      if table.None? {
        table := AreaTable(event, mapping.location);
      }
      // the NOT IN test does not fire for NULL; preparing a NULL statement fails then
      if Accepted(NotATable(table)) || table.None? || !Reaches(fault, BEFORE_INSERT) {
        return None;
      }
      var target := Target(table.value, nextHistoryId);
      var row := Derive(event, catalogs, table.value);
      NotThere(history, target, nextHistoryId);
      history := history[target := Written(id, row)];
      nextHistoryId := nextHistoryId + 1;
      if !Reaches(fault, BEFORE_UPSERT) {
        return None;
      }
      realtime := realtime + [Written(id, row)];
      if !Reaches(fault, BEFORE_MARK) {
        return None;
      }
      mapped := Some(Mapped(target, row.faultType));
    }

    /** `sp_process_wcs_alarm_event`; `fault` counts the statements after the claim. */
    method ProcessEvent(id: int, fault: Fault)
      requires Valid()
      modifies this`inbox, this`history, this`realtime, this`nextHistoryId
      ensures Valid()
      ensures inbox == InboxAfter(catalogs, old(inbox), id, old(nextHistoryId), fault)
      ensures history == HistoryAfter(catalogs, old(inbox), old(history), id, old(nextHistoryId), fault)
      ensures realtime == RealtimeAfter(catalogs, old(inbox), old(realtime), id, fault)
      ensures nextHistoryId == old(nextHistoryId) +
        if id in old(inbox) && Claimable(old(inbox)[id]) && Writes(catalogs, old(inbox)[id].event, fault) then 1
        else 0
    {
      hide Completes, Writes, Route, Derive, Reaches, MappedTo;
      // the claiming UPDATE
      if id !in inbox || !Claimable(inbox[id]) {
        return;
      }
      inbox := inbox[id := inbox[id].(status := Processing, attempts := inbox[id].attempts + 1)];
      var mapped := WriteRows(id, inbox[id].event, fault);
      if mapped.Some? {
        inbox := inbox[id := inbox[id].(status := Processed, mapped := mapped)];
      } else {
        inbox := inbox[id := inbox[id].(status := Broken)];
      }
    }

    /** `sp_process_wcs_alarm_inbox`; `faults` says which calls fail, and where. */
    method ProcessInbox(batchSize: Option<int>, faults: map<int, nat>) returns (ghost steps: seq<Step>)
      requires Valid()
      modifies this`inbox, this`history, this`realtime, this`nextHistoryId
      ensures Valid()
      ensures Runs(catalogs, old(Quiet()), steps) && After(catalogs, old(Quiet()), steps) == Quiet()
      ensures AfterBatch(catalogs, old(inbox), inbox,
                         if batchSize.Some? && batchSize.value > 0 then batchSize.value else 500, faults)
      ensures var ids := BatchIds(old(inbox), Limit(batchSize));
        BatchWrote(catalogs, old(inbox), ids, old(nextHistoryId), faults, old(history), history, nextHistoryId,
                   old(realtime), realtime)
      ensures (forall id :: id in old(inbox) ==> old(inbox)[id].attempts <= 5)
        ==> forall id :: id in inbox ==> inbox[id].attempts <= 5
    {
      hide Derive, Route, BatchIds, Enabled, Apply, Runs, After, CallSteps, InboxAfter, HistoryAfter, RealtimeAfter,
          BatchSoFar, AfterBatch, BatchWrote, Writes, Reaches;
      var limit := Limit(batchSize);
      var ids := BatchIds(inbox, limit);
      steps := [Snapshot(0, limit)];
      SnapshotRuns(catalogs, inbox, history, limit);
      BatchStart(catalogs, inbox, faults);
      assert ids[..0] == [] && ids[0..] == ids;
      BatchList(inbox, limit);
      BatchWroteNothing(catalogs, inbox, nextHistoryId, faults, history, realtime);
      var i := 0;
      while i < |ids|
        invariant 0 <= i <= |ids| && Valid()
        invariant Runs(catalogs, old(Quiet()), steps)
        invariant After(catalogs, old(Quiet()), steps) == Resting(inbox, history, ids[i..])
        invariant BatchSoFar(catalogs, old(inbox), inbox, ids[..i], faults)
        invariant BatchWrote(catalogs, old(inbox), ids[..i], old(nextHistoryId), faults, old(history), history,
                             nextHistoryId, old(realtime), realtime)
      {
        assert ids[i..] == [ids[i]] + ids[i + 1..];
        ghost var call := CallSteps(catalogs, inbox, Next(0), 0, ids[i], nextHistoryId, FaultFor(faults, ids[i]));
        CallFromRest(catalogs, inbox, history, Next(0), ids[i], nextHistoryId, FaultFor(faults, ids[i]), ids[i + 1..]);
        RunAppend(catalogs, old(Quiet()), steps, call);
        BatchNext(catalogs, old(inbox), inbox, ids, i, faults, nextHistoryId);
        NotYet(catalogs, old(inbox), inbox, ids, i, faults);
        BatchGoesOn(catalogs, old(inbox), inbox, ids, i, old(nextHistoryId), faults, old(history), history,
                    nextHistoryId, old(realtime), realtime);
        ProcessEvent(ids[i], FaultFor(faults, ids[i]));
        steps := steps + call;
        i := i + 1;
      }
      assert ids[i..] == [] && ids[..i] == ids;
      BatchDone(catalogs, old(inbox), inbox, limit, faults);
    }

    /** `sp_write_wcs_alarm_event`: insert the event or find the one with its id, then process it. */
    method WriteEvent(w: WriteRequest, now: DateTime, fault: Fault)
      returns (inboxId: Option<int>, ghost steps: seq<Step>)
      requires Valid()
      modifies this`inbox, this`history, this`realtime, this`nextHistoryId, this`nextInboxId
      ensures Valid()
      ensures Runs(catalogs, old(Quiet()), steps) && After(catalogs, old(Quiet()), steps) == Quiet()
      ensures inboxId.None? <==> Rejected(w)
      ensures Rejected(w) ==> inbox == old(inbox) && history == old(history) && realtime == old(realtime)
      ensures inboxId.Some? && !Duplicate(old(inbox), Normalised(w, now)) ==>
        && inboxId.value !in old(inbox) && inboxId.value in inbox && inbox.Keys == old(inbox).Keys + {inboxId.value}
        && Attempted(catalogs, Entry(Normalised(w, now), Pending, 0, None), inbox[inboxId.value], fault)
      ensures inboxId.Some? && Duplicate(old(inbox), Normalised(w, now)) ==>
        && inboxId.value in old(inbox) && SameEventId(old(inbox)[inboxId.value].event, Normalised(w, now))
        && inbox == InboxAfter(catalogs, old(inbox), inboxId.value, old(nextHistoryId), fault)
      ensures inboxId.Some? ==> forall id :: id in old(inbox) && id != inboxId.value ==>
        id in inbox && inbox[id] == old(inbox)[id]
      ensures inboxId.Some? ==>
        var seen := WithEvent(old(inbox), inboxId.value, Normalised(w, now));
        && inbox == InboxAfter(catalogs, seen, inboxId.value, old(nextHistoryId), fault)
        && history == HistoryAfter(catalogs, seen, old(history), inboxId.value, old(nextHistoryId), fault)
        && realtime == RealtimeAfter(catalogs, seen, old(realtime), inboxId.value, fault)
    {
      hide Derive, Route, Filled, Runs, After, CallSteps, Apply, Enabled, InboxAfter, HistoryAfter, RealtimeAfter,
          Attempted, Completes;
      steps := [];
      EmptyRun(catalogs, Quiet());
      if Rejected(w) {
        return None, steps;
      }
      var event := Normalised(w, now);
      ghost var before := inbox;
      var id: int;
      if exists d :: d in inbox && SameEventId(inbox[d].event, event) {
        id :| id in inbox && SameEventId(inbox[id].event, event);
        WriteRuns(catalogs, inbox, history, nextInboxId, event);
        steps := [Write(nextInboxId, event)];
      } else {
        id := nextInboxId;
        WriteRuns(catalogs, inbox, history, id, event);
        steps := [Write(id, event)];
        inbox := inbox[id := Entry(event, Pending, 0, None)];
        nextInboxId := nextInboxId + 1;
      }
      EventAttempted(catalogs, before, id, event, nextHistoryId, fault);
      ghost var call := CallSteps(catalogs, inbox, Call(0, id), 0, id, nextHistoryId, fault);
      CallFromRest(catalogs, inbox, history, Call(0, id), id, nextHistoryId, fault, []);
      RunAppend(catalogs, old(Quiet()), steps, call);
      ProcessEvent(id, fault);
      steps := steps + call;
      inboxId := Some(id);
    }
  }

  lemma WriteRuns(c: Catalogs, inbox: map<int, Entry>, history: map<Target, Written>, id: int, e: Event)
    requires id !in inbox
    ensures var st := Resting(inbox, history, []);
      && Runs(c, st, [Write(id, e)])
      && After(c, st, [Write(id, e)])
         == Resting(WithEvent(inbox, id, e), history, [])
  {
    hide Duplicate;
    OneStep(c, Resting(inbox, history, []), Write(id, e));
  }

  lemma SnapshotRuns(c: Catalogs, inbox: map<int, Entry>, history: map<Target, Written>, limit: nat)
    ensures var st := Resting(inbox, history, []);
      && Runs(c, st, [Snapshot(0, limit)])
      && After(c, st, [Snapshot(0, limit)]) == Resting(inbox, history, BatchIds(inbox, limit))
  {
    hide BatchIds;
    OneStep(c, Resting(inbox, history, []), Snapshot(0, limit));
  }

  lemma CallFromRest(c: Catalogs, inbox: map<int, Entry>, history: map<Target, Written>, first: Step, id: int, h: int,
                     fault: Fault, todo: seq<int>)
    requires forall t :: t in history ==> t.id < h
    requires (first == Call(0, id) && todo == []) || first == Next(0)
    ensures var st := Resting(inbox, history, if first == Next(0) then [id] + todo else []);
      var steps := CallSteps(c, inbox, first, 0, id, h, fault);
      && Runs(c, st, steps)
      && After(c, st, steps) == Resting(InboxAfter(c, inbox, id, h, fault),
          HistoryAfter(c, inbox, history, id, h, fault), todo)
  {
    hide Runs, After, CallSteps, InboxAfter, HistoryAfter;
    var st := Resting(inbox, history, if first == Next(0) then [id] + todo else []);
    CallRuns(c, st, first, 0, id, h, fault, todo);
    assert EndState(c, st, 0, id, h, fault, todo).sessions == map[0 := Session(todo, Idle)];
  }
}

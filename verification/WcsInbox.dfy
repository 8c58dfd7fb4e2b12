/** The WCS event inbox as a state machine: any number of sessions, each statement a step of its own. */
module WcsInbox {
  import opened Options
  import opened IdSets
  import opened WcsCatalog

  datatype Status = Pending | Processing | Processed | Broken

  /** A row of a history table, by table and id. */
  datatype Target = Target(table: string, id: int)
  datatype Mapped = Mapped(target: Target, faultType: Option<string>)
  /** A row of `wcs_alarm_event_inbox`. */
  datatype Entry = Entry(event: Event, status: Status, attempts: nat, mapped: Option<Mapped>)
  /** A history row together with the inbox id it was written for. */
  datatype Written = Written(inboxId: int, row: HistoryRow)

  /** How far `sp_process_wcs_alarm_event` has come with its event. */
  datatype Stage = Claimed | Inserted(target: Target) | Upserted(target: Target)
  datatype Work = Idle | Busy(inboxId: int, stage: Stage)
  /** A connection: the ids its batch still has to call, and the event it is processing. */
  datatype Session = Session(todo: seq<int>, work: Work)

  /** `history` has every row the procedure wrote; where it is after archiving is the matter of `WcsArchive`. */
  datatype State = State(inbox: map<int, Entry>, history: map<Target, Written>, sessions: map<int, Session>)

  const MAX_ATTEMPTS: nat := 5

  datatype Step =
    | Write(id: int, event: Event)        // INSERT ... ON DUPLICATE KEY UPDATE into the inbox
    | Connect(s: int)
    | Snapshot(s: int, limit: nat)        // a batch collects the ids to process
    | Next(s: int)                        // the batch calls the procedure for its next id
    | Call(s: int, id: int)               // the procedure is called for one id
    | Insert(s: int, historyId: int)      // the history INSERT
    | Upsert(s: int)                      // the realtime row
    | Mark(s: int)                        // status processed
    | Fail(s: int)                        // a statement fails: the exit handler sets status failed
    | Die(s: int)                         // the call ends and its handler takes no effect: the connection is lost,
                                          // or the handler's own UPDATE fails

  const START := State(map[], map[], map[])

  /** The unique key on `source_event_id`, which NULLs do not enter. */
  predicate Duplicate(inbox: map<int, Entry>, e: Event) {
    exists id :: id in inbox && SameEventId(inbox[id].event, e)
  }

  predicate Claimable(e: Entry) {
    e.status == Pending || e.status == Broken
  }

  function Eligible(inbox: map<int, Entry>): set<int> {
    set id | id in inbox && Claimable(inbox[id]) && inbox[id].attempts < MAX_ATTEMPTS
  }

  /** The ids a batch collects: the first eligible ones. */
  function BatchIds(inbox: map<int, Entry>, limit: nat): seq<int> {
    Ascending(FirstIds(Eligible(inbox), limit))
  }

  predicate HasWork(st: State, s: int) {
    s in st.sessions && st.sessions[s].work.Busy? && st.sessions[s].work.inboxId in st.inbox
  }

  predicate At(st: State, s: int) {
    s in st.sessions && st.sessions[s].work.Idle?
  }

  function WorkOf(st: State, s: int): Work
    requires s in st.sessions
  {
    st.sessions[s].work
  }

  predicate Enabled(c: Catalogs, st: State, step: Step) {
    match step
    case Write(id, _) => id !in st.inbox
    case Connect(s) => s !in st.sessions
    case Snapshot(s, _) => At(st, s) && st.sessions[s].todo == []
    case Next(s) => At(st, s) && st.sessions[s].todo != []
    case Call(s, _) => At(st, s) && st.sessions[s].todo == []
    case Insert(s, h) =>
      && HasWork(st, s) && WorkOf(st, s).stage.Claimed?
      && Route(st.inbox[WorkOf(st, s).inboxId].event, c).Some?
      && Target(Route(st.inbox[WorkOf(st, s).inboxId].event, c).value, h) !in st.history
    case Upsert(s) => HasWork(st, s) && WorkOf(st, s).stage.Inserted?
    case Mark(s) => HasWork(st, s) && WorkOf(st, s).stage.Upserted? && WorkOf(st, s).stage.target in st.history
    case Fail(s) => HasWork(st, s)
    case Die(s) => s in st.sessions
  }

  function SetWork(st: State, s: int, w: Work): State
    requires s in st.sessions
  {
    st.(sessions := st.sessions[s := st.sessions[s].(work := w)])
  }

  function SetEntry(st: State, id: int, e: Entry): State {
    st.(inbox := st.inbox[id := e])
  }

  /** The claiming UPDATE: it takes a pending or failed event and counts the attempt; otherwise the call ends. */
  function Claim(st: State, s: int, id: int): State
    requires s in st.sessions
  {
    if id in st.inbox && Claimable(st.inbox[id]) then
      SetWork(SetEntry(st, id, st.inbox[id].(status := Processing, attempts := st.inbox[id].attempts + 1)), s,
          Busy(id, Claimed))
    else st
  }

  function SetTodo(st: State, s: int, todo: seq<int>): State
    requires s in st.sessions
  {
    st.(sessions := st.sessions[s := st.sessions[s].(todo := todo)])
  }

  function InsertRow(c: Catalogs, st: State, s: int, h: int): State
    requires Enabled(c, st, Insert(s, h))
  {
    var id := WorkOf(st, s).inboxId;
    var e := st.inbox[id].event;
    var t := Target(Route(e, c).value, h);
    SetWork(st.(history := st.history[t := Written(id, Derive(e, c, t.table))]), s, Busy(id, Inserted(t)))
  }

  function MarkProcessed(c: Catalogs, st: State, s: int): State
    requires Enabled(c, st, Mark(s))
  {
    var id, t := WorkOf(st, s).inboxId, WorkOf(st, s).stage.target;
    var mapped := Some(Mapped(t, st.history[t].row.faultType));
    SetWork(SetEntry(st, id, st.inbox[id].(status := Processed, mapped := mapped)), s, Idle)
  }

  function Apply(c: Catalogs, st: State, step: Step): State
    requires Enabled(c, st, step)
  {
    match step
    case Write(id, e) => if Duplicate(st.inbox, e) then st else SetEntry(st, id, Entry(e, Pending, 0, None))
    case Connect(s) => st.(sessions := st.sessions[s := Session([], Idle)])
    case Snapshot(s, limit) => SetTodo(st, s, BatchIds(st.inbox, limit))
    case Next(s) => Claim(SetTodo(st, s, st.sessions[s].todo[1..]), s, st.sessions[s].todo[0])
    case Call(s, id) => Claim(st, s, id)
    case Insert(s, h) => InsertRow(c, st, s, h)
    case Upsert(s) => SetWork(st, s, Busy(WorkOf(st, s).inboxId, Upserted(WorkOf(st, s).stage.target)))
    case Mark(s) => MarkProcessed(c, st, s)
    case Fail(s) =>
      var id := WorkOf(st, s).inboxId;
      SetWork(SetEntry(st, id, st.inbox[id].(status := Broken)), s, Idle)
    case Die(s) => st.(sessions := st.sessions - {s})
  }

  predicate Runs(c: Catalogs, st: State, steps: seq<Step>)
    decreases |steps|
  {
    steps == [] || (Enabled(c, st, steps[0]) && Runs(c, Apply(c, st, steps[0]), steps[1..]))
  }

  function After(c: Catalogs, st: State, steps: seq<Step>): State
    requires Runs(c, st, steps)
    decreases |steps|
  {
    if steps == [] then st else After(c, Apply(c, st, steps[0]), steps[1..])
  }

  lemma EmptyRun(c: Catalogs, st: State)
    ensures Runs(c, st, []) && After(c, st, []) == st
  {
  }

  lemma OneStep(c: Catalogs, st: State, step: Step)
    requires Enabled(c, st, step)
    ensures Runs(c, st, [step]) && After(c, st, [step]) == Apply(c, st, step)
  {
    hide Enabled, Apply;
    assert [step][1..] == [];
  }

  lemma ConsRun(c: Catalogs, st: State, step: Step, rest: seq<Step>)
    requires Enabled(c, st, step) && Runs(c, Apply(c, st, step), rest)
    ensures Runs(c, st, [step] + rest) && After(c, st, [step] + rest) == After(c, Apply(c, st, step), rest)
  {
    hide Enabled, Apply;
    assert ([step] + rest)[1..] == rest;
  }

  lemma {:induction false} RunAppend(c: Catalogs, st: State, a: seq<Step>, b: seq<Step>)
    requires Runs(c, st, a) && Runs(c, After(c, st, a), b)
    ensures Runs(c, st, a + b) && After(c, st, a + b) == After(c, After(c, st, a), b)
    decreases |a|
  {
    hide Apply, Enabled;
    if a == [] {
      assert a + b == b;
    } else {
      RunAppend(c, Apply(c, st, a[0]), a[1..], b);
      assert (a + b)[0] == a[0] && (a + b)[1..] == a[1..] + b;
    }
  }

  // ---- the invariant ----

  predicate HeldBy(st: State, s: int, id: int) {
    s in st.sessions && st.sessions[s].work.Busy? && st.sessions[s].work.inboxId == id
  }

  /** A session works only on events in `processing`, and no two on the same. */
  ghost predicate Exclusive(st: State) {
    && (forall s, id :: HeldBy(st, s, id) ==> id in st.inbox && st.inbox[id].status == Processing)
    && (forall s, t, id :: HeldBy(st, s, id) && HeldBy(st, t, id) ==> s == t)
  }

  /** The history row `t` is the one derived from event `id`. */
  ghost predicate Derived(c: Catalogs, st: State, t: Target, id: int) {
    && t in st.history && id in st.inbox
    && Route(st.inbox[id].event, c) == Some(t.table)
    && st.history[t] == Written(id, Derive(st.inbox[id].event, c, t.table))
  }

  ghost predicate RowsDerived(c: Catalogs, st: State) {
    forall t :: t in st.history ==> Derived(c, st, t, st.history[t].inboxId)
  }

  /** The row a session has written is there. */
  ghost predicate StagesDerived(c: Catalogs, st: State) {
    forall s, id :: HeldBy(st, s, id) && !st.sessions[s].work.stage.Claimed? ==>
      Derived(c, st, st.sessions[s].work.stage.target, id)
  }

  /** Exactly the processed events are mapped, to their row. */
  ghost predicate MappedDerived(c: Catalogs, st: State) {
    forall id :: id in st.inbox ==> WellMapped(c, st, id)
  }

  ghost predicate WellMapped(c: Catalogs, st: State, id: int)
    requires id in st.inbox
  {
    var e := st.inbox[id];
    && (e.mapped.Some? <==> e.status == Processed)
    && (e.mapped.Some? ==>
          && e.mapped.value.target in st.history && Derived(c, st, e.mapped.value.target, id)
          && e.mapped.value.faultType == st.history[e.mapped.value.target].row.faultType)
  }

  function RowsOf(st: State, id: int): set<Target> {
    set t | t in st.history && st.history[t].inboxId == id
  }

  ghost predicate InHand(st: State, id: int) {
    exists s :: HeldBy(st, s, id) && st.sessions[s].work.stage.Claimed?
  }

  /** An event has at most one row for each attempt, the attempt still to write its row not counted. */
  ghost predicate Counted(st: State) {
    forall id :: id in st.inbox ==> |RowsOf(st, id)| + (if InHand(st, id) then 1 else 0) <= st.inbox[id].attempts
  }

  predicate SameEventId(a: Event, b: Event) {
    a.sourceEventId.Some? && a.sourceEventId == b.sourceEventId
  }

  /** No two events share an event id. */
  ghost predicate Unique(st: State) {
    forall a, b :: a in st.inbox && b in st.inbox && SameEventId(st.inbox[a].event, st.inbox[b].event) ==> a == b
  }

  ghost predicate Inv(c: Catalogs, st: State) {
    Exclusive(st) && RowsDerived(c, st) && StagesDerived(c, st) && MappedDerived(c, st) && Counted(st) && Unique(st)
  }

  // ---- every step keeps it ----

  /** Events never leave the inbox and never change. */
  lemma EventsStay(c: Catalogs, st: State, step: Step, id: int)
    requires Enabled(c, st, step) && id in st.inbox
    ensures id in Apply(c, st, step).inbox && Apply(c, st, step).inbox[id].event == st.inbox[id].event
    ensures Apply(c, st, step).inbox[id].attempts >= st.inbox[id].attempts
  {
    hide Route, Derive, Duplicate;
  }

  /** History rows stay as they are. */
  lemma RowsStay(c: Catalogs, st: State, step: Step, t: Target)
    requires Enabled(c, st, step) && t in st.history
    ensures t in Apply(c, st, step).history && Apply(c, st, step).history[t] == st.history[t]
  {
    hide Route, Derive, Duplicate;
  }

  lemma DerivedStays(c: Catalogs, st: State, step: Step, t: Target, id: int)
    requires Enabled(c, st, step) && Derived(c, st, t, id)
    ensures Derived(c, Apply(c, st, step), t, id)
  {
    hide Route, Derive, Apply, Enabled;
    EventsStay(c, st, step, id);
    RowsStay(c, st, step, t);
  }

  predicate Takes(st: State, step: Step, s: int, id: int) {
    && (step.Next? || step.Call?) && step.s == s && id in st.inbox && Claimable(st.inbox[id])
  }

  /** A session comes to hold an event only by claiming it, and lets go of it only by ending its call. */
  lemma HoldOrigin(c: Catalogs, st: State, step: Step, s: int, id: int)
    requires Enabled(c, st, step) && HeldBy(Apply(c, st, step), s, id)
    ensures HeldBy(st, s, id) || Takes(st, step, s, id)
    ensures HeldBy(st, s, id) ==> !((step.Mark? || step.Fail?) && step.s == s) && !Takes(st, step, s, id)
    ensures Takes(st, step, s, id) ==> Apply(c, st, step).inbox[id].status == Processing
  {
    hide Route, Derive, Duplicate, BatchIds;
  }

  lemma EntryOrigin(c: Catalogs, st: State, step: Step, id: int)
    requires Enabled(c, st, step) && id in st.inbox && Apply(c, st, step).inbox[id] != st.inbox[id]
    ensures Claimable(st.inbox[id]) || ((step.Mark? || step.Fail?) && HeldBy(st, step.s, id))
  {
    hide Route, Derive, Duplicate, BatchIds;
    EventsStay(c, st, step, id);
  }

  lemma ExclusiveKept(c: Catalogs, st: State, step: Step)
    requires Enabled(c, st, step) && Exclusive(st)
    ensures Exclusive(Apply(c, st, step))
  {
    hide Apply, Enabled;
    var st' := Apply(c, st, step);
    forall s, id | HeldBy(st', s, id) ensures id in st'.inbox && st'.inbox[id].status == Processing {
      HoldOrigin(c, st, step, s, id);
      EventsStay(c, st, step, id);
      if HeldBy(st, s, id) && st'.inbox[id] != st.inbox[id] {
        EntryOrigin(c, st, step, id);
      }
    }
    forall s, t, id | HeldBy(st', s, id) && HeldBy(st', t, id) ensures s == t {
      HoldOrigin(c, st, step, s, id);
      HoldOrigin(c, st, step, t, id);
    }
  }

  lemma RowsDerivedKept(c: Catalogs, st: State, step: Step)
    requires Enabled(c, st, step) && RowsDerived(c, st)
    ensures RowsDerived(c, Apply(c, st, step))
  {
    hide Derived, Route, Derive, Duplicate;
    var st' := Apply(c, st, step);
    forall t | t in st'.history ensures Derived(c, st', t, st'.history[t].inboxId) {
      if t in st.history {
        RowsStay(c, st, step, t);
        DerivedStays(c, st, step, t, st.history[t].inboxId);
      } else {
        NewRow(c, st, step, t);
      }
    }
  }

  lemma NewRow(c: Catalogs, st: State, step: Step, t: Target)
    requires Enabled(c, st, step) && t in Apply(c, st, step).history && t !in st.history
    ensures step.Insert? && Derived(c, Apply(c, st, step), t, WorkOf(st, step.s).inboxId)
    ensures Apply(c, st, step).history == st.history[t := Apply(c, st, step).history[t]]
    ensures Apply(c, st, step).history[t].inboxId == WorkOf(st, step.s).inboxId && Apply(c, st, step).inbox == st.inbox
    ensures Apply(c, st, step).sessions[step.s].work == Busy(WorkOf(st, step.s).inboxId, Inserted(t))
  {
    hide Route, Derive, Duplicate;
  }

  lemma StagesDerivedKept(c: Catalogs, st: State, step: Step)
    requires Enabled(c, st, step) && StagesDerived(c, st)
    ensures StagesDerived(c, Apply(c, st, step))
  {
    hide Derived, Route, Derive, Duplicate, BatchIds;
    var st' := Apply(c, st, step);
    forall s, id | HeldBy(st', s, id) && !st'.sessions[s].work.stage.Claimed?
      ensures Derived(c, st', st'.sessions[s].work.stage.target, id)
    {
      if step.Insert? && step.s == s {
        NewRow(c, st, step, st'.sessions[s].work.stage.target);
      } else {
        assert HeldBy(st, s, id) && !st.sessions[s].work.stage.Claimed?;
        assert st.sessions[s].work.stage.target == st'.sessions[s].work.stage.target;
        DerivedStays(c, st, step, st.sessions[s].work.stage.target, id);
      }
    }
  }

  lemma MappedDerivedKept(c: Catalogs, st: State, step: Step)
    requires Enabled(c, st, step) && Inv(c, st)
    ensures MappedDerived(c, Apply(c, st, step))
  {
    hide Route, Derive, Duplicate, BatchIds, Derived;
    var st' := Apply(c, st, step);
    forall id | id in st'.inbox ensures WellMapped(c, st', id) {
      assert id in st.inbox ==> WellMapped(c, st, id);
      if id in st.inbox && st.inbox[id].status == Processed {
        ProcessedStays(c, st, step, id);
        DerivedStays(c, st, step, st.inbox[id].mapped.value.target, id);
        RowsStay(c, st, step, st.inbox[id].mapped.value.target);
      } else if step.Mark? && HeldBy(st, step.s, id) {
        DerivedStays(c, st, step, st.sessions[step.s].work.stage.target, id);
      }
    }
  }

  /** A processed event is never touched again, whoever calls the procedure for it or writes its id again. */
  lemma ProcessedStays(c: Catalogs, st: State, step: Step, id: int)
    requires Enabled(c, st, step) && Exclusive(st) && id in st.inbox && st.inbox[id].status == Processed
    ensures id in Apply(c, st, step).inbox && Apply(c, st, step).inbox[id] == st.inbox[id]
  {
    hide Apply, Enabled;
    EventsStay(c, st, step, id);
    if Apply(c, st, step).inbox[id] != st.inbox[id] {
      EntryOrigin(c, st, step, id);
    }
  }

  lemma UniqueKept(c: Catalogs, st: State, step: Step)
    requires Enabled(c, st, step) && Unique(st)
    ensures Unique(Apply(c, st, step))
  {
    hide Apply, Enabled, Duplicate;
    var st' := Apply(c, st, step);
    forall a, b | a in st'.inbox && b in st'.inbox && SameEventId(st'.inbox[a].event, st'.inbox[b].event)
      ensures a == b
    {
      NewEntry(c, st, step, a);
      NewEntry(c, st, step, b);
      if a in st.inbox { EventsStay(c, st, step, a); }
      if b in st.inbox { EventsStay(c, st, step, b); }
    }
  }

  lemma NewEntry(c: Catalogs, st: State, step: Step, id: int)
    requires Enabled(c, st, step) && id in Apply(c, st, step).inbox
    ensures id in st.inbox || (step == Write(id, Apply(c, st, step).inbox[id].event)
                               && forall a :: a in st.inbox ==>
                                   !SameEventId(st.inbox[a].event, Apply(c, st, step).inbox[id].event))
    ensures id !in st.inbox ==> Apply(c, st, step).inbox[id].attempts == 0
  {
    hide Route, Derive, BatchIds;
  }

  // ---- counting rows ----

  lemma RowsOfNew(st: State, st': State, t: Target, id: int)
    requires t !in st.history && t in st'.history && st'.history == st.history[t := st'.history[t]]
    ensures |RowsOf(st', id)| == |RowsOf(st, id)| + if st'.history[t].inboxId == id then 1 else 0
  {
    if st'.history[t].inboxId == id {
      assert RowsOf(st', id) == RowsOf(st, id) + {t};
    } else {
      assert RowsOf(st', id) == RowsOf(st, id);
    }
  }

  lemma HistoryChange(c: Catalogs, st: State, step: Step)
    requires Enabled(c, st, step)
    ensures !step.Insert? ==> Apply(c, st, step).history == st.history
    ensures step.Insert? ==> exists t :: t !in st.history && t in Apply(c, st, step).history
  {
    hide Route, Derive, Duplicate, BatchIds;
    if step.Insert? {
      var t := Target(Route(st.inbox[WorkOf(st, step.s).inboxId].event, c).value, step.historyId);
      assert t !in st.history && t in Apply(c, st, step).history;
    }
  }

  /** An event in hand was in hand before, or is being claimed and its attempt counted. */
  lemma InHandOrigin(c: Catalogs, st: State, step: Step, id: int)
    requires Enabled(c, st, step) && Exclusive(st) && id in st.inbox && InHand(Apply(c, st, step), id)
    ensures InHand(st, id) || Apply(c, st, step).inbox[id].attempts == st.inbox[id].attempts + 1
    ensures !(step.Insert? && HeldBy(st, step.s, id))
  {
    hide Route, Derive, Duplicate, BatchIds;
    var st' := Apply(c, st, step);
    var s :| HeldBy(st', s, id) && st'.sessions[s].work.stage.Claimed?;
    HoldOrigin(c, st, step, s, id);
    if HeldBy(st, s, id) {
      assert st.sessions[s].work.stage.Claimed?;
    }
  }

  lemma CountedKept(c: Catalogs, st: State, step: Step)
    requires Enabled(c, st, step) && Inv(c, st)
    ensures Counted(Apply(c, st, step))
  {
    hide Apply, Enabled, InHand, RowsOf, RowsDerived, StagesDerived, MappedDerived, Unique, Derived;
    var st' := Apply(c, st, step);
    HistoryChange(c, st, step);
    forall id | id in st'.inbox
      ensures |RowsOf(st', id)| + (if InHand(st', id) then 1 else 0)
        <= st'.inbox[id].attempts
    {
      if id in st.inbox {
        EventsStay(c, st, step, id);
        if InHand(st', id) { InHandOrigin(c, st, step, id); }
        if step.Insert? {
          var t :| t !in st.history && t in st'.history;
          NewRow(c, st, step, t);
          RowsOfNew(st, st', t, id);
          WriterInHand(c, st, step);
        } else {
          RowsOfSame(st, st', id);
        }
      } else {
        NewEntry(c, st, step, id);
        NobodyHolds(c, st, step, id);
      }
    }
  }

  lemma WriterInHand(c: Catalogs, st: State, step: Step)
    requires Enabled(c, st, step) && step.Insert?
    ensures HeldBy(st, step.s, WorkOf(st, step.s).inboxId) && InHand(st, WorkOf(st, step.s).inboxId)
  {
    hide Route;
    assert HeldBy(st, step.s, WorkOf(st, step.s).inboxId) && st.sessions[step.s].work.stage.Claimed?;
  }

  lemma RowsOfSame(st: State, st': State, id: int)
    requires st'.history == st.history
    ensures RowsOf(st', id) == RowsOf(st, id)
  {
  }

  /** A new event has no row and no holder. */
  lemma NobodyHolds(c: Catalogs, st: State, step: Step, id: int)
    requires Enabled(c, st, step) && Exclusive(st) && RowsDerived(c, st) && id !in st.inbox
      && id in Apply(c, st, step).inbox
    ensures RowsOf(Apply(c, st, step), id) == {} && !InHand(Apply(c, st, step), id)
  {
    hide Route, Derive, Duplicate;
    NewEntry(c, st, step, id);
    assert Apply(c, st, step).sessions == st.sessions && Apply(c, st, step).history == st.history;
    forall t | t in st.history ensures st.history[t].inboxId != id {
      assert Derived(c, st, t, st.history[t].inboxId);
    }
    forall s ensures !HeldBy(st, s, id) { }
    assert forall s :: HeldBy(Apply(c, st, step), s, id) <==> HeldBy(st, s, id);
  }

  lemma StepKeeps(c: Catalogs, st: State, step: Step)
    requires Enabled(c, st, step) && Inv(c, st)
    ensures Inv(c, Apply(c, st, step))
  {
    hide Apply, Enabled, Exclusive, RowsDerived, StagesDerived, MappedDerived, Counted, Unique;
    ExclusiveKept(c, st, step);
    RowsDerivedKept(c, st, step);
    StagesDerivedKept(c, st, step);
    MappedDerivedKept(c, st, step);
    CountedKept(c, st, step);
    UniqueKept(c, st, step);
  }
}

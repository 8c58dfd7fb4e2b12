/** What holds over all runs of the WCS inbox, with any interleaving of sessions. */
module WcsRuns {
  import opened Options
  import opened WcsCatalog
  import opened WcsInbox

  lemma StartIsSound(c: Catalogs)
    ensures Inv(c, START)
  {
  }

  lemma {:induction false} RunKeeps(c: Catalogs, st: State, steps: seq<Step>)
    requires Inv(c, st) && Runs(c, st, steps)
    ensures Inv(c, After(c, st, steps))
    decreases |steps|
  {
    hide Inv, Apply, Enabled;
    if steps != [] {
      StepKeeps(c, st, steps[0]);
      RunKeeps(c, Apply(c, st, steps[0]), steps[1..]);
    }
  }

  /** At any time at most one session holds an event, and only an event in `processing`. */
  lemma OneHolder(c: Catalogs, steps: seq<Step>, s: int, t: int, id: int)
    requires Runs(c, START, steps)
    ensures var st := After(c, START, steps);
      && (HeldBy(st, s, id) ==> id in st.inbox && st.inbox[id].status == Processing)
      && (HeldBy(st, s, id) && HeldBy(st, t, id) ==> s == t)
  {
    StartIsSound(c);
    RunKeeps(c, START, steps);
  }

  /**
   Whatever the inbox procedures do next, a processed event keeps its status, its mapping and the row
   written for it.
   */
  lemma {:induction false} ProcessedForever(c: Catalogs, st: State, steps: seq<Step>, id: int)
    requires Inv(c, st) && Runs(c, st, steps) && id in st.inbox && st.inbox[id].status == Processed
    ensures var end := After(c, st, steps);
      && id in end.inbox && end.inbox[id] == st.inbox[id]
      && st.inbox[id].mapped.Some?
      && var t := st.inbox[id].mapped.value.target;
      t in st.history && t in end.history && end.history[t] == st.history[t]
    decreases |steps|
  {
    hide Apply, Enabled;
    assert WellMapped(c, st, id);
    if steps != [] {
      ProcessedStays(c, st, steps[0], id);
      RowsStay(c, st, steps[0], st.inbox[id].mapped.value.target);
      StepKeeps(c, st, steps[0]);
      ProcessedForever(c, Apply(c, st, steps[0]), steps[1..], id);
    }
  }

  /** An event counts as written already exactly when the inbox has its id; one without an id never does. */
  lemma DuplicateExactly(inbox: map<int, Entry>, e: Event)
    ensures Duplicate(inbox, e) <==>
      exists id, t :: id in inbox && e.sourceEventId == Some(t) && inbox[id].event.sourceEventId == Some(t)
  {
    if Duplicate(inbox, e) {
      var id :| id in inbox && SameEventId(inbox[id].event, e);
      var t := e.sourceEventId.value;
      assert inbox[id].event.sourceEventId == Some(t);
    }
    if id, t :| id in inbox && e.sourceEventId == Some(t) && inbox[id].event.sourceEventId == Some(t) {
      assert SameEventId(inbox[id].event, e);
    }
  }

  /** However often events are written, no two entries of the inbox have the same event id. */
  lemma EventIdsUnique(c: Catalogs, steps: seq<Step>, a: int, b: int)
    requires Runs(c, START, steps) && a in After(c, START, steps).inbox && b in After(c, START, steps).inbox
    ensures var inbox := After(c, START, steps).inbox;
      a != b && inbox[a].event.sourceEventId.Some? ==> inbox[a].event.sourceEventId != inbox[b].event.sourceEventId
  {
    StartIsSound(c);
    RunKeeps(c, START, steps);
    var inbox := After(c, START, steps).inbox;
    assert SameEventId(inbox[a].event, inbox[b].event) ==> a == b;
  }

  /** A processed event points to an existing row of its table, derived from the event itself. */
  lemma ProcessedPointsToItsRow(c: Catalogs, steps: seq<Step>, id: int)
    requires Runs(c, START, steps)
    ensures var st := After(c, START, steps);
      id in st.inbox && st.inbox[id].status == Processed ==>
        && st.inbox[id].mapped.Some?
        && var t := st.inbox[id].mapped.value.target;
        && t in st.history
        && Route(st.inbox[id].event, c) == Some(t.table)
        && st.history[t] == Written(id, Derive(st.inbox[id].event, c, t.table))
  {
    StartIsSound(c);
    RunKeeps(c, START, steps);
    var st := After(c, START, steps);
    assert id in st.inbox ==> WellMapped(c, st, id);
  }

  /** An event has at most as many history rows as attempts; a processed one has at least one. */
  lemma RowsWithinAttempts(c: Catalogs, steps: seq<Step>, id: int)
    requires Runs(c, START, steps) && id in After(c, START, steps).inbox
    ensures var st := After(c, START, steps);
      && |RowsOf(st, id)| <= st.inbox[id].attempts
      && (st.inbox[id].status == Processed ==> RowsOf(st, id) != {})
  {
    hide Derive, Route, InHand;
    StartIsSound(c);
    RunKeeps(c, START, steps);
    var st := After(c, START, steps);
    assert WellMapped(c, st, id);
    if st.inbox[id].status == Processed {
      assert st.inbox[id].mapped.value.target in RowsOf(st, id);
    }
  }

  // ---- events without a table ----

  /**
   An event without a history table writes no row and is never processed; a session that has claimed it
   can only fail or be lost.
   */
  lemma UnmappedNeverProcessed(c: Catalogs, steps: seq<Step>, id: int, next: Step)
    requires Runs(c, START, steps) && id in After(c, START, steps).inbox
    requires Route(After(c, START, steps).inbox[id].event, c).None?
    ensures var st := After(c, START, steps);
      && RowsOf(st, id) == {} && st.inbox[id].status != Processed
      && (Enabled(c, st, next) && (next.Insert? || next.Upsert? || next.Mark?) ==> !HeldBy(st, next.s, id))
  {
    hide Derive, Route, Counted, Unique;
    StartIsSound(c);
    RunKeeps(c, START, steps);
    var st := After(c, START, steps);
    assert WellMapped(c, st, id);
    forall t | t in st.history ensures st.history[t].inboxId != id {
      assert Derived(c, st, t, st.history[t].inboxId);
    }
  }

  /** The event is in `processing`, and no connection works on it. */
  ghost predicate Orphan(st: State, id: int) {
    id in st.inbox && st.inbox[id].status == Processing && forall s :: !HeldBy(st, s, id)
  }

  /** Some call ended without its handler while it held the event. */
  predicate DiedHolding(c: Catalogs, st: State, steps: seq<Step>, id: int)
    requires Runs(c, st, steps)
    decreases |steps|
  {
    steps != [] && ((steps[0].Die? && HeldBy(st, steps[0].s, id))
        || DiedHolding(c, Apply(c, st, steps[0]), steps[1..], id))
  }

  /** Short of losing its connection, a holder stays the holder until its call ends. */
  lemma HolderStays(c: Catalogs, st: State, step: Step, s: int, id: int)
    requires Enabled(c, st, step) && HeldBy(st, s, id) && step != Die(s)
    ensures HeldBy(Apply(c, st, step), s, id)
         || ((step.Mark? || step.Fail?) && step.s == s && id in Apply(c, st, step).inbox
             && Apply(c, st, step).inbox[id].status != Processing)
  {
    hide Route, Derive, Duplicate, BatchIds;
  }

  /** An event comes into `processing` only in the hands of the connection that claims it. */
  lemma ProcessingOrigin(c: Catalogs, st: State, step: Step, id: int)
    requires Enabled(c, st, step) && id in Apply(c, st, step).inbox && Apply(c, st, step).inbox[id].status == Processing
    ensures id in st.inbox
    ensures st.inbox[id].status != Processing ==> (step.Next? || step.Call?) && HeldBy(Apply(c, st, step), step.s, id)
  {
    hide Route, Derive, Duplicate, BatchIds;
  }

  lemma OrphanStep(c: Catalogs, st: State, step: Step, id: int)
    requires Enabled(c, st, step) && Exclusive(st)
    ensures Orphan(Apply(c, st, step), id) <==> Orphan(st, id) || (step.Die? && HeldBy(st, step.s, id))
  {
    hide Apply, Enabled;
    var st' := Apply(c, st, step);
    if Orphan(st, id) {
      EventsStay(c, st, step, id);
      if st'.inbox[id] != st.inbox[id] {
        EntryOrigin(c, st, step, id);
      }
      forall s ensures !HeldBy(st', s, id) {
        if HeldBy(st', s, id) { HoldOrigin(c, st, step, s, id); }
      }
    } else if step.Die? && HeldBy(st, step.s, id) {
      DeathOrphans(c, st, step.s, id);
    } else if Orphan(st', id) {
      ProcessingOrigin(c, st, step, id);
      var s :| HeldBy(st, s, id);
      HolderStays(c, st, step, s, id);
    }
  }

  lemma DeathOrphans(c: Catalogs, st: State, s: int, id: int)
    requires Enabled(c, st, Die(s)) && Exclusive(st) && HeldBy(st, s, id)
    ensures Orphan(Apply(c, st, Die(s)), id)
  {
    forall t ensures !HeldBy(Apply(c, st, Die(s)), t, id) {
      assert HeldBy(Apply(c, st, Die(s)), t, id) ==> HeldBy(st, t, id) && t != s;
    }
  }

  lemma {:induction false} OrphansOf(c: Catalogs, st: State, steps: seq<Step>, id: int)
    requires Runs(c, st, steps) && Exclusive(st)
    ensures Orphan(After(c, st, steps), id) <==> Orphan(st, id) || DiedHolding(c, st, steps, id)
    decreases |steps|
  {
    hide Apply, Enabled, Exclusive, Orphan, HeldBy;
    if steps != [] {
      OrphanStep(c, st, steps[0], id);
      ExclusiveKept(c, st, steps[0]);
      OrphansOf(c, Apply(c, st, steps[0]), steps[1..], id);
    }
  }

  ghost predicate Begun(st: State) {
    forall id :: id in st.inbox && st.inbox[id].attempts > 0 ==> st.inbox[id].status != Pending
  }

  lemma BegunKept(c: Catalogs, st: State, step: Step)
    requires Enabled(c, st, step) && Begun(st)
    ensures Begun(Apply(c, st, step))
  {
    hide Route, Derive, Duplicate, BatchIds;
  }

  lemma {:induction false} RunBegun(c: Catalogs, st: State, steps: seq<Step>)
    requires Runs(c, st, steps) && Begun(st)
    ensures Begun(After(c, st, steps))
    decreases |steps|
  {
    hide Apply, Enabled, Begun;
    if steps != [] {
      BegunKept(c, st, steps[0]);
      RunBegun(c, Apply(c, st, steps[0]), steps[1..]);
    }
  }

  /**
   After any run, an event nobody holds is in `processing` exactly when a call of it ended and its handler took
   no effect, because the connection was lost or the handler failed itself; otherwise, once attempted, it is
   processed or failed, and failed when it has no table. (A connection that lives on connects again.)
   */
  lemma AttemptsEnd(c: Catalogs, steps: seq<Step>, id: int)
    requires Runs(c, START, steps) && id in After(c, START, steps).inbox
    requires forall s :: !HeldBy(After(c, START, steps), s, id)
    ensures var e := After(c, START, steps).inbox[id];
      && (e.status == Processing <==> DiedHolding(c, START, steps, id))
      && (e.attempts > 0 && !DiedHolding(c, START, steps, id) ==>
            && (e.status == Processed || e.status == Broken)
            && (Route(e.event, c).None? ==> e.status == Broken))
  {
    hide Derive, Route, Apply, Enabled, DiedHolding;
    StartIsSound(c);
    OrphansOf(c, START, steps, id);
    RunBegun(c, START, steps);
    if Route(After(c, START, steps).inbox[id].event, c).None? {
      UnmappedNeverProcessed(c, steps, id, Connect(0));
    }
  }

  /** This does happen: a connection lost after the claim leaves its event in `processing`. */
  lemma LossHangs(c: Catalogs, e: Event)
    ensures var steps := [Write(1, e)] + ([Connect(0)] + ([Call(0, 1)] + [Die(0)]));
      Runs(c, START, steps) && DiedHolding(c, START, steps, 1) && Orphan(After(c, START, steps), 1)
  {
    hide Runs, After, DiedHolding, Orphan;
    var a := Apply(c, START, Write(1, e));
    var b := Apply(c, a, Connect(0));
    var d := Apply(c, b, Call(0, 1));
    assert HeldBy(d, 0, 1);
    OneStep(c, d, Die(0));
    ConsRun(c, b, Call(0, 1), [Die(0)]);
    ConsRun(c, a, Connect(0), [Call(0, 1)] + [Die(0)]);
    ConsRun(c, START, Write(1, e), [Connect(0)] + ([Call(0, 1)] + [Die(0)]));
    var end := Apply(c, d, Die(0));
    assert Orphan(end, 1) by { HangsAfter(end); }
    StartIsSound(c);
    OrphansOf(c, START, [Write(1, e)] + ([Connect(0)] + ([Call(0, 1)] + [Die(0)])), 1);
    NoneHangs();
  }

  lemma HangsAfter(st: State)
    requires 1 in st.inbox && st.inbox[1].status == Processing && st.sessions == map[]
    ensures Orphan(st, 1)
  {
  }

  lemma NoneHangs()
    ensures !Orphan(START, 1)
  {
  }

  /** An event whose connection was lost stays in `processing` for ever: no call claims it again. */
  lemma {:induction false} LostStaysProcessing(c: Catalogs, st: State, steps: seq<Step>, id: int)
    requires Runs(c, st, steps) && Exclusive(st) && Orphan(st, id)
    ensures Orphan(After(c, st, steps), id) && After(c, st, steps).inbox[id] == st.inbox[id]
    decreases |steps|
  {
    hide Apply, Enabled, Exclusive, HeldBy;
    if steps != [] {
      OrphanStep(c, st, steps[0], id);
      OrphanUnchanged(c, st, steps[0], id);
      ExclusiveKept(c, st, steps[0]);
      LostStaysProcessing(c, Apply(c, st, steps[0]), steps[1..], id);
    }
  }

  lemma OrphanUnchanged(c: Catalogs, st: State, step: Step, id: int)
    requires Enabled(c, st, step) && Orphan(st, id)
    ensures id in Apply(c, st, step).inbox && Apply(c, st, step).inbox[id] == st.inbox[id]
  {
    hide Apply, Enabled;
    EventsStay(c, st, step, id);
    if Apply(c, st, step).inbox[id] != st.inbox[id] {
      EntryOrigin(c, st, step, id);
    }
  }

  // ---- how many rows ----

  /** The step ends a call of the event before its history row is written. */
  predicate EndsEarly(st: State, step: Step, id: int) {
    (step.Fail? || step.Die?) && HeldBy(st, step.s, id) && st.sessions[step.s].work.stage.Claimed?
  }

  function EarlyEnds(c: Catalogs, st: State, steps: seq<Step>, id: int): nat
    requires Runs(c, st, steps)
    decreases |steps|
  {
    if steps == [] then 0
    else (if EndsEarly(st, steps[0], id) then 1 else 0) + EarlyEnds(c, Apply(c, st, steps[0]), steps[1..], id)
  }

  predicate Claims(st: State, step: Step, id: int) {
    && id in st.inbox && Claimable(st.inbox[id])
    && (step.Call? || (step.Next? && At(st, step.s) && st.sessions[step.s].todo != []))
    && id == if step.Call? then step.id else st.sessions[step.s].todo[0]
  }

  lemma AttemptsNext(c: Catalogs, st: State, step: Step, id: int)
    requires Enabled(c, st, step) && id in st.inbox
    ensures id in Apply(c, st, step).inbox
    ensures Apply(c, st, step).inbox[id].attempts == st.inbox[id].attempts + if Claims(st, step, id) then 1 else 0
    ensures Claims(st, step, id) ==> InHand(Apply(c, st, step), id)
  {
    hide Route, Derive, Duplicate, BatchIds;
    if Claims(st, step, id) {
      assert HeldBy(Apply(c, st, step), step.s, id);
    }
  }

  /** An event stays in hand until its row is written or its call ends. */
  lemma HandStays(c: Catalogs, st: State, step: Step, id: int)
    requires Enabled(c, st, step) && InHand(st, id) && !EndsEarly(st, step, id)
      && !(step.Insert? && HeldBy(st, step.s, id))
    ensures InHand(Apply(c, st, step), id)
  {
    hide Route, Derive, Duplicate, BatchIds;
    var s :| HeldBy(st, s, id) && st.sessions[s].work.stage.Claimed?;
    assert HeldBy(Apply(c, st, step), s, id) && Apply(c, st, step).sessions[s].work.stage.Claimed?;
  }

  lemma HandLeft(c: Catalogs, st: State, step: Step, id: int)
    requires Enabled(c, st, step) && Exclusive(st) && EndsEarly(st, step, id)
    ensures InHand(st, id) && !InHand(Apply(c, st, step), id)
  {
    hide Route, Derive, Duplicate, BatchIds;
    forall s ensures !HeldBy(Apply(c, st, step), s, id) {
      if HeldBy(Apply(c, st, step), s, id) { HoldOrigin(c, st, step, s, id); }
    }
  }

  /** Attempts are rows written, calls that ended before their row, and the call still to write its row. */
  ghost predicate RowsCounted(st: State, id: int, early: nat) {
    if id in st.inbox then st.inbox[id].attempts == |RowsOf(st, id)| + early + (if InHand(st, id) then 1 else 0)
    else early == 0
  }

  lemma RowsNext(c: Catalogs, st: State, step: Step, id: int)
    requires Enabled(c, st, step)
    ensures |RowsOf(Apply(c, st, step), id)| == |RowsOf(st, id)| + if step.Insert? && HeldBy(st, step.s, id) then 1
      else 0
  {
    hide Apply, RowsOf, Derived, Route;
    HistoryChange(c, st, step);
    if step.Insert? {
      var t :| t !in st.history && t in Apply(c, st, step).history;
      NewRow(c, st, step, t);
      RowsOfNew(st, Apply(c, st, step), t, id);
      WriterInHand(c, st, step);
    } else {
      RowsOfSame(st, Apply(c, st, step), id);
    }
  }

  lemma RowsCountedKept(c: Catalogs, st: State, step: Step, id: int, early: nat)
    requires Enabled(c, st, step) && Inv(c, st) && RowsCounted(st, id, early)
    ensures RowsCounted(Apply(c, st, step), id, early + if EndsEarly(st, step, id) then 1 else 0)
  {
    hide Apply, Enabled, InHand, RowsOf, RowsDerived, StagesDerived, MappedDerived, Unique, Counted, Derived;
    var st' := Apply(c, st, step);
    if id in st.inbox {
      AttemptsNext(c, st, step, id);
      RowsNext(c, st, step, id);
      if Claims(st, step, id) {
        NotInHand(st, id);
      } else if EndsEarly(st, step, id) {
        HandLeft(c, st, step, id);
      } else if step.Insert? && HeldBy(st, step.s, id) {
        WriterInHand(c, st, step);
        if InHand(st', id) { InHandOrigin(c, st, step, id); }
      } else {
        if InHand(st', id) { InHandOrigin(c, st, step, id); }
        if InHand(st, id) { HandStays(c, st, step, id); }
      }
    } else {
      assert !EndsEarly(st, step, id);
      if id in st'.inbox {
        NewEntry(c, st, step, id);
        NobodyHolds(c, st, step, id);
      }
    }
  }

  lemma NotInHand(st: State, id: int)
    requires Exclusive(st) && id in st.inbox && st.inbox[id].status != Processing
    ensures !InHand(st, id)
  {
  }

  lemma {:induction false} RunCounted(c: Catalogs, st: State, steps: seq<Step>, id: int, early: nat)
    requires Runs(c, st, steps) && Inv(c, st) && RowsCounted(st, id, early)
    ensures RowsCounted(After(c, st, steps), id, early + EarlyEnds(c, st, steps, id))
    decreases |steps|
  {
    hide Apply, Enabled, Inv, RowsCounted, EndsEarly;
    if steps != [] {
      StepKeeps(c, st, steps[0]);
      RowsCountedKept(c, st, steps[0], id, early);
      RunCounted(c, Apply(c, st, steps[0]), steps[1..], id, early + if EndsEarly(st, steps[0], id) then 1 else 0);
    }
  }

  /**
   After any run, an event has exactly as many history rows as attempts, less those that failed or were lost
   before the INSERT, and less the attempt that has its INSERT still before it.
   */
  lemma RowsExactly(c: Catalogs, steps: seq<Step>, id: int)
    requires Runs(c, START, steps) && id in After(c, START, steps).inbox
    ensures var st := After(c, START, steps);
      |RowsOf(st, id)| == st.inbox[id].attempts - EarlyEnds(c, START, steps, id) - if InHand(st, id) then 1 else 0
  {
    hide Runs, After, InHand, Inv;
    StartIsSound(c);
    RunCounted(c, START, steps, id, 0);
  }
}

/** How often an event can be attempted, exactly. */
module WcsLimits {
  import opened Options
  import opened IdSets
  import opened WcsCatalog
  import opened WcsInbox

  /** Only the connections of `runners` run batches. */
  predicate BatchesOnly(runners: set<int>, steps: seq<Step>) {
    forall i :: 0 <= i < |steps| && steps[i].Snapshot? ==> steps[i].s in runners
  }

  /** How often the procedure is called directly for an id. */
  function Calls(steps: seq<Step>, id: int): nat {
    if steps == [] then 0 else CallOf(steps[0], id) + Calls(steps[1..], id)
  }

  function CallOf(step: Step, id: int): nat {
    if step.Call? && step.id == id then 1 else 0
  }

  /** The most attempts of an event that is called `calls` times. */
  function Most(runners: set<int>, calls: nat): nat {
    (if runners == {} then 0 else 4 + |runners|) + calls
  }

  // ---- never more ----

  /** The connections whose batch still has the id before it. */
  function Waiting(st: State, id: int): set<int> {
    set s | s in st.sessions && id in st.sessions[s].todo
  }

  function AttemptsOf(st: State, id: int): nat {
    if id in st.inbox then st.inbox[id].attempts else 0
  }

  /** Ids left to a batch are in the inbox, each once, and only runners have any. */
  ghost predicate BatchOf(st: State, runners: set<int>, s: int)
    requires s in st.sessions
  {
    var todo := st.sessions[s].todo;
    && (todo != [] ==> s in runners)
    && (forall i :: 0 <= i < |todo| ==> todo[i] in st.inbox)
    && (forall i, j :: 0 <= i < j < |todo| ==> todo[i] < todo[j])
  }

  ghost predicate Batches(st: State, runners: set<int>) {
    forall s :: s in st.sessions ==> BatchOf(st, runners, s)
  }

  lemma SnapshotIds(st: State, limit: nat)
    ensures var todo := BatchIds(st.inbox, limit);
      && (forall i :: 0 <= i < |todo| ==> todo[i] in st.inbox && st.inbox[todo[i]].attempts < MAX_ATTEMPTS)
      && (forall i, j :: 0 <= i < j < |todo| ==> todo[i] < todo[j])
  {
    var todo := BatchIds(st.inbox, limit);
    forall i | 0 <= i < |todo| ensures todo[i] in st.inbox && st.inbox[todo[i]].attempts < MAX_ATTEMPTS {
      assert todo[i] in todo && todo[i] in Eligible(st.inbox);
    }
  }

  lemma BatchesKept(c: Catalogs, st: State, step: Step, runners: set<int>)
    requires Enabled(c, st, step) && Batches(st, runners) && (step.Snapshot? ==> step.s in runners)
    ensures Batches(Apply(c, st, step), runners)
  {
    hide Route, Derive, Duplicate, BatchIds;
    var st' := Apply(c, st, step);
    forall s | s in st'.sessions ensures BatchOf(st', runners, s) {
      assert s in st.sessions ==> BatchOf(st, runners, s);
      if step.Snapshot? && step.s == s {
        SnapshotIds(st, step.limit);
      }
    }
  }

  lemma WaitingWithin(st: State, runners: set<int>, id: int)
    requires Batches(st, runners)
    ensures Waiting(st, id) <= runners && |Waiting(st, id)| <= |runners|
    ensures id !in st.inbox ==> Waiting(st, id) == {}
  {
    forall s | s in Waiting(st, id) ensures s in runners && id in st.inbox {
      assert BatchOf(st, runners, s);
      var i :| 0 <= i < |st.sessions[s].todo| && st.sessions[s].todo[i] == id;
    }
    SubsetSize(Waiting(st, id), runners);
  }

  /**
   A step uses up one waiting batch, or one direct call, or a fresh snapshot of an event with fewer than
   five attempts.
   */
  lemma AttemptStep(c: Catalogs, st: State, step: Step, runners: set<int>, id: int, calls: nat)
    requires Enabled(c, st, step) && Batches(st, runners) && (step.Snapshot? ==> step.s in runners)
    requires AttemptsOf(st, id) + |Waiting(st, id)| <= Most(runners, calls)
    ensures AttemptsOf(Apply(c, st, step), id) + |Waiting(Apply(c, st, step), id)|
      <= Most(runners, calls + CallOf(step, id))
  {
    hide Route, Derive, Duplicate, BatchIds, Batches;
    var st' := Apply(c, st, step);
    BatchesKept(c, st, step, runners);
    WaitingWithin(st', runners, id);
    match step {
      case Snapshot(s, limit) => SnapshotStep(c, st, s, limit, runners, id, calls);
      case Next(s) => NextStep(c, st, s, runners, id);
      case Die(s) =>
        assert Waiting(st', id) <= Waiting(st, id);
        SubsetSize(Waiting(st', id), Waiting(st, id));
      case Connect(s) =>
        assert Waiting(st', id) == Waiting(st, id);
      case Write(_, _) =>
        assert Waiting(st', id) == Waiting(st, id);
        WaitingWithin(st, runners, id);
      case _ =>
        assert Waiting(st', id) == Waiting(st, id);
    }
  }

  lemma SnapshotStep(c: Catalogs, st: State, s: int, limit: nat, runners: set<int>, id: int, calls: nat)
    requires Enabled(c, st, Snapshot(s, limit)) && Batches(st, runners) && s in runners
    requires AttemptsOf(st, id) + |Waiting(st, id)| <= Most(runners, calls)
    ensures var st' := Apply(c, st, Snapshot(s, limit));
      AttemptsOf(st', id) + |Waiting(st', id)| <= Most(runners, calls)
  {
    hide Batches, Route, Derive, BatchIds;
    var st' := Apply(c, st, Snapshot(s, limit));
    SnapshotIds(st, limit);
    BatchesKept(c, st, Snapshot(s, limit), runners);
    WaitingWithin(st', runners, id);
    var todo := BatchIds(st.inbox, limit);
    if id in todo {
      var i :| 0 <= i < |todo| && todo[i] == id;
      assert st'.sessions[s].todo == todo && s in Waiting(st', id);
      assert st.inbox[id].attempts < MAX_ATTEMPTS && st'.inbox == st.inbox;
      assert runners != {};
    } else {
      assert Waiting(st', id) <= Waiting(st, id);
      SubsetSize(Waiting(st', id), Waiting(st, id));
    }
  }

  lemma NextStep(c: Catalogs, st: State, s: int, runners: set<int>, id: int)
    requires Enabled(c, st, Next(s)) && Batches(st, runners)
    ensures var st' := Apply(c, st, Next(s));
      AttemptsOf(st', id) + |Waiting(st', id)| <= AttemptsOf(st, id) + |Waiting(st, id)|
  {
    var st' := Apply(c, st, Next(s));
    var todo := st.sessions[s].todo;
    assert BatchOf(st, runners, s);
    assert st'.sessions[s].todo == todo[1..] && todo == [todo[0]] + todo[1..];
    forall t | t in Waiting(st', id) ensures t in Waiting(st, id) {
      if t == s { assert id in todo[1..]; }
    }
    if todo[0] == id {
      forall j | 0 <= j < |todo[1..]| ensures todo[1..][j] != id { assert todo[j + 1] > todo[0]; }
      assert s in Waiting(st, id) && s !in Waiting(st', id);
      assert Waiting(st', id) <= Waiting(st, id) - {s};
      SubsetSize(Waiting(st', id), Waiting(st, id) - {s});
    } else {
      SubsetSize(Waiting(st', id), Waiting(st, id));
    }
  }

  lemma {:induction false} RunWithin(c: Catalogs, st: State, steps: seq<Step>, runners: set<int>, id: int, calls: nat)
    requires Runs(c, st, steps) && BatchesOnly(runners, steps) && Batches(st, runners)
    requires AttemptsOf(st, id) + |Waiting(st, id)| <= Most(runners, calls)
    ensures AttemptsOf(After(c, st, steps), id) <= Most(runners, calls + Calls(steps, id))
    decreases |steps|
  {
    hide Apply, Enabled, Batches, Most, Waiting, AttemptsOf, CallOf;
    if steps != [] {
      var st' := Apply(c, st, steps[0]);
      assert BatchesOnly(runners, steps[1..]) by {
        forall i | 0 <= i < |steps[1..]| && steps[1..][i].Snapshot? ensures steps[1..][i].s in runners {
          assert steps[1..][i] == steps[i + 1];
        }
      }
      BatchesKept(c, st, steps[0], runners);
      AttemptStep(c, st, steps[0], runners, id, calls);
      RunWithin(c, st', steps[1..], runners, id, calls + CallOf(steps[0], id));
    }
  }

  /**
   However many connections interleave, fail and are lost: an event has at most four attempts, one for each
   batch runner, and one for each direct call for it.
   */
  lemma AttemptsWithin(c: Catalogs, steps: seq<Step>, runners: set<int>, id: int)
    requires Runs(c, START, steps) && BatchesOnly(runners, steps) && id in After(c, START, steps).inbox
    ensures After(c, START, steps).inbox[id].attempts <= Most(runners, Calls(steps, id))
  {
    hide Runs, After;
    assert Waiting(START, id) == {};
    RunWithin(c, START, steps, runners, id, 0);
  }

  // ---- and as many as that ----

  /** Event `id`, attempted `n` times without success; of the connections, those in `waiting` have it before them. */
  function Lined(e: Event, id: int, n: nat, all: set<int>, waiting: set<int>): State {
    State(map[id := Entry(e, if n == 0 then Pending else Broken, n, None)], map[],
          map s | s in all :: Session(if s in waiting then [id] else [], Idle))
  }

  /** A run of the runners reaches the state with `calls` direct calls for the event and none for others. */
  ghost predicate Reached(c: Catalogs, runners: set<int>, id: int, calls: nat, st: State) {
    exists steps :: ReachedBy(c, runners, id, calls, st, steps)
  }

  ghost predicate ReachedBy(c: Catalogs, runners: set<int>, id: int, calls: nat, st: State, steps: seq<Step>) {
    && Runs(c, START, steps) && After(c, START, steps) == st && BatchesOnly(runners, steps)
    && Calls(steps, id) == calls && forall i :: 0 <= i < |steps| && steps[i].Call? ==> steps[i].id == id
  }

  lemma {:induction false} CallsSnoc(steps: seq<Step>, step: Step, id: int)
    ensures Calls(steps + [step], id) == Calls(steps, id) + CallOf(step, id)
  {
    if steps == [] {
      assert ([] + [step])[1..] == [];
    } else {
      assert (steps + [step])[1..] == steps[1..] + [step];
      CallsSnoc(steps[1..], step, id);
    }
  }

  lemma ReachedNext(c: Catalogs, runners: set<int>, id: int, calls: nat, st: State, step: Step, st': State)
    requires Reached(c, runners, id, calls, st) && Enabled(c, st, step) && Apply(c, st, step) == st'
    requires (step.Snapshot? ==> step.s in runners) && (step.Call? ==> step.id == id)
    ensures Reached(c, runners, id, calls + CallOf(step, id), st')
  {
    hide Runs, After, Enabled, Apply, Calls;
    var steps :| ReachedBy(c, runners, id, calls, st, steps);
    OneStep(c, st, step);
    RunAppend(c, START, steps, [step]);
    CallsSnoc(steps, step, id);
    assert ReachedBy(c, runners, id, calls + CallOf(step, id), st', steps + [step]);
  }

  lemma WrittenReached(c: Catalogs, runners: set<int>, e: Event, id: int)
    ensures Reached(c, runners, id, 0, Lined(e, id, 0, {}, {}))
  {
    EmptyRun(c, START);
    assert ReachedBy(c, runners, id, 0, START, []);
    assert Apply(c, START, Write(id, e)) == Lined(e, id, 0, {}, {});
    ReachedNext(c, runners, id, 0, START, Write(id, e), Lined(e, id, 0, {}, {}));
  }

  lemma {:induction false} ConnectedReached(c: Catalogs, runners: set<int>, e: Event, id: int, all: set<int>)
    ensures Reached(c, runners, id, 0, Lined(e, id, 0, all, {}))
    decreases |all|
  {
    hide Reached;
    if all == {} {
      WrittenReached(c, runners, e, id);
    } else {
      var s := Witness(all);
      ConnectedReached(c, runners, e, id, all - {s});
      var st := Lined(e, id, 0, all - {s}, {});
      assert Apply(c, st, Connect(s)).sessions == Lined(e, id, 0, all, {}).sessions;
      ReachedNext(c, runners, id, 0, st, Connect(s), Lined(e, id, 0, all, {}));
    }
  }

  lemma OneEligible(e: Event, id: int, n: nat, all: set<int>, waiting: set<int>)
    requires n < MAX_ATTEMPTS
    ensures BatchIds(Lined(e, id, n, all, waiting).inbox, 1) == [id]
  {
    assert Eligible(Lined(e, id, n, all, waiting).inbox) == {id};
    OneInOrder(id);
  }

  lemma SnapshotReached(c: Catalogs, runners: set<int>, e: Event, id: int, n: nat, all: set<int>, waiting: set<int>,
                        calls: nat, s: int)
    requires Reached(c, runners, id, calls, Lined(e, id, n, all, waiting))
    requires n < MAX_ATTEMPTS && s in all && s in runners && s !in waiting
    ensures Reached(c, runners, id, calls, Lined(e, id, n, all, waiting + {s}))
  {
    hide Reached, BatchIds;
    var st := Lined(e, id, n, all, waiting);
    OneEligible(e, id, n, all, waiting);
    assert Apply(c, st, Snapshot(s, 1)).sessions == Lined(e, id, n, all, waiting + {s}).sessions;
    ReachedNext(c, runners, id, calls, st, Snapshot(s, 1), Lined(e, id, n, all, waiting + {s}));
  }

  /** A claimed event whose call fails. */
  lemma FailReached(c: Catalogs, runners: set<int>, e: Event, id: int, n: nat, all: set<int>, waiting: set<int>,
                    calls: nat, s: int, claimed: State)
    requires s in all && s !in waiting && Reached(c, runners, id, calls, claimed)
    requires claimed.inbox == map[id := Entry(e, Processing, n + 1, None)] && claimed.history == map[]
    requires claimed.sessions == Lined(e, id, n + 1, all, waiting).sessions[s := Session([], Busy(id, Claimed))]
    ensures Reached(c, runners, id, calls, Lined(e, id, n + 1, all, waiting))
  {
    hide Reached;
    assert Apply(c, claimed, Fail(s)).sessions == Lined(e, id, n + 1, all, waiting).sessions;
    ReachedNext(c, runners, id, calls, claimed, Fail(s), Lined(e, id, n + 1, all, waiting));
  }

  lemma NextReached(c: Catalogs, runners: set<int>, e: Event, id: int, n: nat, all: set<int>, waiting: set<int>,
                    calls: nat, s: int)
    requires Reached(c, runners, id, calls, Lined(e, id, n, all, waiting)) && s in all && s in waiting
    ensures Reached(c, runners, id, calls, Lined(e, id, n + 1, all, waiting - {s}))
  {
    hide Reached;
    var st := Lined(e, id, n, all, waiting);
    assert st.sessions[s] == Session([id], Idle) && [id][1..] == [];
    var claimed := Apply(c, st, Next(s));
    assert claimed.sessions == Lined(e, id, n + 1, all, waiting - {s}).sessions[s := Session([], Busy(id, Claimed))];
    ReachedNext(c, runners, id, calls, st, Next(s), claimed);
    FailReached(c, runners, e, id, n, all, waiting - {s}, calls, s, claimed);
  }

  lemma CallReached(c: Catalogs, runners: set<int>, e: Event, id: int, n: nat, all: set<int>, calls: nat, s: int)
    requires Reached(c, runners, id, calls, Lined(e, id, n, all, {})) && s in all
    ensures Reached(c, runners, id, calls + 1, Lined(e, id, n + 1, all, {}))
  {
    hide Reached;
    var st := Lined(e, id, n, all, {});
    var claimed := Apply(c, st, Call(s, id));
    assert claimed.sessions == Lined(e, id, n + 1, all, {}).sessions[s := Session([], Busy(id, Claimed))];
    ReachedNext(c, runners, id, calls, st, Call(s, id), claimed);
    FailReached(c, runners, e, id, n, all, {}, calls + 1, s, claimed);
  }

  lemma {:induction false} FourReached(c: Catalogs, runners: set<int>, e: Event, id: int, n: nat, all: set<int>, s: int)
    requires Reached(c, runners, id, 0, Lined(e, id, n, all, {})) && n < MAX_ATTEMPTS && s in all && s in runners
    ensures Reached(c, runners, id, 0, Lined(e, id, MAX_ATTEMPTS - 1, all, {}))
    decreases MAX_ATTEMPTS - n
  {
    hide Reached, Lined;
    if n < MAX_ATTEMPTS - 1 {
      SnapshotReached(c, runners, e, id, n, all, {}, 0, s);
      NextReached(c, runners, e, id, n, all, {} + {s}, 0, s);
      assert {} + {s} - {s} == {};
      FourReached(c, runners, e, id, n + 1, all, s);
    }
  }

  /** All runners take their snapshots before any of them goes on. */
  lemma {:induction false} AllWait(c: Catalogs, runners: set<int>, e: Event, id: int, all: set<int>, part: set<int>)
    requires Reached(c, runners, id, 0, Lined(e, id, MAX_ATTEMPTS - 1, all, {})) && part <= runners <= all
    ensures Reached(c, runners, id, 0, Lined(e, id, MAX_ATTEMPTS - 1, all, part))
    decreases |part|
  {
    hide Reached, Lined;
    if part != {} {
      var s := Witness(part);
      AllWait(c, runners, e, id, all, part - {s});
      SnapshotReached(c, runners, e, id, MAX_ATTEMPTS - 1, all, part - {s}, 0, s);
      assert part - {s} + {s} == part;
    }
  }

  lemma {:induction false} AllFail(c: Catalogs, runners: set<int>, e: Event, id: int, n: nat, all: set<int>,
                                   part: set<int>)
    requires Reached(c, runners, id, 0, Lined(e, id, n, all, part)) && part <= all
    ensures Reached(c, runners, id, 0, Lined(e, id, n + |part|, all, {}))
    decreases |part|
  {
    hide Reached, Lined;
    if part != {} {
      var s := Witness(part);
      NextReached(c, runners, e, id, n, all, part, 0, s);
      AllFail(c, runners, e, id, n + 1, all, part - {s});
    }
  }

  lemma {:induction false} CallsReached(c: Catalogs, runners: set<int>, e: Event, id: int, n: nat, all: set<int>,
                                        s: int, calls: nat)
    requires Reached(c, runners, id, 0, Lined(e, id, n, all, {})) && s in all
    ensures Reached(c, runners, id, calls, Lined(e, id, n + calls, all, {}))
    decreases calls
  {
    hide Reached, Lined;
    if calls > 0 {
      CallsReached(c, runners, e, id, n, all, s, calls - 1);
      CallReached(c, runners, e, id, n + calls - 1, all, calls - 1, s);
    }
  }

  /** The bound is met, for every event, every set of runners and every number of direct calls. */
  lemma AttemptsReached(c: Catalogs, runners: set<int>, e: Event, id: int, calls: nat) returns (steps: seq<Step>)
    ensures Runs(c, START, steps) && BatchesOnly(runners, steps) && Calls(steps, id) == calls
    ensures forall i :: 0 <= i < |steps| && steps[i].Call? ==> steps[i].id == id
    ensures id in After(c, START, steps).inbox && After(c, START, steps).inbox[id].attempts == Most(runners, calls)
  {
    hide Runs, After, Calls;
    var all := runners + {0};
    ConnectedReached(c, runners, e, id, all);
    if runners != {} {
      var s := Witness(runners);
      FourReached(c, runners, e, id, 0, all, s);
      AllWait(c, runners, e, id, all, runners);
      AllFail(c, runners, e, id, MAX_ATTEMPTS - 1, all, runners);
    }
    var n := Most(runners, 0);
    CallsReached(c, runners, e, id, n, all, 0, calls);
    steps :| ReachedBy(c, runners, id, calls, Lined(e, id, n + calls, all, {}), steps);
  }

  /** Runs of these runners, with or without direct calls. */
  ghost predicate Allowed(c: Catalogs, runners: set<int>, direct: bool, steps: seq<Step>) {
    && Runs(c, START, steps) && BatchesOnly(runners, steps)
    && (!direct ==> forall i :: 0 <= i < |steps| ==> !steps[i].Call?)
  }

  ghost predicate WithinLimit(st: State) {
    forall id :: id in st.inbox ==> st.inbox[id].attempts <= 5
  }

  lemma {:induction false} NoCalls(steps: seq<Step>, id: int)
    requires forall i :: 0 <= i < |steps| ==> !steps[i].Call?
    ensures Calls(steps, id) == 0
  {
    if steps != [] {
      assert !steps[0].Call?;
      forall i | 0 <= i < |steps[1..]| ensures !steps[1..][i].Call? { assert steps[1..][i] == steps[i + 1]; }
      NoCalls(steps[1..], id);
    }
  }

  /**
   Five attempts are the limit if and only if there is at most one batch runner and nobody calls the
   procedure directly.
   */
  lemma LimitExactly(c: Catalogs, runners: set<int>, direct: bool, e: Event)
    ensures (forall steps :: Allowed(c, runners, direct, steps) ==> WithinLimit(After(c, START, steps)))
       <==> |runners| <= 1 && !direct
  {
    hide Runs, After, Calls;
    if |runners| <= 1 && !direct {
      forall steps | Allowed(c, runners, direct, steps) ensures WithinLimit(After(c, START, steps)) {
        forall id | id in After(c, START, steps).inbox
          ensures After(c, START, steps).inbox[id].attempts <= 5
        {
          AttemptsWithin(c, steps, runners, id);
          NoCalls(steps, id);
        }
      }
    } else {
      var steps := AttemptsReached(c, runners, e, 1, if direct then 6 else 0);
      if !direct {
        NoCallsWithout(steps, 1);
      }
      assert Allowed(c, runners, direct, steps) && !WithinLimit(After(c, START, steps));
    }
  }

  lemma {:induction false} NoCallsWithout(steps: seq<Step>, id: int)
    requires Calls(steps, id) == 0 && forall i :: 0 <= i < |steps| && steps[i].Call? ==> steps[i].id == id
    ensures forall i :: 0 <= i < |steps| ==> !steps[i].Call?
  {
    if steps != [] {
      forall i | 0 <= i < |steps[1..]| && steps[1..][i].Call? ensures steps[1..][i].id == id {
        assert steps[1..][i] == steps[i + 1];
      }
      NoCallsWithout(steps[1..], id);
      forall i | 0 <= i < |steps| ensures !steps[i].Call? {
        if i > 0 { assert steps[i] == steps[1..][i - 1]; }
      }
    }
  }

  /** Each id is called at most once, as when only new events are written. */
  ghost predicate CalledOnce(steps: seq<Step>) {
    forall id :: Calls(steps, id) <= 1
  }

  ghost predicate OneRunner(c: Catalogs, r: int, run: seq<Step>) {
    Runs(c, START, run) && BatchesOnly({r}, run) && CalledOnce(run)
  }

  /** With one batch runner beside writers of new events, the limit is six, and it is met. */
  lemma OneRunnerAndWriters(c: Catalogs, r: int, e: Event) returns (steps: seq<Step>)
    ensures forall run, id :: OneRunner(c, r, run) && id in After(c, START, run).inbox ==>
      After(c, START, run).inbox[id].attempts <= 6
    ensures Runs(c, START, steps) && BatchesOnly({r}, steps) && CalledOnce(steps)
    ensures 1 in After(c, START, steps).inbox && After(c, START, steps).inbox[1].attempts == 6
  {
    hide Runs, After, Calls;
    forall run, id | OneRunner(c, r, run) && id in After(c, START, run).inbox
      ensures After(c, START, run).inbox[id].attempts <= 6
    {
      AttemptsWithin(c, run, {r}, id);
    }
    steps := AttemptsReached(c, {r}, e, 1, 1);
    forall id ensures Calls(steps, id) <= 1 {
      if id != 1 { OtherCalls(steps, 1, id); }
    }
  }

  lemma {:induction false} OtherCalls(steps: seq<Step>, id: int, other: int)
    requires id != other && forall i :: 0 <= i < |steps| && steps[i].Call? ==> steps[i].id == id
    ensures Calls(steps, other) == 0
  {
    if steps != [] {
      assert CallOf(steps[0], other) == 0;
      forall i | 0 <= i < |steps[1..]| && steps[1..][i].Call? ensures steps[1..][i].id == id {
        assert steps[1..][i] == steps[i + 1];
      }
      OtherCalls(steps[1..], id, other);
    }
  }
}

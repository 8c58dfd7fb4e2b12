/** The inbox machine with one more way to fail: the claiming UPDATE itself. */
module WcsClaims {
  import opened Options
  import opened WcsCatalog
  import opened WcsInbox

  /** A step of the machine, or a call whose claiming UPDATE fails. */
  datatype Move = Done(step: Step) | ClaimFails(step: Step)

  predicate Possible(c: Catalogs, st: State, m: Move) {
    Enabled(c, st, m.step) && (m.ClaimFails? ==> m.step.Next? || m.step.Call?)
  }

  function CalledId(st: State, step: Step): int
    requires step.Call? || (step.Next? && At(st, step.s) && st.sessions[step.s].todo != [])
  {
    if step.Call? then step.id else st.sessions[step.s].todo[0]
  }

  /** The handler sets status failed whatever the status was, and the call ends; no attempt is counted. */
  function FailedClaim(st: State, step: Step): State
    requires (step.Call? && At(st, step.s)) || (step.Next? && At(st, step.s) && st.sessions[step.s].todo != [])
  {
    var id := CalledId(st, step);
    var called := if step.Next? then SetTodo(st, step.s, st.sessions[step.s].todo[1..]) else st;
    if id in st.inbox then SetEntry(called, id, st.inbox[id].(status := Broken)) else called
  }

  function Moved(c: Catalogs, st: State, m: Move): State
    requires Possible(c, st, m)
  {
    if m.Done? then Apply(c, st, m.step) else FailedClaim(st, m.step)
  }

  predicate Goes(c: Catalogs, st: State, moves: seq<Move>)
    decreases |moves|
  {
    moves == [] || (Possible(c, st, moves[0]) && Goes(c, Moved(c, st, moves[0]), moves[1..]))
  }

  function End(c: Catalogs, st: State, moves: seq<Move>): State
    requires Goes(c, st, moves)
    decreases |moves|
  {
    if moves == [] then st else End(c, Moved(c, st, moves[0]), moves[1..])
  }

  /** The claim that fails is one of event `id`. */
  predicate FailsOn(c: Catalogs, st: State, m: Move, id: int)
    requires Possible(c, st, m)
  {
    m.ClaimFails? && CalledId(st, m.step) == id
  }

  /** No claim of event `id` fails. */
  predicate ClaimsWork(c: Catalogs, st: State, moves: seq<Move>, id: int)
    requires Goes(c, st, moves)
    decreases |moves|
  {
    moves == [] || (!FailsOn(c, st, moves[0], id) && ClaimsWork(c, Moved(c, st, moves[0]), moves[1..], id))
  }

  predicate IsProcessed(st: State, id: int) {
    id in st.inbox && st.inbox[id].status == Processed
  }

  /** The step by which an event leaves `processed`: a failing claim of it, or a failure of a call still at it. */
  lemma LeavesProcessed(c: Catalogs, st: State, m: Move, id: int)
    requires Possible(c, st, m) && IsProcessed(st, id)
    ensures !IsProcessed(Moved(c, st, m), id) <==>
      FailsOn(c, st, m, id) || (m.Done? && m.step.Fail? && HeldBy(st, m.step.s, id))
  {
    hide Route, Derive, Duplicate, BatchIds;
    if m.Done? {
      EventsStay(c, st, m.step, id);
    }
  }

  // ---- an event whose claims work keeps what the machine without failing claims promises ----

  /** At most one session holds the event, and only in `processing`. */
  ghost predicate Sole(st: State, id: int) {
    && (forall s :: HeldBy(st, s, id) ==> id in st.inbox && st.inbox[id].status == Processing)
    && (forall s, t :: HeldBy(st, s, id) && HeldBy(st, t, id) ==> s == t)
  }

  lemma SoleStep(c: Catalogs, st: State, step: Step, id: int)
    requires Enabled(c, st, step) && Sole(st, id)
    ensures Sole(Apply(c, st, step), id)
    ensures IsProcessed(st, id) ==> id in Apply(c, st, step).inbox && Apply(c, st, step).inbox[id] == st.inbox[id]
  {
    hide Apply, Enabled;
    var st' := Apply(c, st, step);
    if id in st.inbox { EventsStay(c, st, step, id); }
    if id in st.inbox && st'.inbox[id] != st.inbox[id] {
      EntryOrigin(c, st, step, id);
    }
    forall s | HeldBy(st', s, id) ensures id in st'.inbox && st'.inbox[id].status == Processing {
      HoldOrigin(c, st, step, s, id);
    }
    forall s, t | HeldBy(st', s, id) && HeldBy(st', t, id) ensures s == t {
      HoldOrigin(c, st, step, s, id);
      HoldOrigin(c, st, step, t, id);
    }
  }

  lemma SoleMove(c: Catalogs, st: State, m: Move, id: int)
    requires Possible(c, st, m) && Sole(st, id) && !FailsOn(c, st, m, id)
    ensures Sole(Moved(c, st, m), id)
    ensures IsProcessed(st, id) ==> id in Moved(c, st, m).inbox && Moved(c, st, m).inbox[id] == st.inbox[id]
  {
    hide Apply;
    if m.Done? {
      SoleStep(c, st, m.step, id);
    } else {
      var st' := Moved(c, st, m);
      forall s ensures HeldBy(st', s, id) <==> HeldBy(st, s, id) { }
    }
  }

  /** Without a failing claim of it, an event has one holder at most, and stays as it is once processed. */
  lemma {:induction false} SoleRun(c: Catalogs, st: State, moves: seq<Move>, id: int)
    requires Goes(c, st, moves) && Sole(st, id) && ClaimsWork(c, st, moves, id)
    ensures Sole(End(c, st, moves), id)
    ensures IsProcessed(st, id) ==> id in End(c, st, moves).inbox && End(c, st, moves).inbox[id] == st.inbox[id]
    decreases |moves|
  {
    hide Moved, Possible, Sole, FailsOn;
    if moves != [] {
      SoleMove(c, st, moves[0], id);
      SoleRun(c, Moved(c, st, moves[0]), moves[1..], id);
    }
  }

  // ---- and an event with a failing claim need not ----

  lemma {:induction false} GoOn(c: Catalogs, st: State, moves: seq<Move>, m: Move)
    requires Goes(c, st, moves) && Possible(c, End(c, st, moves), m)
    ensures Goes(c, st, moves + [m]) && End(c, st, moves + [m]) == Moved(c, End(c, st, moves), m)
    decreases |moves|
  {
    hide Moved, Possible;
    if moves == [] {
      assert [] + [m] == [m] && [m][1..] == [];
    } else {
      GoOn(c, Moved(c, st, moves[0]), moves[1..], m);
      assert (moves + [m])[0] == moves[0] && (moves + [m])[1..] == moves[1..] + [m];
    }
  }

  /** One event and two sessions. */
  function Pair(e: Event, id: int, status: Status, n: nat, w0: Work, w1: Work): State {
    State(map[id := Entry(e, status, n, None)], map[], map[0 := Session([], w0), 1 := Session([], w1)])
  }

  lemma PairReached(c: Catalogs, e: Event, id: int) returns (moves: seq<Move>)
    ensures Goes(c, START, moves) && End(c, START, moves) == Pair(e, id, Pending, 0, Idle, Idle)
  {
    hide Goes, End, Route, Derive;
    var st1 := State(map[id := Entry(e, Pending, 0, None)], map[], map[]);
    var st2 := State(st1.inbox, map[], map[0 := Session([], Idle)]);
    moves := [];
    assert Goes(c, START, []) && End(c, START, []) == START by { EmptyGoes(c, START); }
    GoOn(c, START, moves, Done(Write(id, e)));
    moves := moves + [Done(Write(id, e))];
    assert End(c, START, moves) == st1;
    GoOn(c, START, moves, Done(Connect(0)));
    moves := moves + [Done(Connect(0))];
    assert End(c, START, moves) == st2;
    GoOn(c, START, moves, Done(Connect(1)));
    moves := moves + [Done(Connect(1))];
    assert End(c, START, moves).sessions == Pair(e, id, Pending, 0, Idle, Idle).sessions;
  }

  lemma EmptyGoes(c: Catalogs, st: State)
    ensures Goes(c, st, []) && End(c, st, []) == st
  {
  }

  /** A claim that fails while another session works on the event lets a second session take it. */
  lemma TwoHolders(c: Catalogs, e: Event, id: int) returns (moves: seq<Move>)
    ensures Goes(c, START, moves) && End(c, START, moves)
      == Pair(e, id, Processing, 2, Busy(id, Claimed), Busy(id, Claimed))
    ensures var st := End(c, START, moves); HeldBy(st, 0, id) && HeldBy(st, 1, id)
  {
    hide Goes, End, Route, Derive;
    moves := PairReached(c, e, id);
    GoOn(c, START, moves, Done(Call(0, id)));
    moves := moves + [Done(Call(0, id))];
    assert End(c, START, moves) == Pair(e, id, Processing, 1, Busy(id, Claimed), Idle);
    GoOn(c, START, moves, ClaimFails(Call(1, id)));
    moves := moves + [ClaimFails(Call(1, id))];
    assert End(c, START, moves) == Pair(e, id, Broken, 1, Busy(id, Claimed), Idle);
    GoOn(c, START, moves, Done(Call(1, id)));
    moves := moves + [Done(Call(1, id))];
    assert End(c, START, moves) == Pair(e, id, Processing, 2, Busy(id, Claimed), Busy(id, Claimed));
  }

  /** A session with the event in hand can bring it to `processed`, whoever else holds it. */
  lemma Finish(c: Catalogs, moves: seq<Move>, id: int) returns (more: seq<Move>)
    requires Goes(c, START, moves)
    requires var st := End(c, START, moves);
      && HeldBy(st, 0, id) && st.sessions[0].work.stage.Claimed? && st.history == map[]
      && id in st.inbox && Route(st.inbox[id].event, c).Some?
    ensures Goes(c, START, more) && IsProcessed(End(c, START, more), id)
    ensures HeldBy(End(c, START, moves), 1, id) ==> HeldBy(End(c, START, more), 1, id)
  {
    hide Goes, End, Route, Derive;
    more := moves;
    GoOn(c, START, more, Done(Insert(0, 0)));
    more := more + [Done(Insert(0, 0))];
    GoOn(c, START, more, Done(Upsert(0)));
    more := more + [Done(Upsert(0))];
    GoOn(c, START, more, Done(Mark(0)));
    more := more + [Done(Mark(0))];
  }

  /** That an event leaves `processed` only by a failing claim is false: after one, a plain failure can do it too. */
  lemma FailureCanUndoProcessed(c: Catalogs, e: Event, id: int) returns (moves: seq<Move>)
    requires Route(e, c).Some?
    ensures Goes(c, START, moves) && IsProcessed(End(c, START, moves), id)
    ensures Possible(c, End(c, START, moves), Done(Fail(1)))
    ensures !IsProcessed(Moved(c, End(c, START, moves), Done(Fail(1))), id)
  {
    hide Goes, End, Route, Derive;
    moves := TwoHolders(c, e, id);
    moves := Finish(c, moves, id);
    LeavesProcessed(c, End(c, START, moves), Done(Fail(1)), id);
  }

  /** A run of the machine, and more of it; claims of event `id` fail only if they may. */
  ghost predicate Course(c: Catalogs, id: int, mayFail: bool, moves: seq<Move>, more: seq<Move>) {
    && Goes(c, START, moves) && Goes(c, End(c, START, moves), more)
    && (mayFail || (ClaimsWork(c, START, moves, id) && ClaimsWork(c, End(c, START, moves), more, id)))
  }

  /** An event is processed for good if and only if its claims cannot fail. */
  lemma ProcessedForGoodExactly(c: Catalogs, e: Event, id: int, mayFail: bool)
    requires Route(e, c).Some?
    ensures (forall moves, more :: Course(c, id, mayFail, moves, more) && IsProcessed(End(c, START, moves), id) ==>
               IsProcessed(End(c, End(c, START, moves), more), id))
       <==> !mayFail
  {
    hide Goes, End, Route, Derive, ClaimsWork, IsProcessed;
    if mayFail {
      var moves := FailureCanUndoProcessed(c, e, id);
      var st := End(c, START, moves);
      EmptyGoes(c, st);
      GoOn(c, st, [], Done(Fail(1)));
      assert Course(c, id, true, moves, [] + [Done(Fail(1))]);
    } else {
      forall moves, more | Course(c, id, false, moves, more) && IsProcessed(End(c, START, moves), id)
        ensures IsProcessed(End(c, End(c, START, moves), more), id)
      {
        SoleRun(c, START, moves, id);
        SoleRun(c, End(c, START, moves), more, id);
        StillProcessed(End(c, START, moves), End(c, End(c, START, moves), more), id);
      }
    }
  }

  lemma StillProcessed(a: State, b: State, id: int)
    requires IsProcessed(a, id) && id in b.inbox && (id in a.inbox ==> b.inbox[id] == a.inbox[id])
    ensures IsProcessed(b, id)
  {
  }

  /** At most one session holds an event at a time, and only in `processing`, if and only if its claims cannot fail. */
  lemma OneHolderExactly(c: Catalogs, e: Event, id: int, mayFail: bool)
    ensures (forall moves :: Course(c, id, mayFail, moves, []) ==> Sole(End(c, START, moves), id)) <==> !mayFail
  {
    hide Goes, End, Route, Derive, ClaimsWork;
    if mayFail {
      var moves := TwoHolders(c, e, id);
      EmptyGoes(c, End(c, START, moves));
      assert Course(c, id, true, moves, []);
    } else {
      forall moves | Course(c, id, false, moves, []) ensures Sole(End(c, START, moves), id) {
        SoleRun(c, START, moves, id);
      }
    }
  }
}

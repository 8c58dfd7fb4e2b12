/**
 The sink worker (src/sink.rs): batching, writing by table, spilling on failure, replaying, draining on
 shutdown. Which inserts fail, and where the buffer reports an error, is given to every call as its
 `Weather`; every outcome is covered.
 */
module SinkWorkerSpec {
  import opened Samples
  import opened Grouping
  import opened Buffer
  import opened SinkMachine

  /**
   `down` are the tables whose inserts fail; of these, in `taken`, the INSERT took effect all the same and only
   its reply was lost. `room` is how many writes, removals and flushes the buffer makes before one fails,
   `readable` how many entries a replay reads before one fails.
   */
  datatype Weather = Weather(down: set<string>, taken: set<string>, room: nat, readable: nat)

  /** The state after a call, and whether it returned Ok. */
  datatype Outcome = Outcome(state: State, ok: bool)

  function Spilled(s: State, samples: seq<Sample>): State {
    s.(mem := s.mem + Numbered(s.nextId, samples), nextId := s.nextId + |samples|)
  }

  function Synced(s: State): State {
    s.(disk := s.mem, ever := s.ever + set e | e in s.mem)
  }

  function Dropped(s: State, rest: seq<Sample>): State {
    s.(lost := s.lost + rest + Flatten(s.flushing) + s.pending, pending := [], flushing := [])
  }

  /** A failed INSERT, which may have taken effect. */
  function Failed(s: State, w: Weather, table: string, samples: seq<Sample>): State {
    if table in w.taken then s.(log := s.log + Rows(table, samples), twice := s.twice + samples) else s
  }

  /** The loop of `flush_new_samples` over the groups of a batch. */
  function FlushGroups(s: State, w: Weather): Outcome
    decreases |s.flushing|
  {
    if s.flushing == [] then Outcome(s, true)
    else
      var g, rest := s.flushing[0], s.(flushing := s.flushing[1..]);
      var failed := Failed(rest, w, g.key, g.items);
      if g.key !in w.down then FlushGroups(rest.(log := s.log + Rows(g.key, g.items)), w)
      else if |g.items| < w.room then FlushGroups(Synced(Spilled(failed, g.items)), w.(room := w.room - |g.items| - 1))
      else Outcome(Dropped(Spilled(failed, g.items[..w.room]), g.items[w.room..]), false)
  }

  /** `flush_new_samples` on the pending batch. */
  function Flush(rt: Router, s: State, w: Weather): Outcome {
    if s.pending == [] then Outcome(s, true)
    else FlushGroups(s.(flushing := Collect(Routed(rt, s.pending)), pending := []), w)
  }

  /** A group is inserted; its entries are still in the buffer. */
  function Inserted(s: State, g: Group<BufferedSample>): State
    requires s.replaying != []
  {
    s.(log := s.log + Rows(g.key, SamplesOf(g.items)), replaying := s.replaying[1..])
  }

  function Removed(s: State, gone: seq<BufferedSample>): State {
    s.(mem := WithoutAll(s.mem, gone))
  }

  /** The worker gives up while `rest` is inserted but not removed. */
  function GivenUp(s: State, rest: seq<BufferedSample>): State {
    Dropped(s.(replaying := [], twice := s.twice + SamplesOf(rest)), [])
  }

  /** The loop of `replay_buffered`. */
  function ReplayGroups(s: State, w: Weather): Outcome
    decreases |s.replaying|
  {
    if s.replaying == [] then Outcome(s, true)
    else
      var g := s.replaying[0];
      if g.key in w.down then ReplayGroups(Failed(s.(replaying := s.replaying[1..]), w, g.key, SamplesOf(g.items)), w)
      else if |g.items| < w.room then
        ReplayGroups(Synced(Removed(Inserted(s, g), g.items)), w.(room := w.room - |g.items| - 1))
      else
        Outcome(GivenUp(Removed(Inserted(s, g), g.items[..w.room]), g.items[w.room..]), false)
  }

  /** `replay_buffered`; reading the entries may already end the worker. */
  function Replay(rt: Router, s: State, limit: nat, w: Weather): Outcome {
    if |Oldest(s.mem, limit)| > w.readable then Outcome(Dropped(s, []), false)
    else ReplayGroups(s.(replaying := Collect(RoutedEntries(rt, Oldest(s.mem, limit)))), w)
  }

  function FlushThenReplay(rt: Router, s: State, limit: nat, flush: Weather, replay: Weather): Outcome {
    var o := Flush(rt, s, flush);
    if o.ok then Replay(rt, o.state, limit, replay) else o
  }

  /** What the select loop reacts to. */
  datatype Event =
    | Received(sample: Sample, flush: Weather, replay: Weather)
    | Tick(flush: Weather, replay: Weather)

  function Take(s: State, x: Sample): State {
    s.(received := s.received + [x], pending := s.pending + [x])
  }

  function OnEvent(rt: Router, s: State, batch: nat, e: Event): Outcome {
    match e
    case Received(x, flush, replay) =>
      if |s.pending| + 1 >= batch then FlushThenReplay(rt, Take(s, x), batch, flush, replay)
      else Outcome(Take(s, x), true)
    case Tick(flush, replay) => FlushThenReplay(rt, s, batch, flush, replay)
  }

  function Loop(rt: Router, s: State, batch: nat, events: seq<Event>): Outcome {
    if events == [] then Outcome(s, true)
    else
      var o := Loop(rt, s, batch, events[..|events| - 1]);
      if o.ok then OnEvent(rt, o.state, batch, events[|events| - 1]) else o
  }

  /** A sample found in the channel after the loop, with the weather of its flush. */
  datatype Queued = Queued(sample: Sample, flush: Weather)

  /** The drain loop after shutdown: full batches are flushed, nothing is replayed. */
  function Drain(rt: Router, s: State, batch: nat, queue: seq<Queued>): Outcome {
    if queue == [] then Outcome(s, true)
    else
      var o := Drain(rt, s, batch, queue[..|queue| - 1]);
      var q := queue[|queue| - 1];
      if !o.ok then o
      else if |o.state.pending| + 1 >= batch then Flush(rt, Take(o.state, q.sample), q.flush)
      else Outcome(Take(o.state, q.sample), true)
  }

  /**
   The whole of `run`: replay, loop, drain, last flush, and the flush of the buffer, which may fail unless
   `closes`.
   */
  function Run(rt: Router, s: State, batch: nat, start: Weather, events: seq<Event>, queue: seq<Queued>,
               last: Weather, closes: bool): Outcome {
    var a := Replay(rt, s, batch, start);
    if !a.ok then a
    else
      var b := Loop(rt, a.state, batch, events);
      if !b.ok then b
      else
        var c := Drain(rt, b.state, batch, queue);
        if !c.ok then c
        else
          var d := Flush(rt, c.state, last);
          if !d.ok then d else if closes then Outcome(Synced(d.state), true) else Outcome(d.state, false)
  }

  /** No failing INSERT takes effect. */
  predicate Clear(e: Event) {
    e.flush.taken == {} && e.replay.taken == {}
  }

  predicate AllClear(start: Weather, events: seq<Event>, queue: seq<Queued>, last: Weather) {
    && start.taken == {} && last.taken == {}
    && (forall i :: 0 <= i < |events| ==> Clear(events[i]))
    && (forall i :: 0 <= i < |queue| ==> queue[i].flush.taken == {})
  }
}

/** Every call of the worker is a crash-free run of the machine, so the theorems about runs apply to it. */
module SinkWorkerRuns {
  import opened Samples
  import opened Grouping
  import opened Buffer
  import opened Options
  import opened SinkMachine
  import opened SinkTheorems
  import opened SinkWorkerSpec

  /** The steps of such a run; in `clear` weather every INSERT that took effect is reported so. */
  ghost predicate Leads(rt: Router, s: State, steps: seq<Step>, o: Outcome, clear: bool) {
    && NoCrash(steps) && (o.ok ==> NoAbort(steps)) && (clear ==> AllHeard(steps))
    && Exec(rt, s, steps) == Some(o.state)
  }

  ghost predicate Reaches(rt: Router, s: State, o: Outcome, clear: bool) {
    exists steps :: Leads(rt, s, steps, o, clear)
  }

  lemma ReachesHere(rt: Router, s: State, clear: bool)
    ensures Reaches(rt, s, Outcome(s, true), clear)
  {
    assert Leads(rt, s, [], Outcome(s, true), clear);
  }

  lemma ReachesBy(rt: Router, s: State, step: Step, t: State, clear: bool)
    requires Enabled(s, step) && !step.Crash? && !step.Abort? && t == Apply(rt, s, step)
    requires clear ==> !step.InsertUnheard? && !step.ReplayUnheard?
    ensures Reaches(rt, s, Outcome(t, true), clear)
  {
    hide Apply, Enabled;
    ExecOne(rt, s, step);
    assert Leads(rt, s, [step], Outcome(t, true), clear);
  }

  lemma ReachesAbort(rt: Router, s: State, clear: bool)
    ensures Reaches(rt, s, Outcome(Drop(s), false), clear)
  {
    ExecOne(rt, s, Abort);
    assert Leads(rt, s, [Abort], Outcome(Drop(s), false), clear);
  }

  lemma ReachesThen(rt: Router, s: State, t: State, o: Outcome, clear: bool)
    requires Reaches(rt, s, Outcome(t, true), clear) && Reaches(rt, t, o, clear)
    ensures Reaches(rt, s, o, clear)
  {
    var a :| Leads(rt, s, a, Outcome(t, true), clear);
    var b :| Leads(rt, t, b, o, clear);
    ExecAppend(rt, s, a, b);
    assert Leads(rt, s, a + b, o, clear);
  }

  lemma {:induction false} SpillMany(rt: Router, s: State, n: nat, clear: bool)
    requires n <= |s.spilling|
    ensures Reaches(rt, s, Outcome(Spilled(s, s.spilling[..n]).(spilling := s.spilling[n..]), true), clear)
  {
    hide Reaches;
    if n == 0 {
      assert Numbered(s.nextId, s.spilling[..0]) == [];
      assert s.mem + [] == s.mem;
      ReachesHere(rt, s, clear);
    } else {
      SpillMany(rt, s, n - 1, clear);
      var t := Spilled(s, s.spilling[..n - 1]).(spilling := s.spilling[n - 1..]);
      var u := Spilled(s, s.spilling[..n]).(spilling := s.spilling[n..]);
      assert Numbered(s.nextId, s.spilling[..n])
          == Numbered(s.nextId, s.spilling[..n - 1]) + [BufferedSample(s.nextId + n - 1, s.spilling[n - 1])];
      assert u.mem == t.mem + [BufferedSample(t.nextId, t.spilling[0])];
      ReachesBy(rt, t, Spill, u, clear);
      ReachesThen(rt, s, t, Outcome(u, true), clear);
    }
  }

  lemma {:induction false} AckMany(rt: Router, s: State, n: nat, clear: bool)
    requires n <= |s.acking|
    ensures Reaches(rt, s, Outcome(s.(mem := WithoutAll(s.mem, s.acking[..n]), acking := s.acking[n..]), true), clear)
  {
    hide Reaches, Without;
    if n == 0 {
      ReachesHere(rt, s, clear);
    } else {
      AckMany(rt, s, n - 1, clear);
      var t := s.(mem := WithoutAll(s.mem, s.acking[..n - 1]), acking := s.acking[n - 1..]);
      var u := s.(mem := WithoutAll(s.mem, s.acking[..n]), acking := s.acking[n..]);
      assert s.acking[..n][..n - 1] == s.acking[..n - 1];
      ReachesBy(rt, t, Ack, u, clear);
      ReachesThen(rt, s, t, Outcome(u, true), clear);
    }
  }

  /** Between two groups of a flush. */
  ghost predicate AtFlush(s: State) {
    s.spilling == [] && s.replaying == [] && s.acking == []
  }

  /** A group whose INSERT failed, with its first `n` samples in the buffer. */
  lemma SpillGroup(rt: Router, s: State, w: Weather, n: nat, clear: bool)
    requires AtFlush(s) && s.flushing != [] && n <= |s.flushing[0].items| && (clear ==> w.taken == {})
    ensures var g := s.flushing[0];
      var failed := Failed(s.(flushing := s.flushing[1..]), w, g.key, g.items);
      Reaches(rt, s, Outcome(Spilled(failed, g.items[..n]).(spilling := g.items[n..]), true), clear)
  {
    hide Reaches, Rows;
    var g := s.flushing[0];
    var t := Failed(s.(flushing := s.flushing[1..]), w, g.key, g.items).(spilling := g.items);
    ReachesBy(rt, s, if g.key in w.taken then InsertUnheard else InsertErr, t, clear);
    SpillMany(rt, t, n, clear);
    ReachesThen(rt, s, t, Outcome(Spilled(t, g.items[..n]).(spilling := g.items[n..]), true), clear);
  }

  lemma {:induction false} FlushGroupsReaches(rt: Router, s: State, w: Weather, clear: bool)
    requires AtFlush(s) && (clear ==> w.taken == {})
    ensures Reaches(rt, s, FlushGroups(s, w), clear)
    ensures FlushGroups(s, w).ok ==> AtFlush(FlushGroups(s, w).state) && FlushGroups(s, w).state.flushing == []
    decreases |s.flushing|
  {
    hide Reaches;
    if s.flushing == [] {
      ReachesHere(rt, s, clear);
    } else {
      var g, rest := s.flushing[0], s.(flushing := s.flushing[1..]);
      var failed := Failed(rest, w, g.key, g.items);
      if g.key !in w.down {
        var t := rest.(log := s.log + Rows(g.key, g.items));
        ReachesBy(rt, s, InsertOk, t, clear);
        FlushGroupsReaches(rt, t, w, clear);
        ReachesThen(rt, s, t, FlushGroups(t, w), clear);
      } else if |g.items| < w.room {
        var t, u := Spilled(failed, g.items), Synced(Spilled(failed, g.items));
        SpillGroup(rt, s, w, |g.items|, clear);
        assert g.items[..|g.items|] == g.items && g.items[|g.items|..] == [];
        ReachesBy(rt, t, Sync, u, clear);
        ReachesThen(rt, s, t, Outcome(u, true), clear);
        FlushGroupsReaches(rt, u, w.(room := w.room - |g.items| - 1), clear);
        ReachesThen(rt, s, u, FlushGroups(u, w.(room := w.room - |g.items| - 1)), clear);
      } else {
        var t := Spilled(failed, g.items[..w.room]).(spilling := g.items[w.room..]);
        SpillGroup(rt, s, w, w.room, clear);
        ReachesAbort(rt, t, clear);
        AbortedFlush(s, w, t);
        ReachesThen(rt, s, t, Outcome(Drop(t), false), clear);
      }
    }
  }

  lemma AbortedFlush(s: State, w: Weather, t: State)
    requires AtFlush(s) && s.flushing != [] && s.flushing[0].key in w.down && |s.flushing[0].items| >= w.room
    requires var g := s.flushing[0];
      var failed := Failed(s.(flushing := s.flushing[1..]), w, g.key, g.items);
      t == Spilled(failed, g.items[..w.room]).(spilling := g.items[w.room..])
    ensures FlushGroups(s, w) == Outcome(Drop(t), false)
  {
    hide Rows, Numbered;
    assert SamplesOf(t.acking) == [] && t.twice + [] == t.twice;
  }

  lemma FlushReaches(rt: Router, s: State, w: Weather, clear: bool)
    requires Idle(s) && (clear ==> w.taken == {})
    ensures Reaches(rt, s, Flush(rt, s, w), clear)
    ensures Flush(rt, s, w).ok ==> Idle(Flush(rt, s, w).state)
  {
    hide Reaches, Collect;
    if s.pending == [] {
      ReachesHere(rt, s, clear);
    } else {
      var t := s.(flushing := Collect(Routed(rt, s.pending)), pending := []);
      ReachesBy(rt, s, BeginFlush, t, clear);
      FlushGroupsReaches(rt, t, w, clear);
      ReachesThen(rt, s, t, FlushGroups(t, w), clear);
    }
  }

  /** Between two groups of a replay. */
  ghost predicate AtReplay(s: State) {
    s.flushing == [] && s.spilling == [] && s.acking == []
  }

  lemma AckGroup(rt: Router, s: State, n: nat, clear: bool)
    requires AtReplay(s) && s.replaying != [] && n <= |s.replaying[0].items|
    ensures var g := s.replaying[0];
      Reaches(rt, s, Outcome(s.(log := s.log + Rows(g.key, SamplesOf(g.items)), replaying := s.replaying[1..],
                                mem := WithoutAll(s.mem, g.items[..n]), acking := g.items[n..]), true), clear)
  {
    hide Reaches, WithoutAll;
    var g := s.replaying[0];
    var t := s.(log := s.log + Rows(g.key, SamplesOf(g.items)), acking := g.items, replaying := s.replaying[1..]);
    ReachesBy(rt, s, ReplayOk, t, clear);
    AckMany(rt, t, n, clear);
    ReachesThen(rt, s, t, Outcome(t.(mem := WithoutAll(t.mem, g.items[..n]), acking := g.items[n..]), true), clear);
  }

  lemma {:induction false} ReplayGroupsReaches(rt: Router, s: State, w: Weather, clear: bool)
    requires AtReplay(s) && (clear ==> w.taken == {})
    ensures Reaches(rt, s, ReplayGroups(s, w), clear)
    ensures ReplayGroups(s, w).ok ==> Idle(ReplayGroups(s, w).state)
    decreases |s.replaying|
  {
    hide Reaches, WithoutAll;
    if s.replaying == [] {
      ReachesHere(rt, s, clear);
    } else {
      var g, rest := s.replaying[0], s.(replaying := s.replaying[1..]);
      if g.key in w.down {
        var failed := Failed(rest, w, g.key, SamplesOf(g.items));
        ReachesBy(rt, s, if g.key in w.taken then ReplayUnheard else ReplayErr, failed, clear);
        ReplayGroupsReaches(rt, failed, w, clear);
        ReachesThen(rt, s, failed, ReplayGroups(failed, w), clear);
      } else if |g.items| < w.room {
        var t := Removed(Inserted(s, g), g.items);
        AckGroup(rt, s, |g.items|, clear);
        assert g.items[..|g.items|] == g.items && g.items[|g.items|..] == [];
        ReachesBy(rt, t, Sync, Synced(t), clear);
        ReachesThen(rt, s, t, Outcome(Synced(t), true), clear);
        ReplayGroupsReaches(rt, Synced(t), w.(room := w.room - |g.items| - 1), clear);
        ReachesThen(rt, s, Synced(t), ReplayGroups(Synced(t), w.(room := w.room - |g.items| - 1)), clear);
      } else {
        var t := rest.(log := s.log + Rows(g.key, SamplesOf(g.items)), mem := WithoutAll(s.mem, g.items[..w.room]),
                       acking := g.items[w.room..]);
        AckGroup(rt, s, w.room, clear);
        ReachesAbort(rt, t, clear);
        AbortedReplay(s, w, t);
        ReachesThen(rt, s, t, Outcome(Drop(t), false), clear);
      }
    }
  }

  lemma AbortedReplay(s: State, w: Weather, t: State)
    requires AtReplay(s) && s.replaying != [] && s.replaying[0].key !in w.down && |s.replaying[0].items| >= w.room
    requires t == s.(replaying := s.replaying[1..],
                     log := s.log + Rows(s.replaying[0].key, SamplesOf(s.replaying[0].items)),
                     mem := WithoutAll(s.mem, s.replaying[0].items[..w.room]), acking := s.replaying[0].items[w.room..])
    ensures ReplayGroups(s, w) == Outcome(Drop(t), false)
  {
    hide WithoutAll, SamplesOf, Rows;
    assert Flatten(s.flushing) == [];
  }

  lemma DropIdle(s: State)
    requires Idle(s)
    ensures Drop(s) == Dropped(s, [])
    ensures s.pending == [] ==> Drop(s) == s
  {
    assert SamplesOf(s.acking) == [] && Flatten(s.flushing) == [];
  }

  lemma ReplayReaches(rt: Router, s: State, limit: nat, w: Weather, clear: bool)
    requires Idle(s) && (clear ==> w.taken == {})
    ensures Reaches(rt, s, Replay(rt, s, limit, w), clear)
    ensures Replay(rt, s, limit, w).ok ==> Idle(Replay(rt, s, limit, w).state)
  {
    hide Reaches, Collect, ReplayGroups, Oldest;
    ReachesAbort(rt, s, clear);
    DropIdle(s);
    var t := s.(replaying := Collect(RoutedEntries(rt, Oldest(s.mem, limit))));
    if |Oldest(s.mem, limit)| <= w.readable {
      ReachesBy(rt, s, BeginReplay(limit), t, clear);
      ReplayGroupsReaches(rt, t, w, clear);
      ReachesThen(rt, s, t, ReplayGroups(t, w), clear);
    }
  }

  lemma FlushThenReplayReaches(rt: Router, s: State, limit: nat, flush: Weather, replay: Weather, clear: bool)
    requires Idle(s) && (clear ==> flush.taken == {} && replay.taken == {})
    ensures Reaches(rt, s, FlushThenReplay(rt, s, limit, flush, replay), clear)
    ensures FlushThenReplay(rt, s, limit, flush, replay).ok ==> Idle(FlushThenReplay(rt, s, limit, flush, replay).state)
  {
    hide Reaches, Flush, Replay, Idle;
    FlushReaches(rt, s, flush, clear);
    var o := Flush(rt, s, flush);
    if o.ok {
      ReplayReaches(rt, o.state, limit, replay, clear);
      ReachesThen(rt, s, o.state, Replay(rt, o.state, limit, replay), clear);
    }
  }

  lemma TakeReaches(rt: Router, s: State, x: Sample, clear: bool)
    requires Idle(s)
    ensures Reaches(rt, s, Outcome(Take(s, x), true), clear) && Idle(Take(s, x))
  {
    ReachesBy(rt, s, Receive(x), Take(s, x), clear);
  }

  lemma {:induction false} LoopReaches(rt: Router, s: State, batch: nat, events: seq<Event>, clear: bool)
    requires Idle(s) && (clear ==> forall i :: 0 <= i < |events| ==> Clear(events[i]))
    ensures Reaches(rt, s, Loop(rt, s, batch, events), clear)
    ensures Loop(rt, s, batch, events).ok ==> Idle(Loop(rt, s, batch, events).state)
  {
    hide Reaches, FlushThenReplay, Idle, Take;
    if events == [] {
      ReachesHere(rt, s, clear);
    } else {
      LoopReaches(rt, s, batch, events[..|events| - 1], clear);
      var o, e := Loop(rt, s, batch, events[..|events| - 1]), events[|events| - 1];
      if o.ok {
        var t := o.state;
        assert clear ==> Clear(e);
        match e
        case Tick(flush, replay) =>
          FlushThenReplayReaches(rt, t, batch, flush, replay, clear);
          ReachesThen(rt, s, t, FlushThenReplay(rt, t, batch, flush, replay), clear);
        case Received(x, flush, replay) =>
          TakeReaches(rt, t, x, clear);
          ReachesThen(rt, s, t, Outcome(Take(t, x), true), clear);
          if |t.pending| + 1 >= batch {
            FlushThenReplayReaches(rt, Take(t, x), batch, flush, replay, clear);
            ReachesThen(rt, s, Take(t, x), FlushThenReplay(rt, Take(t, x), batch, flush, replay), clear);
          }
      }
    }
  }

  lemma {:induction false} DrainReaches(rt: Router, s: State, batch: nat, queue: seq<Queued>, clear: bool)
    requires Idle(s) && (clear ==> forall i :: 0 <= i < |queue| ==> queue[i].flush.taken == {})
    ensures Reaches(rt, s, Drain(rt, s, batch, queue), clear)
    ensures Drain(rt, s, batch, queue).ok ==> Idle(Drain(rt, s, batch, queue).state)
  {
    hide Reaches, Flush, Idle, Take;
    if queue == [] {
      ReachesHere(rt, s, clear);
    } else {
      DrainReaches(rt, s, batch, queue[..|queue| - 1], clear);
      var o, q := Drain(rt, s, batch, queue[..|queue| - 1]), queue[|queue| - 1];
      if o.ok {
        TakeReaches(rt, o.state, q.sample, clear);
        ReachesThen(rt, s, o.state, Outcome(Take(o.state, q.sample), true), clear);
        if |o.state.pending| + 1 >= batch {
          FlushReaches(rt, Take(o.state, q.sample), q.flush, clear);
          ReachesThen(rt, s, Take(o.state, q.sample), Flush(rt, Take(o.state, q.sample), q.flush), clear);
        }
      }
    }
  }

  /**
   The whole `run` is a crash-free run of the machine; without an error it aborts nowhere, and in clear weather
   no INSERT that took effect is reported as failed.
   */
  lemma RunReaches(rt: Router, s: State, batch: nat, start: Weather, events: seq<Event>, queue: seq<Queued>,
                   last: Weather, closes: bool, clear: bool)
    requires Idle(s) && (clear ==> AllClear(start, events, queue, last))
    ensures var o := Run(rt, s, batch, start, events, queue, last, closes);
      Reaches(rt, s, o, clear) && (o.ok ==> Idle(o.state))
  {
    hide Reaches, Replay, Loop, Drain, Flush;
    ReplayReaches(rt, s, batch, start, clear);
    var a := Replay(rt, s, batch, start);
    if a.ok {
      LoopReaches(rt, a.state, batch, events, clear);
      var b := Loop(rt, a.state, batch, events);
      ReachesThen(rt, s, a.state, b, clear);
      if b.ok {
        DrainReaches(rt, b.state, batch, queue, clear);
        var c := Drain(rt, b.state, batch, queue);
        ReachesThen(rt, s, b.state, c, clear);
        if c.ok {
          FlushReaches(rt, c.state, last, clear);
          var d := Flush(rt, c.state, last);
          ReachesThen(rt, s, c.state, d, clear);
          if d.ok && closes {
            ReachesBy(rt, d.state, Sync, Synced(d.state), clear);
            ReachesThen(rt, s, d.state, Outcome(Synced(d.state), true), clear);
          } else if d.ok {
            ReachesFailure(rt, s, d.state, clear);
          }
        }
      }
    }
  }

  lemma ReachesFailure(rt: Router, s: State, t: State, clear: bool)
    requires Reaches(rt, s, Outcome(t, true), clear)
    ensures Reaches(rt, s, Outcome(t, false), clear)
  {
    hide Exec, NoAbort;
    hide AllHeard;
    var steps :| Leads(rt, s, steps, Outcome(t, true), clear);
    assert Leads(rt, s, steps, Outcome(t, false), clear);
  }
}

/** What whole calls of the sink worker achieve. */
module SinkOutcomes {
  import opened Samples
  import opened Grouping
  import opened Buffer
  import opened SinkMachine
  import opened SinkTheorems
  import opened SinkWorkerSpec
  import opened SinkWorkerRuns

  // ---- conservation over run ----

  lemma ReachedIsSound(rt: Router, s: State, o: Outcome, clear: bool)
    requires Inv(rt, s) && Balanced(s) && Reaches(rt, s, o, clear)
    ensures Inv(rt, o.state) && Balanced(o.state)
    ensures o.ok ==> o.state.lost == s.lost && (clear ==> o.state.twice == s.twice)
  {
    hide Inv, Balanced;
    var steps :| Leads(rt, s, steps, o, clear);
    RunKeeps(rt, s, steps);
    RunBalances(rt, s, steps);
  }

  lemma {:induction false} FlushGroupsFrame(s: State, w: Weather)
    requires s.pending == []
    ensures var o := FlushGroups(s, w);
      o.state.received == s.received && o.state.pending == []
    decreases |s.flushing|
  {
    hide Rows, Flatten, Numbered;
    if s.flushing != [] {
      var g, rest := s.flushing[0], s.(flushing := s.flushing[1..]);
      if g.key !in w.down {
        FlushGroupsFrame(rest.(log := s.log + Rows(g.key, g.items)), w);
      } else if |g.items| < w.room {
        FlushGroupsFrame(Synced(Spilled(Failed(rest, w, g.key, g.items), g.items)), w.(room := w.room - |g.items| - 1));
      }
    }
  }

  lemma FlushFrame(rt: Router, s: State, w: Weather)
    ensures var o := Flush(rt, s, w);
      o.state.received == s.received && o.state.pending == []
  {
    hide FlushGroups, Collect;
    if s.pending != [] {
      FlushGroupsFrame(s.(flushing := Collect(Routed(rt, s.pending)), pending := []), w);
    }
  }

  lemma {:induction false} ReplayGroupsFrame(s: State, w: Weather)
    ensures var o := ReplayGroups(s, w);
      o.state.received == s.received && (o.ok ==> o.state.pending == s.pending)
          && (s.pending == [] ==> o.state.pending == [])
    decreases |s.replaying|
  {
    hide Rows, Flatten, WithoutAll;
    if s.replaying != [] {
      var g, rest := s.replaying[0], s.(replaying := s.replaying[1..]);
      if g.key in w.down {
        ReplayGroupsFrame(Failed(rest, w, g.key, SamplesOf(g.items)), w);
      } else if |g.items| < w.room {
        ReplayGroupsFrame(Synced(Removed(Inserted(s, g), g.items)), w.(room := w.room - |g.items| - 1));
      }
    }
  }

  lemma FlushThenReplayFrame(rt: Router, s: State, limit: nat, flush: Weather, replay: Weather)
    ensures var o := FlushThenReplay(rt, s, limit, flush, replay);
      o.state.received == s.received && o.state.pending == []
  {
    hide Flush, Replay;
    FlushFrame(rt, s, flush);
    ReplayFrame(rt, Flush(rt, s, flush).state, limit, replay);
  }

  lemma ReplayFrame(rt: Router, s: State, limit: nat, w: Weather)
    ensures var o := Replay(rt, s, limit, w);
      o.state.received == s.received && (o.ok ==> o.state.pending == s.pending)
          && (s.pending == [] ==> o.state.pending == [])
  {
    hide ReplayGroups, Collect, Oldest;
    ReplayGroupsFrame(s.(replaying := Collect(RoutedEntries(rt, Oldest(s.mem, limit)))), w);
  }

  function Arrivals(events: seq<Event>): seq<Sample> {
    if events == [] then []
    else
      var rest, e := Arrivals(events[..|events| - 1]), events[|events| - 1];
      if e.Received? then rest + [e.sample] else rest
  }

  function QueuedSamples(queue: seq<Queued>): seq<Sample> {
    if queue == [] then [] else QueuedSamples(queue[..|queue| - 1]) + [queue[|queue| - 1].sample]
  }

  /** The loop takes every sample, and waits with fewer than a batch of them. */
  lemma {:induction false} LoopTakes(rt: Router, s: State, batch: nat, events: seq<Event>)
    requires Loop(rt, s, batch, events).ok
    ensures var t := Loop(rt, s, batch, events).state;
      && t.received == s.received + Arrivals(events)
      && (batch > 0 && |s.pending| < batch ==> |t.pending| < batch)
  {
    hide FlushThenReplay;
    if events != [] {
      var init, e := events[..|events| - 1], events[|events| - 1];
      LoopTakes(rt, s, batch, init);
      var t := Loop(rt, s, batch, init).state;
      match e
      case Tick(flush, replay) => FlushThenReplayFrame(rt, t, batch, flush, replay);
      case Received(x, flush, replay) => FlushThenReplayFrame(rt, Take(t, x), batch, flush, replay);
    }
  }

  lemma {:induction false} DrainTakes(rt: Router, s: State, batch: nat, queue: seq<Queued>)
    requires Drain(rt, s, batch, queue).ok
    ensures var t := Drain(rt, s, batch, queue).state;
      && t.received == s.received + QueuedSamples(queue)
      && (batch > 0 && |s.pending| < batch ==> |t.pending| < batch)
  {
    hide Flush;
    if queue != [] {
      DrainTakes(rt, s, batch, queue[..|queue| - 1]);
      var t, q := Drain(rt, s, batch, queue[..|queue| - 1]).state, queue[|queue| - 1];
      FlushFrame(rt, Take(t, q.sample), q.flush);
    }
  }

  /**
   A batch handed to a flush by a full batch builder has exactly `batch` samples, whatever came before;
   a timer flush and the last flush have fewer.
   */
  lemma FullBatchExact(rt: Router, s: State, batch: nat, events: seq<Event>, x: Sample)
    requires batch > 0 && |s.pending| < batch && Loop(rt, s, batch, events).ok
    ensures var t := Loop(rt, s, batch, events).state;
      |t.pending| < batch && (|t.pending| + 1 >= batch ==> |Take(t, x).pending| == batch)
  {
    LoopTakes(rt, s, batch, events);
  }

  /**
   The same holds of the drain after shutdown: a queued sample that fills the builder makes a batch of exactly
   `batch` samples, and fewer are left for the last flush.
   */
  lemma DrainBatchExact(rt: Router, s: State, batch: nat, queue: seq<Queued>, x: Sample)
    requires batch > 0 && |s.pending| < batch && Drain(rt, s, batch, queue).ok
    ensures var t := Drain(rt, s, batch, queue).state;
      |t.pending| < batch && (|t.pending| + 1 >= batch ==> |Take(t, x).pending| == batch)
  {
    DrainTakes(rt, s, batch, queue);
  }

  /**
   Shutdown: when `run` ends without error, nothing waits, everything on the way is flushed to disk, and the
   samples received, including those still queued at shutdown, and those written twice are the buffered and
   inserted ones. None is written twice if no failing INSERT took effect.
   */
  lemma ShutdownDrains(rt: Router, s: State, batch: nat, start: Weather, events: seq<Event>, queue: seq<Queued>,
                       last: Weather, closes: bool)
    requires Inv(rt, s) && Balanced(s) && Idle(s) && s.pending == [] && s.lost == [] && s.twice == []
    requires Run(rt, s, batch, start, events, queue, last, closes).ok
    ensures var t := Run(rt, s, batch, start, events, queue, last, closes).state;
      && t.received == s.received + Arrivals(events) + QueuedSamples(queue)
      && t.pending == [] && t.disk == t.mem && LogRouted(rt, t)
      && multiset(t.received) + multiset(t.twice) == multiset(SamplesOf(t.mem)) + multiset(LogSamples(t.log))
      && (AllClear(start, events, queue, last) ==> t.twice == [])
  {
    hide Inv, Balanced, Reaches, Loop, Drain, Flush, Replay, Count, AllClear;
    var o := Run(rt, s, batch, start, events, queue, last, closes);
    var clear := AllClear(start, events, queue, last);
    RunReaches(rt, s, batch, start, events, queue, last, closes, clear);
    ReachedIsSound(rt, s, o, clear);
    RoutedPart(rt, o.state);
    var a := Replay(rt, s, batch, start).state;
    ReplayFrame(rt, s, batch, start);
    var b := Loop(rt, a, batch, events).state;
    LoopTakes(rt, a, batch, events);
    var c := Drain(rt, b, batch, queue).state;
    DrainTakes(rt, b, batch, queue);
    FlushFrame(rt, c, last);
    IdleBag(o.state);
  }

  lemma IdleBag(t: State)
    requires Balanced(t) && Idle(t) && t.pending == [] && t.lost == []
    ensures multiset(t.received) + multiset(t.twice) == multiset(SamplesOf(t.mem)) + multiset(LogSamples(t.log))
  {
    hide Idle, BalancedAt;
    forall x
      ensures (multiset(t.received) + multiset(t.twice))[x]
        == (multiset(SamplesOf(t.mem)) + multiset(LogSamples(t.log)))[x]
    {
      assert BalancedAt(t, x);
      IdleBalance(t, x);
    }
  }

  /** A worker that starts on what an earlier process left in the buffer. */
  lemma RestartIsSound(rt: Router, left: seq<BufferedSample>, nextId: nat)
    requires Increasing(left) && forall e :: e in left ==> e.id < nextId
    ensures var s := Init().(received := SamplesOf(left), mem := left, disk := left, nextId := nextId,
                             ever := set e | e in left);
      Inv(rt, s) && Balanced(s) && Idle(s)
  {
    var s := Init().(received := SamplesOf(left), mem := left, disk := left, nextId := nextId,
                     ever := set e | e in left);
    assert s.acking + Flatten(s.replaying) == [];
    assert LogSamples([]) == [] && SamplesOf([]) == [];
  }
}

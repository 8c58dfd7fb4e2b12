/** The objects of src/sink.rs: `BatchBuilder` and `SinkWorker`, proved against `SinkWorkerSpec`. */
module SinkService {
  import opened Samples
  import opened Grouping
  import opened Buffer
  import opened Options
  import opened SinkMachine
  import opened SinkWorkerSpec
  import SinkReplay

  class BatchBuilder {
    const batchSize: nat
    var pending: seq<Sample>

    constructor (batchSize: nat)
      ensures this.batchSize == batchSize && pending == []
    {
      this.batchSize, pending := batchSize, [];
    }

    /** Hands out the whole batch as soon as it has `batchSize` samples. */
    method Push(x: Sample) returns (full: Option<seq<Sample>>)
      modifies this
      ensures var all := old(pending) + [x];
        if |all| >= batchSize then full == Some(all) && pending == [] else full == None && pending == all
    {
      pending := pending + [x];
      if |pending| >= batchSize {
        full := Some(pending);
        pending := [];
      } else {
        full := None;
      }
    }

    method Flush() returns (batch: seq<Sample>)
      modifies this
      ensures batch == old(pending) && pending == []
    {
      batch := pending;
      pending := [];
    }
  }

  class SinkWorker {
    const rt: Router
    const batchSize: nat
    const buffer: SampleBuffer
    var log: seq<Row>
    ghost var received: seq<Sample>
    ghost var lost: seq<Sample>
    ghost var twice: seq<Sample>
    ghost var ever: set<BufferedSample>

    constructor (rt: Router, batchSize: nat, buffer: SampleBuffer)
      requires buffer.Valid()
      ensures this.rt == rt && this.batchSize == batchSize && this.buffer == buffer && log == []
      ensures received == SamplesOf(buffer.Contents()) && lost == [] && twice == []
      ensures ever == set e | e in buffer.synced
    {
      this.rt, this.batchSize, this.buffer, log := rt, batchSize, buffer, [];
      received, lost, twice, ever := SamplesOf(buffer.Contents()), [], [], set e | e in buffer.synced;
    }

    /** The worker as a machine state, between two calls, with `pending` in the batch builder. */
    ghost function View(pending: seq<Sample>): State
      requires buffer.Valid()
      reads this, buffer
    {
      State(received, pending, [], [], [], [], buffer.Contents(), buffer.synced, buffer.nextId, log, lost, twice, ever)
    }

    /** One group of a batch: into its table, or into the buffer when the insert fails. */
    method WriteGroup(g: Group<Sample>, w: Weather) returns (ok: bool, left: nat)
      requires buffer.Valid() && buffer.nextId + |g.items| <= ID_LIMIT
      modifies this`log, this`ever, this`twice, buffer
      ensures buffer.Valid() && buffer.nextId <= old(buffer.nextId) + |g.items|
      ensures left == if g.key in w.down && ok then w.room - |g.items| - 1 else w.room
      ensures ok <==> g.key !in w.down || |g.items| < w.room
      ensures View([]) ==
        if g.key !in w.down then old(View([])).(log := old(log) + Rows(g.key, g.items))
        else if ok then Synced(Spilled(Failed(old(View([])), w, g.key, g.items), g.items))
        else Spilled(Failed(old(View([])), w, g.key, g.items), g.items[..w.room])
    {
      hide Router.TableFor, Increasing, SampleBuffer.Valid, SampleBuffer.Contents, Rows, Numbered;
      ok, left := true, w.room;
      if g.key !in w.down {
        log := log + Rows(g.key, g.items);
      } else {
        if g.key in w.taken {
          log := log + Rows(g.key, g.items);
          twice := twice + g.items;
        }
        ok := buffer.PushMany(g.items, w.room);
        if ok {
          assert g.items[..|g.items|] == g.items;
          ok := buffer.Flush(w.room > |g.items|);
        }
        if ok {
          ever := ever + set e | e in buffer.Contents();
          left := w.room - |g.items| - 1;
        }
      }
    }

    /** `flush_new_samples`. */
    method FlushNewSamples(samples: seq<Sample>, w: Weather) returns (ok: bool)
      requires buffer.Valid() && buffer.nextId + |samples| <= ID_LIMIT
      modifies this`log, this`ever, this`lost, this`twice, buffer
      ensures buffer.Valid() && Outcome(View([]), ok) == Flush(rt, old(View(samples)), w)
      ensures buffer.nextId <= old(buffer.nextId) + |samples|
    {
      hide FlushGroups, Collect, Router.TableFor, Increasing, SampleBuffer.Valid, SampleBuffer.Contents, Spilled,
          Synced, Rows;
      if samples == [] {
        return true;
      }
      var groups := GroupByKey(Routed(rt, samples));
      SinkReplay.FlattenLength(rt, samples);
      ghost var start := View([]).(flushing := groups);
      var room: nat := w.room;
      var i := 0;
      while i < |groups|
        invariant 0 <= i <= |groups| && buffer.Valid()
        invariant FlushGroups(View([]).(flushing := groups[i..]), w.(room := room)) == FlushGroups(start, w)
        invariant buffer.nextId + |Flatten(groups[i..])| <= old(buffer.nextId) + |samples|
      {
        ghost var s := View([]).(flushing := groups[i..]);
        FlushOne(s, w.(room := room));
        assert groups[i..][0] == groups[i] && groups[i..][1..] == groups[i + 1..];
        assert |Flatten(groups[i..])| == |groups[i].items| + |Flatten(groups[i + 1..])|;
        var written, left := WriteGroup(groups[i], w.(room := room));
        if !written {
          lost := lost + groups[i].items[room..] + Flatten(groups[i + 1..]);
          DropAfterSpill(s, w, groups[i], groups[i].items[..room], groups[i].items[room..], groups[i + 1..]);
          return false;
        }
        AfterGroup(s, w, groups[i], groups[i + 1..]);
        room := left;
        i := i + 1;
      }
      assert groups[|groups|..] == [];
      FlushOne(View([]), w.(room := room));
      ok := true;
    }

    /** One group of a replay: into its table and out of the buffer, or left where it is. */
    method ReplayGroup(g: Group<BufferedSample>, w: Weather) returns (ok: bool, left: nat)
      requires buffer.Valid() && forall k :: 0 <= k < |g.items| ==> g.items[k].id < ID_LIMIT
      modifies this`log, this`ever, this`twice, buffer
      ensures buffer.Valid() && buffer.nextId == old(buffer.nextId)
      ensures left == if g.key !in w.down && ok then w.room - |g.items| - 1 else w.room
      ensures ok <==> g.key in w.down || |g.items| < w.room
      ensures var before := old(View([]));
        View([]) ==
          if g.key in w.down then Failed(before, w, g.key, SamplesOf(g.items))
          else if ok then Synced(Removed(InLog(before, g), g.items))
          else Removed(InLog(before, g), g.items[..w.room])
    {
      hide Router.TableFor, Increasing, SampleBuffer.Valid, SampleBuffer.Contents, WithoutAll;
      ok, left := true, w.room;
      if g.key !in w.down {
        log := log + Rows(g.key, SamplesOf(g.items));
        ok := buffer.Ack(g.items, w.room);
        if ok {
          assert g.items[..|g.items|] == g.items;
          ok := buffer.Flush(w.room > |g.items|);
        }
        if ok {
          ever := ever + set e | e in buffer.Contents();
          left := w.room - |g.items| - 1;
        }
      } else if g.key in w.taken {
        log := log + Rows(g.key, SamplesOf(g.items));
        twice := twice + SamplesOf(g.items);
      }
    }

    /** `replay_buffered`. */
    method ReplayBuffered(w: Weather) returns (ok: bool)
      requires buffer.Valid()
      modifies this`log, this`ever, this`twice, buffer
      ensures buffer.Valid() && Outcome(View([]), ok) == Replay(rt, old(View([])), batchSize, w)
      ensures buffer.nextId == old(buffer.nextId)
    {
      hide ReplayGroups, Collect, Router.TableFor, Increasing, SampleBuffer.Valid, SampleBuffer.Contents,
           WithoutAll, Rows, Synced, SamplesOf, Inserted, InLog, Removed, GivenUp, IsPartition, Flatten, Failed;
      var drained := buffer.DrainBatch(batchSize, w.readable);
      if drained.None? {
        DroppedNothing(View([]));
        return false;
      }
      var entries := drained.value;
      assert entries == Oldest(buffer.Contents(), batchSize);
      var groups := GroupByKey(RoutedEntries(rt, entries));
      EntryIds(buffer, entries);
      ghost var start := View([]).(replaying := groups);
      var room: nat := w.room;
      var i := 0;
      while i < |groups|
        invariant 0 <= i <= |groups| && buffer.Valid() && buffer.nextId == old(buffer.nextId)
        invariant ReplayGroups(View([]).(replaying := groups[i..]), w.(room := room)) == ReplayGroups(start, w)
      {
        ReplayStep(View([]), groups[i], groups[i + 1..], w.(room := room));
        assert groups[i..] == [groups[i]] + groups[i + 1..];
        forall k | 0 <= k < |groups[i].items| ensures groups[i].items[k].id < ID_LIMIT {
          SinkReplay.GroupMember(rt, entries, i, k);
        }
        var written, left := ReplayGroup(groups[i], w.(room := room));
        if !written {
          twice := twice + SamplesOf(groups[i].items[room..]);
          return false;
        }
        room := left;
        i := i + 1;
      }
      assert groups[|groups|..] == [];
      ReplayOne(View([]), w.(room := room));
      ok := true;
    }

    method FlushAndReplay(samples: seq<Sample>, flush: Weather, replay: Weather) returns (ok: bool)
      requires buffer.Valid() && buffer.nextId + |samples| <= ID_LIMIT
      modifies this`log, this`ever, this`lost, this`twice, buffer
      ensures buffer.Valid() && Outcome(View([]), ok)
        == FlushThenReplay(rt, old(View(samples)), batchSize, flush, replay)
      ensures buffer.nextId <= old(buffer.nextId) + |samples|
    {
      hide Flush, Replay, SampleBuffer.Valid, SampleBuffer.Contents;
      ok := FlushNewSamples(samples, flush);
      if ok {
        ok := ReplayBuffered(replay);
      }
    }

    /** The select loop, for the events it reacts to before it stops. */
    method SelectLoop(batcher: BatchBuilder, events: seq<Event>) returns (ok: bool)
      requires buffer.Valid() && batcher.batchSize == batchSize
      requires buffer.nextId + |batcher.pending| + |events| <= ID_LIMIT
      modifies this`log, this`ever, this`lost, this`twice, this`received, buffer, batcher
      ensures buffer.Valid()
      ensures !ok ==> batcher.pending == []
      ensures Outcome(View(batcher.pending), ok) == Loop(rt, old(View(batcher.pending)), batchSize, events)
      ensures ok ==> buffer.nextId + |batcher.pending| <= old(buffer.nextId) + old(|batcher.pending|) + |events|
    {
      hide FlushThenReplay, SampleBuffer.Valid, SampleBuffer.Contents;
      ghost var s := View(batcher.pending);
      var i := 0;
      while i < |events|
        invariant 0 <= i <= |events| && buffer.Valid()
        invariant Outcome(View(batcher.pending), true) == Loop(rt, s, batchSize, events[..i])
        invariant buffer.nextId + |batcher.pending| <= old(buffer.nextId) + old(|batcher.pending|) + i
      {
        LoopOne(rt, s, batchSize, events, i);
        match events[i] {
          case Received(x, flush, replay) =>
            received := received + [x];
            var full := batcher.Push(x);
            if full.Some? {
              ok := FlushAndReplay(full.value, flush, replay);
              if !ok {
                return;
              }
            }
          case Tick(flush, replay) =>
            var batch := batcher.Flush();
            ok := FlushAndReplay(batch, flush, replay);
            if !ok {
              return;
            }
        }
        i := i + 1;
      }
      assert events[..|events|] == events;
      ok := true;
    }

    /** The drain after shutdown. */
    method DrainQueue(batcher: BatchBuilder, queue: seq<Queued>) returns (ok: bool)
      requires buffer.Valid() && batcher.batchSize == batchSize
      requires buffer.nextId + |batcher.pending| + |queue| <= ID_LIMIT
      modifies this`log, this`ever, this`lost, this`twice, this`received, buffer, batcher
      ensures buffer.Valid()
      ensures !ok ==> batcher.pending == []
      ensures Outcome(View(batcher.pending), ok) == Drain(rt, old(View(batcher.pending)), batchSize, queue)
      ensures ok ==> buffer.nextId + |batcher.pending| <= old(buffer.nextId) + old(|batcher.pending|) + |queue|
    {
      hide Flush, SampleBuffer.Valid, SampleBuffer.Contents;
      ghost var s := View(batcher.pending);
      var i := 0;
      while i < |queue|
        invariant 0 <= i <= |queue| && buffer.Valid()
        invariant Outcome(View(batcher.pending), true) == Drain(rt, s, batchSize, queue[..i])
        invariant buffer.nextId + |batcher.pending| <= old(buffer.nextId) + old(|batcher.pending|) + i
      {
        DrainOne(rt, s, batchSize, queue, i);
        received := received + [queue[i].sample];
        var full := batcher.Push(queue[i].sample);
        if full.Some? {
          ok := FlushNewSamples(full.value, queue[i].flush);
          if !ok {
            return;
          }
        }
        i := i + 1;
      }
      assert queue[..|queue|] == queue;
      ok := true;
    }

    /** `run`: everything from start-up to the last flush. Seeding the realtime table is not part of it here. */
    method RunWorker(start: Weather, events: seq<Event>, queue: seq<Queued>, last: Weather, closes: bool)
      returns (ok: bool)
      requires buffer.Valid() && buffer.nextId + |events| + |queue| <= ID_LIMIT
      modifies this`log, this`ever, this`lost, this`twice, this`received, buffer
      ensures buffer.Valid()
      ensures Outcome(View([]), ok) == Run(rt, old(View([])), batchSize, start, events, queue, last, closes)
    {
      hide Flush, Replay, Loop, Drain, SampleBuffer.Valid, SampleBuffer.Contents;
      var batcher := new BatchBuilder(batchSize);
      ok := ReplayBuffered(start);
      if !ok {
        return;
      }
      ok := SelectLoop(batcher, events);
      if !ok {
        return;
      }
      ok := DrainQueue(batcher, queue);
      if !ok {
        return;
      }
      var final := batcher.Flush();
      ok := FlushNewSamples(final, last);
      if !ok {
        return;
      }
      ok := buffer.Flush(closes);
      if ok {
        ever := ever + set e | e in buffer.Contents();
      }
    }
  }

  /** One turn of the flush loop. */
  lemma FlushOne(s: State, w: Weather)
    ensures s.flushing == [] ==> FlushGroups(s, w) == Outcome(s, true)
    ensures s.flushing != [] ==>
      var g, rest := s.flushing[0], s.(flushing := s.flushing[1..]);
      FlushGroups(s, w) ==
        var failed := Failed(rest, w, g.key, g.items);
        if g.key !in w.down then FlushGroups(rest.(log := s.log + Rows(g.key, g.items)), w)
        else if |g.items| < w.room then
          FlushGroups(Synced(Spilled(failed, g.items)), w.(room := w.room - |g.items| - 1))
        else Outcome(Dropped(Spilled(failed, g.items[..w.room]), g.items[w.room..]), false)
  {
    hide Rows, Numbered;
  }

  /** One turn of the replay loop. */
  lemma ReplayOne(s: State, w: Weather)
    ensures s.replaying == [] ==> ReplayGroups(s, w) == Outcome(s, true)
    ensures s.replaying != [] ==>
      var g := s.replaying[0];
      ReplayGroups(s, w) ==
        if g.key in w.down then ReplayGroups(Failed(s.(replaying := s.replaying[1..]), w, g.key, SamplesOf(g.items)), w)
        else if |g.items| < w.room then
          ReplayGroups(Synced(Removed(Inserted(s, g), g.items)), w.(room := w.room - |g.items| - 1))
        else Outcome(GivenUp(Removed(Inserted(s, g), g.items[..w.room]), g.items[w.room..]), false)
  {
    hide Inserted, Removed, GivenUp, Synced;
  }

  function InLog(s: State, g: Group<BufferedSample>): State {
    s.(log := s.log + Rows(g.key, SamplesOf(g.items)))
  }

  /** A view between two groups is the machine state without its list of groups. */
  lemma AfterReplay(s: State, g: Group<BufferedSample>, rest: seq<Group<BufferedSample>>, gone: seq<BufferedSample>)
    requires s.replaying == [g] + rest
    ensures Removed(Inserted(s, g), gone) == Removed(InLog(s.(replaying := []), g), gone).(replaying := rest)
    ensures Synced(Removed(Inserted(s, g), gone))
      == Synced(Removed(InLog(s.(replaying := []), g), gone)).(replaying := rest)
  {
    hide Rows, SamplesOf, WithoutAll;
  }

  lemma DroppedNothing(s: State)
    requires s.pending == [] && s.flushing == []
    ensures Dropped(s, []) == s
  {
  }

  lemma GiveUp(s: State, rest: seq<BufferedSample>)
    requires s.pending == [] && s.flushing == []
    ensures GivenUp(s, rest) == s.(replaying := [], twice := s.twice + SamplesOf(rest))
  {
    hide SamplesOf;
    assert Flatten(s.flushing) == [];
  }

  /** One group of a replay, seen from between two groups. */
  lemma ReplayStep(v: State, g: Group<BufferedSample>, rest: seq<Group<BufferedSample>>, w: Weather)
    requires v.replaying == [] && v.pending == [] && v.flushing == []
    ensures ReplayGroups(v.(replaying := [g] + rest), w) ==
      if g.key in w.down then ReplayGroups(Failed(v, w, g.key, SamplesOf(g.items)).(replaying := rest), w)
      else if |g.items| < w.room then
        ReplayGroups(Synced(Removed(InLog(v, g), g.items)).(replaying := rest), w.(room := w.room - |g.items| - 1))
      else Outcome(WithTwice(Removed(InLog(v, g), g.items[..w.room]), g.items[w.room..]), false)
  {
    hide ReplayGroups, Inserted, Removed, GivenUp, Synced, InLog, SamplesOf;
    var s := v.(replaying := [g] + rest);
    assert s.replaying[1..] == rest;
    assert s.(replaying := []) == v;
    ReplayOne(s, w);
    AfterReplay(s, g, rest, g.items);
    FailedKeeps(v, w, g, rest);
    if |g.items| >= w.room {
      AfterReplay(s, g, rest, g.items[..w.room]);
      RemovedKeeps(s, v, g, g.items[..w.room]);
      GiveUp(Removed(Inserted(s, g), g.items[..w.room]), g.items[w.room..]);
    }
  }

  lemma FailedKeeps(v: State, w: Weather, g: Group<BufferedSample>, rest: seq<Group<BufferedSample>>)
    ensures Failed(v.(replaying := rest), w, g.key, SamplesOf(g.items))
      == Failed(v, w, g.key, SamplesOf(g.items)).(replaying := rest)
  {
    hide Rows, SamplesOf;
  }

  function WithTwice(s: State, rest: seq<BufferedSample>): State {
    s.(twice := s.twice + SamplesOf(rest))
  }

  lemma RemovedKeeps(s: State, v: State, g: Group<BufferedSample>, gone: seq<BufferedSample>)
    requires s.replaying != []
    ensures Removed(Inserted(s, g), gone).pending == s.pending && Removed(Inserted(s, g), gone).flushing == s.flushing
    ensures Removed(InLog(v, g), gone).replaying == v.replaying
  {
    hide SamplesOf, Rows, WithoutAll;
  }

  lemma LoopOne(rt: Router, s: State, batch: nat, events: seq<Event>, i: nat)
    requires i < |events|
    ensures Loop(rt, s, batch, events[..i + 1])
         == if Loop(rt, s, batch, events[..i]).ok
             then OnEvent(rt, Loop(rt, s, batch, events[..i]).state, batch, events[i])
            else Loop(rt, s, batch, events[..i])
    ensures !Loop(rt, s, batch, events[..i + 1]).ok ==>
      Loop(rt, s, batch, events) == Loop(rt, s, batch, events[..i + 1])
  {
    hide OnEvent;
    assert events[..i + 1][..i] == events[..i];
    if !Loop(rt, s, batch, events[..i + 1]).ok {
      LoopStays(rt, s, batch, events, i + 1);
    }
  }

  lemma {:induction false} LoopStays(rt: Router, s: State, batch: nat, events: seq<Event>, i: nat)
    requires i <= |events| && !Loop(rt, s, batch, events[..i]).ok
    ensures Loop(rt, s, batch, events) == Loop(rt, s, batch, events[..i])
  {
    hide OnEvent;
    if i == |events| {
      assert events[..i] == events;
    } else {
      var init := events[..|events| - 1];
      assert init[..i] == events[..i];
      LoopStays(rt, s, batch, init, i);
    }
  }

  lemma DrainOne(rt: Router, s: State, batch: nat, queue: seq<Queued>, i: nat)
    requires i < |queue|
    ensures Drain(rt, s, batch, queue[..i]).ok ==>
      var t := Drain(rt, s, batch, queue[..i]).state;
      Drain(rt, s, batch, queue[..i + 1])
      == if |t.pending| + 1 >= batch then Flush(rt, Take(t, queue[i].sample), queue[i].flush)
         else Outcome(Take(t, queue[i].sample), true)
    ensures !Drain(rt, s, batch, queue[..i + 1]).ok ==>
      Drain(rt, s, batch, queue) == Drain(rt, s, batch, queue[..i + 1])
  {
    hide Flush, Take;
    assert queue[..i + 1][..i] == queue[..i];
    if !Drain(rt, s, batch, queue[..i + 1]).ok {
      DrainStays(rt, s, batch, queue, i + 1);
    }
  }

  lemma {:induction false} DrainStays(rt: Router, s: State, batch: nat, queue: seq<Queued>, i: nat)
    requires i <= |queue| && !Drain(rt, s, batch, queue[..i]).ok
    ensures Drain(rt, s, batch, queue) == Drain(rt, s, batch, queue[..i])
  {
    hide Flush, Take;
    if i == |queue| {
      assert queue[..i] == queue;
    } else {
      var init := queue[..|queue| - 1];
      assert init[..i] == queue[..i];
      DrainStays(rt, s, batch, init, i);
    }
  }

  lemma AfterGroup(s: State, w: Weather, g: Group<Sample>, rest: seq<Group<Sample>>)
    ensures Synced(Spilled(Failed(s.(flushing := rest), w, g.key, g.items), g.items))
         == Synced(Spilled(Failed(s.(flushing := []), w, g.key, g.items), g.items)).(flushing := rest)
  {
    hide Rows, Numbered;
  }

  lemma DropAfterSpill(s: State, w: Weather, g: Group<Sample>, kept: seq<Sample>, gone: seq<Sample>,
                       rest: seq<Group<Sample>>)
    requires s.pending == []
    ensures Dropped(Spilled(Failed(s.(flushing := rest), w, g.key, g.items), kept), gone)
         == Spilled(Failed(s.(flushing := []), w, g.key, g.items), kept).(lost := s.lost + gone + Flatten(rest))
  {
    hide Rows, Numbered, Flatten;
  }

  lemma EntryIds(buffer: SampleBuffer, entries: seq<BufferedSample>)
    requires buffer.Valid() && forall e :: e in entries ==> e in buffer.Contents()
    ensures forall e :: e in entries ==> e.id < ID_LIMIT
  {
  }
}

/**
 The sink worker as a machine of single statements: one INSERT of a group, one write or removal in the
 buffer, one flush of the buffer to disk. A crash may come between any two of them.
 */
module SinkMachine {
  import opened Samples
  import opened Grouping
  import opened Buffer
  import opened Options

  /** A history row: the table it went to and the sample. */
  datatype Row = Row(table: string, sample: Sample)

  datatype State = State(
    received: seq<Sample>,                     // everything taken from the channel so far
    pending: seq<Sample>,                      // the batch builder
    flushing: seq<Group<Sample>>,              // groups of the current batch not yet written
    spilling: seq<Sample>,                     // rest of a failed group not yet in the buffer
    replaying: seq<Group<BufferedSample>>,     // groups of the current replay not yet written
    acking: seq<BufferedSample>,               // written entries not yet removed from the buffer
    mem: seq<BufferedSample>,                  // the buffer as the process sees it
    disk: seq<BufferedSample>,                 // the buffer as of the last flush
    nextId: nat,
    log: seq<Row>,                             // history rows, in insertion order
    lost: seq<Sample>,                         // abandoned when the worker aborts, or gone in a crash
    twice: seq<Sample>,                        // written, but kept or sent again all the same
    ever: set<BufferedSample>)                 // entries that have been on disk

  datatype Step =
    | Receive(sample: Sample)
    | BeginFlush
    | InsertOk
    | InsertErr
    | InsertUnheard                             // the INSERT took effect, but was reported as failed
    | Spill
    | Sync
    | BeginReplay(limit: nat)
    | ReplayOk
    | ReplayErr
    | ReplayUnheard
    | Ack
    | Abort                                     // a buffer error ends the worker
    | Crash(survivors: seq<BufferedSample>)     // the process dies and restarts

  function Init(): State {
    State([], [], [], [], [], [], [], [], 0, [], [], [], {})
  }

  function Routed(rt: Router, samples: seq<Sample>): (r: seq<Keyed<Sample>>)
    ensures |r| == |samples|
    ensures forall i :: 0 <= i < |r| ==> r[i] == Keyed(rt.TableFor(samples[i]), samples[i])
  {
    seq(|samples|, i requires 0 <= i < |samples| => Keyed(rt.TableFor(samples[i]), samples[i]))
  }

  function RoutedEntries(rt: Router, entries: seq<BufferedSample>): (r: seq<Keyed<BufferedSample>>)
    ensures |r| == |entries|
    ensures forall i :: 0 <= i < |r| ==> r[i] == Keyed(rt.TableFor(entries[i].sample), entries[i])
  {
    seq(|entries|, i requires 0 <= i < |entries| => Keyed(rt.TableFor(entries[i].sample), entries[i]))
  }

  function Rows(table: string, samples: seq<Sample>): (r: seq<Row>)
    ensures |r| == |samples|
    ensures forall i :: 0 <= i < |r| ==> r[i] == Row(table, samples[i])
  {
    seq(|samples|, i requires 0 <= i < |samples| => Row(table, samples[i]))
  }

  function LogSamples(log: seq<Row>): (r: seq<Sample>)
    ensures |r| == |log|
    ensures forall i :: 0 <= i < |r| ==> r[i] == log[i].sample
  {
    seq(|log|, i requires 0 <= i < |log| => log[i].sample)
  }

  function Oldest(entries: seq<BufferedSample>, limit: nat): seq<BufferedSample> {
    if |entries| <= limit then entries else entries[..limit]
  }

  ghost predicate Idle(s: State) {
    s.flushing == [] && s.spilling == [] && s.replaying == [] && s.acking == []
  }

  /**
   What a restart may find: entries that were neither written nor removed since the last flush are there,
   and nothing is there that was never in the buffer.
   */
  ghost predicate Recovered(survivors: seq<BufferedSample>, mem: seq<BufferedSample>, disk: seq<BufferedSample>) {
    && Increasing(survivors)
    && (forall e :: e in survivors ==> e in mem || e in disk)
    && (forall e :: e in mem && e in disk ==> e in survivors)
  }

  ghost predicate Enabled(s: State, step: Step) {
    match step
    case Receive(_) => Idle(s)
    case BeginFlush => Idle(s)
    case InsertOk => s.flushing != [] && s.spilling == []
    case InsertErr => s.flushing != [] && s.spilling == []
    case InsertUnheard => s.flushing != [] && s.spilling == []
    case Spill => s.spilling != []
    case Sync => true
    case BeginReplay(_) => Idle(s)
    case ReplayOk => s.replaying != [] && s.acking == []
    case ReplayErr => s.replaying != [] && s.acking == []
    case ReplayUnheard => s.replaying != [] && s.acking == []
    case Ack => s.acking != []
    case Abort => true
    case Crash(survivors) => Recovered(survivors, s.mem, s.disk)
  }

  ghost function Apply(rt: Router, s: State, step: Step): State
    requires Enabled(s, step)
  {
    match step
    case Receive(x) => s.(received := s.received + [x], pending := s.pending + [x])
    case BeginFlush => s.(flushing := Collect(Routed(rt, s.pending)), pending := [])
    case InsertOk =>
      s.(log := s.log + Rows(s.flushing[0].key, s.flushing[0].items), flushing := s.flushing[1..])
    case InsertErr => s.(spilling := s.flushing[0].items, flushing := s.flushing[1..])
    case InsertUnheard =>
      s.(log := s.log + Rows(s.flushing[0].key, s.flushing[0].items), twice := s.twice + s.flushing[0].items,
         spilling := s.flushing[0].items, flushing := s.flushing[1..])
    case Spill =>
      s.(mem := s.mem + [BufferedSample(s.nextId, s.spilling[0])], nextId := s.nextId + 1, spilling := s.spilling[1..])
    case Sync => s.(disk := s.mem, ever := s.ever + set e | e in s.mem)
    case BeginReplay(limit) => s.(replaying := Collect(RoutedEntries(rt, Oldest(s.mem, limit))))
    case ReplayOk =>
      var g := s.replaying[0];
      s.(log := s.log + Rows(g.key, SamplesOf(g.items)), acking := g.items, replaying := s.replaying[1..])
    case ReplayErr => s.(replaying := s.replaying[1..])
    case ReplayUnheard =>
      var g := s.replaying[0];
      s.(log := s.log + Rows(g.key, SamplesOf(g.items)), twice := s.twice + SamplesOf(g.items),
         replaying := s.replaying[1..])
    case Ack => s.(mem := Without(s.mem, s.acking[0].id), acking := s.acking[1..])
    case Abort => Drop(s)
    case Crash(survivors) =>
      Drop(s).(lost := s.lost + s.spilling + Flatten(s.flushing) + s.pending + SamplesOf(Vanished(s, survivors)),
               twice := s.twice + SamplesOf(Resent(s, survivors)),
               mem := survivors, disk := survivors, ever := s.ever + set e | e in survivors)
  }

  /** The entries that are not in `out`. */
  function Minus(entries: seq<BufferedSample>, out: seq<BufferedSample>): seq<BufferedSample> {
    if entries == [] then []
    else
      var rest, last := Minus(entries[..|entries| - 1], out), entries[|entries| - 1];
      if last in out then rest else rest + [last]
  }

  /** The entries that are also in `kept`. */
  function Common(entries: seq<BufferedSample>, kept: seq<BufferedSample>): seq<BufferedSample> {
    if entries == [] then []
    else
      var rest, last := Common(entries[..|entries| - 1], kept), entries[|entries| - 1];
      if last in kept then rest + [last] else rest
  }

  /** Unflushed entries that a crash takes away before they are inserted. */
  function Vanished(s: State, survivors: seq<BufferedSample>): seq<BufferedSample> {
    Minus(Minus(s.mem, survivors), s.acking)
  }

  /** Inserted entries that a crash leaves in the buffer: not removed yet, or removed but not flushed. */
  function Resent(s: State, survivors: seq<BufferedSample>): seq<BufferedSample> {
    Common(s.acking, survivors) + Minus(survivors, s.mem)
  }

  /** What only lived in the worker is gone. */
  ghost function Drop(s: State): State {
    s.(lost := s.lost + s.spilling + Flatten(s.flushing) + s.pending, twice := s.twice + SamplesOf(s.acking),
       pending := [], flushing := [], spilling := [], replaying := [], acking := [])
  }

  // ---- runs ----

  ghost function Exec(rt: Router, s: State, steps: seq<Step>): Option<State> {
    if steps == [] then Some(s)
    else
      match Exec(rt, s, steps[..|steps| - 1])
      case None => None
      case Some(t) => if Enabled(t, steps[|steps| - 1]) then Some(Apply(rt, t, steps[|steps| - 1])) else None
  }

  ghost predicate NoCrash(steps: seq<Step>) {
    forall i :: 0 <= i < |steps| ==> !steps[i].Crash?
  }

  ghost predicate NoAbort(steps: seq<Step>) {
    forall i :: 0 <= i < |steps| ==> !steps[i].Abort?
  }

  /** Every INSERT that took effect was reported so. */
  ghost predicate AllHeard(steps: seq<Step>) {
    forall i :: 0 <= i < |steps| ==> !steps[i].InsertUnheard? && !steps[i].ReplayUnheard?
  }

  // ---- the invariant ----

  ghost predicate Logged(rt: Router, s: State, e: BufferedSample) {
    Row(rt.TableFor(e.sample), e.sample) in s.log
  }

  ghost predicate GroupsRouted(rt: Router, s: State) {
    && (forall i, x :: 0 <= i < |s.flushing| && x in s.flushing[i].items ==> rt.TableFor(x) == s.flushing[i].key)
    && (forall i, e :: 0 <= i < |s.replaying| && e in s.replaying[i].items ==>
        rt.TableFor(e.sample) == s.replaying[i].key)
  }

  ghost predicate LogRouted(rt: Router, s: State) {
    forall i :: 0 <= i < |s.log| ==> s.log[i].table == rt.TableFor(s.log[i].sample)
  }

  ghost predicate BufferSound(s: State) {
    && Increasing(s.mem)
    && (forall e :: e in s.mem || e in s.disk ==> e.id < s.nextId)
    && multiset(s.acking + Flatten(s.replaying)) <= multiset(s.mem)
  }

  /** Every entry that was ever on disk is still safe there, or its row is in its table. */
  ghost predicate NothingForgotten(rt: Router, s: State) {
    && (forall e :: e in s.acking ==> Logged(rt, s, e))
    && (forall e :: e in s.disk ==> e in s.ever)
    && (forall e :: e in s.ever ==> (e in s.mem && e in s.disk) || Logged(rt, s, e))
  }

  ghost predicate Inv(rt: Router, s: State) {
    GroupsRouted(rt, s) && LogRouted(rt, s) && BufferSound(s) && NothingForgotten(rt, s)
  }

  // ---- lemmas about the data ----

  lemma {:induction false} WithoutAt(entries: seq<BufferedSample>, k: nat)
    requires Increasing(entries) && k < |entries|
    ensures Without(entries, entries[k].id) == entries[..k] + entries[k + 1..]
  {
    if k > 0 {
      assert entries[1..][k - 1] == entries[k];
      WithoutAt(entries[1..], k - 1);
      assert entries[..k] == [entries[0]] + entries[1..][..k - 1];
    }
  }

  lemma Middle<T>(a: seq<T>, x: T, b: seq<T>)
    ensures multiset(a + [x] + b) == multiset(a + b) + multiset{x}
  {
  }

  lemma SamplesAppend(a: seq<BufferedSample>, b: seq<BufferedSample>)
    ensures SamplesOf(a + b) == SamplesOf(a) + SamplesOf(b)
  {
  }

  lemma WithoutMultiset(entries: seq<BufferedSample>, e: BufferedSample)
    requires Increasing(entries) && e in entries
    ensures multiset(entries) == multiset(Without(entries, e.id)) + multiset{e}
    ensures multiset(SamplesOf(entries)) == multiset(SamplesOf(Without(entries, e.id))) + multiset{e.sample}
  {
    hide Increasing, Without, SamplesOf;
    var k :| 0 <= k < |entries| && entries[k] == e;
    WithoutAt(entries, k);
    var a, b := entries[..k], entries[k + 1..];
    assert entries == a + [e] + b;
    Middle(a, e, b);
    SamplesAppend(a + [e], b);
    SamplesAppend(a, [e]);
    SamplesAppend(a, b);
    assert SamplesOf([e]) == [e.sample];
    Middle(SamplesOf(a), e.sample, SamplesOf(b));
  }

  lemma CollectRouted(rt: Router, samples: seq<Sample>)
    ensures var groups := Collect(Routed(rt, samples));
      && (forall i, x :: 0 <= i < |groups| && x in groups[i].items ==> rt.TableFor(x) == groups[i].key)
      && multiset(Flatten(groups)) == multiset(samples)
  {
    var xs := Routed(rt, samples);
    forall i, x | 0 <= i < |Collect(xs)| && x in Collect(xs)[i].items ensures rt.TableFor(x) == Collect(xs)[i].key {
      CollectKeyed(xs, i, x);
    }
    CollectFlatten(xs);
    assert Items(xs) == samples;
  }

  lemma CollectRoutedEntries(rt: Router, entries: seq<BufferedSample>)
    ensures var groups := Collect(RoutedEntries(rt, entries));
      && (forall i, e :: 0 <= i < |groups| && e in groups[i].items ==> rt.TableFor(e.sample) == groups[i].key)
      && multiset(Flatten(groups)) == multiset(entries)
  {
    var xs := RoutedEntries(rt, entries);
    forall i, e: BufferedSample | 0 <= i < |Collect(xs)| && e in Collect(xs)[i].items
      ensures rt.TableFor(e.sample) == Collect(xs)[i].key
    {
      CollectKeyed(xs, i, e);
    }
    CollectFlatten(xs);
    assert Items(xs) == entries;
  }

  lemma OldestPart(entries: seq<BufferedSample>, limit: nat)
    ensures multiset(Oldest(entries, limit)) <= multiset(entries)
  {
    if |entries| > limit {
      assert entries == entries[..limit] + entries[limit..];
    }
  }

  // ---- every step keeps the invariant ----

  lemma FlushStepsKeep(rt: Router, s: State, step: Step)
    requires Inv(rt, s) && Enabled(s, step)
    requires step.Receive? || step.BeginFlush? || step.InsertOk? || step.InsertErr? || step.InsertUnheard?
    ensures Inv(rt, Apply(rt, s, step))
  {
    hide Collect, Increasing, Router.TableFor;
    var t := Apply(rt, s, step);
    match step
    case BeginFlush => CollectRouted(rt, s.pending);
    case InsertOk => GroupRowsRouted(rt, s, t);
    case InsertUnheard => GroupRowsRouted(rt, s, t);
    case _ =>
  }

  lemma GroupRowsRouted(rt: Router, s: State, t: State)
    requires s.flushing != [] && GroupsRouted(rt, s) && LogRouted(rt, s)
    requires t.log == s.log + Rows(s.flushing[0].key, s.flushing[0].items)
    ensures LogRouted(rt, t) && forall e :: Logged(rt, s, e) ==> Logged(rt, t, e)
  {
    hide Router.TableFor;
    var g := s.flushing[0];
    forall i | |s.log| <= i < |t.log| ensures t.log[i].table == rt.TableFor(t.log[i].sample) {
      assert g.items[i - |s.log|] in s.flushing[0].items;
    }
    LoggedKept(rt, s, t);
  }

  lemma SpillKeeps(rt: Router, s: State)
    requires Inv(rt, s) && Enabled(s, Spill)
    ensures Inv(rt, Apply(rt, s, Spill))
  {
    hide Router.TableFor, Logged;
    var t := Apply(rt, s, Spill);
    LoggedKept(rt, s, t);
    forall i | 0 <= i < |s.mem| ensures s.mem[i].id < s.nextId { assert s.mem[i] in s.mem; }
    assert multiset(t.mem) == multiset(s.mem) + multiset{BufferedSample(s.nextId, s.spilling[0])};
  }

  lemma SyncKeeps(rt: Router, s: State)
    requires Inv(rt, s)
    ensures Inv(rt, Apply(rt, s, Sync))
  {
    hide Router.TableFor, Logged, Increasing;
    LoggedKept(rt, s, Apply(rt, s, Sync));
  }

  lemma BeginReplayKeeps(rt: Router, s: State, limit: nat)
    requires Inv(rt, s) && Enabled(s, BeginReplay(limit))
    ensures Inv(rt, Apply(rt, s, BeginReplay(limit)))
  {
    hide Router.TableFor, Logged, Increasing, Collect, Flatten, LogRouted;
    var part := Oldest(s.mem, limit);
    CollectRoutedEntries(rt, part);
    OldestPart(s.mem, limit);
    var groups := Collect(RoutedEntries(rt, part));
    assert s.acking + Flatten(groups) == Flatten(groups);
    var t := s.(replaying := groups);
    assert GroupsRouted(rt, t) && BufferSound(t);
    LoggedKept(rt, s, t);
    assert LogRouted(rt, t) by { LogRoutedKept(rt, s, t); }
  }

  lemma LogRoutedKept(rt: Router, s: State, t: State)
    requires LogRouted(rt, s) && s.log == t.log
    ensures LogRouted(rt, t)
  {
  }

  lemma ReplayErrKeeps(rt: Router, s: State)
    requires Inv(rt, s) && Enabled(s, ReplayErr)
    ensures Inv(rt, Apply(rt, s, ReplayErr))
  {
    hide Router.TableFor, Logged, Increasing;
    var t := Apply(rt, s, ReplayErr);
    assert Flatten(s.replaying) == s.replaying[0].items + Flatten(t.replaying);
    assert s.acking + Flatten(s.replaying) == s.replaying[0].items + Flatten(t.replaying);
    assert t.acking + Flatten(t.replaying) == Flatten(t.replaying);
    LoggedKept(rt, s, t);
  }

  lemma LoggedKept(rt: Router, s: State, t: State)
    requires s.log <= t.log
    ensures forall e :: Logged(rt, s, e) ==> Logged(rt, t, e)
  {
  }

  /** The entries of a group that was inserted unheard stay in the buffer. */
  lemma ReplayUnheardKeeps(rt: Router, s: State)
    requires Inv(rt, s) && Enabled(s, ReplayUnheard)
    ensures Inv(rt, Apply(rt, s, ReplayUnheard))
  {
    hide Router.TableFor, BufferSound, Logged, LogRouted, Rows, SamplesOf, Flatten;
    var t, u := Apply(rt, s, ReplayUnheard), Apply(rt, s, ReplayErr);
    ReplayErrKeeps(rt, s);
    LoggedKept(rt, s, t);
    GroupLogged(rt, s, s.replaying[0]);
    assert BufferSound(t) by { SameBuffer(u, t); }
  }

  /** Entries moved from the groups to the removals leave the buffer sound. */
  lemma SameBuffer(s: State, t: State)
    requires BufferSound(s) && t.mem == s.mem && t.disk == s.disk && t.nextId == s.nextId
    requires t.acking + Flatten(t.replaying) == s.acking + Flatten(s.replaying)
    ensures BufferSound(t)
  {
    hide Increasing, Flatten;
  }

  lemma ReplayOkBuffer(rt: Router, s: State)
    requires BufferSound(s) && Enabled(s, ReplayOk)
    ensures BufferSound(Apply(rt, s, ReplayOk))
  {
    hide Router.TableFor, BufferSound, Rows, SamplesOf, Flatten;
    var t := Apply(rt, s, ReplayOk);
    FlattenHead(s.replaying);
    assert s.acking + Flatten(s.replaying) == Flatten(s.replaying);
    SameBuffer(s, t);
  }

  lemma FlattenHead<T>(groups: seq<Group<T>>)
    requires groups != []
    ensures Flatten(groups) == groups[0].items + Flatten(groups[1..])
  {
  }

  lemma ReplayOkKeeps(rt: Router, s: State)
    requires Inv(rt, s) && Enabled(s, ReplayOk)
    ensures Inv(rt, Apply(rt, s, ReplayOk))
  {
    hide Router.TableFor, BufferSound, Logged, LogRouted, Rows, SamplesOf, Flatten;
    LoggedKept(rt, s, Apply(rt, s, ReplayOk));
    GroupLogged(rt, s, s.replaying[0]);
    ReplayOkBuffer(rt, s);
  }

  /** The rows of a group go to the table its entries are routed to. */
  lemma GroupLogged(rt: Router, s: State, g: Group<BufferedSample>)
    requires LogRouted(rt, s) && forall e :: e in g.items ==> rt.TableFor(e.sample) == g.key
    ensures forall t: State :: t.log == s.log + Rows(g.key, SamplesOf(g.items)) ==>
              LogRouted(rt, t) && forall e :: e in g.items ==> Logged(rt, t, e)
  {
    hide Router.TableFor;
    forall t: State | t.log == s.log + Rows(g.key, SamplesOf(g.items))
      ensures LogRouted(rt, t) && forall e :: e in g.items ==> Logged(rt, t, e)
    {
      forall i | |s.log| <= i < |t.log| ensures t.log[i].table == rt.TableFor(t.log[i].sample) {
        assert g.items[i - |s.log|] in g.items;
      }
      forall e | e in g.items ensures Logged(rt, t, e) {
        var k :| 0 <= k < |g.items| && g.items[k] == e;
        assert t.log[|s.log| + k] == Row(g.key, e.sample);
      }
    }
  }

  lemma AckedEntry(rt: Router, s: State)
    requires Inv(rt, s) && s.acking != []
    ensures s.acking[0] in s.mem && Logged(rt, s, s.acking[0])
    ensures forall x :: x in s.mem && x.id == s.acking[0].id ==> x == s.acking[0]
  {
    hide Router.TableFor, Logged;
    var e := s.acking[0];
    assert e in multiset(s.acking + Flatten(s.replaying));
    assert e in s.acking;
    forall x | x in s.mem && x.id == e.id ensures x == e {
      var i, j :| 0 <= i < |s.mem| && s.mem[i] == x && 0 <= j < |s.mem| && s.mem[j] == e;
    }
  }

  lemma AckKeeps(rt: Router, s: State)
    requires Inv(rt, s) && Enabled(s, Ack)
    ensures Inv(rt, Apply(rt, s, Ack))
  {
    hide Router.TableFor, Logged, Increasing, Without, Flatten, LogRouted;
    var t := Apply(rt, s, Ack);
    AckedEntry(rt, s);
    AckBuffer(s);
    WithoutMembers(s.mem, s.acking[0].id);
    LoggedKept(rt, s, t);
    LogRoutedKept(rt, s, t);
    forall x | x in t.acking ensures Logged(rt, t, x) {
      assert x in s.acking;
    }
  }

  lemma AckBuffer(s: State)
    requires BufferSound(s) && s.acking != [] && s.acking[0] in s.mem
    ensures BufferSound(s.(mem := Without(s.mem, s.acking[0].id), acking := s.acking[1..]))
  {
    hide Increasing, Without, Flatten;
    var e := s.acking[0];
    var rest := s.acking[1..] + Flatten(s.replaying);
    assert s.acking + Flatten(s.replaying) == [e] + rest;
    WithoutMembers(s.mem, e.id);
    WithoutMultiset(s.mem, e);
    assert multiset([e] + rest) == multiset{e} + multiset(rest);
    Cancel(multiset(rest), multiset(Without(s.mem, e.id)), multiset{e});
  }

  lemma Cancel<T>(a: multiset<T>, b: multiset<T>, c: multiset<T>)
    requires c + a <= b + c
    ensures a <= b
  {
    forall x ensures a[x] <= b[x] {
      assert (c + a)[x] <= (b + c)[x];
    }
  }

  lemma DropKeeps(rt: Router, s: State)
    requires Inv(rt, s)
    ensures Inv(rt, Drop(s))
  {
    assert Drop(s).acking + Flatten(Drop(s).replaying) == [];
    LoggedKept(rt, s, Drop(s));
  }

  lemma CrashKeepsBuffer(s: State, survivors: seq<BufferedSample>, t: State)
    requires BufferSound(s) && Recovered(survivors, s.mem, s.disk)
    requires t.mem == survivors && t.disk == survivors && t.nextId == s.nextId && t.acking == [] && t.replaying == []
    ensures BufferSound(t)
  {
    hide Increasing;
    assert t.acking + Flatten(t.replaying) == [];
  }

  lemma CrashForgetsNothing(rt: Router, s: State, survivors: seq<BufferedSample>, t: State)
    requires NothingForgotten(rt, s) && Recovered(survivors, s.mem, s.disk)
    requires t.log == s.log && t.mem == survivors && t.disk == survivors && t.acking == []
    requires t.ever == s.ever + set e | e in survivors
    ensures NothingForgotten(rt, t)
  {
    hide Router.TableFor, Logged, Increasing;
    LoggedKept(rt, s, t);
  }

  lemma CrashKeeps(rt: Router, s: State, survivors: seq<BufferedSample>)
    requires Inv(rt, s) && Recovered(survivors, s.mem, s.disk)
    ensures Inv(rt, Apply(rt, s, Crash(survivors)))
  {
    hide Router.TableFor, BufferSound, NothingForgotten, Recovered, LogRouted, Vanished, Resent, SamplesOf;
    var t := Apply(rt, s, Crash(survivors));
    CrashKeepsBuffer(s, survivors, t);
    CrashForgetsNothing(rt, s, survivors, t);
    LogRoutedKept(rt, s, t);
  }

  lemma StepKeeps(rt: Router, s: State, step: Step)
    requires Inv(rt, s) && Enabled(s, step)
    ensures Inv(rt, Apply(rt, s, step))
  {
    hide Inv;
    match step
    case Receive(_) => FlushStepsKeep(rt, s, step);
    case BeginFlush => FlushStepsKeep(rt, s, step);
    case InsertOk => FlushStepsKeep(rt, s, step);
    case InsertErr => FlushStepsKeep(rt, s, step);
    case InsertUnheard => FlushStepsKeep(rt, s, step);
    case Spill => SpillKeeps(rt, s);
    case Sync => SyncKeeps(rt, s);
    case BeginReplay(limit) => BeginReplayKeeps(rt, s, limit);
    case ReplayErr => ReplayErrKeeps(rt, s);
    case ReplayUnheard => ReplayUnheardKeeps(rt, s);
    case ReplayOk => ReplayOkKeeps(rt, s);
    case Ack => AckKeeps(rt, s);
    case Abort => DropKeeps(rt, s);
    case Crash(survivors) => CrashKeeps(rt, s, survivors);
  }

  lemma {:induction false} RunKeeps(rt: Router, s: State, steps: seq<Step>)
    requires Inv(rt, s) && Exec(rt, s, steps).Some?
    ensures Inv(rt, Exec(rt, s, steps).value)
  {
    hide Inv, Apply, Enabled;
    if steps != [] {
      var init := steps[..|steps| - 1];
      RunKeeps(rt, s, init);
      StepKeeps(rt, Exec(rt, s, init).value, steps[|steps| - 1]);
    }
  }
}

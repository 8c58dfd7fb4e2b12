/** What holds of every run of the sink worker. */
module SinkTheorems {
  import opened Samples
  import opened Grouping
  import opened Buffer
  import opened Options
  import opened SinkMachine
  import CrashCounts

  function Count(xs: seq<Sample>, x: Sample): nat {
    multiset(xs)[x]
  }

  lemma CountAppend(a: seq<Sample>, b: seq<Sample>, x: Sample)
    ensures Count(a + b, x) == Count(a, x) + Count(b, x)
  {
  }

  lemma CountFirst(a: seq<Sample>, x: Sample)
    requires a != []
    ensures Count(a, x) == Count([a[0]], x) + Count(a[1..], x)
  {
    assert a == [a[0]] + a[1..];
  }

  /** How often a sample is somewhere: waiting, buffered, in history or abandoned. */
  ghost function Holdings(s: State, x: Sample): nat {
    Count(s.pending, x) + Count(Flatten(s.flushing), x) + Count(s.spilling, x)
    + Count(SamplesOf(s.mem), x) + Count(LogSamples(s.log), x) + Count(s.lost, x)
  }

  /** Entries inserted but not yet, or no more, removed from the buffer are held twice. */
  ghost predicate BalancedAt(s: State, x: Sample) {
    Count(s.received, x) + Count(SamplesOf(s.acking), x) + Count(s.twice, x) == Holdings(s, x)
  }

  ghost predicate Balanced(s: State) {
    forall x :: BalancedAt(s, x)
  }

  lemma LogRows(log: seq<Row>, table: string, samples: seq<Sample>, x: Sample)
    ensures Count(LogSamples(log + Rows(table, samples)), x) == Count(LogSamples(log), x) + Count(samples, x)
  {
    assert LogSamples(log + Rows(table, samples)) == LogSamples(log) + samples;
  }

  lemma FlattenFirst<T>(groups: seq<Group<T>>)
    requires groups != []
    ensures Flatten(groups) == groups[0].items + Flatten(groups[1..])
  {
  }

  lemma FlushStepsBalance(rt: Router, s: State, step: Step, x: Sample)
    requires BalancedAt(s, x) && Enabled(s, step)
    requires step.Receive? || step.BeginFlush? || step.InsertOk? || step.InsertErr? || step.InsertUnheard?
      || step.Spill?
    ensures BalancedAt(Apply(rt, s, step), x)
  {
    hide Collect, SamplesOf, LogSamples, Rows, Count, Flatten;
    match step
    case Receive(y) =>
      CountAppend(s.received, [y], x);
      CountAppend(s.pending, [y], x);
    case BeginFlush =>
      BatchCount(rt, s.pending, x);
      EmptyCounts(x);
    case InsertOk =>
      LogRows(s.log, s.flushing[0].key, s.flushing[0].items, x);
      FlattenFirst(s.flushing);
      CountAppend(s.flushing[0].items, Flatten(s.flushing[1..]), x);
    case InsertErr =>
      FlattenFirst(s.flushing);
      CountAppend(s.flushing[0].items, Flatten(s.flushing[1..]), x);
      EmptyCounts(x);
    case InsertUnheard =>
      LogRows(s.log, s.flushing[0].key, s.flushing[0].items, x);
      FlattenFirst(s.flushing);
      CountAppend(s.flushing[0].items, Flatten(s.flushing[1..]), x);
      CountAppend(s.twice, s.flushing[0].items, x);
      EmptyCounts(x);
    case Spill =>
      var e := BufferedSample(s.nextId, s.spilling[0]);
      SamplesAppend(s.mem, [e]);
      OneEntry(e);
      CountAppend(SamplesOf(s.mem), [e.sample], x);
      CountFirst(s.spilling, x);
  }

  lemma BatchCount(rt: Router, samples: seq<Sample>, x: Sample)
    ensures Count(Flatten(Collect(Routed(rt, samples))), x) == Count(samples, x)
  {
    CollectRouted(rt, samples);
  }

  lemma EmptyCounts(x: Sample)
    ensures Count([], x) == 0 && Count(Flatten<Sample>([]), x) == 0 && Count(SamplesOf([]), x) == 0
  {
    assert SamplesOf([]) == [];
  }

  lemma OneEntry(e: BufferedSample)
    ensures SamplesOf([e]) == [e.sample]
  {
  }

  lemma AckCount(s: State, x: Sample)
    requires Increasing(s.mem) && s.acking != [] && s.acking[0] in s.mem
    ensures Count(SamplesOf(s.mem), x) == Count(SamplesOf(Without(s.mem, s.acking[0].id)), x)
      + Count([s.acking[0].sample], x)
    ensures Count(SamplesOf(s.acking), x) == Count(SamplesOf(s.acking[1..]), x) + Count([s.acking[0].sample], x)
  {
    hide Increasing, Without, SamplesOf;
    var e := s.acking[0];
    WithoutMultiset(s.mem, e);
    assert s.acking == [e] + s.acking[1..];
    SamplesAppend([e], s.acking[1..]);
    OneEntry(e);
  }

  lemma SoundParts(rt: Router, s: State)
    requires Inv(rt, s)
    ensures Increasing(s.mem)
  {
  }

  lemma ReplayStepsBalance(rt: Router, s: State, step: Step, x: Sample)
    requires Inv(rt, s) && BalancedAt(s, x) && Enabled(s, step)
    requires step.ReplayOk? || step.ReplayUnheard? || step.Ack? || step.Abort?
    ensures BalancedAt(Apply(rt, s, step), x)
  {
    hide Inv, Collect, LogSamples, Rows, Increasing, Without, Count, SamplesOf, Flatten;
    EmptyCounts(x);
    match step
    case ReplayOk =>
      LogRows(s.log, s.replaying[0].key, SamplesOf(s.replaying[0].items), x);
    case ReplayUnheard =>
      LogRows(s.log, s.replaying[0].key, SamplesOf(s.replaying[0].items), x);
      CountAppend(s.twice, SamplesOf(s.replaying[0].items), x);
    case Ack =>
      SoundParts(rt, s);
      AckedEntry(rt, s);
      AckCount(s, x);
    case Abort =>
      CountAppend(s.lost, s.spilling, x);
      CountAppend(s.lost + s.spilling, Flatten(s.flushing), x);
      CountAppend(s.lost + s.spilling + Flatten(s.flushing), s.pending, x);
      CountAppend(s.twice, SamplesOf(s.acking), x);
  }

  lemma CrashBalances(rt: Router, s: State, survivors: seq<BufferedSample>, x: Sample)
    requires Inv(rt, s) && BalancedAt(s, x) && Enabled(s, Crash(survivors))
    ensures BalancedAt(Apply(rt, s, Crash(survivors)), x)
  {
    hide Inv, LogSamples, SamplesOf, Flatten, Vanished, Resent, Increasing, Count;
    CrashParts(rt, s, survivors);
    CrashCounts.CrashSamples(s, survivors);
    EmptyCounts(x);
    CountsOf(s, survivors, x);
    var v := SamplesOf(Vanished(s, survivors));
    CountAppend(s.lost + s.spilling + Flatten(s.flushing) + s.pending, v, x);
    CountAppend(s.lost + s.spilling + Flatten(s.flushing), s.pending, x);
    CountAppend(s.lost + s.spilling, Flatten(s.flushing), x);
    CountAppend(s.lost, s.spilling, x);
    CountAppend(s.twice, SamplesOf(Resent(s, survivors)), x);
  }

  lemma CountsOf(s: State, survivors: seq<BufferedSample>, x: Sample)
    requires multiset(SamplesOf(s.acking)) + multiset(SamplesOf(survivors))
      + multiset(SamplesOf(Vanished(s, survivors)))
          == multiset(SamplesOf(s.mem)) + multiset(SamplesOf(Resent(s, survivors)))
    ensures Count(SamplesOf(s.acking), x) + Count(SamplesOf(survivors), x) + Count(SamplesOf(Vanished(s, survivors)), x)
         == Count(SamplesOf(s.mem), x) + Count(SamplesOf(Resent(s, survivors)), x)
  {
    hide SamplesOf, Vanished, Resent;
    var l := multiset(SamplesOf(s.acking)) + multiset(SamplesOf(survivors))
        + multiset(SamplesOf(Vanished(s, survivors)));
    assert l[x] == Count(SamplesOf(s.acking), x) + Count(SamplesOf(survivors), x)
        + Count(SamplesOf(Vanished(s, survivors)), x);
  }

  lemma CrashParts(rt: Router, s: State, survivors: seq<BufferedSample>)
    requires Inv(rt, s) && Enabled(s, Crash(survivors))
    ensures BufferSound(s) && Increasing(survivors)
  {
  }

  lemma StepBalances(rt: Router, s: State, step: Step)
    requires Inv(rt, s) && Balanced(s) && Enabled(s, step)
    ensures Balanced(Apply(rt, s, step))
  {
    hide Inv, BalancedAt;
    forall x ensures BalancedAt(Apply(rt, s, step), x) {
      assert BalancedAt(s, x);
      match step
      case ReplayOk => ReplayStepsBalance(rt, s, step, x);
      case ReplayUnheard => ReplayStepsBalance(rt, s, step, x);
      case Ack => ReplayStepsBalance(rt, s, step, x);
      case Abort => ReplayStepsBalance(rt, s, step, x);
      case Sync => SameBalance(s, Apply(rt, s, step), x);
      case BeginReplay(_) => SameBalance(s, Apply(rt, s, step), x);
      case ReplayErr => SameBalance(s, Apply(rt, s, step), x);
      case Crash(survivors) => CrashBalances(rt, s, survivors, x);
      case _ => FlushStepsBalance(rt, s, step, x);
    }
  }

  lemma SameBalance(s: State, t: State, x: Sample)
    requires BalancedAt(s, x)
    requires t == s.(disk := t.disk, ever := t.ever, replaying := t.replaying)
    ensures BalancedAt(t, x)
  {
  }

  lemma {:induction false} RunBalances(rt: Router, s: State, steps: seq<Step>)
    requires Inv(rt, s) && Balanced(s) && Exec(rt, s, steps).Some?
    ensures Balanced(Exec(rt, s, steps).value)
    ensures NoCrash(steps) && NoAbort(steps) ==>
      Exec(rt, s, steps).value.lost == s.lost && (AllHeard(steps) ==> Exec(rt, s, steps).value.twice == s.twice)
  {
    hide Inv, Balanced;
    if steps != [] {
      var init := steps[..|steps| - 1];
      assert forall i :: 0 <= i < |init| ==> init[i] == steps[i];
      RunBalances(rt, s, init);
      RunKeeps(rt, s, init);
      StepBalances(rt, Exec(rt, s, init).value, steps[|steps| - 1]);
    }
  }

  lemma InitSound(rt: Router)
    ensures Inv(rt, Init()) && Balanced(Init())
  {
    assert Init().acking + Flatten(Init().replaying) == [];
    assert LogSamples([]) == [] && SamplesOf([]) == [];
  }

  lemma IdleBalance(s: State, x: Sample)
    requires Idle(s) && BalancedAt(s, x)
    ensures Count(s.received, x) + Count(s.twice, x)
         == Count(s.pending, x) + Count(SamplesOf(s.mem), x) + Count(LogSamples(s.log), x) + Count(s.lost, x)
  {
    EmptyCounts(x);
  }

  /**
   Conservation: after every run, with any failing inserts, aborts, crashes and restarts, the samples received
   and those written twice are those waiting, buffered, inserted and lost, each as often; and every row is in
   the table the router gives its sample. Without crash and abort nothing is lost, and when also no INSERT
   that took effect was reported as failed, nothing is written twice.
   */
  lemma Conservation(rt: Router, steps: seq<Step>)
    requires Exec(rt, Init(), steps).Some? && Idle(Exec(rt, Init(), steps).value)
    ensures var s := Exec(rt, Init(), steps).value;
      && LogRouted(rt, s)
      && multiset(s.received) + multiset(s.twice)
         == multiset(s.pending) + multiset(SamplesOf(s.mem)) + multiset(LogSamples(s.log)) + multiset(s.lost)
      && (NoCrash(steps) && NoAbort(steps) ==> s.lost == [])
      && (NoCrash(steps) && NoAbort(steps) && AllHeard(steps) ==>
            multiset(s.received) == multiset(s.pending) + multiset(SamplesOf(s.mem)) + multiset(LogSamples(s.log)))
  {
    hide Exec, Inv, Idle, Balanced, SamplesOf, LogSamples, LogRouted;
    InitSound(rt);
    RunBalances(rt, Init(), steps);
    RunKeeps(rt, Init(), steps);
    var s := Exec(rt, Init(), steps).value;
    RoutedPart(rt, s);
    BalanceBag(s);
  }

  lemma BalanceBag(s: State)
    requires Idle(s) && Balanced(s)
    ensures multiset(s.received) + multiset(s.twice)
         == multiset(s.pending) + multiset(SamplesOf(s.mem)) + multiset(LogSamples(s.log)) + multiset(s.lost)
    ensures s.lost == [] && s.twice == [] ==>
      multiset(s.received) == multiset(s.pending) + multiset(SamplesOf(s.mem)) + multiset(LogSamples(s.log))
  {
    hide Idle, BalancedAt, SamplesOf, LogSamples, Count;
    forall x ensures (multiset(s.received) + multiset(s.twice))[x]
                  == (multiset(s.pending) + multiset(SamplesOf(s.mem)) + multiset(LogSamples(s.log))
                      + multiset(s.lost))[x] {
      assert BalancedAt(s, x);
      IdleBalance(s, x);
      BagOf(s, x);
    }
    EmptyBags(multiset(s.received), multiset(s.twice),
              multiset(s.pending) + multiset(SamplesOf(s.mem)) + multiset(LogSamples(s.log)), multiset(s.lost));
  }

  lemma EmptyBags(a: multiset<Sample>, b: multiset<Sample>, c: multiset<Sample>, d: multiset<Sample>)
    requires a + b == c + d
    ensures b == multiset{} && d == multiset{} ==> a == c
  {
    assert b == multiset{} ==> a + b == a;
    assert d == multiset{} ==> c + d == c;
  }

  lemma BagOf(s: State, x: Sample)
    ensures (multiset(s.received) + multiset(s.twice))[x] == Count(s.received, x) + Count(s.twice, x)
    ensures (multiset(s.pending) + multiset(SamplesOf(s.mem)) + multiset(LogSamples(s.log)) + multiset(s.lost))[x]
         == Count(s.pending, x) + Count(SamplesOf(s.mem), x) + Count(LogSamples(s.log), x) + Count(s.lost, x)
  {
    hide SamplesOf, LogSamples;
  }

  lemma RoutedPart(rt: Router, s: State)
    requires Inv(rt, s)
    ensures LogRouted(rt, s)
  {
  }

  /** Between crashes an entry leaves the buffer only by `Ack`, and then its row is in its table. */
  lemma LeavesOnlyInserted(rt: Router, s: State, step: Step, e: BufferedSample)
    requires Inv(rt, s) && Enabled(s, step) && !step.Crash?
    requires e in s.mem && e !in Apply(rt, s, step).mem
    ensures step == Ack && e == s.acking[0] && Logged(rt, s, e)
  {
    hide Collect, Logged, Router.TableFor;
    if step == Ack {
      AckedEntry(rt, s);
      WithoutMembers(s.mem, s.acking[0].id);
    }
  }

  lemma {:induction false} ExecAppend(rt: Router, s: State, a: seq<Step>, b: seq<Step>)
    ensures Exec(rt, s, a + b) == match Exec(rt, s, a) case None => None case Some(t) => Exec(rt, t, b)
  {
    hide Apply, Enabled;
    if b == [] {
      assert a + b == a;
    } else {
      assert (a + b)[..|a + b| - 1] == a + b[..|b| - 1];
      ExecAppend(rt, s, a, b[..|b| - 1]);
    }
  }

  lemma {:induction false} EverGrows(rt: Router, s: State, steps: seq<Step>)
    requires Exec(rt, s, steps).Some?
    ensures s.ever <= Exec(rt, s, steps).value.ever
    ensures s.log <= Exec(rt, s, steps).value.log
  {
    if steps != [] {
      EverGrows(rt, s, steps[..|steps| - 1]);
    }
  }

  /**
   At least once: an entry that is on disk at some moment is, after any further steps including any
   number of crashes at any points, still in the buffer and on disk, or its row is in its table.
   */
  lemma AtLeastOnce(rt: Router, before: seq<Step>, after: seq<Step>, e: BufferedSample)
    requires Exec(rt, Init(), before).Some? && Exec(rt, Exec(rt, Init(), before).value, after).Some?
    requires e in Exec(rt, Init(), before).value.disk
    ensures var t := Exec(rt, Exec(rt, Init(), before).value, after).value;
      (e in t.mem && e in t.disk) || Logged(rt, t, e)
  {
    InitSound(rt);
    RunKeeps(rt, Init(), before);
    var s := Exec(rt, Init(), before).value;
    EverGrows(rt, s, after);
    RunKeeps(rt, s, after);
  }

  lemma ExecOne(rt: Router, s: State, step: Step)
    requires Enabled(s, step)
    ensures Exec(rt, s, [step]) == Some(Apply(rt, s, step))
  {
    hide Apply, Enabled;
    assert [step][..0] == [];
  }

  lemma ExecTwo(rt: Router, s: State, a: Step, b: Step)
    requires Enabled(s, a) && Enabled(Apply(rt, s, a), b)
    ensures Exec(rt, s, [a, b]) == Some(Apply(rt, Apply(rt, s, a), b))
  {
    hide Apply, Enabled;
    ExecOne(rt, s, a);
    ExecOne(rt, Apply(rt, s, a), b);
    ExecAppend(rt, s, [a], [b]);
    assert [a, b] == [a] + [b];
  }

  lemma CollectOne<T>(x: Keyed<T>)
    ensures Collect([x]) == [Group(x.key, [x.item])]
  {
    assert [x][..0] == [];
  }

  /** Replaying a buffer of one entry, up to the insert. */
  lemma ReplayOne(rt: Router, s: State, e: BufferedSample)
    requires Idle(s) && s.mem == [e]
    ensures Exec(rt, s, [BeginReplay(1), ReplayOk])
         == Some(s.(log := s.log + [Row(rt.TableFor(e.sample), e.sample)], acking := [e]))
  {
    hide Collect, Router.TableFor;
    var table := rt.TableFor(e.sample);
    var s1 := Apply(rt, s, BeginReplay(1));
    assert RoutedEntries(rt, [e]) == [Keyed(table, e)];
    CollectOne(Keyed(table, e));
    assert s1.replaying == [Group(table, [e])];
    assert SamplesOf([e]) == [e.sample] && Rows(table, [e.sample]) == [Row(table, e.sample)];
    assert s1.replaying[1..] == [] == s.replaying;
    assert Apply(rt, s1, ReplayOk) == s.(log := s.log + [Row(table, e.sample)], acking := [e]);
    ExecTwo(rt, s, BeginReplay(1), ReplayOk);
  }

  /**
   Exactly once is not promised: when the process dies between the insert and the removal of a replayed
   entry, the restarted worker inserts it again.
   */
  lemma CrashCanDuplicate(rt: Router, s: State, e: BufferedSample)
    requires Idle(s) && s.mem == [e] && s.disk == [e]
    ensures var steps := [BeginReplay(1), ReplayOk] + [Crash([e])] + [BeginReplay(1), ReplayOk];
      var row := Row(rt.TableFor(e.sample), e.sample);
      && Exec(rt, s, steps).Some?
      && Exec(rt, s, steps).value.log == s.log + [row, row]
      && Exec(rt, s, steps).value.received == s.received
  {
    hide Router.TableFor, Exec, Inv, Collect;
    ReplayOne(rt, s, e);
    var s1 := Exec(rt, s, [BeginReplay(1), ReplayOk]).value;
    ExecOne(rt, s1, Crash([e]));
    var s2 := Apply(rt, s1, Crash([e]));
    ReplayOne(rt, s2, e);
    ExecAppend(rt, s, [BeginReplay(1), ReplayOk], [Crash([e])]);
    ExecAppend(rt, s, [BeginReplay(1), ReplayOk] + [Crash([e])], [BeginReplay(1), ReplayOk]);
  }

  /** From the start: a sample whose insert failed is in the buffer and on disk. */
  function StoreSteps(x: Sample, insert: Step): seq<Step> {
    [Receive(x), BeginFlush] + [insert, Spill] + [Sync]
  }

  function Stored(x: Sample, log: seq<Row>, twice: seq<Sample>): State {
    var e := BufferedSample(0, x);
    Init().(received := [x], mem := [e], disk := [e], nextId := 1, ever := {e}, log := log, twice := twice)
  }

  lemma BatchOfOne(rt: Router, x: Sample)
    ensures Exec(rt, Init(), [Receive(x), BeginFlush])
         == Some(Init().(received := [x], flushing := [Group(rt.TableFor(x), [x])]))
  {
    hide Router.TableFor, Collect, Exec;
    var a := Apply(rt, Init(), Receive(x));
    assert a.pending == [x];
    assert Routed(rt, [x]) == [Keyed(rt.TableFor(x), x)];
    CollectOne(Keyed(rt.TableFor(x), x));
    ExecTwo(rt, Init(), Receive(x), BeginFlush);
  }

  lemma StoreOne(rt: Router, x: Sample, insert: Step)
    requires insert.InsertErr? || insert.InsertUnheard?
    ensures var took := insert.InsertUnheard?;
      Exec(rt, Init(), StoreSteps(x, insert))
      == Some(Stored(x, if took then [Row(rt.TableFor(x), x)] else [], if took then [x] else []))
  {
    hide Router.TableFor, Exec;
    BatchOfOne(rt, x);
    var b := Init().(received := [x], flushing := [Group(rt.TableFor(x), [x])]);
    assert Rows(rt.TableFor(x), [x]) == [Row(rt.TableFor(x), x)];
    var c := Apply(rt, b, insert);
    assert c.flushing == [] && c.spilling == [x];
    var d := Apply(rt, c, Spill);
    ExecTwo(rt, b, insert, Spill);
    ExecOne(rt, d, Sync);
    ExecAppend(rt, Init(), [Receive(x), BeginFlush], [insert, Spill]);
    ExecAppend(rt, Init(), [Receive(x), BeginFlush] + [insert, Spill], [Sync]);
    var f := Apply(rt, d, Sync);
    assert d.mem == [BufferedSample(0, x)] && d.spilling == [];
    assert f.ever == {BufferedSample(0, x)};
    assert f == Stored(x, c.log, c.twice);
    assert insert.InsertUnheard? ==> c.log == [Row(rt.TableFor(x), x)] && c.twice == [x];
  }

  /** A write that was not flushed yet may or may not survive a crash. */
  lemma UnflushedWriteMayStay(rt: Router, x: Sample)
    ensures var e, steps := BufferedSample(0, x), [Receive(x), BeginFlush] + [InsertErr, Spill];
      forall survivors :: survivors == [] || survivors == [e] ==>
        && Exec(rt, Init(), steps + [Crash(survivors)]).Some?
        && Exec(rt, Init(), steps + [Crash(survivors)]).value.mem == survivors
  {
    hide Router.TableFor, Exec;
    BatchOfOne(rt, x);
    var b := Init().(received := [x], flushing := [Group(rt.TableFor(x), [x])]);
    ExecTwo(rt, b, InsertErr, Spill);
    var d := Apply(rt, Apply(rt, b, InsertErr), Spill);
    ExecAppend(rt, Init(), [Receive(x), BeginFlush], [InsertErr, Spill]);
    assert d.mem == [BufferedSample(0, x)] && d.disk == [];
    forall survivors | survivors == [] || survivors == [BufferedSample(0, x)]
      ensures Exec(rt, Init(), [Receive(x), BeginFlush] + [InsertErr, Spill] + [Crash(survivors)])
           == Some(Apply(rt, d, Crash(survivors)))
    {
      ExecOne(rt, d, Crash(survivors));
      ExecAppend(rt, Init(), [Receive(x), BeginFlush] + [InsertErr, Spill], [Crash(survivors)]);
    }
  }

  /** So may an entry whose removal was not flushed yet. */
  lemma UnflushedRemovalMayStay(rt: Router, x: Sample)
    ensures var e, steps := BufferedSample(0, x), StoreSteps(x, InsertErr) + [BeginReplay(1), ReplayOk] + [Ack];
      forall survivors :: survivors == [] || survivors == [e] ==>
        && Exec(rt, Init(), steps + [Crash(survivors)]).Some?
        && Exec(rt, Init(), steps + [Crash(survivors)]).value.mem == survivors
  {
    hide Router.TableFor, Exec, StoreSteps;
    var e := BufferedSample(0, x);
    StoreOne(rt, x, InsertErr);
    var s := Stored(x, [], []);
    ReplayOne(rt, s, e);
    ExecAppend(rt, Init(), StoreSteps(x, InsertErr), [BeginReplay(1), ReplayOk]);
    var t := s.(log := s.log + [Row(rt.TableFor(x), x)], acking := [e]);
    ExecOne(rt, t, Ack);
    ExecAppend(rt, Init(), StoreSteps(x, InsertErr) + [BeginReplay(1), ReplayOk], [Ack]);
    var d := Apply(rt, t, Ack);
    assert d.mem == [] && d.disk == [e];
    forall survivors | survivors == [] || survivors == [e]
      ensures Exec(rt, Init(), StoreSteps(x, InsertErr) + [BeginReplay(1), ReplayOk] + [Ack] + [Crash(survivors)])
           == Some(Apply(rt, d, Crash(survivors)))
    {
      ExecOne(rt, d, Crash(survivors));
      ExecAppend(rt, Init(), StoreSteps(x, InsertErr) + [BeginReplay(1), ReplayOk] + [Ack], [Crash(survivors)]);
    }
  }

  /** A run from the start that `CrashCanDuplicate` goes on from: one sample received, two rows in the end. */
  lemma DuplicateFromStart(rt: Router, x: Sample)
    ensures var e := BufferedSample(0, x);
      var steps := StoreSteps(x, InsertErr) + ([BeginReplay(1), ReplayOk] + [Crash([e])] + [BeginReplay(1), ReplayOk]);
      var row := Row(rt.TableFor(x), x);
      && Exec(rt, Init(), steps).Some?
      && Exec(rt, Init(), steps).value.log == [row, row] && Exec(rt, Init(), steps).value.received == [x]
  {
    hide Router.TableFor, Exec, StoreSteps;
    var e := BufferedSample(0, x);
    StoreOne(rt, x, InsertErr);
    var s := Stored(x, [], []);
    CrashCanDuplicate(rt, s, e);
    ExecAppend(rt, Init(), StoreSteps(x, InsertErr), [BeginReplay(1), ReplayOk] + [Crash([e])]
        + [BeginReplay(1), ReplayOk]);
  }

  /** Neither crash nor abort is needed: an INSERT whose reply is lost is repeated by the replay. */
  lemma LostReplyDuplicates(rt: Router, x: Sample)
    ensures var steps, row := StoreSteps(x, InsertUnheard) + [BeginReplay(1), ReplayOk], Row(rt.TableFor(x), x);
      && NoCrash(steps) && NoAbort(steps)
      && Exec(rt, Init(), steps).Some?
      && Exec(rt, Init(), steps).value.log == [row, row] && Exec(rt, Init(), steps).value.received == [x]
  {
    hide Router.TableFor, Exec;
    var e := BufferedSample(0, x);
    StoreOne(rt, x, InsertUnheard);
    var s := Stored(x, [Row(rt.TableFor(x), x)], [x]);
    ReplayOne(rt, s, e);
    ExecAppend(rt, Init(), StoreSteps(x, InsertUnheard), [BeginReplay(1), ReplayOk]);
  }
}

/** What a crash does to the entries of the buffer, counted. */
module CrashCounts {
  import opened Buffer
  import opened SinkMachine

  lemma {:induction false} MinusCounts(entries: seq<BufferedSample>, out: seq<BufferedSample>, e: BufferedSample)
    ensures multiset(Minus(entries, out))[e] == if e in out then 0 else multiset(entries)[e]
  {
    if entries != [] {
      var n := |entries| - 1;
      MinusCounts(entries[..n], out, e);
      assert entries == entries[..n] + [entries[n]];
    }
  }

  lemma {:induction false} CommonCounts(entries: seq<BufferedSample>, kept: seq<BufferedSample>, e: BufferedSample)
    ensures multiset(Common(entries, kept))[e] == if e in kept then multiset(entries)[e] else 0
  {
    if entries != [] {
      var n := |entries| - 1;
      CommonCounts(entries[..n], kept, e);
      assert entries == entries[..n] + [entries[n]];
    }
  }

  lemma {:induction false} OnceIfIncreasing(entries: seq<BufferedSample>, e: BufferedSample)
    requires Increasing(entries)
    ensures multiset(entries)[e] == if e in entries then 1 else 0
  {
    hide Increasing;
    if entries != [] {
      IncreasingTail(entries);
      OnceIfIncreasing(entries[1..], e);
      assert entries == [entries[0]] + entries[1..];
    }
  }

  /** The first item of `a` taken out of `b`. */
  lemma PullOut<T>(a: seq<T>, b: seq<T>) returns (front: seq<T>, back: seq<T>)
    requires a != [] && multiset(a) <= multiset(b)
    ensures b == front + [a[0]] + back
    ensures multiset(a[1..]) <= multiset(front + back)
    ensures multiset(a) == multiset(b) ==> multiset(a[1..]) == multiset(front + back)
  {
    var x := a[0];
    assert a == [x] + a[1..];
    assert multiset(a)[x] <= multiset(b)[x];
    var k :| 0 <= k < |b| && b[k] == x;
    front, back := b[..k], b[k + 1..];
    assert b == front + [x] + back;
    Middle(front, x, back);
    forall e ensures multiset(a[1..])[e] <= multiset(front + back)[e] {
      assert multiset(a)[e] <= multiset(b)[e];
      assert multiset(a) == multiset{x} + multiset(a[1..]);
    }
    if multiset(a) == multiset(b) {
      assert multiset{x} + multiset(a[1..]) == multiset(front + back) + multiset{x};
      Unadd(multiset(a[1..]), multiset(front + back), multiset{x});
    }
  }

  lemma {:induction false} SampleBags(a: seq<BufferedSample>, b: seq<BufferedSample>)
    requires multiset(a) == multiset(b)
    ensures multiset(SamplesOf(a)) == multiset(SamplesOf(b))
    decreases |a|
  {
    hide SamplesOf;
    if a == [] {
      assert b == [] by { assert |multiset(b)| == |b|; }
    } else {
      var front, back := PullOut(a, b);
      SampleBags(a[1..], front + back);
      FirstSampleOut(a);
      MiddleSampleOut(front, a[0], back);
    }
  }

  lemma FirstSampleOut(a: seq<BufferedSample>)
    requires a != []
    ensures multiset(SamplesOf(a)) == multiset(SamplesOf(a[1..])) + multiset{a[0].sample}
  {
    assert SamplesOf(a) == [a[0].sample] + SamplesOf(a[1..]);
  }

  lemma MiddleSampleOut(front: seq<BufferedSample>, e: BufferedSample, back: seq<BufferedSample>)
    ensures multiset(SamplesOf(front + [e] + back)) == multiset(SamplesOf(front + back)) + multiset{e.sample}
  {
    hide SamplesOf;
    SamplesAppend(front + [e], back);
    SamplesAppend(front, [e]);
    SamplesAppend(front, back);
    OneSampleOf(e);
    Middle(SamplesOf(front), e.sample, SamplesOf(back));
  }

  lemma OneSampleOf(e: BufferedSample)
    ensures SamplesOf([e]) == [e.sample]
  {
  }

  lemma Unadd<T>(a: multiset<T>, b: multiset<T>, c: multiset<T>)
    requires c + a == b + c
    ensures a == b
  {
    forall x ensures a[x] == b[x] {
      assert (c + a)[x] == (b + c)[x];
    }
  }

  /**
   The entries in the buffer after a crash and those that vanished are those before it, once the ones sent
   again are set against the ones that were about to be removed.
   */
  lemma CrashEntries(s: State, survivors: seq<BufferedSample>)
    requires BufferSound(s) && Increasing(survivors)
    ensures multiset(s.acking + survivors + Vanished(s, survivors)) == multiset(s.mem + Resent(s, survivors))
  {
    hide Increasing, Minus, Common;
    var m := Minus(s.mem, survivors);
    forall e
      ensures multiset(s.acking + survivors + Vanished(s, survivors))[e]
        == multiset(s.mem + Resent(s, survivors))[e]
    {
      MinusCounts(s.mem, survivors, e);
      MinusCounts(m, s.acking, e);
      CommonCounts(s.acking, survivors, e);
      MinusCounts(survivors, s.mem, e);
      OnceIfIncreasing(s.mem, e);
      OnceIfIncreasing(survivors, e);
      AckingWithin(s, e);
    }
  }

  lemma AckingWithin(s: State, e: BufferedSample)
    requires BufferSound(s)
    ensures multiset(s.acking)[e] <= multiset(s.mem)[e]
  {
    hide Increasing;
    var all := s.acking + Grouping.Flatten(s.replaying);
    assert multiset(all)[e] <= multiset(s.mem)[e];
    assert multiset(all) == multiset(s.acking) + multiset(Grouping.Flatten(s.replaying));
  }

  import Grouping

  /** The same, in samples. */
  lemma CrashSamples(s: State, survivors: seq<BufferedSample>)
    requires BufferSound(s) && Increasing(survivors)
    ensures multiset(SamplesOf(s.acking)) + multiset(SamplesOf(survivors)) + multiset(SamplesOf(Vanished(s, survivors)))
         == multiset(SamplesOf(s.mem)) + multiset(SamplesOf(Resent(s, survivors)))
  {
    hide BufferSound, Increasing, Vanished, Resent, SamplesOf;
    var v, r := Vanished(s, survivors), Resent(s, survivors);
    CrashEntries(s, survivors);
    SampleBags(s.acking + survivors + v, s.mem + r);
    SamplesAppend(s.acking + survivors, v);
    SamplesAppend(s.acking, survivors);
    SamplesAppend(s.mem, r);
  }
}

/** Which runs keep every sample exactly once. */
module SinkLedger {
  import opened Samples
  import opened Grouping
  import opened Buffer
  import opened Options
  import opened SinkMachine
  import opened SinkTheorems
  import opened CrashCounts
  import opened IdSets

  /**
   Every sample received is in one place, as often as it was received: waiting, in the batch being written,
   buffered or inserted; an inserted entry that is being removed from the buffer counts once.
   */
  ghost predicate Conserved(s: State) {
    multiset(s.received) + multiset(SamplesOf(s.acking))
    == multiset(s.pending) + multiset(Flatten(s.flushing)) + multiset(s.spilling) + multiset(SamplesOf(s.mem))
       + multiset(LogSamples(s.log))
  }

  /** Between two calls of the worker: every sample is waiting, buffered or inserted. */
  lemma ConservedWhenIdle(s: State)
    requires Idle(s)
    ensures Conserved(s) <==>
      multiset(s.received) == multiset(s.pending) + multiset(SamplesOf(s.mem)) + multiset(LogSamples(s.log))
  {
    hide SamplesOf, LogSamples;
    assert SamplesOf([]) == [] by { NoSamples(); }
    assert Flatten(s.flushing) == [];
    var held := multiset(s.pending) + multiset(SamplesOf(s.mem)) + multiset(LogSamples(s.log));
    assert multiset(s.pending) + multiset(Flatten(s.flushing)) + multiset(s.spilling) + multiset(SamplesOf(s.mem))
        + multiset(LogSamples(s.log)) == held;
    assert multiset(s.received) + multiset(SamplesOf(s.acking)) == multiset(s.received);
  }

  lemma NoSamples()
    ensures SamplesOf([]) == []
  {
  }

  lemma BalancedBags(s: State)
    requires Balanced(s)
    ensures multiset(s.received) + multiset(SamplesOf(s.acking)) + multiset(s.twice)
      == multiset(s.pending) + multiset(Flatten(s.flushing)) + multiset(s.spilling) + multiset(SamplesOf(s.mem))
         + multiset(LogSamples(s.log)) + multiset(s.lost)
  {
    hide SamplesOf, LogSamples, Flatten;
    var l := multiset(s.received) + multiset(SamplesOf(s.acking)) + multiset(s.twice);
    var r := multiset(s.pending) + multiset(Flatten(s.flushing)) + multiset(s.spilling) + multiset(SamplesOf(s.mem))
             + multiset(LogSamples(s.log)) + multiset(s.lost);
    forall x ensures l[x] == r[x] {
      assert BalancedAt(s, x);
    }
  }

  /**
   At any moment of any run the samples are conserved exactly when as many of each were lost as were written
   twice.
   */
  lemma ConservedExactly(s: State)
    requires Balanced(s)
    ensures Conserved(s) <==> multiset(s.lost) == multiset(s.twice)
  {
    hide Balanced, SamplesOf, LogSamples, Flatten;
    BalancedBags(s);
    var there := multiset(s.received) + multiset(SamplesOf(s.acking));
    var held := multiset(s.pending) + multiset(Flatten(s.flushing)) + multiset(s.spilling) + multiset(SamplesOf(s.mem))
                + multiset(LogSamples(s.log));
    if there == held {
      Unadd(multiset(s.twice), multiset(s.lost), held);
    }
    if multiset(s.lost) == multiset(s.twice) {
      Unadd(there, held, multiset(s.lost));
    }
  }

  lemma ConservedAtEndExactly(rt: Router, steps: seq<Step>)
    requires Exec(rt, Init(), steps).Some?
    ensures var s := Exec(rt, Init(), steps).value;
      && (Conserved(s) <==> multiset(s.lost) == multiset(s.twice))
      && (Idle(s) ==>
            (multiset(s.received) == multiset(s.pending) + multiset(SamplesOf(s.mem)) + multiset(LogSamples(s.log))
             <==> multiset(s.lost) == multiset(s.twice)))
  {
    hide Exec, Inv, Idle, Balanced, Conserved, SamplesOf, LogSamples;
    InitSound(rt);
    RunBalances(rt, Init(), steps);
    ConservedExactly(Exec(rt, Init(), steps).value);
    if Idle(Exec(rt, Init(), steps).value) {
      ConservedWhenIdle(Exec(rt, Init(), steps).value);
    }
  }

  // ---- what one step loses or writes twice ----

  function LostBy(s: State, step: Step): seq<Sample> {
    match step
    case Abort => s.spilling + Flatten(s.flushing) + s.pending
    case Crash(survivors) => s.spilling + Flatten(s.flushing) + s.pending + SamplesOf(Vanished(s, survivors))
    case _ => []
  }

  function TwiceBy(s: State, step: Step): seq<Sample> {
    match step
    case Abort => SamplesOf(s.acking)
    case Crash(survivors) => SamplesOf(Resent(s, survivors))
    case InsertUnheard => if s.flushing == [] then [] else s.flushing[0].items
    case ReplayUnheard => if s.replaying == [] then [] else SamplesOf(s.replaying[0].items)
    case _ => []
  }

  /** The steps that may lose or repeat samples. */
  predicate Harmful(step: Step) {
    step.Abort? || step.Crash? || step.InsertUnheard? || step.ReplayUnheard?
  }

  lemma BookedBy(rt: Router, s: State, step: Step)
    requires Enabled(s, step)
    ensures multiset(Apply(rt, s, step).lost) == multiset(s.lost) + multiset(LostBy(s, step))
    ensures multiset(Apply(rt, s, step).twice) == multiset(s.twice) + multiset(TwiceBy(s, step))
    ensures !Harmful(step) ==> LostBy(s, step) == [] && TwiceBy(s, step) == []
  {
    hide Apply, LostBy, TwiceBy, Enabled;
    Booked(rt, s, step);
    AddedBags(s.lost, LostBy(s, step));
    AddedBags(s.twice, TwiceBy(s, step));
  }

  lemma AddedBags(a: seq<Sample>, b: seq<Sample>)
    ensures multiset(a + b) == multiset(a) + multiset(b)
  {
  }

  lemma Booked(rt: Router, s: State, step: Step)
    requires Enabled(s, step)
    ensures Apply(rt, s, step).lost == s.lost + LostBy(s, step)
    ensures Apply(rt, s, step).twice == s.twice + TwiceBy(s, step)
    ensures !Harmful(step) ==> LostBy(s, step) == [] && TwiceBy(s, step) == []
  {
    hide Collect, Rows, SamplesOf, Without, Vanished, Resent, Flatten, Recovered;
  }

  /** No group is empty. */
  ghost predicate Filled(s: State) {
    && (forall i :: 0 <= i < |s.flushing| ==> s.flushing[i].items != [])
    && (forall i :: 0 <= i < |s.replaying| ==> s.replaying[i].items != [])
  }

  lemma FilledKept(rt: Router, s: State, step: Step)
    requires Enabled(s, step) && Filled(s)
    ensures Filled(Apply(rt, s, step))
  {
    hide Collect, Rows, SamplesOf, Without, Vanished, Resent, Flatten, Recovered;
    match step
    case BeginFlush => CollectIsPartition(Routed(rt, s.pending));
    case BeginReplay(limit) => CollectIsPartition(RoutedEntries(rt, Oldest(s.mem, limit)));
    case _ =>
  }

  /**
   A crash or abort meets something: samples still in the builder or in the batch being written, inserted
   entries not removed yet, unflushed entries that go, or removals that are undone. An INSERT that took effect
   and is reported as failed always does.
   */
  ghost predicate Meets(s: State, step: Step) {
    match step
    case Abort => s.pending != [] || s.spilling != [] || Flatten(s.flushing) != [] || s.acking != []
    case Crash(survivors) =>
      || s.pending != [] || s.spilling != [] || Flatten(s.flushing) != []
      || (exists e :: e in s.acking && e in survivors)
      || (exists e :: e in s.mem && e !in survivors && e !in s.acking)
      || (exists e :: e in survivors && e !in s.mem)
    case InsertUnheard => true
    case ReplayUnheard => true
    case _ => false
  }

  lemma {:induction false} MinusEmpty(entries: seq<BufferedSample>, out: seq<BufferedSample>)
    ensures Minus(entries, out) == [] <==> forall e :: e in entries ==> e in out
    ensures forall e :: e in Minus(entries, out) <==> e in entries && e !in out
  {
    if entries != [] {
      var n := |entries| - 1;
      MinusEmpty(entries[..n], out);
      assert entries == entries[..n] + [entries[n]];
    }
  }

  lemma {:induction false} CommonEmpty(entries: seq<BufferedSample>, kept: seq<BufferedSample>)
    ensures Common(entries, kept) == [] <==> forall e :: e in entries ==> e !in kept
    ensures forall e :: e in Common(entries, kept) <==> e in entries && e in kept
  {
    if entries != [] {
      var n := |entries| - 1;
      CommonEmpty(entries[..n], kept);
      assert entries == entries[..n] + [entries[n]];
    }
  }

  /** A step loses or repeats a sample exactly when it meets something. */
  lemma MeetsExactly(s: State, step: Step)
    requires Enabled(s, step) && Filled(s)
    ensures Meets(s, step) <==> LostBy(s, step) != [] || TwiceBy(s, step) != []
  {
    hide Minus, Common, Flatten, Recovered;
    match step
    case Crash(survivors) =>
      MinusEmpty(s.mem, survivors);
      MinusEmpty(Minus(s.mem, survivors), s.acking);
      CommonEmpty(s.acking, survivors);
      MinusEmpty(survivors, s.mem);
    case _ =>
  }

  // ---- along a run ----

  ghost function StateAt(rt: Router, steps: seq<Step>, n: nat): State
    requires n <= |steps| && Exec(rt, Init(), steps).Some?
  {
    PrefixRuns(rt, Init(), steps, n);
    Exec(rt, Init(), steps[..n]).value
  }

  lemma {:induction false} PrefixRuns(rt: Router, s: State, steps: seq<Step>, n: nat)
    requires n <= |steps| && Exec(rt, s, steps).Some?
    ensures Exec(rt, s, steps[..n]).Some?
    ensures n < |steps| ==> Enabled(Exec(rt, s, steps[..n]).value, steps[n])
    ensures n < |steps| ==> Exec(rt, s, steps[..n + 1]) == Some(Apply(rt, Exec(rt, s, steps[..n]).value, steps[n]))
    decreases |steps| - n
  {
    hide Apply, Enabled;
    if n == |steps| {
      assert steps[..n] == steps;
    } else {
      PrefixRuns(rt, s, steps, n + 1);
      assert steps[..n + 1][..n] == steps[..n];
    }
  }

  /** At every moment every sample is in one place. */
  ghost predicate ConservedThroughout(rt: Router, steps: seq<Step>)
    requires Exec(rt, Init(), steps).Some?
  {
    forall n :: 0 <= n <= |steps| ==> Conserved(StateAt(rt, steps, n))
  }

  /** Each step lost exactly the samples it repeated. */
  ghost predicate EvenThroughout(rt: Router, steps: seq<Step>)
    requires Exec(rt, Init(), steps).Some?
  {
    forall n :: 0 <= n < |steps| ==>
      multiset(LostBy(StateAt(rt, steps, n), steps[n])) == multiset(TwiceBy(StateAt(rt, steps, n), steps[n]))
  }

  /** No crash and no abort met anything, and no INSERT that took effect was reported as failed. */
  ghost predicate NothingMet(rt: Router, steps: seq<Step>)
    requires Exec(rt, Init(), steps).Some?
  {
    forall n :: 0 <= n < |steps| ==> !Meets(StateAt(rt, steps, n), steps[n])
  }

  lemma StateSound(rt: Router, steps: seq<Step>, n: nat)
    requires n <= |steps| && Exec(rt, Init(), steps).Some?
    ensures Inv(rt, StateAt(rt, steps, n)) && Balanced(StateAt(rt, steps, n))
  {
    hide Inv, Balanced, Exec;
    PrefixRuns(rt, Init(), steps, n);
    InitSound(rt);
    RunKeeps(rt, Init(), steps[..n]);
    RunBalances(rt, Init(), steps[..n]);
  }

  lemma StateNext(rt: Router, steps: seq<Step>, n: nat)
    requires n < |steps| && Exec(rt, Init(), steps).Some?
    ensures Enabled(StateAt(rt, steps, n), steps[n])
    ensures StateAt(rt, steps, n + 1) == Apply(rt, StateAt(rt, steps, n), steps[n])
  {
    hide Apply, Enabled, Exec;
    PrefixRuns(rt, Init(), steps, n);
    PrefixRuns(rt, Init(), steps, n + 1);
  }

  lemma StateFirst(rt: Router, steps: seq<Step>)
    requires Exec(rt, Init(), steps).Some?
    ensures StateAt(rt, steps, 0) == Init()
  {
    assert steps[..0] == [];
  }

  ghost predicate Even(s: State) {
    multiset(s.lost) == multiset(s.twice)
  }

  /** While each step is even, the books are. */
  lemma {:induction false} BooksEven(rt: Router, steps: seq<Step>, n: nat)
    requires n <= |steps| && Exec(rt, Init(), steps).Some? && EvenThroughout(rt, steps)
    ensures Even(StateAt(rt, steps, n))
  {
    hide Exec, Apply, Enabled, StateAt, LostBy, TwiceBy;
    if n == 0 {
      StateFirst(rt, steps);
    } else {
      BooksEven(rt, steps, n - 1);
      StateNext(rt, steps, n - 1);
      BookedBy(rt, StateAt(rt, steps, n - 1), steps[n - 1]);
    }
  }

  /** While the samples are conserved, the books are even, and so is each step. */
  lemma {:induction false} ConservedIsEven(rt: Router, steps: seq<Step>, n: nat)
    requires n <= |steps| && Exec(rt, Init(), steps).Some? && ConservedThroughout(rt, steps)
    ensures Even(StateAt(rt, steps, n))
    ensures forall k :: 0 <= k < n ==>
      multiset(LostBy(StateAt(rt, steps, k), steps[k])) == multiset(TwiceBy(StateAt(rt, steps, k), steps[k]))
  {
    hide Exec, Apply, Enabled, StateAt, LostBy, TwiceBy, Idle, Conserved, Balanced, Inv;
    if n == 0 {
      StateFirst(rt, steps);
    } else {
      ConservedIsEven(rt, steps, n - 1);
      StateNext(rt, steps, n - 1);
      var s, t := StateAt(rt, steps, n - 1), StateAt(rt, steps, n);
      BookedBy(rt, s, steps[n - 1]);
      StateSound(rt, steps, n);
      ConservedExactly(t);
      Unadd(multiset(LostBy(s, steps[n - 1])), multiset(TwiceBy(s, steps[n - 1])), multiset(s.lost));
    }
  }

  /** A run keeps every sample exactly once, throughout, exactly when each step lost just what it repeated. */
  lemma ConservedThroughoutExactly(rt: Router, steps: seq<Step>)
    requires Exec(rt, Init(), steps).Some?
    ensures ConservedThroughout(rt, steps) <==> EvenThroughout(rt, steps)
  {
    hide Exec, StateAt, LostBy, TwiceBy, Idle, Conserved, Balanced, Inv;
    if ConservedThroughout(rt, steps) {
      ConservedIsEven(rt, steps, |steps|);
    }
    if EvenThroughout(rt, steps) {
      forall n | 0 <= n <= |steps| ensures Conserved(StateAt(rt, steps, n)) {
        BooksEven(rt, steps, n);
        StateSound(rt, steps, n);
        ConservedExactly(StateAt(rt, steps, n));
      }
    }
  }

  /** No sample is received twice. */
  ghost predicate AllDifferent(received: seq<Sample>) {
    forall x :: multiset(received)[x] <= 1
  }

  /** A sample that one step both lost and repeated was received at least twice. */
  lemma LostAndTwice(rt: Router, s: State, step: Step, x: Sample)
    requires Inv(rt, s) && BalancedAt(s, x) && Enabled(s, step)
    requires x in LostBy(s, step) && x in TwiceBy(s, step)
    requires x !in s.twice
    ensures Count(s.received, x) >= 2
  {
    hide Router.TableFor, Count, LogSamples;
    TwiceIsLogged(rt, s, step, x);
    LostIsHeld(rt, s, step, x);
    CountIn(LogSamples(s.log), x);
    NotCounted(s.twice, x);
  }

  lemma CountIn(xs: seq<Sample>, x: Sample)
    requires x in xs
    ensures Count(xs, x) >= 1
  {
  }

  lemma NotCounted(xs: seq<Sample>, x: Sample)
    requires x !in xs
    ensures Count(xs, x) == 0
  {
  }

  lemma LoggedSample(rt: Router, s: State, e: BufferedSample)
    requires Logged(rt, s, e)
    ensures e.sample in LogSamples(s.log)
  {
    hide Router.TableFor;
    var i :| 0 <= i < |s.log| && s.log[i] == Row(rt.TableFor(e.sample), e.sample);
    assert LogSamples(s.log)[i] == e.sample;
  }

  lemma SampleOfEntry(entries: seq<BufferedSample>, x: Sample) returns (e: BufferedSample)
    requires x in SamplesOf(entries)
    ensures e in entries && e.sample == x
  {
    var i :| 0 <= i < |entries| && SamplesOf(entries)[i] == x;
    e := entries[i];
  }

  lemma TwiceIsLogged(rt: Router, s: State, step: Step, x: Sample)
    requires Inv(rt, s) && Enabled(s, step) && x in TwiceBy(s, step) && (step.Abort? || step.Crash?)
    ensures x in LogSamples(s.log)
  {
    hide Router.TableFor, Logged, LogSamples, Increasing, Flatten, LogRouted, GroupsRouted, SamplesOf, Minus, Common;
    var e: BufferedSample;
    match step {
      case Abort =>
        e := SampleOfEntry(s.acking, x);
      case Crash(survivors) =>
        e := SampleOfEntry(Resent(s, survivors), x);
        CommonEmpty(s.acking, survivors);
        MinusEmpty(survivors, s.mem);
    }
    LoggedSample(rt, s, e);
  }

  /** A lost sample is held somewhere besides history and the entries being removed. */
  lemma LostIsHeld(rt: Router, s: State, step: Step, x: Sample)
    requires Inv(rt, s) && Enabled(s, step) && x in LostBy(s, step)
    ensures Count(s.pending, x) + Count(Flatten(s.flushing), x) + Count(s.spilling, x) + Count(SamplesOf(s.mem), x)
         >= Count(SamplesOf(s.acking), x) + 1
  {
    hide Router.TableFor, Inv, Count, SamplesOf, Flatten, Vanished;
    AckingSamples(rt, s, x);
    if x in s.pending { CountIn(s.pending, x); }
    if x in Flatten(s.flushing) { CountIn(Flatten(s.flushing), x); }
    if x in s.spilling { CountIn(s.spilling, x); }
    if step.Crash? && x in SamplesOf(Vanished(s, step.survivors)) {
      VanishedBeyond(rt, s, step.survivors, x);
    }
  }

  lemma {:induction false} SubBags<T>(a: seq<T>, b: seq<T>) returns (rest: seq<T>)
    requires multiset(a) <= multiset(b)
    ensures multiset(b) == multiset(a + rest)
    decreases |a|
  {
    if a == [] {
      rest := b;
      assert a + rest == b;
    } else {
      var front, back := PullOut(a, b);
      rest := SubBags(a[1..], front + back);
      PutBack(a, b, front, back, rest);
    }
  }

  lemma PutBack<T>(a: seq<T>, b: seq<T>, front: seq<T>, back: seq<T>, rest: seq<T>)
    requires a != [] && b == front + [a[0]] + back && multiset(front + back) == multiset(a[1..] + rest)
    ensures multiset(b) == multiset(a + rest)
  {
    Middle(front, a[0], back);
    assert a + rest == [a[0]] + (a[1..] + rest);
    assert multiset([a[0]] + (a[1..] + rest)) == multiset([a[0]]) + multiset(a[1..] + rest);
  }

  lemma BagCounts(rt: Router, s: State, part: seq<BufferedSample>, x: Sample)
    requires multiset(part) <= multiset(s.mem)
    ensures Count(SamplesOf(s.mem), x) >= Count(SamplesOf(part), x)
  {
    hide SamplesOf;
    var rest := SubBags(part, s.mem);
    SampleBags(s.mem, part + rest);
    SamplesAppend(part, rest);
    CountAppend(SamplesOf(part), SamplesOf(rest), x);
  }

  lemma AckingSamples(rt: Router, s: State, x: Sample)
    requires Inv(rt, s)
    ensures Count(SamplesOf(s.mem), x) >= Count(SamplesOf(s.acking), x)
  {
    hide SamplesOf, Count;
    forall e ensures multiset(s.acking)[e] <= multiset(s.mem)[e] { AckingWithin(s, e); }
    BagCounts(rt, s, s.acking, x);
  }

  lemma VanishedBeyond(rt: Router, s: State, survivors: seq<BufferedSample>, x: Sample)
    requires Inv(rt, s) && x in SamplesOf(Vanished(s, survivors))
    ensures Count(SamplesOf(s.mem), x) >= Count(SamplesOf(s.acking), x) + 1
  {
    hide SamplesOf, Count, Minus;
    var e := SampleOfEntry(Vanished(s, survivors), x);
    MinusEmpty(s.mem, survivors);
    MinusEmpty(Minus(s.mem, survivors), s.acking);
    var part := s.acking + [e];
    forall y ensures multiset(part)[y] <= multiset(s.mem)[y] {
      AckingWithin(s, y);
      assert multiset(part) == multiset(s.acking) + multiset{e};
      if y == e { assert multiset(s.acking)[e] == 0 && e in s.mem; }
    }
    BagCounts(rt, s, part, x);
    SamplesAppend(s.acking, [e]);
    OneSampleOf(e);
    CountAppend(SamplesOf(s.acking), [x], x);
    CountIn([x], x);
  }

  lemma {:induction false} ReceivedGrows(rt: Router, steps: seq<Step>, n: nat, x: Sample)
    requires n <= |steps| && Exec(rt, Init(), steps).Some?
    ensures Count(StateAt(rt, steps, n).received, x) <= Count(StateAt(rt, steps, |steps|).received, x)
    decreases |steps| - n
  {
    hide Exec, StateAt, Apply, Enabled, Count;
    if n < |steps| {
      StateNext(rt, steps, n);
      ReceivedStep(rt, StateAt(rt, steps, n), steps[n], x);
      ReceivedGrows(rt, steps, n + 1, x);
    }
  }

  lemma ReceivedStep(rt: Router, s: State, step: Step, x: Sample)
    requires Enabled(s, step)
    ensures Count(s.received, x) <= Count(Apply(rt, s, step).received, x)
  {
    hide Collect, Rows, SamplesOf, Without, Vanished, Resent, Flatten;
    if step.Receive? {
      CountAppend(s.received, [step.sample], x);
    }
  }

  /**
   Exactly once, exactly: when no sample is received twice, a run keeps every sample exactly once throughout
   if and only if no INSERT that took effect was reported as failed, and no crash and no abort met a waiting
   sample, an inserted entry not yet removed, an unflushed entry that went, or an unflushed removal.
   */
  lemma ExactlyOnceExactly(rt: Router, steps: seq<Step>)
    requires Exec(rt, Init(), steps).Some? && AllDifferent(StateAt(rt, steps, |steps|).received)
    ensures ConservedThroughout(rt, steps) <==> NothingMet(rt, steps)
  {
    hide Exec, StateAt, LostBy, TwiceBy, Meets, ConservedThroughout, Inv, Balanced, Enabled;
    ConservedThroughoutExactly(rt, steps);
    forall n | 0 <= n < |steps|
      ensures Meets(StateAt(rt, steps, n), steps[n])
        <==> LostBy(StateAt(rt, steps, n), steps[n]) != [] || TwiceBy(StateAt(rt, steps, n), steps[n]) != []
    {
      MeetsAt(rt, steps, n);
    }
    if EvenThroughout(rt, steps) {
      forall n | 0 <= n < |steps| ensures !Meets(StateAt(rt, steps, n), steps[n]) {
        EvenMeetsNothing(rt, steps, n);
      }
    }
  }

  /** With different samples, books that stay even stay empty. */
  lemma {:induction false} BooksEmpty(rt: Router, steps: seq<Step>, n: nat)
    requires n <= |steps| && Exec(rt, Init(), steps).Some? && AllDifferent(StateAt(rt, steps, |steps|).received)
    requires EvenThroughout(rt, steps)
    ensures StateAt(rt, steps, n).lost == [] && StateAt(rt, steps, n).twice == []
    ensures n > 0 ==>
      LostBy(StateAt(rt, steps, n - 1), steps[n - 1]) == [] && TwiceBy(StateAt(rt, steps, n - 1), steps[n - 1]) == []
  {
    hide Exec, StateAt, LostBy, TwiceBy, Inv, BalancedAt, Enabled, Apply, Count;
    if n == 0 {
      StateFirst(rt, steps);
    } else {
      BooksEmpty(rt, steps, n - 1);
      StateNext(rt, steps, n - 1);
      StateSound(rt, steps, n - 1);
      var s, step := StateAt(rt, steps, n - 1), steps[n - 1];
      BookedBy(rt, s, step);
      var l, t := LostBy(s, step), TwiceBy(s, step);
      forall x ensures x !in l {
        if x in l {
          assert x in multiset(l) && x in multiset(t);
          assert BalancedAt(s, x);
          LostAndTwice(rt, s, step, x);
          ReceivedGrows(rt, steps, n - 1, x);
          DifferentCount(StateAt(rt, steps, |steps|).received, x);
        }
      }
      NonEmptyHasMember(l);
      assert |multiset(t)| == |t|;
      assert |multiset(StateAt(rt, steps, n).lost)| == |StateAt(rt, steps, n).lost|;
      assert |multiset(StateAt(rt, steps, n).twice)| == |StateAt(rt, steps, n).twice|;
    }
  }

  lemma DifferentCount(received: seq<Sample>, x: Sample)
    requires AllDifferent(received)
    ensures Count(received, x) <= 1
  {
  }

  lemma EvenMeetsNothing(rt: Router, steps: seq<Step>, n: nat)
    requires n < |steps| && Exec(rt, Init(), steps).Some? && AllDifferent(StateAt(rt, steps, |steps|).received)
    requires EvenThroughout(rt, steps)
    ensures !Meets(StateAt(rt, steps, n), steps[n])
  {
    hide Exec, StateAt, LostBy, TwiceBy, Meets;
    BooksEmpty(rt, steps, n + 1);
    MeetsAt(rt, steps, n);
  }

  lemma {:induction false} FilledAt(rt: Router, steps: seq<Step>, n: nat)
    requires n <= |steps| && Exec(rt, Init(), steps).Some?
    ensures Filled(StateAt(rt, steps, n))
  {
    hide Exec, StateAt, Apply, Enabled, Filled;
    if n == 0 {
      StateFirst(rt, steps);
      assert Filled(Init()) by { InitFilled(); }
    } else {
      FilledAt(rt, steps, n - 1);
      StateNext(rt, steps, n - 1);
      FilledKept(rt, StateAt(rt, steps, n - 1), steps[n - 1]);
    }
  }

  lemma InitFilled()
    ensures Filled(Init())
  {
  }

  lemma MeetsAt(rt: Router, steps: seq<Step>, n: nat)
    requires n < |steps| && Exec(rt, Init(), steps).Some?
    ensures var s := StateAt(rt, steps, n);
      Meets(s, steps[n]) <==> LostBy(s, steps[n]) != [] || TwiceBy(s, steps[n]) != []
  {
    hide Exec, StateAt, LostBy, TwiceBy, Meets, Apply, Enabled, Filled;
    FilledAt(rt, steps, n);
    StateNext(rt, steps, n);
    MeetsExactly(StateAt(rt, steps, n), steps[n]);
  }

  // ---- without crashes and aborts ----

  lemma {:induction false} TwiceExactly(rt: Router, steps: seq<Step>, n: nat)
    requires n <= |steps| && Exec(rt, Init(), steps).Some? && NoCrash(steps) && NoAbort(steps)
    ensures StateAt(rt, steps, n).lost == []
    ensures StateAt(rt, steps, n).twice == [] <==> AllHeard(steps[..n])
  {
    hide Exec, StateAt, LostBy, TwiceBy, Meets, Apply, Enabled, NoCrash, NoAbort;
    if n == 0 {
      StateFirst(rt, steps);
    } else {
      TwiceExactly(rt, steps, n - 1);
      StateNext(rt, steps, n - 1);
      Booked(rt, StateAt(rt, steps, n - 1), steps[n - 1]);
      MeetsAt(rt, steps, n - 1);
      PlainStep(StateAt(rt, steps, n - 1), steps, n - 1);
      assert steps[..n] == steps[..n - 1] + [steps[n - 1]];
    }
  }

  lemma PlainStep(s: State, steps: seq<Step>, n: nat)
    requires n < |steps| && NoCrash(steps) && NoAbort(steps)
    ensures LostBy(s, steps[n]) == []
    ensures Meets(s, steps[n]) <==> steps[n].InsertUnheard? || steps[n].ReplayUnheard?
  {
    assert !steps[n].Crash? && !steps[n].Abort?;
  }

  /**
   Without crash and abort, the samples received are those waiting, buffered and inserted if and only if no
   INSERT that took effect was reported as failed.
   */
  lemma LostRepliesExactly(rt: Router, steps: seq<Step>)
    requires Exec(rt, Init(), steps).Some? && Idle(Exec(rt, Init(), steps).value) && NoCrash(steps) && NoAbort(steps)
    ensures var s := Exec(rt, Init(), steps).value;
      multiset(s.received) == multiset(s.pending) + multiset(SamplesOf(s.mem)) + multiset(LogSamples(s.log))
      <==> AllHeard(steps)
  {
    hide Exec, Idle, SamplesOf, LogSamples, NoCrash, NoAbort, Conserved;
    TwiceExactly(rt, steps, |steps|);
    assert steps[..|steps|] == steps;
    ConservedAtEndExactly(rt, steps);
    var s := Exec(rt, Init(), steps).value;
    assert StateAt(rt, steps, |steps|) == s;
    assert |multiset(s.twice)| == |s.twice|;
  }

  // ---- a later crash can undo a repetition ----

  /** A sample that was spilled, but whose flush failed. */
  function Unflushed(x: Sample): State {
    Init().(received := [x], mem := [BufferedSample(0, x)], nextId := 1)
  }

  function SpillSteps(x: Sample): seq<Step> {
    [Receive(x), BeginFlush] + [InsertErr, Spill] + [Abort]
  }

  lemma SpillOne(rt: Router, x: Sample)
    ensures Exec(rt, Init(), SpillSteps(x)) == Some(Unflushed(x))
  {
    hide Router.TableFor, Exec;
    BatchOfOne(rt, x);
    var b := Init().(received := [x], flushing := [Group(rt.TableFor(x), [x])]);
    var c := Apply(rt, b, InsertErr);
    assert c.flushing == [] && c.spilling == [x];
    ExecTwo(rt, b, InsertErr, Spill);
    var d := Apply(rt, c, Spill);
    assert d == Unflushed(x);
    ExecOne(rt, d, Abort);
    AbortIdle(rt, d);
    ExecAppend(rt, Init(), [Receive(x), BeginFlush], [InsertErr, Spill]);
    ExecAppend(rt, Init(), [Receive(x), BeginFlush] + [InsertErr, Spill], [Abort]);
  }

  lemma AbortIdle(rt: Router, s: State)
    requires Idle(s) && s.pending == []
    ensures Apply(rt, s, Abort) == s
  {
    assert SamplesOf(s.acking) == [] && Flatten(s.flushing) == [];
  }

  /**
   Looking only at the end of a run is not enough: here an abort leaves an inserted entry in the buffer, and a
   crash takes that entry, which was never flushed, so that in the end every sample is there once.
   */
  lemma CrashCanUndo(rt: Router, x: Sample)
    ensures var steps := SpillSteps(x) + ([BeginReplay(1), ReplayOk] + [Abort, Crash([])]);
      && Exec(rt, Init(), steps).Some?
      && Idle(Exec(rt, Init(), steps).value) && Conserved(Exec(rt, Init(), steps).value)
      && AllDifferent(Exec(rt, Init(), steps).value.received)
      && Exec(rt, Init(), SpillSteps(x) + [BeginReplay(1), ReplayOk]).Some?
      && Meets(Exec(rt, Init(), SpillSteps(x) + [BeginReplay(1), ReplayOk]).value, Abort)
  {
    hide Router.TableFor, Exec, SpillSteps, LogSamples;
    SpillOne(rt, x);
    var s, e := Unflushed(x), BufferedSample(0, x);
    ReplayOne(rt, s, e);
    var t := s.(log := s.log + [Row(rt.TableFor(x), x)], acking := [e]);
    ExecAppend(rt, Init(), SpillSteps(x), [BeginReplay(1), ReplayOk]);
    assert SamplesOf([e]) == [x] && Flatten(t.flushing) == [];
    var u := Apply(rt, t, Abort);
    assert u.mem == [e] && u.disk == [];
    ExecTwo(rt, t, Abort, Crash([]));
    var v := Apply(rt, u, Crash([]));
    ExecAppend(rt, s, [BeginReplay(1), ReplayOk], [Abort, Crash([])]);
    ExecAppend(rt, Init(), SpillSteps(x), [BeginReplay(1), ReplayOk] + [Abort, Crash([])]);
    assert v.received == [x] && v.mem == [] && v.pending == [] && v.log == [Row(rt.TableFor(x), x)];
    OneRow(Row(rt.TableFor(x), x));
    assert SamplesOf([]) == [];
  }

  /**
   Nor is looking only between calls: here the INSERT took effect and was reported as failed, and the worker
   ended before it wrote the sample to the buffer, so that every sample is there once whenever it is idle.
   */
  lemma AbortCanUndo(rt: Router, x: Sample)
    ensures var begun, steps := [Receive(x), BeginFlush], [Receive(x), BeginFlush] + [InsertUnheard, Abort];
      && Exec(rt, Init(), steps).Some?
      && Idle(Exec(rt, Init(), steps).value) && Conserved(Exec(rt, Init(), steps).value)
      && Exec(rt, Init(), begun).Some? && Enabled(Exec(rt, Init(), begun).value, InsertUnheard)
      && var taken := Apply(rt, Exec(rt, Init(), begun).value, InsertUnheard);
      !Idle(taken) && !Conserved(taken)
  {
    hide Router.TableFor, Exec, LogSamples;
    BatchOfOne(rt, x);
    var b := Init().(received := [x], flushing := [Group(rt.TableFor(x), [x])]);
    var row := Row(rt.TableFor(x), x);
    assert Rows(rt.TableFor(x), [x]) == [row];
    var c := Apply(rt, b, InsertUnheard);
    OneRow(row);
    NoSamples();
    assert c.spilling == [x] && c.log == [row] && c.flushing == [] && c.received == [x];
    assert !Conserved(c) by {
      assert (multiset(c.received) + multiset(SamplesOf(c.acking)))[x] == 1;
      assert (multiset(c.pending) + multiset(Flatten(c.flushing)) + multiset(c.spilling) + multiset(SamplesOf(c.mem))
              + multiset(LogSamples(c.log)))[x] == 2;
    }
    ExecTwo(rt, b, InsertUnheard, Abort);
    ExecAppend(rt, Init(), [Receive(x), BeginFlush], [InsertUnheard, Abort]);
    var d := Apply(rt, c, Abort);
    assert d.received == [x] && d.log == [row] && d.mem == [] && d.pending == [];
    ConservedWhenIdle(d);
  }

  lemma OneRow(r: Row)
    ensures LogSamples([r]) == [r.sample]
  {
  }

  lemma InsertedResent(t: State, e: BufferedSample)
    requires t.mem == [e] && t.acking == [e]
    ensures Resent(t, [e]) == [e] && Vanished(t, [e]) == []
  {
    assert [e][..0] == [];
    assert Minus([], [e]) == [] && Common([], [e]) == [];
    assert Minus([e], [e]) == [] && Common([e], [e]) == [e];
  }

  lemma MeetsInserted(t: State, e: BufferedSample)
    requires t.mem == [e] && t.acking == [e] && t.spilling == [] && t.flushing == []
    ensures Meets(t, Crash([e])) && TwiceBy(t, Crash([e])) == [e.sample] && LostBy(t, Crash([e])) == t.pending
  {
    hide Minus, Common, Resent, Vanished;
    InsertedResent(t, e);
    OneSampleOf(e);
    assert SamplesOf([]) == [];
    assert e in t.acking && e in [e];
    assert t.spilling + Flatten(t.flushing) + t.pending + [] == t.pending;
  }

  /** The crash of `CrashCanDuplicate` is one that meets an inserted entry: it repeats just that sample. */
  lemma DuplicateIsMet(rt: Router, s: State, e: BufferedSample)
    requires Idle(s) && s.mem == [e] && s.disk == [e]
    ensures Exec(rt, s, [BeginReplay(1), ReplayOk]).Some?
    ensures var t := Exec(rt, s, [BeginReplay(1), ReplayOk]).value;
      Meets(t, Crash([e])) && TwiceBy(t, Crash([e])) == [e.sample] && LostBy(t, Crash([e])) == s.pending
  {
    hide Router.TableFor, Exec, Meets, TwiceBy, LostBy;
    ReplayOne(rt, s, e);
    MeetsInserted(Exec(rt, s, [BeginReplay(1), ReplayOk]).value, e);
  }
}

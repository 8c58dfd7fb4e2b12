/**
 What every single column of a realtime row holds after any run: told from the events alone, without the
 column lists of the statements.
 */
module RealtimeColumns {
  import opened RealtimeLanguage
  import opened RealtimeUpsert
  import opened RealtimeConvergence
  import opened RealtimeTable

  /** The columns that describe a point. Samples and seeds both write them. */
  predicate IsDescriptive(c: Col) {
    || c == SourceSystem || c == Location || c == DeviceType || c == DeviceId
    || c == Alias || c == Tag || c == FaultType || c == Description
  }

  function Offered(e: Event, c: Col): Val {
    match e
    case Sampled(a) => Get(a.details, c)
    case Seeded(values, _) => Get(values, c)
  }

  function TimeOf(e: Event): int {
    match e
    case Sampled(a) => a.now
    case Seeded(_, now) => now
  }

  /** Seeds always write, samples when none before them is newer. */
  ghost predicate Writes(events: seq<Event>, j: int) {
    && 0 <= j < |events|
    && (events[j].Sampled? ==> forall i :: 0 <= i < j && events[i].Sampled? ==> events[i].a.at <= events[j].a.at)
  }

  ghost predicate IsLastWriter(events: seq<Event>, j: int) {
    Writes(events, j) && forall k :: j < k < |events| ==> !Writes(events, k)
  }

  /** A sample that writes changes `updated_at`; a seed does when it brings a new row or a new text. */
  ghost predicate Touches(events: seq<Event>, j: int) {
    && Writes(events, j)
    && (events[j].Seeded? ==> j == 0 || exists i, c ::
          IsLastWriter(events[..j], i) && IsDescriptive(c) && Offered(events[i], c) != Offered(events[j], c))
  }

  ghost predicate IsLastTouch(events: seq<Event>, j: int) {
    Touches(events, j) && forall k :: j < k < |events| ==> !Touches(events, k)
  }

  /** The statements write the column, and none gives it a meaning of its own. */
  ghost predicate IsCovered(k: Clauses, c: Col) {
    && c in k.seeded && c in k.sample.Columns()
    && c != TagState && c != TagValue && c != FaultCount && c != StatusDescription && c != LastFaultAt && c != UpdatedAt
  }

  // ---- one event ----

  lemma {:induction false} SamplesAre(events: seq<Event>, a: Arrival)
    ensures a in Samples(events) <==> Sampled(a) in events
  {
    if events != [] {
      var n := |events| - 1;
      SamplesAre(events[..n], a);
      assert events == events[..n] + [events[n]];
    }
  }

  /** No sample of the run is newer. */
  ghost predicate NoneNewer(events: seq<Event>, at: int) {
    forall i :: 0 <= i < |events| && events[i].Sampled? ==> events[i].a.at <= at
  }

  lemma NoneNewerIs(events: seq<Event>, at: int)
    ensures NoneNewer(events, at) <==> forall x :: x in Samples(events) ==> x.at <= at
  {
    hide Samples;
    forall x ensures x in Samples(events) <==> Sampled(x) in events { SamplesAre(events, x); }
    forall i | 0 <= i < |events| && events[i].Sampled? ensures events[i].a in Samples(events) {
      assert Sampled(events[i].a) in events;
    }
  }

  lemma NewestDecides(samples: seq<Arrival>, n: int, at: int)
    requires IsNewest(samples, n)
    ensures (forall x :: x in samples ==> x.at <= at) <==> samples[n].at <= at
  {
    assert samples[n] in samples;
  }

  /** The guard lets a sample through exactly when none before it is newer. */
  lemma AcceptedExactly(g: Grouping, k: Clauses, events: seq<Event>, a: Arrival)
    requires k.Valid() && events != []
    ensures Run(g, k, events).Present? && Typed(Run(g, k, events).row)
    ensures Accepts(Run(g, k, events).row, Bound(a)) <==> NoneNewer(events, a.at)
  {
    hide Run, Samples, Edges, Extra, NoneNewer, Bound;
    RunHolds(g, k, events);
    BoundMeaning(a);
    NoneNewerIs(events, a.at);
    var f := FaceOf(Run(g, k, events).row);
    if Samples(events) != [] {
      var n :| Reached(Samples(events), n, Extra(g, events), f);
      NewestDecides(Samples(events), n, a.at);
    }
  }

  lemma BoundKeepsDetails(a: Arrival, c: Col)
    requires c != TagState && c != TagValue && c != FaultCount && c != StatusDescription && c != LastFaultAt
    ensures Get(Bound(a), c) == Get(a.details, c)
  {
  }

  lemma RunNext(g: Grouping, k: Clauses, events: seq<Event>)
    requires events != []
    ensures Run(g, k, events) == Apply(g, k, Run(g, k, events[..|events| - 1]), events[|events| - 1])
  {
  }

  lemma LastEvent(g: Grouping, k: Clauses, events: seq<Event>, c: Col)
    requires k.Valid() && events != [] && IsCovered(k, c)
    ensures var n := |events| - 1;
      && Run(g, k, events).Present?
      && Get(Run(g, k, events).row, c) ==
           if Writes(events, n) then Offered(events[n], c) else Get(Run(g, k, events[..n]).row, c)
  {
    hide Run, RunInOrder, UpsertProgram, SeedProgram, Accepts, Bound, Layout.Valid;
    var n := |events| - 1;
    RunNext(g, k, events);
    var before := Run(g, k, events[..n]);
    match events[n]
    case Seeded(values, now) =>
      if before.Present? { SeedMeaning(k.seeded, before.row, values, now); }
    case Sampled(a) =>
      BoundKeepsDetails(a, c);
      if n > 0 {
        AcceptedExactly(g, k, events[..n], a);
        BoundMeaning(a);
        UpsertMeaning(g, k.sample, before.row, Bound(a), a.now);
      } else {
        assert before == Absent by { EmptyRun(g, k, events[..n]); }
      }
  }

  lemma EmptyRun(g: Grouping, k: Clauses, events: seq<Event>)
    requires events == []
    ensures Run(g, k, events) == Absent
  {
  }

  // ---- whole runs ----

  lemma {:induction false} ColumnsShow(g: Grouping, k: Clauses, events: seq<Event>, j: int, c: Col)
    requires k.Valid() && IsCovered(k, c) && IsLastWriter(events, j)
    ensures Run(g, k, events).Present? && Get(Run(g, k, events).row, c) == Offered(events[j], c)
    decreases |events|
  {
    hide Run, IsCovered, Clauses.Valid;
    var n := |events| - 1;
    LastEvent(g, k, events, c);
    if j < n {
      assert !Writes(events, n);
      assert forall i :: Writes(events[..n], i) ==> Writes(events, i);
      forall i | j < i < n ensures !Writes(events[..n], i) { assert !Writes(events, i); }
      assert Writes(events[..n], j);
      ColumnsShow(g, k, events[..n], j, c);
    }
  }

  lemma Covered(c: Col)
    requires IsDescriptive(c)
    ensures IsCovered(SINK_CLAUSES, c)
  {
  }

  /**
   After any run of samples and seeds, each of the descriptive columns holds what the last event that writes
   offered for it: the last sample that none before it is newer than, or a later seed.
   */
  lemma ColumnsShowLastWriter(g: Grouping, events: seq<Event>, j: int, c: Col)
    requires IsLastWriter(events, j)
    requires c in {SourceSystem, Location, DeviceType, DeviceId, Alias, Tag, FaultType, Description}
    ensures Run(g, SINK_CLAUSES, events).Present?
    ensures Get(Run(g, SINK_CLAUSES, events).row, c) == Offered(events[j], c)
  {
    SinkClausesValid();
    Covered(c);
    ColumnsShow(g, SINK_CLAUSES, events, j, c);
  }

  /** The same for every row of the table, over all chunks, replays and seeds. */
  lemma EveryRowShowsLastWriter(g: Grouping, ws: seq<Write>, key: Key, j: int, c: Col)
    requires IsLastWriter(EventsOf(ws, key), j)
    requires c in {SourceSystem, Location, DeviceType, DeviceId, Alias, Tag, FaultType, Description}
    ensures var t := WriteAll(g, SINK_CLAUSES, Table(map[], []), ws);
      key in t.rows && Get(t.rows[key], c) == Offered(EventsOf(ws, key)[j], c)
  {
    hide WriteAll, Run, EventsOf, IsLastWriter;
    RowIsItsOwnRun(g, SINK_CLAUSES, ws, key);
    ColumnsShowLastWriter(g, EventsOf(ws, key), j, c);
    LastIsOne(EventsOf(ws, key), j);
  }

  lemma LastIsOne(events: seq<Event>, j: int)
    requires IsLastWriter(events, j)
    ensures 0 <= j < |events|
  {
  }

  /** Every run that writes anything has a last event that writes. */
  lemma {:induction false} LastWriterExists(events: seq<Event>) returns (j: nat)
    requires events != []
    ensures IsLastWriter(events, j)
    decreases |events|
  {
    var n := |events| - 1;
    if Writes(events, n) {
      j := n;
    } else {
      assert n > 0;
      j := LastWriterExists(events[..n]);
      assert Writes(events, j);
      forall i | j < i < n ensures !Writes(events, i) { assert !Writes(events[..n], i); }
    }
  }

  // ---- updated_at ----

  lemma SeedTouches(cols: seq<Col>, row: Row, values: Row, now: int)
    requires LeavesStatus(cols)
    ensures Get(Seed(cols, Present(row), values, now).row, UpdatedAt)
         == if exists c :: c in cols && Get(values, c) != Get(row, c) then Num(now) else Get(row, UpdatedAt)
  {
    hide RunInOrder, SeedProgram;
    SeedMeaning(cols, row, values, now);
  }

  lemma LastEventTouches(g: Grouping, k: Clauses, events: seq<Event>)
    requires k.Valid() && events != []
    requires forall c :: c in k.seeded <==> IsDescriptive(c)
    requires forall c :: IsDescriptive(c) ==> IsCovered(k, c)
    ensures var n := |events| - 1;
      && Run(g, k, events).Present?
      && Get(Run(g, k, events).row, UpdatedAt) ==
           if Touches(events, n) then Num(TimeOf(events[n])) else Get(Run(g, k, events[..n]).row, UpdatedAt)
  {
    hide Run, RunInOrder, UpsertProgram, Accepts, Bound, Layout.Valid, IsCovered, IsDescriptive, Seed;
    var n := |events| - 1;
    RunNext(g, k, events);
    var before := Run(g, k, events[..n]);
    if n == 0 {
      EmptyRun(g, k, events[..n]);
      assert Touches(events, n);
      FirstTouches(g, k, events[n]);
    } else {
      match events[n]
      case Sampled(a) =>
        AcceptedExactly(g, k, events[..n], a);
        BoundMeaning(a);
        UpsertMeaning(g, k.sample, before.row, Bound(a), a.now);
      case Seeded(values, now) =>
        var i := LastWriterExists(events[..n]);
        forall c | IsDescriptive(c) ensures before.Present? && Get(before.row, c) == Offered(events[i], c) {
          ColumnsShow(g, k, events[..n], i, c);
        }
        AcceptedExactly(g, k, events[..n], Arrival(0, Null, false, Null, map[], 0));
        SeedTouches(k.seeded, before.row, values, now);
        forall m | IsLastWriter(events[..n], m) ensures m == i { OneLastWriter(events[..n], m, i); }
    }
  }

  lemma OneLastWriter(events: seq<Event>, i: int, j: int)
    requires IsLastWriter(events, i) && IsLastWriter(events, j)
    ensures i == j
  {
  }

  lemma FirstTouches(g: Grouping, k: Clauses, e: Event)
    ensures Get(Apply(g, k, Absent, e).row, UpdatedAt) == Num(TimeOf(e))
  {
  }

  lemma {:induction false} TouchedBy(g: Grouping, k: Clauses, events: seq<Event>, j: int)
    requires k.Valid() && IsLastTouch(events, j)
    requires forall c :: c in k.seeded <==> IsDescriptive(c)
    requires forall c :: IsDescriptive(c) ==> IsCovered(k, c)
    ensures Run(g, k, events).Present? && Get(Run(g, k, events).row, UpdatedAt) == Num(TimeOf(events[j]))
    decreases |events|
  {
    hide Run, IsCovered, IsDescriptive, Clauses.Valid;
    var n := |events| - 1;
    LastEventTouches(g, k, events);
    if j < n {
      assert !Touches(events, n);
      forall i | 0 <= i < n ensures Touches(events[..n], i) <==> Touches(events, i) {
        assert events[..n][..i] == events[..i];
      }
      TouchedBy(g, k, events[..n], j);
    }
  }

  /** `updated_at` is the time of the last event that wrote something new. */
  lemma UpdatedByLastTouch(g: Grouping, events: seq<Event>, j: int)
    requires IsLastTouch(events, j)
    ensures Run(g, SINK_CLAUSES, events).Present?
    ensures Get(Run(g, SINK_CLAUSES, events).row, UpdatedAt) == Num(TimeOf(events[j]))
  {
    SinkClausesValid();
    forall c | IsDescriptive(c) ensures IsCovered(SINK_CLAUSES, c) { Covered(c); }
    TouchedBy(g, SINK_CLAUSES, events, j);
  }

  // ---- rows that were only seeded ----

  /** Without a sample a row has no status, and counts no fault. */
  lemma SeededOnly(g: Grouping, events: seq<Event>)
    requires events != [] && forall i :: 0 <= i < |events| ==> events[i].Seeded?
    ensures Run(g, SINK_CLAUSES, events).Present?
    ensures var row := Run(g, SINK_CLAUSES, events).row;
      && Get(row, FaultCount) == Num(0)
      && forall c :: c in {TagState, TagValue, StatusDescription, LastFaultAt} ==> Get(row, c) == Null
  {
    hide Run, Samples;
    SinkClausesValid();
    RunHolds(g, SINK_CLAUSES, events);
    if Samples(events) != [] {
      SamplesAre(events, Samples(events)[0]);
      assert false;
    }
  }

  // ---- the WCS statement ----

  /** A WCS row holds in every column but the count what the last statement offered, and its time. */
  lemma {:induction false} WcsColumnsShowLast(offers: seq<WcsOffer>, c: Col)
    requires offers != [] && forall i :: 0 <= i < |offers| ==> Offer(offers[i].values)
    ensures WcsRun(WCS_LAYOUT, offers).Present?
    ensures var row, last := WcsRun(WCS_LAYOUT, offers).row, offers[|offers| - 1];
      Get(row, c) == if c == FaultCount then Num(WcsEdges(offers)) else if c == UpdatedAt then Num(last.now)
        else Get(last.values, c)
  {
    hide WcsRun, WcsEdges, Layout.Valid, Offer;
    WcsLayoutValid();
    WcsRowExact(WCS_LAYOUT, offers);
    WcsCopies(c);
  }

  lemma WcsCopies(c: Col)
    ensures c != FaultCount && c != UpdatedAt ==> IsCopied(WCS_LAYOUT, c)
  {
  }
}

/**
 Whole runs of the realtime status table.

 Samples of one row may arrive in any order: fresh batches, replays from the failure buffer and seeds at
 start-up interleave. The theorems say which sample the row shows at the end and what `fault_count` holds.
 */
module RealtimeConvergence {
  import opened RealtimeLanguage
  import opened RealtimeUpsert

  /** What one sample offers to its row; `tag_value` is a printed fault flag (src/types.rs). */
  datatype Arrival = Arrival(at: int, state: Val, fault: bool, status: Val, details: Row, now: int)

  function FlagText(fault: bool): string {
    if fault then "1" else "0"
  }

  /** `realtime_initial_fault_count` on a printed flag. */
  function InitialCount(fault: bool): int {
    if fault then 1 else 0
  }

  /** The VALUES list bound by `upsert_realtime_sample_refs`. */
  function Bound(a: Arrival): Row {
    a.details[TagState := a.state][TagValue := Str(FlagText(a.fault))][FaultCount := Num(InitialCount(a.fault))]
      [StatusDescription := a.status][LastFaultAt := Num(a.at)]
  }

  lemma BoundMeaning(a: Arrival)
    ensures Offer(Bound(a)) && Get(Bound(a), LastFaultAt) == Num(a.at) && Get(Bound(a), TagState) == a.state
    ensures Get(Bound(a), StatusDescription) == a.status && Get(Bound(a), TagValue) == Str(FlagText(a.fault))
    ensures IsFaultValue(Get(Bound(a), TagValue)) <==> a.fault
  {
    T.TrimOfTrimmed(T.Spaces, "0");
    T.TrimOfTrimmed(T.Spaces, "1");
  }

  datatype Stored = Absent | Present(row: Row)

  /** A sample inserts the row, or runs the clause on it. */
  function Upsert(g: Grouping, l: Layout, s: Stored, a: Arrival): (r: Stored)
    ensures r.Present?
  {
    match s
    case Absent => Present(Bound(a)[UpdatedAt := Num(a.now)])
    case Present(row) => Present(RunInOrder(UpsertProgram(g, l), row, Bound(a), a.now))
  }

  predicate SameColumns(a: Row, b: Row) {
    forall c: Col :: Get(a, c) == Get(b, c)
  }

  /** A seed inserts the row with the column defaults, or replaces its descriptive columns. */
  function Seed(cols: seq<Col>, s: Stored, values: Row, now: int): (r: Stored)
    ensures r.Present?
  {
    match s
    case Absent =>
      Present((map c | c in values && c in cols :: values[c])[FaultCount := Num(0)][UpdatedAt := Num(now)])
    case Present(row) =>
      // `updated_at` is ON UPDATE CURRENT_TIMESTAMP, which fires when some column changed
      var r := RunInOrder(SeedProgram(cols), row, values, now);
      Present(if SameColumns(r, row) then row else r[UpdatedAt := Num(now)])
  }

  datatype Event = Sampled(a: Arrival) | Seeded(values: Row, now: int)

  /** The column lists of the two statements of src/sink.rs. */
  datatype Clauses = Clauses(sample: Layout, seeded: seq<Col>) {
    ghost predicate Valid() { sample.Valid() && LeavesStatus(seeded) }
  }

  const SINK_CLAUSES := Clauses(SINK_LAYOUT, SEED_COLUMNS)

  lemma SinkClausesValid()
    ensures SINK_CLAUSES.Valid()
  {
    SinkLayoutValid();
    SeedColumnsLeaveStatus();
  }

  function Apply(g: Grouping, k: Clauses, s: Stored, e: Event): (r: Stored)
    ensures r.Present?
  {
    match e
    case Sampled(a) => Upsert(g, k.sample, s, a)
    case Seeded(values, now) => Seed(k.seeded, s, values, now)
  }

  function Run(g: Grouping, k: Clauses, events: seq<Event>): Stored {
    if events == [] then Absent
    else Apply(g, k, Run(g, k, events[..|events| - 1]), events[|events| - 1])
  }

  function Samples(events: seq<Event>): seq<Arrival> {
    if events == [] then []
    else
      var rest, last := Samples(events[..|events| - 1]), events[|events| - 1];
      if last.Sampled? then rest + [last.a] else rest
  }

  /** Sample `i` has the greatest timestamp, and is the last-arriving one with it. */
  ghost predicate IsNewest(samples: seq<Arrival>, i: int) {
    && 0 <= i < |samples|
    && (forall j :: 0 <= j < |samples| ==> samples[j].at <= samples[i].at)
    && (forall j :: i < j < |samples| ==> samples[j].at < samples[i].at)
  }

  lemma {:induction false} NewestExists(samples: seq<Arrival>) returns (i: nat)
    requires samples != []
    ensures IsNewest(samples, i)
  {
    i := 0;
    for n := 1 to |samples|
      invariant 0 <= i < n && IsNewest(samples[..n], i)
    {
      if samples[n].at >= samples[i].at { i := n; }
    }
    assert samples[..|samples|] == samples;
  }

  ghost predicate Shows(row: Row, a: Arrival) {
    && Get(row, LastFaultAt) == Num(a.at)
    && Get(row, TagState) == a.state
    && Get(row, TagValue) == Str(if a.fault then "1" else "0")
    && Get(row, StatusDescription) == a.status
  }

  /** The samples that were not older than anything before them: those the guard lets through. */
  function Accepted(samples: seq<Arrival>): seq<Arrival> {
    if samples == [] then []
    else
      var init, last := samples[..|samples| - 1], samples[|samples| - 1];
      if forall j :: 0 <= j < |init| ==> init[j].at <= last.at then Accepted(init) + [last] else Accepted(init)
  }

  /** Changes from non-fault to fault, starting from non-fault. */
  function Edges(samples: seq<Arrival>): nat {
    if samples == [] then 0
    else
      var n := |samples| - 1;
      Edges(samples[..n]) + (if samples[n].fault && (n == 0 || !samples[n - 1].fault) then 1 else 0)
  }

  /** How much the condition as written adds: a seeded row whose first sample is no fault. */
  function Extra(g: Grouping, events: seq<Event>): nat {
    if g == AsWritten && events != [] && events[0].Seeded? && Samples(events) != [] && !Samples(events)[0].fault
    then 1 else 0
  }

  // ---- the columns the theorems speak about ----

  datatype Face = Face(at: Val, state: Val, value: Val, status: Val, count: Val)

  function FaceOf(row: Row): Face {
    Face(Get(row, LastFaultAt), Get(row, TagState), Get(row, TagValue), Get(row, StatusDescription),
        Get(row, FaultCount))
  }

  ghost predicate ProperFace(f: Face) {
    (f.at.Null? || f.at.Num?) && (f.value.Null? || f.value.Str?) && f.count.Num?
  }

  function FaceOfArrival(a: Arrival, count: int): Face {
    Face(Num(a.at), a.state, Str(FlagText(a.fault)), a.status, Num(count))
  }

  function CountNext(g: Grouping, f: Face, a: Arrival): int
    requires f.count.Num? && (f.at.Null? || f.at.Num?)
  {
    var edge := a.fault && !IsFaultValue(f.value);
    var newer := f.at.Null? || a.at >= f.at.num;
    f.count.num + if (g == AsWritten && f.at.Null?) || (newer && edge) then 1 else 0
  }

  /** The VALUES list of an arrival, as the programs see it. */
  ghost predicate OfferOf(values: Row, a: Arrival) {
    && Offer(values)
    && FaceOf(values) == FaceOfArrival(a, InitialCount(a.fault))
    && (IsFaultValue(Get(values, TagValue)) <==> a.fault)
  }

  lemma BoundOffers(a: Arrival)
    ensures OfferOf(Bound(a), a)
  {
    BoundMeaning(a);
  }

  lemma UpsertFaceFor(g: Grouping, l: Layout, row: Row, values: Row, a: Arrival, now: int)
    requires l.Valid() && ProperFace(FaceOf(row)) && OfferOf(values, a)
    ensures var f, f' := FaceOf(row), FaceOf(RunInOrder(UpsertProgram(g, l), row, values, now));
      f' == if f.at.Null? || a.at >= f.at.num then FaceOfArrival(a, CountNext(g, f, a))
            else f.(count := Num(CountNext(g, f, a)))
  {
    hide RunInOrder, UpsertProgram, IsFaultValue, BodyColumn;
    UpsertMeaning(g, l, row, values, now);
    UpsertColumns(g, l, row, values, RunInOrder(UpsertProgram(g, l), row, values, now));
  }

  lemma UpsertFace(g: Grouping, l: Layout, s: Stored, a: Arrival)
    requires l.Valid() && s.Present? && ProperFace(FaceOf(s.row))
    ensures Upsert(g, l, s, a).Present?
    ensures var f, f' := FaceOf(s.row), FaceOf(Upsert(g, l, s, a).row);
      f' == if f.at.Null? || a.at >= f.at.num then FaceOfArrival(a, CountNext(g, f, a))
            else f.(count := Num(CountNext(g, f, a)))
  {
    BoundOffers(a);
    UpsertFaceFor(g, l, s.row, Bound(a), a, a.now);
  }

  lemma UpsertColumns(g: Grouping, l: Layout, row: Row, values: Row, r: Row)
    requires l.Valid() && Typed(row)
    requires forall c :: c != UpdatedAt ==> Get(r, c) == BodyColumn(g, l, c, row, values)
    ensures FaceOf(r) ==
      (if Accepts(row, values) then FaceOf(values) else FaceOf(row)).(count := CountAfter(g, row, values))
  {
    l.Facts();
    assert Get(r, LastFaultAt) == BodyColumn(g, l, LastFaultAt, row, values);
    assert Get(r, TagState) == BodyColumn(g, l, TagState, row, values);
    assert Get(r, TagValue) == BodyColumn(g, l, TagValue, row, values);
    assert Get(r, StatusDescription) == BodyColumn(g, l, StatusDescription, row, values);
    assert Get(r, FaultCount) == BodyColumn(g, l, FaultCount, row, values);
  }

  lemma InsertFace(a: Arrival)
    ensures FaceOf(Bound(a)[UpdatedAt := Num(a.now)]) == FaceOfArrival(a, InitialCount(a.fault))
  {
    BoundMeaning(a);
  }

  lemma SeedFace(cols: seq<Col>, s: Stored, values: Row, now: int)
    requires LeavesStatus(cols)
    ensures Seed(cols, s, values, now).Present?
    ensures FaceOf(Seed(cols, s, values, now).row)
         == if s.Present? then FaceOf(s.row) else Face(Null, Null, Null, Null, Num(0))
  {
    if s.Present? {
      SeedMeaning(cols, s.row, values, now);
    }
  }

  // ---- the invariant of a run ----

  /** The face after some samples, of which `i` is the newest, and `extra` counted beyond the edges. */
  ghost predicate Reached(samples: seq<Arrival>, i: int, extra: nat, f: Face) {
    && IsNewest(samples, i)
    && Accepted(samples) != [] && Accepted(samples)[|Accepted(samples)| - 1] == samples[i]
    && f == FaceOfArrival(samples[i], Edges(Accepted(samples)) + extra)
  }

  ghost predicate Holds(g: Grouping, events: seq<Event>, s: Stored) {
    var samples := Samples(events);
    if events == [] then s.Absent?
    else if samples == [] then
      s.Present? && FaceOf(s.row) == Face(Null, Null, Null, Null, Num(0)) && events[0].Seeded?
    else
      s.Present? && exists i :: Reached(samples, i, Extra(g, events), FaceOf(s.row))
  }

  lemma SeedStep(g: Grouping, cols: seq<Col>, events: seq<Event>, s: Stored, values: Row, now: int)
    requires LeavesStatus(cols) && Holds(g, events, s)
    ensures Holds(g, events + [Seeded(values, now)], Seed(cols, s, values, now))
  {
    var next := events + [Seeded(values, now)];
    assert next[..|next| - 1] == events;
    assert Samples(next) == Samples(events);
    SeedFace(cols, s, values, now);
    if events != [] {
      assert next[0] == events[0];
      assert Extra(g, next) == Extra(g, events);
    }
  }

  lemma SamplesSnoc(events: seq<Event>, a: Arrival)
    ensures Samples(events + [Sampled(a)]) == Samples(events) + [a]
  {
    assert (events + [Sampled(a)])[..|events|] == events;
  }

  /** The first sample of a row: seeds came before it exactly when the row is there. */
  lemma FirstExtra(g: Grouping, events: seq<Event>, s: Stored, a: Arrival)
    requires Holds(g, events, s) && Samples(events) == []
    ensures s.Present? ==> FaceOf(s.row) == Face(Null, Null, Null, Null, Num(0))
    ensures Samples(events + [Sampled(a)]) == [a]
    ensures Extra(g, events + [Sampled(a)]) == if s.Present? && g == AsWritten && !a.fault then 1 else 0
  {
    hide FaceOf, Samples;
    SamplesSnoc(events, a);
    assert events != [] ==> (events + [Sampled(a)])[0] == events[0];
  }

  lemma OneReached(a: Arrival, extra: nat, f: Face)
    requires f == FaceOfArrival(a, InitialCount(a.fault) + extra)
    ensures Reached([a], 0, extra, f)
  {
    hide Accepted, Edges, FaceOfArrival;
    OneSample(a);
  }

  lemma FirstSample(g: Grouping, l: Layout, events: seq<Event>, s: Stored, a: Arrival)
    requires l.Valid() && Holds(g, events, s) && Samples(events) == []
    ensures Holds(g, events + [Sampled(a)], Upsert(g, l, s, a))
  {
    hide Upsert, FaceOf, FaceOfArrival, Samples, Extra, Reached;
    var next := events + [Sampled(a)];
    FirstExtra(g, events, s, a);
    FirstFace(g, l, s, a);
    OneReached(a, Extra(g, next), FaceOf(Upsert(g, l, s, a).row));
  }

  lemma FirstFace(g: Grouping, l: Layout, s: Stored, a: Arrival)
    requires l.Valid() && (s.Present? ==> FaceOf(s.row) == Face(Null, Null, Null, Null, Num(0)))
    ensures FaceOf(Upsert(g, l, s, a).row)
         == FaceOfArrival(a, InitialCount(a.fault) + if s.Present? && g == AsWritten && !a.fault then 1 else 0)
  {
    if s.Absent? {
      InsertFace(a);
    } else {
      UpsertFace(g, l, s, a);
    }
  }

  lemma OneSample(a: Arrival)
    ensures Accepted([a]) == [a] && Edges([a]) == InitialCount(a.fault)
  {
    var one := [a];
    assert one[..0] == [];
    assert Edges(one) == Edges(one[..0]) + if a.fault then 1 else 0;
  }

  lemma FlagFault(fault: bool)
    ensures IsFaultValue(Str(FlagText(fault))) <==> fault
  {
    T.TrimOfTrimmed(T.Spaces, "0");
    T.TrimOfTrimmed(T.Spaces, "1");
  }

  lemma ReachedNext(g: Grouping, samples: seq<Arrival>, i: int, extra: nat, f: Face, a: Arrival)
    requires Reached(samples, i, extra, f)
    ensures a.at >= f.at.num ==> Reached(samples + [a], |samples|, extra, FaceOfArrival(a, CountNext(g, f, a)))
    ensures a.at < f.at.num ==> Reached(samples + [a], i, extra, f.(count := Num(CountNext(g, f, a))))
  {
    var next, kept := samples + [a], Accepted(samples);
    assert next[..|samples|] == samples;
    FlagFault(samples[i].fault);
    if a.at >= f.at.num {
      assert Accepted(next) == kept + [a];
      assert (kept + [a])[..|kept|] == kept;
    } else {
      assert Accepted(next) == kept;
    }
  }

  lemma LaterSample(g: Grouping, l: Layout, events: seq<Event>, s: Stored, a: Arrival)
    requires l.Valid() && Holds(g, events, s) && Samples(events) != []
    ensures Holds(g, events + [Sampled(a)], Upsert(g, l, s, a))
  {
    var next, before := events + [Sampled(a)], Samples(events);
    assert next[..|next| - 1] == events && next[0] == events[0];
    assert Samples(next) == before + [a] && Samples(next)[0] == before[0];
    var extra := Extra(g, events);
    assert Extra(g, next) == extra;
    var i :| Reached(before, i, extra, FaceOf(s.row));
    UpsertFace(g, l, s, a);
    ReachedNext(g, before, i, extra, FaceOf(s.row), a);
    var f := FaceOf(Upsert(g, l, s, a).row);
    assert Reached(Samples(next), if a.at >= FaceOf(s.row).at.num then |before| else i, extra, f);
  }

  lemma {:induction false} RunHolds(g: Grouping, k: Clauses, events: seq<Event>)
    requires k.Valid()
    ensures Holds(g, events, Run(g, k, events))
  {
    if events != [] {
      var init, last := events[..|events| - 1], events[|events| - 1];
      RunHolds(g, k, init);
      assert events == init + [last];
      match last
      case Seeded(values, now) => SeedStep(g, k.seeded, init, Run(g, k, init), values, now);
      case Sampled(a) =>
        if Samples(init) == [] {
          FirstSample(g, k.sample, init, Run(g, k, init), a);
        } else {
          LaterSample(g, k.sample, init, Run(g, k, init), a);
        }
    }
  }

  /**
   Convergence: whatever the arrival order and wherever seeds fall, the row ends up showing the
   last-arriving sample among those with the greatest timestamp.
   */
  lemma Convergence(g: Grouping, k: Clauses, events: seq<Event>, i: nat)
    requires k.Valid() && IsNewest(Samples(events), i)
    ensures Run(g, k, events).Present? && Shows(Run(g, k, events).row, Samples(events)[i])
  {
    RunHolds(g, k, events);
    var samples := Samples(events);
    var n :| Reached(samples, n, Extra(g, events), FaceOf(Run(g, k, events).row));
    assert n == i;
  }

  /**
   The count: with the intended grouping it is the number of non-fault-to-fault edges along the accepted
   samples; as written it is exactly one more when the row was seeded and its first sample is no fault.
   */
  lemma FaultCountExact(g: Grouping, k: Clauses, events: seq<Event>)
    requires k.Valid() && Samples(events) != []
    ensures Run(g, k, events).Present?
    ensures Get(Run(g, k, events).row, FaultCount) == Num(Edges(Accepted(Samples(events))) + Extra(g, events))
  {
    RunHolds(g, k, events);
  }

  /** The statement as written counts like the intended one exactly when no seeded row starts without a fault. */
  lemma AsWrittenAgreesExactly(k: Clauses, events: seq<Event>)
    requires k.Valid() && Samples(events) != []
    ensures Get(Run(AsWritten, k, events).row, FaultCount) == Get(Run(Intended, k, events).row, FaultCount)
       <==> !(events[0].Seeded? && !Samples(events)[0].fault)
  {
    FaultCountExact(AsWritten, k, events);
    FaultCountExact(Intended, k, events);
  }

  /** Both arrivals look the same in the row. */
  predicate SameFace(a: Arrival, b: Arrival) {
    a.at == b.at && a.state == b.state && a.fault == b.fault && a.status == b.status
  }

  /**
   A sample that arrives again, as a replay can make it: what the row shows and counts stays as it was if and
   only if the sample is older than the one shown, or looks the same.
   */
  lemma RepeatExactly(g: Grouping, k: Clauses, events: seq<Event>, i: nat, a: Arrival)
    requires k.Valid() && IsNewest(Samples(events), i) && a.at <= Samples(events)[i].at
    ensures Run(g, k, events).Present? && Run(g, k, events + [Sampled(a)]).Present?
    ensures FaceOf(Run(g, k, events + [Sampled(a)]).row) == FaceOf(Run(g, k, events).row)
       <==> a.at < Samples(events)[i].at || SameFace(a, Samples(events)[i])
    ensures Get(Run(g, k, events + [Sampled(a)]).row, FaultCount) == Get(Run(g, k, events).row, FaultCount)
       <==> !(a.at == Samples(events)[i].at && a.fault && !Samples(events)[i].fault)
  {
    hide Run, FaceOf, Accepted, Edges, Extra, Upsert;
    RunHolds(g, k, events);
    var s, shown := Run(g, k, events), Samples(events)[i];
    var n :| Reached(Samples(events), n, Extra(g, events), FaceOf(s.row));
    assert n == i;
    RunSnoc(g, k, events, a);
    UpsertFace(g, k.sample, s, a);
    FlagFault(shown.fault);
    FlagsDiffer(a.fault, shown.fault);
    FaceCount(s.row);
    FaceCount(Run(g, k, events + [Sampled(a)]).row);
  }

  lemma FaceCount(row: Row)
    ensures FaceOf(row).count == Get(row, FaultCount)
  {
  }

  lemma RunSnoc(g: Grouping, k: Clauses, events: seq<Event>, a: Arrival)
    ensures Run(g, k, events + [Sampled(a)]) == Upsert(g, k.sample, Run(g, k, events), a)
  {
    hide Upsert;
    assert (events + [Sampled(a)])[..|events|] == events;
  }

  lemma FlagsDiffer(a: bool, b: bool)
    ensures FlagText(a) == FlagText(b) <==> a == b
  {
    assert "0"[0] != "1"[0];
  }

  // ---- rows written by the WCS procedure ----

  /** One INSERT of `sp_process_wcs_alarm_event`, with any values; only this statement touches `wcs://` rows. */
  datatype WcsOffer = WcsOffer(values: Row, now: int)

  predicate OffersFault(o: WcsOffer) {
    IsFaultValue(Get(o.values, TagValue))
  }

  /** The VALUES list: its `fault_count` is 1 for a fault and 0 otherwise. */
  function WcsValues(o: WcsOffer): Row {
    o.values[FaultCount := Num(InitialCount(OffersFault(o)))]
  }

  function WcsWrite(l: Layout, s: Stored, o: WcsOffer): Stored {
    match s
    case Absent => Present(WcsValues(o)[UpdatedAt := Num(o.now)])
    case Present(row) => Present(RunInOrder(WcsProgram(l), row, WcsValues(o), o.now))
  }

  function WcsRun(l: Layout, offers: seq<WcsOffer>): Stored {
    if offers == [] then Absent
    else WcsWrite(l, WcsRun(l, offers[..|offers| - 1]), offers[|offers| - 1])
  }

  /** Changes from non-fault to fault, starting from non-fault. */
  function WcsEdges(offers: seq<WcsOffer>): nat {
    if offers == [] then 0
    else
      var n := |offers| - 1;
      WcsEdges(offers[..n]) + (if OffersFault(offers[n]) && (n == 0 || !OffersFault(offers[n - 1])) then 1 else 0)
  }

  /** The row after a statement: its values, and the count. */
  ghost predicate WcsShows(l: Layout, s: Stored, o: WcsOffer, count: int) {
    && s.Present? && (forall c :: IsCopied(l, c) ==> Get(s.row, c) == Get(o.values, c))
    && Get(s.row, FaultCount) == Num(count) && Get(s.row, UpdatedAt) == Num(o.now)
  }

  lemma WcsFirst(l: Layout, o: WcsOffer)
    requires l.Valid()
    ensures WcsShows(l, WcsWrite(l, Absent, o), o, InitialCount(OffersFault(o)))
  {
    hide IsFaultValue;
    l.Facts();
  }

  lemma WcsNext(l: Layout, s: Stored, before: WcsOffer, count: int, o: WcsOffer)
    requires l.Valid() && Offer(before.values) && Offer(o.values) && WcsShows(l, s, before, count)
    ensures WcsShows(l, WcsWrite(l, s, o), o, count + if OffersFault(o) && !OffersFault(before) then 1 else 0)
  {
    hide IsFaultValue, RunInOrder, WcsProgram;
    l.Facts();
    assert IsCopied(l, TagValue) && IsCopied(l, LastFaultAt);
    assert Get(s.row, TagValue) == Get(before.values, TagValue)
        && Get(s.row, LastFaultAt) == Get(before.values, LastFaultAt);
    WcsMeaning(l, s.row, WcsValues(o), o.now);
  }

  /** A WCS row shows the last statement's values, whatever their time, and counts the edges over all of them. */
  lemma {:induction false} WcsRowExact(l: Layout, offers: seq<WcsOffer>)
    requires l.Valid() && offers != [] && forall i :: 0 <= i < |offers| ==> Offer(offers[i].values)
    ensures WcsShows(l, WcsRun(l, offers), offers[|offers| - 1], WcsEdges(offers))
  {
    hide WcsShows, WcsWrite, OffersFault, Offer;
    var n := |offers| - 1;
    var init, o := offers[..n], offers[n];
    if n == 0 {
      assert init == [];
      WcsFirst(l, o);
    } else {
      WcsRowExact(l, init);
      WcsNext(l, WcsRun(l, init), offers[n - 1], WcsEdges(init), o);
    }
  }
}

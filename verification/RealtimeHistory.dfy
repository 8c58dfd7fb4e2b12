/** When the realtime row of a point shows the newest row of its history, though upserts may fail. */
module RealtimeHistory {
  import opened Naturals
  import opened Options
  import opened RealtimeLanguage
  import opened RealtimeUpsert
  import opened RealtimeConvergence
  import opened RealtimeTable
  import Sink = SinkMachine
  import Tags = Samples

  /**
   After a group's INSERT its rows are also written to the realtime table, chunk by chunk. An error there is
   only logged: `accepted` chunks are written, the rest is skipped. After an INSERT that is reported as failed,
   whether or not it took effect, there is no upsert: `accepted` is 0.
   */
  datatype Upsert = Upsert(rows: seq<Sink.Row>, writes: seq<Write>, accepted: nat)

  function OptionalText(s: string): Val {
    if T.Trim(T.Whitespace, s) == "" then Null else Str(s)
  }

  lemma OptionalTextIs(s: string)
    ensures OptionalText(s) == if T.IsBlank(s) then Null else Str(s)
  {
    hide T.Trim;
    T.TrimIs(s);
  }

  /** What `upsert_realtime_sample_refs` binds for a sample, as far as the theorems speak of it. */
  predicate BuiltFrom(w: Write, row: Sink.Row) {
    && w.sourceTable == row.table && w.nodeId == row.sample.nodeId && w.event.Sampled?
    && w.event.a.at == row.sample.sourceTs
    && w.event.a.state == Str(Tags.RawText(row.sample.value))
    && FlagText(w.event.a.fault) == Tags.TagValue(row.sample)
    && w.event.a.status == OptionalText(Tags.Remark(row.sample))
  }

  /** One write for each row; or a seed, which has no history. */
  predicate Built(u: Upsert) {
    || (|u.writes| == |u.rows| && forall i :: 0 <= i < |u.rows| ==> BuiltFrom(u.writes[i], u.rows[i]))
    || (u.rows == [] && forall i :: 0 <= i < |u.writes| ==> u.writes[i].event.Seeded?)
  }

  function Through(u: Upsert, n: nat): nat {
    Smaller(n, u.accepted * REALTIME_WRITE_BATCH_SIZE)
  }

  /** The history: the rows of all groups, in insertion order. */
  function History(us: seq<Upsert>): seq<Sink.Row> {
    if us == [] then [] else History(us[..|us| - 1]) + us[|us| - 1].rows
  }

  /** The rows whose upsert came through. */
  function Delivered(us: seq<Upsert>): seq<Sink.Row> {
    if us == [] then []
    else
      var u := us[|us| - 1];
      Delivered(us[..|us| - 1]) + u.rows[..Through(u, |u.rows|)]
  }

  function Written(us: seq<Upsert>): seq<Write> {
    if us == [] then []
    else
      var u := us[|us| - 1];
      Written(us[..|us| - 1]) + u.writes[..Through(u, |u.writes|)]
  }

  predicate RowOf(key: Key, row: Sink.Row) {
    row.table == key.sourceTable && row.sample.nodeId == key.nodeId
  }

  function RowsOf(rows: seq<Sink.Row>, key: Key): seq<Sink.Row> {
    if rows == [] then []
    else
      var rest, last := RowsOf(rows[..|rows| - 1], key), rows[|rows| - 1];
      if RowOf(key, last) then rest + [last] else rest
  }

  /** The realtime row of the key shows the sample of a history row. */
  ghost predicate RowShows(t: Table, key: Key, row: Sink.Row) {
    && key in t.rows
    && Get(t.rows[key], LastFaultAt) == Num(row.sample.sourceTs)
    && Get(t.rows[key], TagState) == Str(Tags.RawText(row.sample.value))
    && Get(t.rows[key], TagValue) == Str(Tags.TagValue(row.sample))
    && Get(t.rows[key], StatusDescription)
         == if T.IsBlank(Tags.Remark(row.sample)) then Null else Str(Tags.Remark(row.sample))
  }

  /** Both samples look the same in the realtime row. */
  predicate SameStatus(a: Sink.Row, b: Sink.Row) {
    && a.sample.sourceTs == b.sample.sourceTs && Tags.RawText(a.sample.value) == Tags.RawText(b.sample.value)
    && Tags.TagValue(a.sample) == Tags.TagValue(b.sample)
    && OptionalText(Tags.Remark(a.sample)) == OptionalText(Tags.Remark(b.sample))
  }

  /** Row `i` has the greatest time, and is the last of those with it. */
  ghost predicate NewestAt(rows: seq<Sink.Row>, i: int) {
    && 0 <= i < |rows|
    && (forall j :: 0 <= j < |rows| ==> rows[j].sample.sourceTs <= rows[i].sample.sourceTs)
    && (forall j :: i < j < |rows| ==> rows[j].sample.sourceTs < rows[i].sample.sourceTs)
  }

  // ---- the arrivals of a key are its delivered rows ----

  /** An arrival is the one bound for a row. */
  predicate Carries(a: Arrival, row: Sink.Row) {
    && a.at == row.sample.sourceTs && a.state == Str(Tags.RawText(row.sample.value))
    && FlagText(a.fault) == Tags.TagValue(row.sample) && a.status == OptionalText(Tags.Remark(row.sample))
  }

  ghost predicate AllCarry(arrivals: seq<Arrival>, rows: seq<Sink.Row>) {
    |arrivals| == |rows| && forall i :: 0 <= i < |rows| ==> Carries(arrivals[i], rows[i])
  }

  lemma {:induction false} EventsAppend(a: seq<Write>, b: seq<Write>, key: Key)
    ensures EventsOf(a + b, key) == EventsOf(a, key) + EventsOf(b, key)
  {
    hide HasNode;
    if b == [] {
      assert a + b == a;
    } else {
      assert (a + b)[..|a + b| - 1] == a + b[..|b| - 1];
      EventsAppend(a, b[..|b| - 1], key);
    }
  }

  lemma {:induction false} SamplesAppend(a: seq<Event>, b: seq<Event>)
    ensures Samples(a + b) == Samples(a) + Samples(b)
  {
    if b == [] {
      assert a + b == a;
    } else {
      assert (a + b)[..|a + b| - 1] == a + b[..|b| - 1];
      SamplesAppend(a, b[..|b| - 1]);
    }
  }

  lemma {:induction false} RowsAppend(a: seq<Sink.Row>, b: seq<Sink.Row>, key: Key)
    ensures RowsOf(a + b, key) == RowsOf(a, key) + RowsOf(b, key)
  {
    hide RowOf;
    if b == [] {
      assert a + b == a;
    } else {
      assert (a + b)[..|a + b| - 1] == a + b[..|b| - 1];
      RowsAppend(a, b[..|b| - 1], key);
    }
  }

  /** Seeds carry no sample. */
  lemma {:induction false} SeedsAreSilent(writes: seq<Write>, key: Key)
    requires forall i :: 0 <= i < |writes| ==> writes[i].event.Seeded?
    ensures Samples(EventsOf(writes, key)) == []
  {
    hide HasNode;
    if writes != [] {
      var init := writes[..|writes| - 1];
      SeedsAreSilent(init, key);
      EventsAppend(init, [writes[|writes| - 1]], key);
      SamplesAppend(EventsOf(init, key), [writes[|writes| - 1].event]);
      var e := [writes[|writes| - 1].event];
      assert e[..0] == [];
    }
  }

  lemma OneCarries(w: Write, row: Sink.Row, key: Key)
    requires BuiltFrom(w, row) && T.Trim(T.Whitespace, key.nodeId) != ""
    ensures AllCarry(Samples(EventsOf([w], key)), RowsOf([row], key))
  {
    hide FlagText, OptionalText, Tags.RawText, Tags.TagValue, Tags.Remark, T.Trim;
    assert [w][..0] == [] && [row][..0] == [];
    if RowOf(key, row) {
      assert EventsOf([w], key) == [] + [w.event] == [w.event];
      assert [w.event][..0] == [];
      assert Samples([w.event]) == [] + [w.event.a];
    }
  }

  lemma CarryAppend(a: seq<Arrival>, b: seq<Arrival>, xs: seq<Sink.Row>, ys: seq<Sink.Row>)
    requires AllCarry(a, xs) && AllCarry(b, ys)
    ensures AllCarry(a + b, xs + ys)
  {
    hide Carries;
  }

  lemma {:induction false} WritesCarry(writes: seq<Write>, rows: seq<Sink.Row>, key: Key)
    requires |writes| == |rows| && forall i :: 0 <= i < |rows| ==> BuiltFrom(writes[i], rows[i])
    requires T.Trim(T.Whitespace, key.nodeId) != ""
    ensures AllCarry(Samples(EventsOf(writes, key)), RowsOf(rows, key))
  {
    hide BuiltFrom, Carries, EventsOf, Samples, RowsOf, T.Trim;
    if writes == [] {
      NothingCarried(key);
    } else {
      var n := |writes| - 1;
      WritesCarry(writes[..n], rows[..n], key);
      OneCarries(writes[n], rows[n], key);
      assert writes == writes[..n] + [writes[n]] && rows == rows[..n] + [rows[n]];
      EventsAppend(writes[..n], [writes[n]], key);
      SamplesAppend(EventsOf(writes[..n], key), EventsOf([writes[n]], key));
      RowsAppend(rows[..n], [rows[n]], key);
      CarryAppend(Samples(EventsOf(writes[..n], key)), Samples(EventsOf([writes[n]], key)), RowsOf(rows[..n], key),
          RowsOf([rows[n]], key));
    }
  }

  lemma {:induction false} WrittenCarries(us: seq<Upsert>, key: Key)
    requires (forall i :: 0 <= i < |us| ==> Built(us[i])) && T.Trim(T.Whitespace, key.nodeId) != ""
    ensures AllCarry(Samples(EventsOf(Written(us), key)), RowsOf(Delivered(us), key))
  {
    hide EventsOf, Samples, RowsOf, BuiltFrom, Carries;
    if us == [] {
      NothingCarried(key);
    } else {
      var n := |us| - 1;
      var u, init := us[n], us[..n];
      WrittenCarries(init, key);
      assert Built(u);
      var writes, rows := u.writes[..Through(u, |u.writes|)], u.rows[..Through(u, |u.rows|)];
      if |u.writes| == |u.rows| && forall i :: 0 <= i < |u.rows| ==> BuiltFrom(u.writes[i], u.rows[i]) {
        WritesCarry(writes, rows, key);
      } else {
        SeedsAreSilent(writes, key);
        assert rows == [];
        NothingCarried(key);
      }
      EventsAppend(Written(init), writes, key);
      SamplesAppend(EventsOf(Written(init), key), EventsOf(writes, key));
      RowsAppend(Delivered(init), rows, key);
      CarryAppend(Samples(EventsOf(Written(init), key)), Samples(EventsOf(writes, key)), RowsOf(Delivered(init), key),
          RowsOf(rows, key));
    }
  }

  lemma NothingCarried(key: Key)
    ensures Samples(EventsOf([], key)) == [] && RowsOf([], key) == []
  {
  }

  // ---- what the row shows ----

  /** The row shows the newest delivered row. */
  lemma ShowsNewestDelivered(g: Grouping, k: Clauses, us: seq<Upsert>, key: Key, j: nat)
    requires k.Valid() && (forall i :: 0 <= i < |us| ==> Built(us[i])) && T.Trim(T.Whitespace, key.nodeId) != ""
    requires NewestAt(RowsOf(Delivered(us), key), j)
    ensures RowShows(WriteAll(g, k, Table(map[], []), Written(us)), key, RowsOf(Delivered(us), key)[j])
  {
    hide WriteAll, EventsOf, RowsOf, Written, Delivered, OptionalText, Tags.RawText, Tags.TagValue, Tags.Remark,
        Accepted, Edges, Extra, Built, T.IsBlank;
    WrittenCarries(us, key);
    var arrivals, rows := Samples(EventsOf(Written(us), key)), RowsOf(Delivered(us), key);
    assert Carries(arrivals[j], rows[j]);
    forall i | 0 <= i < |arrivals| ensures arrivals[i].at == rows[i].sample.sourceTs {
      assert Carries(arrivals[i], rows[i]);
    }
    assert IsNewest(arrivals, j);
    OptionalTextIs(Tags.Remark(rows[j].sample));
    EveryRowConverges(g, k, Written(us), key, j);
  }

  /** Without a delivered row there is no time to show. */
  lemma NothingDelivered(g: Grouping, k: Clauses, us: seq<Upsert>, key: Key, row: Sink.Row)
    requires k.Valid() && (forall i :: 0 <= i < |us| ==> Built(us[i])) && T.Trim(T.Whitespace, key.nodeId) != ""
    requires RowsOf(Delivered(us), key) == []
    ensures !RowShows(WriteAll(g, k, Table(map[], []), Written(us)), key, row)
  {
    hide WriteAll, EventsOf, RowsOf, Written, Delivered, Built, Run, Samples, Tags.RawText, Tags.TagValue, Tags.Remark,
        OptionalText;
    WrittenCarries(us, key);
    var events := EventsOf(Written(us), key);
    RowIsItsOwnRun(g, k, Written(us), key);
    RunHolds(g, k, events);
    assert Samples(events) == [];
    if events != [] {
      assert FaceOf(Run(g, k, events).row).at == Null;
    }
  }

  lemma NewestRow(rows: seq<Sink.Row>) returns (i: nat)
    requires rows != []
    ensures NewestAt(rows, i)
  {
    i := 0;
    for n := 1 to |rows|
      invariant 0 <= i < n && NewestAt(rows[..n], i)
    {
      if rows[n].sample.sourceTs >= rows[i].sample.sourceTs { i := n; }
    }
    assert rows[..|rows|] == rows;
  }

  /**
   Whatever upserts fail: the realtime row shows a row of the history if and only if the newest row whose
   upsert came through looks the same.
   */
  lemma ShowsExactly(g: Grouping, k: Clauses, us: seq<Upsert>, key: Key, row: Sink.Row)
    requires k.Valid() && (forall i :: 0 <= i < |us| ==> Built(us[i])) && T.Trim(T.Whitespace, key.nodeId) != ""
    ensures RowShows(WriteAll(g, k, Table(map[], []), Written(us)), key, row)
       <==> exists j :: NewestAt(RowsOf(Delivered(us), key), j) && SameStatus(RowsOf(Delivered(us), key)[j], row)
  {
    hide WriteAll, RowsOf, Written, Delivered, Built, Tags.RawText, Tags.TagValue, Tags.Remark, OptionalText, NewestAt,
        T.IsBlank;
    var rows := RowsOf(Delivered(us), key);
    OptionalTextIs(Tags.Remark(row.sample));
    if rows == [] {
      NothingDelivered(g, k, us, key, row);
      assert forall j :: !NewestAt(rows, j) by { NoneNewest(); }
    } else {
      var j := NewestRow(rows);
      NewestInside(rows, j);
      OptionalTextIs(Tags.Remark(rows[j].sample));
      ShowsNewestDelivered(g, k, us, key, j);
      forall i | NewestAt(rows, i) ensures i == j { OneNewest(rows, i, j); }
    }
  }

  lemma NoneNewest()
    ensures forall j :: !NewestAt([], j)
  {
  }

  lemma OneNewest(rows: seq<Sink.Row>, i: int, j: int)
    requires NewestAt(rows, i) && NewestAt(rows, j)
    ensures i == j
  {
    var a, b := rows[i], rows[j];
    assert a.sample.sourceTs == b.sample.sourceTs;
  }

  lemma {:induction false} RowsOfMember(rows: seq<Sink.Row>, key: Key, row: Sink.Row)
    ensures row in RowsOf(rows, key) <==> row in rows && RowOf(key, row)
  {
    hide RowOf;
    if rows != [] {
      RowsOfMember(rows[..|rows| - 1], key, row);
      assert rows == rows[..|rows| - 1] + [rows[|rows| - 1]];
    }
  }

  lemma {:induction false} DeliveredIsHistory(us: seq<Upsert>, row: Sink.Row)
    ensures row in Delivered(us) ==> row in History(us)
  {
    if us != [] {
      DeliveredIsHistory(us[..|us| - 1], row);
    }
  }

  /** The newest history row of the point; no other row of the point has its time. */
  ghost predicate NewestOf(rows: seq<Sink.Row>, key: Key, row: Sink.Row) {
    && row in rows && RowOf(key, row)
    && forall r :: r in rows && RowOf(key, r) ==>
         r.sample.sourceTs <= row.sample.sourceTs && (r.sample.sourceTs == row.sample.sourceTs ==> r == row)
  }

  /**
   After any run of the sink worker, with crashes, replays and failing upserts: the realtime row of a point
   shows the newest row of its history if and only if the upsert of that row came through, at its first
   insertion or at a repeated one.
   */
  lemma AgreesWithHistoryExactly(rt: Tags.Router, steps: seq<Sink.Step>, g: Grouping, k: Clauses, us: seq<Upsert>,
                                 key: Key, row: Sink.Row)
    requires Sink.Exec(rt, Sink.Init(), steps).Some? && Sink.Exec(rt, Sink.Init(), steps).value.log == History(us)
    requires k.Valid() && (forall i :: 0 <= i < |us| ==> Built(us[i])) && T.Trim(T.Whitespace, key.nodeId) != ""
    requires NewestOf(History(us), key, row)
    ensures RowShows(WriteAll(g, k, Table(map[], []), Written(us)), key, row) <==> row in Delivered(us)
    ensures key.sourceTable == rt.TableFor(row.sample)
  {
    hide WriteAll, RowsOf, Written, Delivered, History, Built, SameStatus, RowShows, NewestAt, Sink.Exec,
        Tags.Router.TableFor;
    Routed(rt, steps, row);
    ShowsExactly(g, k, us, key, row);
    NewestDelivered(us, key, row);
  }

  /** The newest delivered row looks like the newest history row just when it is that row. */
  lemma NewestDelivered(us: seq<Upsert>, key: Key, row: Sink.Row)
    requires NewestOf(History(us), key, row)
    ensures (exists j :: NewestAt(RowsOf(Delivered(us), key), j) && SameStatus(RowsOf(Delivered(us), key)[j], row))
       <==> row in Delivered(us)
  {
    hide RowsOf, Delivered, History, Tags.RawText, Tags.TagValue, Tags.Remark, OptionalText;
    var rows := RowsOf(Delivered(us), key);
    RowsOfMember(Delivered(us), key, row);
    if j :| NewestAt(rows, j) && SameStatus(rows[j], row) {
      NewestInside(rows, j);
      RowsOfMember(Delivered(us), key, rows[j]);
      DeliveredIsHistory(us, rows[j]);
    }
    if row in rows {
      var j := NewestRow(rows);
      NewestInside(rows, j);
      RowsOfMember(Delivered(us), key, rows[j]);
      DeliveredIsHistory(us, rows[j]);
      assert SameStatus(rows[j], row);
    }
  }

  lemma NewestInside(rows: seq<Sink.Row>, j: int)
    requires NewestAt(rows, j)
    ensures 0 <= j < |rows| && rows[j] in rows
    ensures forall r :: r in rows ==> r.sample.sourceTs <= rows[j].sample.sourceTs
  {
  }

  lemma Routed(rt: Tags.Router, steps: seq<Sink.Step>, row: Sink.Row)
    requires Sink.Exec(rt, Sink.Init(), steps).Some? && row in Sink.Exec(rt, Sink.Init(), steps).value.log
    ensures row.table == rt.TableFor(row.sample)
  {
    hide Sink.Exec, Tags.Router.TableFor;
    assert Sink.Inv(rt, Sink.Init());
    Sink.RunKeeps(rt, Sink.Init(), steps);
    var log := Sink.Exec(rt, Sink.Init(), steps).value.log;
    var i :| 0 <= i < |log| && log[i] == row;
  }
}

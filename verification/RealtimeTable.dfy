/**
 The whole realtime table, written in chunks: every row of it goes through the run of its own events.
 */
module RealtimeTable {
  import opened Naturals
  import opened RealtimeLanguage
  import opened RealtimeUpsert
  import opened RealtimeConvergence

  const REALTIME_WRITE_BATCH_SIZE: nat := 500

  /** The unique key; rows without a node id have no key and never meet each other. */
  datatype Key = Key(sourceTable: string, nodeId: string)

  datatype Table = Table(rows: map<Key, Row>, loose: seq<Row>)

  /** One row of a multi-row statement. */
  datatype Write = Write(sourceTable: string, nodeId: string, event: Event)

  /** `optional_text`: a blank node id is bound as NULL. */
  predicate HasNode(w: Write) {
    T.Trim(T.Whitespace, w.nodeId) != ""
  }

  function At(t: Table, key: Key): Stored {
    if key in t.rows then Present(t.rows[key]) else Absent
  }

  function WriteOne(g: Grouping, k: Clauses, t: Table, w: Write): Table {
    if HasNode(w) then
      var key := Key(w.sourceTable, w.nodeId);
      match Apply(g, k, At(t, key), w.event)
      case Present(row) => t.(rows := t.rows[key := row])
      case Absent => t
    else
      match Apply(g, k, Absent, w.event)
      case Present(row) => t.(loose := t.loose + [row])
      case Absent => t
  }

  /** A multi-row INSERT ... ON DUPLICATE KEY UPDATE handles its rows in order. */
  function WriteAll(g: Grouping, k: Clauses, t: Table, ws: seq<Write>): Table {
    if ws == [] then t
    else WriteOne(g, k, WriteAll(g, k, t, ws[..|ws| - 1]), ws[|ws| - 1])
  }

  lemma {:induction false} WriteAllAppend(g: Grouping, k: Clauses, t: Table, a: seq<Write>, b: seq<Write>)
    ensures WriteAll(g, k, t, a + b) == WriteAll(g, k, WriteAll(g, k, t, a), b)
  {
    if b == [] {
      assert a + b == a;
    } else {
      assert (a + b)[..|a + b| - 1] == a + b[..|b| - 1];
      WriteAllAppend(g, k, t, a, b[..|b| - 1]);
    }
  }

  /** The events of one row among the writes of a run. */
  function EventsOf(ws: seq<Write>, key: Key): seq<Event> {
    if ws == [] then []
    else
      var rest, w := EventsOf(ws[..|ws| - 1], key), ws[|ws| - 1];
      if HasNode(w) && Key(w.sourceTable, w.nodeId) == key then rest + [w.event] else rest
  }

  /** Rows do not disturb each other: each is the run of its own events. */
  lemma {:induction false} RowIsItsOwnRun(g: Grouping, k: Clauses, ws: seq<Write>, key: Key)
    ensures At(WriteAll(g, k, Table(map[], []), ws), key) == Run(g, k, EventsOf(ws, key))
  {
    hide Apply, HasNode;
    if ws != [] {
      var init, w := ws[..|ws| - 1], ws[|ws| - 1];
      RowIsItsOwnRun(g, k, init, key);
      var before := EventsOf(init, key);
      if HasNode(w) && Key(w.sourceTable, w.nodeId) == key {
        assert (before + [w.event])[..|before|] == before;
      }
    }
  }

  /** Convergence and count of any row of the table, over every order of chunks, replays and seeds. */
  lemma EveryRowConverges(g: Grouping, k: Clauses, ws: seq<Write>, key: Key, i: nat)
    requires k.Valid() && IsNewest(Samples(EventsOf(ws, key)), i)
    ensures var t, events := WriteAll(g, k, Table(map[], []), ws), EventsOf(ws, key);
      && key in t.rows
      && Shows(t.rows[key], Samples(events)[i])
      && Get(t.rows[key], FaultCount) == Num(Edges(Accepted(Samples(events))) + Extra(g, events))
  {
    hide WriteAll, Run, EventsOf, Samples, Accepted, Edges, Extra, Shows;
    RowIsItsOwnRun(g, k, ws, key);
    Convergence(g, k, EventsOf(ws, key), i);
    FaultCountExact(g, k, EventsOf(ws, key));
  }

  /** How many writes have no node id. */
  function Blank(ws: seq<Write>): nat {
    if ws == [] then 0 else Blank(ws[..|ws| - 1]) + if HasNode(ws[|ws| - 1]) then 0 else 1
  }

  /** Each write without a node id inserts a row of its own, behind those of the writes before it. */
  lemma {:induction false} LooseRows(g: Grouping, k: Clauses, ws: seq<Write>, i: nat)
    requires i < |ws| && !HasNode(ws[i])
    ensures var t, n := WriteAll(g, k, Table(map[], []), ws), Blank(ws[..i]);
      n < |t.loose| == Blank(ws) && Present(t.loose[n]) == Apply(g, k, Absent, ws[i].event)
  {
    hide Apply, HasNode;
    var last := |ws| - 1;
    LooseCount(g, k, ws);
    LooseCount(g, k, ws[..last]);
    if i < last {
      LooseRows(g, k, ws[..last], i);
      assert ws[..last][..i] == ws[..i];
    }
  }

  lemma {:induction false} LooseCount(g: Grouping, k: Clauses, ws: seq<Write>)
    ensures |WriteAll(g, k, Table(map[], []), ws).loose| == Blank(ws)
  {
    hide Apply, HasNode;
    if ws != [] { LooseCount(g, k, ws[..|ws| - 1]); }
  }

  lemma NothingWritten(g: Grouping, k: Clauses, t: Table, ws: seq<Write>)
    ensures WriteAll(g, k, t, ws[..0]) == t
  {
  }

  /** The table as `upsert_realtime_sample_refs` and `seed_realtime_tag_refs` change it. */
  class StatusTable {
    var rows: map<Key, Row>
    var loose: seq<Row>

    function State(): Table
      reads this
    {
      Table(rows, loose)
    }

    constructor ()
      ensures State() == Table(map[], [])
    {
      rows, loose := map[], [];
    }

    /** One statement: all of its rows, or none when MySQL reports an error. */
    method Execute(g: Grouping, k: Clauses, ws: seq<Write>)
      modifies this
      ensures State() == WriteAll(g, k, old(State()), ws)
    {
      hide WriteOne, Apply;
      assert ws[..0] == [];
      var i := 0;
      while i < |ws|
        invariant 0 <= i <= |ws|
        invariant State() == WriteAll(g, k, old(State()), ws[..i])
      {
        assert ws[..i + 1][..i] == ws[..i];
        var next := WriteOne(g, k, Table(rows, loose), ws[i]);
        rows, loose := next.rows, next.loose;
        i := i + 1;
      }
      assert ws[..|ws|] == ws;
    }

    /**
     The chunked write. `statements` is how many statements MySQL accepts before one fails; the chunks
     before the failing one stay written, the rest is skipped.
     */
    method WriteChunked(g: Grouping, k: Clauses, ws: seq<Write>, statements: nat) returns (ok: bool)
      modifies this
      ensures ok <==> |ws| <= statements * 500
      ensures State() == WriteAll(g, k, old(State()), ws[..Smaller(|ws|, statements * 500)])
    {
      hide WriteAll, WriteOne, Apply;
      var start, accepted := 0, 0;
      NothingWritten(g, k, State(), ws);
      while start < |ws|
        invariant start == Smaller(|ws|, accepted * REALTIME_WRITE_BATCH_SIZE) && accepted <= statements
        invariant State() == WriteAll(g, k, old(State()), ws[..start])
        decreases |ws| - start
      {
        if accepted == statements {
          return false;
        }
        var stop := Smaller(|ws|, start + REALTIME_WRITE_BATCH_SIZE);
        WriteAllAppend(g, k, old(State()), ws[..start], ws[start..stop]);
        assert ws[..start] + ws[start..stop] == ws[..stop];
        Execute(g, k, ws[start..stop]);
        start, accepted := stop, accepted + 1;
      }
      assert ws[..Smaller(|ws|, statements * REALTIME_WRITE_BATCH_SIZE)] == ws;
      ok := true;
    }
  }
}

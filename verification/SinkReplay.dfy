/** Where each table's samples go in one flush or replay, and how fast the buffer empties. */
module SinkReplay {
  import opened Samples
  import opened Grouping
  import opened Naturals
  import opened Buffer
  import opened SinkMachine
  import opened SinkTheorems
  import opened SinkWorkerSpec
  import SinkOutcomes
  import O = Order

  /** The samples in one history table, in insertion order. */
  function TableLog(log: seq<Row>, table: string): seq<Sample> {
    if log == [] then []
    else
      var rest, last := TableLog(log[..|log| - 1], table), log[|log| - 1];
      if last.table == table then rest + [last.sample] else rest
  }

  /** The samples of a list that are routed to one table, in order. */
  function OfTable(rt: Router, samples: seq<Sample>, table: string): seq<Sample> {
    if samples == [] then []
    else
      var rest, last := OfTable(rt, samples[..|samples| - 1], table), samples[|samples| - 1];
      if rt.TableFor(last) == table then rest + [last] else rest
  }

  lemma {:induction false} TableLogAppend(a: seq<Row>, b: seq<Row>, table: string)
    ensures TableLog(a + b, table) == TableLog(a, table) + TableLog(b, table)
  {
    if b == [] {
      assert a + b == a;
    } else {
      assert (a + b)[..|a + b| - 1] == a + b[..|b| - 1];
      TableLogAppend(a, b[..|b| - 1], table);
    }
  }

  lemma {:induction false} TableLogRows(key: string, samples: seq<Sample>, table: string)
    ensures TableLog(Rows(key, samples), table) == if key == table then samples else []
  {
    if samples != [] {
      var n := |samples| - 1;
      assert Rows(key, samples)[..n] == Rows(key, samples[..n]);
      TableLogRows(key, samples[..n], table);
    }
  }

  lemma {:induction false} OfTableAppend(rt: Router, a: seq<Sample>, b: seq<Sample>, table: string)
    ensures OfTable(rt, a + b, table) == OfTable(rt, a, table) + OfTable(rt, b, table)
  {
    hide Router.TableFor;
    if b == [] {
      assert a + b == a;
    } else {
      assert (a + b)[..|a + b| - 1] == a + b[..|b| - 1];
      OfTableAppend(rt, a, b[..|b| - 1], table);
    }
  }

  lemma {:induction false} OfTableSame(rt: Router, key: string, samples: seq<Sample>, table: string)
    requires forall x :: x in samples ==> rt.TableFor(x) == key
    ensures OfTable(rt, samples, table) == if key == table then samples else []
  {
    hide Router.TableFor;
    if samples != [] {
      var n := |samples| - 1;
      assert samples == samples[..n] + [samples[n]];
      OfTableSame(rt, key, samples[..n], table);
    }
  }

  lemma {:induction false} SelectIsOfTable(rt: Router, samples: seq<Sample>, table: string)
    ensures Select(Routed(rt, samples), table) == OfTable(rt, samples, table)
  {
    hide Router.TableFor;
    if samples != [] {
      var n := |samples| - 1;
      assert Routed(rt, samples)[..n] == Routed(rt, samples[..n]);
      SelectIsOfTable(rt, samples[..n], table);
    }
  }

  lemma {:induction false} SelectEntriesIsOfTable(rt: Router, entries: seq<BufferedSample>, table: string)
    ensures SamplesOf(Select(RoutedEntries(rt, entries), table)) == OfTable(rt, SamplesOf(entries), table)
  {
    hide Router.TableFor;
    if entries != [] {
      var n := |entries| - 1;
      assert RoutedEntries(rt, entries)[..n] == RoutedEntries(rt, entries[..n]);
      assert SamplesOf(entries)[..n] == SamplesOf(entries[..n]);
      SelectEntriesIsOfTable(rt, entries[..n], table);
    }
  }

  lemma AscendingTail<T>(groups: seq<Group<T>>)
    requires Ascending(groups) && groups != []
    ensures Ascending(groups[1..]) && Lookup(groups[1..], groups[0].key) == []
  {
    forall i | 0 <= i < |groups[1..]| ensures groups[1..][i].key != groups[0].key {
      O.StrTotal(groups[0].key, groups[0].key);
      assert O.StrLess(groups[0].key, groups[i + 1].key);
    }
    LookupAbsent(groups[1..], groups[0].key);
  }

  // ---- one flush ----

  /** The table's rows of a call get into history, whether or not that is reported. */
  predicate Written(w: Weather, table: string) {
    table !in w.down || table in w.taken
  }

  /** The state after one group's INSERT failed and its samples were buffered. */
  function Buffered(s: State, w: Weather, table: string, samples: seq<Sample>): State {
    Synced(Spilled(Failed(s, w, table, samples), samples))
  }

  lemma BufferedGroup(rt: Router, s: State, w: Weather, g: Group<Sample>, table: string)
    requires g.key in w.down && forall x :: x in g.items ==> rt.TableFor(x) == g.key
    ensures var t, mine := Buffered(s, w, g.key, g.items), if table == g.key then g.items else [];
      && t.flushing == s.flushing
      && TableLog(t.log, table) == TableLog(s.log, table) + (if Written(w, table) then mine else [])
      && OfTable(rt, SamplesOf(t.mem), table) == OfTable(rt, SamplesOf(s.mem), table) + mine
  {
    hide Router.TableFor, Rows, TableLog, OfTable, SamplesOf;
    TableLogAppend(s.log, Rows(g.key, g.items), table);
    TableLogRows(g.key, g.items, table);
    SamplesAppend(s.mem, Numbered(s.nextId, g.items));
    NumberedSamples(s.nextId, g.items);
    OfTableAppend(rt, SamplesOf(s.mem), g.items, table);
    OfTableSame(rt, g.key, g.items, table);
  }

  /**
   Each table's samples of a batch go, in order, to history when the INSERT takes effect and to the buffer when
   it is reported as failed.
   */
  lemma {:induction false} FlushGroupsExactly(rt: Router, s: State, w: Weather, table: string)
    requires Ascending(s.flushing) && FlushGroups(s, w).ok
    requires forall i, x :: 0 <= i < |s.flushing| && x in s.flushing[i].items ==> rt.TableFor(x) == s.flushing[i].key
    ensures var o := FlushGroups(s, w);
      && TableLog(o.state.log, table) == TableLog(s.log, table)
          + (if Written(w, table) then Lookup(s.flushing, table) else [])
      && OfTable(rt, SamplesOf(o.state.mem), table)
         == OfTable(rt, SamplesOf(s.mem), table) + (if table in w.down then Lookup(s.flushing, table) else [])
    decreases |s.flushing|
  {
    hide Router.TableFor, Rows, TableLog, OfTable, Ascending, SamplesOf, Buffered;
    if s.flushing != [] {
      var g, rest := s.flushing[0], s.(flushing := s.flushing[1..]);
      AscendingTail(s.flushing);
      if g.key !in w.down {
        TableLogAppend(s.log, Rows(g.key, g.items), table);
        TableLogRows(g.key, g.items, table);
        FlushGroupsExactly(rt, rest.(log := s.log + Rows(g.key, g.items)), w, table);
      } else {
        BufferedGroup(rt, rest, w, g, table);
        NextGroup(s, w);
        FlushGroupsExactly(rt, Buffered(rest, w, g.key, g.items), w.(room := w.room - |g.items| - 1), table);
      }
    }
  }

  lemma NextGroup(s: State, w: Weather)
    requires s.flushing != [] && s.flushing[0].key in w.down && FlushGroups(s, w).ok
    ensures var g, rest := s.flushing[0], s.(flushing := s.flushing[1..]);
      && |g.items| < w.room
      && FlushGroups(s, w) == FlushGroups(Buffered(rest, w, g.key, g.items), w.(room := w.room - |g.items| - 1))
  {
  }

  lemma NumberedSamples(id: nat, samples: seq<Sample>)
    ensures SamplesOf(Numbered(id, samples)) == samples
  {
  }

  lemma FlattenLength(rt: Router, samples: seq<Sample>)
    ensures |Flatten(Collect(Routed(rt, samples)))| == |samples|
  {
    CollectRouted(rt, samples);
    assert |multiset(Flatten(Collect(Routed(rt, samples))))| == |multiset(samples)|;
  }

  lemma FlushExactly(rt: Router, s: State, w: Weather, table: string)
    requires s.flushing == [] && Flush(rt, s, w).ok
    ensures var o, mine := Flush(rt, s, w), OfTable(rt, s.pending, table);
      && o.state.pending == []
      && TableLog(o.state.log, table) == TableLog(s.log, table) + (if Written(w, table) then mine else [])
      && OfTable(rt, SamplesOf(o.state.mem), table)
          == OfTable(rt, SamplesOf(s.mem), table) + (if table in w.down then mine else [])
  {
    hide Router.TableFor, TableLog, OfTable, SamplesOf, FlushGroups, Collect;
    if s.pending != [] {
      var groups := Collect(Routed(rt, s.pending));
      CollectRouted(rt, s.pending);
      CollectLookup(Routed(rt, s.pending), table);
      SelectIsOfTable(rt, s.pending, table);
      var t := s.(flushing := groups, pending := []);
      FlushGroupsExactly(rt, t, w, table);
    }
    NothingOfTable(rt, table);
    SinkOutcomes.FlushFrame(rt, s, w);
  }

  /** What the store has to do for the groups of some tables: an operation for each item, and a flush for each group. */
  function Needed<T>(groups: seq<Group<T>>, tables: set<string>, others: bool): nat {
    if groups == [] then 0
    else
      (if (groups[0].key in tables) != others then |groups[0].items| + 1 else 0)
      + Needed(groups[1..], tables, others)
  }

  lemma {:induction false} FlushGroupsOk(s: State, w: Weather)
    ensures FlushGroups(s, w).ok <==> Needed(s.flushing, w.down, false) <= w.room
    decreases |s.flushing|
  {
    hide Rows, Numbered;
    if s.flushing != [] {
      var g, rest := s.flushing[0], s.(flushing := s.flushing[1..]);
      if g.key !in w.down {
        FlushGroupsOk(rest.(log := s.log + Rows(g.key, g.items)), w);
      } else if |g.items| < w.room {
        FlushGroupsOk(Synced(Spilled(Failed(rest, w, g.key, g.items), g.items)), w.(room := w.room - |g.items| - 1));
      }
    }
  }

  /** A batch is written without error exactly when the store can do what the failing tables need. */
  lemma FlushOkExactly(rt: Router, s: State, w: Weather)
    ensures Flush(rt, s, w).ok <==> Needed(Collect(Routed(rt, s.pending)), w.down, false) <= w.room
  {
    hide Collect, FlushGroups;
    if s.pending == [] {
      CollectNothing<Sample>();
      assert Routed(rt, []) == [];
    } else {
      FlushGroupsOk(s.(flushing := Collect(Routed(rt, s.pending)), pending := []), w);
    }
  }

  lemma CollectNothing<T>()
    ensures Collect<T>([]) == []
  {
  }

  // ---- one replay ----

  /** No written group holds the entry. */
  ghost predicate Untouched(groups: seq<Group<BufferedSample>>, w: Weather, e: BufferedSample) {
    forall i :: 0 <= i < |groups| && groups[i].key !in w.down ==> Survives(groups[i].items, e)
  }

  lemma UntouchedFirst(groups: seq<Group<BufferedSample>>, w: Weather, e: BufferedSample)
    requires groups != []
    ensures Untouched(groups, w, e) <==>
      (groups[0].key in w.down || Survives(groups[0].items, e)) && Untouched(groups[1..], w, e)
  {
    hide Survives;
    var tail := groups[1..];
    assert forall i :: 0 <= i < |tail| ==> tail[i] == groups[i + 1];
    if Untouched(tail, w, e) && (groups[0].key in w.down || Survives(groups[0].items, e)) {
      forall i | 0 <= i < |groups| && groups[i].key !in w.down ensures Survives(groups[i].items, e) {
        if i > 0 { assert tail[i - 1] == groups[i]; }
      }
    }
  }

  lemma {:induction false} ReplayGroupsRemoves(s: State, w: Weather)
    requires Increasing(s.mem) && ReplayGroups(s, w).ok
    ensures Increasing(ReplayGroups(s, w).state.mem)
    ensures forall e :: e in ReplayGroups(s, w).state.mem <==> e in s.mem && Untouched(s.replaying, w, e)
    decreases |s.replaying|
  {
    hide Increasing, WithoutAll, Rows, SamplesOf, Survives, Untouched;
    var r := ReplayGroups(s, w).state.mem;
    if s.replaying == [] {
      forall e ensures Untouched(s.replaying, w, e) { NoGroups(w, e); }
    } else {
      var g, rest := s.replaying[0], s.(replaying := s.replaying[1..]);
      if g.key in w.down {
        ReplayGroupsRemoves(Failed(rest, w, g.key, SamplesOf(g.items)), w);
        forall e ensures e in r <==> e in s.mem && Untouched(s.replaying, w, e) {
          UntouchedFirst(s.replaying, w, e);
        }
      } else {
        var t := Synced(Removed(Inserted(s, g), g.items));
        WithoutAllMembers(s.mem, g.items);
        ReplayGroupsRemoves(t, w.(room := w.room - |g.items| - 1));
        forall e ensures e in r <==> e in s.mem && Untouched(s.replaying, w, e) {
          UntouchedFirst(s.replaying, w, e);
          SameDown(s.replaying[1..], w, w.(room := w.room - |g.items| - 1), e);
        }
      }
    }
  }

  lemma NoGroups(w: Weather, e: BufferedSample)
    ensures Untouched([], w, e)
  {
  }

  lemma SameDown(groups: seq<Group<BufferedSample>>, v: Weather, w: Weather, e: BufferedSample)
    requires v.down == w.down
    ensures Untouched(groups, v, e) == Untouched(groups, w, e)
  {
  }

  lemma {:induction false} FlattenMember<T>(groups: seq<Group<T>>, x: T) returns (i: nat)
    requires x in Flatten(groups)
    ensures i < |groups| && x in groups[i].items
  {
    if x in groups[0].items {
      i := 0;
    } else {
      i := FlattenMember(groups[1..], x);
      i := i + 1;
    }
  }

  lemma TouchedExactly(rt: Router, entries: seq<BufferedSample>, part: seq<BufferedSample>, w: Weather,
                       e: BufferedSample)
    requires Increasing(entries) && (forall x :: x in part ==> x in entries) && e in entries
    ensures Untouched(Collect(RoutedEntries(rt, part)), w, e) <==> !(e in part && rt.TableFor(e.sample) !in w.down)
  {
    hide Router.TableFor, Collect;
    var groups := Collect(RoutedEntries(rt, part));
    CollectRoutedEntries(rt, part);
    if e in part {
      assert e in multiset(Flatten(groups));
      var i := FlattenMember(groups, e);
      var k :| 0 <= k < |groups[i].items| && groups[i].items[k] == e;
      assert groups[i].key == rt.TableFor(e.sample);
      assert !Survives(groups[i].items, e);
    }
    if !(e in part && rt.TableFor(e.sample) !in w.down) {
      forall i | 0 <= i < |groups| && groups[i].key !in w.down ensures Survives(groups[i].items, e) {
        forall k | 0 <= k < |groups[i].items| ensures groups[i].items[k].id != e.id {
          GroupMember(rt, part, i, k);
          SameId(entries, groups[i].items[k], e);
        }
      }
    }
  }

  lemma GroupMember(rt: Router, part: seq<BufferedSample>, i: nat, k: nat)
    requires i < |Collect(RoutedEntries(rt, part))| && k < |Collect(RoutedEntries(rt, part))[i].items|
    ensures Collect(RoutedEntries(rt, part))[i].items[k] in part
    ensures rt.TableFor(Collect(RoutedEntries(rt, part))[i].items[k].sample) == Collect(RoutedEntries(rt, part))[i].key
  {
    hide Router.TableFor, Collect;
    var x := Collect(RoutedEntries(rt, part))[i].items[k];
    CollectKeyed(RoutedEntries(rt, part), i, x);
  }

  lemma SameId(entries: seq<BufferedSample>, x: BufferedSample, e: BufferedSample)
    requires Increasing(entries) && x in entries && e in entries
    ensures x.id == e.id ==> x == e
  {
    var i, j :| 0 <= i < |entries| && entries[i] == x && 0 <= j < |entries| && entries[j] == e;
  }

  lemma OldestMembers(entries: seq<BufferedSample>, limit: nat)
    ensures forall x :: x in Oldest(entries, limit) ==> x in entries
    ensures |Oldest(entries, limit)| <= limit
  {
  }

  lemma FlattenEntriesLength(rt: Router, entries: seq<BufferedSample>)
    ensures |Flatten(Collect(RoutedEntries(rt, entries)))| == |entries|
  {
    CollectRoutedEntries(rt, entries);
    assert |multiset(Flatten(Collect(RoutedEntries(rt, entries))))| == |multiset(entries)|;
  }

  /**
   A replay removes exactly the oldest `limit` entries whose table accepts the insert. In particular,
   entries of a table that is down stay at the head of the buffer and use up the limit.
   */
  lemma ReplayRemovesExactly(rt: Router, s: State, limit: nat, w: Weather)
    requires Increasing(s.mem) && Replay(rt, s, limit, w).ok
    ensures var o := Replay(rt, s, limit, w);
      && Increasing(o.state.mem)
      && forall e :: e in o.state.mem <==>
           e in s.mem && !(e in Oldest(s.mem, limit) && rt.TableFor(e.sample) !in w.down)
  {
    hide Increasing, Collect, ReplayGroups, Router.TableFor, Untouched;
    var part := Oldest(s.mem, limit);
    var t := s.(replaying := Collect(RoutedEntries(rt, part)));
    OldestMembers(s.mem, limit);
    ReplayGroupsRemoves(t, w);
    forall e | e in s.mem
      ensures Untouched(t.replaying, w, e) <==> !(e in part && rt.TableFor(e.sample) !in w.down)
    {
      TouchedExactly(rt, s.mem, part, w, e);
    }
  }

  /**
   Starvation: when the oldest `limit` entries all belong to tables that are down, a replay changes nothing
   in the buffer.
   */
  lemma HeadOfLineBlocks(rt: Router, s: State, limit: nat, w: Weather)
    requires Increasing(s.mem) && Replay(rt, s, limit, w).ok
    ensures Replay(rt, s, limit, w).state.mem == s.mem
       <==> forall e :: e in Oldest(s.mem, limit) ==> rt.TableFor(e.sample) in w.down
  {
    hide Replay, Router.TableFor;
    ReplayRemovesExactly(rt, s, limit, w);
    OldestMembers(s.mem, limit);
    var r := Replay(rt, s, limit, w).state.mem;
    if forall e :: e in Oldest(s.mem, limit) ==> rt.TableFor(e.sample) in w.down {
      SameMembers(r, s.mem);
    }
  }

  lemma {:induction false} SameMembers(a: seq<BufferedSample>, b: seq<BufferedSample>)
    requires Increasing(a) && Increasing(b) && forall e :: e in a <==> e in b
    ensures a == b
  {
    if b != [] {
      assert b[0] in b;
    }
    if a != [] {
      assert a[0] in a && a[0] in b && b[0] in a;
      assert a[0] == b[0];
      MembersOfTail(a);
      MembersOfTail(b);
      SameMembers(a[1..], b[1..]);
      assert a == [a[0]] + a[1..] && b == [b[0]] + b[1..];
    }
  }

  lemma MembersOfTail(a: seq<BufferedSample>)
    requires Increasing(a) && a != []
    ensures Increasing(a[1..]) && forall e :: e in a[1..] <==> e in a && e != a[0]
  {
    assert a == [a[0]] + a[1..];
    forall e | e in a[1..] ensures e != a[0] {
      var k :| 0 <= k < |a[1..]| && a[1..][k] == e;
      assert a[k + 1].id > a[0].id;
    }
  }

  /** Within a table, replayed entries are inserted oldest first. */
  lemma {:induction false} ReplayGroupsLog(s: State, w: Weather, table: string)
    requires Ascending(s.replaying) && ReplayGroups(s, w).ok
    ensures var o := ReplayGroups(s, w);
      TableLog(o.state.log, table)
         == TableLog(s.log, table) + (if Written(w, table) then SamplesOf(Lookup(s.replaying, table)) else [])
    decreases |s.replaying|
  {
    hide WithoutAll, Rows, TableLog, Ascending;
    if s.replaying != [] {
      var g, rest := s.replaying[0], s.(replaying := s.replaying[1..]);
      AscendingTail(s.replaying);
      TableLogAppend(s.log, Rows(g.key, SamplesOf(g.items)), table);
      TableLogRows(g.key, SamplesOf(g.items), table);
      if g.key in w.down {
        ReplayGroupsLog(Failed(rest, w, g.key, SamplesOf(g.items)), w, table);
      } else {
        var t := Synced(Removed(Inserted(s, g), g.items));
        ReplayGroupsLog(t, w.(room := w.room - |g.items| - 1), table);
      }
    }
  }

  lemma ReplayLog(rt: Router, s: State, limit: nat, w: Weather, table: string)
    requires Replay(rt, s, limit, w).ok
    ensures TableLog(Replay(rt, s, limit, w).state.log, table)
         == TableLog(s.log, table)
            + (if Written(w, table) then OfTable(rt, SamplesOf(Oldest(s.mem, limit)), table) else [])
  {
    hide Collect, ReplayGroups, TableLog, OfTable, SamplesOf;
    var part := Oldest(s.mem, limit);
    CollectLookup(RoutedEntries(rt, part), table);
    SelectEntriesIsOfTable(rt, part, table);
    ReplayGroupsLog(s.(replaying := Collect(RoutedEntries(rt, part))), w, table);
  }

  // ---- progress ----

  /** No insert fails, and the buffer has room for a whole replay. */
  function Fair(limit: nat): Weather {
    Weather({}, {}, 2 * limit, limit)
  }

  lemma {:induction false} ReplayGroupsOk(s: State, w: Weather)
    ensures ReplayGroups(s, w).ok <==> Needed(s.replaying, w.down, true) <= w.room
    decreases |s.replaying|
  {
    hide WithoutAll, Rows, SamplesOf;
    if s.replaying != [] {
      var g, rest := s.replaying[0], s.(replaying := s.replaying[1..]);
      if g.key in w.down {
        ReplayGroupsOk(Failed(rest, w, g.key, SamplesOf(g.items)), w);
      } else if |g.items| < w.room {
        ReplayGroupsOk(Synced(Removed(Inserted(s, g), g.items)), w.(room := w.room - |g.items| - 1));
      }
    }
  }

  /**
   A replay ends without error exactly when the oldest entries can be read and the store can do what the
   accepting tables need.
   */
  lemma ReplayOkExactly(rt: Router, s: State, limit: nat, w: Weather)
    ensures Replay(rt, s, limit, w).ok <==>
      && |Oldest(s.mem, limit)| <= w.readable
      && Needed(Collect(RoutedEntries(rt, Oldest(s.mem, limit))), w.down, true) <= w.room
  {
    hide Collect, ReplayGroups, Oldest, Needed;
    ReplayGroupsOk(s.(replaying := Collect(RoutedEntries(rt, Oldest(s.mem, limit)))), w);
  }

  lemma {:induction false} NeededAtMost<T>(groups: seq<Group<T>>, tables: set<string>, others: bool)
    requires forall i :: 0 <= i < |groups| ==> groups[i].items != []
    ensures Needed(groups, tables, others) <= 2 * |Flatten(groups)|
  {
    if groups != [] {
      FlattenFirst(groups);
      NeededAtMost(groups[1..], tables, others);
    }
  }

  lemma FairIsOk(rt: Router, s: State, limit: nat)
    ensures Replay(rt, s, limit, Fair(limit)).ok
  {
    hide Collect, ReplayGroups, Flatten;
    var part := Oldest(s.mem, limit);
    OldestMembers(s.mem, limit);
    FlattenEntriesLength(rt, part);
    CollectIsPartition(RoutedEntries(rt, part));
    NeededAtMost(Collect(RoutedEntries(rt, part)), {}, true);
    ReplayOkExactly(rt, s, limit, Fair(limit));
  }

  /** `n` replays with nothing failing and nothing new spilled in between. */
  function Replays(rt: Router, s: State, limit: nat, n: nat): State {
    if n == 0 then s else Replay(rt, Replays(rt, s, limit, n - 1), limit, Fair(limit)).state
  }

  lemma AllUp(rt: Router, s: State, limit: nat)
    requires Increasing(s.mem)
    ensures Replay(rt, s, limit, Fair(limit)).state.mem == s.mem[Smaller(limit, |s.mem|)..]
  {
    hide Replay, Router.TableFor, Increasing;
    var k := Smaller(limit, |s.mem|);
    FairIsOk(rt, s, limit);
    ReplayRemovesExactly(rt, s, limit, Fair(limit));
    SplitIncreasing(s.mem, k);
    assert Oldest(s.mem, limit) == s.mem[..k];
    SameMembers(Replay(rt, s, limit, Fair(limit)).state.mem, s.mem[k..]);
  }

  lemma SplitIncreasing(entries: seq<BufferedSample>, k: nat)
    requires Increasing(entries) && k <= |entries|
    ensures Increasing(entries[k..])
    ensures forall e :: e in entries[k..] <==> e in entries && e !in entries[..k]
  {
    assert entries == entries[..k] + entries[k..];
    forall e | e in entries[k..] ensures e !in entries[..k] {
      var j :| 0 <= j < |entries[k..]| && entries[k..][j] == e;
      assert entries[k + j] == e;
    }
  }

  /** After `n` replays the oldest `n * limit` entries are gone, and each table has its share of them in order. */
  lemma {:induction false} ReplaysRemove(rt: Router, s: State, limit: nat, n: nat, total: nat, table: string)
    requires Increasing(s.mem) && total == n * limit
    ensures var t, k := Replays(rt, s, limit, n), Smaller(total, |s.mem|);
      && t.mem == s.mem[k..]
      && TableLog(t.log, table) == TableLog(s.log, table) + OfTable(rt, SamplesOf(s.mem[..k]), table)
  {
    hide Replay, TableLog, OfTable;
    if n == 0 {
      assert SamplesOf(s.mem[..0]) == [];
      NothingOfTable(rt, table);
    } else {
      assert total == (n - 1) * limit + limit;
      ReplaysRemove(rt, s, limit, n - 1, total - limit, table);
      ReplayOnce(rt, s, Replays(rt, s, limit, n - 1), limit, Smaller(total - limit, |s.mem|), table);
    }
  }

  /** One more replay, after `j` entries are gone. */
  lemma ReplayOnce(rt: Router, s: State, u: State, limit: nat, j: nat, table: string)
    requires Increasing(s.mem) && j <= |s.mem| && u.mem == s.mem[j..]
    requires TableLog(u.log, table) == TableLog(s.log, table) + OfTable(rt, SamplesOf(s.mem[..j]), table)
    ensures var t, k := Replay(rt, u, limit, Fair(limit)).state, Smaller(j + limit, |s.mem|);
      && t.mem == s.mem[k..]
      && TableLog(t.log, table) == TableLog(s.log, table) + OfTable(rt, SamplesOf(s.mem[..k]), table)
  {
    hide Replay, TableLog, OfTable, Increasing, SamplesOf, Oldest;
    var k := Smaller(j + limit, |s.mem|);
    SplitIncreasing(s.mem, j);
    AllUp(rt, u, limit);
    FairIsOk(rt, u, limit);
    ReplayLog(rt, u, limit, Fair(limit), table);
    NextEntries(s.mem, j, limit);
    SamplesAppend(s.mem[..j], s.mem[j..k]);
    OfTableAppend(rt, SamplesOf(s.mem[..j]), SamplesOf(s.mem[j..k]), table);
  }

  lemma NextEntries(all: seq<BufferedSample>, j: nat, limit: nat)
    requires j <= |all|
    ensures var k := Smaller(j + limit, |all|);
      && Oldest(all[j..], limit) == all[j..k] && all[j..][k - j..] == all[k..] && all[..k] == all[..j] + all[j..k]
  {
  }

  lemma NothingOfTable(rt: Router, table: string)
    ensures OfTable(rt, [], table) == []
  {
  }

  /** A buffer of `n` entries is empty after ceil(n / limit) replays, and every table has its entries oldest first. */
  lemma BufferEmpties(rt: Router, s: State, limit: nat, table: string)
    requires Increasing(s.mem) && limit > 0
    ensures var t := Replays(rt, s, limit, (|s.mem| + limit - 1) / limit);
      && t.mem == []
      && TableLog(t.log, table) == TableLog(s.log, table) + OfTable(rt, SamplesOf(s.mem), table)
  {
    var n := (|s.mem| + limit - 1) / limit;
    assert n * limit >= |s.mem| by {
      assert (|s.mem| + limit - 1) == n * limit + (|s.mem| + limit - 1) % limit;
    }
    ReplaysRemove(rt, s, limit, n, n * limit, table);
    assert s.mem[..|s.mem|] == s.mem;
  }
}

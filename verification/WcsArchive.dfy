/** The WCS inbox beside the monthly archive: where the history row of a processed event is. */
module WcsArchive {
  import opened Options
  import opened Calendar
  import opened WcsCatalog
  import opened WcsInbox
  import A = ArchiveProcedure
  import H = HistoryRuns
  import N = HistoryTables
  import Q = HistoryQuery
  import R = HistoryRows
  import WcsRuns

  /** The row the history INSERT stores, with all of its columns. */
  function StoredRow(id: int, row: HistoryRow): R.AlarmRow {
    R.AlarmRow(
      id, row.location, row.deviceType, row.deviceId, Some(row.tag), row.faultType, Some(row.tagValue), row.createAt,
      [row.sourceEventId, row.externalDeviceCode, Some(row.nodeId), Some(row.alias), Some(row.faultCode),
       Some(row.faultName), Some(row.tagState), Some(row.remark)])
  }

  /** The inbox, and the tables of one history table `base`. */
  datatype World = World(st: State, tables: H.Moment)

  datatype Move =
    | Inbox(step: Step)
    | Other(row: R.AlarmRow)      // a row of another writer
    | Archive(month: string)      // an archive pass, stopped anywhere

  predicate WritesTo(c: Catalogs, st: State, step: Step, base: string)
    requires Enabled(c, st, step)
  {
    step.Insert? && Route(st.inbox[WorkOf(st, step.s).inboxId].event, c) == Some(base)
  }

  function NewRow(c: Catalogs, st: State, step: Step, base: string): R.AlarmRow
    requires Enabled(c, st, step) && WritesTo(c, st, step, base)
  {
    StoredRow(step.historyId, Derive(st.inbox[WorkOf(st, step.s).inboxId].event, c, base))
  }

  ghost predicate Moves(c: Catalogs, base: string, current: Date, v: World, w: World, move: Move) {
    match move
    case Inbox(step) =>
      && Enabled(c, v.st, step) && w.st == Apply(c, v.st, step)
      && if WritesTo(c, v.st, step, base) then H.Follows(v.tables, w.tables, H.Insert(NewRow(c, v.st, step, base)),
          base, current)
         else w.tables == v.tables
    case Other(row) => w.st == v.st && H.Follows(v.tables, w.tables, H.Insert(row), base, current)
    case Archive(p) => w.st == v.st && H.Follows(v.tables, w.tables, H.Pass(p), base, current)
  }

  /** A run of inbox statements, other writers and archive passes; `current` is the month at its end. */
  ghost predicate Course(c: Catalogs, base: string, current: Date, worlds: seq<World>, moves: seq<Move>) {
    && |worlds| == |moves| + 1
    && worlds[0] == World(START, H.Moment(map[base := map[]], map[]))
    && forall i :: 0 <= i < |moves| ==> Moves(c, base, current, worlds[i], worlds[i + 1], moves[i])
  }

  /** The rows written for events are among the rows of the table. */
  ghost predicate Linked(w: World, base: string) {
    forall t :: t in w.st.history && t.table == base ==> Q.Holds(w.tables.logical, StoredRow(t.id, w.st.history[t].row))
  }

  ghost predicate Sound(c: Catalogs, base: string, current: Date, w: World) {
    Inv(c, w.st) && Q.Stores(w.tables.db, base, current, w.tables.logical) && Linked(w, base)
  }

  lemma LinkedKept(c: Catalogs, base: string, current: Date, v: World, w: World, move: Move)
    requires Moves(c, base, current, v, w, move) && Linked(v, base)
    ensures Linked(w, base)
  {
    hide Enabled, Apply, Route, Derive, Q.PassStep, StoredRow;
    forall t | t in w.st.history && t.table == base
      ensures Q.Holds(w.tables.logical, StoredRow(t.id, w.st.history[t].row))
    {
      if move.Inbox? {
        if t in v.st.history {
          RowsStay(c, v.st, move.step, t);
          StoredId(t.id, v.st.history[t].row);
        } else {
          NewTarget(c, v.st, move.step, t, base);
        }
      } else {
        StoredId(t.id, v.st.history[t].row);
      }
    }
  }

  lemma StoredId(id: int, row: HistoryRow)
    ensures StoredRow(id, row).id == id
  {
  }

  lemma NewTarget(c: Catalogs, st: State, step: Step, t: Target, base: string)
    requires Enabled(c, st, step) && t in Apply(c, st, step).history && t !in st.history && t.table == base
    ensures WritesTo(c, st, step, base) && StoredRow(t.id, Apply(c, st, step).history[t].row)
      == NewRow(c, st, step, base)
  {
    hide Route, Derive, Duplicate, BatchIds, StoredRow;
  }

  lemma {:induction false} CourseSound(c: Catalogs, base: string, current: Date, worlds: seq<World>, moves: seq<Move>,
                                       n: nat)
    requires Course(c, base, current, worlds, moves) && N.ValidIdentifier(base) && n <= |moves|
    ensures Sound(c, base, current, worlds[n])
  {
    hide Enabled, Apply, Inv, Q.Stores, H.Follows, N.ValidIdentifier, NewRow, WritesTo;
    if n == 0 {
      H.EmptyStores(base, current);
      WcsRuns.StartIsSound(c);
    } else {
      CourseSound(c, base, current, worlds, moves, n - 1);
      var v, w, move := worlds[n - 1], worlds[n], moves[n - 1];
      assert Moves(c, base, current, v, w, move);
      LinkedKept(c, base, current, v, w, move);
      match move {
        case Inbox(step) =>
          StepKeeps(c, v.st, step);
          if WritesTo(c, v.st, step, base) {
            H.ChangeKeepsStores(v.tables, w.tables, H.Insert(NewRow(c, v.st, step, base)), base, current);
          }
        case Other(row) => H.ChangeKeepsStores(v.tables, w.tables, H.Insert(row), base, current);
        case Archive(p) => H.ChangeKeepsStores(v.tables, w.tables, H.Pass(p), base, current);
      }
    }
  }

  /** The row a processed event points to. */
  function MappedRow(st: State, id: int): R.AlarmRow
    requires id in st.inbox && st.inbox[id].mapped.Some? && st.inbox[id].mapped.value.target in st.history
  {
    var t := st.inbox[id].mapped.value.target;
    StoredRow(t.id, st.history[t].row)
  }

  ghost predicate ProcessedInto(st: State, id: int, base: string) {
    && id in st.inbox && st.inbox[id].status == Processed && st.inbox[id].mapped.Some?
    && st.inbox[id].mapped.value.target in st.history && st.inbox[id].mapped.value.target.table == base
  }

  /** An event once processed stays so, with its mapping and the row written for it. */
  lemma {:induction false} StaysProcessed(c: Catalogs, base: string, current: Date, worlds: seq<World>,
                                          moves: seq<Move>, m: nat, n: nat, id: int)
    requires Course(c, base, current, worlds, moves) && N.ValidIdentifier(base) && m <= n <= |moves|
    requires ProcessedInto(worlds[m].st, id, base)
    ensures ProcessedInto(worlds[n].st, id, base) && worlds[n].st.inbox[id] == worlds[m].st.inbox[id]
    ensures MappedRow(worlds[n].st, id) == MappedRow(worlds[m].st, id)
  {
    hide Enabled, Apply, Inv, Q.Stores, Linked, H.Follows, N.ValidIdentifier, NewRow, WritesTo, StoredRow;
    if m < n {
      StaysProcessed(c, base, current, worlds, moves, m, n - 1, id);
      CourseSound(c, base, current, worlds, moves, n - 1);
      var v, move := worlds[n - 1], moves[n - 1];
      assert Moves(c, base, current, v, worlds[n], move);
      if move.Inbox? {
        assert Exclusive(v.st) by { InvExclusive(c, v.st); }
        ProcessedStays(c, v.st, move.step, id);
        RowsStay(c, v.st, move.step, v.st.inbox[id].mapped.value.target);
      }
    }
  }

  lemma InvExclusive(c: Catalogs, st: State)
    requires Inv(c, st)
    ensures Exclusive(st)
  {
  }

  /**
   Whatever follows, archiving included: the row of a processed event is in its mapped table, or, unchanged and
   under the same id, in that table's archive of the row's month. It is the row derived from the event.
   */
  lemma ProcessedRowIsKept(c: Catalogs, base: string, current: Date, worlds: seq<World>, moves: seq<Move>, m: nat,
                           id: int)
    requires Course(c, base, current, worlds, moves) && N.ValidIdentifier(base) && m <= |moves|
    requires ProcessedInto(worlds[m].st, id, base)
    ensures var end, r := worlds[|moves|], MappedRow(worlds[m].st, id);
      && ProcessedInto(end.st, id, base) && end.st.inbox[id] == worlds[m].st.inbox[id]
      && r == StoredRow(end.st.inbox[id].mapped.value.target.id, Derive(end.st.inbox[id].event, c, base))
      && (Q.InHot(end.tables.db, base, r)
          || (MonthIndex(r.createAt.date) < MonthIndex(current) && Q.InArchive(end.tables.db, base, r)))
  {
    hide Moves, Inv, StoredRow, Q.OwnMonths, Q.InHot, Q.InArchive, MonthIndex, N.ValidIdentifier, Q.Holds;
    StaysProcessed(c, base, current, worlds, moves, m, |moves|, id);
    CourseSound(c, base, current, worlds, moves, |moves|);
    var end := worlds[|moves|];
    var r := MappedRow(end.st, id);
    MappedIsDerived(c, end.st, id, base);
    assert Q.Holds(end.tables.logical, r);
    assert Q.Somewhere(end.tables.db, base, current, r);
  }

  lemma MappedIsDerived(c: Catalogs, st: State, id: int, base: string)
    requires Inv(c, st) && ProcessedInto(st, id, base)
    ensures MappedRow(st, id) == StoredRow(st.inbox[id].mapped.value.target.id, Derive(st.inbox[id].event, c, base))
  {
    hide StoredRow, Derive, Route, Exclusive, Counted, Unique;
    assert WellMapped(c, st, id);
  }

  /** Move `i` takes the row out of the hot table. */
  ghost predicate TakenAt(worlds: seq<World>, base: string, r: R.AlarmRow, i: nat)
    requires i + 1 < |worlds|
  {
    H.Takes(worlds[i].tables, worlds[i + 1].tables, base, r)
  }

  lemma InHotIsHeld(db: A.Database, base: string, current: Date, logical: R.Table, r: R.AlarmRow)
    requires Q.Stores(db, base, current, logical) && Q.InHot(db, base, r)
    ensures Q.Holds(logical, r)
  {
    hide Q.OwnMonths, Q.InHot, Q.InArchive, Q.Holds;
    assert Q.Somewhere(db, base, current, r);
  }

  lemma LogicalGrows(a: H.Moment, b: H.Moment, change: H.Change, base: string, current: Date, r: R.AlarmRow)
    requires H.Follows(a, b, change, base, current)
    ensures Q.Holds(b.logical, r) <==> Q.Holds(a.logical, r) || change == H.Insert(r)
  {
    hide Q.PassStep;
  }

  /** The change a move makes to the table, if any. */
  lemma ChangeOf(c: Catalogs, base: string, current: Date, v: World, w: World, move: Move)
    returns (change: Option<H.Change>)
    requires Moves(c, base, current, v, w, move)
    ensures change.None? ==> w.tables == v.tables
    ensures change.Some? ==> H.Follows(v.tables, w.tables, change.value, base, current)
    ensures change.Some? && change.value.Pass? ==> move == Archive(change.value.month)
  {
    hide H.Follows, Enabled, Apply;
    match move
    case Inbox(step) =>
      change := if WritesTo(c, v.st, step, base) then Some(H.Insert(NewRow(c, v.st, step, base))) else None;
    case Other(row) => change := Some(H.Insert(row));
    case Archive(p) => change := Some(H.Pass(p));
  }

  lemma {:induction false} HotUntilTaken(c: Catalogs, base: string, current: Date, worlds: seq<World>,
                                         moves: seq<Move>, n: nat, r: R.AlarmRow)
    requires Course(c, base, current, worlds, moves) && N.ValidIdentifier(base) && n <= |moves|
    ensures Q.InHot(worlds[n].tables.db, base, r) <==>
      Q.Holds(worlds[n].tables.logical, r) && forall i :: 0 <= i < n ==> !TakenAt(worlds, base, r, i)
    ensures !Q.Holds(worlds[n].tables.logical, r) ==> forall i :: 0 <= i < n ==> !TakenAt(worlds, base, r, i)
  {
    hide Moves, Q.Stores, H.Follows, Q.InHot, Q.Holds, Inv, Linked, N.ValidIdentifier;
    if n == 0 {
      EmptyHolds(base, r);
    } else {
      HotUntilTaken(c, base, current, worlds, moves, n - 1, r);
      CourseSound(c, base, current, worlds, moves, n - 1);
      CourseSound(c, base, current, worlds, moves, n);
      var v, w := worlds[n - 1], worlds[n];
      var change := ChangeOf(c, base, current, v, w, moves[n - 1]);
      assert TakenAt(worlds, base, r, n - 1) <==> Q.InHot(v.tables.db, base, r) && !Q.InHot(w.tables.db, base, r);
      if change.Some? {
        LogicalGrows(v.tables, w.tables, change.value, base, current, r);
        if Q.InHot(w.tables.db, base, r) {
          InHotIsHeld(w.tables.db, base, current, w.tables.logical, r);
          if !Q.InHot(v.tables.db, base, r) {
            H.HotOrigin(v.tables, w.tables, change.value, base, current, r);
            InsertedIsFresh(v.tables, w.tables, base, current, r);
          }
        }
        if Q.InHot(v.tables.db, base, r) {
          InHotIsHeld(v.tables.db, base, current, v.tables.logical, r);
        }
        if change.value == H.Insert(r) {
          InsertedIsHot(v.tables, w.tables, base, current, r);
        }
      }
    }
  }

  lemma EmptyHolds(base: string, r: R.AlarmRow)
    ensures !Q.InHot(map[base := map[]], base, r) && !Q.Holds(map[], r)
  {
  }

  lemma InsertedIsFresh(a: H.Moment, b: H.Moment, base: string, current: Date, r: R.AlarmRow)
    requires H.Follows(a, b, H.Insert(r), base, current)
    ensures !Q.Holds(a.logical, r)
  {
  }

  lemma InsertedIsHot(a: H.Moment, b: H.Moment, base: string, current: Date, r: R.AlarmRow)
    requires H.Follows(a, b, H.Insert(r), base, current)
    ensures Q.InHot(b.db, base, r)
  {
  }

  /**
   The mapping of a processed event still leads to its row if and only if no archive pass took the row; what
   takes it is a pass over the row's own month, and one that goes through takes it.
   */
  lemma MappingLeadsExactly(c: Catalogs, base: string, current: Date, worlds: seq<World>, moves: seq<Move>, m: nat,
                            id: int)
    requires Course(c, base, current, worlds, moves) && N.ValidIdentifier(base) && m <= |moves|
    requires ProcessedInto(worlds[m].st, id, base)
    ensures var end, r := worlds[|moves|], MappedRow(worlds[m].st, id);
      && (Q.InHot(end.tables.db, base, r) <==> forall i :: 0 <= i < |moves| ==> !TakenAt(worlds, base, r, i))
      && (forall i :: 0 <= i < |moves| && TakenAt(worlds, base, r, i) ==>
            && moves[i].Archive? && A.IsYyyymm(moves[i].month)
                && A.MonthOf(moves[i].month) == Some(MonthIndex(r.createAt.date))
            && Q.InArchive(worlds[i + 1].tables.db, base, r))
      && (forall i :: m <= i < |moves| && Finishes(worlds, moves, base, MonthIndex(r.createAt.date), i) ==>
            !Q.InHot(end.tables.db, base, r))
  {
    hide Moves, Inv, StoredRow, Q.Stores, Linked, Q.InHot, Q.InArchive, MonthIndex, N.ValidIdentifier, Q.Holds,
        H.Takes, H.FinishedPass;
    var r := MappedRow(worlds[m].st, id);
    MappedIsHeld(c, base, current, worlds, moves, m, |moves|, id);
    HotUntilTaken(c, base, current, worlds, moves, |moves|, r);
    forall i | 0 <= i < |moves| && TakenAt(worlds, base, r, i)
      ensures moves[i].Archive? && A.IsYyyymm(moves[i].month)
        && A.MonthOf(moves[i].month) == Some(MonthIndex(r.createAt.date))
      ensures Q.InArchive(worlds[i + 1].tables.db, base, r)
    {
      TakingMove(c, base, current, worlds, moves, i, r);
    }
    forall i | m <= i < |moves| && Finishes(worlds, moves, base, MonthIndex(r.createAt.date), i)
      ensures !Q.InHot(worlds[|moves|].tables.db, base, r)
    {
      FinishingMove(c, base, current, worlds, moves, i, r);
      MappedIsHeld(c, base, current, worlds, moves, m, i + 1, id);
      HotUntilTaken(c, base, current, worlds, moves, i + 1, r);
    }
  }

  /** Move `i` is a pass over month `k` that goes through. */
  ghost predicate Finishes(worlds: seq<World>, moves: seq<Move>, base: string, k: int, i: nat)
    requires |worlds| == |moves| + 1 && i < |moves|
  {
    moves[i].Archive? && H.FinishedPass(worlds[i].tables.db, worlds[i + 1].tables.db, base, moves[i].month, k)
  }

  lemma MappedIsHeld(c: Catalogs, base: string, current: Date, worlds: seq<World>, moves: seq<Move>, m: nat, n: nat,
                     id: int)
    requires Course(c, base, current, worlds, moves) && N.ValidIdentifier(base) && m <= n <= |moves|
    requires ProcessedInto(worlds[m].st, id, base)
    ensures Q.Holds(worlds[n].tables.logical, MappedRow(worlds[m].st, id))
  {
    hide Moves, Inv, StoredRow, Q.Stores, N.ValidIdentifier, Q.Holds;
    StaysProcessed(c, base, current, worlds, moves, m, n, id);
    CourseSound(c, base, current, worlds, moves, n);
  }

  lemma TakingMove(c: Catalogs, base: string, current: Date, worlds: seq<World>, moves: seq<Move>, i: nat,
                   r: R.AlarmRow)
    requires Course(c, base, current, worlds, moves) && N.ValidIdentifier(base) && i < |moves|
      && TakenAt(worlds, base, r, i)
    ensures moves[i].Archive? && A.IsYyyymm(moves[i].month)
      && A.MonthOf(moves[i].month) == Some(MonthIndex(r.createAt.date))
    ensures Q.InArchive(worlds[i + 1].tables.db, base, r)
  {
    hide Moves, Inv, Linked, Q.Stores, MonthIndex, N.ValidIdentifier, H.Follows;
    CourseSound(c, base, current, worlds, moves, i);
    var change := ChangeOf(c, base, current, worlds[i], worlds[i + 1], moves[i]);
    assert change.Some?;
    H.TakenByItsMonth(worlds[i].tables, worlds[i + 1].tables, change.value, base, current, r);
  }

  lemma FinishingMove(c: Catalogs, base: string, current: Date, worlds: seq<World>, moves: seq<Move>, i: nat,
                      r: R.AlarmRow)
    requires Course(c, base, current, worlds, moves) && N.ValidIdentifier(base) && i < |moves|
    requires Finishes(worlds, moves, base, MonthIndex(r.createAt.date), i)
    ensures !Q.InHot(worlds[i + 1].tables.db, base, r)
  {
    hide Inv, Linked, Q.Stores, MonthIndex, N.ValidIdentifier, H.Follows, H.FinishedPass;
    CourseSound(c, base, current, worlds, moves, i);
    assert Moves(c, base, current, worlds[i], worlds[i + 1], moves[i]);
    H.FinishedTakes(worlds[i].tables, worlds[i + 1].tables, moves[i].month, base, current, r);
  }
}

/** The statements of src/sink.rs and of the WCS procedure, as programs of `RealtimeLanguage`. */
module RealtimeUpsert {
  import opened RealtimeLanguage
  import T = Text

  /** How the condition of the `fault_count` assignment is read. */
  datatype Grouping = Intended | AsWritten

  datatype Connective = AND | OR
  datatype Chain = End | Link(op: Connective, operand: Expr, rest: Chain)

  /** An unparenthesised chain of conditions: AND binds tighter than OR. */
  function ParseChain(first: Expr, rest: Chain): Expr
    decreases rest
  {
    match rest
    case End => first
    case Link(AND, operand, more) => ParseChain(Binary(And, first, operand), more)
    case Link(OR, operand, more) => Binary(Or, first, ParseChain(operand, more))
  }

  const HAS_NO_TIME := Unary(IsNull, Column(LastFaultAt))
  const NOT_OLDER := Binary(Ge, Values(LastFaultAt), Column(LastFaultAt))
  const WAS_NOT_FAULT := Binary(Eq, FaultText(Column(TagValue)), Literal(Str("0")))
  const IS_FAULT := Binary(Ne, FaultText(Values(TagValue)), Literal(Str("0")))

  function FaultText(e: Expr): Expr {
    Binary(Coalesce, Binary(NullIf, Unary(Trim, e), Literal(Str(""))), Literal(Str("0")))
  }

  /** The text of `accepts_newer`, alone inside an IF. */
  function AcceptsNewer(): Expr {
    ParseChain(HAS_NO_TIME, Link(OR, NOT_OLDER, End))
  }

  /** The condition of the `fault_count` assignment: parenthesised, or as the text is spliced. */
  function CountCondition(g: Grouping): Expr {
    match g
    case Intended => ParseChain(AcceptsNewer(), Link(AND, WAS_NOT_FAULT, Link(AND, IS_FAULT, End)))
    case AsWritten => ParseChain(HAS_NO_TIME, Link(OR, NOT_OLDER, Link(AND, WAS_NOT_FAULT, Link(AND, IS_FAULT, End))))
  }

  function Guarded(c: Col): Assign {
    Assign(c, If(AcceptsNewer(), Values(c), Column(c)))
  }

  function GuardAll(cols: seq<Col>): (r: seq<Assign>)
    ensures |r| == |cols|
    ensures forall i :: 0 <= i < |cols| ==> r[i] == Guarded(cols[i])
  {
    if cols == [] then [] else [Guarded(cols[0])] + GuardAll(cols[1..])
  }

  /** The order in which every statement lists the columns it assigns. */
  function Rank(c: Col): nat {
    match c
    case SourceSystem => 0 case SourceEventId => 1 case Location => 2 case DeviceType => 3 case DeviceId => 4
    case ExternalDeviceCode => 5 case DeviceName => 6 case Alias => 7 case Tag => 8 case FaultType => 9
    case FaultCode => 10 case FaultName => 11 case TagState => 12 case FaultCount => 13 case TagValue => 14
    case Description => 15 case StatusDescription => 16 case LastFaultAt => 17 case UpdatedAt => 18
  }

  ghost predicate InTableOrder(cols: seq<Col>) {
    forall i :: 0 < i < |cols| ==> Rank(cols[i - 1]) < Rank(cols[i])
  }

  lemma {:induction false} InTableOrderApart(cols: seq<Col>, i: nat, j: nat)
    requires InTableOrder(cols) && i < j < |cols|
    ensures Rank(cols[i]) < Rank(cols[j])
  {
    if i + 1 < j {
      InTableOrderApart(cols, i, j - 1);
    }
  }

  /** The guarded columns before and after the `fault_count` assignment. */
  datatype Layout = Layout(before: seq<Col>, after: seq<Col>) {
    function Columns(): seq<Col> { before + after }

    /** The columns come in `Rank` order, around the place of `fault_count`. */
    ghost predicate Valid() {
      && InTableOrder(before) && InTableOrder(after)
      && (forall i :: 0 <= i < |before| ==> Rank(before[i]) < Rank(FaultCount))
      && (forall i :: 0 <= i < |after| ==> Rank(FaultCount) < Rank(after[i]) < Rank(LastFaultAt))
      && before != [] && before[|before| - 1] == TagState
      && after != [] && after[0] == TagValue && after[|after| - 1] == StatusDescription
    }

    /** What the theorems need: `tag_value` comes after the count and no column is assigned twice. */
    lemma Facts()
      requires Valid()
      ensures TagValue !in before && TagValue in after && TagState in before && StatusDescription in after
      ensures LastFaultAt !in Columns() && FaultCount !in Columns() && UpdatedAt !in Columns()
      ensures forall i, j :: 0 <= i < j < |Columns()| ==> Columns()[i] != Columns()[j]
    {
      forall i, j | 0 <= i < j < |Columns()| ensures Columns()[i] != Columns()[j] {
        if j < |before| {
          InTableOrderApart(before, i, j);
        } else if i >= |before| {
          InTableOrderApart(after, i - |before|, j - |before|);
        }
      }
      assert before[|before| - 1] in before && after[0] in after && after[|after| - 1] in after;
    }
  }

  /** The order in which `build_realtime_upsert_sql` lists the columns. */
  const SINK_LAYOUT :=
    Layout([SourceSystem, Location, DeviceType, DeviceId, Alias, Tag, FaultType, TagState],
           [TagValue, Description, StatusDescription])

  lemma SinkLayoutValid()
    ensures SINK_LAYOUT.Valid()
  {
  }

  function CountAssign(g: Grouping): Assign {
    Assign(FaultCount, If(CountCondition(g), Unary(Increment, Column(FaultCount)), Column(FaultCount)))
  }

  /** All assignments but the last one. */
  function UpsertBody(g: Grouping, l: Layout): seq<Assign> {
    GuardAll(l.before) + [CountAssign(g)] + (GuardAll(l.after) + [Guarded(LastFaultAt)])
  }

  const TOUCH := Assign(UpdatedAt, If(AcceptsNewer(), Now, Column(UpdatedAt)))

  /** The ON DUPLICATE KEY UPDATE clause of `build_realtime_upsert_sql`. */
  function UpsertProgram(g: Grouping, l: Layout): seq<Assign> {
    UpsertBody(g, l) + [TOUCH]
  }

  function CopyAll(cols: seq<Col>): (r: seq<Assign>)
    ensures |r| == |cols|
    ensures forall i :: 0 <= i < |cols| ==> r[i] == Assign(cols[i], Values(cols[i]))
  {
    if cols == [] then [] else [Assign(cols[0], Values(cols[0]))] + CopyAll(cols[1..])
  }

  /** The columns of `build_realtime_seed_sql`. */
  const SEED_COLUMNS := [SourceSystem, Location, DeviceType, DeviceId, Alias, Tag, FaultType, Description]

  /** A list of seeded columns that leaves the status of the row alone. */
  ghost predicate LeavesStatus(cols: seq<Col>) {
    && TagState !in cols && TagValue !in cols && FaultCount !in cols
    && StatusDescription !in cols && LastFaultAt !in cols && UpdatedAt !in cols
  }

  lemma SeedColumnsLeaveStatus()
    ensures LeavesStatus(SEED_COLUMNS)
  {
  }

  /** The ON DUPLICATE KEY UPDATE clause of `build_realtime_seed_sql`. */
  function SeedProgram(cols: seq<Col>): seq<Assign> {
    CopyAll(cols)
  }

  /** The order in which `sp_process_wcs_alarm_event` lists the columns. */
  const WCS_LAYOUT :=
    Layout([SourceSystem, SourceEventId, Location, DeviceType, DeviceId, ExternalDeviceCode, DeviceName,
            Alias, Tag, FaultType, FaultCode, FaultName, TagState],
           [TagValue, Description, StatusDescription])

  lemma WcsLayoutValid()
    ensures WCS_LAYOUT.Valid()
  {
  }

  const WCS_COUNT :=
    Assign(FaultCount, If(Binary(And, WAS_NOT_FAULT, IS_FAULT), Unary(Increment, Column(FaultCount)),
        Column(FaultCount)))

  /** The ON DUPLICATE KEY UPDATE clause of `sp_process_wcs_alarm_event`: no timestamp guard. */
  function WcsProgram(l: Layout): seq<Assign> {
    CopyAll(l.before) + [WCS_COUNT] + CopyAll(l.after + [LastFaultAt]) + [Assign(UpdatedAt, Now)]
  }

  /** `tag_value` as a fault flag: neither NULL, blank nor '0'. */
  predicate IsFaultValue(v: Val) {
    v.Str? && T.Trim(T.Spaces, v.text) != "" && T.Trim(T.Spaces, v.text) != "0"
  }

  predicate Accepts(row: Row, values: Row) {
    Get(row, LastFaultAt).Null? || ApplyBinary(Ge, Get(values, LastFaultAt), Get(row, LastFaultAt)) == Truth(true)
  }

  /** The column types of the table, and a VALUES list that offers a timestamp. */
  ghost predicate Typed(row: Row) {
    && (Get(row, LastFaultAt).Null? || Get(row, LastFaultAt).Num?)
    && (Get(row, TagValue).Null? || Get(row, TagValue).Str?)
    && Get(row, FaultCount).Num?
  }

  ghost predicate Offer(values: Row) {
    && Get(values, LastFaultAt).Num?
    && Get(values, TagValue).Str?
  }

  /** Which rows the `fault_count` condition counts. */
  predicate Counts(g: Grouping, row: Row, values: Row) {
    var edge := !IsFaultValue(Get(row, TagValue)) && IsFaultValue(Get(values, TagValue));
    match g
    case Intended => Accepts(row, values) && edge
    case AsWritten => Get(row, LastFaultAt).Null? || (Accepts(row, values) && edge)
  }

  lemma GuardShape()
    ensures AcceptsNewer() == Binary(Or, HAS_NO_TIME, NOT_OLDER)
  {
    assert ParseChain(NOT_OLDER, End) == NOT_OLDER;
  }

  lemma EvalAccepts(row: Row, values: Row, now: int)
    requires Typed(row) && Offer(values)
    ensures Eval(AcceptsNewer(), row, values, now) == Truth(Accepts(row, values))
  {
    GuardShape();
    assert Eval(HAS_NO_TIME, row, values, now) == Truth(Eval(Column(LastFaultAt), row, values, now).Null?);
    assert Eval(NOT_OLDER, row, values, now) == ApplyBinary(Ge, Get(values, LastFaultAt), Get(row, LastFaultAt));
  }

  lemma EvalFaultText(e: Expr, row: Row, values: Row, now: int)
    requires Eval(e, row, values, now).Null? || Eval(e, row, values, now).Str?
    ensures (Eval(FaultText(e), row, values, now) == Str("0")) <==> !IsFaultValue(Eval(e, row, values, now))
    ensures Eval(FaultText(e), row, values, now).Str?
  {
    var v := Eval(e, row, values, now);
    var trimmed := ApplyUnary(Trim, v);
    assert Eval(Unary(Trim, e), row, values, now) == trimmed;
    var blank := Binary(NullIf, Unary(Trim, e), Literal(Str("")));
    assert Eval(blank, row, values, now) == ApplyBinary(NullIf, trimmed, Str(""));
    assert Eval(FaultText(e), row, values, now) == ApplyBinary(Coalesce, Eval(blank, row, values, now), Str("0"));
  }

  lemma EvalEdge(row: Row, values: Row, now: int)
    requires Typed(row) && Get(values, TagValue).Str?
    ensures Eval(WAS_NOT_FAULT, row, values, now) == Truth(!IsFaultValue(Get(row, TagValue)))
    ensures Eval(IS_FAULT, row, values, now) == Truth(IsFaultValue(Get(values, TagValue)))
  {
    EvalFaultText(Column(TagValue), row, values, now);
    EvalFaultText(Values(TagValue), row, values, now);
  }

  /** The precedence of the spliced text: the timestamp test of a missing time stands alone. */
  lemma CountConditionShape()
    ensures CountCondition(Intended) == Binary(And, Binary(And, AcceptsNewer(), WAS_NOT_FAULT), IS_FAULT)
    ensures CountCondition(AsWritten) == Binary(Or, HAS_NO_TIME,
      Binary(And, Binary(And, NOT_OLDER, WAS_NOT_FAULT), IS_FAULT))
  {
    var last := Link(AND, IS_FAULT, End);
    assert ParseChain(Binary(And, Binary(And, AcceptsNewer(), WAS_NOT_FAULT), IS_FAULT), End)
        == Binary(And, Binary(And, AcceptsNewer(), WAS_NOT_FAULT), IS_FAULT);
    assert ParseChain(Binary(And, AcceptsNewer(), WAS_NOT_FAULT), last)
        == Binary(And, Binary(And, AcceptsNewer(), WAS_NOT_FAULT), IS_FAULT);
    var tail := Binary(And, Binary(And, NOT_OLDER, WAS_NOT_FAULT), IS_FAULT);
    assert ParseChain(tail, End) == tail;
    assert ParseChain(Binary(And, NOT_OLDER, WAS_NOT_FAULT), last) == tail;
    assert ParseChain(NOT_OLDER, Link(AND, WAS_NOT_FAULT, last)) == tail;
  }

  lemma EvalCount(g: Grouping, row: Row, values: Row, now: int)
    requires Typed(row) && Offer(values)
    ensures Eval(CountCondition(g), row, values, now) == Truth(true) <==> Counts(g, row, values)
  {
    CountConditionShape();
    EvalEdge(row, values, now);
    EvalAccepts(row, values, now);
    if g == Intended {
      var inner := Binary(And, AcceptsNewer(), WAS_NOT_FAULT);
      assert Eval(inner, row, values, now)
          == ApplyBinary(And, Eval(AcceptsNewer(), row, values, now), Eval(WAS_NOT_FAULT, row, values, now));
    } else {
      var inner := Binary(And, NOT_OLDER, WAS_NOT_FAULT);
      var ge := ApplyBinary(Ge, Get(values, LastFaultAt), Get(row, LastFaultAt));
      assert Eval(NOT_OLDER, row, values, now) == ge;
      assert Eval(inner, row, values, now) == ApplyBinary(And, ge, Eval(WAS_NOT_FAULT, row, values, now));
      assert Eval(HAS_NO_TIME, row, values, now) == Truth(Get(row, LastFaultAt).Null?);
      assert Eval(Binary(And, inner, IS_FAULT), row, values, now)
          == ApplyBinary(And, Eval(inner, row, values, now), Eval(IS_FAULT, row, values, now));
    }
  }

  lemma BinaryMentions(op: BinaryOp, a: Expr, b: Expr, d: Col)
    ensures Mentions(Binary(op, a, b), d) <==> Mentions(a, d) || Mentions(b, d)
  {
  }

  lemma IfMentions(cond: Expr, thn: Expr, els: Expr, d: Col)
    ensures Mentions(If(cond, thn, els), d) <==> Mentions(cond, d) || Mentions(thn, d) || Mentions(els, d)
  {
  }

  lemma LeafMentions(c: Col, d: Col)
    ensures Mentions(Column(c), d) <==> c == d
    ensures !Mentions(Values(c), d)
    ensures Mentions(HAS_NO_TIME, d) <==> d == LastFaultAt
    ensures Mentions(NOT_OLDER, d) <==> d == LastFaultAt
  {
  }

  lemma AcceptsMentions(d: Col)
    ensures Mentions(AcceptsNewer(), d) <==> d == LastFaultAt
  {
    GuardShape();
    LeafMentions(LastFaultAt, d);
    BinaryMentions(Or, HAS_NO_TIME, NOT_OLDER, d);
  }

  lemma GuardMentions(c: Col, d: Col)
    ensures Mentions(Guarded(c).expr, d) <==> d == LastFaultAt || d == c
  {
    AcceptsMentions(d);
    LeafMentions(c, d);
    IfMentions(AcceptsNewer(), Values(c), Column(c), d);
  }

  lemma FaultTextMentions(e: Expr, d: Col)
    ensures Mentions(FaultText(e), d) <==> Mentions(e, d)
  {
    var blank := Binary(NullIf, Unary(Trim, e), Literal(Str("")));
    assert Mentions(blank, d) == (Mentions(Unary(Trim, e), d) || Mentions(Literal(Str("")), d));
    BinaryMentions(Coalesce, blank, Literal(Str("0")), d);
  }

  lemma EdgeMentions(d: Col)
    ensures Mentions(WAS_NOT_FAULT, d) <==> d == TagValue
    ensures !Mentions(IS_FAULT, d)
  {
    FaultTextMentions(Column(TagValue), d);
    FaultTextMentions(Values(TagValue), d);
    BinaryMentions(Eq, FaultText(Column(TagValue)), Literal(Str("0")), d);
    BinaryMentions(Ne, FaultText(Values(TagValue)), Literal(Str("0")), d);
  }

  lemma ConditionMentions(g: Grouping, d: Col)
    ensures Mentions(CountCondition(g), d) ==> d == LastFaultAt || d == TagValue
  {
    CountConditionShape();
    AcceptsMentions(d);
    EdgeMentions(d);
    LeafMentions(LastFaultAt, d);
    BinaryMentions(And, AcceptsNewer(), WAS_NOT_FAULT, d);
    BinaryMentions(And, Binary(And, AcceptsNewer(), WAS_NOT_FAULT), IS_FAULT, d);
    BinaryMentions(And, NOT_OLDER, WAS_NOT_FAULT, d);
    BinaryMentions(And, Binary(And, NOT_OLDER, WAS_NOT_FAULT), IS_FAULT, d);
    BinaryMentions(Or, HAS_NO_TIME, Binary(And, Binary(And, NOT_OLDER, WAS_NOT_FAULT), IS_FAULT), d);
  }

  lemma CountMentions(g: Grouping, d: Col)
    ensures Mentions(CountAssign(g).expr, d) ==> d == LastFaultAt || d == TagValue || d == FaultCount
  {
    ConditionMentions(g, d);
    LeafMentions(FaultCount, d);
    IfMentions(CountCondition(g), Unary(Increment, Column(FaultCount)), Column(FaultCount), d);
  }

  lemma EvalGuarded(c: Col, row: Row, values: Row, now: int)
    requires Typed(row) && Offer(values)
    ensures Eval(Guarded(c).expr, row, values, now) == if Accepts(row, values) then Get(values, c) else Get(row, c)
  {
    EvalAccepts(row, values, now);
    assert Eval(Values(c), row, values, now) == Get(values, c) && Eval(Column(c), row, values, now) == Get(row, c);
  }

  lemma EvalTouch(row: Row, values: Row, now: int)
    requires Typed(row) && Offer(values)
    ensures Eval(TOUCH.expr, row, values, now) == if Accepts(row, values) then Num(now) else Get(row, UpdatedAt)
  {
    EvalAccepts(row, values, now);
  }

  function CountAfter(g: Grouping, row: Row, values: Row): Val
    requires Get(row, FaultCount).Num?
  {
    Num(Get(row, FaultCount).num + if Counts(g, row, values) then 1 else 0)
  }

  lemma EvalCountAssign(g: Grouping, row: Row, values: Row, now: int)
    requires Typed(row) && Offer(values)
    ensures Eval(CountAssign(g).expr, row, values, now) == CountAfter(g, row, values)
  {
    EvalCount(g, row, values, now);
    assert Eval(Column(FaultCount), row, values, now) == Get(row, FaultCount);
    assert Eval(Unary(Increment, Column(FaultCount)), row, values, now) == Num(Get(row, FaultCount).num + 1);
  }

  lemma RunOne(a: Assign, row: Row, values: Row, now: int)
    ensures RunInOrder([a], row, values, now) == row[a.col := Eval(a.expr, row, values, now)]
  {
    assert [a][1..] == [];
  }

  /** A stretch of guarded assignments that does not replace the timestamp, seen at column `c`. */
  lemma {:induction false} GuardMeaning(cols: seq<Col>, c: Col, row: Row, values: Row, now: int)
    requires Typed(row) && Offer(values) && LastFaultAt !in cols && FaultCount !in cols
    ensures Get(RunInOrder(GuardAll(cols), row, values, now), c)
         == if c in cols && Accepts(row, values) then Get(values, c) else Get(row, c)
    decreases |cols|
  {
    hide Eval, AcceptsNewer, ApplyBinary;
    if cols != [] {
      assert GuardAll(cols)[1..] == GuardAll(cols[1..]);
      EvalGuarded(cols[0], row, values, now);
      var next := row[cols[0] := Eval(Guarded(cols[0]).expr, row, values, now)];
      AcceptsByTime(next, row, values);
      GuardMeaning(cols[1..], c, next, values, now);
    }
  }

  lemma GuardKeeps(cols: seq<Col>, row: Row, values: Row, now: int)
    requires Typed(row) && Offer(values) && LastFaultAt !in cols && FaultCount !in cols
    ensures var r := RunInOrder(GuardAll(cols), row, values, now);
      && Typed(r) && Get(r, LastFaultAt) == Get(row, LastFaultAt) && Get(r, FaultCount) == Get(row, FaultCount)
      && (TagValue !in cols ==> Get(r, TagValue) == Get(row, TagValue))
  {
    GuardMeaning(cols, LastFaultAt, row, values, now);
    GuardMeaning(cols, FaultCount, row, values, now);
    GuardMeaning(cols, TagValue, row, values, now);
  }

  lemma AcceptsByTime(a: Row, b: Row, values: Row)
    ensures Get(a, LastFaultAt) == Get(b, LastFaultAt) ==> (Accepts(a, values) <==> Accepts(b, values))
  {
  }

  /** Running two stretches with one assignment after each. */
  lemma RunChain(p: seq<Assign>, a: Assign, q: seq<Assign>, b: Assign, row: Row, values: Row, now: int)
    ensures var r1 := RunInOrder(p, row, values, now);
      var r2 := r1[a.col := Eval(a.expr, r1, values, now)];
      var r3 := RunInOrder(q, r2, values, now);
      RunInOrder(p + [a] + (q + [b]), row, values, now) == r3[b.col := Eval(b.expr, r3, values, now)]
  {
    var r1 := RunInOrder(p, row, values, now);
    RunInOrderAppend(p + [a], q + [b], row, values, now);
    RunInOrderAppend(p, [a], row, values, now);
    RunOne(a, r1, values, now);
    var r2 := RunInOrder([a], r1, values, now);
    RunInOrderAppend(q, [b], r2, values, now);
    RunOne(b, RunInOrder(q, r2, values, now), values, now);
  }

  /** The columns the conditions look at are those of `row`. */
  ghost predicate SameInputs(r: Row, row: Row) {
    && Get(r, LastFaultAt) == Get(row, LastFaultAt)
    && Get(r, FaultCount) == Get(row, FaultCount)
    && Get(r, TagValue) == Get(row, TagValue)
  }

  /** The row after two guarded stretches, an assignment `count` and an assignment `stamp`, seen at `c`. */
  lemma StretchMeaning(before: seq<Col>, count: Assign, newCount: int, after: seq<Col>, stamp: Assign, newTime: Val,
                       c: Col, row: Row, values: Row, now: int)
    requires Typed(row) && Offer(values) && count.col == FaultCount && stamp.col == LastFaultAt
    requires forall r :: SameInputs(r, row) ==> Eval(count.expr, r, values, now) == Num(newCount)
    requires forall r :: Typed(r) && Get(r, LastFaultAt) == Get(row, LastFaultAt) ==>
      Eval(stamp.expr, r, values, now) == newTime
    requires LastFaultAt !in before && LastFaultAt !in after && FaultCount !in before && FaultCount !in after
    requires TagValue !in before
    ensures var r := RunInOrder(GuardAll(before) + [count] + (GuardAll(after) + [stamp]), row, values, now);
      Get(r, c) == if c == FaultCount then Num(newCount)
                   else if c == LastFaultAt then newTime
                   else if (c in before || c in after) && Accepts(row, values) then Get(values, c)
                   else Get(row, c)
  {
    hide Eval, RunInOrder, GuardAll, ApplyBinary;
    var r1 := RunInOrder(GuardAll(before), row, values, now);
    GuardKeeps(before, row, values, now);
    GuardMeaning(before, c, row, values, now);
    assert SameInputs(r1, row);
    var r2 := r1[count.col := Eval(count.expr, r1, values, now)];
    AcceptsByTime(row, r2, values);
    hide Accepts;
    assert Get(r2, FaultCount) == Num(newCount);
    var r3 := RunInOrder(GuardAll(after), r2, values, now);
    GuardKeeps(after, r2, values, now);
    GuardMeaning(after, c, r2, values, now);
    RunChain(GuardAll(before), count, GuardAll(after), stamp, row, values, now);
  }

  /** The columns a newer sample takes over. */
  predicate IsCopied(l: Layout, c: Col) {
    c in l.before || c in l.after || c == LastFaultAt
  }

  /** A column of the row before `updated_at` is assigned. */
  function BodyColumn(g: Grouping, l: Layout, c: Col, row: Row, values: Row): Val
    requires Get(row, FaultCount).Num?
  {
    if c == FaultCount then CountAfter(g, row, values)
    else if IsCopied(l, c) && Accepts(row, values) then Get(values, c)
    else Get(row, c)
  }

  lemma CountInputs(g: Grouping, row: Row, values: Row, now: int)
    requires Typed(row) && Offer(values)
    ensures forall r :: SameInputs(r, row) ==> Eval(CountAssign(g).expr, r, values, now) == CountAfter(g, row, values)
  {
    forall r | SameInputs(r, row) ensures Eval(CountAssign(g).expr, r, values, now) == CountAfter(g, row, values) {
      EvalCountAssign(g, r, values, now);
    }
  }

  lemma StampInputs(row: Row, values: Row, now: int)
    requires Typed(row) && Offer(values)
    ensures forall r :: Typed(r) && Get(r, LastFaultAt) == Get(row, LastFaultAt) ==>
              Eval(Guarded(LastFaultAt).expr, r, values, now)
              == if Accepts(row, values) then Get(values, LastFaultAt) else Get(row, LastFaultAt)
  {
    forall r | Typed(r) && Get(r, LastFaultAt) == Get(row, LastFaultAt)
      ensures Eval(Guarded(LastFaultAt).expr, r, values, now)
           == if Accepts(row, values) then Get(values, LastFaultAt) else Get(row, LastFaultAt)
    {
      EvalGuarded(LastFaultAt, r, values, now);
    }
  }

  lemma BodyMeaning(g: Grouping, l: Layout, c: Col, row: Row, values: Row, now: int)
    requires l.Valid() && Typed(row) && Offer(values)
    ensures Get(RunInOrder(UpsertBody(g, l), row, values, now), c) == BodyColumn(g, l, c, row, values)
  {
    l.Facts();
    CountInputs(g, row, values, now);
    StampInputs(row, values, now);
    StretchMeaning(l.before, CountAssign(g), CountAfter(g, row, values).num, l.after, Guarded(LastFaultAt),
                   if Accepts(row, values) then Get(values, LastFaultAt)
                       else Get(row, LastFaultAt), c, row, values, now);
  }

  /** The guard of `updated_at` has the same value before and after `last_fault_at` is replaced. */
  lemma TouchSeesTheSame(g: Grouping, l: Layout, row: Row, values: Row, now: int)
    requires l.Valid() && Typed(row) && Offer(values)
    ensures Eval(TOUCH.expr, RunInOrder(UpsertBody(g, l), row, values, now), values, now)
      == Eval(TOUCH.expr, row, values, now)
    ensures Eval(TOUCH.expr, row, values, now) == if Accepts(row, values) then Num(now) else Get(row, UpdatedAt)
  {
    hide Eval, RunInOrder, UpsertBody;
    l.Facts();
    var mid := RunInOrder(UpsertBody(g, l), row, values, now);
    BodyMeaning(g, l, LastFaultAt, row, values, now);
    BodyMeaning(g, l, TagValue, row, values, now);
    BodyMeaning(g, l, FaultCount, row, values, now);
    BodyMeaning(g, l, UpdatedAt, row, values, now);
    EvalTouch(row, values, now);
    EvalTouch(mid, values, now);
  }

  /** What one accepted or rejected sample does to an existing row, column by column. */
  lemma UpsertMeaning(g: Grouping, l: Layout, row: Row, values: Row, now: int)
    requires l.Valid() && Typed(row) && Offer(values)
    ensures var r := RunInOrder(UpsertProgram(g, l), row, values, now);
      && (forall c :: c != UpdatedAt ==> Get(r, c) == BodyColumn(g, l, c, row, values))
      && Get(r, UpdatedAt) == (if Accepts(row, values) then Num(now) else Get(row, UpdatedAt))
  {
    TouchSeesTheSame(g, l, row, values, now);
    FinishWithTouch(UpsertBody(g, l), TOUCH, row, values, now);
    var r := RunInOrder(UpsertProgram(g, l), row, values, now);
    forall c | c != UpdatedAt ensures Get(r, c) == BodyColumn(g, l, c, row, values) {
      BodyMeaning(g, l, c, row, values, now);
    }
  }

  lemma FinishWithTouch(body: seq<Assign>, touch: Assign, row: Row, values: Row, now: int)
    ensures var mid := RunInOrder(body, row, values, now);
      RunInOrder(body + [touch], row, values, now) == mid[touch.col := Eval(touch.expr, mid, values, now)]
  {
    RunInOrderAppend(body, [touch], row, values, now);
    RunOne(touch, RunInOrder(body, row, values, now), values, now);
  }

  /** All right-hand sides but the last are independent of the assignments before them. */
  lemma StretchIndependent(g: Grouping, before: seq<Col>, after: seq<Col>, p: seq<Assign>)
    requires p == GuardAll(before) + [CountAssign(g)] + (GuardAll(after) + [Guarded(LastFaultAt)])
    requires LastFaultAt !in before + after && FaultCount !in before + after && TagValue !in before
    requires forall i, j :: 0 <= i < j < |before + after| ==> (before + after)[i] != (before + after)[j]
    ensures Independent(p)
  {
    var n := |before|;
    forall i, j | 0 <= i < j < |p| ensures !Mentions(p[j].expr, p[i].col) {
      TargetsApart(before, after, CountAssign(g), p, i, j);
      if j == n {
        CountMentions(g, p[i].col);
      } else {
        GuardMentions(p[j].col, p[i].col);
      }
    }
  }

  lemma TargetAt(before: seq<Col>, after: seq<Col>, count: Assign, p: seq<Assign>, i: nat)
    requires p == GuardAll(before) + [count] + (GuardAll(after) + [Guarded(LastFaultAt)]) && i < |p|
    ensures |p| == |before| + |after| + 2
    ensures i < |before| ==> p[i] == Guarded((before + after)[i])
    ensures i == |before| ==> p[i] == count
    ensures |before| < i < |p| - 1 ==> p[i] == Guarded((before + after)[i - 1])
    ensures i == |p| - 1 ==> p[i] == Guarded(LastFaultAt)
  {
    hide Guarded;
  }

  lemma TargetsApart(before: seq<Col>, after: seq<Col>, count: Assign, p: seq<Assign>, i: nat, j: nat)
    requires p == GuardAll(before) + [count] + (GuardAll(after) + [Guarded(LastFaultAt)]) && count.col == FaultCount
    requires LastFaultAt !in before + after && FaultCount !in before + after
    requires forall i, j :: 0 <= i < j < |before + after| ==> (before + after)[i] != (before + after)[j]
    requires i < j < |p|
    ensures p[i].col != p[j].col && p[i].col != LastFaultAt
    ensures j != |before| ==> p[j] == Guarded(p[j].col)
    ensures j == |before| ==> p[j] == count && p[i].col in before
  {
    hide GuardAll, AcceptsNewer;
    TargetAt(before, after, count, p, i);
    TargetAt(before, after, count, p, j);
    assert i < |before| ==> (before + after)[i] == before[i];
  }

  /**
   The whole clause equals one simultaneous update from the old row, although the guard of `updated_at`
   reads the `last_fault_at` that was just replaced.
   */
  lemma UpsertIsSimultaneous(g: Grouping, l: Layout, row: Row, values: Row, now: int)
    requires l.Valid() && Typed(row) && Offer(values)
    ensures RunInOrder(UpsertProgram(g, l), row, values, now) == RunAtOnce(UpsertProgram(g, l), row, values, now)
  {
    l.Facts();
    StretchIndependent(g, l.before, l.after, UpsertBody(g, l));
    TouchSeesTheSame(g, l, row, values, now);
    LastSeesTheSame(UpsertBody(g, l), TOUCH, row, values, now);
  }

  /** An independent body, then an assignment whose value the body does not change. */
  lemma LastSeesTheSame(body: seq<Assign>, last: Assign, row: Row, values: Row, now: int)
    requires Independent(body)
    requires Eval(last.expr, RunInOrder(body, row, values, now), values, now) == Eval(last.expr, row, values, now)
    ensures RunInOrder(body + [last], row, values, now) == RunAtOnce(body + [last], row, values, now)
  {
    OrderInvisible(body, row, values, now);
    FinishWithTouch(body, last, row, values, now);
    AtOnceSnoc(body, last, row, values, now);
  }

  lemma AtOnceSnoc(p: seq<Assign>, a: Assign, row: Row, values: Row, now: int)
    ensures RunAtOnce(p + [a], row, values, now)
      == RunAtOnce(p, row, values, now)[a.col := Eval(a.expr, row, values, now)]
  {
    assert (p + [a])[..|p + [a]| - 1] == p;
  }

  /** The clause with the `tag_value` assignment moved in front of the `fault_count` one. */
  function ValueFirst(): seq<Assign> {
    [Guarded(TagValue), CountAssign(Intended)]
  }

  /**
   `fault_count` must read the old `tag_value`: with `tag_value` assigned first, the count stays put on
   every row, so it misses exactly the rows that should have been counted.
   */
  lemma ValueFirstNeverCounts(l: Layout, row: Row, values: Row, now: int)
    requires l.Valid() && Typed(row) && Offer(values)
    ensures Get(RunInOrder(ValueFirst(), row, values, now), FaultCount) == Get(row, FaultCount)
    ensures (Get(RunInOrder(ValueFirst(), row, values, now), FaultCount)
             != Get(RunInOrder(UpsertProgram(Intended, l), row, values, now), FaultCount))
            <==> Counts(Intended, row, values)
  {
    var value, count := Guarded(TagValue), CountAssign(Intended);
    RunTwo(value, count, row, values, now);
    EvalGuarded(TagValue, row, values, now);
    var mid := row[TagValue := Eval(value.expr, row, values, now)];
    EvalCountAssign(Intended, mid, values, now);
    assert !Counts(Intended, mid, values);
    UpsertMeaning(Intended, l, row, values, now);
  }

  lemma RunTwo(a: Assign, b: Assign, row: Row, values: Row, now: int)
    ensures var mid := row[a.col := Eval(a.expr, row, values, now)];
      RunInOrder([a, b], row, values, now) == mid[b.col := Eval(b.expr, mid, values, now)]
  {
    assert [a, b] == [a] + [b];
    RunInOrderAppend([a], [b], row, values, now);
    RunOne(a, row, values, now);
    RunOne(b, row[a.col := Eval(a.expr, row, values, now)], values, now);
  }

  lemma {:induction false} CopyMeaning(cols: seq<Col>, row: Row, values: Row, now: int)
    ensures forall c :: Get(RunInOrder(CopyAll(cols), row, values, now), c) == if c in cols then Get(values, c)
      else Get(row, c)
    decreases |cols|
  {
    if cols != [] {
      assert CopyAll(cols)[1..] == CopyAll(cols[1..]);
      CopyMeaning(cols[1..], row[cols[0] := Get(values, cols[0])], values, now);
    }
  }

  /** A seed replaces its columns and nothing else. */
  lemma SeedMeaning(cols: seq<Col>, row: Row, values: Row, now: int)
    ensures var r := RunInOrder(SeedProgram(cols), row, values, now);
      forall c :: Get(r, c) == if c in cols then Get(values, c) else Get(row, c)
  {
    CopyMeaning(cols, row, values, now);
  }

  lemma EvalWcsCount(row: Row, values: Row, now: int)
    requires Typed(row) && Offer(values)
    ensures Eval(WCS_COUNT.expr, row, values, now) == Num(Get(row, FaultCount).num
              + if !IsFaultValue(Get(row, TagValue)) && IsFaultValue(Get(values, TagValue)) then 1 else 0)
  {
    EvalEdge(row, values, now);
    assert Eval(Binary(And, WAS_NOT_FAULT, IS_FAULT), row, values, now)
        == ApplyBinary(And, Eval(WAS_NOT_FAULT, row, values, now), Eval(IS_FAULT, row, values, now));
    assert Eval(Column(FaultCount), row, values, now) == Get(row, FaultCount);
    assert Eval(Unary(Increment, Column(FaultCount)), row, values, now) == Num(Get(row, FaultCount).num + 1);
  }

  lemma WcsStretch(before: seq<Col>, after: seq<Col>, row: Row, values: Row, now: int)
    requires Typed(row) && Offer(values)
    requires forall c :: c in before || c in after ==> c != FaultCount && c != UpdatedAt
    requires TagValue !in before && LastFaultAt !in before
    ensures var r := RunInOrder(CopyAll(before) + [WCS_COUNT] + CopyAll(after)
      + [Assign(UpdatedAt, Now)], row, values, now);
      && (forall c :: c in before || c in after ==> Get(r, c) == Get(values, c))
      && Get(r, FaultCount) == Num(Get(row, FaultCount).num
           + if !IsFaultValue(Get(row, TagValue)) && IsFaultValue(Get(values, TagValue)) then 1 else 0)
      && Get(r, UpdatedAt) == Num(now)
  {
    hide RunInOrder, CopyAll, IsFaultValue, ApplyBinary;
    var r1 := RunInOrder(CopyAll(before), row, values, now);
    CopyMeaning(before, row, values, now);
    var r2 := RunInOrder([WCS_COUNT], r1, values, now);
    RunOne(WCS_COUNT, r1, values, now);
    EvalWcsCount(r1, values, now);
    var r3 := RunInOrder(CopyAll(after), r2, values, now);
    CopyMeaning(after, r2, values, now);
    RunOne(Assign(UpdatedAt, Now), r3, values, now);
    RunInOrderAppend(CopyAll(before) + [WCS_COUNT] + CopyAll(after), [Assign(UpdatedAt, Now)], row, values, now);
    RunInOrderAppend(CopyAll(before) + [WCS_COUNT], CopyAll(after), row, values, now);
    RunInOrderAppend(CopyAll(before), [WCS_COUNT], row, values, now);
  }

  /** The WCS clause: everything is replaced by the last arrival, and only edges are counted. */
  lemma WcsMeaning(l: Layout, row: Row, values: Row, now: int)
    requires l.Valid() && Typed(row) && Offer(values)
    ensures var r := RunInOrder(WcsProgram(l), row, values, now);
      && (forall c :: IsCopied(l, c) ==> Get(r, c) == Get(values, c))
      && Get(r, FaultCount) == Num(Get(row, FaultCount).num
           + if !IsFaultValue(Get(row, TagValue)) && IsFaultValue(Get(values, TagValue)) then 1 else 0)
      && Get(r, UpdatedAt) == Num(now)
  {
    l.Facts();
    WcsStretch(l.before, l.after + [LastFaultAt], row, values, now);
  }
}

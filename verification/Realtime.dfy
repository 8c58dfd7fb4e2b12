/**
 The realtime status table `device_realtime_status`.

 MySQL runs the assignments of an ON DUPLICATE KEY UPDATE clause from left to right, and every
 assignment sees what the earlier ones stored. The two clauses built in src/sink.rs and the one of the
 WCS procedure are written here as small programs over a row, with an interpreter for them, and the
 theorems are about what those programs do to a row over any order of arrivals.
 */
module RealtimeLanguage {
  import L = SqlLogic
  import T = Text

  /** The columns the three programs assign or read. `source_table` and `node_id` form the row's key. */
  datatype Col =
    | SourceSystem | SourceEventId | Location | DeviceType | DeviceId | ExternalDeviceCode | DeviceName
    | Alias | Tag | FaultType | FaultCode | FaultName | TagState | TagValue | FaultCount
    | Description | StatusDescription | LastFaultAt | UpdatedAt

  /** An SQL value; `Null` is also the unknown truth value. */
  datatype Val = Null | Str(text: string) | Num(num: int) | Truth(truth: bool)

  type Row = map<Col, Val>

  datatype UnaryOp = IsNull | Trim | Increment
  datatype BinaryOp = Ge | Eq | Ne | And | Or | Coalesce | NullIf

  datatype Expr =
    | Column(col: Col)           // `c`, the value stored so far
    | Values(col: Col)           // VALUES(`c`), the value offered by the INSERT
    | Literal(val: Val)
    | Now                        // CURRENT_TIMESTAMP(3)
    | Unary(uop: UnaryOp, arg: Expr)
    | Binary(bop: BinaryOp, left: Expr, right: Expr)
    | If(cond: Expr, thn: Expr, els: Expr)

  datatype Assign = Assign(col: Col, expr: Expr)

  function Get(row: Row, c: Col): Val {
    if c in row then row[c] else Null
  }

  function ApplyUnary(op: UnaryOp, a: Val): Val {
    match op
    case IsNull => Truth(a.Null?)
    case Trim => if a.Str? then Str(T.Trim(T.Spaces, a.text)) else a
    case Increment => if a.Num? then Num(a.num + 1) else Null
  }

  function ToTri(v: Val): L.Tri {
    if v.Truth? then L.ToTri(v.truth) else L.Unknown
  }

  function FromTri(t: L.Tri): Val {
    match t
    case True => Truth(true)
    case False => Truth(false)
    case Unknown => Null
  }

  /** Comparisons with NULL are unknown. */
  function ApplyBinary(op: BinaryOp, a: Val, b: Val): Val {
    match op
    case Ge => if a.Num? && b.Num? then Truth(a.num >= b.num) else Null
    case Eq => if a.Null? || b.Null? then Null else Truth(a == b)
    case Ne => if a.Null? || b.Null? then Null else Truth(a != b)
    case And => FromTri(L.And(ToTri(a), ToTri(b)))
    case Or => FromTri(L.Or(ToTri(a), ToTri(b)))
    case Coalesce => if a.Null? then b else a
    case NullIf => if !a.Null? && !b.Null? && a == b then Null else a
  }

  lemma NullCompares(op: BinaryOp, a: Val, b: Val)
    requires (op == Ge || op == Eq || op == Ne) && (a.Null? || b.Null?)
    ensures ApplyBinary(op, a, b).Null?
  {
  }

  /** The value of an expression while `row` is the row stored so far. */
  function Eval(e: Expr, row: Row, values: Row, now: int): Val {
    match e
    case Column(c) => Get(row, c)
    case Values(c) => Get(values, c)
    case Literal(v) => v
    case Now => Num(now)
    case Unary(op, a) => ApplyUnary(op, Eval(a, row, values, now))
    case Binary(op, a, b) => ApplyBinary(op, Eval(a, row, values, now), Eval(b, row, values, now))
    case If(c, t, f) =>
      if Eval(c, row, values, now) == Truth(true) then Eval(t, row, values, now) else Eval(f, row, values, now)
  }

  /** MySQL's reading: left to right, each assignment seeing the earlier ones. */
  function RunInOrder(program: seq<Assign>, row: Row, values: Row, now: int): Row
    decreases |program|
  {
    if program == [] then row
    else RunInOrder(program[1..], row[program[0].col := Eval(program[0].expr, row, values, now)], values, now)
  }

  /** The textbook reading: every right-hand side is evaluated on the old row. */
  function RunAtOnce(program: seq<Assign>, row: Row, values: Row, now: int): Row {
    if program == [] then row
    else
      var last := program[|program| - 1];
      RunAtOnce(program[..|program| - 1], row, values, now)[last.col := Eval(last.expr, row, values, now)]
  }

  /** Whether an expression depends on the stored value of a column. */
  predicate Mentions(e: Expr, c: Col) {
    match e
    case Column(d) => d == c
    case Values(_) => false
    case Literal(_) => false
    case Now => false
    case Unary(_, a) => Mentions(a, c)
    case Binary(_, a, b) => Mentions(a, c) || Mentions(b, c)
    case If(a, t, f) => Mentions(a, c) || Mentions(t, c) || Mentions(f, c)
  }

  lemma {:induction false} EvalMentioned(e: Expr, r: Row, r': Row, values: Row, now: int)
    requires forall c :: Mentions(e, c) ==> Get(r, c) == Get(r', c)
    ensures Eval(e, r, values, now) == Eval(e, r', values, now)
  {
    match e
    case Column(c) => assert Mentions(e, c);
    case Values(_) =>
    case Literal(_) =>
    case Now =>
    case Unary(_, a) =>
      assert forall c :: Mentions(a, c) ==> Mentions(e, c);
      EvalMentioned(a, r, r', values, now);
    case Binary(_, a, b) =>
      assert forall c :: Mentions(a, c) || Mentions(b, c) ==> Mentions(e, c);
      EvalMentioned(a, r, r', values, now);
      EvalMentioned(b, r, r', values, now);
    case If(c, t, f) =>
      assert forall d :: Mentions(c, d) || Mentions(t, d) || Mentions(f, d) ==> Mentions(e, d);
      EvalMentioned(c, r, r', values, now);
      EvalMentioned(t, r, r', values, now);
      EvalMentioned(f, r, r', values, now);
  }

  lemma {:induction false} RunInOrderAppend(p: seq<Assign>, q: seq<Assign>, row: Row, values: Row, now: int)
    ensures RunInOrder(p + q, row, values, now) == RunInOrder(q, RunInOrder(p, row, values, now), values, now)
    decreases |p|
  {
    if p == [] {
      assert p + q == q;
    } else {
      assert (p + q)[1..] == p[1..] + q;
      RunInOrderAppend(p[1..], q, row[p[0].col := Eval(p[0].expr, row, values, now)], values, now);
    }
  }

  /** No right-hand side reads a column that an earlier assignment replaced. */
  ghost predicate Independent(program: seq<Assign>) {
    forall i, j :: 0 <= i < j < |program| ==> !Mentions(program[j].expr, program[i].col)
  }

  /** For independent programs the order of assignments is invisible. */
  lemma {:induction false} OrderInvisible(program: seq<Assign>, row: Row, values: Row, now: int)
    requires Independent(program)
    ensures RunInOrder(program, row, values, now) == RunAtOnce(program, row, values, now)
    ensures forall c :: (forall i :: 0 <= i < |program| ==> program[i].col != c) ==>
              Get(RunInOrder(program, row, values, now), c) == Get(row, c)
  {
    if program == [] {
    } else {
      var n := |program| - 1;
      var init, last := program[..n], program[n];
      assert program == init + [last];
      OrderInvisible(init, row, values, now);
      RunInOrderAppend(init, [last], row, values, now);
      var mid := RunInOrder(init, row, values, now);
      forall c | Mentions(last.expr, c)
        ensures Get(mid, c) == Get(row, c)
      {
        forall i | 0 <= i < |init| ensures init[i].col != c {
          assert !Mentions(program[n].expr, program[i].col);
        }
      }
      EvalMentioned(last.expr, mid, row, values, now);
      forall c | forall i :: 0 <= i < |program| ==> program[i].col != c
        ensures Get(RunInOrder(program, row, values, now), c) == Get(row, c)
      {
        assert program[n].col != c;
        forall i | 0 <= i < |init| ensures init[i].col != c {
          assert program[i].col != c;
        }
        assert Get(mid, c) == Get(row, c);
      }
    }
  }
}

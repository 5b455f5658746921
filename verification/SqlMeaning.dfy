/** Three-valued SQL evaluation of WHERE expressions, and what a condition means. */
module SqlMeaning {
  import opened Values
  import opened SqlText

  datatype Truth = Yes | No | Unknown

  function Negate(a: Truth): Truth {
    match a case Yes => No case No => Yes case Unknown => Unknown
  }

  /** SQL's conjunction of any number of truth values, in no particular order. */
  function Conj(s: set<Truth>): Truth {
    if No in s then No else if Unknown in s then Unknown else Yes
  }

  function Disj(s: set<Truth>): Truth {
    if Yes in s then Yes else if Unknown in s then Unknown else No
  }

  function Of(b: bool): Truth { if b then Yes else No }

  /** A stored row. `id` tells apart rows with equal cells; a column without a cell reads NULL. */
  datatype Row = Row(id: nat, cells: map<string, Value>)

  function Cell(r: Row, col: string): Value { if col in r.cells then r.cells[col] else Null }

  function CellsOf(r: Row, cols: seq<string>): seq<Value> {
    seq(|cols|, i requires 0 <= i < |cols| => Cell(r, cols[i]))
  }

  /** The database's leaf predicates. `cmp` compares two non-NULL values as the column does, by its type and
      collation. */
  datatype Db = Db(
    cmp: (string, CmpOp, Value, Value) -> bool,
    contains: (Value, Value) -> Truth,
    hasKey: (Value, Value) -> Truth,
    opaquePred: (string, Row) -> Truth)

  /** A comparison with NULL on either side is unknown. */
  function Cmp(db: Db, col: string, op: CmpOp, a: Value, b: Value): Truth {
    if a.Null? || b.Null? then Unknown else Of(db.cmp(col, op, a, b))
  }

  function TupleEq(db: Db, cols: seq<string>, a: seq<Value>, b: seq<Value>): Truth
    requires |cols| == |a| == |b|
  {
    Conj(set i | 0 <= i < |a| :: Cmp(db, cols[i], Eq, a[i], b[i]))
  }

  /** SQL's row-value ">": the first differing column decides. */
  function TupleGreater(db: Db, cols: seq<string>, a: seq<Value>, b: seq<Value>): Truth
    requires |cols| == |a| == |b|
  {
    if a == [] then No
    else
      var c := cols[0];
      Disj({Cmp(db, c, Gt, a[0], b[0]),
             Conj({Cmp(db, c, Eq, a[0], b[0]), TupleGreater(db, cols[1..], a[1..], b[1..])})})
  }

  /** The first column decides, or ties and leaves it to the rest. */
  lemma TupleGreaterYes(db: Db, cols: seq<string>, a: seq<Value>, b: seq<Value>)
    requires |cols| == |a| == |b| > 0
    ensures TupleGreater(db, cols, a, b) == Yes <==>
            || Cmp(db, cols[0], Gt, a[0], b[0]) == Yes
            || (Cmp(db, cols[0], Eq, a[0], b[0]) == Yes && TupleGreater(db, cols[1..], a[1..], b[1..]) == Yes)
  {
  }

  function EvalPred(db: Db, p: Pred, r: Row): Truth {
    match p
    case Const(b) => Of(b)
    case Compare(c, op, v) => Cmp(db, c, op, Cell(r, c), v)
    case InList(c, vs) => Disj(set i | 0 <= i < |vs| :: Cmp(db, c, Eq, Cell(r, c), vs[i]))
    case IsNull(c) => Of(Cell(r, c).Null?)
    case RowGreater(cs, vs) => if |cs| == |vs| then TupleGreater(db, cs, CellsOf(r, cs), vs) else Unknown
    case RowIn(cs, tuples) =>
      Disj(set i | 0 <= i < |tuples| && |tuples[i]| == |cs| :: TupleEq(db, cs, CellsOf(r, cs), tuples[i]))
    case JsonContains(c, v) => db.contains(Cell(r, c), v)
    case JsonHasKey(c, v) => db.hasKey(Cell(r, c), v)
    case Opaque(text) => db.opaquePred(text, r)
  }

  function Eval(db: Db, e: Expr, r: Row): Truth {
    match e
    case Leaf(p) => EvalPred(db, p, r)
    case NotE(x) => Negate(Eval(db, x, r))
    case AndE(x, y) => Conj({Eval(db, x, r), Eval(db, y, r)})
    case OrE(x, y) => Disj({Eval(db, x, r), Eval(db, y, r)})
  }

  function Truths(db: Db, es: seq<Expr>, r: Row): set<Truth> { set i | 0 <= i < |es| :: Eval(db, es[i], r) }

  lemma {:induction false} EvalAndAll(db: Db, es: seq<Expr>, r: Row)
    requires es != []
    ensures Eval(db, AndAll(es), r) == Conj(Truths(db, es, r))
  {
    TruthsSplit(db, es, r);
    if |es| > 1 { EvalAndAll(db, es[1..], r); }
  }

  lemma {:induction false} EvalOrAll(db: Db, es: seq<Expr>, r: Row)
    requires es != []
    ensures Eval(db, OrAll(es), r) == Disj(Truths(db, es, r))
  {
    TruthsSplit(db, es, r);
    if |es| > 1 { EvalOrAll(db, es[1..], r); }
  }

  lemma TruthsSplit(db: Db, es: seq<Expr>, r: Row)
    requires es != []
    ensures Truths(db, es, r) == {Eval(db, es[0], r)} + Truths(db, es[1..], r)
  {
    forall t | t in Truths(db, es, r) ensures t in {Eval(db, es[0], r)} + Truths(db, es[1..], r) {
      var i :| 0 <= i < |es| && t == Eval(db, es[i], r);
      if i > 0 { assert t == Eval(db, es[1..][i - 1], r); }
    }
    forall t | t in Truths(db, es[1..], r) ensures t in Truths(db, es, r) {
      var i :| 0 <= i < |es[1..]| && t == Eval(db, es[1..][i], r);
      assert t == Eval(db, es[i + 1], r);
    }
  }

  // ----- what a condition means -----

  /** Bound and parsed, the condition's text is the whole expression e. */
  predicate Parses(c: Condition, e: Expr) { Aligned(c) && Complete(BoundText(c), e) }

  /** Bound and parsed, the condition's text is an operand of AND/OR. */
  predicate ParsesAsUnit(c: Condition, e: Expr) { Aligned(c) && Unit(BoundText(c), e) }

  /** The text a parse leaves over, if it succeeds. */
  function LeftOver(p: Parse): Option<Text> { match p case Fail => None case Done(_, rest) => Some(rest) }

  /** The database accepts the condition's text: its placeholders are all bound and it parses to the end. */
  predicate WellFormed(c: Condition) { LeftOver(if Aligned(c) then ParseOr(BoundText(c)) else Fail) == Some([]) }

  function Meaning(c: Condition): (e: Expr)
    requires WellFormed(c)
    ensures Parses(c, e)
  {
    ParseOr(BoundText(c)).e
  }

  /** The row is selected: WHERE keeps exactly the rows whose condition is true. */
  predicate Holds(db: Db, c: Condition, r: Row)
    requires WellFormed(c)
  {
    Eval(db, Meaning(c), r) == Yes
  }

  function Selected(db: Db, table: set<Row>, c: Condition): set<Row>
    requires WellFormed(c)
  {
    set r | r in table && Holds(db, c, r)
  }

  /** A condition that reads as one operand is a whole expression with the same meaning. */
  lemma UnitIsWhole(c: Condition, e: Expr)
    requires ParsesAsUnit(c, e)
    ensures WellFormed(c) && Meaning(c) == e
  {
    assert ParseNot(BoundText(c)) == Done(e, []);
    assert ParseAnd(BoundText(c)) == Done(e, []);
    assert ParseOr(BoundText(c)) == Done(e, []);
  }
}

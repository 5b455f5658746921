/** The compiler from nested bool_exp values to WHERE text plus arguments. */
module WhereCompiler {
  import opened Values
  import opened Catalog
  import opened SqlText
  import opened SqlMeaning

  // ----- reference semantics of a bool_exp -----

  /** An entry restricts rows unless it is null or an empty _and/_or list. */
  predicate Restricts(key: string, v: Value) {
    !v.Null? && !((key == "_and" || key == "_or") && v.List? && v.items == [])
  }

  /** The truth value of a bool_exp on a row: all its entries hold, whatever their order. */
  ghost function TreeTruth(db: Db, ti: TableInfo, e: Value, r: Row): Truth
    decreases e, 0
  {
    if !e.Obj? then Unknown
    else Conj(set k | k in e.fields && Restricts(k, e.fields[k]) :: EntryTruth(db, ti, k, e.fields[k], r))
  }

  ghost function EntryTruth(db: Db, ti: TableInfo, key: string, v: Value, r: Row): Truth
    decreases v, 1
  {
    if key == "_and" && v.List? then Conj(set i | 0 <= i < |v.items| :: TreeTruth(db, ti, v.items[i], r))
    else if key == "_or" && v.List? then Disj(set i | 0 <= i < |v.items| :: TreeTruth(db, ti, v.items[i], r))
    else if key == "_not" then Negate(TreeTruth(db, ti, v, r))
    else if key in ti.fieldToCol && v.Obj? then
      var col := ti.fieldToCol[key];
      Conj(set op | op in v.fields :: OperatorTruth(db, ti, col, op, v.fields[op], r))
    else Unknown
  }

  /** What one operator says about a cell. An _in list is a disjunction of equalities (so the
      empty list is false) and _nin is its negation (so the empty list is true). */
  ghost function OperatorTruth(db: Db, ti: TableInfo, col: Column, op: string, v: Value, r: Row): Truth {
    var cell := Cell(r, col.name);
    var x := BindValue(ti, col, v);
    match op
    case "_eq" => Cmp(db, col.name, Eq, cell, x)
    case "_neq" => Negate(Cmp(db, col.name, Eq, cell, x))
    case "_gt" => Cmp(db, col.name, Gt, cell, x)
    case "_gte" => Cmp(db, col.name, Gte, cell, x)
    case "_lt" => Cmp(db, col.name, Lt, cell, x)
    case "_lte" => Cmp(db, col.name, Lte, cell, x)
    case "_like" => Cmp(db, col.name, LikeOp, cell, x)
    case "_nlike" => Negate(Cmp(db, col.name, LikeOp, cell, x))
    case "_regex" => Cmp(db, col.name, RegexpOp, cell, x)
    case "_nregex" => Negate(Cmp(db, col.name, RegexpOp, cell, x))
    case "_in" => if v.List? then MemberTruth(db, ti, col, v.items, r) else Unknown
    case "_nin" => if v.List? then Negate(MemberTruth(db, ti, col, v.items, r)) else Unknown
    case "_is_null" => if v == Bool(true) then Of(cell.Null?) else Of(!cell.Null?)
    case "_contains" => db.contains(cell, x)
    case "_has_key" => db.hasKey(cell, v)
    case _ => Unknown
  }

  ghost function MemberTruth(db: Db, ti: TableInfo, col: Column, items: seq<Value>, r: Row): Truth {
    Disj(set i | 0 <= i < |items| :: Cmp(db, col.name, Eq, Cell(r, col.name), BindValue(ti, col, items[i])))
  }

  // ----- which bool_exps are accepted -----

  ghost predicate Accepted(ti: TableInfo, e: Value)
    decreases e, 0
  {
    e.Obj? && forall k | k in e.fields :: EntryAccepted(ti, k, e.fields[k])
  }

  ghost predicate EntryAccepted(ti: TableInfo, key: string, v: Value)
    decreases v, 1
  {
    if v.Null? then true
    else if key == "_and" || key == "_or" then v.List? && forall i | 0 <= i < |v.items| :: Accepted(ti, v.items[i])
    else if key == "_not" then Accepted(ti, v)
    else FieldReadable(ti, key) && v.Obj? && OperatorsAccepted(v.fields, v.fields.Keys)
  }

  ghost predicate OperatorsAccepted(ops: map<string, Value>, some: set<string>)
    requires some <= ops.Keys
  {
    forall op :: op in some ==> OperatorAccepted(op, ops[op])
  }

  predicate OperatorAccepted(op: string, v: Value) {
    if BinaryTemplate(op).Some? then !v.Null?
    else match op
      case "_in" => v.List?
      case "_nin" => v.List?
      case "_is_null" => v.Bool?
      case "_contains" => true
      case "_has_key" => v.Str?
      case _ => false
  }

  // ----- units: conditions that stand as operands of AND/OR -----

  predicate IsUnit(c: Condition) { LeftOver(if Aligned(c) then ParseNot(BoundText(c)) else Fail) == Some([]) }

  lemma UnitReads(c: Condition, e: Expr)
    requires ParsesAsUnit(c, e)
    ensures IsUnit(c) && UnitMeaning(c) == e
  {}

  function UnitMeaning(c: Condition): Expr { if IsUnit(c) then ParseNot(BoundText(c)).e else Leaf(Const(false)) }

  ghost function UnitTruths(db: Db, cs: seq<Condition>, r: Row): set<Truth> {
    set i | 0 <= i < |cs| :: Eval(db, UnitMeaning(cs[i]), r)
  }

  predicate AllUnits(cs: seq<Condition>) { forall i :: 0 <= i < |cs| ==> IsUnit(cs[i]) }

  lemma UnitTruthsConcat(db: Db, cs: seq<Condition>, ds: seq<Condition>, r: Row)
    ensures UnitTruths(db, cs + ds, r) == UnitTruths(db, cs, r) + UnitTruths(db, ds, r)
  {
    var both := cs + ds;
    forall t | t in UnitTruths(db, cs, r) ensures t in UnitTruths(db, both, r) {
      var i :| 0 <= i < |cs| && t == Eval(db, UnitMeaning(cs[i]), r);
      assert t == Eval(db, UnitMeaning(both[i]), r);
    }
    forall t | t in UnitTruths(db, ds, r) ensures t in UnitTruths(db, both, r) {
      var i :| 0 <= i < |ds| && t == Eval(db, UnitMeaning(ds[i]), r);
      assert t == Eval(db, UnitMeaning(both[|cs| + i]), r);
    }
  }

  lemma SingleUnit(db: Db, c: Condition, r: Row)
    ensures Conj(UnitTruths(db, [c], r)) == Eval(db, UnitMeaning(c), r)
  {
    assert UnitTruths(db, [c], r) == {Eval(db, UnitMeaning([c][0]), r)};
  }

  function Meanings(cs: seq<Condition>): seq<Expr> {
    seq(|cs|, i requires 0 <= i < |cs| => UnitMeaning(cs[i]))
  }

  lemma TruthsOfMeanings(db: Db, cs: seq<Condition>, r: Row)
    ensures Truths(db, Meanings(cs), r) == UnitTruths(db, cs, r)
  {
    var es := Meanings(cs);
    forall t | t in UnitTruths(db, cs, r) ensures t in Truths(db, es, r) {
      var i :| 0 <= i < |cs| && t == Eval(db, UnitMeaning(cs[i]), r);
      assert t == Eval(db, es[i], r);
    }
  }

  /** Operands joined by AND are one whole expression: their conjunction. */
  lemma JoinAndMeans(cs: seq<Condition>)
    requires cs != [] && AllUnits(cs)
    ensures WellFormed(Condition(Join(Texts(cs), [KwAnd]), Arguments(cs)))
    ensures forall db: Db, r: Row ::
              Eval(db, Meaning(Condition(Join(Texts(cs), [KwAnd]), Arguments(cs))), r) == Conj(UnitTruths(db, cs, r))
  {
    JoinBinds(cs, [KwAnd]);
    JoinAndParses(BoundTexts(cs), Meanings(cs));
    forall db: Db, r: Row
      ensures Eval(db, Meaning(Condition(Join(Texts(cs), [KwAnd]), Arguments(cs))), r) == Conj(UnitTruths(db, cs, r))
    {
      EvalAndAll(db, Meanings(cs), r);
      TruthsOfMeanings(db, cs, r);
    }
  }

  lemma JoinOrMeans(cs: seq<Condition>)
    requires cs != [] && AllUnits(cs)
    ensures WellFormed(Condition(Join(Texts(cs), [KwOr]), Arguments(cs)))
    ensures forall db: Db, r: Row ::
              Eval(db, Meaning(Condition(Join(Texts(cs), [KwOr]), Arguments(cs))), r) == Disj(UnitTruths(db, cs, r))
  {
    JoinBinds(cs, [KwOr]);
    JoinOrParses(BoundTexts(cs), Meanings(cs));
    forall db: Db, r: Row
      ensures Eval(db, Meaning(Condition(Join(Texts(cs), [KwOr]), Arguments(cs))), r) == Disj(UnitTruths(db, cs, r))
    {
      EvalOrAll(db, Meanings(cs), r);
      TruthsOfMeanings(db, cs, r);
    }
  }

  function Parenthesised(c: Condition): Condition { Condition(Parens(c.sql), c.args) }

  lemma ParenthesisedMeans(c: Condition)
    requires WellFormed(c)
    ensures IsUnit(Parenthesised(c)) && UnitMeaning(Parenthesised(c)) == Meaning(c)
  {
    BindAround([LParen], c.sql, c.args, [RParen]);
    ParenthesesMakeUnit(BoundText(c), Meaning(c));
  }

  function Negated(c: Condition): Condition { Condition([KwNot] + Parens(c.sql), c.args) }

  lemma NegatedMeans(c: Condition)
    requires WellFormed(c)
    ensures IsUnit(Negated(c)) && UnitMeaning(Negated(c)) == NotE(Meaning(c))
  {
    BindAround([KwNot, LParen], c.sql, c.args, [RParen]);
    assert [KwNot, LParen] + c.sql + [RParen] == Negated(c).sql;
    assert [KwNot, LParen] + BoundText(c) + [RParen] == [KwNot] + Parens(BoundText(c));
    NegationIsUnit(BoundText(c), Meaning(c));
  }

  // ----- operators on one column -----

  /** The SQL template of each binary operator. */
  function BinaryTemplate(op: string): Option<Text> {
    match op
    case "_eq" => Some([Op("="), Hole])
    case "_neq" => Some([Op("<>"), Hole])
    case "_gt" => Some([Op(">"), Hole])
    case "_gte" => Some([Op(">="), Hole])
    case "_lt" => Some([Op("<"), Hole])
    case "_lte" => Some([Op("<="), Hole])
    case "_like" => Some([KwLike, Hole])
    case "_nlike" => Some([KwNot, KwLike, Hole])
    case "_regex" => Some([KwRegexp, Hole])
    case "_nregex" => Some([KwNot, KwRegexp, Hole])
    case _ => None
  }

  /** "?, ?, …, ?" for n values. */
  function HoleList(n: nat): Text
    requires n > 0
  {
    if n == 1 then [Hole] else [Hole, Comma] + HoleList(n - 1)
  }

  lemma {:induction false} HoleListPlain(n: nat)
    requires n > 0
    ensures NamesOnly(HoleList(n), {})
  {
    if n > 1 { HoleListPlain(n - 1); }
  }

  lemma BindLastHole(pre: Text, v: Value)
    requires forall i :: 0 <= i < |pre| ==> !pre[i].Hole?
    ensures Holes(pre + [Hole]) == 1
    ensures Bind(pre + [Hole], [v]) == pre + [Bound(v)]
  {
    assert [Hole][1..] == [] && [v][1..] == [];
    assert Bind([Hole], [v]) == [Bound(v)] + Bind([], []) == [Bound(v)];
    BindNoHoles(pre);
    BindConcat(pre, [], [Hole], [v]);
    assert [] + [v] == [v];
  }

  lemma BindHoleComma(v: Value, rest: Text, vs: seq<Value>)
    requires Holes(rest) == |vs|
    ensures Holes([Hole, Comma] + rest) == |vs| + 1
    ensures Bind([Hole, Comma] + rest, [v] + vs) == [Bound(v), Comma] + Bind(rest, vs)
  {
    BindLastHole([], v);
    BindNoHoles([Comma]);
    assert [] + [Hole] == [Hole] && [] + [Bound(v)] == [Bound(v)];
    BindConcat([Hole], [v], [Comma], []);
    assert [Hole] + [Comma] == [Hole, Comma] && [v] + [] == [v];
    BindConcat([Hole, Comma], [v], rest, vs);
  }

  lemma {:induction false} HoleListParses(vs: seq<Value>)
    requires vs != []
    ensures Holes(HoleList(|vs|)) == |vs|
    ensures ParseValues(Bind(HoleList(|vs|), vs) + [RParen]) == Some((vs, []))
  {
    if |vs| == 1 {
      BindLastHole([], vs[0]);
      assert [] + [Hole] == [Hole] && vs == [vs[0]];
      var b := Bind(HoleList(|vs|), vs) + [RParen];
      assert b == [Bound(vs[0]), RParen];
      assert b[2..] == [];
    } else {
      HoleListParses(vs[1..]);
      var rest := HoleList(|vs| - 1);
      BindHoleComma(vs[0], rest, vs[1..]);
      assert vs == [vs[0]] + vs[1..];
      var b := Bind(HoleList(|vs|), vs) + [RParen];
      assert b[2..] == Bind(rest, vs[1..]) + [RParen];
    }
  }

  lemma ComparisonParses(c: string, symbol: string, v: Value)
    requires Comparison(symbol, c, v).Some?
    ensures ParseNot([Ident(c), Op(symbol), Bound(v)]) == Done(Comparison(symbol, c, v).value, [])
  {
    var ts := [Ident(c), Op(symbol), Bound(v)];
    assert ts[1..] == [Op(symbol), Bound(v)] && ts[1..][2..] == [];
    assert ParseColumn(c, [Op(symbol), Bound(v)]) == Done(Comparison(symbol, c, v).value, []);
  }

  lemma MatchParses(c: string, kw: Token, v: Value)
    requires kw.KwLike? || kw.KwRegexp?
    ensures var e := Leaf(Compare(c, if kw.KwLike? then LikeOp else RegexpOp, v));
            ParseNot([Ident(c), kw, Bound(v)]) == Done(e, []) &&
            ParseNot([Ident(c), KwNot, kw, Bound(v)]) == Done(NotE(e), [])
  {
    var m := [kw, Bound(v)];
    assert m[2..] == [];
    assert [Ident(c), kw, Bound(v)][1..] == m;
    var n := [KwNot, kw, Bound(v)];
    assert [Ident(c), KwNot, kw, Bound(v)][1..] == n && n[1..] == m;
    assert ParseColumn(c, m) == ParseMatch(c, m);
  }

  /** The expression each binary operator's text parses to. */
  function BinaryExpr(op: string, c: string, v: Value): Expr {
    match op
    case "_eq" => Leaf(Compare(c, Eq, v))
    case "_neq" => NotE(Leaf(Compare(c, Eq, v)))
    case "_gt" => Leaf(Compare(c, Gt, v))
    case "_gte" => Leaf(Compare(c, Gte, v))
    case "_lt" => Leaf(Compare(c, Lt, v))
    case "_lte" => Leaf(Compare(c, Lte, v))
    case "_like" => Leaf(Compare(c, LikeOp, v))
    case "_nlike" => NotE(Leaf(Compare(c, LikeOp, v)))
    case "_regex" => Leaf(Compare(c, RegexpOp, v))
    case _ => NotE(Leaf(Compare(c, RegexpOp, v)))
  }

  lemma BinaryParses(op: string, c: string, v: Value)
    requires BinaryTemplate(op).Some?
    ensures var cond := Condition([Ident(c)] + BinaryTemplate(op).value, [v]);
            Aligned(cond) && ParseNot(BoundText(cond)) == Done(BinaryExpr(op, c, v), [])
  {
    var tmpl := BinaryTemplate(op).value;
    var n := |tmpl| - 1;
    BindLastHole([Ident(c)] + tmpl[..n], v);
    assert [Ident(c)] + tmpl == [Ident(c)] + tmpl[..n] + [Hole];
    if n == 2 {
      MatchParses(c, tmpl[1], v);
      assert [Ident(c)] + tmpl[..n] + [Bound(v)] == [Ident(c), KwNot, tmpl[1], Bound(v)];
    } else {
      assert [Ident(c)] + tmpl[..n] + [Bound(v)] == [Ident(c), tmpl[0], Bound(v)];
      if tmpl[0].Op? { ComparisonParses(c, tmpl[0].symbol, v); } else { MatchParses(c, tmpl[0], v); }
    }
  }

  lemma BinaryMeans(ti: TableInfo, col: Column, op: string, v: Value)
    requires BinaryTemplate(op).Some?
    ensures var c := Condition([Ident(col.name)] + BinaryTemplate(op).value, [BindValue(ti, col, v)]);
            IsUnit(c) && forall db: Db, r: Row :: Eval(db, UnitMeaning(c), r) == OperatorTruth(db, ti, col, op, v, r)
  {
    BinaryParses(op, col.name, BindValue(ti, col, v));
    forall db: Db, r: Row
      ensures Eval(db, BinaryExpr(op, col.name, BindValue(ti, col, v)), r) == OperatorTruth(db, ti, col, op, v, r)
    {
      BinaryTruth(db, ti, col, op, v, r);
    }
  }

  lemma BinaryTruth(db: Db, ti: TableInfo, col: Column, op: string, v: Value, r: Row)
    requires BinaryTemplate(op).Some?
    ensures Eval(db, BinaryExpr(op, col.name, BindValue(ti, col, v)), r) == OperatorTruth(db, ti, col, op, v, r)
  {
  }

  function InListText(col: string, n: nat, negated: bool): Text
    requires n > 0
  {
    [Ident(col)] + (if negated then [KwNot, KwIn] else [KwIn]) + Parens(HoleList(n))
  }

  lemma InListParses(c: string, args: seq<Value>, negated: bool)
    requires args != []
    ensures var cond := Condition(InListText(c, |args|, negated), args);
            var e := Leaf(InList(c, args));
            Aligned(cond) && ParseNot(BoundText(cond)) == Done(if negated then NotE(e) else e, [])
  {
    var kw := if negated then [KwNot, KwIn] else [KwIn];
    HoleListParses(args);
    var holes, bound := HoleList(|args|), Bind(HoleList(|args|), args);
    BindAround([Ident(c)] + kw + [LParen], holes, args, [RParen]);
    RegroupList([Ident(c)] + kw, holes);
    RegroupList([Ident(c)] + kw, bound);
    if negated {
      RegroupNotIn(c, bound);
      NotInParses(c, bound + [RParen], args);
    } else {
      RegroupIn(c, bound);
      InParses(c, bound + [RParen], args);
    }
  }

  lemma RegroupList(head: Text, list: Text)
    ensures head + [LParen] + list + [RParen] == head + Parens(list)
  {}

  lemma RegroupIn(c: string, list: Text)
    ensures [Ident(c)] + [KwIn] + Parens(list) == [Ident(c)] + ([KwIn, LParen] + (list + [RParen]))
  {}

  lemma RegroupNotIn(c: string, list: Text)
    ensures [Ident(c)] + [KwNot, KwIn] + Parens(list) == [Ident(c), KwNot] + ([KwIn, LParen] + (list + [RParen]))
  {}

  lemma MatchList(c: string, list: Text, args: seq<Value>)
    requires ParseValues(list) == Some((args, []))
    ensures ParseMatch(c, [KwIn, LParen] + list) == Done(Leaf(InList(c, args)), [])
  {
    assert ([KwIn, LParen] + list)[2..] == list;
  }

  lemma InParses(c: string, list: Text, args: seq<Value>)
    requires ParseValues(list) == Some((args, []))
    ensures ParseNot([Ident(c)] + ([KwIn, LParen] + list)) == Done(Leaf(InList(c, args)), [])
  {
    var m := [KwIn, LParen] + list;
    MatchList(c, list, args);
    assert ([Ident(c)] + m)[1..] == m;
  }

  lemma NotInParses(c: string, list: Text, args: seq<Value>)
    requires ParseValues(list) == Some((args, []))
    ensures ParseNot([Ident(c), KwNot] + ([KwIn, LParen] + list)) == Done(NotE(Leaf(InList(c, args))), [])
  {
    var m := [KwIn, LParen] + list;
    var ts := [Ident(c), KwNot] + m;
    MatchList(c, list, args);
    assert ts[1..] == [KwNot] + m && ts[1..][1..] == m;
  }

  lemma InListMeans(ti: TableInfo, col: Column, items: seq<Value>, args: seq<Value>, negated: bool)
    requires items != [] && |args| == |items|
    requires forall i :: 0 <= i < |items| ==> args[i] == BindValue(ti, col, items[i])
    ensures var c := Condition(InListText(col.name, |items|, negated), args);
            IsUnit(c) && forall db: Db, r: Row ::
              Eval(db, UnitMeaning(c), r) ==
              OperatorTruth(db, ti, col, if negated then "_nin" else "_in", List(items), r)
  {
    InListParses(col.name, args, negated);
    forall db: Db, r: Row
      ensures EvalPred(db, InList(col.name, args), r) == MemberTruth(db, ti, col, items, r)
    {
      assert (set i | 0 <= i < |args| :: Cmp(db, col.name, Eq, Cell(r, col.name), args[i]))
          == (set i | 0 <= i < |items| :: Cmp(db, col.name, Eq, Cell(r, col.name), BindValue(ti, col, items[i])));
    }
  }

  lemma EmptyListMeans(ti: TableInfo, col: Column, negated: bool)
    ensures var c := Condition([Number(1), Op("="), Number(if negated then 1 else 0)], []);
            IsUnit(c) && forall db: Db, r: Row ::
              Eval(db, UnitMeaning(c), r) == OperatorTruth(db, ti, col, if negated then "_nin" else "_in", List([]), r)
  {
    var sql := [Number(1), Op("="), Number(if negated then 1 else 0)];
    BindNoHoles(sql);
    assert sql[3..] == [];
    assert ParsePrimary(sql) == Done(Leaf(Const(negated)), []);
    assert ParseNot(sql) == Done(Leaf(Const(negated)), []);
    UnitReads(Condition(sql, []), Leaf(Const(negated)));
  }

  lemma IsNullMeans(c: string, isNull: bool)
    ensures var cond := Condition([Ident(c), KwIs] + (if isNull then [] else [KwNot]) + [KwNull], []);
            var e := Leaf(IsNull(c));
            IsUnit(cond) && UnitMeaning(cond) == if isNull then e else NotE(e)
  {
    var sql := [Ident(c), KwIs] + (if isNull then [] else [KwNot]) + [KwNull];
    BindNoHoles(sql);
    assert sql[1..] == [KwIs] + (if isNull then [] else [KwNot]) + [KwNull];
    assert sql[|sql|..] == [];
    var e := if isNull then Leaf(IsNull(c)) else NotE(Leaf(IsNull(c)));
    assert ParseColumn(c, sql[1..]) == Done(e, []);
    assert ParseNot(sql) == Done(e, []);
    UnitReads(Condition(sql, []), e);
  }

  lemma ContainsParses(c: string, v: Value)
    ensures ParseNot([Call("JSON_CONTAINS"), LParen, Ident(c), Comma, Bound(v), RParen]) ==
            Done(Leaf(JsonContains(c, v)), [])
  {
    var b := [Call("JSON_CONTAINS"), LParen, Ident(c), Comma, Bound(v), RParen];
    assert b[1..] == [LParen, Ident(c), Comma, Bound(v), RParen] && b[1..][5..] == [];
    assert ParseCall("JSON_CONTAINS", b[1..]) == Done(Leaf(JsonContains(c, v)), []);
  }

  lemma ContainsMeans(c: string, v: Value)
    ensures var cond := Condition([Call("JSON_CONTAINS"), LParen, Ident(c), Comma, Hole, RParen], [v]);
            IsUnit(cond) && UnitMeaning(cond) == Leaf(JsonContains(c, v))
  {
    var pre := [Call("JSON_CONTAINS"), LParen, Ident(c), Comma];
    BindLastHole(pre, v);
    BindNoHoles([RParen]);
    BindConcat(pre + [Hole], [v], [RParen], []);
    assert [v] + [] == [v];
    assert pre + [Hole] + [RParen] == [Call("JSON_CONTAINS"), LParen, Ident(c), Comma, Hole, RParen];
    assert pre + [Bound(v)] + [RParen] == [Call("JSON_CONTAINS"), LParen, Ident(c), Comma, Bound(v), RParen];
    ContainsParses(c, v);
    UnitReads(Condition([Call("JSON_CONTAINS"), LParen, Ident(c), Comma, Hole, RParen], [v]), Leaf(JsonContains(c, v)));
  }

  lemma HasKeyParses(c: string, v: Value)
    ensures ParseNot([Call("JSON_CONTAINS_PATH"), LParen, Ident(c), Comma, Quote("one"), Comma,
                      Call("CONCAT"), LParen, Quote("$."), Comma, Bound(v), RParen, RParen]) ==
            Done(Leaf(JsonHasKey(c, v)), [])
  {
    var b := [Call("JSON_CONTAINS_PATH"), LParen, Ident(c), Comma, Quote("one"), Comma,
              Call("CONCAT"), LParen, Quote("$."), Comma, Bound(v), RParen, RParen];
    var ts := b[1..];
    assert ts[12..] == [];
    assert ParseCall("JSON_CONTAINS_PATH", ts) == Done(Leaf(JsonHasKey(c, v)), []);
  }

  lemma HasKeyMeans(c: string, v: Value)
    ensures var cond := Condition([Call("JSON_CONTAINS_PATH"), LParen, Ident(c), Comma, Quote("one"), Comma,
                                   Call("CONCAT"), LParen, Quote("$."), Comma, Hole, RParen, RParen], [v]);
            IsUnit(cond) && UnitMeaning(cond) == Leaf(JsonHasKey(c, v))
  {
    HasKeyParses(c, v);
    var pre := [Call("JSON_CONTAINS_PATH"), LParen, Ident(c), Comma, Quote("one"), Comma, Call("CONCAT"), LParen,
                Quote("$."), Comma];
    BindLastHole(pre, v);
    var post := [RParen, RParen];
    BindNoHoles(post);
    BindConcat(pre + [Hole], [v], post, []);
    assert [v] + [] == [v];
    assert pre + [Hole] + post == [Call("JSON_CONTAINS_PATH"), LParen, Ident(c), Comma, Quote("one"), Comma,
                                   Call("CONCAT"), LParen, Quote("$."), Comma, Hole, RParen, RParen];
    assert pre + [Bound(v)] + post == [Call("JSON_CONTAINS_PATH"), LParen, Ident(c), Comma, Quote("one"), Comma,
                                       Call("CONCAT"), LParen, Quote("$."), Comma, Bound(v), RParen, RParen];
  }

  /** The texts of the operators name their column and no other. */
  lemma OperatorNames(c: string)
    ensures forall op :: BinaryTemplate(op).Some? ==> NamesOnly([Ident(c)] + BinaryTemplate(op).value, {c})
    ensures NamesOnly([Ident(c), KwIs] + [] + [KwNull], {c}) && NamesOnly([Ident(c), KwIs] + [KwNot] + [KwNull], {c})
    ensures NamesOnly([Call("JSON_CONTAINS"), LParen, Ident(c), Comma, Hole, RParen], {c})
    ensures NamesOnly([Call("JSON_CONTAINS_PATH"), LParen, Ident(c), Comma, Quote("one"), Comma,
                       Call("CONCAT"), LParen, Quote("$."), Comma, Hole, RParen, RParen], {c})
  {
  }

  /** The operand emitted for one operator says exactly what the operator says. */
  ghost predicate OperatorCompiles(ti: TableInfo, col: Column, op: string, v: Value, c: Condition) {
    IsUnit(c) && forall db: Db, r: Row :: Eval(db, UnitMeaning(c), r) == OperatorTruth(db, ti, col, op, v, r)
  }

  /** One operator applied to one column. It is accepted exactly when the operator exists and its
      operand has the right shape, and then it is an operand with the operator's truth value. */
  method ColumnCond(ti: TableInfo, col: Column, op: string, val: Value) returns (c: Result<Condition>)
    ensures c.Ok? <==> OperatorAccepted(op, val)
    ensures c.Ok? ==> OperatorCompiles(ti, col, op, val, c.value)
    ensures c.Ok? ==> NamesOnly(c.value.sql, {col.name})
  {
    var qc := Ident(col.name);
    OperatorNames(col.name);
    var tmpl := BinaryTemplate(op);
    if tmpl.Some? {
      if val.Null? { return Err("null is not a valid comparison value"); }
      BinaryMeans(ti, col, op, val);
      return Ok(Condition([qc] + tmpl.value, [BindValue(ti, col, val)]));
    }
    match op {
      case "_in" => c := MembershipCond(ti, col, false, val);
      case "_nin" => c := MembershipCond(ti, col, true, val);
      case "_is_null" =>
        if !val.Bool? { return Err("_is_null expects a boolean"); }
        IsNullMeans(col.name, val.b);
        return Ok(Condition([qc, KwIs] + (if val.b then [] else [KwNot]) + [KwNull], []));
      case "_contains" =>
        var x := BindValue(ti, col, val);
        ContainsMeans(col.name, x);
        return Ok(Condition([Call("JSON_CONTAINS"), LParen, qc, Comma, Hole, RParen], [x]));
      case "_has_key" =>
        if !val.Str? { return Err("_has_key expects a string"); }
        HasKeyMeans(col.name, val);
        return Ok(Condition([Call("JSON_CONTAINS_PATH"), LParen, qc, Comma, Quote("one"), Comma,
                             Call("CONCAT"), LParen, Quote("$."), Comma, Hole, RParen, RParen], [val]));
      case _ => return Err("unsupported operator");
    }
  }

  /** _in and _nin. */
  method MembershipCond(ti: TableInfo, col: Column, negated: bool, val: Value) returns (c: Result<Condition>)
    ensures c.Ok? <==> val.List?
    ensures c.Ok? ==> IsUnit(c.value) && NamesOnly(c.value.sql, {col.name})
    ensures c.Ok? ==> forall db: Db, r: Row ::
              Eval(db, UnitMeaning(c.value), r) == OperatorTruth(db, ti, col, if negated then "_nin" else "_in", val, r)
  {
    if !val.List? { return Err("expects a list"); }
    if val.items == [] {
      EmptyListMeans(ti, col, negated);
      return Ok(Condition([Number(1), Op("="), Number(if negated then 1 else 0)], []));
    }
    var args: seq<Value> := [];
    for i := 0 to |val.items|
      invariant |args| == i && forall j :: 0 <= j < i ==> args[j] == BindValue(ti, col, val.items[j])
    {
      args := args + [BindValue(ti, col, val.items[i])];
    }
    InListMeans(ti, col, val.items, args, negated);
    HoleListPlain(|val.items|);
    return Ok(Condition(InListText(col.name, |val.items|, negated), args));
  }

  // ----- the compiler -----

  /** The truths of the restricting entries among the given keys. */
  ghost function EntryTruths(db: Db, ti: TableInfo, e: Value, keys: seq<string>, r: Row): set<Truth>
    requires e.Obj?
  {
    set k | k in e.fields && k in keys && Restricts(k, e.fields[k]) :: EntryTruth(db, ti, k, e.fields[k], r)
  }

  /** The collected operands say exactly what the entries visited so far say. */
  ghost predicate Covers(ti: TableInfo, e: Value, keys: seq<string>, cs: seq<Condition>)
    requires e.Obj?
  {
    AllUnits(cs) && forall db: Db, r: Row :: Conj(UnitTruths(db, cs, r)) == Conj(EntryTruths(db, ti, e, keys, r))
  }

  /** The operands emitted for one entry say exactly what that entry says. */
  ghost predicate EntryCompiles(ti: TableInfo, key: string, v: Value, cs: seq<Condition>) {
    AllUnits(cs) && forall db: Db, r: Row ::
      Conj(UnitTruths(db, cs, r)) == if Restricts(key, v) then EntryTruth(db, ti, key, v, r) else Yes
  }

  lemma CoversAppend(ti: TableInfo, e: Value, keys: seq<string>, k: string, cs: seq<Condition>, ds: seq<Condition>)
    requires e.Obj? && k in e.fields && Covers(ti, e, keys, cs) && EntryCompiles(ti, k, e.fields[k], ds)
    ensures Covers(ti, e, keys + [k], cs + ds)
  {
    forall db: Db, r: Row ensures Conj(UnitTruths(db, cs + ds, r)) == Conj(EntryTruths(db, ti, e, keys + [k], r)) {
      assert EntryTruths(db, ti, e, keys + [k], r) == EntryTruths(db, ti, e, keys, r) +
        (if Restricts(k, e.fields[k]) then {EntryTruth(db, ti, k, e.fields[k], r)} else {});
      UnitTruthsConcat(db, cs, ds, r);
      assert Conj(UnitTruths(db, cs, r)) == Conj(EntryTruths(db, ti, e, keys, r));
      assert Conj(UnitTruths(db, ds, r)) == if Restricts(k, e.fields[k]) then EntryTruth(db, ti, k, e.fields[k], r)
                                            else Yes;
    }
  }

  /** The accepted condition is a whole expression with the tree's truth value on every row. */
  ghost predicate Compiles(ti: TableInfo, e: Value, c: Condition) {
    WellFormed(c) && forall db: Db, r: Row :: Eval(db, Meaning(c), r) == TreeTruth(db, ti, e, r)
  }

  /** Parenthesised sub-conditions of the first items of an _and/_or list. */
  ghost predicate CoversItems(ti: TableInfo, items: seq<Value>, subs: seq<Condition>) {
    |subs| <= |items| && AllUnits(subs) &&
    forall i, db: Db, r: Row {:trigger Eval(db, UnitMeaning(subs[i]), r)} ::
      0 <= i < |subs| ==> Eval(db, UnitMeaning(subs[i]), r) == TreeTruth(db, ti, items[i], r)
  }

  lemma CoversItemsAppend(ti: TableInfo, items: seq<Value>, subs: seq<Condition>, c: Condition)
    requires CoversItems(ti, items, subs) && |subs| < |items| && Compiles(ti, items[|subs|], c)
    ensures CoversItems(ti, items, subs + [Parenthesised(c)])
  {
    ParenthesisedMeans(c);
  }

  lemma ItemTruths(db: Db, ti: TableInfo, items: seq<Value>, subs: seq<Condition>, r: Row)
    requires CoversItems(ti, items, subs) && |subs| == |items|
    ensures UnitTruths(db, subs, r) == set i | 0 <= i < |items| :: TreeTruth(db, ti, items[i], r)
  {
    forall t | t in UnitTruths(db, subs, r) ensures t in (set i | 0 <= i < |items| :: TreeTruth(db, ti, items[i], r)) {
      var i :| 0 <= i < |subs| && t == Eval(db, UnitMeaning(subs[i]), r);
      assert t == TreeTruth(db, ti, items[i], r);
    }
    forall i | 0 <= i < |items| ensures TreeTruth(db, ti, items[i], r) in UnitTruths(db, subs, r) {
      assert Eval(db, UnitMeaning(subs[i]), r) == TreeTruth(db, ti, items[i], r);
    }
  }

  lemma JoinedItemsMean(ti: TableInfo, key: string, items: seq<Value>, subs: seq<Condition>)
    requires key == "_and" || key == "_or"
    requires CoversItems(ti, items, subs) && |subs| == |items| > 0
    ensures var inner := Condition(Join(Texts(subs), [if key == "_or" then KwOr else KwAnd]), Arguments(subs));
            WellFormed(inner) &&
            forall db: Db, r: Row :: Eval(db, Meaning(inner), r) == EntryTruth(db, ti, key, List(items), r)
  {
    var sep := [if key == "_or" then KwOr else KwAnd];
    var inner := Condition(Join(Texts(subs), sep), Arguments(subs));
    if key == "_or" { JoinOrMeans(subs); } else { JoinAndMeans(subs); }
    forall db: Db, r: Row ensures Eval(db, Meaning(inner), r) == EntryTruth(db, ti, key, List(items), r) {
      ItemTruths(db, ti, items, subs, r);
    }
  }

  lemma ConnectiveMeans(ti: TableInfo, key: string, items: seq<Value>, subs: seq<Condition>)
    requires key == "_and" || key == "_or"
    requires CoversItems(ti, items, subs) && |subs| == |items| > 0
    ensures var inner := Condition(Join(Texts(subs), [if key == "_or" then KwOr else KwAnd]), Arguments(subs));
            EntryCompiles(ti, key, List(items), [Parenthesised(inner)])
  {
    var inner := Condition(Join(Texts(subs), [if key == "_or" then KwOr else KwAnd]), Arguments(subs));
    JoinedItemsMean(ti, key, items, subs);
    ParenthesisedMeans(inner);
    SingleEntry(ti, key, List(items), Parenthesised(inner));
  }

  lemma SingleEntry(ti: TableInfo, key: string, v: Value, c: Condition)
    requires IsUnit(c) && Restricts(key, v)
    requires forall db: Db, r: Row :: Eval(db, UnitMeaning(c), r) == EntryTruth(db, ti, key, v, r)
    ensures EntryCompiles(ti, key, v, [c])
  {
    forall db: Db, r: Row ensures Conj(UnitTruths(db, [c], r)) == EntryTruth(db, ti, key, v, r) {
      SingleUnit(db, c, r);
    }
  }

  lemma NegationMeans(ti: TableInfo, v: Value, c: Condition)
    requires Compiles(ti, v, c) && v.Obj?
    ensures EntryCompiles(ti, "_not", v, [Negated(c)])
  {
    NegatedMeans(c);
    SingleEntry(ti, "_not", v, Negated(c));
  }

  /** The operands for the first operators of one column. */
  ghost predicate CoversOps(ti: TableInfo, col: Column, ops: map<string, Value>, done: seq<string>,
                            cs: seq<Condition>) {
    AllUnits(cs) && forall db: Db, r: Row ::
      Conj(UnitTruths(db, cs, r)) ==
      Conj(set op | op in ops && op in done :: OperatorTruth(db, ti, col, op, ops[op], r))
  }

  lemma CoversOpsAppend(ti: TableInfo, col: Column, ops: map<string, Value>, done: seq<string>, op: string,
                        cs: seq<Condition>, c: Condition)
    requires op in ops && CoversOps(ti, col, ops, done, cs) && OperatorCompiles(ti, col, op, ops[op], c)
    ensures CoversOps(ti, col, ops, done + [op], cs + [c])
  {
    forall db: Db, r: Row
      ensures Conj(UnitTruths(db, cs + [c], r)) ==
              Conj(set o | o in ops && o in done + [op] :: OperatorTruth(db, ti, col, o, ops[o], r))
    {
      var before := set o | o in ops && o in done :: OperatorTruth(db, ti, col, o, ops[o], r);
      assert (set o | o in ops && o in done + [op] :: OperatorTruth(db, ti, col, o, ops[o], r))
          == before + {OperatorTruth(db, ti, col, op, ops[op], r)};
      UnitTruthsConcat(db, cs, [c], r);
      SingleUnit(db, c, r);
      assert Eval(db, UnitMeaning(c), r) == OperatorTruth(db, ti, col, op, ops[op], r);
      assert Conj(UnitTruths(db, cs, r)) == Conj(before);
    }
  }

  lemma ColumnEntryMeans(ti: TableInfo, key: string, v: Value, done: seq<string>, cs: seq<Condition>)
    requires FieldReadable(ti, key) && v.Obj? && key != "_and" && key != "_or" && key != "_not"
    requires forall op :: op in done <==> op in v.fields
    requires CoversOps(ti, ti.fieldToCol[key], v.fields, done, cs)
    ensures EntryCompiles(ti, key, v, cs)
  {
    var col := ti.fieldToCol[key];
    forall db: Db, r: Row ensures Conj(UnitTruths(db, cs, r)) == EntryTruth(db, ti, key, v, r) {
      assert (set op | op in v.fields && op in done :: OperatorTruth(db, ti, col, op, v.fields[op], r))
          == (set op | op in v.fields :: OperatorTruth(db, ti, col, op, v.fields[op], r));
      assert Conj(UnitTruths(db, cs, r)) ==
             Conj(set op | op in v.fields && op in done :: OperatorTruth(db, ti, col, op, v.fields[op], r));
    }
  }

  lemma WholeTree(ti: TableInfo, e: Value, keys: seq<string>, cs: seq<Condition>)
    requires e.Obj? && Covers(ti, e, keys, cs) && forall k :: k in keys <==> k in e.fields
    ensures cs != [] ==> Compiles(ti, e, Condition(Join(Texts(cs), [KwAnd]), Arguments(cs)))
    ensures cs == [] ==> Compiles(ti, e, Condition([Number(1), Op("="), Number(1)], []))
  {
    if cs == [] {
      var sql := [Number(1), Op("="), Number(1)];
      BindNoHoles(sql);
      assert sql[3..] == [];
      assert ParseNot(sql) == Done(Leaf(Const(true)), []);
    } else {
      JoinAndMeans(cs);
    }
    forall db: Db, r: Row ensures Conj(UnitTruths(db, cs, r)) == TreeTruth(db, ti, e, r) {
      assert Conj(UnitTruths(db, cs, r)) == Conj(EntryTruths(db, ti, e, keys, r));
      assert EntryTruths(db, ti, e, keys, r) == set k | k in e.fields && Restricts(k, e.fields[k]) ::
             EntryTruth(db, ti, k, e.fields[k], r);
    }
  }

  /** The names of the columns the role may read. */
  function ReadableNames(ti: TableInfo): set<string> { if ti.readable.Some? then ti.readable.value else {} }

  /** Every identifier of the operands is a readable column. */
  predicate OverReadable(ti: TableInfo, cs: seq<Condition>) {
    forall i :: 0 <= i < |cs| ==> NamesOnly(cs[i].sql, ReadableNames(ti))
  }

  lemma WrappedOverReadable(ti: TableInfo, cs: seq<Condition>, c: Condition)
    requires OverReadable(ti, cs) && NamesOnly(c.sql, ReadableNames(ti))
    ensures OverReadable(ti, cs + [Parenthesised(c)]) && OverReadable(ti, [Parenthesised(c)])
    ensures OverReadable(ti, [Negated(c)])
  {
  }

  lemma JoinedOverReadable(ti: TableInfo, cs: seq<Condition>, sep: Text)
    requires OverReadable(ti, cs) && NamesOnly(sep, {})
    ensures NamesOnly(Join(Texts(cs), sep), ReadableNames(ti))
  {
    NamesOnlyJoin(Texts(cs), sep, ReadableNames(ti));
  }

  /** The entries visited so far are accepted and compiled over readable columns. */
  ghost predicate EntriesUpTo(ti: TableInfo, e: Value, keys: seq<string>, cs: seq<Condition>)
    requires e.Obj?
  {
    && Covers(ti, e, keys, cs) && OverReadable(ti, cs)
    && forall k :: k in keys ==> k in e.fields && EntryAccepted(ti, k, e.fields[k])
  }

  lemma NoEntries(ti: TableInfo, e: Value)
    requires e.Obj?
    ensures EntriesUpTo(ti, e, [], [])
  {
    forall db: Db, r: Row ensures Conj(UnitTruths(db, [], r)) == Conj(EntryTruths(db, ti, e, [], r)) {
      assert UnitTruths(db, [], r) == {} == EntryTruths(db, ti, e, [], r);
    }
  }

  lemma EntriesStep(ti: TableInfo, e: Value, keys: seq<string>, key: string, cs: seq<Condition>, more: seq<Condition>)
    requires e.Obj? && EntriesUpTo(ti, e, keys, cs) && key in e.fields && EntryAccepted(ti, key, e.fields[key])
    requires EntryCompiles(ti, key, e.fields[key], more) && OverReadable(ti, more)
    ensures EntriesUpTo(ti, e, keys + [key], cs + more)
  {
    CoversAppend(ti, e, keys, key, cs, more);
  }

  lemma EntriesDone(ti: TableInfo, e: Value, keys: seq<string>, cs: seq<Condition>)
    requires e.Obj? && EntriesUpTo(ti, e, keys, cs) && forall k :: k in keys <==> k in e.fields
    ensures Accepted(ti, e)
    ensures cs != [] ==> Compiles(ti, e, Condition(Join(Texts(cs), [KwAnd]), Arguments(cs)))
    ensures cs == [] ==> Compiles(ti, e, Condition([Number(1), Op("="), Number(1)], []))
    ensures NamesOnly(Join(Texts(cs), [KwAnd]), ReadableNames(ti))
  {
    WholeTree(ti, e, keys, cs);
    JoinedOverReadable(ti, cs, [KwAnd]);
  }

  /** whereSQL: accepted exactly when every entry is well formed over readable columns, and then
      the emitted text, bound and parsed, has the tree's own truth value on every row, and every
      identifier in it is the name of a column the role may read. */
  method WhereSql(ti: TableInfo, e: Value) returns (c: Result<Condition>)
    requires e.Obj?
    ensures c.Ok? <==> Accepted(ti, e)
    ensures c.Ok? ==> Compiles(ti, e, c.value)
    ensures c.Ok? ==> forall i :: 0 <= i < |c.value.sql| && c.value.sql[i].Ident? ==>
                        ti.readable.Some? && c.value.sql[i].name in ti.readable.value
    decreases e, 0
  {
    var parts: seq<Text> := [];
    var args: seq<Value> := [];
    ghost var cs: seq<Condition> := [];
    var keys := SortedKeys(e.fields);
    NoEntries(ti, e);
    assert keys[..0] == [];
    for n := 0 to |keys|
      invariant parts == Texts(cs) && args == Arguments(cs)
      invariant EntriesUpTo(ti, e, keys[..n], cs)
    {
      var key := keys[n];
      var entry := EntrySql(ti, key, e.fields[key]);
      if entry.Err? {
        assert !EntryAccepted(ti, key, e.fields[key]);
        return Err(entry.reason);
      }
      assert keys[..n + 1] == keys[..n] + [key];
      EntriesStep(ti, e, keys[..n], key, cs, entry.value);
      ArgumentsConcat(cs, entry.value);
      parts, args, cs := parts + Texts(entry.value), args + Arguments(entry.value), cs + entry.value;
    }
    assert keys[..|keys|] == keys;
    EntriesDone(ti, e, keys, cs);
    assert parts == [] <==> cs == [];
    if parts == [] { return Ok(Condition([Number(1), Op("="), Number(1)], [])); }
    return Ok(Condition(Join(parts, [KwAnd]), args));
  }

  /** The operands emitted for one entry: one iteration of whereSQL's loop over the sorted keys. */
  method EntrySql(ti: TableInfo, key: string, val: Value) returns (cs: Result<seq<Condition>>)
    ensures cs.Ok? <==> EntryAccepted(ti, key, val)
    ensures cs.Ok? ==> EntryCompiles(ti, key, val, cs.value) && OverReadable(ti, cs.value)
    decreases val, 2
  {
    if val.Null? {
      return Ok([]);
    } else if key == "_and" || key == "_or" {
      if !val.List? { return Err("must be a list"); }
      cs := ConnectiveSql(ti, key, val);
    } else if key == "_not" {
      if !val.Obj? { return Err("_not must be an object"); }
      var sub := WhereSql(ti, val);
      if sub.Err? { return Err(sub.reason); }
      NegationMeans(ti, val, sub.value);
      WrappedOverReadable(ti, [], sub.value);
      return Ok([Negated(sub.value)]);
    } else {
      if key !in ti.fieldToCol || ti.readable.None? || ti.fieldToCol[key].name !in ti.readable.value {
        return Err("unknown filter column");
      }
      if !val.Obj? { return Err("filter must be an object of operators"); }
      cs := OperatorsSql(ti, key, val);
    }
  }

  /** The loop over the items of an _and/_or list. */
  method ConnectiveSql(ti: TableInfo, key: string, val: Value) returns (cs: Result<seq<Condition>>)
    requires val.List? && (key == "_and" || key == "_or")
    ensures cs.Ok? <==> EntryAccepted(ti, key, val)
    ensures cs.Ok? ==> EntryCompiles(ti, key, val, cs.value) && OverReadable(ti, cs.value)
    decreases val, 1
  {
    var sub: seq<Text> := [];
    var args: seq<Value> := [];
    ghost var subs: seq<Condition> := [];
    for i := 0 to |val.items|
      invariant sub == Texts(subs) && args == Arguments(subs) && |subs| == i
      invariant CoversItems(ti, val.items, subs) && OverReadable(ti, subs)
      invariant forall j :: 0 <= j < i ==> Accepted(ti, val.items[j])
    {
      if !val.items[i].Obj? { return Err("entries must be objects"); }
      var one := WhereSql(ti, val.items[i]);
      if one.Err? { return Err(one.reason); }
      CoversItemsAppend(ti, val.items, subs, one.value);
      WrappedOverReadable(ti, subs, one.value);
      ArgumentsConcat(subs, [Parenthesised(one.value)]);
      sub, args, subs := sub + [Parens(one.value.sql)], args + one.value.args, subs + [Parenthesised(one.value)];
    }
    if sub == [] { return Ok([]); }
    var sep := [if key == "_or" then KwOr else KwAnd];
    ConnectiveMeans(ti, key, val.items, subs);
    JoinedOverReadable(ti, subs, sep);
    WrappedOverReadable(ti, [], Condition(Join(sub, sep), args));
    return Ok([Parenthesised(Condition(Join(sub, sep), args))]);
  }

  /** The loop over the operators of one column. */
  method OperatorsSql(ti: TableInfo, key: string, val: Value) returns (cs: Result<seq<Condition>>)
    requires FieldReadable(ti, key) && val.Obj? && key != "_and" && key != "_or" && key != "_not"
    ensures cs.Ok? <==> EntryAccepted(ti, key, val)
    ensures cs.Ok? ==> EntryCompiles(ti, key, val, cs.value) && OverReadable(ti, cs.value)
  {
    var col := ti.fieldToCol[key];
    var ops := SortedKeys(val.fields);
    var parts: seq<Condition> := [];
    for m := 0 to |ops|
      invariant OpsUpTo(ti, col, val.fields, ops, m, parts) && OverReadable(ti, parts)
    {
      var one := ColumnCond(ti, col, ops[m], val.fields[ops[m]]);
      if one.Err? {
        assert !OperatorAccepted(ops[m], val.fields[ops[m]]);
        return Err(one.reason);
      }
      OpsStep(ti, col, val.fields, ops, m, parts, one.value);
      parts := parts + [one.value];
    }
    OpsDone(ti, col, val.fields, ops, parts);
    ColumnEntryMeans(ti, key, val, ops, parts);
    return Ok(parts);
  }

  /** The first m operators are accepted and compiled. */
  ghost predicate OpsUpTo(ti: TableInfo, col: Column, fields: map<string, Value>, ops: seq<string>, m: nat,
                          parts: seq<Condition>)
    requires m <= |ops|
  {
    && (forall op :: op in ops[..m] ==> op in fields)
    && OperatorsAccepted(fields, set op | op in ops[..m])
    && CoversOps(ti, col, fields, ops[..m], parts)
  }

  lemma OpsStep(ti: TableInfo, col: Column, fields: map<string, Value>, ops: seq<string>, m: nat, parts: seq<Condition>,
                c: Condition)
    requires m < |ops| && ops[m] in fields && OpsUpTo(ti, col, fields, ops, m, parts)
    requires OperatorAccepted(ops[m], fields[ops[m]]) && OperatorCompiles(ti, col, ops[m], fields[ops[m]], c)
    ensures OpsUpTo(ti, col, fields, ops, m + 1, parts + [c])
  {
    assert ops[..m + 1] == ops[..m] + [ops[m]];
    OperatorsAcceptedStep(fields, ops[..m], ops[m]);
    CoversOpsAppend(ti, col, fields, ops[..m], ops[m], parts, c);
  }

  lemma OpsDone(ti: TableInfo, col: Column, fields: map<string, Value>, ops: seq<string>, parts: seq<Condition>)
    requires OpsUpTo(ti, col, fields, ops, |ops|, parts) && forall op :: op in fields <==> op in ops
    ensures OperatorsAccepted(fields, fields.Keys) && CoversOps(ti, col, fields, ops, parts)
  {
    assert ops[..|ops|] == ops;
    assert (set op | op in ops) == fields.Keys;
  }

  lemma OperatorsAcceptedStep(ops: map<string, Value>, done: seq<string>, op: string)
    requires op in ops && forall o :: o in done ==> o in ops
    ensures OperatorsAccepted(ops, set o | o in done + [op]) <==>
            OperatorsAccepted(ops, set o | o in done) && OperatorAccepted(op, ops[op])
  {
    assert forall o :: o in done + [op] <==> o in done || o == op;
  }

  // ----- what a filter selects, in two-valued terms -----

  /** A filter on one field with one operator is accepted exactly when the field is a column the role may read and the
      operand fits the operator. */
  lemma OneColumnAccepted(ti: TableInfo, field: string, op: string, v: Value)
    requires field != "_and" && field != "_or" && field != "_not"
    ensures Accepted(ti, Obj(map[field := Obj(map[op := v])])) <==>
              && field in ti.fieldToCol && ti.readable.Some? && ti.fieldToCol[field].name in ti.readable.value
              && (|| (!v.Null? && op in {"_eq", "_neq", "_gt", "_gte", "_lt", "_lte",
                                         "_like", "_nlike", "_regex", "_nregex"})
                  || (v.List? && op in {"_in", "_nin"})
                  || (v.Bool? && op == "_is_null") || op == "_contains" || (v.Str? && op == "_has_key"))
  {
    var inner := map[op := v];
    var e := Obj(map[field := Obj(inner)]);
    assert Accepted(ti, e) <==> EntryAccepted(ti, field, e.fields[field]);
    assert OperatorsAccepted(inner, inner.Keys) <==> OperatorAccepted(op, inner[op]);
  }

  /** The value compared with a column: the operand, encoded if the column holds JSON. */
  function Operand(ti: TableInfo, col: Column, v: Value): Value {
    if col.json && !v.Null? then Str(ti.jsonText(v)) else v
  }

  /** What one operator asks of a cell. NULL is equal to nothing and different from nothing. */
  predicate Asks(db: Db, ti: TableInfo, col: Column, op: string, v: Value, cell: Value) {
    match op
    case "_eq" => !cell.Null? && db.cmp(col.name, Eq, cell, Operand(ti, col, v))
    case "_neq" => !cell.Null? && !db.cmp(col.name, Eq, cell, Operand(ti, col, v))
    case "_gt" => !cell.Null? && db.cmp(col.name, Gt, cell, Operand(ti, col, v))
    case "_gte" => !cell.Null? && db.cmp(col.name, Gte, cell, Operand(ti, col, v))
    case "_lt" => !cell.Null? && db.cmp(col.name, Lt, cell, Operand(ti, col, v))
    case "_lte" => !cell.Null? && db.cmp(col.name, Lte, cell, Operand(ti, col, v))
    case "_like" => !cell.Null? && db.cmp(col.name, LikeOp, cell, Operand(ti, col, v))
    case "_nlike" => !cell.Null? && !db.cmp(col.name, LikeOp, cell, Operand(ti, col, v))
    case "_regex" => !cell.Null? && db.cmp(col.name, RegexpOp, cell, Operand(ti, col, v))
    case "_nregex" => !cell.Null? && !db.cmp(col.name, RegexpOp, cell, Operand(ti, col, v))
    case "_in" => v.List? && IsOneOf(db, ti, col, v.items, cell)
    case "_nin" => v.List? && IsNoneOf(db, ti, col, v.items, cell)
    case "_is_null" => v.Bool? && cell.Null? == v.b
    case "_contains" => db.contains(cell, Operand(ti, col, v)) == Yes
    case "_has_key" => db.hasKey(cell, v) == Yes
    case _ => false
  }

  predicate IsOneOf(db: Db, ti: TableInfo, col: Column, items: seq<Value>, cell: Value) {
    !cell.Null? && exists x :: x in items && !x.Null? && db.cmp(col.name, Eq, cell, Operand(ti, col, x))
  }

  predicate IsNoneOf(db: Db, ti: TableInfo, col: Column, items: seq<Value>, cell: Value) {
    items == [] ||
    (!cell.Null? && forall x :: x in items ==> !x.Null? && !db.cmp(col.name, Eq, cell, Operand(ti, col, x)))
  }

  /** The rows such a filter selects are those whose cell is as the operator asks. */
  lemma OneColumnSelects(db: Db, ti: TableInfo, field: string, op: string, v: Value, r: Row)
    requires field != "_and" && field != "_or" && field != "_not"
    requires Accepted(ti, Obj(map[field := Obj(map[op := v])]))
    ensures field in ti.fieldToCol
    ensures var col := ti.fieldToCol[field];
            TreeTruth(db, ti, Obj(map[field := Obj(map[op := v])]), r) == Yes <==>
            Asks(db, ti, col, op, v, Cell(r, col.name))
  {
    OneColumnAccepted(ti, field, op, v);
    OneColumnTruth(db, ti, field, op, v, r);
    if op == "_in" || op == "_nin" { MemberSelects(db, ti, ti.fieldToCol[field], v.items, r); }
  }

  lemma OneColumnTruth(db: Db, ti: TableInfo, field: string, op: string, v: Value, r: Row)
    requires field != "_and" && field != "_or" && field != "_not" && field in ti.fieldToCol
    ensures TreeTruth(db, ti, Obj(map[field := Obj(map[op := v])]), r) ==
            OperatorTruth(db, ti, ti.fieldToCol[field], op, v, r)
  {
    var inner := map[op := v];
    var e := Obj(map[field := Obj(inner)]);
    var col := ti.fieldToCol[field];
    var truths := set o | o in inner :: OperatorTruth(db, ti, col, o, inner[o], r);
    assert op in inner && OperatorTruth(db, ti, col, op, v, r) in truths;
    assert truths == {OperatorTruth(db, ti, col, op, v, r)};
    assert EntryTruth(db, ti, field, Obj(inner), r) == Conj(truths);
    var entries := set k | k in e.fields && Restricts(k, e.fields[k]) :: EntryTruth(db, ti, k, e.fields[k], r);
    assert field in e.fields && EntryTruth(db, ti, field, Obj(inner), r) in entries;
    assert entries == {EntryTruth(db, ti, field, Obj(inner), r)};
    assert TreeTruth(db, ti, e, r) == Conj(entries);
  }

  lemma MemberSelects(db: Db, ti: TableInfo, col: Column, items: seq<Value>, r: Row)
    ensures MemberTruth(db, ti, col, items, r) == Yes <==> IsOneOf(db, ti, col, items, Cell(r, col.name))
    ensures MemberTruth(db, ti, col, items, r) == No <==> IsNoneOf(db, ti, col, items, Cell(r, col.name))
  {
    var truths := set i | 0 <= i < |items| :: Cmp(db, col.name, Eq, Cell(r, col.name), BindValue(ti, col, items[i]));
    forall x | x in items ensures Cmp(db, col.name, Eq, Cell(r, col.name), BindValue(ti, col, x)) in truths {
      var i :| 0 <= i < |items| && items[i] == x;
    }
    if items != [] { assert items[0] in items; }
  }

  /** Entries are conjoined, whatever their order: true when all that restrict are, false when one is. */
  lemma EntriesConjoin(db: Db, ti: TableInfo, fields: map<string, Value>, r: Row)
    ensures TreeTruth(db, ti, Obj(fields), r) == Yes <==>
            forall k | k in fields && !fields[k].Null? && !(k in {"_and", "_or"} && fields[k] == List([])) ::
              EntryTruth(db, ti, k, fields[k], r) == Yes
    ensures TreeTruth(db, ti, Obj(fields), r) == No <==>
            exists k | k in fields && !fields[k].Null? && !(k in {"_and", "_or"} && fields[k] == List([])) ::
              EntryTruth(db, ti, k, fields[k], r) == No
  {
    forall k | k in fields
      ensures Restricts(k, fields[k]) <==> !fields[k].Null? && !(k in {"_and", "_or"} && fields[k] == List([]))
    {}
    var truths := set k | k in fields && Restricts(k, fields[k]) :: EntryTruth(db, ti, k, fields[k], r);
    assert TreeTruth(db, ti, Obj(fields), r) == Conj(truths);
    forall k | k in fields && Restricts(k, fields[k]) ensures EntryTruth(db, ti, k, fields[k], r) in truths {}
  }

  /** _and is true when every item is and false when one is, _or the other way round, _not swaps true and false. */
  lemma ConnectivesMean(db: Db, ti: TableInfo, items: seq<Value>, v: Value, r: Row)
    ensures EntryTruth(db, ti, "_and", List(items), r) == Yes <==>
            forall i | 0 <= i < |items| :: TreeTruth(db, ti, items[i], r) == Yes
    ensures EntryTruth(db, ti, "_and", List(items), r) == No <==>
            exists i | 0 <= i < |items| :: TreeTruth(db, ti, items[i], r) == No
    ensures EntryTruth(db, ti, "_or", List(items), r) == Yes <==>
            exists i | 0 <= i < |items| :: TreeTruth(db, ti, items[i], r) == Yes
    ensures EntryTruth(db, ti, "_or", List(items), r) == No <==>
            forall i | 0 <= i < |items| :: TreeTruth(db, ti, items[i], r) == No
    ensures EntryTruth(db, ti, "_not", v, r) == Yes <==> TreeTruth(db, ti, v, r) == No
    ensures EntryTruth(db, ti, "_not", v, r) == No <==> TreeTruth(db, ti, v, r) == Yes
  {
    var truths := set i | 0 <= i < |items| :: TreeTruth(db, ti, items[i], r);
    forall i | 0 <= i < |items| ensures TreeTruth(db, ti, items[i], r) in truths {}
    assert EntryTruth(db, ti, "_and", List(items), r) == Conj(truths);
    assert EntryTruth(db, ti, "_or", List(items), r) == Disj(truths);
  }
}

/** Role filters from the compiled expression to the rows a statement selects: rendering for one request,
    combination with the client's condition, and what the combination keeps. */
module RoleFilter {
  import opened Values
  import opened SqlText
  import opened SqlMeaning
  import opened Claims
  import opened Filters
  import opened Conditions
  import WhereCompiler

  /** The filter's expression with the claims in place. */
  function Expression(lex: Lexer, f: Filter, claims: ClaimMap): Text
    requires |f.segments| == |f.paths| + 1 && Renders(f.paths, claims)
  {
    Filled(lex, f.segments, f.paths, claims)
  }

  /** With the claims in place the expression is one whole condition (its own top-level OR included). */
  predicate Balanced(lex: Lexer, f: Filter, claims: ClaimMap)
    requires |f.segments| == |f.paths| + 1 && Renders(f.paths, claims)
  {
    LeftOver(ParseOr(Expression(lex, f, claims))) == Some([])
  }

  /** The rows the expression itself keeps. */
  predicate Keeps(db: Db, lex: Lexer, f: Filter, claims: ClaimMap, r: Row)
    requires |f.segments| == |f.paths| + 1 && Renders(f.paths, claims) && Balanced(lex, f, claims)
  {
    Eval(db, ParseOr(Expression(lex, f, claims)).e, r) == Yes
  }

  /** The row filter of an operation for the current identity; none when the operation is unrestricted. */
  method RbacCond(lex: Lexer, filter: Option<Filter>, claims: ClaimMap) returns (r: Result<Option<Condition>>)
    requires filter.Some? ==> Spliceable(lex, filter.value)
    ensures r.Ok? <==> (filter.Some? ==> Renders(filter.value.paths, claims))
    ensures r.Ok? ==> (r.value.Some? <==> filter.Some?)
    ensures r.Ok? && filter.Some? ==>
            Aligned(r.value.value) && BoundText(r.value.value) == Expression(lex, filter.value, claims)
  {
    if filter.None? { return Ok(None); }
    var c := FilterSql(lex, filter.value, claims);
    if c.Err? { return Err(c.reason); }
    return Ok(Some(c.value));
  }

  /** A rendered filter that is one whole condition keeps, in every combination and wherever it stands, exactly
      the rows its expression keeps with the claims in place. */
  lemma CompiledFilterSurvives(db: Db, table: set<Row>, lex: Lexer, f: Filter, claims: ClaimMap, c: Condition,
                               before: seq<Option<Condition>>, behind: seq<Option<Condition>>)
    requires |f.segments| == |f.paths| + 1 && Renders(f.paths, claims) && Balanced(lex, f, claims)
    requires Aligned(c) && BoundText(c) == Expression(lex, f, claims) && AllWellFormed(before + behind)
    ensures WellFormed(Combine(before + [Some(c)] + behind))
    ensures Selected(db, table, Combine(before + [Some(c)] + behind)) ==
            set r | r in table && Keeps(db, lex, f, claims, r) && AllHold(db, before + behind, r)
  {
    var conds := before + [Some(c)] + behind;
    assert WellFormed(c);
    OthersOf(before, Some(c), behind);
    CombineMeans(conds);
    forall r: Row
      ensures Holds(db, Combine(conds), r) <==> Keeps(db, lex, f, claims, r) && AllHold(db, before + behind, r)
    {
      AllHoldInserted(db, before, c, behind, r);
    }
  }

  lemma OthersOf(before: seq<Option<Condition>>, c: Option<Condition>, behind: seq<Option<Condition>>)
    requires AllWellFormed(before + behind) && (c.Some? ==> WellFormed(c.value))
    ensures AllWellFormed(before + [c] + behind)
  {
    var conds, others := before + [c] + behind, before + behind;
    forall i | 0 <= i < |conds| && conds[i].Some? && conds[i].value.sql != [] ensures WellFormed(conds[i].value) {
      if i < |before| { assert conds[i] == others[i]; }
      if i > |before| { assert conds[i] == others[i - 1]; }
    }
  }

  lemma AllHoldInserted(db: Db, before: seq<Option<Condition>>, c: Condition, behind: seq<Option<Condition>>, r: Row)
    requires WellFormed(c)
    ensures AllHold(db, before + [Some(c)] + behind, r) <==> Holds(db, c, r) && AllHold(db, before + behind, r)
  {
    var conds, others := before + [Some(c)] + behind, before + behind;
    if AllHold(db, conds, r) {
      assert conds[|before|] == Some(c);
      forall i | 0 <= i < |others| && others[i].Some? && WellFormed(others[i].value)
        ensures Holds(db, others[i].value, r)
      {
        assert others[i] == conds[if i < |before| then i else i + 1];
      }
    }
    if Holds(db, c, r) && AllHold(db, others, r) {
      forall i | 0 <= i < |conds| && conds[i].Some? && WellFormed(conds[i].value) ensures Holds(db, conds[i].value, r) {
        if i < |before| { assert conds[i] == others[i]; }
        if i > |before| { assert conds[i] == others[i - 1]; }
      }
    }
  }

  predicate AllAligned(conds: seq<Option<Condition>>) {
    forall i :: 0 <= i < |conds| && conds[i].Some? ==> Aligned(conds[i].value)
  }

  /** The WHERE part of a statement: the rendered role filter among the client's and the resolver's own
      conditions. Every placeholder is aligned, whole condition or not; and when the filter is one, the rows
      selected are exactly those it keeps among those the others keep. */
  method RoleWhere(lex: Lexer, filter: Option<Filter>, claims: ClaimMap, before: seq<Option<Condition>>,
                   behind: seq<Option<Condition>>)
    returns (r: Result<Condition>)
    requires filter.Some? ==> Spliceable(lex, filter.value)
    requires AllAligned(before + behind)
    ensures r.Ok? <==> (filter.Some? ==> Renders(filter.value.paths, claims))
    ensures r.Ok? ==> Aligned(r.value)
    ensures r.Ok? && AllWellFormed(before + behind) ==> Restricts(r.value, lex, filter, claims, before + behind)
  {
    var filterCond := RbacCond(lex, filter, claims);
    if filterCond.Err? { return Err(filterCond.reason); }
    var conds := before + [filterCond.value] + behind;
    var where := CombineConds(conds);
    AlignedInserted(before, filterCond.value, behind);
    CombineAligned(conds);
    if AllWellFormed(before + behind) {
      if filter.None? {
        UnrestrictedMeans(before, behind, where);
      } else if Balanced(lex, filter.value, claims) {
        assert WellFormed(filterCond.value.value);
        OthersOf(before, filterCond.value, behind);
        CombineMeans(conds);
        forall db: Db, table: set<Row>
          ensures Selected(db, table, where)
                  == set x | x in table && Keeps(db, lex, filter.value, claims, x) && AllHold(db, before + behind, x)
        {
          CompiledFilterSurvives(db, table, lex, filter.value, claims, filterCond.value.value, before, behind);
        }
      }
    }
    return Ok(where);
  }

  /** What a WHERE part selects: the rows the other conditions keep, and of those, when the filter is one whole
      condition, the ones it keeps. */
  ghost predicate Restricts(where: Condition, lex: Lexer, filter: Option<Filter>, claims: ClaimMap,
                            others: seq<Option<Condition>>)
    requires filter.Some? ==> |filter.value.segments| == |filter.value.paths| + 1 && Renders(filter.value.paths, claims)
  {
    match filter
    case None =>
      WellFormed(where) && forall db: Db, table: set<Row> ::
        Selected(db, table, where) == set x | x in table && AllHold(db, others, x)
    case Some(f) =>
      Balanced(lex, f, claims) ==>
        WellFormed(where) && forall db: Db, table: set<Row> ::
          Selected(db, table, where) == set x | x in table && Keeps(db, lex, f, claims, x) && AllHold(db, others, x)
  }

  lemma AlignedInserted(before: seq<Option<Condition>>, c: Option<Condition>, behind: seq<Option<Condition>>)
    requires AllAligned(before + behind) && (c.Some? ==> Aligned(c.value))
    ensures AllAligned(before + [c] + behind)
  {
    var conds, others := before + [c] + behind, before + behind;
    forall i | 0 <= i < |conds| && conds[i].Some? ensures Aligned(conds[i].value) {
      if i < |before| { assert conds[i] == others[i]; }
      if i > |before| { assert conds[i] == others[i - 1]; }
    }
  }

  lemma UnrestrictedMeans(before: seq<Option<Condition>>, behind: seq<Option<Condition>>, where: Condition)
    requires AllWellFormed(before + behind) && where == Combine(before + [None] + behind)
    ensures WellFormed(where)
    ensures forall db: Db, table: set<Row> ::
              Selected(db, table, where) == set x | x in table && AllHold(db, before + behind, x)
  {
    KeptConcat(before, [None] + behind);
    KeptConcat([None], behind);
    KeptConcat(before, behind);
    KeptAppend([], None);
    var nothing: seq<Option<Condition>> := [];
    assert nothing + [None] == [None];
    assert before + [None] + behind == before + ([None] + behind);
    assert Kept([None]) == [] && Kept([None] + behind) == Kept(behind);
    assert Kept(before + [None] + behind) == Kept(before + behind);
    CombineMeans(before + behind);
  }

  // ----- a claim in a list -----

  lemma ValueThenMore(x: Value, tail: Text, more: seq<Value>, rest: Text)
    requires ParseValues(tail) == Some((more, rest))
    ensures ParseValues([Bound(x), Comma] + tail) == Some(([x] + more, rest))
  {
    assert ([Bound(x), Comma] + tail)[2..] == tail;
  }

  lemma {:induction false} ListThenMore(items: seq<Value>, tail: Text, more: seq<Value>, rest: Text)
    requires items != [] && ParseValues(tail) == Some((more, rest))
    ensures ParseValues(ListText(items) + ([Comma] + tail)) == Some((items + more, rest))
  {
    var n := |items| - 1;
    var x := items[n];
    ValueThenMore(x, tail, more, rest);
    if n == 0 {
      assert ListText(items) + ([Comma] + tail) == [Bound(x), Comma] + tail && items == [x];
    } else {
      ListThenMore(items[..n], [Bound(x), Comma] + tail, [x] + more, rest);
      assert ListText(items) + ([Comma] + tail) == ListText(items[..n]) + ([Comma] + ([Bound(x), Comma] + tail));
      assert items[..n] + ([x] + more) == items + more;
    }
  }

  /** The values a claim stands for between the parentheses of an IN. */
  function ListValues(v: Value): seq<Value> {
    if !v.List? then [v] else if v.items == [] then [Null] else v.items
  }

  lemma ClaimListParses(v: Value)
    ensures ParseValues(ClaimText(v) + [RParen]) == Some((ListValues(v), []))
  {
    if v.List? && v.items != [] {
      var n := |v.items| - 1;
      var end := [Bound(v.items[n]), RParen];
      assert end[2..] == [] && ParseValues(end) == Some(([v.items[n]], []));
      if n == 0 {
        assert ListText(v.items) + [RParen] == end && v.items == [v.items[0]];
      } else {
        ListThenMore(v.items[..n], end, [v.items[n]], []);
        assert ListText(v.items) + [RParen] == ListText(v.items[..n]) + ([Comma] + end);
        assert v.items[..n] + [v.items[n]] == v.items;
      }
    } else {
      assert (ClaimText(v) + [RParen])[2..] == [];
    }
  }

  /** "column IN (:jwt.path)" keeps the rows whose column equals the claim's value, or one of its elements; an empty
      array, like a null, keeps none. */
  lemma ClaimInMeans(db: Db, c: string, v: Value, r: Row)
    ensures var p := ParseNot([Ident(c)] + ([KwIn, LParen] + (ClaimText(v) + [RParen])));
            && p.Done? && p.rest == []
            && (Eval(db, p.e, r) == Yes <==>
                  !Cell(r, c).Null? &&
                  exists x :: x in (if v.List? then v.items else [v]) && !x.Null? && db.cmp(c, Eq, Cell(r, c), x))
  {
    ClaimListParses(v);
    WhereCompiler.InParses(c, ClaimText(v) + [RParen], ListValues(v));
    var values := ListValues(v);
    var truths := set i | 0 <= i < |values| :: Cmp(db, c, Eq, Cell(r, c), values[i]);
    forall x | x in values ensures Cmp(db, c, Eq, Cell(r, c), x) in truths {
      var i :| 0 <= i < |values| && values[i] == x;
    }
    assert EvalPred(db, InList(c, values), r) == Disj(truths);
  }
}

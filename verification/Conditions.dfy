/** Composition of WHERE conditions: combineConds, what rows a combined condition selects, and what the
    splicing of filter text between parentheses allows. */
module Conditions {
  import opened Values
  import opened SqlText
  import opened SqlMeaning
  import opened WhereCompiler

  // ----- combineConds -----

  /** The parenthesised operands combineConds joins: absent and empty conditions are skipped. */
  function Kept(conds: seq<Option<Condition>>): seq<Condition> {
    if conds == [] then []
    else
      var init, last := conds[..|conds| - 1], conds[|conds| - 1];
      if last.None? || last.value.sql == [] then Kept(init) else Kept(init) + [Parenthesised(last.value)]
  }

  const TRUE_CONDITION := Condition([Number(1), Op("="), Number(1)], [])

  function Combine(conds: seq<Option<Condition>>): Condition {
    if Kept(conds) == [] then TRUE_CONDITION else Condition(Join(Texts(Kept(conds)), [KwAnd]), Arguments(Kept(conds)))
  }

  method CombineConds(conds: seq<Option<Condition>>) returns (c: Condition)
    ensures c == Combine(conds)
  {
    var parts: seq<Text> := [];
    var args: seq<Value> := [];
    for i := 0 to |conds|
      invariant parts == Texts(Kept(conds[..i])) && args == Arguments(Kept(conds[..i]))
    {
      assert conds[..i + 1][..i] == conds[..i];
      if conds[i].Some? && conds[i].value.sql != [] {
        var cond := conds[i].value;
        assert Kept(conds[..i + 1]) == Kept(conds[..i]) + [Parenthesised(cond)];
        ArgumentsConcat(Kept(conds[..i]), [Parenthesised(cond)]);
      } else {
        assert Kept(conds[..i + 1]) == Kept(conds[..i]);
      }
      if conds[i].Some? && conds[i].value.sql != [] {
        var cond := conds[i].value;
        parts, args := parts + [Parens(cond.sql)], args + cond.args;
      }
    }
    assert conds[..|conds|] == conds;
    if parts == [] { return TRUE_CONDITION; }
    return Condition(Join(parts, [KwAnd]), args);
  }

  /** Every condition that is present and not empty is a whole expression. */
  predicate AllWellFormed(conds: seq<Option<Condition>>) {
    forall i :: 0 <= i < |conds| && conds[i].Some? && conds[i].value.sql != [] ==> WellFormed(conds[i].value)
  }

  /** All the conditions hold of the row; absent ones restrict nothing. */
  predicate AllHold(db: Db, conds: seq<Option<Condition>>, r: Row) {
    forall i :: 0 <= i < |conds| && conds[i].Some? && WellFormed(conds[i].value) ==> Holds(db, conds[i].value, r)
  }

  lemma EmptyIsNotWellFormed(c: Condition)
    requires c.sql == []
    ensures !WellFormed(c)
  {
  }

  lemma {:induction false} KeptAreUnits(conds: seq<Option<Condition>>)
    requires AllWellFormed(conds)
    ensures AllUnits(Kept(conds))
  {
    if conds != [] {
      var n := |conds| - 1;
      assert forall i :: 0 <= i < n ==> conds[i] == conds[..n][i];
      KeptAreUnits(conds[..n]);
      if conds[n].Some? && conds[n].value.sql != [] { ParenthesisedMeans(conds[n].value); }
    }
  }

  lemma AllHoldInit(db: Db, conds: seq<Option<Condition>>, r: Row)
    requires conds != []
    ensures var n := |conds| - 1;
            AllHold(db, conds, r) <==> AllHold(db, conds[..n], r) && HoldsIfPresent(db, conds[n], r)
  {
    var n := |conds| - 1;
    assert forall i :: 0 <= i < n ==> conds[i] == conds[..n][i];
  }

  lemma {:induction false} KeptTruths(db: Db, conds: seq<Option<Condition>>, r: Row)
    requires AllWellFormed(conds)
    ensures Conj(UnitTruths(db, Kept(conds), r)) == Yes <==> AllHold(db, conds, r)
  {
    if conds != [] {
      var n := |conds| - 1;
      AllHoldInit(db, conds, r);
      assert forall i :: 0 <= i < n ==> conds[i] == conds[..n][i];
      KeptTruths(db, conds[..n], r);
      if conds[n].Some? && conds[n].value.sql != [] {
        var last := Parenthesised(conds[n].value);
        ParenthesisedMeans(conds[n].value);
        UnitTruthsConcat(db, Kept(conds[..n]), [last], r);
        SingleUnit(db, last, r);
      } else if conds[n].Some? {
        EmptyIsNotWellFormed(conds[n].value);
      }
    }
  }

  lemma TrueConditionMeans()
    ensures WellFormed(TRUE_CONDITION) && Meaning(TRUE_CONDITION) == Leaf(Const(true))
  {
    BindNoHoles(TRUE_CONDITION.sql);
    assert TRUE_CONDITION.sql[3..] == [];
    assert ParseNot(TRUE_CONDITION.sql) == Done(Leaf(Const(true)), []);
  }

  /** The combined text parses, with every placeholder bound, as the conjunction of its inputs:
      a row is selected exactly when every input selects it. */
  lemma CombineMeans(conds: seq<Option<Condition>>)
    requires AllWellFormed(conds)
    ensures WellFormed(Combine(conds))
    ensures forall db: Db, r: Row :: Holds(db, Combine(conds), r) <==> AllHold(db, conds, r)
  {
    var cs := Kept(conds);
    KeptAreUnits(conds);
    if cs == [] { TrueConditionMeans(); } else { JoinAndMeans(cs); }
    forall db: Db, r: Row ensures Holds(db, Combine(conds), r) <==> AllHold(db, conds, r) {
      KeptTruths(db, conds, r);
    }
  }

  /** The role filter survives composition: whatever the client's where and the resolver's own
      condition are, every selected row satisfies the filter, and nothing else is lost. */
  lemma RoleFilterSurvives(db: Db, table: set<Row>, user: Option<Condition>, filter: Condition,
                           extra: Option<Condition>)
    requires WellFormed(filter) && AllWellFormed([user, extra])
    ensures WellFormed(Combine([user, Some(filter), extra]))
    ensures Selected(db, table, Combine([user, Some(filter), extra])) ==
            set r | r in Selected(db, table, filter) && AllHold(db, [user, extra], r)
  {
    var conds := [user, Some(filter), extra];
    var others := [user, extra];
    assert others[0] == user && others[1] == extra;
    assert forall i :: 0 <= i < 3 ==>
             conds[i] == if i == 0 then others[0] else if i == 1 then Some(filter) else others[1];
    CombineMeans(conds);
    forall r: Row ensures AllHold(db, conds, r) <==> Holds(db, filter, r) && AllHold(db, others, r) {
      AllHoldThree(db, conds, r);
      AllHoldTwo(db, others, r);
    }
  }

  predicate HoldsIfPresent(db: Db, c: Option<Condition>, r: Row) {
    c.Some? && WellFormed(c.value) ==> Holds(db, c.value, r)
  }

  lemma AllHoldTwo(db: Db, conds: seq<Option<Condition>>, r: Row)
    requires |conds| == 2
    ensures AllHold(db, conds, r) <==> HoldsIfPresent(db, conds[0], r) && HoldsIfPresent(db, conds[1], r)
  {
  }

  lemma AllHoldThree(db: Db, conds: seq<Option<Condition>>, r: Row)
    requires |conds| == 3
    ensures AllHold(db, conds, r) <==>
            HoldsIfPresent(db, conds[0], r) && HoldsIfPresent(db, conds[1], r) && HoldsIfPresent(db, conds[2], r)
  {
  }

  /** The text two present conditions combine to. */
  lemma CombineTwo(a: Condition, b: Condition)
    requires Aligned(a) && Aligned(b) && a.sql != [] && b.sql != []
    ensures var c := Combine([Some(a), Some(b)]);
            Aligned(c) && BoundText(c) == Parens(BoundText(a)) + ([KwAnd] + Parens(BoundText(b)))
  {
    var u, f := Parenthesised(a), Parenthesised(b);
    KeptAppend([], Some(a));
    KeptAppend([Some(a)], Some(b));
    assert [] + [Some(a)] == [Some(a)] && [Some(a)] + [Some(b)] == [Some(a), Some(b)];
    assert [] + [u] == [u] && [u] + [f] == [u, f];
    BindAround([LParen], a.sql, a.args, [RParen]);
    BindAround([LParen], b.sql, b.args, [RParen]);
    JoinBinds([u, f], [KwAnd]);
    JoinTwo(BoundTexts([u, f]));
  }

  lemma KeptAppend(conds: seq<Option<Condition>>, last: Option<Condition>)
    ensures Kept(conds + [last]) ==
            if last.None? || last.value.sql == [] then Kept(conds) else Kept(conds) + [Parenthesised(last.value)]
  {
    assert (conds + [last])[..|conds|] == conds;
  }

  lemma JoinTwo(parts: seq<Text>)
    requires |parts| == 2
    ensures Join(parts, [KwAnd]) == parts[0] + ([KwAnd] + parts[1])
  {
    assert parts[1..] == [parts[1]];
    assert parts[0] + [KwAnd] + parts[1] == parts[0] + ([KwAnd] + parts[1]);
  }

  /** The text behind the filter: another condition joined to it, or nothing. */
  function Behind(extra: Option<Condition>): Text
    requires extra.Some? ==> Aligned(extra.value)
  {
    if extra.None? || extra.value.sql == [] then [] else [KwAnd] + Parens(BoundText(extra.value))
  }

  lemma {:induction false} KeptConcat(a: seq<Option<Condition>>, b: seq<Option<Condition>>)
    ensures Kept(a + b) == Kept(a) + Kept(b)
  {
    if b == [] {
      assert a + b == a;
    } else {
      assert (a + b)[..|a + b| - 1] == a + b[..|b| - 1];
      KeptConcat(a, b[..|b| - 1]);
    }
  }

  lemma {:induction false} JoinConcat(a: seq<Text>, b: seq<Text>, sep: Text)
    requires a != [] && b != []
    ensures Join(a + b, sep) == Join(a, sep) + (sep + Join(b, sep))
  {
    assert (a + b)[1..] == a[1..] + b;
    if |a| > 1 {
      JoinConcat(a[1..], b, sep);
      Associates(a[0] + sep, Join(a[1..], sep), sep + Join(b, sep));
    } else {
      assert a[1..] + b == b;
      assert a[0] + sep + Join(b, sep) == a[0] + (sep + Join(b, sep));
    }
  }

  lemma BoundTextsConcat(a: seq<Condition>, b: seq<Condition>)
    requires forall i :: 0 <= i < |a| ==> Aligned(a[i])
    requires forall i :: 0 <= i < |b| ==> Aligned(b[i])
    ensures BoundTexts(a + b) == BoundTexts(a) + BoundTexts(b)
  {
  }

  /** The filter and the text behind it, as they are spliced. */
  function Spliced(filter: Condition, extra: Option<Condition>): Text
    requires Aligned(filter) && (extra.Some? ==> Aligned(extra.value))
  {
    Parens(BoundText(filter)) + Behind(extra)
  }

  lemma SplicedIsJoined(filter: Condition, extra: Option<Condition>)
    requires Aligned(filter) && filter.sql != [] && (extra.Some? ==> Aligned(extra.value))
    ensures var kept := Kept([Some(filter), extra]);
            && kept != [] && (forall i :: 0 <= i < |kept| ==> Aligned(kept[i]))
            && Join(BoundTexts(kept), [KwAnd]) == Spliced(filter, extra)
  {
    var f := Parenthesised(filter);
    assert [] + [Some(filter)] == [Some(filter)] && [Some(filter)] + [extra] == [Some(filter), extra];
    KeptAppend([], Some(filter));
    KeptAppend([Some(filter)], extra);
    ParenthesisedBinds(filter);
    if extra.Some? && extra.value.sql != [] {
      var x := Parenthesised(extra.value);
      ParenthesisedBinds(extra.value);
      assert Kept([Some(filter), extra]) == [f, x];
      JoinTwo(BoundTexts([f, x]));
    } else {
      assert Kept([Some(filter), extra]) == [f];
      assert BoundTexts([f]) == [BoundText(f)];
      assert Parens(BoundText(filter)) + [] == Parens(BoundText(filter));
    }
  }

  lemma ParenthesisedBinds(c: Condition)
    requires Aligned(c)
    ensures Aligned(Parenthesised(c)) && BoundText(Parenthesised(c)) == Parens(BoundText(c))
  {
    BindAround([LParen], c.sql, c.args, [RParen]);
  }

  /** Placeholders stay aligned in every combination of aligned conditions, whether or not they parse. */
  lemma CombineAligned(conds: seq<Option<Condition>>)
    requires forall i :: 0 <= i < |conds| && conds[i].Some? ==> Aligned(conds[i].value)
    ensures Aligned(Combine(conds))
    ensures forall i :: 0 <= i < |Kept(conds)| ==> Aligned(Kept(conds)[i])
    ensures Kept(conds) != [] ==> BoundText(Combine(conds)) == Join(BoundTexts(Kept(conds)), [KwAnd])
  {
    KeptAligned(conds);
    if Kept(conds) == [] { BindNoHoles(TRUE_CONDITION.sql); } else { JoinBinds(Kept(conds), [KwAnd]); }
  }

  lemma {:induction false} KeptAligned(conds: seq<Option<Condition>>)
    requires forall i :: 0 <= i < |conds| && conds[i].Some? ==> Aligned(conds[i].value)
    ensures forall i :: 0 <= i < |Kept(conds)| ==> Aligned(Kept(conds)[i])
  {
    if conds != [] {
      var n := |conds| - 1;
      KeptAligned(conds[..n]);
      if conds[n].Some? { BindAround([LParen], conds[n].value.sql, conds[n].value.args, [RParen]); }
    }
  }

  /** A parse with operands in front. */
  function Preceded(es: seq<Expr>, p: Parse): Parse {
    match p case Fail => Fail case Done(x, more) => Done(AndAll(es + [x]), more)
  }

  lemma AndAllFirst(e: Expr, es: seq<Expr>)
    requires es != []
    ensures AndAll([e] + es) == AndE(e, AndAll(es))
  {
    assert ([e] + es)[1..] == es;
  }

  lemma OperandParses(part: Text, e: Expr, tail: Text)
    requires Unit(part, e)
    ensures ParseAnd(part + ([KwAnd] + tail)) == Preceded([e], ParseAnd(tail))
  {
    var rest := [KwAnd] + tail;
    ParseNotExtend(part, rest);
    assert [] + rest == rest && rest[1..] == tail;
    if ParseAnd(tail).Done? { AndAllFirst(e, [ParseAnd(tail).e]); }
  }

  lemma PrecededTwice(e: Expr, es: seq<Expr>, p: Parse)
    ensures Preceded([e], Preceded(es, p)) == Preceded([e] + es, p)
  {
    if p.Done? {
      AndAllFirst(e, es + [p.e]);
      AndAllFirst(e, [AndAll(es + [p.e])]);
      assert [e] + es + [p.e] == [e] + (es + [p.e]);
    }
  }

  /** Operands joined in front of a text that is parsed on its own. */
  lemma {:induction false} PrefixParses(parts: seq<Text>, es: seq<Expr>, tail: Text)
    requires |parts| == |es| > 0 && forall i :: 0 <= i < |parts| ==> Unit(parts[i], es[i])
    ensures ParseAnd(Join(parts, [KwAnd]) + ([KwAnd] + tail)) == Preceded(es, ParseAnd(tail))
  {
    if |parts| == 1 {
      assert es == [es[0]];
      OperandParses(parts[0], es[0], tail);
    } else {
      PrefixParses(parts[1..], es[1..], tail);
      OperandParses(parts[0], es[0], Join(parts[1..], [KwAnd]) + ([KwAnd] + tail));
      Associates(parts[0] + [KwAnd], Join(parts[1..], [KwAnd]), [KwAnd] + tail);
      Associates(parts[0], [KwAnd], Join(parts[1..], [KwAnd]) + ([KwAnd] + tail));
      PrecededTwice(es[0], es[1..], ParseAnd(tail));
      assert [es[0]] + es[1..] == es;
    }
  }

  lemma {:induction false} AndAllLast(es: seq<Expr>, x: Expr, y: Expr)
    requires AndAll(es + [x]) == AndAll(es + [y])
    ensures x == y
  {
    if es != [] {
      assert (es + [x])[1..] == es[1..] + [x] && (es + [y])[1..] == es[1..] + [y];
      AndAllLast(es[1..], x, y);
    }
  }

  /** Filter text is spliced between parentheses, not parsed. Whatever well-formed conditions stand before it
      and whatever stands behind it, the combined text is their conjunction with y exactly when "(filter)" and
      what follows it read as y on their own; with nothing before it the combined text is just that. */
  lemma FilterSpliceExact(before: seq<Option<Condition>>, filter: Condition, extra: Option<Condition>, y: Expr)
    requires AllWellFormed(before) && Aligned(filter) && filter.sql != [] && (extra.Some? ==> Aligned(extra.value))
    ensures var c, operands := Combine(before + [Some(filter), extra]), Kept(before);
            && Aligned(c)
            && (operands == [] ==> BoundText(c) == Spliced(filter, extra))
            && (operands != [] ==>
                  (Complete(BoundText(c), AndAll(Meanings(operands) + [y])) <==>
                   ParseAnd(Spliced(filter, extra)) == Done(y, [])))
  {
    var operands, last := Kept(before), Kept([Some(filter), extra]);
    var conds := before + [Some(filter), extra];
    KeptAreUnits(before);
    SplicedIsJoined(filter, extra);
    KeptConcat(before, [Some(filter), extra]);
    BoundTextsConcat(operands, last);
    JoinBinds(operands + last, [KwAnd]);
    assert BoundText(Combine(conds)) == Join(BoundTexts(operands) + BoundTexts(last), [KwAnd]);
    if operands == [] {
      assert BoundTexts(operands) + BoundTexts(last) == BoundTexts(last);
    } else {
      JoinConcat(BoundTexts(operands), BoundTexts(last), [KwAnd]);
      PrefixParses(BoundTexts(operands), Meanings(operands), Spliced(filter, extra));
      PrefixComplete(BoundText(Combine(conds)), Meanings(operands), Spliced(filter, extra), y);
    }
  }

  lemma PrefixComplete(text: Text, es: seq<Expr>, tail: Text, y: Expr)
    requires es != []
    requires ParseAnd(text) == Preceded(es, ParseAnd(tail))
    ensures Complete(text, AndAll(es + [y])) <==> ParseAnd(tail) == Done(y, [])
  {
    if Complete(text, AndAll(es + [y])) {
      assert (es + [y])[0] == es[0] && |es + [y]| > 1;
      AndAllLast(es, ParseAnd(tail).e, y);
    }
  }

  /** Parsing "(u) AND rest". */
  lemma SpliceParses(u: Text, e: Expr, rest: Text)
    requires Complete(u, e)
    ensures ParseAnd(Parens(u) + ([KwAnd] + rest)) ==
            match ParseAnd(rest) case Fail => Fail case Done(x, more) => Done(AndE(e, x), more)
  {
    var tail := [KwAnd] + rest;
    ParenthesesMakeUnit(u, e);
    ParseNotExtend(Parens(u), tail);
    assert [] + tail == tail && tail[1..] == rest;
  }

  const A_IS_ZERO: Text := [Ident("a"), Op("="), Number(0)]

  /** "`a` = 0) OR (1=1" */
  const ESCAPING_FILTER := Condition(A_IS_ZERO + ([RParen, KwOr, LParen] + TRUE_CONDITION.sql), [])

  /** A filter that is not one whole expression can undo itself: this one leaves every row
      selectable, whatever the user's condition, although its parentheses pair up. */
  lemma UnbalancedFilterEscapes(db: Db, user: Condition, r: Row)
    requires WellFormed(user)
    ensures var c := Combine([Some(user), Some(ESCAPING_FILTER)]);
            !WellFormed(ESCAPING_FILTER) && WellFormed(c) && Holds(db, c, r)
  {
    var filter := ESCAPING_FILTER;
    BindNoHoles(filter.sql);
    EmptyIsNotWellFormed(Condition([], user.args));
    CombineTwo(user, filter);
    SpliceParses(BoundText(user), Meaning(user), Parens(filter.sql));
    EscapedTailParses();
    assert ([KwOr] + Parens(TRUE_CONDITION.sql))[1..] == Parens(TRUE_CONDITION.sql);
  }

  lemma AIsZeroParses()
    ensures Complete(A_IS_ZERO, Leaf(Compare("a", Eq, Int(0))))
  {
    assert A_IS_ZERO[1..] == [Op("="), Number(0)] && A_IS_ZERO[1..][2..] == [];
    assert ParseColumn("a", A_IS_ZERO[1..]) == Done(Leaf(Compare("a", Eq, Int(0))), []);
    assert ParseNot(A_IS_ZERO) == Done(Leaf(Compare("a", Eq, Int(0))), []);
  }

  lemma EscapedTailParses()
    ensures ParseOr(ESCAPING_FILTER.sql).Done? && ParseOr(ESCAPING_FILTER.sql).rest != []
    ensures ParseAnd(Parens(ESCAPING_FILTER.sql)) ==
            Done(Leaf(Compare("a", Eq, Int(0))), [KwOr] + Parens(TRUE_CONDITION.sql))
    ensures ParseOr(Parens(TRUE_CONDITION.sql)) == Done(Leaf(Const(true)), [])
  {
    AIsZeroParses();
    var a, t := A_IS_ZERO, TRUE_CONDITION.sql;
    SplitParens(a, t);
    EscapeParses(a, Leaf(Compare("a", Eq, Int(0))), t);
    TrueConditionMeans();
    BindNoHoles(t);
    ParenthesesMakeUnit(t, Leaf(Const(true)));
  }

  lemma SplitParens(a: Text, t: Text)
    ensures Parens(a + ([RParen, KwOr, LParen] + t)) == Parens(a) + ([KwOr] + Parens(t))
  {}

  /** "a) OR (t", alone and between parentheses. */
  lemma EscapeParses(a: Text, e: Expr, t: Text)
    requires Complete(a, e)
    ensures ParseOr(a + ([RParen, KwOr, LParen] + t)) == Done(e, [RParen, KwOr, LParen] + t)
    ensures ParseAnd(Parens(a) + ([KwOr] + Parens(t))) == Done(e, [KwOr] + Parens(t))
  {
    var rest, tail := [RParen, KwOr, LParen] + t, [KwOr] + Parens(t);
    ParseOrExtend(a, rest);
    assert [] + rest == rest;
    ParenthesesMakeUnit(a, e);
    ParseNotExtend(Parens(a), tail);
    assert [] + tail == tail;
  }
}

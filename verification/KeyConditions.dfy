/** Conditions on key columns: the batched "key IN (…)", the keyset seek "(pk…) > (…)" and the
    per-row equality, in their single-column and row-value forms. */
module KeyConditions {
  import opened Values
  import opened Catalog
  import opened SqlText
  import opened SqlMeaning
  import opened WhereCompiler

  type Key = seq<Value>

  function IdentList(cols: seq<string>): Text
    requires cols != []
  {
    if |cols| == 1 then [Ident(cols[0])] else [Ident(cols[0]), Comma] + IdentList(cols[1..])
  }

  /** "(?, …), (?, …), …": n tuples of placeholders. */
  function HoleTuples(n: nat, width: nat): Text
    requires n > 0 && width > 0
  {
    if n == 1 then Parens(HoleList(width)) else Parens(HoleList(width)) + ([Comma] + HoleTuples(n - 1, width))
  }

  function Flatten(keys: seq<Key>): seq<Value> { if keys == [] then [] else keys[0] + Flatten(keys[1..]) }

  predicate AllOfWidth(keys: seq<Key>, width: nat) { forall i :: 0 <= i < |keys| ==> |keys[i]| == width }

  // ----- parsing the pieces -----

  lemma {:induction false} IdentListParses(cols: seq<string>)
    requires cols != []
    ensures Holes(IdentList(cols)) == 0 && Bind(IdentList(cols), []) == IdentList(cols)
    ensures ParseColumns(IdentList(cols) + [RParen]) == Some((cols, []))
  {
    var ts := IdentList(cols) + [RParen];
    if |cols| == 1 {
      BindNoHoles(IdentList(cols));
      assert ts[2..] == [] && cols == [cols[0]];
    } else {
      IdentListParses(cols[1..]);
      BindNoHoles([Ident(cols[0]), Comma]);
      BindConcat([Ident(cols[0]), Comma], [], IdentList(cols[1..]), []);
      var none: seq<Value> := [];
      assert none + none == none;
      assert ts[2..] == IdentList(cols[1..]) + [RParen] && cols == [cols[0]] + cols[1..];
    }
  }

  lemma HoleTupleBinds(vs: seq<Value>)
    requires vs != []
    ensures Holes(HoleList(|vs|)) == |vs| && Holes(Parens(HoleList(|vs|))) == |vs|
    ensures Bind(Parens(HoleList(|vs|)), vs) == [LParen] + (Bind(HoleList(|vs|), vs) + [RParen])
  {
    HoleListParses(vs);
    ParensBind(HoleList(|vs|), vs);
  }

  lemma ParensBind(ts: Text, args: seq<Value>)
    requires Holes(ts) == |args|
    ensures Holes(Parens(ts)) == |args| && Bind(Parens(ts), args) == [LParen] + (Bind(ts, args) + [RParen])
  {
    BindAround([LParen], ts, args, [RParen]);
    var b := Bind(ts, args);
    assert [LParen] + b + [RParen] == [LParen] + (b + [RParen]);
  }

  lemma RegroupTuple(l: Text, b: Text)
    ensures [LParen] + (l + [RParen]) + ([Comma] + b) + [RParen] ==
            [LParen] + (l + [RParen] + ([Comma] + (b + [RParen])))
  {}

  lemma HoleTupleStep(vs: seq<Value>, rest: Text, args: seq<Value>)
    requires vs != [] && Holes(rest) == |args|
    ensures Holes(HoleList(|vs|)) == |vs|
    ensures var sql := Parens(HoleList(|vs|)) + ([Comma] + rest);
            Holes(sql) == |vs + args| &&
            Bind(sql, vs + args) + [RParen] ==
            [LParen] + (Bind(HoleList(|vs|), vs) + [RParen] + ([Comma] + (Bind(rest, args) + [RParen])))
  {
    HoleTupleBinds(vs);
    BindNoHoles([Comma]);
    BindConcat([Comma], [], rest, args);
    assert [] + args == args;
    BindConcat(Parens(HoleList(|vs|)), vs, [Comma] + rest, args);
    RegroupTuple(Bind(HoleList(|vs|), vs), Bind(rest, args));
  }

  lemma {:induction false} HoleTuplesParse(keys: seq<Key>, width: nat)
    requires keys != [] && width > 0 && AllOfWidth(keys, width)
    ensures Holes(HoleTuples(|keys|, width)) == |Flatten(keys)|
    ensures ParseTuples(Bind(HoleTuples(|keys|, width), Flatten(keys)) + [RParen]) == Some((keys, []))
  {
    HoleListParses(keys[0]);
    if |keys| == 1 {
      OneTupleParses(keys);
    } else {
      HoleTuplesParse(keys[1..], width);
      HoleTupleStep(keys[0], HoleTuples(|keys| - 1, width), Flatten(keys[1..]));
      TuplesParseMore(Bind(HoleList(width), keys[0]) + [RParen], keys[0],
                      Bind(HoleTuples(|keys| - 1, width), Flatten(keys[1..])) + [RParen], keys[1..]);
      assert keys == [keys[0]] + keys[1..];
    }
  }

  lemma OneTupleParses(keys: seq<Key>)
    requires |keys| == 1 && keys[0] != []
    ensures Flatten(keys) == keys[0]
    ensures Holes(HoleTuples(1, |keys[0]|)) == |keys[0]|
    ensures ParseTuples(Bind(HoleTuples(1, |keys[0]|), keys[0]) + [RParen]) == Some((keys, []))
  {
    var vs := keys[0];
    assert Flatten(keys) == vs + Flatten([]) == vs;
    HoleListParses(vs);
    HoleTupleBinds(vs);
    var list := Bind(HoleList(|vs|), vs) + [RParen];
    TuplesParseOne(list, vs);
    assert keys == [vs];
    assert [LParen] + list + [RParen] == [LParen] + (list + [RParen]);
  }

  lemma TuplesParseOne(list: Text, vs: seq<Value>)
    requires ParseValues(list) == Some((vs, []))
    ensures ParseTuples([LParen] + (list + [RParen])) == Some(([vs], []))
  {
    ParseValuesExtend(list, [RParen]);
    assert [] + [RParen] == [RParen] && [RParen][1..] == [];
    assert ([LParen] + (list + [RParen]))[1..] == list + [RParen];
  }

  lemma TuplesParseMore(list: Text, vs: seq<Value>, more: Text, tuples: seq<Key>)
    requires ParseValues(list) == Some((vs, [])) && ParseTuples(more) == Some((tuples, []))
    ensures ParseTuples([LParen] + (list + ([Comma] + more))) == Some(([vs] + tuples, []))
  {
    ParseValuesExtend(list, [Comma] + more);
    assert [] + ([Comma] + more) == [Comma] + more && ([Comma] + more)[1..] == more;
    assert ([LParen] + (list + ([Comma] + more)))[1..] == list + ([Comma] + more);
  }

  /** A row value: "(cols) op (…" where tail is everything after the column tuple. */
  lemma RowParses(cols: seq<string>, tail: Text)
    requires |cols| > 1 && ParseRow(IdentList(cols) + [RParen] + tail).Done?
    ensures ParseNot([LParen] + (IdentList(cols) + [RParen] + tail)) == ParseRow(IdentList(cols) + [RParen] + tail)
  {
    var row := IdentList(cols) + [RParen] + tail;
    var ts := [LParen] + row;
    assert ts[1..] == row;
    assert ts[1] == Ident(cols[0]) && ts[2] == Comma;
  }

  // ----- inCondition -----

  function InCond(cols: seq<string>, keys: seq<Key>): Condition
    requires cols != [] && AllOfWidth(keys, |cols|)
  {
    if keys == [] then Condition([Number(1), Op("="), Number(0)], [])
    else if |cols| == 1 then Condition(InListText(cols[0], |keys|, false), Flatten(keys))
    else
      Condition([LParen] + (IdentList(cols) + [RParen] + ([KwIn, LParen] + (HoleTuples(|keys|, |cols|) + [RParen]))),
                Flatten(keys))
  }

  /** The placeholders of n more tuples, none when n is 0. */
  function MoreTuples(n: nat, width: nat): Text
    requires width > 0
  {
    if n == 0 then [] else HoleTuples(n, width)
  }

  lemma TupleShift(tuples: Text, n: nat, width: nat)
    requires n > 0 && width > 0
    ensures var comma := if n > 1 then [Comma] else [];
            tuples + MoreTuples(n, width) == tuples + Parens(HoleList(width)) + comma + MoreTuples(n - 1, width)
  {
    var tuple, more := Parens(HoleList(width)), MoreTuples(n - 1, width);
    var comma := if n > 1 then [Comma] else [];
    assert MoreTuples(n, width) == tuple + (comma + more);
    Associates(tuples, tuple, comma + more);
    Associates(tuples + tuple, comma, more);
  }

  /** The placeholders of the key tuples, in order. */
  method TupleList(count: nat, width: nat) returns (tuples: Text)
    requires count > 0 && width > 0
    ensures tuples == HoleTuples(count, width)
  {
    tuples := [];
    var tuple := Parens(HoleList(width));
    for i := 0 to count
      invariant tuples + MoreTuples(count - i, width) == MoreTuples(count, width)
    {
      TupleShift(tuples, count - i, width);
      tuples := tuples + tuple + if i + 1 < count then [Comma] else [];
    }
  }

  /** The key values, key by key. */
  method KeyArguments(keys: seq<Key>) returns (args: seq<Value>)
    ensures args == Flatten(keys)
  {
    args := [];
    for i := 0 to |keys|
      invariant args + Flatten(keys[i..]) == Flatten(keys)
    {
      assert keys[i..][1..] == keys[i + 1..];
      Associates(args, keys[i], Flatten(keys[i + 1..]));
      args := args + keys[i];
    }
    assert keys[|keys|..] == [];
  }

  method InCondition(cols: seq<string>, keys: seq<Key>) returns (c: Condition)
    requires cols != [] && AllOfWidth(keys, |cols|)
    ensures c == InCond(cols, keys)
  {
    if keys == [] { return Condition([Number(1), Op("="), Number(0)], []); }
    var args := KeyArguments(keys);
    var tuples := TupleList(|keys|, |cols|);
    if |cols| == 1 { return Condition(InListText(cols[0], |keys|, false), args); }
    return Condition([LParen] + (IdentList(cols) + [RParen] + ([KwIn, LParen] + (tuples + [RParen]))), args);
  }

  /** The truth of "the row's key is one of these". */
  ghost function KeyAmong(db: Db, cols: seq<string>, keys: seq<Key>, r: Row): Truth
    requires AllOfWidth(keys, |cols|)
  {
    Disj(set i | 0 <= i < |keys| :: TupleEq(db, cols, CellsOf(r, cols), keys[i]))
  }

  lemma InCondMeans(cols: seq<string>, keys: seq<Key>)
    requires cols != [] && AllOfWidth(keys, |cols|)
    ensures WellFormed(InCond(cols, keys))
    ensures forall db: Db, r: Row :: Eval(db, Meaning(InCond(cols, keys)), r) == KeyAmong(db, cols, keys, r)
  {
    if keys == [] {
      var sql := [Number(1), Op("="), Number(0)];
      BindNoHoles(sql);
      assert sql[3..] == [];
      assert ParseNot(sql) == Done(Leaf(Const(false)), []);
    } else if |cols| == 1 {
      SingleInMeans(cols, keys);
    } else {
      RowInMeans(cols, keys);
    }
  }

  lemma {:induction false} FlattenSingles(keys: seq<Key>)
    requires AllOfWidth(keys, 1)
    ensures |Flatten(keys)| == |keys| && forall i :: 0 <= i < |keys| ==> Flatten(keys)[i] == keys[i][0]
  {
    if keys != [] { FlattenSingles(keys[1..]); }
  }

  lemma SingleInMeans(cols: seq<string>, keys: seq<Key>)
    requires |cols| == 1 && keys != [] && AllOfWidth(keys, 1)
    ensures WellFormed(InCond(cols, keys))
    ensures forall db: Db, r: Row :: Eval(db, Meaning(InCond(cols, keys)), r) == KeyAmong(db, cols, keys, r)
  {
    var args := Flatten(keys);
    FlattenSingles(keys);
    InListParses(cols[0], args, false);
    forall db: Db, r: Row ensures EvalPred(db, InList(cols[0], args), r) == KeyAmong(db, cols, keys, r) {
      forall i | 0 <= i < |keys|
        ensures TupleEq(db, cols, CellsOf(r, cols), keys[i]) == Cmp(db, cols[0], Eq, Cell(r, cols[0]), args[i])
      {
        SingleTupleEq(db, cols, CellsOf(r, cols), keys[i]);
      }
      assert (set i | 0 <= i < |args| :: Cmp(db, cols[0], Eq, Cell(r, cols[0]), args[i]))
          == (set i | 0 <= i < |keys| :: TupleEq(db, cols, CellsOf(r, cols), keys[i]));
    }
  }

  lemma SingleTupleEq(db: Db, cols: seq<string>, a: seq<Value>, b: seq<Value>)
    requires |cols| == |a| == |b| == 1
    ensures TupleEq(db, cols, a, b) == Cmp(db, cols[0], Eq, a[0], b[0])
  {
    assert (set i | 0 <= i < |a| :: Cmp(db, cols[i], Eq, a[i], b[i])) == {Cmp(db, cols[0], Eq, a[0], b[0])};
  }

  lemma RowInMeans(cols: seq<string>, keys: seq<Key>)
    requires |cols| > 1 && keys != [] && AllOfWidth(keys, |cols|)
    ensures WellFormed(InCond(cols, keys)) && Meaning(InCond(cols, keys)) == Leaf(RowIn(cols, keys))
    ensures forall db: Db, r: Row :: EvalPred(db, RowIn(cols, keys), r) == KeyAmong(db, cols, keys, r)
  {
    HoleTuplesParse(keys, |cols|);
    RowBinds(cols, [KwIn, LParen], HoleTuples(|keys|, |cols|), Flatten(keys));
    var tuples := Bind(HoleTuples(|keys|, |cols|), Flatten(keys)) + [RParen];
    RowInParses(cols, tuples, keys);
    UnitIsWhole(InCond(cols, keys), Leaf(RowIn(cols, keys)));
    forall db: Db, r: Row ensures EvalPred(db, RowIn(cols, keys), r) == KeyAmong(db, cols, keys, r) {
      RowInTruth(db, cols, keys, r);
    }
  }

  lemma RowInTruth(db: Db, cols: seq<string>, keys: seq<Key>, r: Row)
    requires AllOfWidth(keys, |cols|)
    ensures EvalPred(db, RowIn(cols, keys), r) == KeyAmong(db, cols, keys, r)
  {
    assert (set i | 0 <= i < |keys| && |keys[i]| == |cols| :: TupleEq(db, cols, CellsOf(r, cols), keys[i]))
        == (set i | 0 <= i < |keys| :: TupleEq(db, cols, CellsOf(r, cols), keys[i]));
  }

  lemma RowInParses(cols: seq<string>, tuples: Text, keys: seq<Key>)
    requires |cols| > 1 && AllOfWidth(keys, |cols|) && ParseTuples(tuples) == Some((keys, []))
    ensures ParseNot([LParen] + (IdentList(cols) + [RParen] + ([KwIn, LParen] + tuples))) ==
            Done(Leaf(RowIn(cols, keys)), [])
  {
    var tail := [KwIn, LParen] + tuples;
    IdentListParses(cols);
    ParseColumnsExtend(IdentList(cols) + [RParen], tail);
    assert [] + tail == tail && tail[2..] == tuples;
    RowParses(cols, tail);
  }

  /** Binding a row value: only the part behind the column tuple holds placeholders. */
  lemma RowText(list: Text, op: Text, row: Text)
    ensures [LParen] + list + [RParen] + op + row + [RParen] == [LParen] + (list + [RParen] + (op + (row + [RParen])))
  {}

  lemma RowBinds(cols: seq<string>, op: Text, holes: Text, args: seq<Value>)
    requires cols != [] && Holes(holes) == |args|
    requires forall i :: 0 <= i < |op| ==> !op[i].Hole?
    ensures var sql := [LParen] + (IdentList(cols) + [RParen] + (op + (holes + [RParen])));
            Holes(sql) == |args| &&
            Bind(sql, args) == [LParen] + (IdentList(cols) + [RParen] + (op + (Bind(holes, args) + [RParen])))
  {
    var sql := [LParen] + (IdentList(cols) + [RParen] + (op + (holes + [RParen])));
    var pre := [LParen] + IdentList(cols) + [RParen] + op;
    IdentListNoHoles(cols);
    BindAround(pre, holes, args, [RParen]);
    RowText(IdentList(cols), op, holes);
    RowText(IdentList(cols), op, Bind(holes, args));
  }

  lemma {:induction false} IdentListNoHoles(cols: seq<string>)
    requires cols != []
    ensures forall i :: 0 <= i < |IdentList(cols)| ==> !IdentList(cols)[i].Hole?
  {
    if |cols| > 1 { IdentListNoHoles(cols[1..]); }
  }

  // ----- keysetCondition -----

  function Strs(vals: seq<string>): (vs: seq<Value>)
    ensures |vs| == |vals| && forall i :: 0 <= i < |vals| ==> vs[i] == Str(vals[i])
  {
    if vals == [] then [] else [Str(vals[0])] + Strs(vals[1..])
  }

  function KeysetCond(pkCols: seq<string>, vals: seq<string>): Condition
    requires |pkCols| == |vals| > 0
  {
    if |pkCols| == 1 then Condition([Ident(pkCols[0]), Op(">"), Hole], Strs(vals))
    else Condition([LParen] + (IdentList(pkCols) + [RParen] + ([Op(">"), LParen] + (HoleList(|pkCols|) + [RParen]))),
                   Strs(vals))
  }

  method SeekArguments(vals: seq<string>) returns (args: seq<Value>)
    ensures args == Strs(vals)
  {
    args := [];
    for i := 0 to |vals|
      invariant |args| == i && forall j :: 0 <= j < i ==> args[j] == Str(vals[j])
    {
      args := args + [Str(vals[i])];
    }
  }

  method KeysetCondition(pkCols: seq<string>, vals: seq<string>) returns (c: Condition)
    requires |pkCols| == |vals| > 0
    ensures c == KeysetCond(pkCols, vals)
  {
    var args := SeekArguments(vals);
    if |pkCols| == 1 { return Condition([Ident(pkCols[0]), Op(">"), Hole], args); }
    return Condition([LParen] + (IdentList(pkCols) + [RParen] + ([Op(">"), LParen] + (HoleList(|pkCols|) + [RParen]))),
                     args);
  }

  /** The seek condition compares the key tuple with the cursor lexicographically, whatever the key's width. */
  lemma KeysetCondMeans(pkCols: seq<string>, vals: seq<string>)
    requires |pkCols| == |vals| > 0
    ensures WellFormed(KeysetCond(pkCols, vals))
    ensures forall db: Db, r: Row ::
              Eval(db, Meaning(KeysetCond(pkCols, vals)), r) == TupleGreater(db, pkCols, CellsOf(r, pkCols), Strs(vals))
  {
    if |pkCols| == 1 { SingleSeekTruth(pkCols, vals); } else { RowSeekTruth(pkCols, vals); }
  }

  lemma SingleSeekTruth(pkCols: seq<string>, vals: seq<string>)
    requires |pkCols| == |vals| == 1
    ensures WellFormed(KeysetCond(pkCols, vals))
    ensures forall db: Db, r: Row ::
              Eval(db, Meaning(KeysetCond(pkCols, vals)), r) == TupleGreater(db, pkCols, CellsOf(r, pkCols), Strs(vals))
  {
    SingleSeekMeans(pkCols, vals);
    forall db: Db, r: Row
      ensures EvalPred(db, Compare(pkCols[0], Gt, Str(vals[0])), r) ==
              TupleGreater(db, pkCols, CellsOf(r, pkCols), Strs(vals))
    {
      SingleTupleGreater(db, pkCols, CellsOf(r, pkCols), Strs(vals));
    }
  }

  lemma SingleTupleGreater(db: Db, cols: seq<string>, a: seq<Value>, b: seq<Value>)
    requires |cols| == |a| == |b| == 1
    ensures TupleGreater(db, cols, a, b) == Cmp(db, cols[0], Gt, a[0], b[0])
  {
    assert a[1..] == [] && TupleGreater(db, cols[1..], a[1..], b[1..]) == No;
  }

  lemma SingleSeekMeans(pkCols: seq<string>, vals: seq<string>)
    requires |pkCols| == |vals| == 1
    ensures WellFormed(KeysetCond(pkCols, vals))
    ensures Meaning(KeysetCond(pkCols, vals)) == Leaf(Compare(pkCols[0], Gt, Str(vals[0])))
  {
    var v := Str(vals[0]);
    BindLastHole([Ident(pkCols[0]), Op(">")], v);
    assert [Ident(pkCols[0]), Op(">")] + [Hole] == KeysetCond(pkCols, vals).sql;
    assert Strs(vals) == [v];
    ComparisonParses(pkCols[0], ">", v);
    assert [Ident(pkCols[0]), Op(">")] + [Bound(v)] == [Ident(pkCols[0]), Op(">"), Bound(v)];
    UnitIsWhole(KeysetCond(pkCols, vals), Leaf(Compare(pkCols[0], Gt, v)));
  }

  lemma RowSeekTruth(pkCols: seq<string>, vals: seq<string>)
    requires |pkCols| == |vals| > 1
    ensures WellFormed(KeysetCond(pkCols, vals))
    ensures forall db: Db, r: Row ::
              Eval(db, Meaning(KeysetCond(pkCols, vals)), r) == TupleGreater(db, pkCols, CellsOf(r, pkCols), Strs(vals))
  {
    RowSeekMeans(pkCols, vals);
    var e := Leaf(RowGreater(pkCols, Strs(vals)));
    forall db: Db, r: Row ensures Eval(db, e, r) == TupleGreater(db, pkCols, CellsOf(r, pkCols), Strs(vals)) {
      RowGreaterTruth(db, pkCols, Strs(vals), r);
    }
  }

  lemma RowGreaterTruth(db: Db, cols: seq<string>, vs: seq<Value>, r: Row)
    requires |cols| == |vs|
    ensures Eval(db, Leaf(RowGreater(cols, vs)), r) == TupleGreater(db, cols, CellsOf(r, cols), vs)
  {
  }

  lemma RowSeekMeans(pkCols: seq<string>, vals: seq<string>)
    requires |pkCols| == |vals| > 1
    ensures WellFormed(KeysetCond(pkCols, vals))
    ensures Meaning(KeysetCond(pkCols, vals)) == Leaf(RowGreater(pkCols, Strs(vals)))
  {
    var holes := HoleList(|pkCols|);
    HoleListParses(Strs(vals));
    RowBinds(pkCols, [Op(">"), LParen], holes, Strs(vals));
    RowGreaterParses(pkCols, Bind(holes, Strs(vals)) + [RParen], Strs(vals));
    UnitIsWhole(KeysetCond(pkCols, vals), Leaf(RowGreater(pkCols, Strs(vals))));
  }

  lemma RowGreaterParses(cols: seq<string>, list: Text, vs: seq<Value>)
    requires |cols| == |vs| > 1 && ParseValues(list) == Some((vs, []))
    ensures ParseNot([LParen] + (IdentList(cols) + [RParen] + ([Op(">"), LParen] + list))) ==
            Done(Leaf(RowGreater(cols, vs)), [])
  {
    var tail := [Op(">"), LParen] + list;
    IdentListParses(cols);
    ParseColumnsExtend(IdentList(cols) + [RParen], tail);
    assert [] + tail == tail && tail[2..] == list;
    assert ParseRow(IdentList(cols) + [RParen] + tail) == Done(Leaf(RowGreater(cols, vs)), []);
    RowParses(cols, tail);
  }

  // ----- per-row equality: the fallback query and by_pk -----

  function EqParts(cols: seq<string>, key: Key): seq<Condition>
    requires |cols| == |key|
  {
    if cols == [] then [] else [Condition([Ident(cols[0]), Op("="), Hole], [key[0]])] + EqParts(cols[1..], key[1..])
  }

  /** "`a` = ? AND `b` = ? …" */
  function EqCond(cols: seq<string>, key: Key): Condition
    requires |cols| == |key|
  {
    Condition(Join(Texts(EqParts(cols, key)), [KwAnd]), Arguments(EqParts(cols, key)))
  }

  lemma {:induction false} EqPartsMean(cols: seq<string>, key: Key)
    requires |cols| == |key|
    ensures |EqParts(cols, key)| == |cols| && AllUnits(EqParts(cols, key))
    ensures forall i :: 0 <= i < |cols| ==> UnitMeaning(EqParts(cols, key)[i]) == Leaf(Compare(cols[i], Eq, key[i]))
  {
    if cols != [] {
      EqPartsMean(cols[1..], key[1..]);
      BindLastHole([Ident(cols[0]), Op("=")], key[0]);
      assert [Ident(cols[0]), Op("=")] + [Hole] == [Ident(cols[0]), Op("="), Hole];
      assert [Ident(cols[0]), Op("=")] + [Bound(key[0])] == [Ident(cols[0]), Op("="), Bound(key[0])];
      ComparisonParses(cols[0], "=", key[0]);
    }
  }

  lemma EqCondMeans(cols: seq<string>, key: Key)
    requires |cols| == |key| > 0
    ensures WellFormed(EqCond(cols, key))
    ensures forall db: Db, r: Row :: Eval(db, Meaning(EqCond(cols, key)), r) == TupleEq(db, cols, CellsOf(r, cols), key)
  {
    EqPartsMean(cols, key);
    var parts := EqParts(cols, key);
    JoinAndMeans(parts);
    forall db: Db, r: Row ensures Conj(UnitTruths(db, parts, r)) == TupleEq(db, cols, CellsOf(r, cols), key) {
      forall i | 0 <= i < |cols|
        ensures Eval(db, UnitMeaning(parts[i]), r) == Cmp(db, cols[i], Eq, Cell(r, cols[i]), key[i])
      {}
      var cells := CellsOf(r, cols);
      assert UnitTruths(db, parts, r) == (set i | 0 <= i < |cells| :: Cmp(db, cols[i], Eq, cells[i], key[i]));
    }
  }

  // ----- by primary key -----

  /** The argument for a key column; a missing one reads as null. */
  function KeyArgument(fieldOf: map<string, string>, args: map<string, Value>, pk: string): Value
    requires pk in fieldOf
  {
    if fieldOf[pk] in args then args[fieldOf[pk]] else Null
  }

  lemma {:induction false} EqPartsAppend(cols: seq<string>, key: Key, c: string, v: Value)
    requires |cols| == |key|
    ensures EqParts(cols + [c], key + [v]) == EqParts(cols, key) + [Condition([Ident(c), Op("="), Hole], [v])]
  {
    if cols == [] {
      assert cols + [c] == [c] && key + [v] == [v];
    } else {
      assert (cols + [c])[1..] == cols[1..] + [c] && (key + [v])[1..] == key[1..] + [v];
      EqPartsAppend(cols[1..], key[1..], c, v);
    }
  }

  lemma EqTextsAppend(cols: seq<string>, key: Key, c: string, v: Value)
    requires |cols| == |key|
    ensures Texts(EqParts(cols + [c], key + [v])) == Texts(EqParts(cols, key)) + [[Ident(c), Op("="), Hole]]
    ensures Arguments(EqParts(cols + [c], key + [v])) == Arguments(EqParts(cols, key)) + [v]
  {
    var last := [Condition([Ident(c), Op("="), Hole], [v])];
    EqPartsAppend(cols, key, c, v);
    ArgumentsConcat(EqParts(cols, key), last);
    assert Arguments(last) == [v] + Arguments([]) == [v];
  }

  /** The by-primary-key condition: refused exactly when a key argument is missing or null; otherwise true of
      exactly the rows whose key columns equal the bound arguments. */
  method PkCond(ti: TableInfo, columnOf: map<string, Column>, fieldOf: map<string, string>, args: map<string, Value>)
    returns (r: Result<Condition>)
    requires ti.primaryKey != []
    requires forall pk :: pk in ti.primaryKey ==> pk in fieldOf && pk in columnOf && columnOf[pk].name == pk
    ensures r.Ok? <==> forall pk :: pk in ti.primaryKey ==> fieldOf[pk] in args && !args[fieldOf[pk]].Null?
    ensures r.Ok? ==> exists key: Key :: |key| == |ti.primaryKey| && r.value == EqCond(ti.primaryKey, key)
                        && forall i :: 0 <= i < |key| ==>
                             fieldOf[ti.primaryKey[i]] in args &&
                             key[i] == Operand(ti, columnOf[ti.primaryKey[i]], args[fieldOf[ti.primaryKey[i]]])
  {
    var parts: seq<Text> := [];
    var vals: seq<Value> := [];
    for i := 0 to |ti.primaryKey|
      invariant PkUpTo(ti, columnOf, fieldOf, args, i, parts, vals)
    {
      var pk := ti.primaryKey[i];
      assert pk in ti.primaryKey;
      if fieldOf[pk] !in args || args[fieldOf[pk]].Null? { return Err("missing primary key argument"); }
      var bound := BindValue(ti, columnOf[pk], args[fieldOf[pk]]);
      PkStep(ti, columnOf, fieldOf, args, i, parts, vals, bound);
      parts := parts + [[Ident(columnOf[pk].name), Op("="), Hole]];
      vals := vals + [bound];
    }
    assert ti.primaryKey[..|ti.primaryKey|] == ti.primaryKey;
    return Ok(Condition(Join(parts, [KwAnd]), vals));
  }

  /** The parts and values of the first i key columns. */
  predicate PkUpTo(ti: TableInfo, columnOf: map<string, Column>, fieldOf: map<string, string>, args: map<string, Value>,
                   i: nat, parts: seq<Text>, vals: seq<Value>)
    requires i <= |ti.primaryKey| && forall pk :: pk in ti.primaryKey ==> pk in fieldOf && pk in columnOf
  {
    && |vals| == i && parts == Texts(EqParts(ti.primaryKey[..i], vals)) &&
       Arguments(EqParts(ti.primaryKey[..i], vals)) == vals
    && forall j :: 0 <= j < i ==>
         var a := KeyArgument(fieldOf, args, ti.primaryKey[j]);
         !a.Null? && vals[j] == BindValue(ti, columnOf[ti.primaryKey[j]], a)
  }

  lemma PkStep(ti: TableInfo, columnOf: map<string, Column>, fieldOf: map<string, string>, args: map<string, Value>,
               i: nat, parts: seq<Text>, vals: seq<Value>, v: Value)
    requires i < |ti.primaryKey| && forall pk :: pk in ti.primaryKey ==> pk in fieldOf && pk in columnOf
    requires PkUpTo(ti, columnOf, fieldOf, args, i, parts, vals)
    requires var a := KeyArgument(fieldOf, args, ti.primaryKey[i]);
             !a.Null? && v == BindValue(ti, columnOf[ti.primaryKey[i]], a)
    ensures PkUpTo(ti, columnOf, fieldOf, args, i + 1, parts + [[Ident(ti.primaryKey[i]), Op("="), Hole]], vals + [v])
  {
    assert ti.primaryKey[..i + 1] == ti.primaryKey[..i] + [ti.primaryKey[i]];
    EqTextsAppend(ti.primaryKey[..i], vals, ti.primaryKey[i], v);
  }

  /** A batch selects exactly the rows that one of the per-row queries would select. */
  lemma BatchIsUnionOfRows(db: Db, cols: seq<string>, keys: seq<Key>, r: Row)
    requires cols != [] && AllOfWidth(keys, |cols|)
    ensures WellFormed(InCond(cols, keys)) && forall i :: 0 <= i < |keys| ==> WellFormed(EqCond(cols, keys[i]))
    ensures Holds(db, InCond(cols, keys), r) <==> exists i :: 0 <= i < |keys| && Holds(db, EqCond(cols, keys[i]), r)
  {
    InCondMeans(cols, keys);
    forall i | 0 <= i < |keys|
      ensures WellFormed(EqCond(cols, keys[i])) &&
              (Holds(db, EqCond(cols, keys[i]), r) <==> TupleEq(db, cols, CellsOf(r, cols), keys[i]) == Yes)
    {
      EqCondMeans(cols, keys[i]);
    }
    assert Holds(db, InCond(cols, keys), r) <==> KeyAmong(db, cols, keys, r) == Yes;
  }
}

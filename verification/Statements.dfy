/** Whole statements: their text, the arguments appended in text order, and what the text reads back as. */
module Statements {
  import opened Values
  import opened Catalog
  import opened SqlText
  import opened SqlMeaning
  import opened WhereCompiler
  import opened Conditions
  import opened Claims
  import opened Filters
  import opened RoleFilter
  import opened Writes
  import opened Paging
  import opened Window
  import opened Queries

  // ----- placeholders -----

  /** Plain text in front leaves the binding of what follows alone. */
  lemma BindBehind(pre: Text, s: Text, args: seq<Value>)
    requires NoHoles(pre) && Holes(s) == |args|
    ensures Holes(pre + s) == |args| && Bind(pre + s, args) == pre + Bind(s, args)
  {
    BindNoHoles(pre);
    BindConcat(pre, [], s, args);
    assert [] + args == args;
  }

  /** A placeholder in front takes the first argument. */
  lemma BindHole(v: Value, s: Text, args: seq<Value>)
    requires Holes(s) == |args|
    ensures Holes([Hole] + s) == 1 + |args| && Bind([Hole] + s, [v] + args) == [Bound(v)] + Bind(s, args)
  {
    assert Bind([Hole], [v]) == [Bound(v)];
    BindConcat([Hole], [v], s, args);
  }

  // ----- the parts of statements -----

  function Columns(names: seq<string>): Text {
    if names == [] then []
    else if |names| == 1 then [Ident(names[0])] else [Ident(names[0]), Comma] + Columns(names[1..])
  }

  lemma {:induction false} ColumnsPlain(names: seq<string>)
    ensures NoHoles(Columns(names))
  {
    if |names| > 1 { ColumnsPlain(names[1..]); }
  }

  function Qualified(t: TableName): Text { [Ident(t.schema), Word("."), Ident(t.name)] }

  function DirectionOf(k: OrderKey): Token { Word(if k.desc then "DESC" else "ASC") }

  /** The ORDER BY list of requested columns. */
  function OrderText(order: Order): Text {
    if order == [] then []
    else if |order| == 1 then [Ident(order[0].col), DirectionOf(order[0])]
    else [Ident(order[0].col), DirectionOf(order[0]), Comma] + OrderText(order[1..])
  }

  function OrderByText(order: Order): Text { if order == [] then [] else [Word("ORDER BY")] + OrderText(order) }

  /** The window's ORDER BY list: the requested columns, else the primary key's, else the join columns. */
  function WindowText(requested: Order, primaryKey: seq<string>, joinCols: seq<string>): Text {
    if requested != [] then OrderText(requested) else Columns(if primaryKey == [] then joinCols else primaryKey)
  }

  lemma {:induction false} OrderPlain(order: Order)
    ensures NoHoles(OrderText(order)) && NoHoles(OrderByText(order))
  {
    if |order| > 1 { OrderPlain(order[1..]); }
  }

  lemma WindowPlain(requested: Order, primaryKey: seq<string>, joinCols: seq<string>)
    ensures NoHoles(WindowText(requested, primaryKey, joinCols))
  {
    OrderPlain(requested);
    ColumnsPlain(primaryKey);
    ColumnsPlain(joinCols);
  }

  /** A WHERE part and what stands behind it. */
  function WhereText(where: Text, tail: Text): Text { [Word("WHERE")] + (where + tail) }

  lemma WhereBinds(where: Condition, tail: Text, args: seq<Value>)
    requires Aligned(where) && Holes(tail) == |args|
    ensures Holes(WhereText(where.sql, tail)) == |where.args + args|
    ensures Bind(WhereText(where.sql, tail), where.args + args) == WhereText(BoundText(where), Bind(tail, args))
  {
    BindConcat(where.sql, where.args, tail, args);
    BindBehind([Word("WHERE")], where.sql + tail, where.args + args);
  }

  /** A SELECT up to its FROM, and what stands behind it. */
  function SelectText(columns: seq<string>, source: Text): Text {
    [Word("SELECT")] + (Columns(columns) + ([Word("FROM")] + source))
  }

  lemma SelectTextBinds(columns: seq<string>, source: Text, args: seq<Value>)
    requires Holes(source) == |args|
    ensures Holes(SelectText(columns, source)) == |args|
    ensures Bind(SelectText(columns, source), args) == SelectText(columns, Bind(source, args))
  {
    ColumnsPlain(columns);
    BindBehind([Word("FROM")], source, args);
    BindBehind(Columns(columns), [Word("FROM")] + source, args);
    BindBehind([Word("SELECT")], Columns(columns) + ([Word("FROM")] + source), args);
  }

  // ----- the readers read them -----

  lemma ExpectReads(prefix: Text, s: Text)
    ensures Expect(prefix + s, prefix) == Some(s)
  {
    assert (prefix + s)[..|prefix|] == prefix && (prefix + s)[|prefix|..] == s;
  }

  /** What may stand behind a column list. */
  predicate EndsNames(s: Text) { |s| < 2 || !s[0].Comma? || !s[1].Ident? }

  /** A comma-separated list behind its first item. */
  lemma ListStep(item: Text, rest: Text, s: Text)
    ensures item + [Comma] + rest + s == item + ([Comma] + (rest + s))
  {
  }

  lemma ColumnsStep(names: seq<string>, s: Text)
    requires |names| > 1
    ensures Columns(names) + s == [Ident(names[0])] + ([Comma] + (Columns(names[1..]) + s))
  {
    ListStep([Ident(names[0])], Columns(names[1..]), s);
    assert [Ident(names[0]), Comma] == [Ident(names[0])] + [Comma];
  }

  lemma FirstColumn(names: seq<string>, s: Text)
    requires names != []
    ensures Columns(names) + s != [] && (Columns(names) + s)[0] == Ident(names[0])
  {
  }

  lemma LastName(name: string, s: Text)
    requires EndsNames(s)
    ensures ReadNames([Ident(name)] + s) == Some(([name], s))
  {
    assert ([Ident(name)] + s)[1..] == s;
  }

  lemma NamesStep(name: string, tail: Text, names: seq<string>, s: Text)
    requires tail != [] && tail[0].Ident? && ReadNames(tail) == Some((names, s))
    ensures ReadNames([Ident(name)] + ([Comma] + tail)) == Some(([name] + names, s))
  {
    var ts := [Ident(name)] + ([Comma] + tail);
    assert ts[2..] == tail && ts[2] == tail[0];
  }

  lemma {:induction false} NamesRead(names: seq<string>, s: Text)
    requires names != [] && EndsNames(s)
    ensures ReadNames(Columns(names) + s) == Some((names, s))
  {
    assert names == [names[0]] + names[1..];
    if |names| == 1 {
      LastName(names[0], s);
      assert names == [names[0]] && Columns(names) == [Ident(names[0])];
    } else {
      NamesRead(names[1..], s);
      ColumnsStep(names, s);
      FirstColumn(names[1..], s);
      NamesStep(names[0], Columns(names[1..]) + s, names[1..], s);
    }
  }

  predicate NoDirection(s: Text) { s == [] || (s[0] != Word("ASC") && s[0] != Word("DESC")) }

  lemma KeyReads(k: OrderKey, s: Text)
    ensures ReadKey([Ident(k.col), DirectionOf(k)] + s) == Some((k, s))
  {
    var ts := [Ident(k.col), DirectionOf(k)] + s;
    assert ts[1..][0] == DirectionOf(k) && ts[1..][1..] == s;
  }

  lemma LastKey(ts: Text, k: OrderKey, s: Text)
    requires ReadKey(ts) == Some((k, s)) && (s == [] || !s[0].Comma?)
    ensures ReadKeys(ts) == Some(([k], s))
  {
  }

  lemma KeysStep(ts: Text, k: OrderKey, tail: Text, order: Order, s: Text)
    requires ReadKey(ts) == Some((k, [Comma] + tail)) && ReadKeys(tail) == Some((order, s))
    ensures ReadKeys(ts) == Some(([k] + order, s))
  {
    assert ([Comma] + tail)[1..] == tail;
  }

  lemma OrderTextStep(order: Order, s: Text)
    requires |order| > 1
    ensures OrderText(order) + s ==
            [Ident(order[0].col), DirectionOf(order[0])] + ([Comma] + (OrderText(order[1..]) + s))
  {
    var item := [Ident(order[0].col), DirectionOf(order[0])];
    ListStep(item, OrderText(order[1..]), s);
    assert item + [Comma] == [Ident(order[0].col), DirectionOf(order[0]), Comma];
  }

  lemma {:induction false} OrderReads(order: Order, s: Text)
    requires order != [] && (s == [] || !s[0].Comma?)
    ensures ReadKeys(OrderText(order) + s) == Some((order, s))
  {
    if |order| == 1 {
      KeyReads(order[0], s);
      LastKey(OrderText(order) + s, order[0], s);
      assert order == [order[0]];
    } else {
      var tail := OrderText(order[1..]) + s;
      OrderReads(order[1..], s);
      KeyReads(order[0], [Comma] + tail);
      OrderTextStep(order, s);
      KeysStep(OrderText(order) + s, order[0], tail, order[1..], s);
      assert order == [order[0]] + order[1..];
    }
  }

  lemma PlainKeyReads(name: string, s: Text)
    requires NoDirection(s)
    ensures ReadKey([Ident(name)] + s) == Some((OrderKey(name, false), s))
  {
    assert ([Ident(name)] + s)[1..] == s;
  }

  /** A plain column list reads as ascending. */
  lemma {:induction false} PlainOrderReads(names: seq<string>, s: Text)
    requires names != [] && (s == [] || !s[0].Comma?) && NoDirection(s)
    ensures ReadKeys(Columns(names) + s) == Some((Ascending(names), s))
  {
    var key := OrderKey(names[0], false);
    assert Ascending(names) == [key] + Ascending(names[1..]);
    if |names| == 1 {
      PlainKeyReads(names[0], s);
      LastKey(Columns(names) + s, key, s);
      assert Ascending(names) == [key];
    } else {
      var tail := Columns(names[1..]) + s;
      PlainOrderReads(names[1..], s);
      PlainKeyReads(names[0], [Comma] + tail);
      ColumnsStep(names, s);
      KeysStep(Columns(names) + s, key, tail, Ascending(names[1..]), s);
    }
  }

  lemma WindowReads(requested: Order, primaryKey: seq<string>, joinCols: seq<string>, s: Text)
    requires joinCols != [] && s != [] && s[0].RParen?
    ensures ReadKeys(WindowText(requested, primaryKey, joinCols) + s) ==
            Some((WindowOrder(requested, primaryKey, joinCols), s))
  {
    if requested != [] {
      OrderReads(requested, s);
    } else {
      PlainOrderReads(if primaryKey == [] then joinCols else primaryKey, s);
    }
  }

  lemma TableReads(t: TableName, s: Text)
    ensures ReadTable(Qualified(t) + s) == Some((t, s))
  {
    assert (Qualified(t) + s)[3..] == s;
  }

  lemma OrderByReads(order: Order, s: Text)
    requires s == [] || s[0] == Word("LIMIT")
    ensures ReadOrderBy(OrderByText(order) + s) == Some((order, s))
  {
    if order == [] {
      assert OrderByText(order) + s == s;
    } else {
      OrderReads(order, s);
      var keys := OrderText(order) + s;
      assert OrderByText(order) + s == [Word("ORDER BY")] + keys;
      assert ([Word("ORDER BY")] + keys)[1..] == keys;
    }
  }

  lemma WhereReads(where: Condition, s: Text)
    requires WellFormed(where) && (s == [] || (!s[0].KwAnd? && !s[0].KwOr?))
    ensures ReadWhere([Word("WHERE")] + (BoundText(where) + s)) == Some((Meaning(where), s))
  {
    ExpectReads([Word("WHERE")], BoundText(where) + s);
    ParseOrExtend(BoundText(where), s);
    assert [] + s == s;
  }

  // ----- SELECT -----

  const UNLIMITED := Condition([], [])

  const FIRST_ROW := Condition([Word("LIMIT"), Number(1)], [])

  /** What a LIMIT part reads as. */
  predicate LimitReads(limit: Condition, count: Option<Value>, offset: Option<Value>) {
    && Aligned(limit) && ReadLimit(BoundText(limit)) == Some((count, offset))
    && (BoundText(limit) == [] || BoundText(limit)[0] == Word("LIMIT"))
  }

  lemma FixedLimits()
    ensures LimitReads(UNLIMITED, None, None) && LimitReads(FIRST_ROW, Some(Int(1)), None)
  {
    BindNoHoles([]);
    BindNoHoles(FIRST_ROW.sql);
  }

  lemma LimitOne(n: Value)
    ensures LimitReads(Condition([Word("LIMIT"), Hole], [n]), Some(n), None)
    ensures Bind([Word("LIMIT"), Hole], [n]) == [Word("LIMIT"), Bound(n)]
  {
    BindLastHole([Word("LIMIT")], n);
    assert [Word("LIMIT")] + [Hole] == [Word("LIMIT"), Hole];
  }

  lemma LimitTwo(n: Value, m: Value)
    ensures LimitReads(Condition([Word("LIMIT"), Hole, Word("OFFSET"), Hole], [n, m]), Some(n), Some(m))
  {
    LimitOne(n);
    BindLastHole([Word("OFFSET")], m);
    BindConcat([Word("LIMIT"), Hole], [n], [Word("OFFSET")] + [Hole], [m]);
    assert [Word("LIMIT"), Hole] + ([Word("OFFSET")] + [Hole]) == [Word("LIMIT"), Hole, Word("OFFSET"), Hole];
    assert [n] + [m] == [n, m];
  }

  /** limitClause: the limit and offset of a list request as placeholders, an offset of 0 left out. */
  method LimitClause(cfg: PageConfig, a: PageArgs) returns (r: Result<Condition>)
    ensures r.Ok? <==> PageBounds(cfg, a).Ok?
    ensures r.Ok? ==>
              var b := PageBounds(cfg, a).value;
              LimitReads(r.value, Some(Int(b.limit)), if b.offset > 0 then Some(Int(b.offset)) else None)
  {
    var b := PageBounds(cfg, a);
    if b.Err? { return Err(b.reason); }
    if b.value.offset > 0 {
      LimitTwo(Int(b.value.limit), Int(b.value.offset));
      return Ok(Condition([Word("LIMIT"), Hole, Word("OFFSET"), Hole], [Int(b.value.limit), Int(b.value.offset)]));
    }
    LimitOne(Int(b.value.limit));
    return Ok(Condition([Word("LIMIT"), Hole], [Int(b.value.limit)]));
  }

  /** SELECT … WHERE …, an ORDER BY, and a LIMIT part with its own arguments. */
  function SelectStatement(columns: seq<string>, t: TableName, where: Condition, order: Order,
                           limit: Condition): Condition {
    Condition(SelectText(columns, Qualified(t) + WhereText(where.sql, OrderByText(order) + limit.sql)),
              where.args + limit.args)
  }

  lemma SelectBinds(columns: seq<string>, t: TableName, where: Condition, order: Order, limit: Condition)
    requires Aligned(where) && Aligned(limit)
    ensures var s := SelectStatement(columns, t, where, order, limit);
            Aligned(s) && BoundText(s) ==
              SelectText(columns, Qualified(t) + WhereText(BoundText(where), OrderByText(order) + BoundText(limit)))
  {
    OrderPlain(order);
    BindBehind(OrderByText(order), limit.sql, limit.args);
    WhereBinds(where, OrderByText(order) + limit.sql, limit.args);
    var cond := WhereText(where.sql, OrderByText(order) + limit.sql);
    BindBehind(Qualified(t), cond, where.args + limit.args);
    SelectTextBinds(columns, Qualified(t) + cond, where.args + limit.args);
  }

  lemma SelectTextReads(columns: seq<string>, source: Text, from: From, where: Condition, order: Order, cut: Text,
                        limit: Option<Value>, offset: Option<Value>)
    requires columns != [] && WellFormed(where)
    requires ReadFrom(source) == Some((from, WhereText(BoundText(where), OrderByText(order) + cut)))
    requires ReadLimit(cut) == Some((limit, offset)) && (cut == [] || cut[0] == Word("LIMIT"))
    ensures ReadQuery(SelectText(columns, source)) == Some(Query(columns, from, Meaning(where), order, limit, offset))
  {
    ExpectReads([Word("SELECT")], Columns(columns) + ([Word("FROM")] + source));
    NamesRead(columns, [Word("FROM")] + source);
    ExpectReads([Word("FROM")], source);
    WhereReads(where, OrderByText(order) + cut);
    OrderByReads(order, cut);
  }

  /** A SELECT reads back as what was asked: its columns, table, condition, order and limits. */
  lemma SelectReads(columns: seq<string>, t: TableName, where: Condition, order: Order, limit: Condition,
                    count: Option<Value>, offset: Option<Value>)
    requires columns != [] && WellFormed(where) && LimitReads(limit, count, offset)
    ensures var s := SelectStatement(columns, t, where, order, limit);
            && Aligned(s)
            && ReadQuery(BoundText(s)) == Some(Query(columns, Stored(t), Meaning(where), order, count, offset))
  {
    SelectBinds(columns, t, where, order, limit);
    var cond := WhereText(BoundText(where), OrderByText(order) + BoundText(limit));
    TableReads(t, cond);
    SelectTextReads(columns, Qualified(t) + cond, Stored(t), where, order, BoundText(limit), count, offset);
  }

  // ----- the windowed SELECT of a batch -----

  const NUMBER: Text := [Comma, Call("ROW_NUMBER"), LParen, RParen, Word("OVER"), LParen, Word("PARTITION BY")]

  /** The text of the subquery that numbers the rows, and what stands behind it. */
  function NumberedText(columns: seq<string>, partition: seq<string>, window: Text, rank: string, t: TableName,
                        where: Text, alias: string, s: Text): Text {
    [LParen, Word("SELECT")] +
    (Columns(columns) + (NUMBER + (Columns(partition) + OverText(window, rank, t, where, alias, s))))
  }

  /** The same from the window's ORDER BY on. */
  function OverText(window: Text, rank: string, t: TableName, where: Text, alias: string, s: Text): Text {
    [Word("ORDER BY")] + (window + ([RParen, Word("AS")] + ([Ident(rank)] + ([Word("FROM")] + (Qualified(t) +
    WhereText(where, [RParen, Word("AS")] + ([Ident(alias)] + s)))))))
  }

  lemma OverBinds(window: Text, rank: string, t: TableName, where: Condition, alias: string, s: Text, args: seq<Value>)
    requires NoHoles(window) && Aligned(where) && Holes(s) == |args|
    ensures Holes(OverText(window, rank, t, where.sql, alias, s)) == |where.args + args|
    ensures Bind(OverText(window, rank, t, where.sql, alias, s), where.args + args) ==
            OverText(window, rank, t, BoundText(where), alias, Bind(s, args))
  {
    var all := where.args + args;
    var end := [RParen, Word("AS")] + ([Ident(alias)] + s);
    var cond := WhereText(where.sql, end);
    var from := [Word("FROM")] + (Qualified(t) + cond);
    var close := [RParen, Word("AS")] + ([Ident(rank)] + from);
    BindBehind([Ident(alias)], s, args);
    BindBehind([RParen, Word("AS")], [Ident(alias)] + s, args);
    WhereBinds(where, end, args);
    BindBehind(Qualified(t), cond, all);
    BindBehind([Word("FROM")], Qualified(t) + cond, all);
    BindBehind([Ident(rank)], from, all);
    BindBehind([RParen, Word("AS")], [Ident(rank)] + from, all);
    BindBehind(window, close, all);
    BindBehind([Word("ORDER BY")], window + close, all);
  }

  lemma NumberedBinds(columns: seq<string>, partition: seq<string>, window: Text, rank: string, t: TableName,
                      where: Condition, alias: string, s: Text, args: seq<Value>)
    requires NoHoles(window) && Aligned(where) && Holes(s) == |args|
    ensures var ts := NumberedText(columns, partition, window, rank, t, where.sql, alias, s);
            && Holes(ts) == |where.args + args|
            && Bind(ts, where.args + args) ==
               NumberedText(columns, partition, window, rank, t, BoundText(where), alias, Bind(s, args))
  {
    var all, over := where.args + args, OverText(window, rank, t, where.sql, alias, s);
    ColumnsPlain(columns);
    ColumnsPlain(partition);
    OverBinds(window, rank, t, where, alias, s, args);
    BindBehind(Columns(partition), over, all);
    BindBehind(NUMBER, Columns(partition) + over, all);
    BindBehind(Columns(columns), NUMBER + (Columns(partition) + over), all);
    BindBehind([LParen, Word("SELECT")], Columns(columns) + (NUMBER + (Columns(partition) + over)), all);
  }

  lemma NameReads(name: string, s: Text)
    ensures ReadName([Ident(name)] + s) == Some((name, s))
  {
    assert ([Ident(name)] + s)[1..] == s;
  }

  lemma NumberedReads(columns: seq<string>, partition: seq<string>, requested: Order, primaryKey: seq<string>,
                      rank: string, t: TableName, where: Condition, alias: string, s: Text)
    requires columns != [] && partition != [] && WellFormed(where)
    ensures ReadFrom(NumberedText(columns, partition, WindowText(requested, primaryKey, partition), rank, t,
                                  BoundText(where), alias, s)) ==
            Some((Numbered(columns, partition, WindowOrder(requested, primaryKey, partition), rank, t, Meaning(where)),
                  s))
  {
    var window := WindowText(requested, primaryKey, partition);
    var end := [RParen, Word("AS")] + ([Ident(alias)] + s);
    var cond := WhereText(BoundText(where), end);
    var from := [Word("FROM")] + (Qualified(t) + cond);
    var close := [RParen, Word("AS")] + ([Ident(rank)] + from);
    var sort := [Word("ORDER BY")] + (window + close);
    var number := NUMBER + (Columns(partition) + sort);
    ExpectReads([LParen, Word("SELECT")], Columns(columns) + number);
    NamesRead(columns, number);
    ExpectReads(NUMBER, Columns(partition) + sort);
    NamesRead(partition, sort);
    ExpectReads([Word("ORDER BY")], window + close);
    WindowReads(requested, primaryKey, partition, close);
    ExpectReads([RParen, Word("AS")], [Ident(rank)] + from);
    NameReads(rank, from);
    ExpectReads([Word("FROM")], Qualified(t) + cond);
    TableReads(t, cond);
    WhereReads(where, end);
    ExpectReads([RParen, Word("AS")], [Ident(alias)] + s);
    NameReads(alias, s);
  }

  const RANK := "__gqlgate_rn"

  const WINDOW := "__gqlgate_w"

  /** "rank <= n", with the number as an argument. */
  function RankWithin(n: int): Condition { Condition([Ident(RANK), Op("<="), Hole], [Int(n)]) }

  lemma RankWithinMeans(n: int)
    ensures WellFormed(RankWithin(n)) && Meaning(RankWithin(n)) == Leaf(Compare(RANK, Lte, Int(n)))
  {
    BindLastHole([Ident(RANK), Op("<=")], Int(n));
    assert [Ident(RANK), Op("<=")] + [Hole] == RankWithin(n).sql;
    ComparisonParses(RANK, "<=", Int(n));
    assert [Ident(RANK), Op("<=")] + [Bound(Int(n))] == [Ident(RANK), Op("<="), Bound(Int(n))];
    UnitIsWhole(RankWithin(n), Leaf(Compare(RANK, Lte, Int(n))));
  }

  /** The statement of a batched relationship: ranked and capped per key, unless there is no cap. */
  function BatchStatement(columns: seq<string>, t: TableName, joinCols: seq<string>, requested: Order,
                          primaryKey: seq<string>, where: Condition, perKeyLimit: int): Condition {
    if perKeyLimit > 0 then
      var keep := RankWithin(perKeyLimit);
      Condition(SelectText(columns,
                           NumberedText(columns, joinCols, WindowText(requested, primaryKey, joinCols), RANK, t,
                                                 where.sql, WINDOW, WhereText(keep.sql, OrderByText(requested)))),
                where.args + keep.args)
    else SelectStatement(columns, t, where, requested, UNLIMITED)
  }

  lemma BatchBinds(columns: seq<string>, t: TableName, joinCols: seq<string>, requested: Order,
                   primaryKey: seq<string>, where: Condition, perKeyLimit: int)
    requires Aligned(where) && perKeyLimit > 0
    ensures var s := BatchStatement(columns, t, joinCols, requested, primaryKey, where, perKeyLimit);
            && Aligned(s) && WellFormed(RankWithin(perKeyLimit))
            && BoundText(s) ==
               SelectText(columns, NumberedText(columns, joinCols, WindowText(requested, primaryKey, joinCols), RANK, t,
                                                BoundText(where), WINDOW,
                                                WhereText(BoundText(RankWithin(perKeyLimit)), OrderByText(requested))))
  {
    var window, keep, sort := WindowText(requested, primaryKey, joinCols), RankWithin(perKeyLimit),
        OrderByText(requested);
    RankWithinMeans(perKeyLimit);
    OrderPlain(requested);
    WindowPlain(requested, primaryKey, joinCols);
    BindNoHoles(sort);
    WhereBinds(keep, sort, []);
    assert keep.args + [] == keep.args;
    NumberedBinds(columns, joinCols, window, RANK, t, where, WINDOW, WhereText(keep.sql, sort), keep.args);
    SelectTextBinds(columns, NumberedText(columns, joinCols, window, RANK, t, where.sql, WINDOW,
                                          WhereText(keep.sql, sort)), where.args + keep.args);
  }

  /** The capped statement reads back as a numbered subquery whose rank is compared with the cap. */
  lemma BatchReads(columns: seq<string>, t: TableName, joinCols: seq<string>, requested: Order,
                   primaryKey: seq<string>, where: Condition, perKeyLimit: int)
    requires columns != [] && joinCols != [] && WellFormed(where) && perKeyLimit > 0
    ensures var s := BatchStatement(columns, t, joinCols, requested, primaryKey, where, perKeyLimit);
            && Aligned(s)
            && ReadQuery(BoundText(s)) ==
               Some(Query(columns, Numbered(columns, joinCols, WindowOrder(requested, primaryKey, joinCols), RANK, t,
                                            Meaning(where)),
                          Leaf(Compare(RANK, Lte, Int(perKeyLimit))), requested, None, None))
  {
    BatchBinds(columns, t, joinCols, requested, primaryKey, where, perKeyLimit);
    RankWithinMeans(perKeyLimit);
    var keep := RankWithin(perKeyLimit);
    var cond := WhereText(BoundText(keep), OrderByText(requested));
    NumberedReads(columns, joinCols, requested, primaryKey, RANK, t, where, WINDOW, cond);
    assert OrderByText(requested) + [] == OrderByText(requested);
    SelectTextReads(columns, NumberedText(columns, joinCols, WindowText(requested, primaryKey, joinCols), RANK, t,
                                          BoundText(where), WINDOW, cond),
                    Numbered(columns, joinCols, WindowOrder(requested, primaryKey, joinCols), RANK, t, Meaning(where)),
                    keep, requested, [], None, None);
  }

  // ----- nearest neighbours -----

  const DISTANCE := "__gqlgate_dist"

  const BY_DISTANCE: Order := [OrderKey(DISTANCE, false)]

  /** A row without a vector is left out: its distance would be NULL and sort first. */
  function NotNull(col: string): Condition { Condition([Ident(col), KwIs, KwNot, KwNull], []) }

  lemma NotNullMeans(col: string)
    ensures WellFormed(NotNull(col)) && Meaning(NotNull(col)) == NotE(Leaf(IsNull(col)))
  {
    var ts := NotNull(col).sql;
    BindNoHoles(ts);
    assert ts[1..] == [KwIs, KwNot, KwNull] && ts[1..][3..] == [];
    assert ParseColumn(col, ts[1..]) == Done(NotE(Leaf(IsNull(col))), []);
    assert ParseNot(ts) == Done(NotE(Leaf(IsNull(col))), []);
    UnitIsWhole(NotNull(col), NotE(Leaf(IsNull(col))));
  }

  /** The nearest-neighbour statement: the query vector's placeholder stands before those of the WHERE part. */
  function NearestStatement(columns: seq<string>, t: TableName, distance: string, col: string, to: Value,
                            where: Condition, first: Value): Condition {
    Condition(NearestText(columns, distance, col, [Hole],
                          FromText(t, WhereText(where.sql, OrderByText(BY_DISTANCE) + [Word("LIMIT"), Hole]))),
              [to] + (where.args + [first]))
  }

  function NearestText(columns: seq<string>, distance: string, col: string, to: Text, source: Text): Text {
    [Word("SELECT")] + (Columns(columns) + ([Comma] + ([Call(distance), LParen, Ident(col), Comma] + (to +
    ([RParen, Word("AS")] + ([Ident(DISTANCE)] + source))))))
  }

  function FromText(t: TableName, cond: Text): Text { [Word("FROM")] + (Qualified(t) + cond) }

  lemma FromBinds(t: TableName, cond: Text, args: seq<Value>)
    requires Holes(cond) == |args|
    ensures Holes(FromText(t, cond)) == |args| && Bind(FromText(t, cond), args) == FromText(t, Bind(cond, args))
  {
    BindBehind(Qualified(t), cond, args);
    BindBehind([Word("FROM")], Qualified(t) + cond, args);
  }

  lemma NearestTextBinds(columns: seq<string>, distance: string, col: string, to: Value, source: Text, args: seq<Value>)
    requires Holes(source) == |args|
    ensures Holes(NearestText(columns, distance, col, [Hole], source)) == |[to] + args|
    ensures Bind(NearestText(columns, distance, col, [Hole], source), [to] + args) ==
            NearestText(columns, distance, col, [Bound(to)], Bind(source, args))
  {
    var alias, all := [Ident(DISTANCE)] + source, [to] + args;
    BindBehind([Ident(DISTANCE)], source, args);
    BindBehind([RParen, Word("AS")], alias, args);
    BindHole(to, [RParen, Word("AS")] + alias, args);
    var measured := [Hole] + ([RParen, Word("AS")] + alias);
    var call := [Call(distance), LParen, Ident(col), Comma] + measured;
    BindBehind([Call(distance), LParen, Ident(col), Comma], measured, all);
    BindBehind([Comma], call, all);
    ColumnsPlain(columns);
    BindBehind(Columns(columns), [Comma] + call, all);
    BindBehind([Word("SELECT")], Columns(columns) + ([Comma] + call), all);
  }

  lemma NearestBinds(columns: seq<string>, t: TableName, distance: string, col: string, to: Value, where: Condition,
                     first: Value)
    requires Aligned(where)
    ensures var s := NearestStatement(columns, t, distance, col, to, where, first);
            var cut := OrderByText(BY_DISTANCE) + [Word("LIMIT"), Bound(first)];
            && Aligned(s)
            && BoundText(s) ==
               NearestText(columns, distance, col, [Bound(to)], FromText(t, WhereText(BoundText(where), cut)))
  {
    var cut := OrderByText(BY_DISTANCE) + [Word("LIMIT"), Hole];
    LimitOne(first);
    OrderPlain(BY_DISTANCE);
    BindBehind(OrderByText(BY_DISTANCE), [Word("LIMIT"), Hole], [first]);
    WhereBinds(where, cut, [first]);
    FromBinds(t, WhereText(where.sql, cut), where.args + [first]);
    NearestTextBinds(columns, distance, col, to, FromText(t, WhereText(where.sql, cut)), where.args + [first]);
  }

  lemma DistanceReads(distance: string, col: string, to: Value, s: Text)
    ensures ReadDistance([Call(distance), LParen, Ident(col), Comma] + ([Bound(to)] + s)) ==
            Some((distance, col, to, s))
  {
    assert ([Call(distance), LParen, Ident(col), Comma] + ([Bound(to)] + s))[5..] == s;
  }

  /** It reads back as a search by distance to the query vector, nearest first. */
  lemma NearestReads(columns: seq<string>, t: TableName, distance: string, col: string, to: Value, where: Condition,
                     first: Value)
    requires columns != [] && WellFormed(where)
    ensures var s := NearestStatement(columns, t, distance, col, to, where, first);
            && Aligned(s)
            && ReadNearest(BoundText(s)) ==
               Some(NearestQuery(columns, distance, col, to, DISTANCE, t, Meaning(where), BY_DISTANCE, Some(first)))
  {
    NearestBinds(columns, t, distance, col, to, where, first);
    var cut := [Word("LIMIT"), Bound(first)];
    var source := FromText(t, WhereText(BoundText(where), OrderByText(BY_DISTANCE) + cut));
    var alias := [Ident(DISTANCE)] + source;
    var named := [RParen, Word("AS")] + alias;
    var call := [Call(distance), LParen, Ident(col), Comma] + ([Bound(to)] + named);
    ExpectReads([Word("SELECT")], Columns(columns) + ([Comma] + call));
    NamesRead(columns, [Comma] + call);
    ExpectReads([Comma], call);
    DistanceReads(distance, col, to, named);
    ExpectReads([RParen, Word("AS")], alias);
    NameReads(DISTANCE, source);
    LimitOne(first);
    SortedReads(t, where, BY_DISTANCE, cut, first);
  }

  lemma SortedReads(t: TableName, where: Condition, order: Order, cut: Text, first: Value)
    requires WellFormed(where) && ReadLimit(cut) == Some((Some(first), None)) && cut != [] && cut[0] == Word("LIMIT")
    ensures ReadSorted(FromText(t, WhereText(BoundText(where), OrderByText(order) + cut))) ==
            Some((t, Meaning(where), order, Some(first)))
  {
    var cond := WhereText(BoundText(where), OrderByText(order) + cut);
    ExpectReads([Word("FROM")], Qualified(t) + cond);
    TableReads(t, cond);
    WhereReads(where, OrderByText(order) + cut);
    OrderByReads(order, cut);
  }

  // ----- COUNT, DELETE and UPDATE -----

  function CountStatement(t: TableName, where: Condition): Condition {
    Condition([Word("SELECT"), Call("COUNT"), LParen, Op("*"), RParen, Word("FROM")] +
              (Qualified(t) + WhereText(where.sql, [])), where.args)
  }

  function DeleteStatement(t: TableName, where: Condition): Condition {
    Condition([Word("DELETE"), Word("FROM")] + (Qualified(t) + WhereText(where.sql, [])), where.args)
  }

  lemma RestBinds(head: Text, t: TableName, where: Condition)
    requires NoHoles(head) && Aligned(where)
    ensures Holes(head + (Qualified(t) + WhereText(where.sql, []))) == |where.args|
    ensures Bind(head + (Qualified(t) + WhereText(where.sql, [])), where.args) ==
            head + (Qualified(t) + WhereText(BoundText(where), []))
  {
    BindNoHoles([]);
    WhereBinds(where, [], []);
    assert where.args + [] == where.args;
    BindBehind(Qualified(t), WhereText(where.sql, []), where.args);
    BindBehind(head, Qualified(t) + WhereText(where.sql, []), where.args);
  }

  /** COUNT and DELETE read back as their table and condition. */
  lemma CountAndDeleteRead(t: TableName, where: Condition)
    requires WellFormed(where)
    ensures var s := CountStatement(t, where);
            Aligned(s) && ReadCount(BoundText(s)) == Some((t, Meaning(where)))
    ensures var s := DeleteStatement(t, where);
            Aligned(s) && ReadDelete(BoundText(s)) == Some((t, Meaning(where)))
  {
    var count: Text := [Word("SELECT"), Call("COUNT"), LParen, Op("*"), RParen, Word("FROM")];
    var delete: Text := [Word("DELETE"), Word("FROM")];
    RestBinds(count, t, where);
    RestBinds(delete, t, where);
    var cond := WhereText(BoundText(where), []);
    ExpectReads(count, Qualified(t) + cond);
    ExpectReads(delete, Qualified(t) + cond);
    TableReads(t, cond);
    WhereReads(where, []);
  }

  function UpdateText(t: TableName, sets: Text, where: Text): Text {
    [Word("UPDATE")] + (Qualified(t) + ([Word("SET")] + (sets + WhereText(where, []))))
  }

  function UpdateStatement(t: TableName, sets: Condition, where: Condition): Condition {
    Condition(UpdateText(t, sets.sql, where.sql), sets.args + where.args)
  }

  lemma UpdateBinds(t: TableName, sets: Condition, where: Condition)
    requires Aligned(sets) && Aligned(where)
    ensures var u := UpdateStatement(t, sets, where);
            Aligned(u) && BoundText(u) == UpdateText(t, BoundText(sets), BoundText(where))
  {
    var cond, all := WhereText(where.sql, []), sets.args + where.args;
    BindNoHoles([]);
    WhereBinds(where, [], []);
    assert where.args + [] == where.args;
    BindConcat(sets.sql, sets.args, cond, where.args);
    BindBehind([Word("SET")], sets.sql + cond, all);
    BindBehind(Qualified(t), [Word("SET")] + (sets.sql + cond), all);
    BindBehind([Word("UPDATE")], Qualified(t) + ([Word("SET")] + (sets.sql + cond)), all);
  }

  /** A SET list reads the same with a WHERE part behind it. */
  lemma {:induction false} SetsRead(ts: Text, s: Text)
    requires ParseSet(ts).Some? && s != [] && s[0].Word?
    ensures ReadSets(ts + s) == Some((ParseSet(ts).value, s))
  {
    if |ts| == 3 {
      assert (ts + s)[3..] == s;
    } else {
      SetsRead(ts[4..], s);
      assert (ts + s)[4..] == ts[4..] + s;
    }
  }

  /** An UPDATE reads back as its table, assignments and condition. */
  lemma UpdateReads(t: TableName, sets: Condition, where: Condition)
    requires Aligned(sets) && ParseSet(BoundText(sets)).Some? && WellFormed(where)
    ensures var s := UpdateStatement(t, sets, where);
            && Aligned(s)
            && ReadUpdate(BoundText(s)) == Some(Update(t, ParseSet(BoundText(sets)).value, Meaning(where)))
  {
    UpdateBinds(t, sets, where);
    var cond := WhereText(BoundText(where), []);
    var list := [Word("SET")] + (BoundText(sets) + cond);
    ExpectReads([Word("UPDATE")], Qualified(t) + list);
    TableReads(t, list);
    ExpectReads([Word("SET")], BoundText(sets) + cond);
    SetsRead(BoundText(sets), cond);
    WhereReads(where, []);
  }

  /** An UPDATE from the client's fields and condition, the presets, and the compiled role filter. It fails exactly
      on fields, presets and claims; every placeholder is aligned, whether or not the filter is one whole condition;
      and when its WHERE part parses it reads back as writing exactly the merged values into the rows of that part,
      which the filter restricts. */
  method RunUpdate(ti: TableInfo, t: TableName, oa: WriteAccess, input: map<string, Value>, claims: ClaimMap,
                   user: Option<Condition>, lex: Lexer, filter: Option<Filter>)
    returns (r: Result<Condition>, ghost byCol: Assignments, ghost where: Condition)
    requires Consistent(ti, oa)
    requires (filter.Some? ==> Spliceable(lex, filter.value)) && (user.Some? ==> Aligned(user.value))
    ensures r.Ok? <==>
              && AllWritable(ti, oa, input) && AllPresent(oa.presets, claims) && !(input.Keys == {} && oa.presets == [])
              && (filter.Some? ==> Renders(filter.value.paths, claims))
    ensures r.Ok? ==> Aligned(r.value) && Merged(ti, oa, input, claims, byCol) && Aligned(where)
    ensures r.Ok? && WellFormed(where) ==>
              ReadUpdate(BoundText(r.value)) == Some(Update(t, Pairs(ti.columns, byCol), Meaning(where)))
    ensures r.Ok? && AllWellFormed([user]) ==> RoleFilter.Restricts(where, lex, filter, claims, [user])
  {
    var clause := SetClause(ti, oa, input, claims);
    if clause.Err? { return Err(clause.reason), map[], TRUE_CONDITION; }
    assert [user] + [] == [user];
    var cond := RoleWhere(lex, filter, claims, [user], []);
    if cond.Err? { return Err(cond.reason), map[], TRUE_CONDITION; }
    var (list, values) := clause.value;
    UpdateBinds(t, list, cond.value);
    if WellFormed(cond.value) { UpdateReads(t, list, cond.value); }
    return Ok(UpdateStatement(t, list, cond.value)), values, cond.value;
  }
}

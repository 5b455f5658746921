/** Whole statements read back from their text, and what a database may answer to them. */
module Queries {
  import opened Values
  import opened SqlText
  import opened SqlMeaning
  import opened Catalog
  import opened Paging
  import opened Window

  /** A table, with its schema and name. */
  datatype TableName = TableName(schema: string, name: string)

  // ----- reading statements -----

  datatype From =
    | Stored(table: TableName)
      // SELECT …, ROW_NUMBER() OVER (PARTITION BY … ORDER BY …) AS rank FROM table WHERE where
    | Numbered(columns: seq<string>, partition: seq<string>, window: Order, rank: string, table: TableName, where: Expr)

  datatype Query = Query(columns: seq<string>, from: From, where: Expr, order: Order, limit: Option<Value>,
                         offset: Option<Value>)

  function Expect(ts: Text, prefix: Text): (rest: Option<Text>)
    ensures rest.Some? ==> ts == prefix + rest.value
  {
    if |ts| >= |prefix| && ts[..|prefix|] == prefix then Some(ts[|prefix|..]) else None
  }

  /** "`a`, `b`": a column list, up to whatever cannot continue it. */
  function ReadNames(ts: Text): Option<(seq<string>, Text)> {
    if ts == [] || !ts[0].Ident? then None
    else if |ts| > 2 && ts[1].Comma? && ts[2].Ident? then
      var (names, rest) :- ReadNames(ts[2..]);
      Some(([ts[0].name] + names, rest))
    else Some(([ts[0].name], ts[1..]))
  }

  function ReadName(ts: Text): Option<(string, Text)> {
    if ts != [] && ts[0].Ident? then Some((ts[0].name, ts[1..])) else None
  }

  function ReadTable(ts: Text): Option<(TableName, Text)> {
    if |ts| > 2 && ts[0].Ident? && ts[1] == Word(".") && ts[2].Ident?
    then Some((TableName(ts[0].name, ts[2].name), ts[3..]))
    else None
  }

  /** A sort direction; without one the order is ascending. */
  function ReadDirection(ts: Text): (bool, Text) {
    if ts != [] && ts[0] == Word("DESC") then (true, ts[1..])
    else if ts != [] && ts[0] == Word("ASC") then (false, ts[1..])
    else (false, ts)
  }

  /** One column of an ORDER BY. */
  function ReadKey(ts: Text): (r: Option<(OrderKey, Text)>)
    ensures r.Some? ==> |r.value.1| < |ts|
  {
    var (name, behind) :- ReadName(ts);
    var (desc, rest) := ReadDirection(behind);
    Some((OrderKey(name, desc), rest))
  }

  /** "`a` DESC, `b`": the columns of an ORDER BY. */
  function ReadKeys(ts: Text): Option<(Order, Text)>
    decreases |ts|
  {
    var (key, rest) :- ReadKey(ts);
    if rest != [] && rest[0].Comma? then
      var (more, end) :- ReadKeys(rest[1..]);
      Some(([key] + more, end))
    else Some(([key], rest))
  }

  function ReadOrderBy(ts: Text): Option<(Order, Text)> {
    if ts != [] && ts[0] == Word("ORDER BY") then ReadKeys(ts[1..]) else Some(([], ts))
  }

  function ReadWhere(ts: Text): Option<(Expr, Text)> {
    var rest :- Expect(ts, [Word("WHERE")]);
    match ParseOr(rest) case Fail => None case Done(e, end) => Some((e, end))
  }

  function ReadFrom(ts: Text): Option<(From, Text)> {
    if ts != [] && ts[0].LParen? then
      var select :- Expect(ts, [LParen, Word("SELECT")]);
      var (columns, number) :- ReadNames(select);
      var parts :- Expect(number,
                          [Comma, Call("ROW_NUMBER"), LParen, RParen, Word("OVER"), LParen, Word("PARTITION BY")]);
      var (partition, sort) :- ReadNames(parts);
      var keys :- Expect(sort, [Word("ORDER BY")]);
      var (window, close) :- ReadKeys(keys);
      var alias :- Expect(close, [RParen, Word("AS")]);
      var (rank, from) :- ReadName(alias);
      var stored :- Expect(from, [Word("FROM")]);
      var (table, cond) :- ReadTable(stored);
      var (where, end) :- ReadWhere(cond);
      var named :- Expect(end, [RParen, Word("AS")]);
      var (_, rest) :- ReadName(named);
      Some((Numbered(columns, partition, window, rank, table, where), rest))
    else
      var (table, rest) :- ReadTable(ts);
      Some((Stored(table), rest))
  }

  /** The LIMIT and OFFSET at the end of a statement. */
  function ReadLimit(ts: Text): Option<(Option<Value>, Option<Value>)> {
    if ts == [] then Some((None, None))
    else if |ts| >= 2 && ts[0] == Word("LIMIT") && ValueOf(ts[1]).Some? then
      if |ts| == 2 then Some((ValueOf(ts[1]), None))
      else if |ts| == 4 && ts[2] == Word("OFFSET") && ValueOf(ts[3]).Some? then Some((ValueOf(ts[1]), ValueOf(ts[3])))
      else None
    else None
  }

  function ReadQuery(ts: Text): Option<Query> {
    var select :- Expect(ts, [Word("SELECT")]);
    var (columns, behind) :- ReadNames(select);
    var source :- Expect(behind, [Word("FROM")]);
    var (from, cond) :- ReadFrom(source);
    var (where, sort) :- ReadWhere(cond);
    var (order, cut) :- ReadOrderBy(sort);
    var (limit, offset) :- ReadLimit(cut);
    Some(Query(columns, from, where, order, limit, offset))
  }

  // ----- what a query may return -----

  type Tables = TableName -> set<Row>

  /** WHERE keeps exactly the rows whose condition is true. */
  function Filtered(db: Db, rows: set<Row>, where: Expr): set<Row> { set r | r in rows && Eval(db, where, r) == Yes }

  /** The row of a subquery, with its computed column. */
  function WithCell(r: Row, column: string, v: Value): Row { r.(cells := r.cells[column := v]) }

  function FilteredByRank(db: Db, rows: set<Row>, rank: string, rn: map<Row, nat>, where: Expr): set<Row> {
    set r | r in rows && r in rn && Eval(db, where, WithCell(r, rank, Int(rn[r]))) == Yes
  }

  /** What LIMIT and OFFSET keep; a negative number is refused. */
  predicate CutTo(full: seq<Row>, limit: Option<Value>, offset: Option<Value>, out: seq<Row>) {
    match (limit, offset)
    case (None, None) => out == full
    case (Some(Int(n)), None) => n >= 0 && out == Slice(full, 0, n)
    case (Some(Int(n)), Some(Int(m))) => n >= 0 && m >= 0 && out == Slice(full, m, n)
    case _ => false
  }

  /** The rows `out` are one of the results the database may return. Ties may be broken in any way, in the
      window as in the final order. */
  ghost predicate Returns(db: Db, le: ValueOrder, tables: Tables, q: Query, out: seq<Row>) {
    match q.from
    case Stored(t) =>
      exists full :: IsOrdering(le, q.order, Filtered(db, tables(t), q.where), full) &&
        CutTo(full, q.limit, q.offset, out)
    case Numbered(_, partition, window, rank, t, where) =>
      var inner := Filtered(db, tables(t), where);
      exists rn, full ::
        && RowNumbers(db, le, window, inner, partition, rn)
        && IsOrdering(le, q.order, FilteredByRank(db, inner, rank, rn, q.where), full)
        && CutTo(full, q.limit, q.offset, out)
  }

  // ----- the other statements -----

  /** SELECT …, function(column, to) AS alias FROM table WHERE where ORDER BY … LIMIT limit. */
  datatype NearestQuery = NearestQuery(columns: seq<string>, distance: string, column: string, to: Value, alias: string,
                                       table: TableName, where: Expr, order: Order, limit: Option<Value>)

  function ReadNearest(ts: Text): Option<NearestQuery> {
    var select :- Expect(ts, [Word("SELECT")]);
    var (columns, behind) :- ReadNames(select);
    var call :- Expect(behind, [Comma]);
    var (distance, column, to, closed) :- ReadDistance(call);
    var alias :- Expect(closed, [RParen, Word("AS")]);
    var (name, source) :- ReadName(alias);
    var (table, where, order, limit) :- ReadSorted(source);
    Some(NearestQuery(columns, distance, column, to, name, table, where, order, limit))
  }

  function ReadSorted(ts: Text): Option<(TableName, Expr, Order, Option<Value>)> {
    var from :- Expect(ts, [Word("FROM")]);
    var (table, cond) :- ReadTable(from);
    var (where, sort) :- ReadWhere(cond);
    var (order, cut) :- ReadOrderBy(sort);
    var (limit, _) :- ReadLimit(cut);
    Some((table, where, order, limit))
  }

  /** "function(`column`, v", up to the closing parenthesis. */
  function ReadDistance(ts: Text): Option<(string, string, Value, Text)> {
    if |ts| > 4 && ts[0].Call? && ts[1].LParen? && ts[2].Ident? && ts[3].Comma? && ValueOf(ts[4]).Some?
    then Some((ts[0].func, ts[2].name, ValueOf(ts[4]).value, ts[5..]))
    else None
  }

  /** The distance functions of the database. */
  type Distances = (string, Value, Value) -> Value

  function Measured(q: NearestQuery, dist: Distances, r: Row): Row {
    WithCell(r, q.alias, dist(q.distance, Cell(r, q.column), q.to))
  }

  ghost predicate ReturnsNearest(db: Db, le: ValueOrder, dist: Distances, tables: Tables, q: NearestQuery,
                                 out: seq<Row>) {
    exists full: seq<Row> ::
      && Distinct(full) && (forall r :: r in full <==> r in Filtered(db, tables(q.table), q.where))
      && SortedRows(le, q.order, seq(|full|, i requires 0 <= i < |full| => Measured(q, dist, full[i])))
      && CutTo(full, q.limit, None, out)
  }

  /** The table and condition of "SELECT COUNT(*) FROM table WHERE where": it counts `Filtered`. */
  function ReadCount(ts: Text): Option<(TableName, Expr)> {
    var from :- Expect(ts, [Word("SELECT"), Call("COUNT"), LParen, Op("*"), RParen, Word("FROM")]);
    ReadRest(from)
  }

  /** The table and condition of "DELETE FROM table WHERE where": it removes `Filtered`. */
  function ReadDelete(ts: Text): Option<(TableName, Expr)> {
    var from :- Expect(ts, [Word("DELETE"), Word("FROM")]);
    ReadRest(from)
  }

  function ReadRest(ts: Text): Option<(TableName, Expr)> {
    var (table, cond) :- ReadTable(ts);
    var (where, end) :- ReadWhere(cond);
    if end == [] then Some((table, where)) else None
  }

  /** "`a` = v, `b` = w": the assignments of an UPDATE. */
  function ReadSets(ts: Text): Option<(seq<(string, Value)>, Text)> {
    if |ts| >= 3 && ts[0].Ident? && ts[1] == Op("=") && ValueOf(ts[2]).Some? then
      var pair := (ts[0].name, ValueOf(ts[2]).value);
      if |ts| > 3 && ts[3].Comma? then
        var (more, rest) :- ReadSets(ts[4..]);
        Some(([pair] + more, rest))
      else Some(([pair], ts[3..]))
    else None
  }

  /** "UPDATE table SET … WHERE where": it writes the pairs into `Filtered`. */
  datatype Update = Update(table: TableName, sets: seq<(string, Value)>, where: Expr)

  function ReadUpdate(ts: Text): Option<Update> {
    var target :- Expect(ts, [Word("UPDATE")]);
    var (table, assign) :- ReadTable(target);
    var list :- Expect(assign, [Word("SET")]);
    var (sets, cond) :- ReadSets(list);
    var (where, end) :- ReadWhere(cond);
    if end == [] then Some(Update(table, sets, where)) else None
  }
}

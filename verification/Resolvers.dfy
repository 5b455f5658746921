/** From arguments to statement text to rows: the resolvers run against a database that answers statements by
    what their text says. */
module Resolvers {
  import opened Values
  import opened Catalog
  import opened SqlText
  import opened SqlMeaning
  import opened Conditions
  import opened KeyConditions
  import opened Paging
  import opened Window
  import opened Queries
  import opened Statements
  import opened Relationship
  import opened Connection

  /** The database's side of a query: rows, or an error. */
  type Runner = Condition -> Result<seq<Row>>

  /** Whatever the database answers to a query, it may answer to its text. */
  ghost predicate Executes(run: Runner, db: Db, le: ValueOrder, tables: Tables) {
    forall c: Condition ::
      Aligned(c) && run(c).Ok? && ReadQuery(BoundText(c)).Some? ==>
        Returns(db, le, tables, ReadQuery(BoundText(c)).value, run(c).value)
  }

  /** Computed ranks compare as numbers. */
  ghost predicate RanksCompare(db: Db) { forall a: int, b: int :: db.cmp(RANK, Lte, Int(a), Int(b)) <==> a <= b }

  lemma FilteredIsSelected(db: Db, table: set<Row>, where: Condition)
    requires WellFormed(where)
    ensures Filtered(db, table, Meaning(where)) == Selected(db, table, where)
  {
  }

  /** The outer WHERE of the windowed statement keeps exactly the rows ranked within the cap. */
  lemma RankFilter(db: Db, rows: set<Row>, rn: map<Row, nat>, cap: nat)
    requires RanksCompare(db)
    ensures FilteredByRank(db, rows, RANK, rn, Leaf(Compare(RANK, Lte, Int(cap)))) == Ranked(rows, rn, cap)
  {
    forall r | r in rows && r in rn
      ensures Eval(db, Leaf(Compare(RANK, Lte, Int(cap))), WithCell(r, RANK, Int(rn[r]))) == Yes <==> rn[r] <= cap
    {
      assert Cell(WithCell(r, RANK, Int(rn[r])), RANK) == Int(rn[r]);
    }
  }

  /** The numbered query, filtered by rank, returns the results of the ranked and capped batch. */
  lemma NumberedReturns(db: Db, le: ValueOrder, tables: Tables, columns: seq<string>, t: TableName,
                        joinCols: seq<string>, requested: Order, primaryKey: seq<string>, where: Expr, cap: nat,
                        out: seq<Row>)
    requires RanksCompare(db) && cap > 0
    ensures var window := WindowOrder(requested, primaryKey, joinCols);
            var q := Query(columns, Numbered(columns, joinCols, window, RANK, t, where),
                           Leaf(Compare(RANK, Lte, Int(cap))), requested, None, None);
            Returns(db, le, tables, q, out) <==>
            BatchResult(db, le, requested, primaryKey, joinCols, Filtered(db, tables(t), where), cap, out)
  {
    var rows, window := Filtered(db, tables(t), where), WindowOrder(requested, primaryKey, joinCols);
    var keep := Leaf(Compare(RANK, Lte, Int(cap)));
    var q := Query(columns, Numbered(columns, joinCols, window, RANK, t, where), keep, requested, None, None);
    if Returns(db, le, tables, q, out) {
      var rn, full :| RowNumbers(db, le, window, rows, joinCols, rn)
                      && IsOrdering(le, requested, FilteredByRank(db, rows, RANK, rn, keep), full)
                      && CutTo(full, None, None, out);
      RankFilter(db, rows, rn, cap);
    }
    if BatchResult(db, le, requested, primaryKey, joinCols, rows, cap, out) {
      var rn :| RowNumbers(db, le, window, rows, joinCols, rn) && IsOrdering(le, requested, Ranked(rows, rn, cap), out);
      RankFilter(db, rows, rn, cap);
      assert CutTo(out, q.limit, q.offset, out);
    }
  }

  lemma UncappedReturns(db: Db, le: ValueOrder, tables: Tables, columns: seq<string>, t: TableName, requested: Order,
                        where: Expr, out: seq<Row>)
    ensures Returns(db, le, tables, Query(columns, Stored(t), where, requested, None, None), out) <==>
            IsOrdering(le, requested, Filtered(db, tables(t), where), out)
  {
    if IsOrdering(le, requested, Filtered(db, tables(t), where), out) {
      assert CutTo(out, None, None, out);
    }
  }

  /** The rows a database may answer to the batch statement's text are exactly the results of the ranked, capped and
      ordered batch. */
  lemma BatchAnswers(db: Db, le: ValueOrder, tables: Tables, columns: seq<string>, t: TableName, joinCols: seq<string>,
                     requested: Order, primaryKey: seq<string>, where: Condition, perKeyLimit: nat, out: seq<Row>)
    requires columns != [] && joinCols != [] && WellFormed(where) && RanksCompare(db)
    ensures var s := BatchStatement(columns, t, joinCols, requested, primaryKey, where, perKeyLimit);
            && Aligned(s) && ReadQuery(BoundText(s)).Some? && ReadQuery(BoundText(s)).value.columns == columns
            && (Returns(db, le, tables, ReadQuery(BoundText(s)).value, out) <==>
                BatchResult(db, le, requested, primaryKey, joinCols, Selected(db, tables(t), where), perKeyLimit, out))
  {
    FilteredIsSelected(db, tables(t), where);
    if perKeyLimit > 0 {
      BatchReads(columns, t, joinCols, requested, primaryKey, where, perKeyLimit);
      NumberedReturns(db, le, tables, columns, t, joinCols, requested, primaryKey, Meaning(where), perKeyLimit, out);
    } else {
      FixedLimits();
      SelectReads(columns, t, where, requested, UNLIMITED, None, None);
      UncappedReturns(db, le, tables, columns, t, requested, Meaning(where), out);
    }
  }

  lemma SliceFromStart(full: seq<Row>, n: nat)
    ensures Slice(full, 0, n) == full[..Min(n, |full|)]
  {
  }

  /** The rows a database may answer to a SELECT with a limit are exactly the pages of that offset and limit. */
  lemma SelectAnswers(db: Db, le: ValueOrder, tables: Tables, columns: seq<string>, t: TableName, where: Condition,
                      order: Order, limit: Condition, count: nat, offset: nat, out: seq<Row>)
    requires columns != [] && WellFormed(where)
    requires LimitReads(limit, Some(Int(count)), if offset > 0 then Some(Int(offset)) else None)
    ensures var s := SelectStatement(columns, t, where, order, limit);
            && Aligned(s) && ReadQuery(BoundText(s)).Some? && ReadQuery(BoundText(s)).value.columns == columns
            && (Returns(db, le, tables, ReadQuery(BoundText(s)).value, out) <==>
                PerRowPage(le, order, Selected(db, tables(t), where), offset, count, out))
  {
    FilteredIsSelected(db, tables(t), where);
    SelectReads(columns, t, where, order, limit, Some(Int(count)), if offset > 0 then Some(Int(offset)) else None);
  }

  // ----- a batch load and the per-row fallback -----

  /** The load function of a relationship: one statement for the whole batch, its rows grouped by key. What it gives
      is an outcome of the batch. */
  method LoadBatch(f: Field, columns: seq<string>, t: TableName, batch: seq<Key>, run: Runner, ghost tables: Tables)
    returns (groups: Result<map<string, seq<Row>>>)
    requires Executes(run, f.db, f.le, tables) && RanksCompare(f.db) && tables(t) == f.table && columns != []
    requires f.joinCols != [] && AllOfWidth(batch, |f.joinCols|) && AllWellFormed([f.user, f.filter])
    ensures groups.Ok? ==> LoadOutcome(f, batch, groups.value)
  {
    var inCond := InCondition(f.joinCols, batch);
    var where := CombineConds([Some(inCond), f.user, f.filter]);
    BatchWhereMeans(f.joinCols, batch, f.user, f.filter);
    var s := BatchStatement(columns, t, f.joinCols, f.order, f.primaryKey, where, f.perKeyLimit);
    var rows := run(s);
    if rows.Err? { return Err(rows.reason); }
    BatchAnswers(f.db, f.le, tables, columns, t, f.joinCols, f.order, f.primaryKey, where, f.perKeyLimit, rows.value);
    var out := GroupByColumns(f.sig, f.joinCols, rows.value);
    return Ok(out);
  }

  /** The query for one parent alone. What it gives is a fallback page. */
  method LoadOne(f: Field, cfg: PageConfig, args: PageArgs, columns: seq<string>, t: TableName, key: Key, run: Runner,
                 ghost tables: Tables)
    returns (page: Result<seq<Row>>)
    requires Executes(run, f.db, f.le, tables) && tables(t) == f.table && columns != []
    requires f.joinCols != [] && |key| == |f.joinCols| && AllWellFormed([f.user, f.filter])
    requires PageBounds(cfg, args) == Ok(Bounds(f.limit, f.offset))
    ensures page.Ok? ==> FallbackPage(f, key, page.value)
  {
    var where := CombineConds([f.user, f.filter, Some(EqCond(f.joinCols, key))]);
    FallbackWhereMeans(f.joinCols, key, f.user, f.filter);
    var limit := LimitClause(cfg, args);
    page := run(SelectStatement(columns, t, where, f.order, limit.value));
    if page.Ok? {
      SelectAnswers(f.db, f.le, tables, columns, t, where, f.order, limit.value, f.limit, f.offset, page.value);
    }
  }

  // ----- a connection -----

  lemma PageWhereParses(w: Setting, cursor: Option<string>)
    requires Kinded(w) && AllWellFormed([w.user, w.filter]) && AfterCondition(w, cursor).Ok?
    ensures WellFormed(PageWhere(w, AfterCondition(w, cursor).value))
  {
    var after := AfterCondition(w, cursor).value;
    if after.Some? { KeysetCondMeans(w.pk, DecodeCursor(w.codec, cursor.value, w.shape, |w.pk|).value); }
    var two, conds := [w.user, w.filter], [w.user, w.filter, after];
    assert two[0] == w.user && two[1] == w.filter;
    assert conds[0] == w.user && conds[1] == w.filter && conds[2] == after;
    CombineMeans(conds);
  }

  lemma LimitedReturns(db: Db, le: ValueOrder, tables: Tables, columns: seq<string>, t: TableName, where: Expr,
                       order: Order, limit: int, out: seq<Row>)
    ensures Returns(db, le, tables, Query(columns, Stored(t), where, order, Some(Int(limit)), None), out) <==>
            limit >= 0 && exists full :: IsOrdering(le, order, Filtered(db, tables(t), where), full)
                                         && out == full[..Min(limit, |full|)]
  {
    forall full: seq<Row> | limit >= 0 ensures Slice(full, 0, limit) == full[..Min(limit, |full|)] {
      SliceFromStart(full, limit);
    }
  }

  /** The rows a database may answer to the keyset statement's text are exactly the keyset results. */
  lemma KeysetAnswers(w: Setting, tables: Tables, columns: seq<string>, t: TableName, after: Option<Condition>,
                      limit: int, out: seq<Row>)
    requires Kinded(w) && columns != [] && WellFormed(PageWhere(w, after))
    ensures var s := SelectStatement(columns, t, PageWhere(w, after), Ascending(w.pk),
                                     Condition([Word("LIMIT"), Hole], [Int(limit)]));
            && Aligned(s) && ReadQuery(BoundText(s)).Some? && ReadQuery(BoundText(s)).value.columns == columns
            && (Returns(w.db, w.le, tables, ReadQuery(BoundText(s)).value, out) <==>
                limit >= 0 && KeysetResult(w, tables(t), after, limit, out))
  {
    LimitOne(Int(limit));
    var where := PageWhere(w, after);
    SelectReads(columns, t, where, Ascending(w.pk), Condition([Word("LIMIT"), Hole], [Int(limit)]), Some(Int(limit)),
                None);
    FilteredIsSelected(w.db, tables(t), where);
    LimitedReturns(w.db, w.le, tables, columns, t, Meaning(where), Ascending(w.pk), limit, out);
  }

  /** runKeysetPage: one keyset statement. */
  method FetchPage(w: Setting, columns: seq<string>, t: TableName, ghost cursor: Option<string>,
                   after: Option<Condition>, limit: int, run: Runner, ghost tables: Tables)
    returns (rows: Result<seq<Row>>)
    requires Executes(run, w.db, w.le, tables) && Kinded(w) && AllWellFormed([w.user, w.filter]) && columns != []
    requires AfterCondition(w, cursor) == Ok(after)
    ensures rows.Ok? ==> limit >= 0 && KeysetResult(w, tables(t), after, limit, rows.value)
    ensures rows.Err? ==> exists c :: run(c).Err?
  {
    PageWhereParses(w, cursor);
    var where := CombineConds([w.user, w.filter, after]);
    rows := run(SelectStatement(columns, t, where, Ascending(w.pk), Condition([Word("LIMIT"), Hole], [Int(limit)])));
    if rows.Ok? { KeysetAnswers(w, tables, columns, t, after, limit, rows.value); }
  }

  /** The connection resolver from its arguments to its answer. Whatever page it answers, the walk theorems speak of:
      it is a page for the cursor it was given, on the table as it was. It refuses a negative size, a cursor that does
      not decode, and a failing query, and nothing else; it panics only under a negative maximum. */
  method ResolveConnection(cfg: PageConfig, w: Setting, columns: seq<string>, t: TableName, args: ConnectionArgs,
                           run: Runner, ghost tables: Tables)
    returns (r: Outcome<ConnectionPage>, ghost first: int)
    requires Executes(run, w.db, w.le, tables) && Kinded(w) && AllWellFormed([w.user, w.filter]) && columns != []
    ensures Or(args.first, cfg.defaultSize) < 0 || AfterCondition(w, args.after).Err? ==> r.Refused?
    ensures r.Refused? ==>
              Or(args.first, cfg.defaultSize) < 0 || AfterCondition(w, args.after).Err? || exists c :: run(c).Err?
    ensures r.Replied? ==>
              && 0 <= first == Min(Or(args.first, cfg.defaultSize), cfg.maxSize)
              && AnswersPage(w, tables(t), args.after, first, r.value)
    ensures r.Panicked? ==> cfg.maxSize < 0
  {
    var q := PrepareConnection(cfg, w, args);
    if q.Err? { return Refused(q.reason), 0; }
    first := q.value.first;
    var rows := FetchPage(w, columns, t, args.after, q.value.after, q.value.first + 1, run, tables);
    if rows.Err? { return Refused(rows.reason), first; }
    r := FinishConnection(w.codec, w.pk, w.shape, q.value.first, rows.value);
  }

  // ----- nearest neighbours -----

  /** The rows the search is over: those with a vector that both conditions keep. */
  predicate Searched(db: Db, table: set<Row>, user: Option<Condition>, filter: Option<Condition>, col: string, r: Row) {
    r in table && HoldsIfPresent(db, user, r) && HoldsIfPresent(db, filter, r) && !Cell(r, col).Null?
  }

  lemma NearestWhereMeans(db: Db, table: set<Row>, user: Option<Condition>, filter: Option<Condition>, col: string)
    requires AllWellFormed([user, filter])
    ensures var c := Combine([user, filter, Some(NotNull(col))]);
            WellFormed(c) && forall r :: r in Selected(db, table, c) <==> Searched(db, table, user, filter, col, r)
  {
    NotNullMeans(col);
    var two, conds := [user, filter], [user, filter, Some(NotNull(col))];
    assert two[0] == user && two[1] == filter;
    assert conds[0] == user && conds[1] == filter && conds[2] == Some(NotNull(col));
    CombineMeans(conds);
    forall r
      ensures Holds(db, Combine(conds), r) <==>
              HoldsIfPresent(db, user, r) && HoldsIfPresent(db, filter, r) && !Cell(r, col).Null?
    {
      AllHoldThree(db, conds, r);
      NotNullHolds(db, col, r);
    }
  }

  lemma NotNullHolds(db: Db, col: string, r: Row)
    ensures HoldsIfPresent(db, Some(NotNull(col)), r) <==> !Cell(r, col).Null?
  {
    NotNullMeans(col);
    assert Eval(db, Leaf(IsNull(col)), r) == Of(Cell(r, col).Null?);
  }

  /** The nearest-neighbour search answers with the nearest rows, nearest first: never a row without a vector, and
      no row left out is nearer than one returned. */
  lemma NearestAnswers(db: Db, le: ValueOrder, dist: Distances, tables: Tables, columns: seq<string>, t: TableName,
                       distance: string, col: string, to: Value, user: Option<Condition>, filter: Option<Condition>,
                       first: nat, out: seq<Row>)
    requires columns != [] && AllWellFormed([user, filter])
    ensures var s := NearestStatement(columns, t, distance, col, to, Combine([user, filter, Some(NotNull(col))]),
                                      Int(first));
            && Aligned(s) && ReadNearest(BoundText(s)).Some? && ReadNearest(BoundText(s)).value.columns == columns
            && (ReturnsNearest(db, le, dist, tables, ReadNearest(BoundText(s)).value, out) ==>
                  NearestFirst(db, le, dist, tables(t), distance, col, to, user, filter, first, out))
  {
    var where := Combine([user, filter, Some(NotNull(col))]);
    NearestWhereMeans(db, tables(t), user, filter, col);
    NearestReads(columns, t, distance, col, to, where, Int(first));
    var q := NearestQuery(columns, distance, col, to, DISTANCE, t, Meaning(where), BY_DISTANCE, Some(Int(first)));
    FilteredIsSelected(db, tables(t), where);
    if ReturnsNearest(db, le, dist, tables, q, out) {
      SortedIsNearest(db, le, dist, tables, q, user, filter, first, out);
    }
  }

  ghost predicate NearestFirst(db: Db, le: ValueOrder, dist: Distances, table: set<Row>, distance: string, col: string,
                               to: Value, user: Option<Condition>, filter: Option<Condition>, first: nat,
                               out: seq<Row>) {
    var d := (r: Row) => dist(distance, Cell(r, col), to);
    && |out| <= first
    && (forall r :: r in out ==> Searched(db, table, user, filter, col, r))
    && (forall i, j :: 0 <= i < j < |out| ==> out[i] != out[j] && le(DISTANCE, d(out[i]), d(out[j])))
    && forall r :: Searched(db, table, user, filter, col, r) && r !in out ==>
         |out| == first && forall i :: 0 <= i < |out| ==> le(DISTANCE, d(out[i]), d(r))
  }

  lemma SortedIsNearest(db: Db, le: ValueOrder, dist: Distances, tables: Tables, q: NearestQuery,
                        user: Option<Condition>, filter: Option<Condition>, first: nat, out: seq<Row>)
    requires q.order == BY_DISTANCE && q.alias == DISTANCE && q.limit == Some(Int(first))
    requires forall r :: r in Filtered(db, tables(q.table), q.where) <==>
                         Searched(db, tables(q.table), user, filter, q.column, r)
    requires ReturnsNearest(db, le, dist, tables, q, out)
    ensures NearestFirst(db, le, dist, tables(q.table), q.distance, q.column, q.to, user, filter, first, out)
  {
    var full: seq<Row> :|
      && Distinct(full) && (forall r :: r in full <==> r in Filtered(db, tables(q.table), q.where))
      && SortedRows(le, q.order, seq(|full|, i requires 0 <= i < |full| => Measured(q, dist, full[i])))
      && CutTo(full, q.limit, None, out);
    SortedByDistance(le, dist, q, full);
    SliceFromStart(full, first);
    PrefixIsNearest(le, r => dist(q.distance, Cell(r, q.column), q.to), full, first, out);
    assert forall r :: r in out ==> r in full;
  }

  lemma SortedByDistance(le: ValueOrder, dist: Distances, q: NearestQuery, full: seq<Row>)
    requires q.order == BY_DISTANCE && q.alias == DISTANCE
    requires SortedRows(le, q.order, seq(|full|, i requires 0 <= i < |full| => Measured(q, dist, full[i])))
    ensures forall i, j :: 0 <= i < j < |full| ==>
              le(DISTANCE, dist(q.distance, Cell(full[i], q.column), q.to),
                 dist(q.distance, Cell(full[j], q.column), q.to))
  {
    var measured := seq(|full|, i requires 0 <= i < |full| => Measured(q, dist, full[i]));
    forall i, j | 0 <= i < j < |full|
      ensures le(DISTANCE, dist(q.distance, Cell(full[i], q.column), q.to),
                 dist(q.distance, Cell(full[j], q.column), q.to))
    {
      assert RowLeq(le, BY_DISTANCE, measured[i], measured[j]);
    }
  }

  lemma PrefixIsNearest(le: ValueOrder, d: Row -> Value, full: seq<Row>, first: nat, out: seq<Row>)
    requires out == full[..Min(first, |full|)]
    requires forall i, j :: 0 <= i < j < |full| ==> le(DISTANCE, d(full[i]), d(full[j]))
    ensures forall r :: r in full && r !in out ==>
              |out| == first && forall i :: 0 <= i < |out| ==> le(DISTANCE, d(out[i]), d(r))
  {
    assert full == out + full[|out|..];
    forall r | r in full[|out|..]
      ensures |out| == first && forall i :: 0 <= i < |out| ==> le(DISTANCE, d(out[i]), d(r))
    {
      var k :| |out| <= k < |full| && full[k] == r;
    }
  }
}

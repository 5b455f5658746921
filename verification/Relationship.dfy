/** Relationship fields end to end: resolvers enqueue parent keys, waves of thunks fetch through the
    loader, and each parent's page is cut in memory. Together they give what the per-row fallback could. */
module Relationship {
  import opened Values
  import opened SqlText
  import opened SqlMeaning
  import opened Conditions
  import opened KeyConditions
  import opened Paging
  import opened Window
  import opened Loader

  /** One relationship field with its arguments over one state of the child table. A to-many field caps
      its batches at limit + offset rows per key; a to-one field is uncapped and takes the first row. */
  datatype Field = Field(
    db: Db, le: ValueOrder, sig: Signature,
    table: set<Row>, user: Option<Condition>, filter: Option<Condition>,
    order: Order, primaryKey: seq<string>, joinCols: seq<string>, dom: seq<Domain>,
    perKeyLimit: nat, offset: nat, limit: nat)

  /** A key of the join columns' values without NULL: the only keys resolvers enqueue. */
  predicate ValidKey(f: Field, k: Key) { |k| == |f.joinCols| && InDomain(f.dom, k) }

  predicate ValidKeys(f: Field, keys: seq<Key>) { forall i :: 0 <= i < |keys| ==> ValidKey(f, keys[i]) }

  /** What is assumed of the database and of signatures, all within the join columns' values: SQL equality is
      an equivalence, signatures identify keys, and on the rows of this table they agree with SQL. */
  ghost predicate Assumptions(f: Field) {
    && f.joinCols != [] && |f.dom| == |f.joinCols| && AllWellFormed([f.user, f.filter])
    && EqualityOn(f.db, f.joinCols, f.dom) && RowsHoldable(f.dom, f.joinCols, f.table)
    && (forall a: Key, b: Key | ValidKey(f, a) && ValidKey(f, b) :: f.sig(a) == f.sig(b) ==> a == b)
    && (forall k: Key | ValidKey(f, k) :: SignatureAgrees(f.db, f.sig, f.joinCols, f.table, k))
    && (f.perKeyLimit == 0 || f.offset + f.limit <= f.perKeyLimit)
  }

  /** When different keys are never equal in SQL and signatures tell cells apart, the assumptions hold of any table. */
  lemma ApartMeetsAssumptions(f: Field)
    requires f.joinCols != [] && |f.dom| == |f.joinCols| && AllWellFormed([f.user, f.filter])
    requires EqualityOn(f.db, f.joinCols, f.dom) && RowsHoldable(f.dom, f.joinCols, f.table)
    requires KeysApart(f.db, f.joinCols, f.dom) && ExactSignatures(f.sig, f.dom)
    requires f.perKeyLimit == 0 || f.offset + f.limit <= f.perKeyLimit
    ensures Assumptions(f)
  {
    forall k: Key | ValidKey(f, k) ensures SignatureAgrees(f.db, f.sig, f.joinCols, f.table, k) {
      ApartAgrees(f.db, f.dom, f.sig, f.joinCols, f.table, k);
    }
  }

  function BatchRows(f: Field, batch: seq<Key>): set<Row>
    requires f.joinCols != [] && AllOfWidth(batch, |f.joinCols|)
    requires WellFormed(Combine([Some(InCond(f.joinCols, batch)), f.user, f.filter]))
  {
    Selected(f.db, f.table, Combine([Some(InCond(f.joinCols, batch)), f.user, f.filter]))
  }

  /** The groups a load of this batch may produce: the statement's result, grouped by the join columns. */
  ghost predicate LoadOutcome(f: Field, batch: seq<Key>, groups: map<string, seq<Row>>) {
    && f.joinCols != [] && AllOfWidth(batch, |f.joinCols|)
    && WellFormed(Combine([Some(InCond(f.joinCols, batch)), f.user, f.filter]))
    && exists out :: BatchResult(f.db, f.le, f.order, f.primaryKey, f.joinCols, BatchRows(f, batch), f.perKeyLimit, out)
                     && Groups(f.sig, f.joinCols, out, groups)
  }

  /** The pages the fallback query for one key may return. */
  ghost predicate FallbackPage(f: Field, k: Key, page: seq<Row>)
    requires |k| == |f.joinCols|
  {
    var c := Combine([f.user, f.filter, Some(EqCond(f.joinCols, k))]);
    WellFormed(c) && PerRowPage(f.le, f.order, Selected(f.db, f.table, c), f.offset, f.limit, page)
  }

  /** A group is permitted for a signature when its page is a fallback page of the key. */
  ghost predicate Permitted(f: Field, s: string, group: seq<Row>) {
    forall k: Key | ValidKey(f, k) && f.sig(k) == s :: FallbackPage(f, k, Slice(group, f.offset, f.limit))
  }

  ghost function PermittedBy(f: Field): (string, seq<Row>) -> bool { (s, group) => Permitted(f, s, group) }

  lemma OutcomeIsPermitted(f: Field, batch: seq<Key>, groups: map<string, seq<Row>>, k: Key)
    requires Assumptions(f) && ValidKeys(f, batch) && LoadOutcome(f, batch, groups) && k in batch
    ensures Permitted(f, f.sig(k), Get(groups, f.sig(k)))
  {
    var rows := BatchRows(f, batch);
    var out :| BatchResult(f.db, f.le, f.order, f.primaryKey, f.joinCols, rows, f.perKeyLimit, out)
               && Groups(f.sig, f.joinCols, out, groups);
    assert ValidKey(f, k) && SignatureAgrees(f.db, f.sig, f.joinCols, f.table, k);
    assert SignatureAgrees(f.db, f.sig, f.joinCols, rows, k);
    BatchedPageIsPerRowPage(f.db, f.le, f.dom, f.sig, f.table, f.user, f.filter, f.order, f.primaryKey,
                            f.joinCols, batch, k, f.perKeyLimit, out, f.offset, f.limit);
  }

  /** Rows returned for a batch carry a signature of the batch. */
  lemma OutcomeStaysInBatch(f: Field, batch: seq<Key>, groups: map<string, seq<Row>>)
    requires Assumptions(f) && ValidKeys(f, batch) && LoadOutcome(f, batch, groups)
    ensures groups.Keys <= Sigs(f.sig, batch)
  {
    var rows := BatchRows(f, batch);
    var out :| BatchResult(f.db, f.le, f.order, f.primaryKey, f.joinCols, rows, f.perKeyLimit, out)
               && Groups(f.sig, f.joinCols, out, groups);
    forall s | s in groups ensures s in Sigs(f.sig, batch) {
      var g := Group(f.sig, f.joinCols, out, s);
      assert g != [];
      GroupMembers(f.sig, f.joinCols, out, s);
      assert g[0] in g;
      SelectedMatchesSomeKey(f, batch, g[0]);
    }
  }

  lemma {:induction false} GroupMembers(sig: Signature, joinCols: seq<string>, rows: seq<Row>, s: string)
    ensures forall r :: r in Group(sig, joinCols, rows, s) ==> r in rows && sig(CellsOf(r, joinCols)) == s
  {
    if rows != [] { GroupMembers(sig, joinCols, rows[..|rows| - 1], s); }
  }

  lemma SelectedMatchesSomeKey(f: Field, batch: seq<Key>, r: Row)
    requires Assumptions(f) && ValidKeys(f, batch)
    requires WellFormed(Combine([Some(InCond(f.joinCols, batch)), f.user, f.filter])) && r in BatchRows(f, batch)
    ensures f.sig(CellsOf(r, f.joinCols)) in Sigs(f.sig, batch)
  {
    BatchWhereMeans(f.joinCols, batch, f.user, f.filter);
    assert KeyAmong(f.db, f.joinCols, batch, r) == Yes;
    var i :| 0 <= i < |batch| && TupleEq(f.db, f.joinCols, CellsOf(r, f.joinCols), batch[i]) == Yes;
    assert SignatureAgrees(f.db, f.sig, f.joinCols, f.table, batch[i]);
    assert batch[i] in batch;
  }

  /** A load in this state was answered by the database for the batch that was sent, or failed. */
  ghost predicate LoadAnswered(f: Field, sig: Signature, s: State, e: Event) {
    e.Fetch? && Sends(sig, s, e.key) && e.answer.Grouped? ==> LoadOutcome(f, s.pending, e.answer.groups)
  }

  /** Every load of the run was. */
  ghost predicate LoadsFromDatabase(f: Field, es: seq<Event>) {
    es == [] || (LoadsFromDatabase(f, Init(es)) && LoadAnswered(f, f.sig, Run(f.sig, Init(es)), Last(es)))
  }

  predicate EnqueuesValidKeys(f: Field, es: seq<Event>) {
    forall i :: 0 <= i < |es| && es[i].Enqueue? ==> ValidKey(f, es[i].key)
  }

  lemma {:induction false} DatabaseAnswers(f: Field, es: seq<Event>)
    requires Assumptions(f) && LoadsFromDatabase(f, es) && EnqueuesValidKeys(f, es)
    ensures Answered(f.sig, es, PermittedBy(f))
  {
    if es != [] {
      DatabaseAnswers(f, Init(es));
      if LastSends(f.sig, es) && Last(es).answer.Grouped? {
        var batch, groups := Run(f.sig, Init(es)).pending, Last(es).answer.groups;
        PendingWasEnqueued(f.sig, Init(es));
        forall k | k in batch ensures ValidKey(f, k) {
          var i :| 0 <= i < |Init(es)| && Init(es)[i] == Enqueue(k);
          assert es[i] == Enqueue(k);
        }
        OutcomeStaysInBatch(f, batch, groups);
        forall k | k in batch ensures PermittedBy(f)(f.sig(k), Get(groups, f.sig(k))) {
          OutcomeIsPermitted(f, batch, groups, k);
        }
      }
    }
  }

  /** Batched relationships equal per-row queries. Over every interleaving of enqueues and fetches in
      which no load has failed, the page cut from what a fetch of an enqueued key returns is a page the
      fallback query for that key alone may return. */
  lemma RelationshipRefinesFallback(f: Field, es: seq<Event>, key: Key, answer: Answer)
    requires Assumptions(f) && EnqueuesValidKeys(f, es) && Enqueue(key) in es
    requires LoadsFromDatabase(f, es + [Fetch(key, answer)])
    requires Run(f.sig, es + [Fetch(key, answer)]).err.None?
    ensures var rows := Served(f.sig, Run(f.sig, es + [Fetch(key, answer)]), key);
            rows.Ok? && |key| == |f.joinCols| && FallbackPage(f, key, Slice(rows.value, f.offset, f.limit))
  {
    var i :| 0 <= i < |es| && es[i] == Enqueue(key);
    DatabaseAnswers(f, es + [Fetch(key, answer)]);
    FetchReturnsPermitted(f.sig, es, key, answer, PermittedBy(f));
    var rows := Served(f.sig, Run(f.sig, es + [Fetch(key, answer)]), key);
    assert PermittedBy(f)(f.sig(key), rows.value);
  }

  /** The parent's key, absent when any of its columns is NULL: such a parent is answered without a query. */
  function ParentKey(row: Row, cols: seq<string>): Option<Key> {
    if exists i :: 0 <= i < |cols| && Cell(row, cols[i]).Null? then None else Some(CellsOf(row, cols))
  }

  /** The resolver's loop over the key columns: no key as soon as one of them is NULL, else their values in order. */
  method KeyOfParent(row: Row, cols: seq<string>) returns (key: Option<Key>)
    ensures key.None? <==> exists i :: 0 <= i < |cols| && Cell(row, cols[i]).Null?
    ensures key.Some? ==> |key.value| == |cols| && forall i :: 0 <= i < |cols| ==> key.value[i] == Cell(row, cols[i])
    ensures key == ParentKey(row, cols)
  {
    var values: seq<Value> := [];
    for i := 0 to |cols|
      invariant |values| == i && forall j :: 0 <= j < i ==> values[j] == Cell(row, cols[j]) && !values[j].Null?
    {
      var v := Cell(row, cols[i]);
      if v.Null? { return None; }
      values := values + [v];
    }
    assert values == CellsOf(row, cols);
    return Some(values);
  }

  lemma EmptyOrdering(le: ValueOrder, order: Order, full: seq<Row>)
    requires IsOrdering(le, order, {}, full)
    ensures full == []
  {
    SameLength(full, []);
  }

  /** Answering a NULL key with no rows is what the fallback query would do. */
  lemma NullKeySelectsNothing(f: Field, parent: Row, refCols: seq<string>)
    requires f.joinCols != [] && AllWellFormed([f.user, f.filter]) && |refCols| == |f.joinCols| &&
             ParentKey(parent, refCols).None?
    ensures FallbackPage(f, CellsOf(parent, refCols), [])
    ensures forall page :: FallbackPage(f, CellsOf(parent, refCols), page) ==> page == []
  {
    var k := CellsOf(parent, refCols);
    BatchSelectsPerRow(f.db, f.table, f.joinCols, [k], k, f.user, f.filter);
    var c := Combine([f.user, f.filter, Some(EqCond(f.joinCols, k))]);
    var j :| 0 <= j < |refCols| && Cell(parent, refCols[j]).Null?;
    forall r: Row ensures TupleEq(f.db, f.joinCols, CellsOf(r, f.joinCols), k) != Yes {
      TupleEqYes(f.db, f.joinCols, CellsOf(r, f.joinCols), k);
      assert Cmp(f.db, f.joinCols[j], Eq, CellsOf(r, f.joinCols)[j], k[j]) == Unknown;
    }
    assert Selected(f.db, f.table, c) == {};
    assert IsOrdering(f.le, f.order, {}, []);
    forall page | FallbackPage(f, k, page) ensures page == [] {
      var full :| IsOrdering(f.le, f.order, {}, full) && page == Slice(full, f.offset, f.limit);
      EmptyOrdering(f.le, f.order, full);
    }
  }

  /** A to-many thunk: fetch the parent's group, then cut its page. */
  method ToManyThunk(loader: RelLoader, cfg: PageConfig, args: PageArgs, key: Key, answer: Answer)
    returns (page: Outcome<seq<Row>>)
    modifies loader
    ensures loader.Now() == Fetched(loader.sig, old(loader.Now()), key, answer)
    ensures var rows := Served(loader.sig, loader.Now(), key);
            if rows.Err? then page == Refused(rows.reason)
            else
              match PageBounds(cfg, args)
              case Err(_) => page.Refused?
              case Ok(b) =>
                if b.limit >= 0 then page == Replied(Slice(rows.value, b.offset, b.limit))
                else page == if b.offset < |rows.value| then Panicked else Replied([])
  {
    var rows := loader.Fetch(key, answer);
    if rows.Err? { return Refused(rows.reason); }
    page := ApplyPage(cfg, rows.value, args);
  }

  /** A to-one thunk: the first row of the group, if any. */
  method ToOneThunk(loader: RelLoader, key: Key, answer: Answer) returns (row: Result<Option<Row>>)
    modifies loader
    ensures loader.Now() == Fetched(loader.sig, old(loader.Now()), key, answer)
    ensures var rows := Served(loader.sig, loader.Now(), key);
            row.Ok? == rows.Ok? &&
            (rows.Ok? ==> Slice(rows.value, 0, 1) == if row.value.Some? then [row.value.value] else [])
  {
    var rows := loader.Fetch(key, answer);
    if rows.Err? { return Err(rows.reason); }
    if rows.value == [] { return Ok(None); }
    return Ok(Some(rows.value[0]));
  }
}

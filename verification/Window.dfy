/** Batched to-many relationships: one windowed query for many parents against one
    LIMIT/OFFSET query per parent. Ordering has ties, so a query result is any member of a relation. */
module Window {
  import opened Values
  import opened Catalog
  import opened SqlText
  import opened SqlMeaning
  import opened Conditions
  import opened KeyConditions
  import opened Paging

  // ----- ordering -----

  datatype OrderKey = OrderKey(col: string, desc: bool)

  type Order = seq<OrderKey>

  /** How the database compares the values of a column when sorting; nothing is assumed of it. */
  type ValueOrder = (string, Value, Value) -> bool

  /** ORDER BY: the first column that does not tie decides; with no columns everything ties. */
  predicate RowLeq(le: ValueOrder, order: Order, a: Row, b: Row) {
    if order == [] then true
    else
      var x, y := Cell(a, order[0].col), Cell(b, order[0].col);
      var lo, hi := if order[0].desc then y else x, if order[0].desc then x else y;
      le(order[0].col, lo, hi) && (le(order[0].col, hi, lo) ==> RowLeq(le, order[1..], a, b))
  }

  /** A key in the other direction compares the rows the other way round. */
  lemma DescendingReverses(le: ValueOrder, col: string, a: Row, b: Row)
    ensures RowLeq(le, [OrderKey(col, true)], a, b) <==> RowLeq(le, [OrderKey(col, false)], b, a)
    ensures RowLeq(le, [OrderKey(col, false)], a, b) <==> le(col, Cell(a, col), Cell(b, col))
  {
    assert [OrderKey(col, true)][1..] == [] && [OrderKey(col, false)][1..] == [];
  }

  predicate SortedRows(le: ValueOrder, order: Order, rows: seq<Row>) {
    forall i, j :: 0 <= i < j < |rows| ==> RowLeq(le, order, rows[i], rows[j])
  }

  /** The rows are one of the results SELECT … ORDER BY may return for the selected set. */
  ghost predicate IsOrdering(le: ValueOrder, order: Order, selected: set<Row>, rows: seq<Row>) {
    Distinct(rows) && (forall r :: r in rows <==> r in selected) && SortedRows(le, order, rows)
  }

  /** A page a per-parent "… ORDER BY … LIMIT ? OFFSET ?" query may return. */
  ghost predicate PerRowPage(le: ValueOrder, order: Order, selected: set<Row>, offset: nat, limit: nat,
                             page: seq<Row>) {
    exists full :: IsOrdering(le, order, selected, full) && page == Slice(full, offset, limit)
  }

  // ----- the window query -----

  /** The window's ORDER BY: the requested order if any, else the primary key, else the join columns. */
  function WindowOrder(requested: Order, primaryKey: seq<string>, joinCols: seq<string>): Order {
    if requested != [] then requested
    else Ascending(if primaryKey == [] then joinCols else primaryKey)
  }

  function Ascending(cols: seq<string>): Order {
    if cols == [] then [] else [OrderKey(cols[0], false)] + Ascending(cols[1..])
  }

  /** The rows in the same PARTITION BY group as r. */
  function Partition(db: Db, selected: set<Row>, joinCols: seq<string>, r: Row): set<Row> {
    set x | x in selected && TupleEq(db, joinCols, CellsOf(x, joinCols), CellsOf(r, joinCols)) == Yes
  }

  /** A valid ROW_NUMBER(): every partition is numbered from 1 along one of its orderings. */
  ghost predicate RowNumbers(db: Db, le: ValueOrder, order: Order, selected: set<Row>, joinCols: seq<string>,
                             rn: map<Row, nat>) {
    rn.Keys == selected && forall r | r in selected ::
      exists w :: NumberedAlong(db, le, order, selected, joinCols, rn, r, w)
  }

  ghost predicate NumberedAlong(db: Db, le: ValueOrder, order: Order, selected: set<Row>, joinCols: seq<string>,
                                rn: map<Row, nat>, r: Row, w: seq<Row>) {
    IsOrdering(le, order, Partition(db, selected, joinCols, r), w) &&
    forall i :: 0 <= i < |w| ==> w[i] in rn && rn[w[i]] == i + 1
  }

  /** The rows ranked at most perKeyLimit in their partition. */
  function Ranked(selected: set<Row>, rn: map<Row, nat>, perKeyLimit: nat): set<Row> {
    set r | r in selected && r in rn && rn[r] <= perKeyLimit
  }

  /** Any result of runSelectByKeys' statement over the selected rows: unbounded when
      perKeyLimit is 0, otherwise ranked per parent and ordered by the requested order only. */
  ghost predicate BatchResult(db: Db, le: ValueOrder, requested: Order, primaryKey: seq<string>, joinCols: seq<string>,
                              selected: set<Row>, perKeyLimit: nat, out: seq<Row>) {
    if perKeyLimit == 0 then IsOrdering(le, requested, selected, out)
    else exists rn ::
      && RowNumbers(db, le, WindowOrder(requested, primaryKey, joinCols), selected, joinCols, rn)
      && IsOrdering(le, requested, Ranked(selected, rn, perKeyLimit), out)
  }

  /** No two of the rows tie. */
  ghost predicate NoTies(le: ValueOrder, order: Order, rows: set<Row>) {
    forall r, s :: r in rows && s in rows && RowLeq(le, order, r, s) && RowLeq(le, order, s, r) ==> r == s
  }

  /** The last of sorted rows, and the rest as an ordering of the others. */
  lemma OrderingFront(le: ValueOrder, order: Order, rows: set<Row>, a: seq<Row>)
    requires IsOrdering(le, order, rows, a) && a != []
    ensures var n := |a| - 1;
            a[n] in rows && IsOrdering(le, order, rows - {a[n]}, a[..n]) &&
            forall r :: r in rows && r != a[n] ==> RowLeq(le, order, r, a[n])
  {
    var n := |a| - 1;
    assert a == a[..n] + [a[n]] && a[n] in a;
    forall r | r in rows && r != a[n] ensures RowLeq(le, order, r, a[n]) {
      assert r in a;
    }
  }

  lemma {:induction false} OrderingUnique(le: ValueOrder, order: Order, rows: set<Row>, a: seq<Row>, b: seq<Row>)
    requires IsOrdering(le, order, rows, a) && IsOrdering(le, order, rows, b) && NoTies(le, order, rows)
    ensures a == b
    decreases |a|
  {
    SameLength(a, b);
    if a != [] {
      OrderingFront(le, order, rows, a);
      OrderingFront(le, order, rows, b);
      var n, m := |a| - 1, |b| - 1;
      assert a[n] == b[m];
      OrderingUnique(le, order, rows - {a[n]}, a[..n], b[..m]);
      assert a == a[..n] + [a[n]] && b == b[..m] + [b[m]];
    }
  }

  /** Without a requested order the primary key decides: its columns tell rows apart, so every row of a partition has
      one rank that the database may give it. */
  lemma RanksAreDetermined(db: Db, le: ValueOrder, primaryKey: seq<string>, joinCols: seq<string>, selected: set<Row>,
                           rn: map<Row, nat>, other: map<Row, nat>, r: Row)
    requires primaryKey != [] && NoTies(le, Ascending(primaryKey), selected)
    requires RowNumbers(db, le, WindowOrder([], primaryKey, joinCols), selected, joinCols, rn)
    requires RowNumbers(db, le, WindowOrder([], primaryKey, joinCols), selected, joinCols, other)
    requires r in selected && r in Partition(db, selected, joinCols, r)
    ensures r in rn && r in other && rn[r] == other[r]
  {
    var order := WindowOrder([], primaryKey, joinCols);
    var w :| NumberedAlong(db, le, order, selected, joinCols, rn, r, w);
    var v :| NumberedAlong(db, le, order, selected, joinCols, other, r, v);
    OrderingUnique(le, order, Partition(db, selected, joinCols, r), w, v);
    assert r in w;
    var i :| 0 <= i < |w| && w[i] == r;
  }

  // ----- grouping in memory -----

  type Signature = Key -> string

  /** The rows whose join columns carry the signature, in input order. */
  function Group(sig: Signature, joinCols: seq<string>, rows: seq<Row>, s: string): seq<Row> {
    if rows == [] then []
    else
      var n := |rows| - 1;
      Group(sig, joinCols, rows[..n], s) + if sig(CellsOf(rows[n], joinCols)) == s then [rows[n]] else []
  }

  function Get(groups: map<string, seq<Row>>, s: string): seq<Row> { if s in groups then groups[s] else [] }

  /** The groups hold exactly the given rows' buckets. */
  ghost predicate Groups(sig: Signature, joinCols: seq<string>, rows: seq<Row>, out: map<string, seq<Row>>) {
    forall s :: Get(out, s) == Group(sig, joinCols, rows, s) && (s in out <==> Group(sig, joinCols, rows, s) != [])
  }

  /** groupByColumns: buckets rows by signature, keeping the query's order within each bucket. */
  method GroupByColumns(sig: Signature, joinCols: seq<string>, rows: seq<Row>) returns (out: map<string, seq<Row>>)
    ensures Groups(sig, joinCols, rows, out)
  {
    out := map[];
    for i := 0 to |rows|
      invariant Groups(sig, joinCols, rows[..i], out)
    {
      var s := sig(CellsOf(rows[i], joinCols));
      assert rows[..i + 1][..i] == rows[..i];
      out := out[s := (if s in out then out[s] else []) + [rows[i]]];
    }
    assert rows[..|rows|] == rows;
  }

  lemma {:induction false} GroupOfOrdering(le: ValueOrder, order: Order, sig: Signature, joinCols: seq<string>,
                                           rows: seq<Row>, s: string)
    requires Distinct(rows) && SortedRows(le, order, rows)
    ensures var g := Group(sig, joinCols, rows, s);
            IsOrdering(le, order, (set r | r in rows && sig(CellsOf(r, joinCols)) == s), g)
  {
    if rows != [] {
      var n := |rows| - 1;
      var init := rows[..n];
      assert forall r :: r in rows <==> r in init || r == rows[n];
      GroupOfOrdering(le, order, sig, joinCols, init, s);
      var g := Group(sig, joinCols, init, s);
      forall i | 0 <= i < |g| ensures g[i] != rows[n] && RowLeq(le, order, g[i], rows[n]) {
        assert g[i] in g;
        assert g[i] in init;
      }
    }
  }

  // ----- refinement -----

  /** The values a column can hold, NULL aside. */
  type Domain = Value -> bool

  /** A key of the columns' values without NULL: the only keys resolvers look up. */
  predicate InDomain(dom: seq<Domain>, k: Key) {
    |k| == |dom| && forall i :: 0 <= i < |k| ==> !k[i].Null? && dom[i](k[i])
  }

  /** Cells the columns can hold. */
  predicate Holdable(dom: seq<Domain>, cells: seq<Value>) {
    |cells| == |dom| && forall i :: 0 <= i < |cells| && !cells[i].Null? ==> dom[i](cells[i])
  }

  predicate RowsHoldable(dom: seq<Domain>, joinCols: seq<string>, rows: set<Row>) {
    forall r :: r in rows ==> Holdable(dom, CellsOf(r, joinCols))
  }

  /** Among the values of one column, SQL equality is an equivalence; nothing is said across types. */
  ghost predicate EquivalenceOn(db: Db, col: string, d: Domain) {
    && (forall a :: d(a) ==> db.cmp(col, Eq, a, a))
    && (forall a, b :: d(a) && d(b) && db.cmp(col, Eq, a, b) ==> db.cmp(col, Eq, b, a))
    && (forall a, b, c :: d(a) && d(b) && d(c) && db.cmp(col, Eq, a, b) && db.cmp(col, Eq, b, c) ==>
        db.cmp(col, Eq, a, c))
  }

  ghost predicate EqualityOn(db: Db, cols: seq<string>, dom: seq<Domain>)
    requires |cols| == |dom|
  {
    forall i :: 0 <= i < |dom| ==> EquivalenceOn(db, cols[i], dom[i])
  }

  /** On these rows, grouping by signature finds the rows SQL considers to have the key. */
  ghost predicate SignatureAgrees(db: Db, sig: Signature, joinCols: seq<string>, selected: set<Row>, k: Key)
    requires |k| == |joinCols|
  {
    forall r | r in selected :: sig(CellsOf(r, joinCols)) == sig(k) <==>
        TupleEq(db, joinCols, CellsOf(r, joinCols), k) == Yes
  }

  function RowsOfKey(db: Db, selected: set<Row>, joinCols: seq<string>, k: Key): set<Row>
    requires |k| == |joinCols|
  {
    set r | r in selected && TupleEq(db, joinCols, CellsOf(r, joinCols), k) == Yes
  }

  lemma TupleEqYes(db: Db, cols: seq<string>, a: seq<Value>, b: seq<Value>)
    requires |cols| == |a| == |b|
    ensures TupleEq(db, cols, a, b) == Yes <==> forall i :: 0 <= i < |a| ==> Cmp(db, cols[i], Eq, a[i], b[i]) == Yes
  {
    var s := set i | 0 <= i < |a| :: Cmp(db, cols[i], Eq, a[i], b[i]);
    assert forall i :: 0 <= i < |a| ==> Cmp(db, cols[i], Eq, a[i], b[i]) in s;
  }

  /** All rows of one key form one partition. */
  lemma PartitionIsKey(db: Db, dom: seq<Domain>, selected: set<Row>, joinCols: seq<string>, k: Key, r: Row)
    requires |k| == |joinCols| && Holdable(dom, k) && EqualityOn(db, joinCols, dom)
    requires RowsHoldable(dom, joinCols, selected) && r in RowsOfKey(db, selected, joinCols, k)
    ensures Partition(db, selected, joinCols, r) == RowsOfKey(db, selected, joinCols, k)
  {
    var mine := CellsOf(r, joinCols);
    TupleEqYes(db, joinCols, mine, k);
    forall x | x in selected
      ensures TupleEq(db, joinCols, CellsOf(x, joinCols), mine) == Yes <==>
              TupleEq(db, joinCols, CellsOf(x, joinCols), k) == Yes
    {
      var cells := CellsOf(x, joinCols);
      TupleEqYes(db, joinCols, cells, mine);
      TupleEqYes(db, joinCols, cells, k);
      forall i | 0 <= i < |k|
        ensures Cmp(db, joinCols[i], Eq, cells[i], mine[i]) == Yes <==> Cmp(db, joinCols[i], Eq, cells[i], k[i]) == Yes
      {
        assert Cmp(db, joinCols[i], Eq, mine[i], k[i]) == Yes;
        assert EquivalenceOn(db, joinCols[i], dom[i]);
      }
    }
  }

  /** The window order refines the requested order. */
  lemma WindowOrderRefines(le: ValueOrder, requested: Order, primaryKey: seq<string>, joinCols: seq<string>,
                           rows: seq<Row>)
    requires SortedRows(le, WindowOrder(requested, primaryKey, joinCols), rows)
    ensures SortedRows(le, requested, rows)
  {
  }

  /** Completing the kept prefix of a partition with its cut-off tail gives a valid ordering of the
      whole partition, whatever the order in which the outer query returned the kept rows. */
  lemma CompleteKept(le: ValueOrder, order: Order, w: seq<Row>, cut: nat, g: seq<Row>, part: set<Row>)
    requires cut <= |w| && IsOrdering(le, order, part, w)
    requires IsOrdering(le, order, (set r | r in w[..cut]), g)
    ensures IsOrdering(le, order, part, g + w[cut..]) && |g| == cut
  {
    var full := g + w[cut..];
    SameLength(g, w[..cut]);
    assert forall r :: r in w <==> r in w[..cut] || r in w[cut..];
    forall i, j | 0 <= i < j < |full| ensures full[i] != full[j] && RowLeq(le, order, full[i], full[j]) {
      if i < cut <= j {
        assert g[i] in w[..cut];
        var a :| 0 <= a < cut && w[a] == g[i];
        assert full[j] == w[j];
      } else if cut <= i {
        assert full[i] == w[i] && full[j] == w[j];
      }
    }
    forall r ensures r in full <==> r in part {
      if r in part {
        var a :| 0 <= a < |w| && w[a] == r;
        if a < cut { assert r in w[..cut]; } else { assert r == w[cut..][a - cut]; }
      }
    }
  }

  /** Sequences without repetition and with the same elements have the same length. */
  lemma SameLength(a: seq<Row>, b: seq<Row>)
    requires Distinct(a) && Distinct(b) && forall r :: r in a <==> r in b
    ensures |a| == |b|
  {
    DistinctSize(a);
    DistinctSize(b);
    assert (set r | r in a) == (set r | r in b);
  }

  lemma {:induction false} DistinctSize(a: seq<Row>)
    requires Distinct(a)
    ensures |set r | r in a| == |a|
  {
    if a != [] {
      var init := a[..|a| - 1];
      DistinctSize(init);
      assert a == init + [a[|a| - 1]];
      assert (set r | r in a) == (set r | r in init) + {a[|a| - 1]};
    }
  }

  /** The cap and the grouping together keep a prefix of some ordering of one parent's rows:
      the group can be completed to a valid ordering of all of them. */
  lemma GroupCompletes(db: Db, le: ValueOrder, dom: seq<Domain>, sig: Signature, requested: Order,
                       primaryKey: seq<string>, joinCols: seq<string>, selected: set<Row>, k: Key, perKeyLimit: nat,
                       out: seq<Row>)
    returns (full: seq<Row>)
    requires |k| == |joinCols| && Holdable(dom, k) && EqualityOn(db, joinCols, dom)
    requires RowsHoldable(dom, joinCols, selected) && SignatureAgrees(db, sig, joinCols, selected, k)
    requires BatchResult(db, le, requested, primaryKey, joinCols, selected, perKeyLimit, out)
    ensures IsOrdering(le, requested, RowsOfKey(db, selected, joinCols, k), full)
    ensures var g := Group(sig, joinCols, out, sig(k));
            g <= full && (perKeyLimit == 0 ==> g == full) && |g| >= Min(perKeyLimit, |full|)
  {
    if perKeyLimit == 0 {
      full := Group(sig, joinCols, out, sig(k));
      GroupOfKey(db, le, requested, sig, joinCols, selected, k, selected, out);
      assert RowsOfKey(db, selected, joinCols, k) * selected == RowsOfKey(db, selected, joinCols, k);
    } else {
      var rn :| RowNumbers(db, le, WindowOrder(requested, primaryKey, joinCols), selected, joinCols, rn)
                && IsOrdering(le, requested, Ranked(selected, rn, perKeyLimit), out);
      GroupOfKey(db, le, requested, sig, joinCols, selected, k, Ranked(selected, rn, perKeyLimit), out);
      var w := KeyNumbering(db, le, dom, WindowOrder(requested, primaryKey, joinCols), selected, joinCols, k, rn);
      WindowOrderRefines(le, requested, primaryKey, joinCols, w);
      full := CappedCompletes(le, requested, selected, RowsOfKey(db, selected, joinCols, k), w, rn, perKeyLimit,
                              Group(sig, joinCols, out, sig(k)));
    }
  }

  /** The group of a key is an ordering of the key's rows among those the query returned. */
  lemma GroupOfKey(db: Db, le: ValueOrder, order: Order, sig: Signature, joinCols: seq<string>, selected: set<Row>,
                   k: Key, returned: set<Row>, out: seq<Row>)
    requires |k| == |joinCols| && SignatureAgrees(db, sig, joinCols, selected, k)
    requires returned <= selected && IsOrdering(le, order, returned, out)
    ensures IsOrdering(le, order, RowsOfKey(db, selected, joinCols, k) * returned, Group(sig, joinCols, out, sig(k)))
  {
    GroupOfOrdering(le, order, sig, joinCols, out, sig(k));
    assert (set r | r in out && sig(CellsOf(r, joinCols)) == sig(k)) == RowsOfKey(db, selected, joinCols, k) * returned;
  }

  lemma CappedCompletes(le: ValueOrder, order: Order, selected: set<Row>, mine: set<Row>, w: seq<Row>,
                        rn: map<Row, nat>, perKeyLimit: nat, g: seq<Row>)
    returns (full: seq<Row>)
    requires IsOrdering(le, order, mine, w)
    requires forall i :: 0 <= i < |w| ==> w[i] in rn && rn[w[i]] == i + 1
    requires mine <= selected && IsOrdering(le, order, mine * Ranked(selected, rn, perKeyLimit), g)
    ensures IsOrdering(le, order, mine, full)
    ensures g <= full && |g| >= Min(perKeyLimit, |full|)
  {
    var cut := Min(perKeyLimit, |w|);
    KeptIsPrefix(w, rn, perKeyLimit, mine, mine * Ranked(selected, rn, perKeyLimit));
    CompleteKept(le, order, w, cut, g, mine);
    full := g + w[cut..];
    SameLength(full, w);
  }

  /** The row numbers follow one ordering of all rows of a key. */
  lemma KeyNumbering(db: Db, le: ValueOrder, dom: seq<Domain>, order: Order, selected: set<Row>, joinCols: seq<string>,
                     k: Key, rn: map<Row, nat>) returns (w: seq<Row>)
    requires |k| == |joinCols| && Holdable(dom, k) && EqualityOn(db, joinCols, dom)
    requires RowsHoldable(dom, joinCols, selected) && RowNumbers(db, le, order, selected, joinCols, rn)
    ensures IsOrdering(le, order, RowsOfKey(db, selected, joinCols, k), w)
    ensures forall i :: 0 <= i < |w| ==> w[i] in rn && rn[w[i]] == i + 1
  {
    if RowsOfKey(db, selected, joinCols, k) == {} { return []; }
    var r0 :| r0 in RowsOfKey(db, selected, joinCols, k);
    PartitionIsKey(db, dom, selected, joinCols, k, r0);
    w :| NumberedAlong(db, le, order, selected, joinCols, rn, r0, w);
  }

  lemma KeptIsPrefix(w: seq<Row>, rn: map<Row, nat>, perKeyLimit: nat, mine: set<Row>, kept: set<Row>)
    requires forall r :: r in w <==> r in mine
    requires forall i :: 0 <= i < |w| ==> w[i] in rn && rn[w[i]] == i + 1
    requires kept == set r | r in mine && r in rn && rn[r] <= perKeyLimit
    ensures kept == set r | r in w[..Min(perKeyLimit, |w|)]
  {
    var cut := Min(perKeyLimit, |w|);
    forall r | r in kept ensures r in w[..cut] {
      var i :| 0 <= i < |w| && w[i] == r;
      assert w[..cut][i] == r;
    }
    forall r | r in w[..cut] ensures r in kept {
      var i :| 0 <= i < cut && w[..cut][i] == r;
      assert w[i] == r;
    }
  }

  lemma SliceOfPrefix<T>(g: seq<T>, full: seq<T>, offset: nat, limit: nat)
    requires g <= full && |g| >= Min(offset + limit, |full|)
    ensures Slice(g, offset, limit) == Slice(full, offset, limit)
  {
  }

  /** What runSelectByKeys' WHERE means. */
  lemma BatchWhereMeans(joinCols: seq<string>, keys: seq<Key>, user: Option<Condition>, filter: Option<Condition>)
    requires joinCols != [] && AllOfWidth(keys, |joinCols|) && AllWellFormed([user, filter])
    ensures WellFormed(Combine([Some(InCond(joinCols, keys)), user, filter]))
    ensures forall db: Db, r: Row ::
              Holds(db, Combine([Some(InCond(joinCols, keys)), user, filter]), r) <==>
              KeyAmong(db, joinCols, keys, r) == Yes && HoldsIfPresent(db, user, r) && HoldsIfPresent(db, filter, r)
  {
    var others := [user, filter];
    var batch := [Some(InCond(joinCols, keys)), user, filter];
    assert others[0] == user && others[1] == filter;
    InCondMeans(joinCols, keys);
    assert forall i :: 0 <= i < 3 ==> batch[i] == if i == 0 then Some(InCond(joinCols, keys)) else others[i - 1];
    CombineMeans(batch);
    forall db: Db, r: Row
      ensures Holds(db, Combine(batch), r) <==>
              KeyAmong(db, joinCols, keys, r) == Yes && HoldsIfPresent(db, user, r) && HoldsIfPresent(db, filter, r)
    {
      AllHoldThree(db, batch, r);
      assert Eval(db, Meaning(InCond(joinCols, keys)), r) == KeyAmong(db, joinCols, keys, r);
    }
  }

  /** What the fallback query's WHERE means. */
  lemma FallbackWhereMeans(joinCols: seq<string>, k: Key, user: Option<Condition>, filter: Option<Condition>)
    requires |joinCols| == |k| > 0 && AllWellFormed([user, filter])
    ensures WellFormed(Combine([user, filter, Some(EqCond(joinCols, k))]))
    ensures forall db: Db, r: Row ::
              Holds(db, Combine([user, filter, Some(EqCond(joinCols, k))]), r) <==>
              TupleEq(db, joinCols, CellsOf(r, joinCols), k) == Yes && HoldsIfPresent(db, user, r) &&
              HoldsIfPresent(db, filter, r)
  {
    var others := [user, filter];
    var single := [user, filter, Some(EqCond(joinCols, k))];
    assert others[0] == user && others[1] == filter;
    EqCondMeans(joinCols, k);
    assert forall i :: 0 <= i < 3 ==> single[i] == if i == 2 then Some(EqCond(joinCols, k)) else others[i];
    CombineMeans(single);
    forall db: Db, r: Row
      ensures Holds(db, Combine(single), r) <==>
              TupleEq(db, joinCols, CellsOf(r, joinCols), k) == Yes && HoldsIfPresent(db, user, r) &&
              HoldsIfPresent(db, filter, r)
    {
      AllHoldThree(db, single, r);
      assert Eval(db, Meaning(EqCond(joinCols, k)), r) == TupleEq(db, joinCols, CellsOf(r, joinCols), k);
    }
  }

  /** The batch's WHERE selects, for each key, exactly the rows the per-row query's WHERE selects. */
  lemma BatchSelectsPerRow(db: Db, table: set<Row>, joinCols: seq<string>, keys: seq<Key>, k: Key,
                           user: Option<Condition>, filter: Option<Condition>)
    requires joinCols != [] && AllOfWidth(keys, |joinCols|) && k in keys && AllWellFormed([user, filter])
    ensures WellFormed(Combine([Some(InCond(joinCols, keys)), user, filter]))
    ensures WellFormed(Combine([user, filter, Some(EqCond(joinCols, k))]))
    ensures RowsOfKey(db, Selected(db, table, Combine([Some(InCond(joinCols, keys)), user, filter])), joinCols, k)
            == Selected(db, table, Combine([user, filter, Some(EqCond(joinCols, k))]))
  {
    BatchWhereMeans(joinCols, keys, user, filter);
    FallbackWhereMeans(joinCols, k, user, filter);
    var n :| 0 <= n < |keys| && keys[n] == k;
    forall r: Row | TupleEq(db, joinCols, CellsOf(r, joinCols), k) == Yes
      ensures KeyAmong(db, joinCols, keys, r) == Yes
    {
      assert TupleEq(db, joinCols, CellsOf(r, joinCols), keys[n]) in set i | 0 <= i < |keys| ::
             TupleEq(db, joinCols, CellsOf(r, joinCols), keys[i]);
    }
  }

  /** The batched query refines the per-row query. For any table, keys, where, role filter, order with
      ties, and any page within the batch's cap (or an uncapped batch), the page cut from a key's group
      is one that the fallback query for that key alone may return. */
  lemma BatchedPageIsPerRowPage(db: Db, le: ValueOrder, dom: seq<Domain>, sig: Signature, table: set<Row>,
                                user: Option<Condition>, filter: Option<Condition>, requested: Order,
                                primaryKey: seq<string>, joinCols: seq<string>, keys: seq<Key>, k: Key,
                                perKeyLimit: nat, out: seq<Row>, offset: nat, limit: nat)
    requires joinCols != [] && AllOfWidth(keys, |joinCols|) && k in keys && AllWellFormed([user, filter])
    requires WellFormed(Combine([Some(InCond(joinCols, keys)), user, filter]))
    requires Holdable(dom, k) && |dom| == |joinCols| && EqualityOn(db, joinCols, dom) &&
             RowsHoldable(dom, joinCols, table)
    requires SignatureAgrees(db, sig, joinCols,
                             Selected(db, table, Combine([Some(InCond(joinCols, keys)), user, filter])), k)
    requires BatchResult(db, le, requested, primaryKey, joinCols,
                         Selected(db, table, Combine([Some(InCond(joinCols, keys)), user, filter])), perKeyLimit, out)
    requires perKeyLimit == 0 || offset + limit <= perKeyLimit
    ensures WellFormed(Combine([user, filter, Some(EqCond(joinCols, k))]))
    ensures PerRowPage(le, requested, Selected(db, table, Combine([user, filter, Some(EqCond(joinCols, k))])),
                       offset, limit, Slice(Group(sig, joinCols, out, sig(k)), offset, limit))
  {
    BatchSelectsPerRow(db, table, joinCols, keys, k, user, filter);
    var selected := Selected(db, table, Combine([Some(InCond(joinCols, keys)), user, filter]));
    var full := GroupCompletes(db, le, dom, sig, requested, primaryKey, joinCols, selected, k, perKeyLimit, out);
    SliceOfPrefix(Group(sig, joinCols, out, sig(k)), full, offset, limit);
  }

  // ----- when signatures and SQL agree -----

  /** Signatures tell cells apart that are different Go values. */
  ghost predicate ExactSignatures(sig: Signature, dom: seq<Domain>) {
    forall a: Key, b: Key :: Holdable(dom, a) && Holdable(dom, b) && sig(a) == sig(b) ==> a == b
  }

  /** Different keys are never equal in SQL (as they are under a case-insensitive collation). */
  ghost predicate KeysApart(db: Db, cols: seq<string>, dom: seq<Domain>)
    requires |cols| == |dom|
  {
    forall a: Key, b: Key :: InDomain(dom, a) && InDomain(dom, b) && TupleEq(db, cols, a, b) == Yes ==> a == b
  }

  lemma KeyEqualsItself(db: Db, joinCols: seq<string>, dom: seq<Domain>, k: Key)
    requires |joinCols| == |dom| && EqualityOn(db, joinCols, dom) && InDomain(dom, k)
    ensures TupleEq(db, joinCols, k, k) == Yes
  {
    TupleEqYes(db, joinCols, k, k);
    forall i | 0 <= i < |k|
      ensures Cmp(db, joinCols[i], Eq, k[i], k[i]) == Yes
    {
      assert EquivalenceOn(db, joinCols[i], dom[i]);
    }
  }

  lemma ApartAgrees(db: Db, dom: seq<Domain>, sig: Signature, joinCols: seq<string>, rows: set<Row>, k: Key)
    requires |dom| == |joinCols| && EqualityOn(db, joinCols, dom) && ExactSignatures(sig, dom) &&
             KeysApart(db, joinCols, dom)
    requires RowsHoldable(dom, joinCols, rows) && InDomain(dom, k)
    ensures SignatureAgrees(db, sig, joinCols, rows, k)
  {
    KeyEqualsItself(db, joinCols, dom, k);
    forall r | r in rows
      ensures sig(CellsOf(r, joinCols)) == sig(k) <==> TupleEq(db, joinCols, CellsOf(r, joinCols), k) == Yes
    {
      var cells := CellsOf(r, joinCols);
      TupleEqYes(db, joinCols, cells, k);
      if TupleEq(db, joinCols, cells, k) == Yes {
        forall i | 0 <= i < |cells| ensures !cells[i].Null? { assert Cmp(db, joinCols[i], Eq, cells[i], k[i]) == Yes; }
        assert InDomain(dom, cells);
      }
    }
  }

  /** A row with the given cells in the join columns. */
  function RowWith(joinCols: seq<string>, cells: seq<Value>): Row
    requires |cells| == |joinCols| && Distinct(joinCols)
  {
    Row(0, map i | 0 <= i < |joinCols| :: joinCols[i] := cells[i])
  }

  lemma RowWithCells(joinCols: seq<string>, cells: seq<Value>)
    requires |cells| == |joinCols| && Distinct(joinCols)
    ensures CellsOf(RowWith(joinCols, cells), joinCols) == cells
  {
  }

  /** Grouping by signature finds what SQL finds, on every table and for every key, exactly when different
      keys are never equal in SQL. */
  lemma SignatureAgreesIff(db: Db, dom: seq<Domain>, sig: Signature, joinCols: seq<string>)
    requires |dom| == |joinCols| && Distinct(joinCols) && EqualityOn(db, joinCols, dom) && ExactSignatures(sig, dom)
    ensures (forall rows: set<Row>, k: Key :: RowsHoldable(dom, joinCols, rows) && InDomain(dom, k) ==>
             SignatureAgrees(db, sig, joinCols, rows, k))
            <==> KeysApart(db, joinCols, dom)
  {
    if forall rows: set<Row>, k: Key :: RowsHoldable(dom, joinCols, rows) && InDomain(dom, k) ==>
         SignatureAgrees(db, sig, joinCols, rows, k)
    {
      forall a: Key, b: Key | InDomain(dom, a) && InDomain(dom, b) && TupleEq(db, joinCols, a, b) == Yes
        ensures a == b
      {
        var r := RowWith(joinCols, a);
        RowWithCells(joinCols, a);
        assert RowsHoldable(dom, joinCols, {r});
        assert SignatureAgrees(db, sig, joinCols, {r}, b);
        assert r in {r};
      }
    }
    if KeysApart(db, joinCols, dom) {
      forall rows: set<Row>, k: Key | RowsHoldable(dom, joinCols, rows) && InDomain(dom, k)
        ensures SignatureAgrees(db, sig, joinCols, rows, k)
      {
        ApartAgrees(db, dom, sig, joinCols, rows, k);
      }
    }
  }

  /** A batched query with one of its results, and the page asked for one of its keys. */
  datatype Batch = Batch(
    le: ValueOrder, table: set<Row>, user: Option<Condition>, filter: Option<Condition>, requested: Order,
    primaryKey: seq<string>, keys: seq<Key>, perKeyLimit: nat, out: seq<Row>, k: Key, offset: nat, limit: nat)

  function BatchWhere(joinCols: seq<string>, b: Batch): Condition
    requires joinCols != [] && AllOfWidth(b.keys, |joinCols|)
  {
    Combine([Some(InCond(joinCols, b.keys)), b.user, b.filter])
  }

  function RowWhere(joinCols: seq<string>, b: Batch): Condition
    requires |b.k| == |joinCols|
  {
    Combine([b.user, b.filter, Some(EqCond(joinCols, b.k))])
  }

  /** The batch asks for keys of the columns' values over rows the columns can hold, a page within the cap. */
  ghost predicate Asked(dom: seq<Domain>, joinCols: seq<string>, b: Batch) {
    && AllWellFormed([b.user, b.filter]) && RowsHoldable(dom, joinCols, b.table)
    && (forall i :: 0 <= i < |b.keys| ==> InDomain(dom, b.keys[i])) && b.k in b.keys
    && (b.perKeyLimit == 0 || b.offset + b.limit <= b.perKeyLimit)
  }

  /** `out` is a result of the batch's statement. */
  ghost predicate Returned(db: Db, joinCols: seq<string>, b: Batch)
    requires joinCols != [] && AllOfWidth(b.keys, |joinCols|)
  {
    && WellFormed(BatchWhere(joinCols, b))
    && BatchResult(db, b.le, b.requested, b.primaryKey, joinCols, Selected(db, b.table, BatchWhere(joinCols, b)),
                   b.perKeyLimit, b.out)
  }

  ghost predicate ResultOf(db: Db, dom: seq<Domain>, joinCols: seq<string>, b: Batch)
    requires joinCols != [] && |dom| == |joinCols|
  {
    Asked(dom, joinCols, b) && Returned(db, joinCols, b)
  }

  /** The page cut from the key's group is one the per-row query may return. */
  ghost predicate PageRefined(db: Db, sig: Signature, joinCols: seq<string>, b: Batch)
    requires |b.k| == |joinCols|
  {
    && WellFormed(RowWhere(joinCols, b))
    && PerRowPage(b.le, b.requested, Selected(db, b.table, RowWhere(joinCols, b)), b.offset, b.limit,
                  Slice(Group(sig, joinCols, b.out, sig(b.k)), b.offset, b.limit))
  }

  /** Every page of every batch is a per-row page exactly when different keys are never equal in SQL: a
      collation that equates different strings makes grouping by signature lose rows. */
  lemma PagesRefineIff(db: Db, dom: seq<Domain>, sig: Signature, joinCols: seq<string>)
    requires joinCols != [] && |dom| == |joinCols| && Distinct(joinCols)
    requires EqualityOn(db, joinCols, dom) && ExactSignatures(sig, dom)
    ensures (forall b: Batch :: ResultOf(db, dom, joinCols, b) ==> PageRefined(db, sig, joinCols, b)) <==>
            KeysApart(db, joinCols, dom)
  {
    if forall b: Batch :: ResultOf(db, dom, joinCols, b) ==> PageRefined(db, sig, joinCols, b) {
      forall x: Key, y: Key | InDomain(dom, x) && InDomain(dom, y) && TupleEq(db, joinCols, x, y) == Yes
        ensures x == y
      {
        var b := OneRowBatch(joinCols, x, y);
        OneRowResult(db, dom, joinCols, x, y);
        assert PageRefined(db, sig, joinCols, b);
        if sig(x) != sig(y) {
          OneRowLost(db, sig, joinCols, x, y);
          assert false;
        }
      }
    }
    if KeysApart(db, joinCols, dom) {
      forall b: Batch | ResultOf(db, dom, joinCols, b) ensures PageRefined(db, sig, joinCols, b) {
        var rows := Selected(db, b.table, BatchWhere(joinCols, b));
        ApartAgrees(db, dom, sig, joinCols, rows, b.k);
        BatchedPageIsPerRowPage(db, b.le, dom, sig, b.table, b.user, b.filter, b.requested, b.primaryKey, joinCols,
                                b.keys, b.k, b.perKeyLimit, b.out, b.offset, b.limit);
      }
    }
  }

  /** The order of a database that ties all values. */
  const ALL_TIED: ValueOrder := (_, _, _) => true

  /** A table of one row with key x, asked for the first row of key y, so with one row per key. */
  function OneRowBatch(joinCols: seq<string>, x: Key, y: Key): Batch
    requires |x| == |joinCols| && Distinct(joinCols)
  {
    var r := RowWith(joinCols, x);
    Batch(ALL_TIED, {r}, None, None, [], [], [y], 1, [r], y, 0, 1)
  }

  lemma OneRowSelected(db: Db, joinCols: seq<string>, x: Key, y: Key)
    requires joinCols != [] && |x| == |y| == |joinCols| && Distinct(joinCols) && TupleEq(db, joinCols, x, y) == Yes
    ensures var b := OneRowBatch(joinCols, x, y);
            && WellFormed(BatchWhere(joinCols, b)) && Selected(db, b.table, BatchWhere(joinCols, b)) == b.table
            && WellFormed(RowWhere(joinCols, b)) && Selected(db, b.table, RowWhere(joinCols, b)) == b.table
  {
    var b := OneRowBatch(joinCols, x, y);
    var r := RowWith(joinCols, x);
    RowWithCells(joinCols, x);
    BatchWhereMeans(joinCols, [y], None, None);
    FallbackWhereMeans(joinCols, y, None, None);
    BatchSelectsPerRow(db, b.table, joinCols, [y], y, None, None);
    assert Holds(db, RowWhere(joinCols, b), r);
    assert r in Selected(db, b.table, RowWhere(joinCols, b));
  }

  lemma OneRowResult(db: Db, dom: seq<Domain>, joinCols: seq<string>, x: Key, y: Key)
    requires joinCols != [] && |dom| == |joinCols| && Distinct(joinCols)
    requires InDomain(dom, x) && InDomain(dom, y) && TupleEq(db, joinCols, x, y) == Yes
    ensures ResultOf(db, dom, joinCols, OneRowBatch(joinCols, x, y))
  {
    OneRowAsked(dom, joinCols, x, y);
    OneRowBatched(db, joinCols, x, y);
  }

  lemma OneRowAsked(dom: seq<Domain>, joinCols: seq<string>, x: Key, y: Key)
    requires |dom| == |joinCols| && Distinct(joinCols) && InDomain(dom, x) && InDomain(dom, y)
    ensures Asked(dom, joinCols, OneRowBatch(joinCols, x, y))
  {
    RowWithCells(joinCols, x);
    assert OneRowBatch(joinCols, x, y).keys == [y];
  }

  lemma OneRowBatched(db: Db, joinCols: seq<string>, x: Key, y: Key)
    requires joinCols != [] && |x| == |y| == |joinCols| && Distinct(joinCols) && TupleEq(db, joinCols, x, y) == Yes
    ensures Returned(db, joinCols, OneRowBatch(joinCols, x, y))
  {
    OneRowSelected(db, joinCols, x, y);
    OneRowRanked(db, joinCols, RowWith(joinCols, x));
  }

  /** Of one row the ROW_NUMBER() query returns that row. */
  lemma OneRowRanked(db: Db, joinCols: seq<string>, r: Row)
    ensures BatchResult(db, ALL_TIED, [], [], joinCols, {r}, 1, [r])
  {
    var order, rn := WindowOrder([], [], joinCols), map[r := 1];
    var mine := Partition(db, {r}, joinCols, r);
    var w := if mine == {} then [] else [r];
    assert mine == {} || mine == {r};
    assert NumberedAlong(db, ALL_TIED, order, {r}, joinCols, rn, r, w);
    assert Ranked({r}, rn, 1) == {r};
    assert RowNumbers(db, ALL_TIED, order, {r}, joinCols, rn);
  }

  /** When SQL equates the two keys and signatures do not, the batch returns the row, its group is empty, and
      no per-row page is: the row is lost. */
  lemma OneRowLost(db: Db, sig: Signature, joinCols: seq<string>, x: Key, y: Key)
    requires joinCols != [] && |x| == |y| == |joinCols| && Distinct(joinCols)
    requires TupleEq(db, joinCols, x, y) == Yes && sig(x) != sig(y)
    ensures var b := OneRowBatch(joinCols, x, y);
            Group(sig, joinCols, b.out, sig(y)) == [] && !PageRefined(db, sig, joinCols, b)
  {
    var b := OneRowBatch(joinCols, x, y);
    var r := RowWith(joinCols, x);
    OneRowSelected(db, joinCols, x, y);
    RowWithCells(joinCols, x);
    assert b.out[..0] == [];
    assert Group(sig, joinCols, b.out, sig(y)) == [];
    forall full | IsOrdering(b.le, [], {r}, full) ensures Slice(full, 0, 1) != [] {
      assert r in full;
    }
  }

  const TEXT: Domain := (v: Value) => v.Str?

  lemma RowUnderA()
    ensures RowWith(["fk"], [Str("A")]) == Row(0, map["fk" := Str("A")])
  {
    var cols := ["fk"];
    assert forall c :: c in RowWith(cols, [Str("A")]).cells <==> c == cols[0];
  }

  /** The instance: a child row under "A" and a parent "a", which a case-insensitive collation equates. */
  lemma CollationLosesRow(db: Db, sig: Signature)
    requires db.cmp("fk", Eq, Str("A"), Str("a")) && sig([Str("A")]) != sig([Str("a")])
    ensures var b := OneRowBatch(["fk"], [Str("A")], [Str("a")]);
            && b.table == {Row(0, map["fk" := Str("A")])} && b.out == [Row(0, map["fk" := Str("A")])]
            && ResultOf(db, [TEXT], ["fk"], b)
            && Group(sig, ["fk"], b.out, sig([Str("a")])) == [] && !PageRefined(db, sig, ["fk"], b)
  {
    var cols, x, y, dom := ["fk"], [Str("A")], [Str("a")], [TEXT];
    RowUnderA();
    TupleEqYes(db, cols, x, y);
    OneRowResult(db, dom, cols, x, y);
    OneRowLost(db, sig, cols, x, y);
  }
}

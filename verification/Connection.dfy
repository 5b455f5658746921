/** The connection resolver: cursors, the seek statement over a table, the page it answers, and its
    refinement to the keyset protocol. */
module Connection {
  import opened Values
  import opened Catalog
  import opened SqlText
  import opened SqlMeaning
  import opened Conditions
  import opened KeyConditions
  import opened Paging
  import opened Window
  import opened KeysetWalk

  // ----- cursors -----

  /** The cursor's key values and query shape, as carried by the opaque token. `format` is Go's %v,
      used for values that are neither strings nor integers. */
  datatype Codec = Codec(
    encode: (seq<string>, string) -> string,
    decode: string -> Option<(seq<string>, string)>,
    format: Value -> string)

  /** The token format loses nothing, and no token is empty. */
  ghost predicate Lossless(codec: Codec) {
    forall keys, shape ::
      codec.decode(codec.encode(keys, shape)) == Some((keys, shape)) && codec.encode(keys, shape) != ""
  }

  function DecodeCursor(codec: Codec, cursor: string, shape: string, keyLen: nat): Result<seq<string>> {
    match codec.decode(cursor)
    case None => Err("invalid cursor")
    case Some((keys, s)) =>
      if s != shape then Err("cursor does not match this query's filter")
      else if |keys| != keyLen then Err("invalid cursor")
      else Ok(keys)
  }

  function StringifyKey(codec: Codec, v: Value): string {
    match v
    case Null => ""
    case Str(s) => s
    case Int(n) => Decimal(n)
    case _ => codec.format(v)
  }

  function CursorKeys(codec: Codec, pk: seq<string>, r: Row): (keys: seq<string>)
    ensures |keys| == |pk| && forall i :: 0 <= i < |pk| ==> keys[i] == StringifyKey(codec, Cell(r, pk[i]))
  {
    seq(|pk|, i requires 0 <= i < |pk| => StringifyKey(codec, Cell(r, pk[i])))
  }

  /** A cursor is honoured exactly by the query shape and key width it was made for. */
  lemma CursorRoundTrip(codec: Codec, keys: seq<string>, shape: string, askedShape: string, keyLen: nat)
    requires Lossless(codec)
    ensures DecodeCursor(codec, codec.encode(keys, shape), askedShape, keyLen) == Ok(keys) <==>
            askedShape == shape && keyLen == |keys|
    ensures DecodeCursor(codec, codec.encode(keys, shape), askedShape, keyLen).Ok? <==>
            askedShape == shape && keyLen == |keys|
  {
    assert codec.decode(codec.encode(keys, shape)) == Some((keys, shape));
  }

  // ----- the resolver, before and after its query -----

  datatype ConnectionArgs = ConnectionArgs(first: Option<int>, after: Option<string>)

  datatype PageQuery = PageQuery(first: int, after: Option<Condition>)

  /** The resolver up to its query: the page size is the one asked for, or the default, capped at the maximum; the
      seek condition is the cursor's. It refuses exactly a negative size or a cursor that does not decode. */
  method PrepareConnection(cfg: PageConfig, w: Setting, args: ConnectionArgs) returns (q: Result<PageQuery>)
    requires w.pk != []
    ensures q.Ok? <==> Or(args.first, cfg.defaultSize) >= 0 && AfterCondition(w, args.after).Ok?
    ensures q.Ok? ==>
              && q.value.first <= Or(args.first, cfg.defaultSize) && q.value.first <= cfg.maxSize
              && (q.value.first == Or(args.first, cfg.defaultSize) || q.value.first == cfg.maxSize)
              && q.value.after == AfterCondition(w, args.after).value
  {
    var first := cfg.defaultSize;
    if args.first.Some? { first := args.first.value; }
    if first < 0 { return Err("first must be >= 0"); }
    if first > cfg.maxSize { first := cfg.maxSize; }
    var after: Option<Condition> := None;
    if args.after.Some? && args.after.value != "" {
      var keys := DecodeCursor(w.codec, args.after.value, w.shape, |w.pk|);
      if keys.Err? { return Err(keys.reason); }
      var c := KeysetCondition(w.pk, keys.value);
      after := Some(c);
    }
    return Ok(PageQuery(first, after));
  }

  datatype ConnectionPage = ConnectionPage(nodes: seq<Row>, hasNext: bool, endCursor: Option<string>)

  /** The page answered from the fetched rows (at most first + 1 of them). */
  function PageOf(codec: Codec, pk: seq<string>, shape: string, first: nat, rows: seq<Row>): ConnectionPage {
    var nodes := rows[..Min(first, |rows|)];
    ConnectionPage(nodes, |rows| > first > 0,
                   if nodes == [] then None else Some(codec.encode(CursorKeys(codec, pk, nodes[|nodes| - 1]), shape)))
  }

  /** The resolver after its query: a negative page size, which a negative configured maximum gives, panics. */
  method FinishConnection(codec: Codec, pk: seq<string>, shape: string, first: int, fetched: seq<Row>)
    returns (r: Outcome<ConnectionPage>)
    ensures r == if first < 0 then Panicked else Replied(PageOf(codec, pk, shape, first, fetched))
  {
    var rows := fetched;
    var hasNext := |rows| > first;
    if hasNext {
      if first < 0 { return Panicked; }
      rows := rows[..first];
    }
    assert first >= 0 && rows == fetched[..Min(first, |fetched|)];
    if |rows| == 0 { hasNext := false; }
    var endCursor: Option<string> := None;
    if |rows| > 0 {
      var last := rows[|rows| - 1];
      var keys: seq<string> := [];
      for i := 0 to |pk|
        invariant keys == CursorKeys(codec, pk, last)[..i]
      {
        keys := keys + [StringifyKey(codec, Cell(last, pk[i]))];
      }
      assert CursorKeys(codec, pk, last)[..|pk|] == CursorKeys(codec, pk, last);
      endCursor := Some(codec.encode(keys, shape));
    }
    return Replied(ConnectionPage(rows, hasNext, endCursor));
  }

  // ----- keys of rows -----

  /** The kind of a key column: integers, or strings under a collation, given by its sort keys. */
  datatype Kind = IntKind | StrKind(weight: string -> string)

  predicate OfKind(kind: Kind, v: Value) { if kind.IntKind? then v.Int? else v.Str? }

  /** A cell as a key; strings the collation equates are one key. */
  function AsKey(kind: Kind, v: Value): KeyVal {
    match kind
    case IntKind => IntKey(if v.Int? then v.n else 0)
    case StrKind(weight) => StrKey(weight(if v.Str? then v.s else ""))
  }

  /** How a column of this kind reads a cursor string. */
  function ReadKey(kind: Kind, s: string): KeyVal {
    match kind case IntKind => IntKey(ReadInt(s)) case StrKind(weight) => StrKey(weight(s))
  }

  function KeyOf(pk: seq<string>, kinds: seq<Kind>, r: Row): (k: PrimaryKey)
    requires |kinds| == |pk|
    ensures |k| == |pk| && forall i :: 0 <= i < |pk| ==> k[i] == AsKey(kinds[i], Cell(r, pk[i]))
  {
    seq(|pk|, i requires 0 <= i < |pk| => AsKey(kinds[i], Cell(r, pk[i])))
  }

  function ReadKeys(kinds: seq<Kind>, keys: seq<string>): (k: PrimaryKey)
    requires |kinds| == |keys|
    ensures |k| == |keys| && forall i :: 0 <= i < |keys| ==> k[i] == ReadKey(kinds[i], keys[i])
  {
    seq(|keys|, i requires 0 <= i < |keys| => ReadKey(kinds[i], keys[i]))
  }

  /** The stored keys have the columns' kinds (so are not NULL) and are unique under the columns' collations. */
  predicate KeyedTable(pk: seq<string>, kinds: seq<Kind>, table: set<Row>) {
    && |kinds| == |pk|
    && (forall r :: r in table ==> Typed(pk, kinds, r))
    && (forall r, s :: r in table && s in table && KeyOf(pk, kinds, r) == KeyOf(pk, kinds, s) ==> r == s)
  }

  predicate Typed(pk: seq<string>, kinds: seq<Kind>, r: Row)
    requires |kinds| == |pk|
  {
    forall i :: 0 <= i < |pk| ==> OfKind(kinds[i], Cell(r, pk[i]))
  }

  /** A cursor string a column of this kind can have printed: for integers, a canonical numeral. */
  predicate Canonical(kind: Kind, s: string) { kind.IntKind? ==> s == Decimal(ReadInt(s)) }

  predicate CanonicalKeys(kinds: seq<Kind>, keys: seq<string>) {
    |keys| == |kinds| && forall i :: 0 <= i < |keys| ==> Canonical(kinds[i], keys[i])
  }

  /** The database sorts the values of the column by its kind. */
  ghost predicate SortsAs(le: ValueOrder, col: string, kind: Kind) {
    forall v, w | OfKind(kind, v) && OfKind(kind, w) :: le(col, v, w) <==> !KeyValLess(AsKey(kind, w), AsKey(kind, v))
  }

  /** The database compares the values of the column, by its kind, with the strings such a column prints;
      nothing is said of how it compares an integer with any other string. */
  ghost predicate SeeksAs(db: Db, col: string, kind: Kind) {
    forall v, s | OfKind(kind, v) && Canonical(kind, s) ::
      (db.cmp(col, Gt, v, Str(s)) <==> KeyValLess(ReadKey(kind, s), AsKey(kind, v))) &&
      (db.cmp(col, Eq, v, Str(s)) <==> AsKey(kind, v) == ReadKey(kind, s))
  }

  /** ORDER BY and the seek agree on the order of every key column; other columns are free. */
  ghost predicate ExactOrder(le: ValueOrder, pk: seq<string>, kinds: seq<Kind>) {
    |kinds| == |pk| && forall i :: 0 <= i < |pk| ==> SortsAs(le, pk[i], kinds[i])
  }

  ghost predicate ExactSeek(db: Db, pk: seq<string>, kinds: seq<Kind>) {
    |kinds| == |pk| && forall i :: 0 <= i < |pk| ==> SeeksAs(db, pk[i], kinds[i])
  }

  /** Reading back the cursor of a row gives the row's key, and its strings are canonical. */
  lemma CursorReadsBack(codec: Codec, pk: seq<string>, kinds: seq<Kind>, r: Row)
    requires |kinds| == |pk| && Typed(pk, kinds, r)
    ensures ReadKeys(kinds, CursorKeys(codec, pk, r)) == KeyOf(pk, kinds, r)
    ensures CanonicalKeys(kinds, CursorKeys(codec, pk, r))
  {
    forall i | 0 <= i < |pk|
      ensures ReadKey(kinds[i], StringifyKey(codec, Cell(r, pk[i]))) == AsKey(kinds[i], Cell(r, pk[i]))
      ensures Canonical(kinds[i], StringifyKey(codec, Cell(r, pk[i])))
    {
      if Cell(r, pk[i]).Int? { DecimalReads(Cell(r, pk[i]).n); }
    }
  }

  /** The row-value comparison is the lexicographic order of keys. */
  lemma {:induction false} SeekIsKeyLess(db: Db, cols: seq<string>, kinds: seq<Kind>, cells: seq<Value>,
                                         cursor: seq<string>)
    requires ExactSeek(db, cols, kinds) && |kinds| == |cells| && CanonicalKeys(kinds, cursor)
    requires forall i :: 0 <= i < |cells| ==> OfKind(kinds[i], cells[i])
    ensures TupleGreater(db, cols, cells, Strs(cursor)) == Yes <==> KeyLess(ReadKeys(kinds, cursor), Keys(kinds, cells))
  {
    if cells != [] {
      SeekTails(db, cols, kinds, cells, cursor);
      SeekIsKeyLess(db, cols[1..], kinds[1..], cells[1..], cursor[1..]);
      TupleGreaterYes(db, cols, cells, Strs(cursor));
      SeekOne(db, cols[0], kinds[0], cells[0], cursor[0]);
      KeyLessHead(ReadKeys(kinds, cursor), Keys(kinds, cells));
    }
  }

  lemma SeekTails(db: Db, cols: seq<string>, kinds: seq<Kind>, cells: seq<Value>, cursor: seq<string>)
    requires ExactSeek(db, cols, kinds) && |kinds| == |cells| > 0 && CanonicalKeys(kinds, cursor)
    ensures SeeksAs(db, cols[0], kinds[0]) && ExactSeek(db, cols[1..], kinds[1..])
    ensures Canonical(kinds[0], cursor[0]) && CanonicalKeys(kinds[1..], cursor[1..])
    ensures Strs(cursor)[1..] == Strs(cursor[1..])
    ensures ReadKeys(kinds, cursor)[1..] == ReadKeys(kinds[1..], cursor[1..])
    ensures Keys(kinds, cells)[1..] == Keys(kinds[1..], cells[1..])
  {
    assert forall i :: 0 <= i < |cols| - 1 ==> cols[1..][i] == cols[i + 1] && kinds[1..][i] == kinds[i + 1];
  }

  lemma KeyLessHead(a: PrimaryKey, b: PrimaryKey)
    requires a != [] && b != []
    ensures KeyLess(a, b) <==> KeyValLess(a[0], b[0]) || (a[0] == b[0] && KeyLess(a[1..], b[1..]))
  {
    KeyValLessStrictTotal();
  }

  lemma SeekOne(db: Db, col: string, kind: Kind, v: Value, s: string)
    requires SeeksAs(db, col, kind) && OfKind(kind, v) && Canonical(kind, s)
    ensures Cmp(db, col, Gt, v, Str(s)) == Of(KeyValLess(ReadKey(kind, s), AsKey(kind, v)))
    ensures Cmp(db, col, Eq, v, Str(s)) == Of(AsKey(kind, v) == ReadKey(kind, s))
  {
  }

  function Keys(kinds: seq<Kind>, cells: seq<Value>): (k: PrimaryKey)
    requires |kinds| == |cells|
    ensures |k| == |cells| && forall i :: 0 <= i < |cells| ==> k[i] == AsKey(kinds[i], cells[i])
  {
    if cells == [] then [] else [AsKey(kinds[0], cells[0])] + Keys(kinds[1..], cells[1..])
  }

  /** ORDER BY the primary key ascending is the lexicographic order of keys. */
  lemma {:induction false} OrderIsKeyOrder(le: ValueOrder, pk: seq<string>, kinds: seq<Kind>, a: Row, b: Row)
    requires ExactOrder(le, pk, kinds) && |kinds| == |pk| && Typed(pk, kinds, a) && Typed(pk, kinds, b)
    ensures RowLeq(le, Ascending(pk), a, b) <==> !KeyLess(KeyOf(pk, kinds, b), KeyOf(pk, kinds, a))
  {
    if pk != [] {
      assert forall i :: 0 <= i < |pk| - 1 ==> pk[1..][i] == pk[i + 1] && kinds[1..][i] == kinds[i + 1];
      OrderIsKeyOrder(le, pk[1..], kinds[1..], a, b);
      assert KeyOf(pk, kinds, a)[1..] == KeyOf(pk[1..], kinds[1..], a) &&
             KeyOf(pk, kinds, b)[1..] == KeyOf(pk[1..], kinds[1..], b);
      assert Ascending(pk)[1..] == Ascending(pk[1..]);
      assert SortsAs(le, pk[0], kinds[0]) && OfKind(kinds[0], Cell(a, pk[0])) && OfKind(kinds[0], Cell(b, pk[0]));
      KeyValLessStrictTotal();
    }
  }

  // ----- one page over a table -----

  /** What stays the same during a walk. */
  datatype Setting = Setting(
    db: Db, le: ValueOrder, codec: Codec, pk: seq<string>, kinds: seq<Kind>,
    user: Option<Condition>, filter: Option<Condition>, shape: string)

  /** Every key column has a kind. */
  predicate Kinded(w: Setting) { w.pk != [] && |w.kinds| == |w.pk| }

  ghost predicate ValidSetting(w: Setting) {
    && Kinded(w) && ExactSeek(w.db, w.pk, w.kinds) && ExactOrder(w.le, w.pk, w.kinds)
    && Lossless(w.codec) && AllWellFormed([w.user, w.filter])
  }

  /** The row satisfies the client's where and the role's filter. */
  predicate Matches(w: Setting, r: Row) { HoldsIfPresent(w.db, w.user, r) && HoldsIfPresent(w.db, w.filter, r) }

  /** The keys of the matching rows. */
  ghost function MatchingKeys(w: Setting, table: set<Row>): set<PrimaryKey>
    requires Kinded(w)
  {
    set r | r in table && Matches(w, r) :: KeyOf(w.pk, w.kinds, r)
  }

  function PageWhere(w: Setting, after: Option<Condition>): Condition { Combine([w.user, w.filter, after]) }

  /** A result runKeysetPage's statement may return. */
  ghost predicate KeysetResult(w: Setting, table: set<Row>, after: Option<Condition>, limit: nat, out: seq<Row>) {
    && WellFormed(PageWhere(w, after))
    && exists full :: IsOrdering(w.le, Ascending(w.pk), Selected(w.db, table, PageWhere(w, after)), full)
                      && out == full[..Min(limit, |full|)]
  }

  /** The seek condition the resolver derives from a cursor argument. */
  function AfterCondition(w: Setting, cursor: Option<string>): Result<Option<Condition>>
    requires w.pk != []
  {
    if cursor.None? || cursor.value == "" then Ok(None)
    else match DecodeCursor(w.codec, cursor.value, w.shape, |w.pk|)
      case Err(reason) => Err(reason)
      case Ok(keys) => Ok(Some(KeysetCond(w.pk, keys)))
  }

  /** The page answered on a table for a cursor argument. */
  ghost predicate AnswersPage(w: Setting, table: set<Row>, cursor: Option<string>, first: nat, page: ConnectionPage)
    requires w.pk != []
  {
    && AfterCondition(w, cursor).Ok?
    && exists fetched :: KeysetResult(w, table, AfterCondition(w, cursor).value, first + 1, fetched)
                         && page == PageOf(w.codec, w.pk, w.shape, first, fetched)
  }

  /** The key a cursor argument seeks beyond. */
  function SeekKey(w: Setting, cursor: Option<string>): Option<PrimaryKey>
    requires Kinded(w)
  {
    if cursor.None? || cursor.value == "" then None
    else match DecodeCursor(w.codec, cursor.value, w.shape, |w.pk|)
      case Err(_) => None
      case Ok(keys) => Some(ReadKeys(w.kinds, keys))
  }

  /** The cursor's key values, if there are any, are ones the key columns can have printed. */
  predicate CanonicalCursor(w: Setting, cursor: Option<string>)
    requires Kinded(w)
  {
    if cursor.None? || cursor.value == "" then true
    else match DecodeCursor(w.codec, cursor.value, w.shape, |w.pk|)
      case Err(_) => true
      case Ok(keys) => CanonicalKeys(w.kinds, keys)
  }

  /** The statement selects the matching rows beyond the cursor. */
  lemma SeekSelects(w: Setting, table: set<Row>, cursor: Option<string>)
    requires ValidSetting(w) && KeyedTable(w.pk, w.kinds, table) && AfterCondition(w, cursor).Ok? &&
             CanonicalCursor(w, cursor)
    ensures var c := PageWhere(w, AfterCondition(w, cursor).value);
            WellFormed(c) && Selected(w.db, table, c) ==
              set r | r in table && Matches(w, r)
                      && Beyond(SeekKey(w, cursor), KeyOf(w.pk, w.kinds, r))
  {
    var after := AfterCondition(w, cursor).value;
    var others := [w.user, w.filter];
    var conds := [w.user, w.filter, after];
    assert others[0] == w.user && others[1] == w.filter;
    if after.Some? { KeysetCondMeans(w.pk, DecodeCursor(w.codec, cursor.value, w.shape, |w.pk|).value); }
    assert forall i :: 0 <= i < 3 ==> conds[i] == if i == 2 then after else others[i];
    CombineMeans(conds);
    forall r | r in table
      ensures Holds(w.db, Combine(conds), r) <==>
              Matches(w, r) && Beyond(SeekKey(w, cursor), KeyOf(w.pk, w.kinds, r))
    {
      AllHoldThree(w.db, conds, r);
      if after.Some? { SeekHolds(w, cursor, r); }
    }
  }

  lemma SeekHolds(w: Setting, cursor: Option<string>, r: Row)
    requires ValidSetting(w) && Typed(w.pk, w.kinds, r)
    requires AfterCondition(w, cursor).Ok? && AfterCondition(w, cursor).value.Some? && CanonicalCursor(w, cursor)
    ensures HoldsIfPresent(w.db, AfterCondition(w, cursor).value, r) <==>
            Beyond(SeekKey(w, cursor), KeyOf(w.pk, w.kinds, r))
  {
    var keys := DecodeCursor(w.codec, cursor.value, w.shape, |w.pk|).value;
    KeysetCondMeans(w.pk, keys);
    SeekIsKeyLess(w.db, w.pk, w.kinds, CellsOf(r, w.pk), keys);
    assert Keys(w.kinds, CellsOf(r, w.pk)) == KeyOf(w.pk, w.kinds, r);
  }

  function RowKeys(pk: seq<string>, kinds: seq<Kind>, rows: seq<Row>): (ks: seq<PrimaryKey>)
    requires |kinds| == |pk|
    ensures |ks| == |rows| && forall i :: 0 <= i < |rows| ==> ks[i] == KeyOf(pk, kinds, rows[i])
  {
    seq(|rows|, i requires 0 <= i < |rows| => KeyOf(pk, kinds, rows[i]))
  }

  /** A prefix of the rows in key order holds the least keys. */
  lemma PrefixIsLeast(pk: seq<string>, kinds: seq<Kind>, chosen: set<Row>, full: seq<Row>, limit: nat)
    requires |kinds| == |pk| && Increasing(RowKeys(pk, kinds, full)) && forall r :: r in full <==> r in chosen
    ensures Least((set r | r in chosen :: KeyOf(pk, kinds, r)), limit, RowKeys(pk, kinds, full[..Min(limit, |full|)]))
  {
    var out := full[..Min(limit, |full|)];
    var keys, all := RowKeys(pk, kinds, out), RowKeys(pk, kinds, full);
    assert forall i :: 0 <= i < |out| ==> keys[i] == all[i];
    var rest := set r | r in chosen :: KeyOf(pk, kinds, r);
    forall k | k in keys ensures k in rest {
      var i :| 0 <= i < |keys| && keys[i] == k;
      assert full[i] in full;
    }
    forall k | k in rest && k !in keys ensures |keys| == limit && forall i :: 0 <= i < limit ==> KeyLess(keys[i], k) {
      var r :| r in chosen && KeyOf(pk, kinds, r) == k;
      assert r in full;
      var j :| 0 <= j < |full| && full[j] == r;
      assert all[j] == k && j >= |out|;
    }
  }

  lemma KeysBeyond(w: Setting, table: set<Row>, after: Option<PrimaryKey>, chosen: set<Row>)
    requires Kinded(w)
    requires chosen == set r | r in table && Matches(w, r)
                               && Beyond(after, KeyOf(w.pk, w.kinds, r))
    ensures (set r | r in chosen :: KeyOf(w.pk, w.kinds, r)) == Rest(after, MatchingKeys(w, table))
  {
  }

  /** The rows fetched for a page are those with the least keys beyond the cursor. */
  lemma FetchedAreLeast(w: Setting, table: set<Row>, cursor: Option<string>, limit: nat, out: seq<Row>)
    requires ValidSetting(w) && KeyedTable(w.pk, w.kinds, table) && AfterCondition(w, cursor).Ok? &&
             CanonicalCursor(w, cursor)
    requires KeysetResult(w, table, AfterCondition(w, cursor).value, limit, out)
    ensures Least(Rest(SeekKey(w, cursor), MatchingKeys(w, table)), limit, RowKeys(w.pk, w.kinds, out))
    ensures forall r :: r in out ==> r in table
  {
    SeekSelects(w, table, cursor);
    var chosen := Selected(w.db, table, PageWhere(w, AfterCondition(w, cursor).value));
    var full :| IsOrdering(w.le, Ascending(w.pk), chosen, full) && out == full[..Min(limit, |full|)];
    OrderedKeys(w, table, full);
    PrefixIsLeast(w.pk, w.kinds, chosen, full, limit);
    KeysBeyond(w, table, SeekKey(w, cursor), chosen);
  }

  /** Ordering distinct rows by primary key makes their keys strictly increase. */
  lemma OrderedKeys(w: Setting, table: set<Row>, rows: seq<Row>)
    requires ValidSetting(w) && KeyedTable(w.pk, w.kinds, table)
    requires Distinct(rows) && SortedRows(w.le, Ascending(w.pk), rows) && forall r :: r in rows ==> r in table
    ensures Increasing(RowKeys(w.pk, w.kinds, rows))
  {
    KeyLessStrictTotal();
    forall i, j | 0 <= i < j < |rows| ensures KeyLess(KeyOf(w.pk, w.kinds, rows[i]), KeyOf(w.pk, w.kinds, rows[j])) {
      assert rows[i] in rows && rows[j] in rows;
      OrderIsKeyOrder(w.le, w.pk, w.kinds, rows[i], rows[j]);
    }
  }

  ghost function Abstract(w: Setting, table: set<Row>, first: nat, page: ConnectionPage): Page
    requires Kinded(w)
  {
    Page(MatchingKeys(w, table), first, RowKeys(w.pk, w.kinds, page.nodes), page.hasNext)
  }

  /** The resolver's trimming is the protocol's. */
  lemma TrimRefines(pk: seq<string>, kinds: seq<Kind>, codec: Codec, shape: string, after: Option<PrimaryKey>,
                    matching: set<PrimaryKey>, first: nat, fetched: seq<Row>)
    requires |kinds| == |pk| && Least(Rest(after, matching), first + 1, RowKeys(pk, kinds, fetched))
    ensures var page := PageOf(codec, pk, shape, first, fetched);
            PageAfter(after, Page(matching, first, RowKeys(pk, kinds, page.nodes), page.hasNext))
  {
    var page := PageOf(codec, pk, shape, first, fetched);
    assert PageFrom(after, Page(matching, first, RowKeys(pk, kinds, page.nodes), page.hasNext),
                    RowKeys(pk, kinds, fetched));
  }

  /** The cursor of a row seeks beyond that row. */
  lemma CursorSeeks(w: Setting, r: Row)
    requires Kinded(w) && Lossless(w.codec) && Typed(w.pk, w.kinds, r)
    ensures var cursor := Some(w.codec.encode(CursorKeys(w.codec, w.pk, r), w.shape));
            AfterCondition(w, cursor).Ok? && CanonicalCursor(w, cursor) &&
            SeekKey(w, cursor) == Some(KeyOf(w.pk, w.kinds, r))
  {
    var keys := CursorKeys(w.codec, w.pk, r);
    CursorRoundTrip(w.codec, keys, w.shape, w.shape, |w.pk|);
    CursorReadsBack(w.codec, w.pk, w.kinds, r);
    assert w.codec.encode(keys, w.shape) != "";
  }

  /** Every answered page is a step of the keyset protocol, and its end cursor seeks beyond its last row. */
  lemma PageRefines(w: Setting, table: set<Row>, cursor: Option<string>, first: nat, page: ConnectionPage)
    requires ValidSetting(w) && KeyedTable(w.pk, w.kinds, table) && AnswersPage(w, table, cursor, first, page) &&
             CanonicalCursor(w, cursor)
    ensures PageAfter(SeekKey(w, cursor), Abstract(w, table, first, page))
    ensures page.hasNext ==> page.nodes != []
    ensures page.nodes != [] ==>
              page.endCursor.Some? &&
              SeekKey(w, page.endCursor) == Some(KeyOf(w.pk, w.kinds, page.nodes[|page.nodes| - 1]))
    ensures forall r :: r in page.nodes ==> r in table
  {
    var fetched :| KeysetResult(w, table, AfterCondition(w, cursor).value, first + 1, fetched)
                   && page == PageOf(w.codec, w.pk, w.shape, first, fetched);
    FetchedAreLeast(w, table, cursor, first + 1, fetched);
    TrimRefines(w.pk, w.kinds, w.codec, w.shape, SeekKey(w, cursor), MatchingKeys(w, table), first, fetched);
    PageCursorSeeks(w, table, first, fetched);
  }

  /** The end cursor of a page seeks beyond the page's last row, and holds canonical keys. */
  lemma PageCursorSeeks(w: Setting, table: set<Row>, first: nat, fetched: seq<Row>)
    requires Kinded(w) && Lossless(w.codec) && KeyedTable(w.pk, w.kinds, table)
    requires forall r :: r in fetched ==> r in table
    ensures var page := PageOf(w.codec, w.pk, w.shape, first, fetched);
            && (forall r :: r in page.nodes ==> r in table)
            && (page.nodes != [] ==>
                  page.endCursor.Some? &&
                  SeekKey(w, page.endCursor) == Some(KeyOf(w.pk, w.kinds, page.nodes[|page.nodes| - 1])))
            && CanonicalCursor(w, page.endCursor)
  {
    var nodes := fetched[..Min(first, |fetched|)];
    if nodes != [] {
      var last := nodes[|nodes| - 1];
      assert last in fetched;
      CursorSeeks(w, last);
    }
  }

  lemma FetchedFromTable(w: Setting, table: set<Row>, after: Option<Condition>, limit: nat, out: seq<Row>)
    requires KeysetResult(w, table, after, limit, out)
    ensures forall r :: r in out ==> r in table
  {
    var full :| IsOrdering(w.le, Ascending(w.pk), Selected(w.db, table, PageWhere(w, after)), full) &&
        out == full[..Min(limit, |full|)];
    forall r | r in out ensures r in table {
      assert r in full;
      assert r in Selected(w.db, table, PageWhere(w, after));
    }
  }

  /** Every end cursor holds canonical keys, whatever cursor its page was asked with. */
  lemma EndCursorIsCanonical(w: Setting, table: set<Row>, cursor: Option<string>, first: nat, page: ConnectionPage)
    requires Kinded(w) && Lossless(w.codec) && KeyedTable(w.pk, w.kinds, table) &&
             AnswersPage(w, table, cursor, first, page)
    ensures CanonicalCursor(w, page.endCursor)
  {
    var fetched :| KeysetResult(w, table, AfterCondition(w, cursor).value, first + 1, fetched)
                   && page == PageOf(w.codec, w.pk, w.shape, first, fetched);
    FetchedFromTable(w, table, AfterCondition(w, cursor).value, first + 1, fetched);
    PageCursorSeeks(w, table, first, fetched);
  }

  // ----- the client's walk -----

  /** One answered request of a walk, on the table as it was at that moment. */
  datatype Visit = Visit(table: set<Row>, first: nat, page: ConnectionPage)

  /** The cursor argument of the i-th request: none at first, then the previous page's end_cursor. */
  function CursorAt(visits: seq<Visit>, i: nat): Option<string>
    requires i < |visits|
  {
    if i == 0 then None else visits[i - 1].page.endCursor
  }

  /** The client starts without a cursor and follows end_cursor as long as has_next_page is true. */
  ghost predicate ClientWalk(w: Setting, visits: seq<Visit>)
    requires w.pk != []
  {
    forall i :: 0 <= i < |visits| ==>
      AnswersPage(w, visits[i].table, CursorAt(visits, i), visits[i].first, visits[i].page) &&
      (i + 1 < |visits| ==> visits[i].page.hasNext)
  }

  function Nodes(visits: seq<Visit>): seq<Row> {
    if visits == [] then [] else visits[0].page.nodes + Nodes(visits[1..])
  }

  ghost function Pages(w: Setting, visits: seq<Visit>): (ps: seq<Page>)
    requires Kinded(w)
    ensures |ps| == |visits|
    ensures forall i :: 0 <= i < |visits| ==> ps[i] == Abstract(w, visits[i].table, visits[i].first, visits[i].page)
  {
    if visits == [] then []
    else [Abstract(w, visits[0].table, visits[0].first, visits[0].page)] + Pages(w, visits[1..])
  }

  predicate AllKeyed(w: Setting, visits: seq<Visit>) {
    forall i :: 0 <= i < |visits| ==> KeyedTable(w.pk, w.kinds, visits[i].table)
  }

  ghost function SeekKeys(w: Setting, visits: seq<Visit>): (ks: seq<Option<PrimaryKey>>)
    requires Kinded(w)
    ensures |ks| == |visits| && forall i :: 0 <= i < |visits| ==> ks[i] == SeekKey(w, CursorAt(visits, i))
  {
    seq(|visits|, i requires 0 <= i < |visits| => SeekKey(w, CursorAt(visits, i)))
  }

  lemma CursorsAreCanonical(w: Setting, visits: seq<Visit>, i: nat)
    requires Kinded(w) && Lossless(w.codec) && ClientWalk(w, visits) && AllKeyed(w, visits) && i < |visits|
    ensures CanonicalCursor(w, CursorAt(visits, i))
  {
    if i > 0 {
      var v := visits[i - 1];
      EndCursorIsCanonical(w, v.table, CursorAt(visits, i - 1), v.first, v.page);
    }
  }

  lemma VisitRefines(w: Setting, visits: seq<Visit>, i: nat)
    requires ValidSetting(w) && ClientWalk(w, visits) && AllKeyed(w, visits) && i < |visits|
    ensures Continues(SeekKeys(w, visits), Pages(w, visits), i)
  {
    var v := visits[i];
    CursorsAreCanonical(w, visits, i);
    PageRefines(w, v.table, CursorAt(visits, i), v.first, v.page);
  }

  lemma WalkRefines(w: Setting, visits: seq<Visit>)
    requires ValidSetting(w) && ClientWalk(w, visits) && AllKeyed(w, visits)
    ensures Walk(None, Pages(w, visits))
  {
    forall i | 0 <= i < |visits| ensures Continues(SeekKeys(w, visits), Pages(w, visits), i) {
      VisitRefines(w, visits, i);
    }
    PagesAreWalk(None, SeekKeys(w, visits), Pages(w, visits));
  }

  lemma {:induction false} NodesAreKeys(w: Setting, visits: seq<Visit>)
    requires Kinded(w)
    ensures AllKeys(Pages(w, visits)) == RowKeys(w.pk, w.kinds, Nodes(visits))
  {
    if visits != [] {
      NodesAreKeys(w, visits[1..]);
      assert Pages(w, visits)[1..] == Pages(w, visits[1..]);
    }
  }

  /** Walking a connection while the table changes: the primary keys of the returned rows strictly
      increase over the whole walk, so no row is returned twice. */
  lemma ConcurrentWalkIncreases(w: Setting, visits: seq<Visit>)
    requires ValidSetting(w) && ClientWalk(w, visits)
    requires AllKeyed(w, visits)
    ensures Increasing(RowKeys(w.pk, w.kinds, Nodes(visits)))
  {
    WalkRefines(w, visits);
    NodesAreKeys(w, visits);
    WalkIncreases(None, Pages(w, visits));
  }

  predicate WalkFinished(visits: seq<Visit>) { visits != [] && !visits[|visits| - 1].page.hasNext }

  /** At every page of the walk at least one row was asked for and a row with this key exists and matches. */
  ghost predicate AlwaysMatches(w: Setting, visits: seq<Visit>, k: PrimaryKey)
    requires Kinded(w)
  {
    forall i :: 0 <= i < |visits| ==> visits[i].first >= 1 && k in MatchingKeys(w, visits[i].table)
  }

  lemma AlwaysMatchesInPages(w: Setting, visits: seq<Visit>, k: PrimaryKey)
    requires Kinded(w) && AlwaysMatches(w, visits, k)
    ensures AlwaysPresent(Pages(w, visits), k)
  {
    var ps := Pages(w, visits);
    forall i | 0 <= i < |ps| ensures ps[i].first >= 1 && k in ps[i].matching {
      assert ps[i] == Abstract(w, visits[i].table, visits[i].first, visits[i].page);
    }
  }

  lemma FinishedPages(w: Setting, visits: seq<Visit>)
    requires Kinded(w)
    requires WalkFinished(visits)
    ensures Finished(Pages(w, visits))
  {
    var last := |visits| - 1;
    assert Pages(w, visits)[last] == Abstract(w, visits[last].table, visits[last].first, visits[last].page);
  }

  /** A key that exists with a matching row at every page is returned exactly once by the time
      has_next_page is false, whatever was inserted, deleted or updated between the pages. */
  lemma ConcurrentWalkIsComplete(w: Setting, visits: seq<Visit>, k: PrimaryKey)
    requires ValidSetting(w) && ClientWalk(w, visits) && AllKeyed(w, visits)
    requires WalkFinished(visits) && AlwaysMatches(w, visits, k)
    ensures OccursOnce(RowKeys(w.pk, w.kinds, Nodes(visits)), k)
  {
    WalkRefines(w, visits);
    NodesAreKeys(w, visits);
    AlwaysMatchesInPages(w, visits, k);
    FinishedPages(w, visits);
    ReturnedExactlyOnce(Pages(w, visits), k);
  }

  lemma StaticPages(w: Setting, visits: seq<Visit>, table: set<Row>, first: nat)
    requires Kinded(w)
    requires forall i :: 0 <= i < |visits| ==> visits[i].table == table && visits[i].first == first
    ensures Static(Pages(w, visits), MatchingKeys(w, table), first)
  {
    var ps := Pages(w, visits);
    forall i | 0 <= i < |ps| ensures ps[i].matching == MatchingKeys(w, table) && ps[i].first == first {
      assert ps[i] == Abstract(w, visits[i].table, visits[i].first, visits[i].page);
    }
  }

  /** On a table that does not change, a finished walk with page size n >= 1 returns exactly the matching
      rows, in primary-key order, in max(1, ceil(rows / n)) pages. */
  lemma StaticWalk(w: Setting, visits: seq<Visit>, table: set<Row>, first: nat)
    requires ValidSetting(w) && ClientWalk(w, visits) && AllKeyed(w, visits) && WalkFinished(visits) && first >= 1
    requires forall i :: 0 <= i < |visits| ==> visits[i].table == table && visits[i].first == first
    ensures Increasing(RowKeys(w.pk, w.kinds, Nodes(visits)))
    ensures forall k :: k in RowKeys(w.pk, w.kinds, Nodes(visits)) <==> k in MatchingKeys(w, table)
    ensures forall r :: r in Nodes(visits) <==> r in table && Matches(w, r)
    ensures |visits| == PagesFor(|MatchingKeys(w, table)|, first)
  {
    StaticKeys(w, visits, table, first);
    assert visits[0].table == table;
    StaticRows(w, visits, table);
  }

  lemma StaticKeys(w: Setting, visits: seq<Visit>, table: set<Row>, first: nat)
    requires ValidSetting(w) && ClientWalk(w, visits) && AllKeyed(w, visits) && WalkFinished(visits) && first >= 1
    requires forall i :: 0 <= i < |visits| ==> visits[i].table == table && visits[i].first == first
    ensures Increasing(RowKeys(w.pk, w.kinds, Nodes(visits)))
    ensures forall k :: k in RowKeys(w.pk, w.kinds, Nodes(visits)) <==> k in MatchingKeys(w, table)
    ensures |visits| == PagesFor(|MatchingKeys(w, table)|, first)
  {
    WalkRefines(w, visits);
    NodesAreKeys(w, visits);
    StaticPages(w, visits, table, first);
    FinishedPages(w, visits);
    StaticEnumeration(None, Pages(w, visits), MatchingKeys(w, table), first);
    RestOfNone(MatchingKeys(w, table));
  }

  lemma StaticRows(w: Setting, visits: seq<Visit>, table: set<Row>)
    requires Kinded(w) && ClientWalk(w, visits) && KeyedTable(w.pk, w.kinds, table)
    requires forall i :: 0 <= i < |visits| ==> visits[i].table == table
    requires forall k :: k in RowKeys(w.pk, w.kinds, Nodes(visits)) <==> k in MatchingKeys(w, table)
    ensures forall r :: r in Nodes(visits) <==> r in table && Matches(w, r)
  {
    forall i | 0 <= i < |visits| ensures NodesIn(visits[i], table) { VisitFromTable(w, visits, i); }
    NodesFromTable(visits, table);
    KeysDetermineRows(w, table, Nodes(visits));
  }

  predicate NodesIn(v: Visit, table: set<Row>) { forall r :: r in v.page.nodes ==> r in table }

  lemma VisitFromTable(w: Setting, visits: seq<Visit>, i: nat)
    requires Kinded(w) && ClientWalk(w, visits) && i < |visits|
    ensures NodesIn(visits[i], visits[i].table)
  {
    var v, after := visits[i], AfterCondition(w, CursorAt(visits, i)).value;
    var fetched :| KeysetResult(w, v.table, after, v.first + 1, fetched)
                   && v.page == PageOf(w.codec, w.pk, w.shape, v.first, fetched);
    FetchedFromTable(w, v.table, after, v.first + 1, fetched);
  }

  lemma {:induction false} NodesFromTable(visits: seq<Visit>, table: set<Row>)
    requires forall i :: 0 <= i < |visits| ==> NodesIn(visits[i], table)
    ensures forall r :: r in Nodes(visits) ==> r in table
  {
    if visits != [] {
      NodesFromTable(visits[1..], table);
      assert NodesIn(visits[0], table);
    }
  }

  /** Rows of the table whose keys are the matching ones are the matching rows. */
  lemma KeysDetermineRows(w: Setting, table: set<Row>, rows: seq<Row>)
    requires Kinded(w) && KeyedTable(w.pk, w.kinds, table) && forall r :: r in rows ==> r in table
    requires forall k :: k in RowKeys(w.pk, w.kinds, rows) <==> k in MatchingKeys(w, table)
    ensures forall r :: r in rows <==> r in table && Matches(w, r)
  {
    var keys := RowKeys(w.pk, w.kinds, rows);
    forall r | r in rows ensures Matches(w, r) {
      var i :| 0 <= i < |rows| && rows[i] == r;
      assert keys[i] in MatchingKeys(w, table);
    }
    forall r | r in table && Matches(w, r) ensures r in rows {
      assert KeyOf(w.pk, w.kinds, r) in keys;
      var i :| 0 <= i < |keys| && keys[i] == KeyOf(w.pk, w.kinds, r);
      assert rows[i] in rows;
    }
  }

  lemma RestOfNone(all: set<PrimaryKey>)
    ensures Rest(None, all) == all
  {
  }

  /** On a table that does not change, any walk with page size n >= 1, finished or not, has at most
      max(1, ceil(rows / n)) pages: the client's loop ends. */
  lemma StaticWalkEnds(w: Setting, visits: seq<Visit>, table: set<Row>, first: nat)
    requires ValidSetting(w) && ClientWalk(w, visits) && AllKeyed(w, visits) && first >= 1
    requires forall i :: 0 <= i < |visits| ==> visits[i].table == table && visits[i].first == first
    ensures |visits| <= PagesFor(|MatchingKeys(w, table)|, first)
  {
    WalkRefines(w, visits);
    StaticPages(w, visits, table, first);
    StaticBound(None, Pages(w, visits), MatchingKeys(w, table), first);
    RestOfNone(MatchingKeys(w, table));
  }
}

/** Generated GraphQL names and the startup collision check. The sanitiser of SQL identifiers (`graphqlName`) is an
    arbitrary function `g`. */
module Names {
  import opened Values
  import opened Catalog

  datatype Table = Table(name: string, columns: seq<Column>, primaryKey: seq<string>)

  datatype Namespace = QueryField | MutationField | TypeName

  datatype Owner = BuiltIn | OfTable(table: string)

  type Sanitiser = string -> string

  // ----- what the check claims -----

  const SCALARS: set<string> :=
    {"String", "Int", "Float", "Boolean", "ID", "BigInt", "Decimal", "DateTime", "Date", "JSON", "Bytes", "Vector"}

  function Reserved(ns: Namespace): set<string> {
    match ns
    case QueryField => {"_role"}
    case MutationField => {}
    case TypeName =>
      {"Query", "Mutation", "order_by", "mutation_response", "page_info", "vector_metric"}
      + SCALARS + (set s | s in SCALARS :: s + "_comparison_exp")
  }

  /** The kinds of names derived from one table. */
  datatype Form =
    | ByPk | ConnectionField | Aggregate | Nearest(column: Column)
    | Insert | InsertOne | Update | UpdateByPk | Delete | DeleteByPk
    | RowType | BoolExp | OrderBy | InsertInput | SetInput | ConnectionType | AggregateResult
    | SumFields | AvgFields | MinFields | MaxFields | Neighbor

  /** The name of a form for the table with sanitised name n. */
  function Name(g: Sanitiser, n: string, f: Form): string {
    match f
    case ByPk => n + "_by_pk"
    case ConnectionField => n + "_connection"
    case Aggregate => n + "_aggregate"
    case Nearest(c) => n + "_nearest_by_" + g(c.name)
    case Insert => "insert_" + n
    case InsertOne => "insert_" + n + "_one"
    case Update => "update_" + n
    case UpdateByPk => "update_" + n + "_by_pk"
    case Delete => "delete_" + n
    case DeleteByPk => "delete_" + n + "_by_pk"
    case RowType => n
    case BoolExp => n + "_bool_exp"
    case OrderBy => n + "_order_by"
    case InsertInput => n + "_insert_input"
    case SetInput => n + "_set_input"
    case ConnectionType => n + "_connection"
    case AggregateResult => n + "_aggregate_result"
    case SumFields => n + "_sum_fields"
    case AvgFields => n + "_avg_fields"
    case MinFields => n + "_min_fields"
    case MaxFields => n + "_max_fields"
    case Neighbor => n + "_neighbor"
  }

  function NearestForms(columns: seq<Column>): seq<Form> {
    if columns == [] then []
    else (if columns[0].vector then [Nearest(columns[0])] else []) + NearestForms(columns[1..])
  }

  function Forms(ns: Namespace, t: Table): seq<Form> {
    match ns
    case QueryField => [ByPk, ConnectionField, Aggregate] + NearestForms(t.columns)
    case MutationField => [Insert, InsertOne, Update, UpdateByPk, Delete, DeleteByPk]
    case TypeName =>
      [RowType, BoolExp, OrderBy, InsertInput, SetInput, ConnectionType, AggregateResult,
       SumFields, AvgFields, MinFields, MaxFields, Neighbor]
  }

  function Render(g: Sanitiser, n: string, forms: seq<Form>): seq<string> {
    if forms == [] then [] else [Name(g, n, forms[0])] + Render(g, n, forms[1..])
  }

  function Claimed(g: Sanitiser, ns: Namespace, t: Table): seq<string> { Render(g, g(t.name), Forms(ns, t)) }

  /** What one table puts into one namespace. */
  datatype Entry = Entry(table: string, names: seq<string>)

  /** All names of a list of entries, in order. */
  function Flat(entries: seq<Entry>): seq<string> {
    if entries == [] then [] else Flat(entries[..|entries| - 1]) + entries[|entries| - 1].names
  }

  function Claims(g: Sanitiser, ns: Namespace, tables: seq<Table>): seq<Entry> {
    seq(|tables|, i requires 0 <= i < |tables| => Entry(tables[i].name, Claimed(g, ns, tables[i])))
  }

  function Elems(s: seq<string>): set<string> { set x | x in s }

  /** Names that neither repeat nor hit a taken one. */
  predicate ClashFree(taken: set<string>, names: seq<string>) {
    Distinct(names) && forall x :: x in names ==> x !in taken
  }

  /** The first k names stay different after sanitising. */
  predicate NoRepeats(g: Sanitiser, names: seq<string>, k: nat)
    requires k <= |names|
  {
    forall i, j :: 0 <= i < j < k ==> g(names[i]) != g(names[j])
  }

  predicate Repeats(g: Sanitiser, names: seq<string>, a: string, b: string) {
    exists i, j :: 0 <= i < j < |names| && names[i] == a && names[j] == b && g(a) == g(b)
  }

  function TableNames(tables: seq<Table>): seq<string> {
    seq(|tables|, i requires 0 <= i < |tables| => tables[i].name)
  }

  function ColumnNames(t: Table): (r: seq<string>)
    ensures |r| == |t.columns| && forall i :: 0 <= i < |r| ==> r[i] == t.columns[i].name
  {
    seq(|t.columns|, i requires 0 <= i < |t.columns| => t.columns[i].name)
  }

  predicate ColumnsDistinct(g: Sanitiser, t: Table) { NoRepeats(g, ColumnNames(t), |t.columns|) }

  predicate NamesDistinct(g: Sanitiser, tables: seq<Table>) {
    NoRepeats(g, TableNames(tables), |tables|) && forall i :: 0 <= i < |tables| ==> ColumnsDistinct(g, tables[i])
  }

  /** What the startup check is meant to establish. */
  predicate Sound(g: Sanitiser, tables: seq<Table>) {
    && NamesDistinct(g, tables)
    && (forall ns: Namespace :: ClashFree(Reserved(ns), Flat(Claims(g, ns, tables))))
  }

  lemma SoundIff(g: Sanitiser, tables: seq<Table>)
    ensures Sound(g, tables) <==>
              && (forall i, j :: 0 <= i < j < |tables| ==> g(tables[i].name) != g(tables[j].name))
              && (forall i, j, k :: 0 <= i < |tables| && 0 <= j < k < |tables[i].columns| ==>
                    g(tables[i].columns[j].name) != g(tables[i].columns[k].name))
              && (forall ns: Namespace :: ClashFree(Reserved(ns), Flat(Claims(g, ns, tables))))
  {
    var names := TableNames(tables);
    assert forall i :: 0 <= i < |tables| ==> names[i] == tables[i].name;
    forall i | 0 <= i < |tables|
      ensures ColumnsDistinct(g, tables[i]) <==>
              forall j, k :: 0 <= j < k < |tables[i].columns| ==>
                g(tables[i].columns[j].name) != g(tables[i].columns[k].name)
    {
      var columns := ColumnNames(tables[i]);
      assert forall j :: 0 <= j < |columns| ==> columns[j] == tables[i].columns[j].name;
    }
  }

  lemma ClashFreeConcat(taken: set<string>, a: seq<string>, b: seq<string>)
    ensures ClashFree(taken, a + b) <==> ClashFree(taken, a) && ClashFree(taken + Elems(a), b)
  {
    var s := a + b;
    if ClashFree(taken, s) {
      assert forall i :: 0 <= i < |a| ==> a[i] == s[i] && s[i] in s;
      assert forall i :: 0 <= i < |b| ==> b[i] == s[|a| + i] && s[|a| + i] in s;
    }
    if ClashFree(taken, a) && ClashFree(taken + Elems(a), b) {
      forall i, j | 0 <= i < j < |s| ensures s[i] != s[j] {
        if i < |a| <= j {
          assert s[i] in Elems(a) && s[j] == b[j - |a|] && s[j] in b;
        }
      }
    }
  }

  lemma {:induction false} PrefixClashFree(taken: set<string>, entries: seq<Entry>, k: nat)
    requires k <= |entries|
    requires ClashFree(taken, Flat(entries))
    ensures ClashFree(taken, Flat(entries[..k]))
  {
    if k < |entries| {
      var front := entries[..|entries| - 1];
      ClashFreeConcat(taken, Flat(front), entries[|entries| - 1].names);
      PrefixClashFree(taken, front, k);
      assert front[..k] == entries[..k];
    } else {
      assert entries[..k] == entries;
    }
  }

  lemma NamesStep(entries: seq<Entry>, k: nat)
    requires k < |entries|
    ensures Flat(entries[..k + 1]) == Flat(entries[..k]) + entries[k].names
  {
    assert entries[..k + 1][..k] == entries[..k];
  }

  // ----- the check itself -----

  datatype Clash =
    | TwoTables(first: string, second: string)
    | TwoColumns(table: string, first: string, second: string)
    | Generated(ns: Namespace, name: string, claimant: string, holder: Owner)

  /** A reported clash is real: the named parties do produce the same name. */
  predicate Genuine(g: Sanitiser, tables: seq<Table>, c: Clash) {
    match c
    case TwoTables(a, b) => Repeats(g, TableNames(tables), a, b)
    case TwoColumns(t, a, b) =>
      exists i :: 0 <= i < |tables| && tables[i].name == t && Repeats(g, ColumnNames(tables[i]), a, b)
    case Generated(ns, name, claimant, holder) => Contested(Reserved(ns), Claims(g, ns, tables), name, claimant, holder)
  }

  predicate Produces(entries: seq<Entry>, table: string, name: string) {
    exists i :: 0 <= i < |entries| && entries[i].table == table && name in entries[i].names
  }

  predicate Contested(taken: set<string>, entries: seq<Entry>, name: string, claimant: string, holder: Owner) {
    && Produces(entries, claimant, name)
    && (match holder case BuiltIn => name in taken case OfTable(t) => Produces(entries, t, name))
  }

  ghost predicate Seen(g: Sanitiser, names: seq<string>, k: nat, seen: map<string, string>)
    requires k <= |names|
  {
    && (forall i :: 0 <= i < k ==> g(names[i]) in seen)
    && (forall x :: x in seen ==> exists i :: 0 <= i < k && names[i] == seen[x] && g(names[i]) == x)
  }

  /** Records the k-th name under its sanitised form, unless an earlier one has it. */
  method See(g: Sanitiser, names: seq<string>, k: nat, seen: map<string, string>)
    returns (after: map<string, string>, other: Option<string>)
    requires k < |names| && Seen(g, names, k, seen) && NoRepeats(g, names, k)
    ensures other.None? ==> Seen(g, names, k + 1, after) && NoRepeats(g, names, k + 1)
    ensures other.Some? ==> Repeats(g, names, other.value, names[k])
  {
    var x := g(names[k]);
    if x in seen {
      return seen, Some(seen[x]);
    }
    after := seen[x := names[k]];
    other := None;
    forall y | y in after ensures exists i :: 0 <= i < k + 1 && names[i] == after[y] && g(names[i]) == y {
      if y == x {
        assert names[k] == after[y];
      } else {
        var i :| 0 <= i < k && names[i] == seen[y] && g(names[i]) == y;
        assert names[i] == after[y];
      }
    }
  }

  lemma RepeatsIsReal(g: Sanitiser, names: seq<string>, a: string, b: string)
    requires Repeats(g, names, a, b)
    ensures !NoRepeats(g, names, |names|)
  {}

  /** Finds the first name that repeats an earlier one after sanitising. */
  method FirstRepeat(g: Sanitiser, names: seq<string>) returns (clash: Option<(string, string)>)
    ensures clash.None? <==> NoRepeats(g, names, |names|)
    ensures clash.Some? ==> Repeats(g, names, clash.value.0, clash.value.1)
  {
    var seen: map<string, string> := map[];
    for k := 0 to |names|
      invariant Seen(g, names, k, seen)
      invariant NoRepeats(g, names, k)
    {
      var other;
      seen, other := See(g, names, k, seen);
      if other.Some? {
        RepeatsIsReal(g, names, other.value, names[k]);
        return Some((other.value, names[k]));
      }
    }
    return None;
  }

  /** Enters names into a namespace until one is taken. */
  method ClaimAll(space: map<string, Owner>, names: seq<string>, owner: string)
    returns (after: map<string, Owner>, clash: Option<(string, Owner)>)
    ensures clash.None? <==> ClashFree(space.Keys, names)
    ensures clash.None? ==> after.Keys == space.Keys + Elems(names)
    ensures clash.None? ==> forall x :: x in after ==> after[x] == if x in space then space[x] else OfTable(owner)
    ensures clash.Some? ==>
              var (x, holder) := clash.value;
              x in names && holder == if x in space then space[x] else OfTable(owner)
  {
    after := space;
    for k := 0 to |names|
      invariant ClashFree(space.Keys, names[..k])
      invariant after.Keys == space.Keys + Elems(names[..k])
      invariant forall x :: x in after ==> after[x] == if x in space then space[x] else OfTable(owner)
    {
      var x := names[k];
      assert names[..k + 1] == names[..k] + [x];
      ClashFreeConcat(space.Keys, names[..k], [x]);
      if x in after {
        assert names == names[..k + 1] + names[k + 1..];
        ClashFreeConcat(space.Keys, names[..k + 1], names[k + 1..]);
        assert x in [x];
        return after, Some((x, after[x]));
      }
      after := after[x := OfTable(owner)];
    }
    assert names[..|names|] == names;
    return after, None;
  }

  /** A namespace after the first k entries have claimed their names in it. */
  ghost predicate Entered(taken: set<string>, entries: seq<Entry>, k: nat, space: map<string, Owner>)
    requires k <= |entries|
  {
    && ClashFree(taken, Flat(entries[..k]))
    && space.Keys == taken + Elems(Flat(entries[..k]))
    && forall x :: x in space ==>
         match space[x] case BuiltIn => x in taken case OfTable(t) => Produces(entries, t, x)
  }

  ghost predicate Reports(taken: set<string>, entries: seq<Entry>, k: nat, name: string, holder: Owner) {
    k < |entries| && Contested(taken, entries, name, entries[k].table, holder) && !ClashFree(taken, Flat(entries))
  }

  /** One table claims its names in one namespace. */
  method ClaimTable(taken: set<string>, entries: seq<Entry>, k: nat, space: map<string, Owner>)
    returns (after: map<string, Owner>, clash: Option<(string, Owner)>)
    requires k < |entries| && Entered(taken, entries, k, space)
    ensures clash.None? ==> Entered(taken, entries, k + 1, after)
    ensures clash.Some? ==> Reports(taken, entries, k, clash.value.0, clash.value.1)
  {
    var names := entries[k].names;
    after, clash := ClaimAll(space, names, entries[k].table);
    NamesStep(entries, k);
    ClashFreeConcat(taken, Flat(entries[..k]), names);
    assert forall x :: x in names ==> Produces(entries, entries[k].table, x);
    if clash.Some? && ClashFree(taken, Flat(entries)) {
      PrefixClashFree(taken, entries, k + 1);
      assert false;
    }
  }

  method Seed(taken: set<string>) returns (space: map<string, Owner>)
    ensures space.Keys == taken && forall x :: x in space ==> space[x] == BuiltIn
  {
    space := map x | x in taken :: BuiltIn;
  }

  function Of<T>(ns: Namespace, query: T, mutation: T, types: T): T {
    match ns case QueryField => query case MutationField => mutation case TypeName => types
  }

  /** Table by table, the entries of three namespaces are claimed; the clash names the namespace and table. */
  method ClaimNamespaces(reserved: Namespace -> set<string>, fields: seq<Entry>, changes: seq<Entry>,
                         typeNames: seq<Entry>)
    returns (clash: Option<(Namespace, nat, string, Owner)>)
    requires |fields| == |changes| == |typeNames|
    ensures clash.None? ==> forall ns: Namespace :: ClashFree(reserved(ns), Flat(Of(ns, fields, changes, typeNames)))
    ensures clash.Some? ==>
              var (ns, k, name, holder) := clash.value;
              Reports(reserved(ns), Of(ns, fields, changes, typeNames), k, name, holder)
  {
    var rq, rm, rt := reserved(QueryField), reserved(MutationField), reserved(TypeName);
    var query := Seed(rq);
    var mutation := Seed(rm);
    var types := Seed(rt);
    for k := 0 to |fields|
      invariant Entered(rq, fields, k, query)
      invariant Entered(rm, changes, k, mutation)
      invariant Entered(rt, typeNames, k, types)
    {
      var taken;
      query, taken := ClaimTable(rq, fields, k, query);
      if taken.Some? { return Some((QueryField, k, taken.value.0, taken.value.1)); }
      mutation, taken := ClaimTable(rm, changes, k, mutation);
      if taken.Some? { return Some((MutationField, k, taken.value.0, taken.value.1)); }
      types, taken := ClaimTable(rt, typeNames, k, types);
      if taken.Some? { return Some((TypeName, k, taken.value.0, taken.value.1)); }
    }
    assert fields[..|fields|] == fields && changes[..|changes|] == changes && typeNames[..|typeNames|] == typeNames;
    forall ns: Namespace ensures ClashFree(reserved(ns), Flat(Of(ns, fields, changes, typeNames))) {
      match ns case QueryField => case MutationField => case TypeName =>
    }
    return None;
  }

  /** Table names, and after each the column names of that table; a repeat is reported with its table, if in columns. */
  method CheckTables(g: Sanitiser, names: seq<string>, columns: seq<seq<string>>)
    returns (clash: Option<(Option<nat>, string, string)>)
    requires |columns| == |names|
    ensures clash.None? ==> NoRepeats(g, names, |names|)
    ensures clash.None? ==> forall i :: 0 <= i < |names| ==> NoRepeats(g, columns[i], |columns[i]|)
    ensures clash.Some? ==>
              var (k, a, b) := clash.value;
              match k case None => Repeats(g, names, a, b) case Some(i) => i < |names| && Repeats(g, columns[i], a, b)
  {
    var seen: map<string, string> := map[];
    for k := 0 to |names|
      invariant Seen(g, names, k, seen)
      invariant NoRepeats(g, names, k)
      invariant forall i :: 0 <= i < k ==> NoRepeats(g, columns[i], |columns[i]|)
    {
      var other;
      seen, other := See(g, names, k, seen);
      if other.Some? { return Some((None, other.value, names[k])); }
      var repeat := FirstRepeat(g, columns[k]);
      if repeat.Some? { return Some((Some(k), repeat.value.0, repeat.value.1)); }
    }
    return None;
  }

  lemma RepeatReported(g: Sanitiser, tables: seq<Table>, k: Option<nat>, a: string, b: string)
    requires match k case None => Repeats(g, TableNames(tables), a, b)
             case Some(i) => i < |tables| && Repeats(g, ColumnNames(tables[i]), a, b)
    ensures !NamesDistinct(g, tables)
    ensures Genuine(g, tables, match k case None => TwoTables(a, b) case Some(i) => TwoColumns(tables[i].name, a, b))
  {
    match k
    case None => RepeatsIsReal(g, TableNames(tables), a, b);
    case Some(i) => RepeatsIsReal(g, ColumnNames(tables[i]), a, b);
  }

  lemma OfClaims(g: Sanitiser, tables: seq<Table>, ns: Namespace)
    ensures Of(ns, Claims(g, QueryField, tables), Claims(g, MutationField, tables), Claims(g, TypeName, tables)) ==
            Claims(g, ns, tables)
  {}

  lemma AllNamespaces(g: Sanitiser, tables: seq<Table>, fields: seq<Entry>, changes: seq<Entry>, types: seq<Entry>)
    requires NamesDistinct(g, tables)
    requires forall ns: Namespace :: Of(ns, fields, changes, types) == Claims(g, ns, tables)
    requires forall ns: Namespace :: ClashFree(Reserved(ns), Flat(Of(ns, fields, changes, types)))
    ensures Sound(g, tables)
  {
    forall ns: Namespace ensures ClashFree(Reserved(ns), Flat(Claims(g, ns, tables))) {
      assert Of(ns, fields, changes, types) == Claims(g, ns, tables);
    }
  }

  lemma Reported(g: Sanitiser, tables: seq<Table>, ns: Namespace, k: nat, name: string, holder: Owner)
    requires k < |tables| && Reports(Reserved(ns), Claims(g, ns, tables), k, name, holder)
    ensures Genuine(g, tables, Generated(ns, name, tables[k].name, holder)) && !Sound(g, tables)
  {}

  /** The startup check finds a clash exactly when there is one, and what it reports is real. */
  method CheckNameCollisions(g: Sanitiser, tables: seq<Table>) returns (clash: Option<Clash>)
    ensures clash.None? <==> Sound(g, tables)
    ensures clash.None? <==>
              && (forall i, j :: 0 <= i < j < |tables| ==> g(tables[i].name) != g(tables[j].name))
              && (forall i, j, k :: 0 <= i < |tables| && 0 <= j < k < |tables[i].columns| ==>
                    g(tables[i].columns[j].name) != g(tables[i].columns[k].name))
              && (forall ns: Namespace :: ClashFree(Reserved(ns), Flat(Claims(g, ns, tables))))
    ensures clash.Some? ==> Genuine(g, tables, clash.value)
  {
    SoundIff(g, tables);
    var columns := seq(|tables|, i requires 0 <= i < |tables| => ColumnNames(tables[i]));
    var repeat := CheckTables(g, TableNames(tables), columns);
    if repeat.Some? {
      var (k, a, b) := repeat.value;
      RepeatReported(g, tables, k, a, b);
      return Some(match k case None => TwoTables(a, b) case Some(i) => TwoColumns(tables[i].name, a, b));
    }
    assert NamesDistinct(g, tables) by {
      forall i | 0 <= i < |tables| ensures ColumnsDistinct(g, tables[i]) {
        assert NoRepeats(g, columns[i], |columns[i]|);
      }
    }
    var fields, changes := Claims(g, QueryField, tables), Claims(g, MutationField, tables);
    var types := Claims(g, TypeName, tables);
    forall ns: Namespace ensures Of(ns, fields, changes, types) == Claims(g, ns, tables) { OfClaims(g, tables, ns); }
    var taken := ClaimNamespaces(Reserved, fields, changes, types);
    if taken.Some? {
      var (ns, k, name, holder) := taken.value;
      Reported(g, tables, ns, k, name, holder);
      return Some(Generated(ns, name, tables[k].name, holder));
    }
    AllNamespaces(g, tables, fields, changes, types);
    return None;
  }

  // ----- the check does not look at plain column names -----

  function Renamed(t: Table, k: nat, name: string): Table
    requires k < |t.columns|
  {
    t.(columns := t.columns[k := t.columns[k].(name := name)])
  }

  lemma {:induction false} NearestFormsRenamed(columns: seq<Column>, k: nat, name: string)
    requires k < |columns| && !columns[k].vector
    ensures NearestForms(columns[k := columns[k].(name := name)]) == NearestForms(columns)
  {
    var after := columns[k := columns[k].(name := name)];
    if k == 0 {
      assert after[1..] == columns[1..];
    } else {
      assert after[1..] == columns[1..][k - 1 := columns[k].(name := name)];
      NearestFormsRenamed(columns[1..], k - 1, name);
    }
  }

  /** In a catalog that passes, a column that is no vector may take any name its table does not use, "_and" included,
      and the catalog still passes: the check does not protect the connectives of the filter input. */
  lemma ColumnNamesUnchecked(g: Sanitiser, tables: seq<Table>, i: nat, k: nat, name: string)
    requires Sound(g, tables) && i < |tables| && k < |tables[i].columns| && !tables[i].columns[k].vector
    requires forall j :: 0 <= j < |tables[i].columns| && j != k ==> g(tables[i].columns[j].name) != g(name)
    ensures Sound(g, tables[i := Renamed(tables[i], k, name)])
  {
    var after := tables[i := Renamed(tables[i], k, name)];
    NearestFormsRenamed(tables[i].columns, k, name);
    forall ns: Namespace ensures ClashFree(Reserved(ns), Flat(Claims(g, ns, after))) {
      assert Forms(ns, after[i]) == Forms(ns, tables[i]);
      assert Claims(g, ns, after) == Claims(g, ns, tables);
    }
    assert TableNames(after) == TableNames(tables);
    forall j | 0 <= j < |after| ensures ColumnsDistinct(g, after[j]) {
      assert ColumnsDistinct(g, tables[j]);
    }
  }
}

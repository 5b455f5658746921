/** The root fields and types one role's schema generates, all distinct once the startup check passed. */
module RoleSchema {
  import opened Values
  import opened Catalog
  import opened Names

  datatype WriteGrant = WriteGrant(columns: set<string>, presets: set<string>)

  datatype Access = Access(select: Option<set<string>>, insert: Option<WriteGrant>, update: Option<WriteGrant>,
                           delete: bool)

  type Role = map<string, Access>

  predicate PkExposable(t: Table, a: Access) {
    t.primaryKey != [] && a.select.Some? && forall k :: k in t.primaryKey ==> k in a.select.value
  }

  /** The input type has a field: a granted column that is neither preset nor generated. */
  predicate Settable(t: Table, w: Option<WriteGrant>) {
    w.Some? && exists c :: c in t.columns && c.name in w.value.columns && c.name !in w.value.presets && !c.generated
  }

  /** Whether a role's schema has the field or type of this form. */
  predicate Generates(t: Table, a: Access, f: Form) {
    match f
    case ByPk | ConnectionField | ConnectionType => PkExposable(t, a)
    case Aggregate | RowType | BoolExp | OrderBy | AggregateResult => a.select.Some?
    case SumFields | AvgFields | MinFields | MaxFields => a.select.Some?
    case Nearest(c) => a.select.Some? && c.name in a.select.value
    case Neighbor => a.select.Some? && exists c :: c in t.columns && c.vector && c.name in a.select.value
    case Insert | InsertInput => Settable(t, a.insert)
    case InsertOne => Settable(t, a.insert) && PkExposable(t, a)
    case Update | SetInput => a.select.Some? && Settable(t, a.update)
    case UpdateByPk => Settable(t, a.update) && PkExposable(t, a)
    case Delete => a.select.Some? && a.delete
    case DeleteByPk => a.delete && PkExposable(t, a)
  }

  /** Which fields and types a role gets for a table, by its grants: by-key and connection fields only where the whole
      primary key can be read, aggregates, filters and sorting where the table can be selected, a search per readable
      vector column, and changes as granted. */
  lemma GeneratedForms(t: Table, a: Access, c: Column)
    ensures var shown := a.select.Some?;
            var keyShown := shown && t.primaryKey != [] && forall k :: k in t.primaryKey ==> k in a.select.value;
            var inserts := a.insert.Some? && ClientMaySet(t, a.insert.value);
            var updates := a.update.Some? && ClientMaySet(t, a.update.value);
            && (forall f :: f in {ByPk, ConnectionField, ConnectionType} ==> (Generates(t, a, f) <==> keyShown))
            && (forall f :: f in {Aggregate, RowType, BoolExp, OrderBy, AggregateResult} ==>
                              (Generates(t, a, f) <==> shown))
            && (forall f :: f in {SumFields, AvgFields, MinFields, MaxFields} ==> (Generates(t, a, f) <==> shown))
            && (Generates(t, a, Nearest(c)) <==> shown && c.name in a.select.value)
            && (Generates(t, a, Neighbor) <==>
                  shown && exists c :: c in t.columns && c.vector && c.name in a.select.value)
            && (forall f :: f in {Insert, InsertInput} ==> (Generates(t, a, f) <==> inserts))
            && (Generates(t, a, InsertOne) <==> inserts && keyShown)
            && (forall f :: f in {Update, SetInput} ==> (Generates(t, a, f) <==> updates && shown))
            && (Generates(t, a, UpdateByPk) <==> updates && keyShown)
            && (Generates(t, a, Delete) <==> a.delete && shown)
            && (Generates(t, a, DeleteByPk) <==> a.delete && keyShown)
  {
  }

  /** Some granted column is neither forced by a preset nor generated by the database. */
  predicate ClientMaySet(t: Table, w: WriteGrant) {
    exists c :: c in t.columns && c.name in w.columns && !c.generated && forall p :: p in w.presets ==> p != c.name
  }

  function Keep(t: Table, a: Access, forms: seq<Form>): seq<Form> {
    if forms == [] then []
    else (if Generates(t, a, forms[0]) then [forms[0]] else []) + Keep(t, a, forms[1..])
  }

  /** The names one table contributes to a role's schema. */
  function Granted(g: Sanitiser, ns: Namespace, t: Table, a: Access): seq<string> {
    Render(g, g(t.name), Keep(t, a, Forms(ns, t)))
  }

  function GrantedTo(g: Sanitiser, ns: Namespace, t: Table, role: Role): seq<string> {
    if t.name in role then Granted(g, ns, t, role[t.name]) else []
  }

  function Grants(g: Sanitiser, ns: Namespace, tables: seq<Table>, role: Role): seq<Entry> {
    seq(|tables|, i requires 0 <= i < |tables| => Entry(tables[i].name, GrantedTo(g, ns, tables[i], role)))
  }

  /** Has no names of its own, and repeats none unless the other list does. */
  predicate PartOf(a: seq<string>, b: seq<string>) {
    (Distinct(b) ==> Distinct(a)) && Elems(a) <= Elems(b)
  }

  lemma PartCons(x: string, a: seq<string>, b: seq<string>)
    requires PartOf(a, b)
    ensures PartOf(a, [x] + b) && PartOf([x] + a, [x] + b)
  {
    assert forall y :: y in a ==> y in Elems(b);
    assert [x][0] == x && forall y :: y in [x] <==> y == x;
    if Distinct([x] + b) {
      assert ClashFree({}, [x] + b);
      ClashFreeConcat({}, [x], b);
      assert x in {} + Elems([x]);
      assert ClashFree({} + Elems([x]), a);
      ClashFreeConcat({}, [x], a);
      assert ClashFree({}, [x] + a);
    }
  }

  lemma {:induction false} KeepWithin(g: Sanitiser, n: string, t: Table, a: Access, forms: seq<Form>)
    ensures PartOf(Render(g, n, Keep(t, a, forms)), Render(g, n, forms))
  {
    if forms != [] {
      KeepWithin(g, n, t, a, forms[1..]);
      var kept := Keep(t, a, forms[1..]);
      PartCons(Name(g, n, forms[0]), Render(g, n, kept), Render(g, n, forms[1..]));
      if Generates(t, a, forms[0]) {
        assert Keep(t, a, forms) == [forms[0]] + kept && ([forms[0]] + kept)[1..] == kept;
      } else {
        assert Keep(t, a, forms) == kept;
      }
    }
  }

  /** One list of entries holds, table by table, a part of another. */
  predicate Within(a: seq<Entry>, b: seq<Entry>) {
    |a| == |b| && forall i :: 0 <= i < |a| ==> PartOf(a[i].names, b[i].names)
  }

  lemma {:induction false} WithinClashFree(taken: set<string>, a: seq<Entry>, b: seq<Entry>)
    requires Within(a, b) && ClashFree(taken, Flat(b))
    ensures ClashFree(taken, Flat(a)) && Elems(Flat(a)) <= Elems(Flat(b))
  {
    if a != [] {
      var n := |a| - 1;
      assert Flat(b) == Flat(b[..n]) + b[n].names && Flat(a) == Flat(a[..n]) + a[n].names;
      ClashFreeConcat(taken, Flat(b[..n]), b[n].names);
      WithinClashFree(taken, a[..n], b[..n]);
      ClashFreeConcat(taken, Flat(a[..n]), a[n].names);
      assert forall x :: x in a[n].names ==> x in Elems(b[n].names);
    }
  }

  lemma GrantedWithin(g: Sanitiser, ns: Namespace, t: Table, role: Role)
    ensures PartOf(GrantedTo(g, ns, t, role), Claimed(g, ns, t))
  {
    if t.name in role { KeepWithin(g, g(t.name), t, role[t.name], Forms(ns, t)); }
  }

  lemma GrantsWithin(g: Sanitiser, ns: Namespace, tables: seq<Table>, role: Role)
    ensures Within(Grants(g, ns, tables, role), Claims(g, ns, tables))
  {
    forall i | 0 <= i < |tables|
      ensures PartOf(Grants(g, ns, tables, role)[i].names, Claims(g, ns, tables)[i].names)
    {
      GrantedWithin(g, ns, tables[i], role);
    }
  }

  /** A catalog that passes the check gives every role a schema without repeated or reserved names. */
  lemma RoleNamesDistinct(g: Sanitiser, tables: seq<Table>, role: Role, ns: Namespace)
    requires Sound(g, tables)
    ensures ClashFree(Reserved(ns), Flat(Grants(g, ns, tables, role)))
    ensures ClashFree(BuiltIns(ns), Flat(Grants(g, ns, tables, role)))
  {
    GrantsWithin(g, ns, tables, role);
    BuiltInsReserved(ns);
    WithinClashFree(Reserved(ns), Grants(g, ns, tables, role), Claims(g, ns, tables));
  }

  /** The first k entries are mounted, and each name still belongs to the table that generated it. */
  ghost predicate Mounted(taken: set<string>, entries: seq<Entry>, k: nat, fields: map<string, Owner>)
    requires k <= |entries|
  {
    && fields.Keys == taken + Elems(Flat(entries[..k]))
    && (forall x :: x in taken ==> x in fields && fields[x] == BuiltIn)
    && (forall i, x :: 0 <= i < k && x in entries[i].names ==> x in fields && fields[x] == OfTable(entries[i].table))
  }

  /** Adds one table's fields to a root field map, overwriting whatever has their names. */
  method Mount(fields: map<string, Owner>, names: seq<string>, owner: string) returns (after: map<string, Owner>)
    ensures after.Keys == fields.Keys + Elems(names)
    ensures forall x :: x in fields && x !in names ==> after[x] == fields[x]
    ensures forall x :: x in names ==> after[x] == OfTable(owner)
  {
    after := fields;
    for k := 0 to |names|
      invariant after.Keys == fields.Keys + Elems(names[..k])
      invariant forall x :: x in fields && x !in names[..k] ==> after[x] == fields[x]
      invariant forall x :: x in names[..k] ==> after[x] == OfTable(owner)
    {
      assert names[..k + 1] == names[..k] + [names[k]];
      after := after[names[k] := OfTable(owner)];
    }
    assert names[..|names|] == names;
  }

  method MountTable(ghost taken: set<string>, ghost entries: seq<Entry>, ghost k: nat, mounted: seq<string>,
                    owner: string, fields: map<string, Owner>)
    returns (after: map<string, Owner>)
    requires k < |entries| && ClashFree(taken, Flat(entries)) && Mounted(taken, entries, k, fields)
    requires owner == entries[k].table && forall x :: x in mounted <==> x in entries[k].names
    ensures Mounted(taken, entries, k + 1, after)
  {
    ghost var names := entries[k].names;
    after := Mount(fields, mounted, owner);
    assert Elems(mounted) == Elems(names);
    NamesStep(entries, k);
    PrefixClashFree(taken, entries, k + 1);
    ClashFreeConcat(taken, Flat(entries[..k]), names);
    assert forall x :: x in fields ==> x !in names;
    assert after.Keys == taken + Elems(Flat(entries[..k + 1]));
  }

  lemma {:induction false} CountDistinct(taken: set<string>, names: seq<string>)
    requires ClashFree(taken, names)
    ensures |taken + Elems(names)| == |taken| + |names|
  {
    if names == [] {
      assert taken + Elems(names) == taken;
    } else {
      var front, last := names[..|names| - 1], names[|names| - 1];
      assert names == front + [last];
      ClashFreeConcat(taken, front, [last]);
      assert last in [last];
      CountDistinct(taken, front);
      assert taken + Elems(names) == (taken + Elems(front)) + {last};
    }
  }

  // ----- what the builder generates -----

  /** pkExposable's loop over the primary key. */
  method PkReadable(t: Table, a: Access) returns (readable: bool)
    ensures readable <==> PkExposable(t, a)
  {
    if t.primaryKey == [] || a.select.None? { return false; }
    for i := 0 to |t.primaryKey|
      invariant forall j :: 0 <= j < i ==> t.primaryKey[j] in a.select.value
    {
      if t.primaryKey[i] !in a.select.value { return false; }
    }
    return true;
  }

  /** Whether an input type gets any field: the loop over the granted columns. */
  method HasInput(t: Table, w: Option<WriteGrant>) returns (any: bool)
    ensures any <==> Settable(t, w)
  {
    if w.None? { return false; }
    for i := 0 to |t.columns|
      invariant forall j :: 0 <= j < i ==>
                  !(t.columns[j].name in w.value.columns && t.columns[j].name !in w.value.presets &&
                    !t.columns[j].generated)
    {
      var c := t.columns[i];
      if c.name in w.value.columns && c.name !in w.value.presets && !c.generated { return true; }
    }
    return false;
  }

  /** The query fields of a table, spelt out. */
  predicate QueryNamed(g: Sanitiser, t: Table, a: Access, x: string) {
    var n := g(t.name);
    || (a.select.Some? && x == n + "_aggregate")
    || (PkExposable(t, a) && x in {n + "_by_pk", n + "_connection"})
    || NearestNamed(g, t, a, |t.columns|, x)
  }

  /** One of the first k columns is a readable vector column, and x is its search. */
  predicate NearestNamed(g: Sanitiser, t: Table, a: Access, k: nat, x: string)
    requires k <= |t.columns|
  {
    exists j :: 0 <= j < k && t.columns[j].vector && a.select.Some? && t.columns[j].name in a.select.value
                && x == g(t.name) + "_nearest_by_" + g(t.columns[j].name)
  }

  lemma QueryNamesAre(g: Sanitiser, t: Table, a: Access, x: string)
    ensures x in Granted(g, QueryField, t, a) <==> QueryNamed(g, t, a, x)
  {
    GrantedIff(g, QueryField, t, a);
    QueryFormsAre(t);
    var n := g(t.name);
    if f :| f in Forms(QueryField, t) && Generates(t, a, f) && x == Name(g, n, f) {
      if f.Nearest? {
        var j :| 0 <= j < |t.columns| && t.columns[j] == f.column;
        assert NearestNamed(g, t, a, |t.columns|, x);
      }
    }
    if QueryNamed(g, t, a, x) {
      if NearestNamed(g, t, a, |t.columns|, x) {
        var j :| 0 <= j < |t.columns| && t.columns[j].vector && a.select.Some? && t.columns[j].name in a.select.value
                 && x == n + "_nearest_by_" + g(t.columns[j].name);
        assert Nearest(t.columns[j]) in Forms(QueryField, t) && x == Name(g, n, Nearest(t.columns[j]));
      } else {
        var f := if x == n + "_by_pk" && PkExposable(t, a) then ByPk
                 else if x == n + "_connection" && PkExposable(t, a) then ConnectionField else Aggregate;
        assert f in Forms(QueryField, t) && Generates(t, a, f) && x == Name(g, n, f);
      }
    }
  }

  /** addQueryFields: the names it writes. */
  method QueryNames(g: Sanitiser, t: Table, a: Access) returns (names: seq<string>)
    ensures forall x :: x in names <==> QueryNamed(g, t, a, x)
  {
    var n := g(t.name);
    names := [];
    if a.select.None? { return; }
    names := [n + "_aggregate"];
    for i := 0 to |t.columns|
      invariant forall x :: x in names <==> x == n + "_aggregate" || NearestNamed(g, t, a, i, x)
    {
      var c := t.columns[i];
      if c.vector && c.name in a.select.value { names := names + [n + "_nearest_by_" + g(c.name)]; }
    }
    var readable := PkReadable(t, a);
    if readable { names := names + [n + "_by_pk", n + "_connection"]; }
  }

  /** The mutation fields of a table, spelt out. */
  predicate MutationNamed(g: Sanitiser, t: Table, a: Access, x: string) {
    var n := g(t.name);
    || (Settable(t, a.insert) && (x == "insert_" + n || (PkExposable(t, a) && x == "insert_" + n + "_one")))
    || (Settable(t, a.update) && a.select.Some? &&
        (x == "update_" + n || (PkExposable(t, a) && x == "update_" + n + "_by_pk")))
    || (a.delete && a.select.Some? && (x == "delete_" + n || (PkExposable(t, a) && x == "delete_" + n + "_by_pk")))
  }

  lemma MutationNamesAre(g: Sanitiser, t: Table, a: Access, x: string)
    ensures x in Granted(g, MutationField, t, a) <==> MutationNamed(g, t, a, x)
  {
    GrantedIff(g, MutationField, t, a);
    var n, forms := g(t.name), Forms(MutationField, t);
    assert forms == [Insert, InsertOne, Update, UpdateByPk, Delete, DeleteByPk];
    if MutationNamed(g, t, a, x) {
      var f := if x == "insert_" + n && Settable(t, a.insert) then Insert
               else if x == "insert_" + n + "_one" && Settable(t, a.insert) && PkExposable(t, a) then InsertOne
               else if x == "update_" + n && Settable(t, a.update) && a.select.Some? then Update
               else if x == "update_" + n + "_by_pk" && Settable(t, a.update) && PkExposable(t, a) then UpdateByPk
               else if x == "delete_" + n && a.delete && a.select.Some? then Delete else DeleteByPk;
      assert f in forms && Generates(t, a, f) && x == Name(g, n, f);
    }
  }

  /** addMutationFields: the names it writes. */
  method MutationNames(g: Sanitiser, t: Table, a: Access) returns (names: seq<string>)
    ensures forall x :: x in names <==> MutationNamed(g, t, a, x)
  {
    var n := g(t.name);
    names := [];
    var pk := PkReadable(t, a);
    var input := HasInput(t, a.insert);
    if input {
      names := names + ["insert_" + n];
      if pk { names := names + ["insert_" + n + "_one"]; }
    }
    var change := HasInput(t, a.update);
    if change && a.select.Some? {
      names := names + ["update_" + n];
      if pk { names := names + ["update_" + n + "_by_pk"]; }
    }
    if a.delete && a.select.Some? {
      names := names + ["delete_" + n];
      if pk { names := names + ["delete_" + n + "_by_pk"]; }
    }
  }

  /** The types of a table, spelt out: row, filter, sorting and aggregate types, neighbours of a vector column, the
      connection, and the inputs. */
  predicate TypeNamed(g: Sanitiser, t: Table, a: Access, x: string) {
    var n := g(t.name);
    || (a.select.Some? && x in {n, n + "_bool_exp", n + "_order_by", n + "_aggregate_result", n + "_sum_fields",
                                n + "_avg_fields", n + "_min_fields", n + "_max_fields"})
    || (a.select.Some? && x == n + "_neighbor" &&
        exists c :: c in t.columns && c.vector && c.name in a.select.value)
    || (PkExposable(t, a) && x == n + "_connection")
    || (Settable(t, a.insert) && x == n + "_insert_input")
    || (Settable(t, a.update) && a.select.Some? && x == n + "_set_input")
  }

  /** Every type the builder makes for a table is among those the check has claimed. */
  lemma TypeNamesAre(g: Sanitiser, t: Table, a: Access, x: string)
    ensures x in Granted(g, TypeName, t, a) <==> TypeNamed(g, t, a, x)
  {
    GrantedIff(g, TypeName, t, a);
    var n := g(t.name);
    if f :| f in Forms(TypeName, t) && Generates(t, a, f) && x == Name(g, n, f) { TypeFormNamed(g, t, a, f); }
    if TypeNamed(g, t, a, x) {
      FormOfTypeFits(g, n, x, t, a);
      assert FormOfType(n, x, t, a) in Forms(TypeName, t);
    }
  }

  lemma FormOfTypeFits(g: Sanitiser, n: string, x: string, t: Table, a: Access)
    requires n == g(t.name) && TypeNamed(g, t, a, x)
    ensures var f := FormOfType(n, x, t, a);
            x == Name(g, n, f) && Generates(t, a, f) && f in Forms(TypeName, t)
  {
    TypeForms(t);
  }

  lemma TypeForms(t: Table)
    ensures forall f :: f in {RowType, BoolExp, OrderBy, InsertInput, SetInput, ConnectionType} ==>
              f in Forms(TypeName, t)
    ensures forall f :: f in {AggregateResult, SumFields, AvgFields, MinFields, MaxFields, Neighbor} ==>
                          f in Forms(TypeName, t)
  {
    var forms := Forms(TypeName, t);
    assert forms == [RowType, BoolExp, OrderBy, InsertInput, SetInput, ConnectionType, AggregateResult,
                     SumFields, AvgFields, MinFields, MaxFields, Neighbor];
  }

  lemma TypeFormNamed(g: Sanitiser, t: Table, a: Access, f: Form)
    requires f in Forms(TypeName, t) && Generates(t, a, f)
    ensures TypeNamed(g, t, a, Name(g, g(t.name), f))
  {
  }

  /** A generated form whose type has the name, if there is one. */
  function FormOfType(n: string, x: string, t: Table, a: Access): Form {
    if a.select.Some? && x == n then RowType
    else if a.select.Some? && x == n + "_bool_exp" then BoolExp
    else if a.select.Some? && x == n + "_order_by" then OrderBy
    else if a.select.Some? && x == n + "_aggregate_result" then AggregateResult
    else if a.select.Some? && x == n + "_sum_fields" then SumFields
    else if a.select.Some? && x == n + "_avg_fields" then AvgFields
    else if a.select.Some? && x == n + "_min_fields" then MinFields
    else if a.select.Some? && x == n + "_max_fields" then MaxFields
    else if PkExposable(t, a) && x == n + "_connection" then ConnectionType
    else if Settable(t, a.insert) && x == n + "_insert_input" then InsertInput
    else if Settable(t, a.update) && a.select.Some? && x == n + "_set_input" then SetInput
    else Neighbor
  }

  /** The granted names are those of the generated forms. */
  lemma GrantedIff(g: Sanitiser, ns: Namespace, t: Table, a: Access)
    ensures forall x :: x in Granted(g, ns, t, a) <==>
                        exists f :: f in Forms(ns, t) && Generates(t, a, f) && x == Name(g, g(t.name), f)
  {
    KeptNames(g, g(t.name), t, a, Forms(ns, t));
  }

  lemma {:induction false} KeptNames(g: Sanitiser, n: string, t: Table, a: Access, forms: seq<Form>)
    ensures forall x :: x in Render(g, n, Keep(t, a, forms)) <==>
                        exists f :: f in forms && Generates(t, a, f) && x == Name(g, n, f)
  {
    if forms != [] {
      KeptNames(g, n, t, a, forms[1..]);
      var kept := Keep(t, a, forms[1..]);
      assert forms == [forms[0]] + forms[1..];
      if Generates(t, a, forms[0]) {
        assert Keep(t, a, forms) == [forms[0]] + kept && ([forms[0]] + kept)[1..] == kept;
      } else {
        assert Keep(t, a, forms) == kept;
      }
    }
  }

  lemma QueryFormsAre(t: Table)
    ensures forall f :: f in Forms(QueryField, t) <==>
              f in {ByPk, ConnectionField, Aggregate} || (f.Nearest? && f.column in t.columns && f.column.vector)
  {
    NearestFormsAre(t.columns);
  }

  lemma {:induction false} NearestFormsAre(columns: seq<Column>)
    ensures forall f :: f in NearestForms(columns) <==> f.Nearest? && f.column in columns && f.column.vector
  {
    if columns != [] {
      NearestFormsAre(columns[1..]);
      assert columns == [columns[0]] + columns[1..];
    }
  }

  /** The scalars columns can have; each gets a comparison input. */
  const COLUMN_SCALARS: set<string> :=
    {"String", "Int", "Float", "Boolean", "BigInt", "Decimal", "DateTime", "Date", "JSON", "Bytes", "Vector"}

  /** The fields and types that are there whatever the tables. */
  function BuiltIns(ns: Namespace): set<string> {
    match ns
    case QueryField => {"_role"}
    case MutationField => {}
    case TypeName =>
      {"Query", "Mutation", "order_by", "mutation_response", "page_info", "vector_metric", "ID"}
      + COLUMN_SCALARS + (set s | s in COLUMN_SCALARS :: s + "_comparison_exp")
  }

  lemma BuiltInsReserved(ns: Namespace)
    ensures BuiltIns(ns) <= Reserved(ns) <= BuiltIns(ns) + {"ID" + "_comparison_exp"}
  {
    ScalarsAre();
    if ns.TypeName? {
      forall x | x in Reserved(ns) ensures x in BuiltIns(ns) + {"ID" + "_comparison_exp"} {
        if s :| s in SCALARS && x == s + "_comparison_exp" {
          assert s == "ID" || s in COLUMN_SCALARS;
        }
      }
    }
  }

  lemma ScalarsAre()
    ensures SCALARS == COLUMN_SCALARS + {"ID"}
  {
  }

  lemma AllMounted(taken: set<string>, entries: seq<Entry>, fields: map<string, Owner>)
    requires Mounted(taken, entries, |entries|, fields) && ClashFree(taken, Flat(entries))
    ensures |fields| == |taken| + |Flat(entries)|
  {
    assert entries[..|entries|] == entries;
    CountDistinct(taken, Flat(entries));
    assert |fields| == |fields.Keys|;
  }

  /** The root fields of one table for the role: none when it has no access to it. */
  method RootNames(g: Sanitiser, t: Table, role: Role) returns (added: seq<string>, changed: seq<string>)
    ensures forall x :: x in added <==> x in GrantedTo(g, QueryField, t, role)
    ensures forall x :: x in changed <==> x in GrantedTo(g, MutationField, t, role)
  {
    if t.name !in role { return [], []; }
    var a := role[t.name];
    added := QueryNames(g, t, a);
    changed := MutationNames(g, t, a);
    forall x ensures x in added <==> x in Granted(g, QueryField, t, a) { QueryNamesAre(g, t, a, x); }
    forall x ensures x in changed <==> x in Granted(g, MutationField, t, a) { MutationNamesAre(g, t, a, x); }
  }

  /** The k-th table gives the role the query field x. */
  predicate HasQuery(g: Sanitiser, tables: seq<Table>, role: Role, k: int, x: string) {
    0 <= k < |tables| && tables[k].name in role && QueryNamed(g, tables[k], role[tables[k].name], x)
  }

  predicate HasMutation(g: Sanitiser, tables: seq<Table>, role: Role, k: int, x: string) {
    0 <= k < |tables| && tables[k].name in role && MutationNamed(g, tables[k], role[tables[k].name], x)
  }

  /** A mounted name is a built-in one or comes from an entry that owns it. */
  lemma MountedFrom(taken: set<string>, entries: seq<Entry>, fields: map<string, Owner>, x: string)
    requires Mounted(taken, entries, |entries|, fields)
    ensures x in fields <==> x in taken || exists k :: 0 <= k < |entries| && x in entries[k].names
    ensures forall k :: 0 <= k < |entries| && x in entries[k].names ==> fields[x] == OfTable(entries[k].table)
  {
    assert entries[..|entries|] == entries;
    InFlat(entries, x);
  }

  lemma {:induction false} InFlat(entries: seq<Entry>, x: string)
    ensures x in Flat(entries) <==> exists k :: 0 <= k < |entries| && x in entries[k].names
  {
    if entries != [] {
      var n := |entries| - 1;
      InFlat(entries[..n], x);
      assert forall k :: 0 <= k < n ==> entries[..n][k] == entries[k];
    }
  }

  lemma QueryMounted(g: Sanitiser, tables: seq<Table>, role: Role, query: map<string, Owner>, x: string)
    requires Mounted({"_role"}, Grants(g, QueryField, tables, role), |tables|, query)
    ensures x in query <==> x == "_role" || exists k :: HasQuery(g, tables, role, k, x)
    ensures forall k :: x in query && HasQuery(g, tables, role, k, x) ==> query[x] == OfTable(tables[k].name)
  {
    var entries := Grants(g, QueryField, tables, role);
    MountedFrom({"_role"}, entries, query, x);
    forall k | 0 <= k < |tables| ensures HasQuery(g, tables, role, k, x) <==> x in entries[k].names {
      if tables[k].name in role { QueryNamesAre(g, tables[k], role[tables[k].name], x); }
    }
  }

  lemma MutationMounted(g: Sanitiser, tables: seq<Table>, role: Role, mutation: map<string, Owner>, x: string)
    requires Mounted({}, Grants(g, MutationField, tables, role), |tables|, mutation)
    ensures x in mutation <==> exists k :: HasMutation(g, tables, role, k, x)
    ensures forall k :: x in mutation && HasMutation(g, tables, role, k, x) ==> mutation[x] == OfTable(tables[k].name)
  {
    var entries := Grants(g, MutationField, tables, role);
    MountedFrom({}, entries, mutation, x);
    forall k | 0 <= k < |tables| ensures HasMutation(g, tables, role, k, x) <==> x in entries[k].names {
      if tables[k].name in role { MutationNamesAre(g, tables[k], role[tables[k].name], x); }
    }
  }

  lemma AllQueryMounted(g: Sanitiser, tables: seq<Table>, role: Role, query: map<string, Owner>)
    requires Mounted({"_role"}, Grants(g, QueryField, tables, role), |tables|, query)
    ensures forall x :: x in query <==> x == "_role" || exists k :: HasQuery(g, tables, role, k, x)
    ensures forall k, x :: x in query && HasQuery(g, tables, role, k, x) ==> query[x] == OfTable(tables[k].name)
  {
    forall x ensures x in query <==> x == "_role" || exists k :: HasQuery(g, tables, role, k, x) {
      QueryMounted(g, tables, role, query, x);
    }
    forall k, x | x in query && HasQuery(g, tables, role, k, x) ensures query[x] == OfTable(tables[k].name) {
      QueryMounted(g, tables, role, query, x);
    }
  }

  lemma AllMutationMounted(g: Sanitiser, tables: seq<Table>, role: Role, mutation: map<string, Owner>)
    requires Mounted({}, Grants(g, MutationField, tables, role), |tables|, mutation)
    ensures forall x :: x in mutation <==> exists k :: HasMutation(g, tables, role, k, x)
    ensures forall k, x :: x in mutation && HasMutation(g, tables, role, k, x) ==>
              mutation[x] == OfTable(tables[k].name)
  {
    forall x ensures x in mutation <==> exists k :: HasMutation(g, tables, role, k, x) {
      MutationMounted(g, tables, role, mutation, x);
    }
    forall k, x | x in mutation && HasMutation(g, tables, role, k, x) ensures mutation[x] == OfTable(tables[k].name) {
      MutationMounted(g, tables, role, mutation, x);
    }
  }

  /** The root field maps of one role: no entry is silently overwritten. */
  method BuildRootFields(g: Sanitiser, tables: seq<Table>, role: Role)
    returns (query: map<string, Owner>, mutation: map<string, Owner>)
    requires Sound(g, tables)
    ensures Mounted({"_role"}, Grants(g, QueryField, tables, role), |tables|, query)
    ensures Mounted({}, Grants(g, MutationField, tables, role), |tables|, mutation)
    ensures |query| == 1 + |Flat(Grants(g, QueryField, tables, role))|
    ensures |mutation| == |Flat(Grants(g, MutationField, tables, role))|
    ensures forall x :: x in query <==> x == "_role" || exists k :: HasQuery(g, tables, role, k, x)
    ensures forall k, x :: x in query && HasQuery(g, tables, role, k, x) ==> query[x] == OfTable(tables[k].name)
    ensures forall x :: x in mutation <==> exists k :: HasMutation(g, tables, role, k, x)
    ensures forall k, x :: x in mutation && HasMutation(g, tables, role, k, x) ==>
              mutation[x] == OfTable(tables[k].name)
  {
    ghost var fields, changes := Grants(g, QueryField, tables, role), Grants(g, MutationField, tables, role);
    RoleNamesDistinct(g, tables, role, QueryField);
    RoleNamesDistinct(g, tables, role, MutationField);
    query := map["_role" := BuiltIn];
    mutation := map[];
    for k := 0 to |tables|
      invariant Mounted({"_role"}, fields, k, query)
      invariant Mounted({}, changes, k, mutation)
    {
      var added, changed := RootNames(g, tables[k], role);
      query := MountTable({"_role"}, fields, k, added, tables[k].name, query);
      mutation := MountTable({}, changes, k, changed, tables[k].name, mutation);
    }
    AllMounted({"_role"}, fields, query);
    AllMounted({}, changes, mutation);
    AllQueryMounted(g, tables, role, query);
    AllMutationMounted(g, tables, role, mutation);
  }
}

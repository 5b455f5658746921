/** The fields of one table's object and filter types, and the naming of relationship fields. */
module TableFields {
  import opened Values
  import opened Names

  datatype ForeignKey = ForeignKey(table: string, columns: seq<string>, refTable: string, refColumns: seq<string>)

  datatype ObjectField = ColumnValue(column: string) | ToOne(fk: ForeignKey) | ToMany(fk: ForeignKey)

  function Suffixed(base: string, i: nat): string { if i == 0 then base else base + "_" + Decimal(i) }

  lemma SuffixesDiffer(base: string, i: nat, j: nat)
    requires i != j
    ensures Suffixed(base, i) != Suffixed(base, j)
  {
    DecimalReads(i);
    DecimalReads(j);
    if i != 0 && j != 0 {
      assert Suffixed(base, i)[|base| + 1..] == Decimal(i);
      assert Suffixed(base, j)[|base| + 1..] == Decimal(j);
    }
    if i != 0 { assert |Suffixed(base, i)| > |base|; }
    if j != 0 { assert |Suffixed(base, j)| > |base|; }
  }

  /** As many suffixed names can be taken as there are taken names. */
  lemma {:induction false} Pigeonhole(taken: set<string>, base: string, i: nat)
    requires forall j :: 0 <= j < i ==> Suffixed(base, j) in taken
    ensures i <= |taken|
  {
    if i > 0 {
      var last := Suffixed(base, i - 1);
      forall j | 0 <= j < i - 1 ensures Suffixed(base, j) in taken - {last} {
        SuffixesDiffer(base, j, i - 1);
      }
      Pigeonhole(taken - {last}, base, i - 1);
    }
  }

  /** The candidate if free, else the first free suffixed name; at most |fields| of those can be taken. */
  method RelFieldName<V>(fields: map<string, V>, candidate: string, columns: string) returns (name: string)
    ensures name !in fields
    ensures candidate !in fields ==> name == candidate
    ensures candidate in fields ==>
              exists i :: 0 <= i <= |fields| && name == Suffixed(candidate + "_by_" + columns, i)
                          && forall j :: 0 <= j < i ==> Suffixed(candidate + "_by_" + columns, j) in fields
  {
    if candidate !in fields { return candidate; }
    var base := candidate + "_by_" + columns;
    var i := 0;
    while true
      invariant forall j :: 0 <= j < i ==> Suffixed(base, j) in fields.Keys
      invariant 0 <= i <= |fields|
      decreases |fields| - i
    {
      name := Suffixed(base, i);
      if name !in fields { return; }
      Pigeonhole(fields.Keys, base, i + 1);
      i := i + 1;
    }
  }

  function JoinNames(g: Sanitiser, columns: seq<string>): string {
    if columns == [] then ""
    else if |columns| == 1 then g(columns[0]) else g(columns[0]) + "_" + JoinNames(g, columns[1..])
  }

  /** The names of the columns in order, an underscore before each but the first. */
  lemma {:induction false} JoinNamesAppend(g: Sanitiser, columns: seq<string>, c: string)
    ensures JoinNames(g, columns + [c]) == if columns == [] then g(c) else JoinNames(g, columns) + "_" + g(c)
  {
    if columns == [] {
      assert columns + [c] == [c];
    } else {
      assert (columns + [c])[1..] == columns[1..] + [c];
      JoinNamesAppend(g, columns[1..], c);
      if |columns| > 1 {
        Associates(g(columns[0]) + "_", JoinNames(g, columns[1..]), "_" + g(c));
        Associates(JoinNames(g, columns[1..]), "_", g(c));
        Associates(JoinNames(g, columns), "_", g(c));
      }
    }
  }

  /** A to-one field is named after its only column without "_id", or after the table it leads to. */
  function OutgoingName(g: Sanitiser, fk: ForeignKey): string {
    if |fk.columns| == 1 && |fk.columns[0]| > 3 && fk.columns[0][|fk.columns[0]| - 3..] == "_id"
    then g(fk.columns[0][..|fk.columns[0]| - 3])
    else g(fk.refTable)
  }

  /** A relationship is exposed when the other table can be selected and the local join columns can be read. */
  predicate Exposed(selectable: set<string>, sel: set<string>, f: ObjectField) {
    match f
    case ColumnValue(c) => c in sel
    case ToOne(fk) => fk.refTable in selectable && forall c :: c in fk.columns ==> c in sel
    case ToMany(fk) => fk.table in selectable && forall c :: c in fk.refColumns ==> c in sel
  }

  function ExposedOf(selectable: set<string>, sel: set<string>, fs: seq<ObjectField>): seq<ObjectField> {
    if fs == [] then []
    else ExposedOf(selectable, sel, fs[..|fs| - 1]) +
         (if Exposed(selectable, sel, fs[|fs| - 1]) then [fs[|fs| - 1]] else [])
  }

  /** Grown by exactly the new fields, with every old entry kept. */
  predicate Extends(fields: map<string, ObjectField>, after: map<string, ObjectField>, added: seq<ObjectField>) {
    && (forall x :: x in fields ==> x in after && after[x] == fields[x])
    && |after| == |fields| + |added|
    && forall f :: f in added ==> exists x :: x in after && x !in fields && after[x] == f
  }

  lemma ExposedStep(selectable: set<string>, sel: set<string>, fs: seq<ObjectField>, k: nat)
    requires k < |fs|
    ensures ExposedOf(selectable, sel, fs[..k + 1]) ==
            if Exposed(selectable, sel, fs[k]) then ExposedOf(selectable, sel, fs[..k]) + [fs[k]]
            else ExposedOf(selectable, sel, fs[..k])
  {
    assert fs[..k + 1][..k] == fs[..k];
  }

  lemma {:induction false} ExposedMember(selectable: set<string>, sel: set<string>, fs: seq<ObjectField>,
                                         f: ObjectField)
    ensures f in ExposedOf(selectable, sel, fs) <==> f in fs && Exposed(selectable, sel, f)
  {
    if fs != [] {
      ExposedMember(selectable, sel, fs[..|fs| - 1], f);
      assert fs == fs[..|fs| - 1] + [fs[|fs| - 1]];
    }
  }

  /** The names a relationship field may have: after the referenced table or, for a single column ending in "_id",
      after that column; after the referencing table; each possibly with its columns and a number behind. */
  ghost predicate NamedAfter(g: Sanitiser, name: string, f: ObjectField) {
    match f
    case ColumnValue(_) => false
    case ToOne(fk) =>
      if exists s :: Stem(fk, s) then exists s :: Stem(fk, s) && Extended(g, name, g(s), fk.columns)
      else Extended(g, name, g(fk.refTable), fk.columns)
    case ToMany(fk) => Extended(g, name, g(fk.table), fk.columns)
  }

  /** The foreign key has one column, s with "_id" behind it. */
  predicate Stem(fk: ForeignKey, s: string) { s != "" && fk.columns == [s + "_id"] }

  ghost predicate Extended(g: Sanitiser, name: string, candidate: string, columns: seq<string>) {
    name == candidate || exists i: nat :: name == Suffixed(candidate + "_by_" + JoinNames(g, columns), i)
  }

  lemma OutgoingNamed(g: Sanitiser, fk: ForeignKey, name: string)
    requires Extended(g, name, OutgoingName(g, fk), fk.columns)
    ensures NamedAfter(g, name, ToOne(fk))
  {
    if |fk.columns| == 1 && |fk.columns[0]| > 3 && fk.columns[0][|fk.columns[0]| - 3..] == "_id" {
      var c := fk.columns[0];
      var s := c[..|c| - 3];
      assert c == s + "_id";
      assert Stem(fk, s);
    }
    forall s | Stem(fk, s) ensures OutgoingName(g, fk) == g(s) { StemEnds(g, fk, s); }
  }

  lemma StemEnds(g: Sanitiser, fk: ForeignKey, s: string)
    requires Stem(fk, s)
    ensures OutgoingName(g, fk) == g(s)
  {
    var c := fk.columns[0];
    assert c[|c| - 3..] == "_id" && c[..|c| - 3] == s;
  }

  lemma Grows<V>(m: map<string, V>, x: string, v: V)
    requires x !in m
    ensures |m[x := v]| == |m| + 1
  {
    assert m[x := v].Keys == m.Keys + {x};
    assert |m[x := v]| == |m[x := v].Keys| && |m| == |m.Keys|;
  }

  lemma ExtendsStep(fields: map<string, ObjectField>, mid: map<string, ObjectField>, added: seq<ObjectField>,
                    name: string, f: ObjectField)
    requires Extends(fields, mid, added) && name !in mid
    ensures Extends(fields, mid[name := f], added + [f])
  {
    var after := mid[name := f];
    Grows(mid, name, f);
    forall h | h in added + [f] ensures exists x :: x in after && x !in fields && after[x] == h {
      if h in added {
        var x :| x in mid && x !in fields && mid[x] == h;
        assert after[x] == h;
      } else {
        assert after[name] == h;
      }
    }
  }

  /** The role can select the other table and read the local columns of the join. */
  predicate MayFollow(selectable: set<string>, sel: set<string>, table: string, columns: seq<string>) {
    table in selectable && forall c :: c in columns ==> c in sel
  }

  /** One relationship under a free name made for it. */
  method AddRelation(g: Sanitiser, f: ObjectField, fields: map<string, ObjectField>)
    returns (after: map<string, ObjectField>, ghost name: string)
    requires !f.ColumnValue?
    ensures name !in fields && after == fields[name := f] && NamedAfter(g, name, f)
  {
    var candidate := if f.ToOne? then OutgoingName(g, f.fk) else g(f.fk.table);
    var free := RelFieldName(fields, candidate, JoinNames(g, f.fk.columns));
    assert Extended(g, free, candidate, f.fk.columns);
    if f.ToOne? { OutgoingNamed(g, f.fk, free); }
    return fields[free := f], free;
  }

  /** Relationship fields never replace a column or an earlier relationship. */
  method AddRelationFields(g: Sanitiser, selectable: set<string>, sel: set<string>, relations: seq<ObjectField>,
                           fields: map<string, ObjectField>)
    returns (after: map<string, ObjectField>)
    requires forall f :: f in relations ==> !f.ColumnValue?
    ensures Extends(fields, after, ExposedOf(selectable, sel, relations))
    ensures forall fk :: ToOne(fk) in relations && MayFollow(selectable, sel, fk.refTable, fk.columns) ==>
              exists x :: x in after && after[x] == ToOne(fk)
    ensures forall fk :: ToMany(fk) in relations && MayFollow(selectable, sel, fk.table, fk.refColumns) ==>
              exists x :: x in after && after[x] == ToMany(fk)
    ensures forall x :: x in after && x !in fields ==> RelationOf(g, selectable, sel, relations, x, after[x])
  {
    after := fields;
    for k := 0 to |relations|
      invariant Extends(fields, after, ExposedOf(selectable, sel, relations[..k]))
      invariant forall x :: x in after && x !in fields ==> RelationOf(g, selectable, sel, relations, x, after[x])
    {
      var f := relations[k];
      ExposedStep(selectable, sel, relations, k);
      var readable := AllIn(if f.ToOne? then f.fk.columns else f.fk.refColumns, sel);
      if (if f.ToOne? then f.fk.refTable else f.fk.table) in selectable && readable {
        ghost var before := after;
        ghost var name;
        after, name := AddRelation(g, f, after);
        ExtendsStep(fields, before, ExposedOf(selectable, sel, relations[..k]), name, f);
      }
    }
    assert relations[..|relations|] == relations;
    RelationsPresent(selectable, sel, relations, fields, after);
  }

  lemma RelationsPresent(selectable: set<string>, sel: set<string>, relations: seq<ObjectField>,
                         fields: map<string, ObjectField>, after: map<string, ObjectField>)
    requires Extends(fields, after, ExposedOf(selectable, sel, relations))
    ensures forall fk :: ToOne(fk) in relations && MayFollow(selectable, sel, fk.refTable, fk.columns) ==>
              exists x :: x in after && after[x] == ToOne(fk)
    ensures forall fk :: ToMany(fk) in relations && MayFollow(selectable, sel, fk.table, fk.refColumns) ==>
              exists x :: x in after && after[x] == ToMany(fk)
  {
    forall f ensures f in ExposedOf(selectable, sel, relations) <==> f in relations && Exposed(selectable, sel, f) {
      ExposedMember(selectable, sel, relations, f);
    }
  }

  /** A relationship the role may follow, under a name made for it: the other table can be selected and the local
      columns of the join can be read. */
  ghost predicate RelationOf(g: Sanitiser, selectable: set<string>, sel: set<string>, relations: seq<ObjectField>,
                             name: string, f: ObjectField) {
    f in relations && NamedAfter(g, name, f) &&
    match f
    case ColumnValue(_) => false
    case ToOne(fk) => MayFollow(selectable, sel, fk.refTable, fk.columns)
    case ToMany(fk) => MayFollow(selectable, sel, fk.table, fk.refColumns)
  }

  /** The loop that looks for an unreadable column. */
  method AllIn(columns: seq<string>, sel: set<string>) returns (readable: bool)
    ensures readable <==> forall c :: c in columns ==> c in sel
  {
    for i := 0 to |columns|
      invariant forall j :: 0 <= j < i ==> columns[j] in sel
    {
      if columns[i] !in sel { return false; }
    }
    return true;
  }

  /** The readable columns under their GraphQL names. */
  method ColumnFields(g: Sanitiser, names: seq<string>, selectable: set<string>, sel: set<string>)
    returns (fields: map<string, ObjectField>)
    requires NoRepeats(g, names, |names|)
    ensures Columned(g, names, sel, |names|, fields)
    ensures Extends(map[], fields, ExposedOf(selectable, sel, ColumnParts(names)))
  {
    ghost var columns := ColumnParts(names);
    fields := map[];
    for k := 0 to |names|
      invariant Columned(g, names, sel, k, fields)
      invariant Extends(map[], fields, ExposedOf(selectable, sel, columns[..k]))
    {
      ExposedStep(selectable, sel, columns, k);
      assert columns[k] == ColumnValue(names[k]);
      if names[k] !in sel {
        ColumnedSkip(g, names, sel, k, fields);
      } else {
        ColumnedStep(g, names, sel, k, fields);
        ExtendsStep(map[], fields, ExposedOf(selectable, sel, columns[..k]), g(names[k]), columns[k]);
        fields := fields[g(names[k]) := ColumnValue(names[k])];
      }
    }
    assert columns[..|names|] == columns;
  }

  /** The first k columns that can be read are there, each under its own name, and nothing else. */
  predicate Columned(g: Sanitiser, names: seq<string>, sel: set<string>, k: nat, fields: map<string, ObjectField>)
    requires k <= |names|
  {
    && (forall i :: 0 <= i < k && names[i] in sel ==>
          g(names[i]) in fields && fields[g(names[i])] == ColumnValue(names[i]))
    && (forall x :: x in fields ==> exists i :: 0 <= i < k && names[i] in sel && x == g(names[i]))
  }

  lemma ColumnedSkip(g: Sanitiser, names: seq<string>, sel: set<string>, k: nat, fields: map<string, ObjectField>)
    requires k < |names| && Columned(g, names, sel, k, fields) && names[k] !in sel
    ensures Columned(g, names, sel, k + 1, fields)
  {
    forall x | x in fields ensures exists i :: 0 <= i < k + 1 && names[i] in sel && x == g(names[i]) {
      var i :| 0 <= i < k && names[i] in sel && x == g(names[i]);
    }
  }

  lemma ColumnedStep(g: Sanitiser, names: seq<string>, sel: set<string>, k: nat, fields: map<string, ObjectField>)
    requires k < |names| && NoRepeats(g, names, |names|) && Columned(g, names, sel, k, fields) && names[k] in sel
    ensures g(names[k]) !in fields
    ensures Columned(g, names, sel, k + 1, fields[g(names[k]) := ColumnValue(names[k])])
  {
    var after := fields[g(names[k]) := ColumnValue(names[k])];
    forall x | x in after ensures exists i :: 0 <= i < k + 1 && names[i] in sel && x == g(names[i]) {
      if x in fields {
        var i :| 0 <= i < k && names[i] in sel && x == g(names[i]);
      } else {
        assert x == g(names[k]);
      }
    }
  }

  lemma ExtendsTwice(mid: map<string, ObjectField>, after: map<string, ObjectField>, a: seq<ObjectField>,
                     b: seq<ObjectField>)
    requires Extends(map[], mid, a) && Extends(mid, after, b)
    ensures Extends(map[], after, a + b)
  {
    forall f | f in a + b ensures exists x :: x in after && after[x] == f {
      if f in a {
        var x :| x in mid && mid[x] == f;
        assert after[x] == f;
      } else {
        var x :| x in after && after[x] == f;
        assert after[x] == f;
      }
    }
  }

  /** A readable column under its name, or a relationship the role may follow under a name made for it. */
  ghost predicate FieldOf(g: Sanitiser, t: Table, selectable: set<string>, sel: set<string>, outgoing: seq<ForeignKey>,
                          incoming: seq<ForeignKey>, name: string, f: ObjectField) {
    match f
    case ColumnValue(c) => c in ColumnNames(t) && c in sel && name == g(c)
    case ToOne(fk) =>
      fk in outgoing && NamedAfter(g, name, f) && MayFollow(selectable, sel, fk.refTable, fk.columns)
    case ToMany(fk) =>
      fk in incoming && NamedAfter(g, name, f) && MayFollow(selectable, sel, fk.table, fk.refColumns)
  }

  /** The object type of a table: its readable columns, then its relationships, each under its own name. */
  method BuildObjectFields(g: Sanitiser, t: Table, selectable: set<string>, sel: set<string>, outgoing: seq<ForeignKey>,
                           incoming: seq<ForeignKey>)
    returns (fields: map<string, ObjectField>)
    requires ColumnsDistinct(g, t)
    ensures forall i :: 0 <= i < |t.columns| && t.columns[i].name in sel ==>
              g(t.columns[i].name) in fields && fields[g(t.columns[i].name)] == ColumnValue(t.columns[i].name)
    ensures Extends(map[], fields,
                    ExposedOf(selectable, sel, ColumnParts(ColumnNames(t)) + Relations(outgoing, incoming)))
    ensures forall fk :: fk in outgoing && MayFollow(selectable, sel, fk.refTable, fk.columns) ==>
              exists x :: x in fields && fields[x] == ToOne(fk)
    ensures forall fk :: fk in incoming && MayFollow(selectable, sel, fk.table, fk.refColumns) ==>
              exists x :: x in fields && fields[x] == ToMany(fk)
    ensures forall x :: x in fields ==> FieldOf(g, t, selectable, sel, outgoing, incoming, x, fields[x])
  {
    var names := ColumnNames(t);
    var columns := ColumnFields(g, names, selectable, sel);
    var relations := Relations(outgoing, incoming);
    RelationsAre(outgoing, incoming);
    fields := AddRelationFields(g, selectable, sel, relations, columns);
    ExtendsTwice(columns, fields, ExposedOf(selectable, sel, ColumnParts(names)),
                 ExposedOf(selectable, sel, relations));
    ExposedConcat(selectable, sel, ColumnParts(names), relations);
    forall i | 0 <= i < |t.columns| && t.columns[i].name in sel
      ensures g(t.columns[i].name) in fields && fields[g(t.columns[i].name)] == ColumnValue(t.columns[i].name)
    {
      assert names[i] == t.columns[i].name && g(names[i]) in columns;
    }
    forall x | x in fields ensures FieldOf(g, t, selectable, sel, outgoing, incoming, x, fields[x]) {
      FieldIs(g, t, selectable, sel, outgoing, incoming, columns, x, fields[x]);
    }
  }

  lemma FieldIs(g: Sanitiser, t: Table, selectable: set<string>, sel: set<string>, outgoing: seq<ForeignKey>,
                incoming: seq<ForeignKey>, columns: map<string, ObjectField>, x: string, f: ObjectField)
    requires Columned(g, ColumnNames(t), sel, |t.columns|, columns)
    requires if x in columns then f == columns[x]
             else RelationOf(g, selectable, sel, Relations(outgoing, incoming), x, f)
    ensures FieldOf(g, t, selectable, sel, outgoing, incoming, x, f)
  {
    RelationsAre(outgoing, incoming);
    if x in columns {
      var i :| 0 <= i < |t.columns| && ColumnNames(t)[i] in sel && x == g(ColumnNames(t)[i]);
    }
  }

  function ColumnParts(names: seq<string>): (r: seq<ObjectField>)
    ensures |r| == |names| && forall i :: 0 <= i < |r| ==> r[i] == ColumnValue(names[i])
  {
    seq(|names|, i requires 0 <= i < |names| => ColumnValue(names[i]))
  }

  function Relations(outgoing: seq<ForeignKey>, incoming: seq<ForeignKey>): (r: seq<ObjectField>)
    ensures forall f :: f in r ==> !f.ColumnValue?
  {
    seq(|outgoing|, i requires 0 <= i < |outgoing| => ToOne(outgoing[i]))
    + seq(|incoming|, i requires 0 <= i < |incoming| => ToMany(incoming[i]))
  }

  lemma RelationsAre(outgoing: seq<ForeignKey>, incoming: seq<ForeignKey>)
    ensures forall fk :: ToOne(fk) in Relations(outgoing, incoming) <==> fk in outgoing
    ensures forall fk :: ToMany(fk) in Relations(outgoing, incoming) <==> fk in incoming
  {
    var all, n := Relations(outgoing, incoming), |outgoing|;
    forall fk | fk in outgoing ensures ToOne(fk) in all {
      var i :| 0 <= i < n && outgoing[i] == fk;
      assert all[i] == ToOne(fk);
    }
    forall fk | fk in incoming ensures ToMany(fk) in all {
      var i :| 0 <= i < |incoming| && incoming[i] == fk;
      assert all[n + i] == ToMany(fk);
    }
    forall fk | ToOne(fk) in all ensures fk in outgoing {
      var i :| 0 <= i < |all| && all[i] == ToOne(fk);
      if i < n { assert outgoing[i] == fk; }
    }
    forall fk | ToMany(fk) in all ensures fk in incoming {
      var i :| 0 <= i < |all| && all[i] == ToMany(fk);
      if i >= n { assert incoming[i - n] == fk; }
    }
  }

  lemma {:induction false} ExposedConcat(selectable: set<string>, sel: set<string>, a: seq<ObjectField>,
                                         b: seq<ObjectField>)
    ensures ExposedOf(selectable, sel, a + b) == ExposedOf(selectable, sel, a) + ExposedOf(selectable, sel, b)
  {
    if b == [] {
      assert a + b == a;
    } else {
      assert (a + b)[..|a + b| - 1] == a + b[..|b| - 1];
      ExposedConcat(selectable, sel, a, b[..|b| - 1]);
    }
  }

  datatype Input = Connective | Comparison(column: string)

  /** The filter input of a table: a readable column named like a connective takes its place. */
  method BuildBoolExp(g: Sanitiser, t: Table, sel: set<string>) returns (fields: map<string, Input>)
    requires ColumnsDistinct(g, t)
    ensures forall i :: 0 <= i < |t.columns| && t.columns[i].name in sel ==>
              g(t.columns[i].name) in fields && fields[g(t.columns[i].name)] == Comparison(t.columns[i].name)
    ensures {"_and", "_or", "_not"} <= fields.Keys
    ensures (forall x :: x in {"_and", "_or", "_not"} ==> fields[x] == Connective)
            <==> (forall i :: 0 <= i < |t.columns| && t.columns[i].name in sel ==>
                    g(t.columns[i].name) !in {"_and", "_or", "_not"})
  {
    fields := map["_and" := Connective, "_or" := Connective, "_not" := Connective];
    var names := ColumnNames(t);
    for k := 0 to |names|
      invariant forall i :: 0 <= i < k && names[i] in sel ==>
                  g(names[i]) in fields && fields[g(names[i])] == Comparison(names[i])
      invariant {"_and", "_or", "_not"} <= fields.Keys
      invariant forall x :: x in {"_and", "_or", "_not"} ==>
                  (fields[x] == Connective <==> forall i :: 0 <= i < k && names[i] in sel ==> g(names[i]) != x)
    {
      if names[k] in sel {
        fields := fields[g(names[k]) := Comparison(names[k])];
      }
    }
  }
}

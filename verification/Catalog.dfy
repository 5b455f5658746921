/** What the SQL generator knows about one table under one role, and Go's sorted map keys. */
module Catalog {
  import opened Values
  import opened Lex

  datatype Column = Column(name: string, ordinal: nat, json: bool, vector: bool, generated: bool)

  /** The per-role view of one table. `readable` is absent when the role may not select at all;
      `jsonText` is the JSON encoder applied to values bound to JSON columns. */
  datatype TableInfo = TableInfo(
    columns: seq<Column>,
    primaryKey: seq<string>,
    fieldToCol: map<string, Column>,
    readable: Option<set<string>>,
    jsonText: Value -> string)

  predicate FieldReadable(ti: TableInfo, field: string) {
    && field in ti.fieldToCol
    && ti.readable.Some?
    && ti.fieldToCol[field].name in ti.readable.value
  }

  /** The driver value of a coerced GraphQL input value. */
  function BindValue(ti: TableInfo, col: Column, v: Value): Value {
    if v.Null? then Null else if col.json then Str(ti.jsonText(v)) else v
  }

  predicate Distinct<T(==)>(s: seq<T>) { forall i, j :: 0 <= i < j < |s| ==> s[i] != s[j] }

  lemma LeastExists(s: set<string>)
    requires s != {}
    ensures exists k :: k in s && forall j :: j in s && j != k ==> StringLess(k, j)
  {
    StringLessStrictTotal();
    var k :| k in s;
    if s != {k} {
      LeastExists(s - {k});
      var l :| l in s - {k} && forall j :: j in s - {k} && j != l ==> StringLess(l, j);
      var least := if StringLess(k, l) then k else l;
      assert forall j :: j in s && j != least ==> j == k || j == l || StringLess(l, j);
      assert least in s && forall j :: j in s && j != least ==> StringLess(least, j);
    } else {
      assert k in s && forall j :: j in s && j != k ==> StringLess(k, j);
    }
  }

  /** The keys of a map in ascending byte order, each once. */
  method SortedKeys<V>(m: map<string, V>) returns (keys: seq<string>)
    ensures forall k :: k in keys <==> k in m
    ensures forall i, j :: 0 <= i < j < |keys| ==> StringLess(keys[i], keys[j])
    ensures Distinct(keys)
  {
    StringLessStrictTotal();
    keys := [];
    var rest := m.Keys;
    while rest != {}
      invariant forall k :: k in m <==> k in keys || k in rest
      invariant forall k :: k in keys ==> k !in rest
      invariant forall i, j :: 0 <= i < j < |keys| ==> StringLess(keys[i], keys[j])
      invariant forall i, k :: 0 <= i < |keys| && k in rest ==> StringLess(keys[i], k)
    {
      LeastExists(rest);
      var k :| k in rest && forall j :: j in rest && j != k ==> StringLess(k, j);
      keys := keys + [k];
      rest := rest - {k};
    }
  }
}

/** order_by arguments: the column list is fixed by the argument alone, however Go iterates the input maps;
    and the quoting of identifiers. */
module Ordering {
  import opened Values
  import opened Catalog
  import opened Window

  /** A requested sort column with its direction. */
  datatype SortKey = SortKey(col: Column, descending: bool)

  /** A field that is null, or names a readable column and gives a direction. */
  predicate EntryAccepted(ti: TableInfo, m: map<string, Value>, f: string)
    requires f in m
  {
    m[f].Null? || (FieldReadable(ti, f) && (m[f] == Str("ASC") || m[f] == Str("DESC")))
  }

  predicate ItemAccepted(ti: TableInfo, item: Value) {
    item.Obj? && forall f :: f in item.fields ==> EntryAccepted(ti, item.fields, f)
  }

  /** Different fields are different columns, at different ordinals. */
  predicate OrdinalsDistinct(ti: TableInfo) {
    forall f, h :: f in ti.fieldToCol && h in ti.fieldToCol && ti.fieldToCol[f].ordinal == ti.fieldToCol[h].ordinal ==>
        f == h
  }

  /** Field f of the item asks for key k. */
  predicate Asks(ti: TableInfo, m: map<string, Value>, f: string, k: SortKey) {
    f in m && !m[f].Null? && f in ti.fieldToCol && k == SortKey(ti.fieldToCol[f], m[f] == Str("DESC"))
  }

  predicate Ascends(keys: seq<SortKey>) {
    forall i, j :: 0 <= i < j < |keys| ==> keys[i].col.ordinal < keys[j].col.ordinal
  }

  /** The keys of one order_by object: exactly the requested ones, by table ordinal. */
  ghost predicate ItemKeys(ti: TableInfo, m: map<string, Value>, keys: seq<SortKey>) {
    Ascends(keys) && forall k :: k in keys <==> exists f :: Asks(ti, m, f, k)
  }

  function Keys(keys: seq<SortKey>): Order {
    seq(|keys|, i requires 0 <= i < |keys| => OrderKey(keys[i].col.name, keys[i].descending))
  }

  /** The ORDER BY list of the whole argument: the objects in order, each by ordinal. */
  ghost predicate OrderOf(ti: TableInfo, items: seq<Value>, order: Order) {
    if items == [] then order == []
    else
      var n := |items| - 1;
      items[n].Obj? &&
      exists front, keys ::
        OrderOf(ti, items[..n], front) && ItemKeys(ti, items[n].fields, keys) && order == front + Keys(keys)
  }

  /** Field f of the i-th object asks to sort by key k. */
  predicate Requested(ti: TableInfo, items: seq<Value>, i: int, f: string, k: OrderKey) {
    && 0 <= i < |items| && items[i].Obj? && f in items[i].fields && !items[i].fields[f].Null? && f in ti.fieldToCol
    && k.col == ti.fieldToCol[f].name && (k.desc <==> items[i].fields[f] == Str("DESC"))
  }

  /** Two keys stand in this order: their objects do, or it is one object and their columns do. */
  ghost predicate InOrder(ti: TableInfo, items: seq<Value>, k: OrderKey, l: OrderKey) {
    exists i, f, j, h ::
      && Requested(ti, items, i, f, k) && Requested(ti, items, j, h, l)
      && (i < j || (i == j && ti.fieldToCol[f].ordinal < ti.fieldToCol[h].ordinal))
  }

  /** The keys of the order are exactly the requested ones, by object and then by ordinal. */
  ghost predicate OrderSays(ti: TableInfo, items: seq<Value>, order: Order) {
    && (forall i, f, k :: Requested(ti, items, i, f, k) ==> k in order)
    && (forall k :: k in order ==> exists i, f :: Requested(ti, items, i, f, k))
    && (forall p, q :: 0 <= p < q < |order| ==> InOrder(ti, items, order[p], order[q]))
  }

  lemma RequestedEarlier(ti: TableInfo, items: seq<Value>, n: nat)
    requires n < |items|
    ensures forall i, f, k :: Requested(ti, items[..n], i, f, k) <==> i < n && Requested(ti, items, i, f, k)
  {
  }

  lemma KeyRequested(ti: TableInfo, items: seq<Value>, n: nat, keys: seq<SortKey>, p: nat) returns (f: string)
    requires n < |items| && items[n].Obj? && ItemKeys(ti, items[n].fields, keys) && p < |keys|
    ensures f in ti.fieldToCol && ti.fieldToCol[f] == keys[p].col && Requested(ti, items, n, f, Keys(keys)[p])
  {
    assert keys[p] in keys;
    f :| Asks(ti, items[n].fields, f, keys[p]);
  }

  lemma {:induction false} OrderOfSays(ti: TableInfo, items: seq<Value>, order: Order)
    requires OrderOf(ti, items, order)
    ensures OrderSays(ti, items, order)
  {
    if items != [] {
      var n := |items| - 1;
      var front, keys :| OrderOf(ti, items[..n], front) && ItemKeys(ti, items[n].fields, keys) &&
          order == front + Keys(keys);
      OrderOfSays(ti, items[..n], front);
      RequestedEarlier(ti, items, n);
      forall i, f, k | Requested(ti, items, i, f, k) ensures k in order {
        if i == n { LastRequested(ti, items, keys, f, k); }
      }
      forall p | 0 <= p < |order| ensures exists i, f :: Requested(ti, items, i, f, order[p]) {
        if p < |front| {
          assert front[p] in front;
          var i, f :| Requested(ti, items[..n], i, f, front[p]);
          assert Requested(ti, items, i, f, order[p]);
        } else {
          var f := KeyRequested(ti, items, n, keys, p - |front|);
          assert Requested(ti, items, n, f, order[p]);
        }
      }
      forall p, q | 0 <= p < q < |order| ensures InOrder(ti, items, order[p], order[q]) {
        InOrderStep(ti, items, front, keys, order, p, q);
      }
    }
  }

  lemma LastRequested(ti: TableInfo, items: seq<Value>, keys: seq<SortKey>, f: string, k: OrderKey)
    requires items != [] && items[|items| - 1].Obj? && ItemKeys(ti, items[|items| - 1].fields, keys)
    requires Requested(ti, items, |items| - 1, f, k)
    ensures k in Keys(keys)
  {
    var m := items[|items| - 1].fields;
    var key := SortKey(ti.fieldToCol[f], m[f] == Str("DESC"));
    assert Asks(ti, m, f, key) && key in keys;
    var p :| 0 <= p < |keys| && keys[p] == key;
    assert Keys(keys)[p] == k;
  }

  lemma InOrderStep(ti: TableInfo, items: seq<Value>, front: Order, keys: seq<SortKey>, order: Order, p: nat, q: nat)
    requires items != [] && OrderSays(ti, items[..|items| - 1], front)
    requires items[|items| - 1].Obj? && ItemKeys(ti, items[|items| - 1].fields, keys)
    requires order == front + Keys(keys) && p < q < |order|
    ensures InOrder(ti, items, order[p], order[q])
  {
    var n := |items| - 1;
    RequestedEarlier(ti, items, n);
    if q < |front| {
      assert InOrder(ti, items[..n], front[p], front[q]);
      var i, f, j, h :| Requested(ti, items[..n], i, f, front[p]) && Requested(ti, items[..n], j, h, front[q])
                        && (i < j || (i == j && ti.fieldToCol[f].ordinal < ti.fieldToCol[h].ordinal));
      assert Requested(ti, items, i, f, order[p]) && Requested(ti, items, j, h, order[q]);
    } else {
      var h := KeyRequested(ti, items, n, keys, q - |front|);
      if p < |front| {
        assert front[p] in front;
        var i, f :| Requested(ti, items[..n], i, f, front[p]);
        assert Requested(ti, items, i, f, order[p]) && Requested(ti, items, n, h, order[q]);
      } else {
        var f := KeyRequested(ti, items, n, keys, p - |front|);
        assert Requested(ti, items, n, f, order[p]) && Requested(ti, items, n, h, order[q]);
      }
    }
  }

  lemma SameElements(a: seq<SortKey>, b: seq<SortKey>)
    requires a != [] && forall k :: k in a ==> k in b
    ensures b != []
  {
    assert a[0] in a;
  }

  /** Of two ascending lists with the same elements the last elements are the same. */
  lemma LastSame(a: seq<SortKey>, b: seq<SortKey>)
    requires Ascends(a) && Ascends(b) && a != [] && b != [] && forall k :: k in a <==> k in b
    ensures a[|a| - 1] == b[|b| - 1]
  {
    var x, y := a[|a| - 1], b[|b| - 1];
    assert x in a && y in b;
    var i :| 0 <= i < |b| && b[i] == x;
    var j :| 0 <= j < |a| && a[j] == y;
  }

  lemma FrontKeys(a: seq<SortKey>, k: SortKey)
    requires Ascends(a) && a != []
    ensures k in a[..|a| - 1] <==> k in a && k != a[|a| - 1]
  {
    assert a == a[..|a| - 1] + [a[|a| - 1]];
  }

  lemma {:induction false} AscendsDetermined(a: seq<SortKey>, b: seq<SortKey>)
    requires Ascends(a) && Ascends(b) && forall k :: k in a <==> k in b
    ensures a == b
  {
    if a != [] { SameElements(a, b); }
    if b != [] {
      SameElements(b, a);
      LastSame(a, b);
      var front, other := a[..|a| - 1], b[..|b| - 1];
      forall k ensures k in front <==> k in other {
        FrontKeys(a, k);
        FrontKeys(b, k);
      }
      AscendsDetermined(front, other);
      assert a == front + [a[|a| - 1]] && b == other + [b[|b| - 1]];
    }
  }

  /** The argument determines the ORDER BY list: map iteration order and sort stability do not show. */
  lemma {:induction false} OrderDetermined(ti: TableInfo, items: seq<Value>, a: Order, b: Order)
    requires OrderOf(ti, items, a) && OrderOf(ti, items, b)
    ensures a == b
  {
    if items != [] {
      var n := |items| - 1;
      var frontA, keysA :| OrderOf(ti, items[..n], frontA) && ItemKeys(ti, items[n].fields, keysA) &&
          a == frontA + Keys(keysA);
      var frontB, keysB :| OrderOf(ti, items[..n], frontB) && ItemKeys(ti, items[n].fields, keysB) &&
          b == frontB + Keys(keysB);
      OrderDetermined(ti, items[..n], frontA, frontB);
      AscendsDetermined(keysA, keysB);
    }
  }

  /** Puts a key at its place by ordinal. */
  method Insert(keys: seq<SortKey>, k: SortKey) returns (r: seq<SortKey>)
    requires Ascends(keys) && forall h :: h in keys ==> h.col.ordinal != k.col.ordinal
    ensures Ascends(r) && forall h :: h in r <==> h in keys || h == k
  {
    var i := |keys|;
    while i > 0 && keys[i - 1].col.ordinal > k.col.ordinal
      invariant 0 <= i <= |keys|
      invariant i < |keys| ==> k.col.ordinal < keys[i].col.ordinal
    {
      i := i - 1;
    }
    r := keys[..i] + [k] + keys[i..];
    if i > 0 { assert keys[i - 1] in keys; }
    InsertedAt(keys, i, k);
    InsertedMembers(keys, i, k);
  }

  lemma InsertedAt(keys: seq<SortKey>, i: nat, k: SortKey)
    requires i <= |keys| && Ascends(keys)
    requires forall j :: 0 <= j < i ==> keys[j].col.ordinal < k.col.ordinal
    requires forall j :: i <= j < |keys| ==> k.col.ordinal < keys[j].col.ordinal
    ensures Ascends(keys[..i] + [k] + keys[i..])
  {
    var r := keys[..i] + [k] + keys[i..];
    forall p, q | 0 <= p < q < |r| ensures r[p].col.ordinal < r[q].col.ordinal {
      var left := if p < i then keys[p] else if p == i then k else keys[p - 1];
      var right := if q < i then keys[q] else if q == i then k else keys[q - 1];
      assert r[p] == left && r[q] == right;
    }
  }

  lemma InsertedMembers(keys: seq<SortKey>, i: nat, k: SortKey)
    requires i <= |keys|
    ensures forall h :: h in keys[..i] + [k] + keys[i..] <==> h in keys || h == k
  {
    assert keys == keys[..i] + keys[i..];
  }

  /** One order_by object, its fields visited in an arbitrary order. */
  method ItemColumns(ti: TableInfo, m: map<string, Value>) returns (r: Option<seq<SortKey>>)
    requires OrdinalsDistinct(ti)
    ensures r.Some? <==> ItemAccepted(ti, Obj(m))
    ensures r.Some? ==> ItemKeys(ti, m, r.value)
  {
    var keys: seq<SortKey> := [];
    var rest := m.Keys;
    while rest != {}
      invariant rest <= m.Keys
      invariant forall f :: f in m && f !in rest ==> EntryAccepted(ti, m, f)
      invariant Ascends(keys)
      invariant forall k :: k in keys <==> exists f :: f !in rest && Asks(ti, m, f, k)
    {
      var f :| f in rest;
      if !EntryAccepted(ti, m, f) { return None; }
      ghost var before, oldRest := keys, rest;
      rest := rest - {f};
      if !m[f].Null? {
        var k := SortKey(ti.fieldToCol[f], m[f] == Str("DESC"));
        assert Asks(ti, m, f, k);
        keys := Insert(keys, k);
      }
      KeysStep(ti, m, oldRest, f, before, keys);
    }
    assert forall f, k :: Asks(ti, m, f, k) ==> f !in rest;
    return Some(keys);
  }

  lemma KeysStep(ti: TableInfo, m: map<string, Value>, rest: set<string>, f: string, before: seq<SortKey>,
                 after: seq<SortKey>)
    requires f in rest && f in m
    requires forall k :: k in before <==> exists h :: h !in rest && Asks(ti, m, h, k)
    requires forall k :: k in after <==> k in before || Asks(ti, m, f, k)
    ensures forall k :: k in after <==> exists h :: h !in rest - {f} && Asks(ti, m, h, k)
  {
    forall k ensures k in after <==> exists h :: h !in rest - {f} && Asks(ti, m, h, k) {
      if k in after {
        if k in before {
          var h :| h !in rest && Asks(ti, m, h, k);
          assert h !in rest - {f};
        } else {
          assert f !in rest - {f} && Asks(ti, m, f, k);
        }
      }
      if h :| h !in rest - {f} && Asks(ti, m, h, k) {
        assert h == f || h !in rest;
      }
    }
  }

  /** The ORDER BY columns of an order_by argument. It is refused exactly when an entry is neither null nor a readable
      column with a direction; otherwise the columns, all readable, are the requested ones in their directions, by
      object and then by ordinal. */
  method OrderColumns(ti: TableInfo, items: seq<Value>) returns (r: Result<Order>)
    requires OrdinalsDistinct(ti)
    ensures r.Ok? <==> forall i :: 0 <= i < |items| ==>
                         items[i].Obj? && forall f :: f in items[i].fields && !items[i].fields[f].Null? ==>
                           && f in ti.fieldToCol && ti.readable.Some? && ti.fieldToCol[f].name in ti.readable.value
                           && (items[i].fields[f] == Str("ASC") || items[i].fields[f] == Str("DESC"))
    ensures r.Ok? ==> OrderOf(ti, items, r.value) && OrderSays(ti, items, r.value)
    ensures r.Ok? ==> forall k :: k in r.value ==> ti.readable.Some? && k.col in ti.readable.value
  {
    var order: Order := [];
    for i := 0 to |items|
      invariant forall j :: 0 <= j < i ==> ItemAccepted(ti, items[j])
      invariant OrderOf(ti, items[..i], order)
    {
      if !items[i].Obj? { return Err("order_by entries must be objects"); }
      var keys := ItemColumns(ti, items[i].fields);
      if keys.None? {
        assert !ItemAccepted(ti, items[i]);
        return Err("unknown order_by column or direction");
      }
      assert items[..i + 1][..i] == items[..i];
      order := order + Keys(keys.value);
    }
    assert items[..|items|] == items;
    OrderOfSays(ti, items, order);
    forall k | k in order ensures ti.readable.Some? && k.col in ti.readable.value {
      var i, f :| Requested(ti, items, i, f, k);
      assert ItemAccepted(ti, items[i]) && EntryAccepted(ti, items[i].fields, f);
    }
    return Ok(order);
  }

  // ----- identifiers -----

  function Doubled(name: string): string {
    if name == [] then [] else (if name[0] == '`' then "``" else [name[0]]) + Doubled(name[1..])
  }

  /** A backtick-quoted identifier. */
  function QuoteIdent(name: string): string { "`" + Doubled(name) + "`" }

  /** Reads the inside of a quoted identifier: a doubled backtick is one backtick, a single one ends it. */
  function ReadQuoted(s: string): Option<(string, string)> {
    if s == [] then None
    else if s[0] != '`' then
      match ReadQuoted(s[1..]) case None => None case Some((name, rest)) => Some(([s[0]] + name, rest))
    else if |s| >= 2 && s[1] == '`' then
      match ReadQuoted(s[2..]) case None => None case Some((name, rest)) => Some((['`'] + name, rest))
    else Some(([], s[1..]))
  }

  lemma {:induction false} DoubledReads(name: string, rest: string)
    requires rest == [] || rest[0] != '`'
    ensures ReadQuoted(Doubled(name) + "`" + rest) == Some((name, rest))
  {
    var s := Doubled(name) + "`" + rest;
    if name == [] {
      assert s == "`" + rest && s[1..] == rest;
    } else {
      var tail := Doubled(name[1..]) + "`" + rest;
      DoubledReads(name[1..], rest);
      assert name == [name[0]] + name[1..];
      if name[0] == '`' {
        assert s == "``" + tail && s[2..] == tail;
      } else {
        assert s == [name[0]] + tail && s[1..] == tail;
      }
    }
  }

  /** Any name quoted and put before other text is read back as that one identifier: quoting cannot be escaped from. */
  lemma QuoteRoundTrip(name: string, rest: string)
    requires rest == [] || rest[0] != '`'
    ensures QuoteIdent(name)[0] == '`'
    ensures ReadQuoted((QuoteIdent(name) + rest)[1..]) == Some((name, rest))
  {
    DoubledReads(name, rest);
    assert (QuoteIdent(name) + rest)[1..] == Doubled(name) + "`" + rest;
  }
}

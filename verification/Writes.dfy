/** The SET clause of an UPDATE: the client's fields merged with server presets, as assignments in column order. */
module Writes {
  import opened Values
  import opened Catalog
  import opened SqlText
  import opened Claims

  /** A server-forced value: a claim, or a literal when the claim path is empty. */
  datatype Preset = Preset(column: string, claimPath: string, literal: string)

  datatype WriteAccess = WriteAccess(columns: set<string>, presets: seq<Preset>)

  type Assignments = map<string, Value>

  /** The value a preset forces, if the token carries it. */
  function PresetValue(p: Preset, claims: ClaimMap): Option<Value> {
    if p.claimPath == "" then Some(Str(p.literal))
    else
      match LookupClaim(claims, p.claimPath)
      case None => None
      case Some(v) => if ScalarClaim(v) then Some(v) else None
  }

  /** A preset without a claim path forces its literal; another one forces the claim at its path, if the token has it
      and it is a string, a number, a boolean or null. */
  lemma PresetForces(p: Preset, claims: ClaimMap, v: Value)
    ensures PresetValue(p, claims) == Some(v) <==>
              || (p.claimPath == "" && v == Str(p.literal))
              || (p.claimPath != "" && LookupClaim(claims, p.claimPath) == Some(v) &&
                  (v.Str? || v.Float? || v.Bool? || v.Null?))
  {
  }

  predicate Forced(oa: WriteAccess, c: string) { exists p :: p in oa.presets && p.column == c }

  predicate Writable(ti: TableInfo, oa: WriteAccess, field: string) {
    && field in ti.fieldToCol
    && ti.fieldToCol[field].name in oa.columns
    && !Forced(oa, ti.fieldToCol[field].name)
    && !ti.fieldToCol[field].generated
  }

  /** The schema's fields and presets name columns of the table, each at most once. */
  predicate Consistent(ti: TableInfo, oa: WriteAccess) {
    && (forall i, j :: 0 <= i < j < |ti.columns| ==> ti.columns[i].name != ti.columns[j].name)
    && (forall f, h :: f in ti.fieldToCol && h in ti.fieldToCol && ti.fieldToCol[f].name == ti.fieldToCol[h].name ==>
        f == h)
    && (forall f :: f in ti.fieldToCol ==> ti.fieldToCol[f] in ti.columns)
    && (forall i, j :: 0 <= i < j < |oa.presets| ==> oa.presets[i].column != oa.presets[j].column)
    && (forall p :: p in oa.presets ==> exists c :: c in ti.columns && c.name == p.column)
  }

  function FieldColumns(ti: TableInfo, fields: set<string>): set<string> {
    set f | f in fields && f in ti.fieldToCol :: ti.fieldToCol[f].name
  }

  function PresetColumns(presets: seq<Preset>): set<string> { set p | p in presets :: p.column }

  /** The values to write: exactly the client's columns and the preset columns, each with its own value. */
  predicate Merged(ti: TableInfo, oa: WriteAccess, input: map<string, Value>, claims: ClaimMap, byCol: Assignments) {
    && byCol.Keys == FieldColumns(ti, input.Keys) + PresetColumns(oa.presets)
    && (forall p :: p in oa.presets ==> p.column in byCol && Some(byCol[p.column]) == PresetValue(p, claims))
    && (forall f :: f in input && f in ti.fieldToCol ==>
          ti.fieldToCol[f].name in byCol && byCol[ti.fieldToCol[f].name] == BindValue(ti, ti.fieldToCol[f], input[f]))
  }

  predicate AllWritable(ti: TableInfo, oa: WriteAccess, input: map<string, Value>) {
    forall f :: f in input ==> Writable(ti, oa, f)
  }

  predicate AllPresent(presets: seq<Preset>, claims: ClaimMap) {
    forall i :: 0 <= i < |presets| ==> PresetValue(presets[i], claims).Some?
  }

  /** The values of the fields visited so far. */
  predicate ClientUpTo(ti: TableInfo, input: map<string, Value>, rest: set<string>, byCol: Assignments) {
    && byCol.Keys == FieldColumns(ti, input.Keys - rest)
    && forall f :: f in input && f !in rest && f in ti.fieldToCol ==>
         ti.fieldToCol[f].name in byCol && byCol[ti.fieldToCol[f].name] == BindValue(ti, ti.fieldToCol[f], input[f])
  }

  lemma ClientStep(ti: TableInfo, oa: WriteAccess, input: map<string, Value>, rest: set<string>, byCol: Assignments,
                   f: string)
    requires Consistent(ti, oa) && ClientUpTo(ti, input, rest, byCol) && f in rest && f in input && f in ti.fieldToCol
    ensures ClientUpTo(ti, input, rest - {f}, byCol[ti.fieldToCol[f].name := BindValue(ti, ti.fieldToCol[f], input[f])])
  {
    assert FieldColumns(ti, input.Keys - (rest - {f})) == FieldColumns(ti, input.Keys - rest) + {ti.fieldToCol[f].name};
  }

  /** The client's fields by column, visited in an arbitrary order. */
  method ClientValues(ti: TableInfo, oa: WriteAccess, input: map<string, Value>) returns (r: Option<Assignments>)
    requires Consistent(ti, oa)
    ensures r.Some? <==> AllWritable(ti, oa, input)
    ensures r.Some? ==> Merged(ti, oa.(presets := []), input, map[], r.value)
  {
    var byCol: Assignments := map[];
    var rest := input.Keys;
    while rest != {}
      invariant rest <= input.Keys
      invariant forall f :: f in input && f !in rest ==> Writable(ti, oa, f)
      invariant ClientUpTo(ti, input, rest, byCol)
    {
      var f :| f in rest;
      if !Writable(ti, oa, f) { return None; }
      var col := ti.fieldToCol[f];
      ClientStep(ti, oa, input, rest, byCol, f);
      byCol := byCol[col.name := BindValue(ti, col, input[f])];
      rest := rest - {f};
    }
    assert input.Keys - rest == input.Keys;
    return Some(byCol);
  }

  /** The client's values with the first i presets put over them. */
  predicate PresetUpTo(oa: WriteAccess, client: Assignments, claims: ClaimMap, i: nat, byCol: Assignments)
    requires i <= |oa.presets|
  {
    && byCol.Keys == client.Keys + PresetColumns(oa.presets[..i])
    && (forall j :: 0 <= j < i ==>
        oa.presets[j].column in byCol && Some(byCol[oa.presets[j].column]) == PresetValue(oa.presets[j], claims))
    && (forall c :: c in client && c !in PresetColumns(oa.presets) ==> c in byCol && byCol[c] == client[c])
  }

  lemma PresetStep(oa: WriteAccess, client: Assignments, claims: ClaimMap, i: nat, byCol: Assignments, v: Value)
    requires forall i, j :: 0 <= i < j < |oa.presets| ==> oa.presets[i].column != oa.presets[j].column
    requires i < |oa.presets| && PresetUpTo(oa, client, claims, i, byCol) &&
             PresetValue(oa.presets[i], claims) == Some(v)
    ensures PresetUpTo(oa, client, claims, i + 1, byCol[oa.presets[i].column := v])
  {
    var p := oa.presets[i];
    var after := byCol[p.column := v];
    PresetColumnsStep(oa.presets, i);
    assert after.Keys == client.Keys + PresetColumns(oa.presets[..i + 1]);
    forall j | 0 <= j < i + 1
      ensures oa.presets[j].column in after && Some(after[oa.presets[j].column]) == PresetValue(oa.presets[j], claims)
    {
      assert j < i ==> oa.presets[j].column != p.column;
    }
  }

  lemma PresetColumnsStep(presets: seq<Preset>, i: nat)
    requires i < |presets|
    ensures PresetColumns(presets[..i + 1]) == PresetColumns(presets[..i]) + {presets[i].column}
    ensures presets[i].column in PresetColumns(presets)
  {
    assert presets[..i + 1] == presets[..i] + [presets[i]];
    assert presets[i] in presets;
  }

  lemma PresetsMerge(ti: TableInfo, oa: WriteAccess, input: map<string, Value>, claims: ClaimMap, client: Assignments,
                     byCol: Assignments)
    requires AllWritable(ti, oa, input) && Merged(ti, oa.(presets := []), input, map[], client)
    requires PresetUpTo(oa, client, claims, |oa.presets|, byCol)
    ensures Merged(ti, oa, input, claims, byCol)
  {
    assert oa.presets[..|oa.presets|] == oa.presets;
    forall f | f in input
      ensures ti.fieldToCol[f].name in byCol &&
              byCol[ti.fieldToCol[f].name] == BindValue(ti, ti.fieldToCol[f], input[f])
    {
      assert Writable(ti, oa, f);
    }
  }

  /** Client fields, then presets over them; the client can reach no column a preset forces. */
  method MergeValues(ti: TableInfo, oa: WriteAccess, input: map<string, Value>, claims: ClaimMap)
    returns (r: Result<Assignments>)
    requires Consistent(ti, oa)
    ensures r.Ok? <==> AllWritable(ti, oa, input) && AllPresent(oa.presets, claims)
    ensures r.Ok? ==> Merged(ti, oa, input, claims, r.value)
  {
    var client := ClientValues(ti, oa, input);
    if client.None? { return Err("column is not writable"); }
    var byCol := client.value;
    for i := 0 to |oa.presets|
      invariant forall j :: 0 <= j < i ==> PresetValue(oa.presets[j], claims).Some?
      invariant PresetUpTo(oa, client.value, claims, i, byCol)
    {
      var v := PresetValue(oa.presets[i], claims);
      if v.None? { return Err("preset claim is missing or not a scalar"); }
      PresetStep(oa, client.value, claims, i, byCol, v.value);
      byCol := byCol[oa.presets[i].column := v.value];
    }
    PresetsMerge(ti, oa, input, claims, client.value, byCol);
    return Ok(byCol);
  }

  // ----- the SET clause -----

  /** The columns to write with their values, in the table's column order. */
  function Pairs(columns: seq<Column>, byCol: Assignments): seq<(string, Value)> {
    if columns == [] then []
    else
      var c := columns[|columns| - 1].name;
      Pairs(columns[..|columns| - 1], byCol) + if c in byCol then [(c, byCol[c])] else []
  }

  /** Reads the list of a SET clause back. */
  function ParseSet(ts: Text): Option<seq<(string, Value)>> {
    if |ts| >= 3 && ts[0].Ident? && ts[1] == Op("=") && ts[2].Bound? then
      var pair := (ts[0].name, ts[2].v);
      if |ts| == 3 then Some([pair])
      else if ts[3].Comma? then
        match ParseSet(ts[4..]) case Some(rest) => Some([pair] + rest) case None => None
      else None
    else None
  }

  function SetItem(c: string, v: Value): Condition { Condition([Ident(c), Op("="), Hole], [v]) }

  function SetItems(pairs: seq<(string, Value)>): seq<Condition> {
    seq(|pairs|, i requires 0 <= i < |pairs| => SetItem(pairs[i].0, pairs[i].1))
  }

  lemma SetItemBinds(c: string, v: Value)
    ensures Aligned(SetItem(c, v)) && BoundText(SetItem(c, v)) == [Ident(c), Op("="), Bound(v)]
  {
    var ts: Text := [Ident(c), Op("="), Hole];
    assert ts[1..] == [Op("="), Hole] && ts[1..][1..] == [Hole];
    assert Holes([Hole]) == 1 && Holes(ts[1..]) == 1;
    assert Bind([Hole], [v]) == [Bound(v)];
    assert Bind(ts[1..], [v]) == [Op("="), Bound(v)];
  }

  lemma ParseSetOne(c: string, v: Value)
    ensures ParseSet([Ident(c), Op("="), Bound(v)]) == Some([(c, v)])
  {}

  lemma ParseSetMore(c: string, v: Value, ts: Text, rest: seq<(string, Value)>)
    requires ParseSet(ts) == Some(rest)
    ensures ParseSet([Ident(c), Op("="), Bound(v)] + [Comma] + ts) == Some([(c, v)] + rest)
  {
    var whole := [Ident(c), Op("="), Bound(v)] + [Comma] + ts;
    assert whole[4..] == ts;
    assert |ts| > 0;
  }

  lemma SetItemsAligned(pairs: seq<(string, Value)>)
    ensures forall i :: 0 <= i < |pairs| ==> Aligned(SetItems(pairs)[i])
  {
    forall i | 0 <= i < |pairs| ensures Aligned(SetItems(pairs)[i]) { SetItemBinds(pairs[i].0, pairs[i].1); }
  }

  lemma JoinFirst(first: Text, rest: seq<Text>, sep: Text)
    requires rest != []
    ensures Join([first] + rest, sep) == first + sep + Join(rest, sep)
  {
    assert ([first] + rest)[1..] == rest;
  }

  lemma {:induction false} SetItemsParse(pairs: seq<(string, Value)>)
    requires pairs != [] && forall i :: 0 <= i < |pairs| ==> Aligned(SetItems(pairs)[i])
    ensures ParseSet(Join(BoundTexts(SetItems(pairs)), [Comma])) == Some(pairs)
  {
    var (c, v) := pairs[0];
    SetItemBinds(c, v);
    var texts := BoundTexts(SetItems(pairs));
    if |pairs| == 1 {
      ParseSetOne(c, v);
      assert pairs == [(c, v)];
    } else {
      var rest := SetItems(pairs[1..]);
      assert SetItems(pairs)[1..] == rest;
      SetItemsParse(pairs[1..]);
      assert texts == [texts[0]] + BoundTexts(rest);
      JoinFirst(texts[0], BoundTexts(rest), [Comma]);
      ParseSetMore(c, v, Join(BoundTexts(rest), [Comma]), pairs[1..]);
      assert pairs == [(c, v)] + pairs[1..];
    }
  }

  function Names(columns: seq<Column>): set<string> { set i | 0 <= i < |columns| :: columns[i].name }

  lemma NamesStep(columns: seq<Column>)
    requires columns != [] && forall i, j :: 0 <= i < j < |columns| ==> columns[i].name != columns[j].name
    ensures var n := |columns| - 1;
            Names(columns) == Names(columns[..n]) + {columns[n].name} && columns[n].name !in Names(columns[..n])
  {
    var n := |columns| - 1;
    assert forall i :: 0 <= i < n ==> columns[i] == columns[..n][i];
  }

  /** The pairs are the merged values: every column to write exactly once, in column order. */
  lemma {:induction false} PairsExact(columns: seq<Column>, byCol: Assignments)
    requires forall i, j :: 0 <= i < j < |columns| ==> columns[i].name != columns[j].name
    ensures forall c, v :: (c, v) in Pairs(columns, byCol) <==> c in byCol && byCol[c] == v && c in Names(columns)
    ensures forall i, j :: 0 <= i < j < |Pairs(columns, byCol)| ==>
              Pairs(columns, byCol)[i].0 != Pairs(columns, byCol)[j].0
  {
    if columns != [] {
      var n := |columns| - 1;
      PairsExact(columns[..n], byCol);
      var front := Pairs(columns[..n], byCol);
      NamesStep(columns);
      forall i | 0 <= i < |front| ensures front[i].0 != columns[n].name {
        var (d, v) := front[i];
        assert (d, v) in front;
      }
    }
  }

  lemma PairsStep(columns: seq<Column>, byCol: Assignments, i: nat)
    requires i < |columns|
    ensures Pairs(columns[..i + 1], byCol) ==
            if columns[i].name in byCol
            then Pairs(columns[..i], byCol) + [(columns[i].name, byCol[columns[i].name])]
            else Pairs(columns[..i], byCol)
  {
    assert columns[..i + 1][..i] == columns[..i];
  }

  lemma SetItemsStep(pairs: seq<(string, Value)>, c: string, v: Value)
    ensures Texts(SetItems(pairs + [(c, v)])) == Texts(SetItems(pairs)) + [[Ident(c), Op("="), Hole]]
    ensures Arguments(SetItems(pairs + [(c, v)])) == Arguments(SetItems(pairs)) + [v]
  {
    var last := [SetItem(c, v)];
    assert SetItems(pairs + [(c, v)]) == SetItems(pairs) + last;
    ArgumentsConcat(SetItems(pairs), last);
    assert Arguments(last) == [v] + Arguments([]) == [v];
  }

  /** The SET list of the given values: each column with its own value, in column order. */
  method SetList(columns: seq<Column>, byCol: Assignments) returns (c: Condition)
    requires Pairs(columns, byCol) != []
    ensures Aligned(c) && ParseSet(BoundText(c)) == Some(Pairs(columns, byCol))
  {
    var parts: seq<Text> := [];
    var args: seq<Value> := [];
    for i := 0 to |columns|
      invariant parts == Texts(SetItems(Pairs(columns[..i], byCol)))
      invariant args == Arguments(SetItems(Pairs(columns[..i], byCol)))
    {
      var c := columns[i].name;
      PairsStep(columns, byCol, i);
      if c in byCol {
        SetItemsStep(Pairs(columns[..i], byCol), c, byCol[c]);
        parts, args := parts + [[Ident(c), Op("="), Hole]], args + [byCol[c]];
      }
    }
    assert columns[..|columns|] == columns;
    SetItemsAligned(Pairs(columns, byCol));
    SetItemsParse(Pairs(columns, byCol));
    JoinBinds(SetItems(Pairs(columns, byCol)), [Comma]);
    c := Condition(Join(parts, [Comma]), args);
  }

  lemma NothingMerged(ti: TableInfo, oa: WriteAccess, input: map<string, Value>, claims: ClaimMap, byCol: Assignments)
    requires AllWritable(ti, oa, input) && Merged(ti, oa, input, claims, byCol)
    ensures byCol == map[] <==> input.Keys == {} && oa.presets == []
  {
    if input.Keys != {} {
      var f :| f in input;
      assert Writable(ti, oa, f) && ti.fieldToCol[f].name in byCol;
    }
    if oa.presets != [] {
      assert oa.presets[0] in oa.presets && oa.presets[0].column in byCol;
    }
    if byCol != map[] {
      var c :| c in byCol;
      assert c in FieldColumns(ti, input.Keys) || c in PresetColumns(oa.presets);
    }
  }

  /** The client's fields merged with the presets, as a SET list that says exactly that. */
  method SetClause(ti: TableInfo, oa: WriteAccess, input: map<string, Value>, claims: ClaimMap)
    returns (r: Result<(Condition, Assignments)>)
    requires Consistent(ti, oa)
    ensures r.Ok? <==>
            AllWritable(ti, oa, input) && AllPresent(oa.presets, claims) && !(input.Keys == {} && oa.presets == [])
    ensures r.Ok? ==> Merged(ti, oa, input, claims, r.value.1)
    ensures r.Ok? ==> Aligned(r.value.0) && ParseSet(BoundText(r.value.0)) == Some(Pairs(ti.columns, r.value.1))
  {
    var merged := MergeValues(ti, oa, input, claims);
    if merged.Err? { return Err(merged.reason); }
    NothingMerged(ti, oa, input, claims, merged.value);
    if merged.value == map[] { return Err("_set must contain at least one column"); }
    WritesExactlyMerged(ti, oa, input, claims, merged.value);
    var list := SetList(ti.columns, merged.value);
    return Ok((list, merged.value));
  }

  /** What an UPDATE writes to a column is forced by its preset; or else a field of the client asks for it, the role may
      write the column, and the database does not generate it. */
  lemma WritesOnlyGranted(ti: TableInfo, oa: WriteAccess, input: map<string, Value>, claims: ClaimMap,
                          byCol: Assignments, c: string, v: Value)
    requires Consistent(ti, oa) && AllWritable(ti, oa, input) && Merged(ti, oa, input, claims, byCol)
    requires (c, v) in Pairs(ti.columns, byCol)
    ensures || (exists p :: p in oa.presets && p.column == c && PresetValue(p, claims) == Some(v))
            || (c in oa.columns && (forall p :: p in oa.presets ==> p.column != c) &&
                exists f :: f in input && f in ti.fieldToCol && ti.fieldToCol[f].name == c &&
                            !ti.fieldToCol[f].generated && v == BindValue(ti, ti.fieldToCol[f], input[f]))
  {
    WritesExactlyMerged(ti, oa, input, claims, byCol);
    if c in PresetColumns(oa.presets) {
      var p :| p in oa.presets && p.column == c;
    } else {
      var f :| f in input && f in ti.fieldToCol && ti.fieldToCol[f].name == c;
      assert Writable(ti, oa, f);
      assert forall p :: p in oa.presets ==> p.column in PresetColumns(oa.presets);
    }
  }

  /** A field the client may set: it names a column the role may write, which no preset forces and the database does
      not generate. */
  lemma WritableIff(ti: TableInfo, oa: WriteAccess, f: string, v: Value)
    ensures AllWritable(ti, oa, map[f := v]) <==>
              && f in ti.fieldToCol && ti.fieldToCol[f].name in oa.columns && !ti.fieldToCol[f].generated
              && forall p :: p in oa.presets ==> p.column != ti.fieldToCol[f].name
  {
    assert f in map[f := v];
  }

  lemma MergedNames(ti: TableInfo, oa: WriteAccess, input: map<string, Value>, claims: ClaimMap, byCol: Assignments,
                    c: string)
    requires Consistent(ti, oa) && Merged(ti, oa, input, claims, byCol) && c in byCol
    ensures c in Names(ti.columns)
  {
    assert exists col :: col in ti.columns && col.name == c;
  }

  /** The SET list writes exactly the merged values, each column once: no value is dropped, none is added. */
  lemma WritesExactlyMerged(ti: TableInfo, oa: WriteAccess, input: map<string, Value>, claims: ClaimMap,
                            byCol: Assignments)
    requires Consistent(ti, oa) && Merged(ti, oa, input, claims, byCol)
    ensures forall c, v :: (c, v) in Pairs(ti.columns, byCol) <==> c in byCol && byCol[c] == v
    ensures forall i, j :: 0 <= i < j < |Pairs(ti.columns, byCol)| ==>
              Pairs(ti.columns, byCol)[i].0 != Pairs(ti.columns, byCol)[j].0
    ensures byCol != map[] ==> Pairs(ti.columns, byCol) != []
  {
    PairsExact(ti.columns, byCol);
    forall c, v | c in byCol && byCol[c] == v ensures (c, v) in Pairs(ti.columns, byCol) {
      MergedNames(ti, oa, input, claims, byCol, c);
    }
    if byCol != map[] {
      var c :| c in byCol;
      assert (c, byCol[c]) in Pairs(ti.columns, byCol);
    }
  }
}

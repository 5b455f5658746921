/** JWT claim paths: the backtracking lookup over dot splits, and writing a claim at a dot path. */
module Claims {
  import opened Values

  type ClaimMap = map<string, Value>

  // ----- lookup -----

  /** Resolves a dot path: the whole path as a key first, then splits at dots from the right. */
  function LookupClaim(claims: ClaimMap, path: string): Option<Value>
    decreases |path|, |path| + 1
  {
    if path in claims then Some(claims[path]) else LookupSplit(claims, path, |path| - 1)
  }

  /** Tries the splits at positions i, i-1, …, 1. */
  function LookupSplit(claims: ClaimMap, path: string, i: int): Option<Value>
    requires i < |path|
    decreases |path|, if i < 0 then 0 else i
  {
    if i <= 0 then None
    else if path[i] == '.' && path[..i] in claims && claims[path[..i]].Obj? then
      match LookupClaim(claims[path[..i]].fields, path[i + 1..])
      case Some(v) => Some(v)
      case None => LookupSplit(claims, path, i - 1)
    else LookupSplit(claims, path, i - 1)
  }

  /** A claim the driver can bind as one value. */
  predicate ScalarClaim(v: Value) { v.Str? || v.Float? || v.Bool? || v.Null? }

  // ----- what a lookup means -----

  function JoinDots(keys: seq<string>): string
    requires keys != []
  {
    if |keys| == 1 then keys[0] else keys[0] + "." + JoinDots(keys[1..])
  }

  /** Walks nested objects along the keys. */
  function Walk(claims: ClaimMap, keys: seq<string>): Option<Value>
    requires keys != []
    decreases |keys|
  {
    if keys[0] !in claims then None
    else if |keys| == 1 then Some(claims[keys[0]])
    else if claims[keys[0]].Obj? then Walk(claims[keys[0]].fields, keys[1..])
    else None
  }

  /** A way to read the path: keys joined by dots, none but the last of them empty. */
  predicate Splits(path: string, keys: seq<string>) {
    keys != [] && JoinDots(keys) == path && forall i :: 0 <= i < |keys| - 1 ==> keys[i] != ""
  }

  ghost predicate Leads(claims: ClaimMap, path: string, keys: seq<string>) {
    Splits(path, keys) && Walk(claims, keys).Some?
  }

  /** The longest first key wins, then the longest second key, and so on. */
  predicate Preferred(a: seq<string>, b: seq<string>)
    requires a != [] && b != []
  {
    |a[0]| > |b[0]| || (a[0] == b[0] && |a| > 1 && |b| > 1 && Preferred(a[1..], b[1..]))
  }

  /** The chosen reading: it leads to the value and every other reading that leads anywhere is less preferred. */
  ghost predicate BestReading(claims: ClaimMap, path: string, keys: seq<string>, v: Value) {
    Splits(path, keys) && Walk(claims, keys) == Some(v) &&
    forall other :: Leads(claims, path, other) ==> other == keys || Preferred(keys, other)
  }

  lemma SplitHead(path: string, keys: seq<string>)
    requires Splits(path, keys) && |keys| > 1
    ensures var n := |keys[0]|;
            0 < n < |path| && path[n] == '.' && path[..n] == keys[0] && path[n + 1..] == JoinDots(keys[1..])
            && Splits(path[n + 1..], keys[1..])
  {
    assert path == keys[0] + "." + JoinDots(keys[1..]);
  }

  /** Lookup is sound: the value found is that of the preferred reading. */
  lemma {:induction false} LookupFindsBest(claims: ClaimMap, path: string) returns (keys: seq<string>)
    requires LookupClaim(claims, path).Some?
    ensures BestReading(claims, path, keys, LookupClaim(claims, path).value)
    decreases |path|, |path| + 1
  {
    if path in claims {
      keys := [path];
      forall other | Leads(claims, path, other) ensures other == keys || Preferred(keys, other) {
        if |other| > 1 { SplitHead(path, other); } else { assert other == [other[0]]; }
      }
    } else {
      keys := SplitFindsBest(claims, path, |path| - 1);
      forall other | Leads(claims, path, other) ensures other == keys || Preferred(keys, other) {
        assert |other| > 1;
        SplitHead(path, other);
      }
    }
  }

  lemma {:induction false} SplitFindsBest(claims: ClaimMap, path: string, i: int) returns (keys: seq<string>)
    requires i < |path| && LookupSplit(claims, path, i).Some?
    ensures |keys| > 1 && |keys[0]| <= i && Splits(path, keys) && Walk(claims, keys) == LookupSplit(claims, path, i)
    ensures forall other :: Leads(claims, path, other) && |other| > 1 && |other[0]| <= i ==>
              other == keys || Preferred(keys, other)
    decreases |path|, if i < 0 then 0 else i
  {
    var prefix, rest := path[..i], path[i + 1..];
    if path[i] == '.' && prefix in claims && claims[prefix].Obj? && LookupClaim(claims[prefix].fields, rest).Some? {
      var tail := LookupFindsBest(claims[prefix].fields, rest);
      keys := [prefix] + tail;
      assert keys[1..] == tail;
      assert path == prefix + "." + rest;
      forall other | Leads(claims, path, other) && |other| > 1 && |other[0]| <= i
        ensures other == keys || Preferred(keys, other)
      {
        SplitHead(path, other);
        if |other[0]| == i {
          assert Leads(claims[prefix].fields, rest, other[1..]);
          assert other == [other[0]] + other[1..];
          if other != keys {
            assert Preferred(tail, other[1..]);
            PreferredLong(claims[prefix].fields, rest, tail, other[1..]);
          }
        }
      }
    } else {
      keys := SplitFindsBest(claims, path, i - 1);
      forall other | Leads(claims, path, other) && |other| > 1 && |other[0]| <= i
        ensures other == keys || Preferred(keys, other)
      {
        SplitHead(path, other);
        if |other[0]| == i {
          assert Leads(claims[prefix].fields, rest, other[1..]);
          LookupMissesNothing(claims[prefix].fields, rest, other[1..]);
        }
      }
    }
  }

  lemma PreferredLong(claims: ClaimMap, path: string, a: seq<string>, b: seq<string>)
    requires Splits(path, a) && Splits(path, b)
    ensures a != [] && b != []
  {
  }

  /** Lookup is complete: if any reading of the path leads to a value, it finds one. */
  lemma {:induction false} LookupMissesNothing(claims: ClaimMap, path: string, keys: seq<string>)
    requires Leads(claims, path, keys)
    ensures LookupClaim(claims, path).Some?
    decreases |path|, |path| + 1
  {
    if path !in claims {
      SplitHead(path, keys);
      var n := |keys[0]|;
      LookupMissesNothing(claims[keys[0]].fields, path[n + 1..], keys[1..]);
      SplitReaches(claims, path, n, |path| - 1);
    }
  }

  lemma {:induction false} SplitReaches(claims: ClaimMap, path: string, n: int, i: int)
    requires 0 < n <= i < |path|
    requires path[n] == '.' && path[..n] in claims && claims[path[..n]].Obj?
    requires LookupClaim(claims[path[..n]].fields, path[n + 1..]).Some?
    ensures LookupSplit(claims, path, i).Some?
    decreases i
  {
    if n < i { SplitReaches(claims, path, n, i - 1); }
  }

  /** Claim lookup succeeds exactly when some split of the path at dots leads through nested objects to a
      value, and then returns the value of the split with the longest first key at each level. */
  lemma LookupIsBacktrackingSearch(claims: ClaimMap, path: string)
    ensures LookupClaim(claims, path).Some? <==> exists keys :: Leads(claims, path, keys)
    ensures LookupClaim(claims, path).Some? ==>
            exists keys :: BestReading(claims, path, keys, LookupClaim(claims, path).value)
  {
    if LookupClaim(claims, path).Some? {
      var keys := LookupFindsBest(claims, path);
      assert Leads(claims, path, keys);
    }
    if exists keys :: Leads(claims, path, keys) {
      var keys :| Leads(claims, path, keys);
      LookupMissesNothing(claims, path, keys);
    }
  }

  // ----- writing a claim -----

  predicate NoDot(s: string) { '.' !in s }

  /** strings.Split(path, "."): at least one segment, none with a dot. */
  function SplitDots(path: string): (parts: seq<string>)
    ensures parts != [] && JoinDots(parts) == path && forall p :: p in parts ==> NoDot(p)
  {
    if path == "" then [""]
    else
      var tail := SplitDots(path[1..]);
      if path[0] == '.' then
        assert JoinDots([""] + tail) == "" + "." + JoinDots(([""] + tail)[1..]);
        [""] + tail
      else
        var parts := [[path[0]] + tail[0]] + tail[1..];
        assert parts[1..] == tail[1..];
        assert path == [path[0]] + path[1..];
        assert tail[0] in tail && forall c :: c in parts[0] ==> c == path[0] || c in tail[0];
        assert forall p :: p in parts ==> p == parts[0] || p in tail;
        parts
  }

  /** The claims after writing a value at the path, creating nested objects as needed; a value in the
      way that is not an object is replaced by one. */
  function SetAt(claims: ClaimMap, parts: seq<string>, v: Value): ClaimMap
    requires parts != []
    decreases |parts|
  {
    if |parts| == 1 then claims[parts[0] := v]
    else
      var next := if parts[0] in claims && claims[parts[0]].Obj? then claims[parts[0]].fields else map[];
      claims[parts[0] := Obj(SetAt(next, parts[1..], v))]
  }

  function SetClaimPath(claims: ClaimMap, path: string, v: Value): ClaimMap { SetAt(claims, SplitDots(path), v) }

  /** No claim name, at any depth, contains a dot. */
  predicate DotFree(claims: ClaimMap) { DotFreeValue(Obj(claims)) }

  predicate DotFreeValue(v: Value) {
    v.Obj? ==> forall k | k in v.fields :: NoDot(k) && DotFreeValue(v.fields[k])
  }

  /** No claim name at the top level contains a dot. */
  predicate DotFreeTop(claims: ClaimMap) { forall k :: k in claims ==> NoDot(k) }

  lemma {:induction false} SplitWithoutDots(claims: ClaimMap, first: string, rest: string, i: int)
    requires DotFreeTop(claims) && NoDot(first) && 0 <= i < |first + "." + rest|
    ensures LookupSplit(claims, first + "." + rest, i) ==
            if first != "" && i >= |first| && first in claims && claims[first].Obj?
            then LookupClaim(claims[first].fields, rest)
            else None
    decreases i
  {
    var path := first + "." + rest;
    var n := |first|;
    if i > 0 {
      SplitWithoutDots(claims, first, rest, i - 1);
      if i == n {
        assert path[..i] == first && path[i + 1..] == rest;
      } else if i > n {
        assert path[..i][n] == '.';
        assert path[..i] !in claims;
      } else {
        assert path[i] == first[i] && path[i] in first;
      }
    }
  }

  /** Over claim names without dots a dotted path is resolved one segment at a time; a path starting
      with a dot resolves to nothing. */
  lemma LookupSegment(claims: ClaimMap, first: string, rest: string)
    requires DotFreeTop(claims) && NoDot(first)
    ensures LookupClaim(claims, first + "." + rest) ==
            if first != "" && first in claims && claims[first].Obj? then LookupClaim(claims[first].fields, rest)
            else None
  {
    var path := first + "." + rest;
    assert path[|first|] == '.';
    assert path !in claims;
    SplitWithoutDots(claims, first, rest, |path| - 1);
  }

  predicate InnerSegmentsNonEmpty(parts: seq<string>) { forall i :: 0 <= i < |parts| - 1 ==> parts[i] != "" }

  lemma {:induction false} SetThenLookupParts(claims: ClaimMap, parts: seq<string>, v: Value)
    requires parts != [] && DotFree(claims) && forall p :: p in parts ==> NoDot(p)
    ensures LookupClaim(SetAt(claims, parts, v), JoinDots(parts)) == if InnerSegmentsNonEmpty(parts) then Some(v)
                                                                     else None
    decreases |parts|
  {
    if |parts| > 1 {
      var next := if parts[0] in claims && claims[parts[0]].Obj? then claims[parts[0]].fields else map[];
      assert forall p :: p in parts[1..] ==> p in parts;
      SetThenLookupParts(next, parts[1..], v);
      LookupSegment(SetAt(claims, parts, v), parts[0], JoinDots(parts[1..]));
      assert InnerSegmentsNonEmpty(parts) <==> parts[0] != "" && InnerSegmentsNonEmpty(parts[1..]) by {
        assert forall i :: 0 <= i < |parts| - 2 ==> parts[1..][i] == parts[i + 1];
        if parts[0] != "" && InnerSegmentsNonEmpty(parts[1..]) {
          forall i | 0 <= i < |parts| - 1 ensures parts[i] != "" { if i > 0 { assert parts[1..][i - 1] != ""; } }
        }
      }
    }
  }

  /** Set-then-lookup round trip: over claim names without dots, a value written at a path is found again
      at that path exactly when every segment except possibly the last is non-empty. */
  lemma SetThenLookupIff(claims: ClaimMap, path: string, v: Value)
    requires DotFree(claims)
    ensures LookupClaim(SetClaimPath(claims, path, v), path) == Some(v) <==> InnerSegmentsNonEmpty(SplitDots(path))
  {
    SetThenLookupParts(claims, SplitDots(path), v);
  }

  /** A claim written under ".x" is not found under ".x". */
  lemma LeadingDotIsLost(v: Value)
    ensures LookupClaim(SetClaimPath(map[], ".x", v), ".x") == None
  {
    assert SplitDots("x") == ["x"] by { assert "x"[1..] == ""; assert SplitDots("") == [""]; }
    assert ".x"[1..] == "x";
    assert SplitDots(".x") == ["", "x"];
    assert !InnerSegmentsNonEmpty(SplitDots(".x")) by { assert ["", "x"][0] == ""; }
    SetThenLookupParts(map[], SplitDots(".x"), v);
  }

  /** Lookups under other first segments are unaffected. */
  lemma SetLeavesOthers(claims: ClaimMap, path: string, v: Value, other: string)
    requires DotFree(claims) && SplitDots(other)[0] != SplitDots(path)[0]
    ensures LookupClaim(SetClaimPath(claims, path, v), other) == LookupClaim(claims, other)
  {
    var parts, set' := SplitDots(other), SetClaimPath(claims, path, v);
    if |parts| > 1 {
      LookupSegment(claims, parts[0], JoinDots(parts[1..]));
      LookupSegment(set', parts[0], JoinDots(parts[1..]));
    } else {
      assert parts[0] == other;
      NoDotLookup(claims, other, |other| - 1);
      NoDotLookup(set', other, |other| - 1);
    }
  }

  lemma {:induction false} NoDotLookup(claims: ClaimMap, path: string, i: int)
    requires NoDot(path) && i < |path|
    ensures LookupSplit(claims, path, i) == None
    decreases if i < 0 then 0 else i
  {
    if i > 0 {
      assert path[i] in path;
      NoDotLookup(claims, path, i - 1);
    }
  }
}

/** Row-filter expressions: cutting out ":jwt.<path>" references and rendering them as placeholders. */
module Filters {
  import opened Values
  import opened Claims
  import opened SqlText

  // ----- references -----

  predicate NameChar(c: char) { 'a' <= c <= 'z' || 'A' <= c <= 'Z' || '0' <= c <= '9' || c == '_' }

  const PREFIX := ":jwt."

  /** A claim path: names joined by single dots. */
  predicate IsClaimPath(p: string) {
    && p != [] && NameChar(p[0]) && NameChar(p[|p| - 1])
    && forall i :: 0 <= i < |p| ==> PathChar(p, i)
  }

  /** A name character, or a dot with one behind it. */
  predicate PathChar(p: string, i: nat)
    requires i < |p|
  {
    NameChar(p[i]) || (p[i] == '.' && i + 1 < |p| && NameChar(p[i + 1]))
  }

  /** A reference starts at position i. */
  predicate StartsReference(s: string, i: nat) {
    && i + 5 < |s|
    && s[i] == ':' && s[i + 1] == 'j' && s[i + 2] == 'w' && s[i + 3] == 't' && s[i + 4] == '.' && NameChar(s[i + 5])
  }

  predicate ContainsReference(s: string) { exists i: nat :: i < |s| && StartsReference(s, i) }

  /** The text would lengthen a claim path it follows. */
  predicate ExtendsPath(t: string) { (t != [] && NameChar(t[0])) || (|t| > 1 && t[0] == '.' && NameChar(t[1])) }

  /** The characters from i to e form a claim path. */
  predicate PathBetween(s: string, i: nat, e: nat)
    requires e <= |s|
  {
    && i < e && NameChar(s[i]) && NameChar(s[e - 1])
    && forall k :: i <= k < e ==> PathCharAt(s, k, e)
  }

  /** A name character, or a dot with one behind it. */
  predicate PathCharAt(s: string, k: nat, e: nat)
    requires k < e <= |s|
  {
    NameChar(s[k]) || (s[k] == '.' && k + 1 < e && NameChar(s[k + 1]))
  }

  lemma SliceIsPath(s: string, i: nat, e: nat)
    requires e <= |s| && PathBetween(s, i, e)
    ensures IsClaimPath(s[i..e])
  {
    var p := s[i..e];
    forall k | 0 <= k < |p| ensures PathChar(p, k) {
      assert p[k] == s[i + k] && PathCharAt(s, i + k, e);
      if k + 1 < |p| { assert p[k + 1] == s[i + k + 1]; }
    }
  }

  /** End of the longest claim path starting at i, where a name character stands. */
  function PathEnd(s: string, i: nat): (e: nat)
    requires i < |s| && NameChar(s[i])
    ensures i < e <= |s| && PathBetween(s, i, e)
    ensures !(e < |s| && NameChar(s[e])) && !(e + 1 < |s| && s[e] == '.' && NameChar(s[e + 1]))
    decreases |s| - i
  {
    if i + 1 < |s| && NameChar(s[i + 1]) then PathEnd(s, i + 1)
    else if i + 2 < |s| && s[i + 1] == '.' && NameChar(s[i + 2]) then
      var e := PathEnd(s, i + 2);
      assert PathCharAt(s, i, e) && PathCharAt(s, i + 1, e);
      e
    else i + 1
  }

  /** The leftmost reference at or after `from`, if any. */
  function NextReference(s: string, from: nat): (r: Option<nat>)
    requires from <= |s|
    ensures r.Some? ==> from <= r.value < |s| && StartsReference(s, r.value)
    ensures forall i: nat :: from <= i < (if r.Some? then r.value else |s|) ==> !StartsReference(s, i)
    decreases |s| - from
  {
    if from == |s| then None
    else if StartsReference(s, from) then Some(from)
    else NextReference(s, from + 1)
  }

  /** One match of the reference pattern: the whole match and its claim path. */
  datatype Match = Match(start: nat, pathStart: nat, end: nat)

  /** All matches, leftmost first, each as long as possible, without overlap. */
  function FindAll(s: string, from: nat): (ms: seq<Match>)
    requires from <= |s|
    decreases |s| - from
  {
    match NextReference(s, from)
    case None => []
    case Some(b) => [Match(b, b + 5, PathEnd(s, b + 5))] + FindAll(s, PathEnd(s, b + 5))
  }

  // ----- the syntax of references, spelt out -----

  /** The ASCII codes of digits, capital and small letters and the underscore. */
  predicate WordCode(n: int) { 48 <= n <= 57 || 65 <= n <= 90 || 97 <= n <= 122 || n == 95 }

  /** A reference is ":jwt." with a word character behind it. */
  lemma ReferenceIff(s: string, i: nat)
    ensures StartsReference(s, i) <==> i + 5 < |s| && s[i..i + 5] == ":jwt." && WordCode(s[i + 5] as int)
    ensures PREFIX == ":jwt."
  {
    if i + 5 < |s| {
      var t := s[i..i + 5];
      assert t[0] == s[i] && t[1] == s[i + 1] && t[2] == s[i + 2] && t[3] == s[i + 3] && t[4] == s[i + 4];
    }
  }

  lemma PathCharShift(p: string, k: nat, i: nat)
    requires k + i < |p|
    ensures PathChar(p[k..], i) <==> PathChar(p, k + i)
  {
    assert p[k..][i] == p[k + i];
    if i + 1 < |p[k..]| { assert p[k..][i + 1] == p[k + i + 1]; }
  }

  /** A claim path read from its first character. */
  lemma PathFirst(p: string)
    requires |p| > 1
    ensures IsClaimPath(p) <==> NameChar(p[0]) && if p[1] == '.' then IsClaimPath(p[2..]) else IsClaimPath(p[1..])
  {
    var k := if p[1] == '.' then 2 else 1;
    var q := p[k..];
    if IsClaimPath(q) && NameChar(p[0]) {
      assert NameChar(q[0]) && q[0] == p[k] && q[|q| - 1] == p[|p| - 1];
      forall i | 0 <= i < |p| ensures PathChar(p, i) {
        if i >= k {
          assert PathChar(q, i - k);
          PathCharShift(p, k, i - k);
        }
      }
    }
    if IsClaimPath(p) {
      assert PathChar(p, 1);
      assert |q| > 0 && q[0] == p[k] && q[|q| - 1] == p[|p| - 1];
      forall i | 0 <= i < |q| ensures PathChar(q, i) {
        assert PathChar(p, k + i);
        PathCharShift(p, k, i);
      }
    }
  }

  predicate IsName(name: string) { name != "" && forall c :: c in name ==> WordCode(c as int) }

  /** Every name is made of one or more word characters. */
  predicate AllNames(names: seq<string>) { forall i :: 0 <= i < |names| ==> IsName(names[i]) }

  lemma AllNamesFirst(name: string, names: seq<string>)
    ensures AllNames([name] + names) <==> IsName(name) && AllNames(names)
  {
    var all := [name] + names;
    assert all[0] == name && forall i :: 0 <= i < |names| ==> all[i + 1] == names[i];
  }

  lemma NameGrows(c: char, name: string)
    ensures IsName([c]) <==> NameChar(c)
    ensures name != "" ==> (IsName([c] + name) <==> NameChar(c) && IsName(name))
  {
    assert c in [c];
    var longer := [c] + name;
    assert longer[0] == c && longer[1..] == name;
    assert forall d :: d in longer <==> d == c || d in name;
    if IsName(longer) { assert c in longer && forall d :: d in name ==> d in longer; }
  }

  /** A claim path is one or more names joined by dots. */
  lemma {:induction false} ClaimPathIff(p: string)
    ensures IsClaimPath(p) <==> AllNames(SplitDots(p))
    decreases |p|, 1
  {
    var parts := SplitDots(p);
    if p == "" || p[0] == '.' {
      assert parts[0] == "" && !IsName(parts[0]);
    } else {
      var tail := SplitDots(p[1..]);
      assert parts == [[p[0]] + tail[0]] + tail[1..] && tail == [tail[0]] + tail[1..];
      AllNamesFirst([p[0]] + tail[0], tail[1..]);
      AllNamesFirst(tail[0], tail[1..]);
      NameGrows(p[0], tail[0]);
      if |p| == 1 {
        assert p[1..] == "" && tail == [""] && [p[0]] + tail[0] == [p[0]] == p;
      } else {
        PathFirst(p);
        RestOfPath(p);
        if p[1] == '.' { assert [p[0]] + tail[0] == [p[0]]; }
      }
    }
  }

  lemma {:induction false} RestOfPath(p: string)
    requires |p| > 1
    ensures var tail := SplitDots(p[1..]);
            if p[1] == '.' then tail[0] == "" && (IsClaimPath(p[2..]) <==> AllNames(tail[1..]))
            else tail[0] != "" && (IsClaimPath(p[1..]) <==> AllNames(tail))
    decreases |p|, 0
  {
    assert p[1..][0] == p[1];
    if p[1] == '.' {
      assert p[1..][1..] == p[2..];
      ClaimPathIff(p[2..]);
      assert SplitDots(p[1..]) == [""] + SplitDots(p[2..]);
    } else {
      ClaimPathIff(p[1..]);
    }
  }

  // ----- compiled filters -----

  datatype Filter = Filter(segments: seq<string>, paths: seq<string>)

  /** The expression a filter was cut from. */
  function Interleave(segments: seq<string>, paths: seq<string>): string
    requires |segments| == |paths| + 1
  {
    if paths == [] then segments[0] else segments[0] + PREFIX + paths[0] + Interleave(segments[1..], paths[1..])
  }

  /** No static segment holds a reference, every path is a claim path, and none could be longer. */
  predicate Canonical(segments: seq<string>, paths: seq<string>) {
    && |segments| == |paths| + 1 && !ContainsReference(segments[0])
    && (paths != [] ==>
          IsClaimPath(paths[0]) && Canonical(segments[1..], paths[1..]) &&
          !ExtendsPath(Interleave(segments[1..], paths[1..])))
  }

  /** What cutting at all matches gives. */
  function CutFrom(s: string, from: nat): (f: Filter)
    requires from <= |s|
    ensures |f.segments| == |f.paths| + 1
    decreases |s| - from
  {
    match NextReference(s, from)
    case None => Filter([s[from..]], [])
    case Some(b) =>
      var e := PathEnd(s, b + 5);
      var rest := CutFrom(s, e);
      Filter([s[from..b]] + rest.segments, [s[b + 5..e]] + rest.paths)
  }

  /** Cutting at all matches loses nothing and leaves no reference uncut. */
  lemma {:induction false} CutIsCanonical(s: string, from: nat)
    requires from <= |s|
    ensures var f := CutFrom(s, from); Interleave(f.segments, f.paths) == s[from..] && Canonical(f.segments, f.paths)
    decreases |s| - from
  {
    match NextReference(s, from)
    case None =>
      NoReferenceInSlice(s, from, |s|);
      assert s[from..|s|] == s[from..];
    case Some(b) =>
      var e := PathEnd(s, b + 5);
      var rest := CutFrom(s, e);
      CutIsCanonical(s, e);
      CutStep(s, from, b, e, rest);
      assert CutFrom(s, from) == Filter([s[from..b]] + rest.segments, [s[b + 5..e]] + rest.paths);
  }

  lemma CutStep(s: string, from: nat, b: nat, e: nat, rest: Filter)
    requires from <= b && b + 5 < |s| && e == PathEndAt(s, b)
    requires StartsReference(s, b) && forall i: nat :: from <= i < b ==> !StartsReference(s, i)
    requires |rest.segments| == |rest.paths| + 1 && Canonical(rest.segments, rest.paths)
    requires Interleave(rest.segments, rest.paths) == s[e..]
    ensures var f := Filter([s[from..b]] + rest.segments, [s[b + 5..e]] + rest.paths);
            Canonical(f.segments, f.paths) && Interleave(f.segments, f.paths) == s[from..]
  {
    NoReferenceInSlice(s, from, b);
    SliceIsPath(s, b + 5, e);
    var f := Filter([s[from..b]] + rest.segments, [s[b + 5..e]] + rest.paths);
    assert f.segments[1..] == rest.segments && f.paths[1..] == rest.paths;
    assert s[b..b + 5] == PREFIX;
    assert s[from..] == s[from..b] + s[b..b + 5] + s[b + 5..e] + s[e..];
  }

  function PathEndAt(s: string, b: nat): (e: nat)
    requires b + 5 < |s|
    ensures NameChar(s[b + 5]) ==> b + 5 < e <= |s| && PathBetween(s, b + 5, e)
    ensures NameChar(s[b + 5]) ==> !ExtendsPath(s[e..])
  {
    if NameChar(s[b + 5]) then PathEnd(s, b + 5) else 0
  }

  lemma NoReferenceInSlice(s: string, from: nat, to: nat)
    requires from <= to <= |s| && forall i: nat :: from <= i < to ==> !StartsReference(s, i)
    ensures !ContainsReference(s[from..to])
  {
    var t := s[from..to];
    forall i: nat | i < |t| ensures !StartsReference(t, i) {
      assert !StartsReference(s, from + i);
    }
  }

  /** Unicode white space. */
  predicate IsSpace(c: char) {
    || '\U{0009}' <= c <= '\U{000D}' || c == ' ' || c == '\U{0085}' || c == '\U{00A0}' || c == '\U{1680}'
    || '\U{2000}' <= c <= '\U{200A}' || c == '\U{2028}' || c == '\U{2029}' || c == '\U{202F}' || c == '\U{205F}' ||
       c == '\U{3000}'
  }

  predicate Blank(s: string) { forall i :: 0 <= i < |s| ==> IsSpace(s[i]) }

  /** ASCII text is blank when it is made of tabs, line ends, form feeds and blanks only. */
  lemma BlankIff(s: string)
    requires forall c :: c in s ==> c as int < 128
    ensures Blank(s) <==> forall c :: c in s ==> c as int in {9, 10, 11, 12, 13, 32}
  {
    if Blank(s) {
      forall c | c in s ensures c as int in {9, 10, 11, 12, 13, 32} {
        var i :| 0 <= i < |s| && s[i] == c;
        assert IsSpace(s[i]);
      }
    } else {
      var i :| 0 <= i < |s| && !IsSpace(s[i]);
      assert s[i] in s;
    }
  }

  /** Compiling a filter loses nothing: interleaving the segments with the references gives back the
      expression, there is one more segment than paths, and the cut is canonical. Only a blank
      expression is refused. */
  method CompileFilter(expr: string) returns (f: Result<Filter>)
    ensures f.Ok? <==> !Blank(expr)
    ensures f.Ok? ==> |f.value.segments| == |f.value.paths| + 1 && Interleave(f.value.segments, f.value.paths) == expr
    ensures f.Ok? ==> Canonical(f.value.segments, f.value.paths)
  {
    if Blank(expr) { return Err("filter is empty"); }
    var cut := CutAll(expr);
    CutIsCanonical(expr, 0);
    assert expr[0..] == expr;
    return Ok(cut);
  }

  /** Cuts at every match, left to right. */
  method CutAll(expr: string) returns (f: Filter)
    ensures f == CutFrom(expr, 0)
  {
    var segments: seq<string> := [];
    var paths: seq<string> := [];
    var prev := 0;
    var matches := FindAll(expr, prev);
    ghost var whole := CutFrom(expr, prev);
    assert Joined(segments, paths, whole) == whole;
    assert matches[0..] == matches;
    for j := 0 to |matches|
      invariant 0 <= prev <= |expr|
      invariant Scanned(expr, prev, matches[j..], segments, paths, whole)
    {
      var m := matches[j];
      ScanStep(expr, prev, matches, j, segments, paths, whole);
      segments := segments + [expr[prev..m.start]];
      paths := paths + [expr[m.pathStart..m.end]];
      prev := m.end;
    }
    assert matches[|matches|..] == [];
    CutAtEnd(expr, prev, segments, paths, whole);
    segments := segments + [expr[prev..]];
    f := Filter(segments, paths);
  }

  function Joined(segments: seq<string>, paths: seq<string>, f: Filter): Filter {
    Filter(segments + f.segments, paths + f.paths)
  }

  /** Up to prev the text is cut into the segments and paths; from there the matches ms remain. */
  predicate Scanned(s: string, prev: nat, ms: seq<Match>, segments: seq<string>, paths: seq<string>, whole: Filter)
    requires prev <= |s|
  {
    ms == FindAll(s, prev) && Joined(segments, paths, CutFrom(s, prev)) == whole
  }

  lemma CutAtMatch(s: string, prev: nat, ms: seq<Match>, segments: seq<string>, paths: seq<string>, whole: Filter)
    requires prev <= |s| && Scanned(s, prev, ms, segments, paths, whole) && ms != []
    ensures var m := ms[0];
            prev <= m.start <= m.pathStart <= m.end <= |s| &&
            Scanned(s, m.end, ms[1..], segments + [s[prev..m.start]], paths + [s[m.pathStart..m.end]], whole)
  {
    var m := ms[0];
    assert NextReference(s, prev) == Some(m.start);
    JoinedShift(segments, paths, s[prev..m.start], s[m.pathStart..m.end], CutFrom(s, m.end));
    assert ms[1..] == FindAll(s, m.end);
  }

  lemma ScanStep(s: string, prev: nat, ms: seq<Match>, j: nat, segments: seq<string>, paths: seq<string>, whole: Filter)
    requires prev <= |s| && j < |ms| && Scanned(s, prev, ms[j..], segments, paths, whole)
    ensures var m := ms[j];
            prev <= m.start <= m.pathStart <= m.end <= |s| &&
            Scanned(s, m.end, ms[j + 1..], segments + [s[prev..m.start]], paths + [s[m.pathStart..m.end]], whole)
  {
    CutAtMatch(s, prev, ms[j..], segments, paths, whole);
    assert ms[j..][1..] == ms[j + 1..];
  }

  lemma JoinedShift(segments: seq<string>, paths: seq<string>, segment: string, path: string, f: Filter)
    ensures Joined(segments, paths, Filter([segment] + f.segments, [path] + f.paths)) ==
            Joined(segments + [segment], paths + [path], f)
  {
    Associates(segments, [segment], f.segments);
    Associates(paths, [path], f.paths);
  }

  lemma CutAtEnd(s: string, prev: nat, segments: seq<string>, paths: seq<string>, whole: Filter)
    requires prev <= |s| && Scanned(s, prev, [], segments, paths, whole)
    ensures Filter(segments + [s[prev..]], paths) == whole
  {
    assert NextReference(s, prev) == None;
    assert CutFrom(s, prev) == Filter([s[prev..]], []);
    assert paths + [] == paths;
  }

  // ----- the canonical cut is unique -----

  lemma ReferenceAfterSegment(seg: string, path: string, rest: string)
    requires IsClaimPath(path)
    ensures StartsReference(seg + PREFIX + path + rest, |seg|)
  {
    var s := seg + PREFIX + path + rest;
    assert forall d :: 0 <= d < 5 ==> s[|seg| + d] == PREFIX[d];
    assert s[|seg| + 5] == path[0];
  }

  /** A reference that starts inside a reference-free segment cannot be completed by the text of the
      reference that follows it. */
  lemma FirstReference(seg: string, path: string, rest: string, i: nat)
    requires !ContainsReference(seg) && IsClaimPath(path) && i < |seg|
    ensures !StartsReference(seg + PREFIX + path + rest, i)
  {
    var s := seg + PREFIX + path + rest;
    assert s[|seg|] == PREFIX[0] == ':';
    assert !StartsReference(seg, i);
    assert forall k :: 0 <= k < |seg| ==> s[k] == seg[k];
    if |seg| <= i + 5 {
      var d := |seg| - i;
      assert s[i + d] == ':';
    }
  }

  /** A claim path that stops before text that would lengthen it is the longest one. */
  lemma LongestPathUnique(p: string, t: string, q: string, u: string)
    requires p + t == q + u && IsClaimPath(p) && IsClaimPath(q) && !ExtendsPath(t) && !ExtendsPath(u)
    ensures p == q && t == u
  {
    if |p| < |q| { LongerPathExtends(p, t, q, u); }
    if |q| < |p| { LongerPathExtends(q, u, p, t); }
    assert p == (p + t)[..|p|] && q == (q + u)[..|q|];
    assert t == (p + t)[|p|..] && u == (q + u)[|q|..];
  }

  lemma LongerPathExtends(p: string, t: string, q: string, u: string)
    requires p + t == q + u && IsClaimPath(q) && |p| < |q|
    ensures ExtendsPath(t)
  {
    var s := p + t;
    assert forall k :: 0 <= k < |q| ==> s[k] == q[k];
    assert forall k :: 0 <= k < |t| ==> s[|p| + k] == t[k];
    assert t[0] == q[|p|] && PathChar(q, |p|);
    if !NameChar(q[|p|]) { assert t[1] == q[|p| + 1]; }
  }

  /** The canonical cut of an expression is unique: any two canonical filters that interleave to the same
      expression are the same, so nothing about the result depends on how the matches were found. */
  lemma {:induction false} CanonicalIsUnique(f: Filter, g: Filter)
    requires Canonical(f.segments, f.paths) && Canonical(g.segments, g.paths)
    requires Interleave(f.segments, f.paths) == Interleave(g.segments, g.paths)
    ensures f == g
    decreases |f.paths|
  {
    SameFirstSegment(f, g);
    if f.paths == [] {
      assert f.segments == [f.segments[0]] && g.segments == [g.segments[0]];
    } else {
      var s := Interleave(f.segments, f.paths);
      var n := |f.segments[0]|;
      var ft, gt := Interleave(f.segments[1..], f.paths[1..]), Interleave(g.segments[1..], g.paths[1..]);
      assert s[n + 5..] == f.paths[0] + ft && s[n + 5..] == g.paths[0] + gt;
      LongestPathUnique(f.paths[0], ft, g.paths[0], gt);
      CanonicalIsUnique(Filter(f.segments[1..], f.paths[1..]), Filter(g.segments[1..], g.paths[1..]));
      assert f.segments == [f.segments[0]] + f.segments[1..] && g.segments == [g.segments[0]] + g.segments[1..];
      assert f.paths == [f.paths[0]] + f.paths[1..] && g.paths == [g.paths[0]] + g.paths[1..];
    }
  }

  lemma SameFirstSegment(f: Filter, g: Filter)
    requires Canonical(f.segments, f.paths) && Canonical(g.segments, g.paths)
    requires Interleave(f.segments, f.paths) == Interleave(g.segments, g.paths)
    ensures f.segments[0] == g.segments[0] && (f.paths == [] <==> g.paths == [])
  {
    FirstSegmentBound(f, g);
    FirstSegmentBound(g, f);
    var s := Interleave(f.segments, f.paths);
    assert f.segments[0] == s[..|f.segments[0]|] && g.segments[0] == s[..|g.segments[0]|];
  }

  lemma FirstSegmentBound(f: Filter, g: Filter)
    requires Canonical(f.segments, f.paths) && Canonical(g.segments, g.paths)
    requires Interleave(f.segments, f.paths) == Interleave(g.segments, g.paths)
    ensures |g.segments[0]| <= |f.segments[0]|
    ensures f.paths == [] ==> g.paths == []
  {
    var s := Interleave(f.segments, f.paths);
    if f.paths != [] {
      var ft := Interleave(f.segments[1..], f.paths[1..]);
      ReferenceAfterSegment(f.segments[0], f.paths[0], ft);
      if |f.segments[0]| < |g.segments[0]| {
        if g.paths == [] {
          assert ContainsReference(g.segments[0]);
        } else {
          FirstReference(g.segments[0], g.paths[0], Interleave(g.segments[1..], g.paths[1..]), |f.segments[0]|);
        }
      }
    } else if g.paths != [] {
      ReferenceAfterSegment(g.segments[0], g.paths[0], Interleave(g.segments[1..], g.paths[1..]));
    }
  }

  // ----- rendering -----

  /** A claim that can be bound: a scalar or an array of scalars. */
  predicate Bindable(v: Value) {
    if v.List? then forall i :: 0 <= i < |v.items| ==> ScalarClaim(v.items[i]) else ScalarClaim(v)
  }

  /** What can be bound: a string, a number, a boolean or null, or an array of such. */
  lemma BindableIff(v: Value)
    ensures Bindable(v) <==>
              || v.Str? || v.Float? || v.Bool? || v.Null?
              || (v.List? && forall x :: x in v.items ==> x.Str? || x.Float? || x.Bool? || x.Null?)
  {
    if v.List? && Bindable(v) {
      forall x | x in v.items ensures x.Str? || x.Float? || x.Bool? || x.Null? {
        var i :| 0 <= i < |v.items| && v.items[i] == x;
      }
    }
  }

  /** Every referenced claim is present and bindable. */
  predicate Renders(paths: seq<string>, claims: ClaimMap) {
    forall i :: 0 <= i < |paths| ==>
        LookupClaim(claims, paths[i]).Some? && Bindable(LookupClaim(claims, paths[i]).value)
  }

  /** The tokens of a static piece of SQL text; a reference stands between tokens. */
  type Lexer = string -> Text

  /** One more segment than references, and no placeholder in the static text. */
  predicate Spliceable(lex: Lexer, f: Filter) {
    |f.segments| == |f.paths| + 1 && forall i :: 0 <= i < |f.segments| ==> NoHoles(lex(f.segments[i]))
  }

  /** The values one claim binds. */
  function BoundValues(v: Value): seq<Value> { if v.List? then v.items else [v] }

  /** A claim in place: one value, or a comma-separated list; an empty list is NULL, which matches nothing. */
  function ClaimText(v: Value): Text {
    if v.List? then (if v.items == [] then [KwNull] else ListText(v.items)) else [Bound(v)]
  }

  function ListText(items: seq<Value>): Text
    requires items != []
  {
    var n := |items| - 1;
    if n == 0 then [Bound(items[0])] else ListText(items[..n]) + [Comma, Bound(items[n])]
  }

  /** The filter with every reference replaced by its claim's values, in place. */
  function Filled(lex: Lexer, segments: seq<string>, paths: seq<string>, claims: ClaimMap): Text
    requires |segments| == |paths| + 1 && Renders(paths, claims)
  {
    var n := |paths|;
    if n == 0 then lex(segments[0])
    else Filled(lex, segments[..n], paths[..n - 1], claims) + ClaimText(LookupClaim(claims, paths[n - 1]).value) +
         lex(segments[n])
  }

  /** Text and arguments collected so far, bound, are exactly `bound`. */
  predicate Says(text: Text, args: seq<Value>, bound: Text) { Holes(text) == |args| && Bind(text, args) == bound }

  lemma SayText(text: Text, args: seq<Value>, bound: Text, more: Text)
    requires Says(text, args, bound) && NoHoles(more)
    ensures Says(text + more, args, bound + more)
  {
    BindNoHoles(more);
    BindConcat(text, args, more, []);
    assert args + [] == args;
  }

  lemma SayArgument(text: Text, args: seq<Value>, bound: Text, v: Value)
    requires Says(text, args, bound)
    ensures Says(text + [Hole], args + [v], bound + [Bound(v)])
  {
    assert Bind([Hole], [v]) == [Bound(v)];
    BindConcat(text, args, [Hole], [v]);
  }

  /** Renders the filter for one request. It fails exactly when a referenced claim is missing or cannot be
      bound; otherwise every placeholder is bound to the value of the reference it replaced. */
  method FilterSql(lex: Lexer, f: Filter, claims: ClaimMap) returns (r: Result<Condition>)
    requires Spliceable(lex, f)
    ensures r.Ok? <==> Renders(f.paths, claims)
    ensures r.Ok? ==> Aligned(r.value) && BoundText(r.value) == Filled(lex, f.segments, f.paths, claims)
  {
    var text := lex(f.segments[0]);
    var args: seq<Value> := [];
    BindNoHoles(text);
    for i := 0 to |f.paths|
      invariant Rendered(lex, f, claims, i, text, args)
    {
      var v := LookupClaim(claims, f.paths[i]);
      RendersStep(f.paths, i, claims);
      if v.None? || !Bindable(v.value) { return Err("claim is missing or cannot be bound"); }
      text, args := AppendClaim(text, args, v.value, Filled(lex, f.segments[..i + 1], f.paths[..i], claims));
      SegmentStep(lex, f, claims, i, text, args);
      text := text + lex(f.segments[i + 1]);
    }
    assert f.paths[..|f.paths|] == f.paths && f.segments[..|f.segments|] == f.segments;
    return Ok(Condition(text, args));
  }

  /** The first i references are rendered, each with the segment behind it. */
  predicate Rendered(lex: Lexer, f: Filter, claims: ClaimMap, i: nat, text: Text, args: seq<Value>)
    requires |f.segments| == |f.paths| + 1 && i <= |f.paths|
  {
    Renders(f.paths[..i], claims) && Says(text, args, Filled(lex, f.segments[..i + 1], f.paths[..i], claims))
  }

  lemma RendersStep(paths: seq<string>, i: nat, claims: ClaimMap)
    requires i < |paths| && Renders(paths[..i], claims)
    ensures var v := LookupClaim(claims, paths[i]);
            && (Renders(paths[..i + 1], claims) <==> v.Some? && Bindable(v.value))
            && (Renders(paths, claims) ==> v.Some? && Bindable(v.value))
  {
    assert forall j :: 0 <= j < i ==> paths[..i][j] == paths[..i + 1][j];
  }

  /** With a claim rendered, the segment behind it completes what is said so far. */
  lemma SegmentStep(lex: Lexer, f: Filter, claims: ClaimMap, i: nat, text: Text, args: seq<Value>)
    requires |f.segments| == |f.paths| + 1 && i < |f.paths| && Renders(f.paths[..i + 1], claims) &&
             Renders(f.paths[..i], claims)
    requires LookupClaim(claims, f.paths[i]).Some? && NoHoles(lex(f.segments[i + 1]))
    requires Says(text, args, Filled(lex, f.segments[..i + 1], f.paths[..i], claims) +
                  ClaimText(LookupClaim(claims, f.paths[i]).value))
    ensures Rendered(lex, f, claims, i + 1, text + lex(f.segments[i + 1]), args)
  {
    FilledStep(lex, f.segments, f.paths, i, claims);
    SayText(text, args,
            Filled(lex, f.segments[..i + 1], f.paths[..i], claims) + ClaimText(LookupClaim(claims, f.paths[i]).value),
            lex(f.segments[i + 1]));
  }

  lemma FilledStep(lex: Lexer, segments: seq<string>, paths: seq<string>, i: nat, claims: ClaimMap)
    requires |segments| == |paths| + 1 && i < |paths| && Renders(paths[..i + 1], claims) && Renders(paths[..i], claims)
    ensures LookupClaim(claims, paths[i]).Some?
    ensures Filled(lex, segments[..i + 2], paths[..i + 1], claims) ==
            Filled(lex, segments[..i + 1], paths[..i], claims) + ClaimText(LookupClaim(claims, paths[i]).value) +
            lex(segments[i + 1])
  {
    assert paths[..i + 1][i] == paths[i];
    assert segments[..i + 2][..i + 1] == segments[..i + 1] && paths[..i + 1][..i] == paths[..i];
  }

  /** Renders one claim behind the text so far. */
  method AppendClaim(text: Text, args: seq<Value>, v: Value, ghost before: Text) returns (t: Text, a: seq<Value>)
    requires Bindable(v) && Says(text, args, before)
    ensures Says(t, a, before + ClaimText(v)) && a == args + BoundValues(v)
  {
    if v.List? {
      if v.items == [] {
        SayText(text, args, before, [KwNull]);
        return text + [KwNull], args;
      }
      t, a := AppendList(text, args, v.items, before);
    } else {
      SayArgument(text, args, before, v);
      return text + [Hole], args + [v];
    }
  }

  /** "?, ?, …": one placeholder per element. */
  method AppendList(text: Text, args: seq<Value>, items: seq<Value>, ghost before: Text)
    returns (t: Text, a: seq<Value>)
    requires items != [] && Says(text, args, before)
    ensures Says(t, a, before + ListText(items)) && a == args + items
  {
    t, a := text, args;
    for j := 0 to |items|
      invariant a == args + items[..j] && Says(t, a, ListUpTo(before, items, j))
    {
      ListStep(before, items, j);
      if j > 0 {
        SayText(t, a, ListUpTo(before, items, j), [Comma]);
        t := t + [Comma];
      }
      SayArgument(t, a, ListUpTo(before, items, j) + (if j > 0 then [Comma] else []), items[j]);
      assert args + items[..j] + [items[j]] == args + items[..j + 1];
      t, a := t + [Hole], a + [items[j]];
    }
    assert items[..|items|] == items;
  }

  /** What is said with the first j elements of a list behind `before`. */
  function ListUpTo(before: Text, items: seq<Value>, j: nat): Text
    requires j <= |items|
  {
    if j == 0 then before else before + ListText(items[..j])
  }

  lemma ListStep(before: Text, items: seq<Value>, j: nat)
    requires j < |items|
    ensures ListUpTo(before, items, j + 1) == ListUpTo(before, items, j) + (if j > 0 then [Comma] else []) +
            [Bound(items[j])]
  {
    assert items[..j + 1][..j] == items[..j];
  }
}

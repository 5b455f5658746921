/** The query-depth check: a memoised, cycle-guarded traversal against the nesting of the inlined document. */
module Depth {
  import opened Values

  datatype Selection =
    | Field(sub: seq<Selection>)
    | Inline(sub: seq<Selection>)
    | Spread(name: Option<string>)

  /** A selection set; an absent one is empty. */
  type SelectionSet = seq<Selection>

  datatype Definition =
    | Operation(sel: SelectionSet)
    | Fragment(name: Option<string>, sel: SelectionSet)
    | OtherDefinition

  type Fragments = map<string, SelectionSet>

  // ----- the inlined document -----

  /** A field of the fully inlined document with its own fields. */
  datatype Tree = Node(children: seq<Tree>)

  /** Acyclicity witness: every fragment spreads only fragments of smaller rank. */
  type Rank = map<string, nat>

  predicate SpreadsBelow(frags: Fragments, rank: Rank, ss: SelectionSet, r: nat)
  {
    forall i :: 0 <= i < |ss| ==> SelectionBelow(frags, rank, ss[i], r)
  }

  predicate SelectionBelow(frags: Fragments, rank: Rank, s: Selection, r: nat) {
    match s
    case Field(sub) => SpreadsBelow(frags, rank, sub, r)
    case Inline(sub) => SpreadsBelow(frags, rank, sub, r)
    case Spread(name) => name.Some? && name.value in frags ==> name.value in rank && rank[name.value] < r
  }

  ghost predicate Acyclic(frags: Fragments, rank: Rank) {
    forall n | n in frags :: n in rank && SpreadsBelow(frags, rank, frags[n], rank[n])
  }

  /** The fields left when every fragment is replaced by its body; an undefined one contributes nothing. */
  function Inlined(frags: Fragments, rank: Rank, ss: SelectionSet, r: nat): seq<Tree>
    requires (forall n | n in frags :: n in rank && SpreadsBelow(frags, rank, frags[n], rank[n])) &&
             SpreadsBelow(frags, rank, ss, r)
    decreases r, ss
  {
    if ss == [] then []
    else Inlined(frags, rank, ss[..|ss| - 1], r) + InlinedOne(frags, rank, ss[|ss| - 1], r)
  }

  function InlinedOne(frags: Fragments, rank: Rank, s: Selection, r: nat): seq<Tree>
    requires (forall n | n in frags :: n in rank && SpreadsBelow(frags, rank, frags[n], rank[n])) &&
             SelectionBelow(frags, rank, s, r)
    decreases r, s
  {
    match s
    case Field(sub) => [Node(Inlined(frags, rank, sub, r))]
    case Inline(sub) => Inlined(frags, rank, sub, r)
    case Spread(name) =>
      if name.Some? && name.value in frags then Inlined(frags, rank, frags[name.value], rank[name.value]) else []
  }

  /** The inlined document does not depend on the witness chosen. */
  lemma {:induction false} InlinedIsUnique(frags: Fragments, rank: Rank, ss: SelectionSet, r: nat, rank': Rank, r': nat)
    requires Acyclic(frags, rank) && SpreadsBelow(frags, rank, ss, r)
    requires Acyclic(frags, rank') && SpreadsBelow(frags, rank', ss, r')
    ensures Inlined(frags, rank, ss, r) == Inlined(frags, rank', ss, r')
    decreases r, ss
  {
    if ss != [] {
      InlinedIsUnique(frags, rank, ss[..|ss| - 1], r, rank', r');
      assert SelectionBelow(frags, rank, ss[|ss| - 1], r) && SelectionBelow(frags, rank', ss[|ss| - 1], r');
      match ss[|ss| - 1]
      case Field(sub) => InlinedIsUnique(frags, rank, sub, r, rank', r');
      case Inline(sub) => InlinedIsUnique(frags, rank, sub, r, rank', r');
      case Spread(name) =>
        if name.Some? && name.value in frags {
          InlinedIsUnique(frags, rank, frags[name.value], rank[name.value], rank', rank'[name.value]);
        }
    }
  }

  function Max(a: nat, b: nat): nat { if a < b then b else a }

  /** How deeply fields are nested. */
  function Nesting(ts: seq<Tree>): nat {
    if ts == [] then 0 else Max(Nesting(ts[..|ts| - 1]), 1 + Nesting(ts[|ts| - 1].children))
  }

  lemma {:induction false} NestingConcat(a: seq<Tree>, b: seq<Tree>)
    ensures Nesting(a + b) == Max(Nesting(a), Nesting(b))
  {
    if b == [] {
      assert a + b == a;
    } else {
      assert (a + b)[..|a + b| - 1] == a + b[..|b| - 1];
      NestingConcat(a, b[..|b| - 1]);
    }
  }

  // ----- sizes -----

  function Size(ss: SelectionSet): nat {
    if ss == [] then 0 else Size(ss[..|ss| - 1]) + SelectionSize(ss[|ss| - 1])
  }

  function SelectionSize(s: Selection): nat {
    1 + match s case Field(sub) => Size(sub) case Inline(sub) => Size(sub) case Spread(_) => 0
  }

  /** All selections of a set, at every depth, one by one. */
  function Listed(ss: SelectionSet): seq<Selection> {
    if ss == [] then []
    else
      var last := ss[|ss| - 1];
      Listed(ss[..|ss| - 1]) + [last] +
      match last case Field(sub) => Listed(sub) case Inline(sub) => Listed(sub) case Spread(_) => []
  }

  /** The size is the number of selections. */
  lemma {:induction false} SizeIsCount(ss: SelectionSet)
    ensures Size(ss) == |Listed(ss)|
  {
    if ss != [] {
      SizeIsCount(ss[..|ss| - 1]);
      match ss[|ss| - 1]
      case Field(sub) => SizeIsCount(sub);
      case Inline(sub) => SizeIsCount(sub);
      case Spread(_) =>
    }
  }

  lemma {:induction false} SizeOfElement(ss: SelectionSet, i: nat)
    requires i < |ss|
    ensures SelectionSize(ss[i]) <= Size(ss)
  {
    if i < |ss| - 1 { SizeOfElement(ss[..|ss| - 1], i); }
  }

  /** The total size of the bodies of some fragments. */
  ghost function BodySizes(frags: Fragments, names: set<string>): nat
    requires names <= frags.Keys
  {
    if names == {} then 0 else var n :| n in names; Size(frags[n]) + BodySizes(frags, names - {n})
  }

  lemma {:induction false} BodySizesRemove(frags: Fragments, names: set<string>, n: string)
    requires names <= frags.Keys && n in names
    ensures BodySizes(frags, names) == Size(frags[n]) + BodySizes(frags, names - {n})
  {
    var m :| m in names && BodySizes(frags, names) == Size(frags[m]) + BodySizes(frags, names - {m});
    if m != n {
      BodySizesRemove(frags, names - {m}, n);
      BodySizesRemove(frags, names - {n}, m);
      assert names - {m} - {n} == names - {n} - {m};
    }
  }

  lemma {:induction false} BodySizesUnion(frags: Fragments, a: set<string>, b: set<string>)
    requires a + b <= frags.Keys && a !! b
    ensures BodySizes(frags, a + b) == BodySizes(frags, a) + BodySizes(frags, b)
  {
    if b == {} {
      assert a + b == a;
    } else {
      var n :| n in b;
      BodySizesRemove(frags, a + b, n);
      BodySizesRemove(frags, b, n);
      assert a + b - {n} == a + (b - {n});
      BodySizesUnion(frags, a, b - {n});
    }
  }

  // ----- the state of a traversal -----

  /** Finished fragments with their depths, fragments being traversed, and selections looked at so far. */
  datatype State = State(fragDepth: map<string, nat>, computing: set<string>, visits: nat)

  ghost predicate Valid(frags: Fragments, s: State) {
    s.fragDepth.Keys <= frags.Keys && s.computing <= frags.Keys && s.fragDepth.Keys !! s.computing
  }

  /** Fragments neither finished nor being traversed: what recursion through fragments uses up. */
  ghost function Untouched(frags: Fragments, s: State): nat { |frags.Keys - s.fragDepth.Keys - s.computing| }

  /** From s to t the traversal looked at `size` selections plus, once each, the bodies of the
      fragments it finished in between. */
  ghost predicate Worked(frags: Fragments, s: State, t: State, size: nat) {
    && Valid(frags, s) && Valid(frags, t)
    && t.computing == s.computing && s.fragDepth.Keys <= t.fragDepth.Keys
    && t.visits == s.visits + size + BodySizes(frags, t.fragDepth.Keys - s.fragDepth.Keys)
  }

  lemma NothingWorked(frags: Fragments, s: State)
    requires Valid(frags, s)
    ensures Worked(frags, s, s, 0)
  {
    assert s.fragDepth.Keys - s.fragDepth.Keys == {};
  }

  lemma WorkedThen(frags: Fragments, s: State, t: State, u: State, a: nat, b: nat)
    requires Worked(frags, s, t, a) && Worked(frags, t, u, b)
    ensures Worked(frags, s, u, a + b)
  {
    var first, second := t.fragDepth.Keys - s.fragDepth.Keys, u.fragDepth.Keys - t.fragDepth.Keys;
    BodySizesUnion(frags, first, second);
    assert u.fragDepth.Keys - s.fragDepth.Keys == first + second;
  }

  lemma UntouchedShrinks(frags: Fragments, s: State, t: State, a: nat)
    requires Worked(frags, s, t, a)
    ensures Untouched(frags, t) <= Untouched(frags, s)
  {
    SubsetSize(frags.Keys - t.fragDepth.Keys - t.computing, frags.Keys - s.fragDepth.Keys - s.computing);
  }

  /** Looking at one more selection. */
  lemma LookedAt(frags: Fragments, s: State, t: State, a: nat)
    requires Worked(frags, s, t, a)
    ensures var u := t.(visits := t.visits + 1);
            Worked(frags, s, u, a + 1) && Valid(frags, u) && Untouched(frags, u) <= Untouched(frags, s)
  {
    UntouchedShrinks(frags, s, t, a);
  }

  function Enter(s: State, name: string): State { s.(computing := s.computing + {name}) }

  function Leave(s: State, name: string, d: nat): State {
    s.(computing := s.computing - {name}, fragDepth := s.fragDepth[name := d])
  }

  /** Entering an untouched fragment uses one of them up. */
  lemma EnterShrinks(frags: Fragments, s: State, name: string)
    requires Valid(frags, s) && name in frags && name !in s.fragDepth && name !in s.computing
    ensures Valid(frags, Enter(s, name)) && Untouched(frags, Enter(s, name)) < Untouched(frags, s)
  {
    var before := frags.Keys - s.fragDepth.Keys - s.computing;
    assert frags.Keys - s.fragDepth.Keys - Enter(s, name).computing == before - {name};
  }

  /** A fragment's body is paid for by the fragment itself. */
  lemma FragmentWorked(frags: Fragments, s: State, t: State, name: string, d: nat)
    requires name in frags && name !in s.fragDepth && name !in s.computing && Valid(frags, s)
    requires Worked(frags, Enter(s, name), t, Size(frags[name]))
    ensures Worked(frags, s, Leave(t, name, d), 0)
  {
    var new' := t.fragDepth.Keys - s.fragDepth.Keys;
    BodySizesRemove(frags, new' + {name}, name);
    assert new' + {name} - {name} == new';
    assert Leave(t, name, d).fragDepth.Keys - s.fragDepth.Keys == new' + {name};
    assert s.computing + {name} - {name} == s.computing;
  }

  // ----- what the memo means -----

  ghost predicate MemoCorrect(frags: Fragments, rank: Rank, s: State)
    requires Acyclic(frags, rank)
  {
    forall n | n in s.fragDepth && n in frags :: s.fragDepth[n] == Nesting(Inlined(frags, rank, frags[n], rank[n]))
  }

  /** What makes depths below rank r meaningful: no cycles, a correct memo, and only fragments of at
      least that rank in progress. */
  ghost predicate Sound(frags: Fragments, rank: Rank, r: nat, s: State) {
    Acyclic(frags, rank) && MemoCorrect(frags, rank, s) && forall n | n in s.computing :: n in rank && r <= rank[n]
  }

  lemma SoundEnter(frags: Fragments, rank: Rank, r: nat, s: State, name: string)
    requires Sound(frags, rank, r, s) && name in frags && name in rank && rank[name] < r
    ensures Sound(frags, rank, rank[name], Enter(s, name))
  {
  }

  lemma SoundLeave(frags: Fragments, rank: Rank, r: nat, s: State, t: State, name: string, d: nat)
    requires Sound(frags, rank, r, s) && name in frags && name !in s.computing && name in rank
    requires Sound(frags, rank, rank[name], t) && t.computing == s.computing + {name}
    requires d == Nesting(Inlined(frags, rank, frags[name], rank[name]))
    ensures Sound(frags, rank, r, Leave(t, name, d))
  {
  }

  /** If s is sound for a set below rank r, then so is t, and the set's depth is its inlined nesting. */
  ghost predicate SetCorrect(frags: Fragments, rank: Rank, r: nat, ss: SelectionSet, s: State, t: State, d: nat) {
    Sound(frags, rank, r, s) && SpreadsBelow(frags, rank, ss, r) ==>
      Sound(frags, rank, r, t) && d == Nesting(Inlined(frags, rank, ss, r))
  }

  ghost predicate SelectionCorrect(frags: Fragments, rank: Rank, r: nat, x: Selection, s: State, t: State, d: nat) {
    Sound(frags, rank, r, s) && SelectionBelow(frags, rank, x, r) ==>
      Sound(frags, rank, r, t) && d == Nesting(InlinedOne(frags, rank, x, r))
  }

  lemma CorrectStep(frags: Fragments, rank: Rank, r: nat, ss: SelectionSet, i: nat, s: State, t: State, u: State,
                    d: nat, e: nat)
    requires i < |ss| && SetCorrect(frags, rank, r, ss[..i], s, t, d)
    requires SelectionCorrect(frags, rank, r, ss[i], t.(visits := t.visits + 1), u, e)
    ensures SetCorrect(frags, rank, r, ss[..i + 1], s, u, Max(d, e))
  {
    assert ss[..i + 1][..i] == ss[..i];
    if Sound(frags, rank, r, s) && SpreadsBelow(frags, rank, ss[..i + 1], r) {
      assert forall j :: 0 <= j < i ==> ss[..i][j] == ss[..i + 1][j];
      assert SpreadsBelow(frags, rank, ss[..i], r);
      assert ss[..i + 1][i] == ss[i];
      NestingConcat(Inlined(frags, rank, ss[..i], r), InlinedOne(frags, rank, ss[i], r));
    }
  }

  lemma FragmentCorrect(frags: Fragments, rank: Rank, r: nat, s: State, t: State, name: string, d: nat)
    requires name in frags && name !in s.computing && t.computing == s.computing + {name}
    requires SetCorrect(frags, rank, if name in rank then rank[name] else 0, frags[name], Enter(s, name), t, d)
    ensures SelectionCorrect(frags, rank, r, Spread(Some(name)), s, Leave(t, name, d), d)
  {
    if Sound(frags, rank, r, s) && SelectionBelow(frags, rank, Spread(Some(name)), r) {
      SoundEnter(frags, rank, r, s, name);
      SoundLeave(frags, rank, r, s, t, name, d);
    }
  }

  /** A memoised fragment, one in progress (impossible below its rank) or an undefined one. */
  lemma KnownFragmentCorrect(frags: Fragments, rank: Rank, r: nat, s: State, name: string)
    requires Valid(frags, s)
    ensures name in s.fragDepth ==> SelectionCorrect(frags, rank, r, Spread(Some(name)), s, s, s.fragDepth[name])
    ensures name in s.computing || name !in frags ==> SelectionCorrect(frags, rank, r, Spread(Some(name)), s, s, 0)
  {
  }

  lemma WrapperCorrect(frags: Fragments, rank: Rank, r: nat, sub: SelectionSet, s: State, t: State, d: nat)
    requires SetCorrect(frags, rank, r, sub, s, t, d)
    ensures SelectionCorrect(frags, rank, r, Field(sub), s, t, 1 + d) &&
            SelectionCorrect(frags, rank, r, Inline(sub), s, t, d)
  {
    if Sound(frags, rank, r, s) && SpreadsBelow(frags, rank, sub, r) {
      var one := [Node(Inlined(frags, rank, sub, r))];
      assert one[..0] == [];
      assert Nesting(one) == Max(Nesting([]), 1 + d);
    }
  }

  lemma SizeStep(ss: SelectionSet, i: nat)
    requires i < |ss|
    ensures Size(ss[..i + 1]) == Size(ss[..i]) + SelectionSize(ss[i]) && SelectionSize(ss[i]) <= Size(ss)
  {
    assert ss[..i + 1][..i] == ss[..i];
    SizeOfElement(ss, i);
  }

  // ----- the traversal -----

  class Checker {
    const fragments: Fragments
    var fragDepth: map<string, nat>
    var computing: set<string>
    ghost var visits: nat

    ghost function Now(): State
      reads this
    {
      State(fragDepth, computing, visits)
    }

    constructor (fragments: Fragments)
      ensures this.fragments == fragments && Now() == State(map[], {}, 0)
    {
      this.fragments := fragments;
      fragDepth, computing, visits := map[], {}, 0;
    }

    /** The depth of a selection set: terminates on every document, cycles included. Without cycles
        it is the field nesting of the inlined set. */
    method DepthOfSet(ss: SelectionSet, ghost rank: Rank, ghost r: nat) returns (max: nat)
      requires Valid(fragments, Now())
      modifies this
      ensures Worked(fragments, old(Now()), Now(), Size(ss))
      ensures SetCorrect(fragments, rank, r, ss, old(Now()), Now(), max)
      decreases Untouched(fragments, Now()), Size(ss), 1
    {
      max := 0;
      NothingWorked(fragments, Now());
      for i := 0 to |ss|
        invariant Worked(fragments, old(Now()), Now(), Size(ss[..i]))
        invariant SetCorrect(fragments, rank, r, ss[..i], old(Now()), Now(), max)
      {
        SizeStep(ss, i);
        ghost var before := Now();
        visits := visits + 1;
        ghost var looked := Now();
        assert looked == before.(visits := before.visits + 1);
        LookedAt(fragments, old(Now()), before, Size(ss[..i]));
        var d := DepthOfSelection(ss[i], rank, r);
        ghost var after := Now();
        WorkedThen(fragments, old(Now()), looked, after, Size(ss[..i]) + 1, SelectionSize(ss[i]) - 1);
        CorrectStep(fragments, rank, r, ss, i, old(Now()), before, after, max, d);
        if d > max { max := d; }
        assert SetCorrect(fragments, rank, r, ss[..i + 1], old(Now()), after, max);
      }
      assert ss[..|ss|] == ss;
    }

    /** The switch over one selection. */
    method DepthOfSelection(s: Selection, ghost rank: Rank, ghost r: nat) returns (d: nat)
      requires Valid(fragments, Now())
      modifies this
      ensures Worked(fragments, old(Now()), Now(), SelectionSize(s) - 1)
      ensures SelectionCorrect(fragments, rank, r, s, old(Now()), Now(), d)
      decreases Untouched(fragments, Now()), SelectionSize(s), 0
    {
      match s {
        case Field(sub) =>
          var inner := DepthOfSet(sub, rank, r);
          d := 1 + inner;
          WrapperCorrect(fragments, rank, r, sub, old(Now()), Now(), inner);
        case Inline(sub) =>
          d := DepthOfSet(sub, rank, r);
          WrapperCorrect(fragments, rank, r, sub, old(Now()), Now(), d);
        case Spread(name) =>
          d := 0;
          NothingWorked(fragments, Now());
          if name.Some? { d := FragmentDepth(name.value, rank, r); }
      }
    }

    /** The depth of a fragment, computed once; a fragment already in progress counts as 0. */
    method FragmentDepth(name: string, ghost rank: Rank, ghost r: nat) returns (d: nat)
      requires Valid(fragments, Now())
      modifies this
      ensures Worked(fragments, old(Now()), Now(), 0)
      ensures SelectionCorrect(fragments, rank, r, Spread(Some(name)), old(Now()), Now(), d)
      decreases Untouched(fragments, Now()), 0, 0
    {
      NothingWorked(fragments, Now());
      KnownFragmentCorrect(fragments, rank, r, Now(), name);
      if name in fragDepth { return fragDepth[name]; }
      if name in computing { return 0; }
      if name !in fragments { return 0; }
      EnterShrinks(fragments, Now(), name);
      ghost var start := Now();
      computing := computing + {name};
      assert Now() == Enter(start, name);
      d := DepthOfSet(fragments[name], rank, if name in rank then rank[name] else 0);
      ghost var done := Now();
      computing := computing - {name};
      fragDepth := fragDepth[name := d];
      assert Now() == Leave(done, name, d);
      FragmentWorked(fragments, start, done, name, d);
      FragmentCorrect(fragments, rank, r, start, done, name, d);
    }
  }

  // ----- the whole check -----

  /** Fragments by name; of definitions with the same name the last one counts. */
  function FragmentsOf(doc: seq<Definition>): Fragments {
    if doc == [] then map[]
    else
      var last := doc[|doc| - 1];
      var m := FragmentsOf(doc[..|doc| - 1]);
      if last.Fragment? && last.name.Some? then m[last.name.value := last.sel] else m
  }

  /** A fragment of the document defines the name; the last one to do so counts. */
  predicate Defines(doc: seq<Definition>, i: int, name: string) {
    0 <= i < |doc| && doc[i].Fragment? && doc[i].name == Some(name)
  }

  /** The collected fragments are the document's own: a name is there exactly when a definition defines it, with the
      selections of the last one that does. */
  lemma {:induction false} FragmentsAreDefined(doc: seq<Definition>, name: string)
    ensures name in FragmentsOf(doc) <==> exists i :: Defines(doc, i, name)
    ensures forall i :: Defines(doc, i, name) && (forall j :: i < j ==> !Defines(doc, j, name)) ==>
              name in FragmentsOf(doc) && FragmentsOf(doc)[name] == doc[i].sel
  {
    if doc != [] {
      var n := |doc| - 1;
      FragmentsAreDefined(doc[..n], name);
      assert forall i :: Defines(doc[..n], i, name) <==> i < n && Defines(doc, i, name);
      if !Defines(doc, n, name) && exists i :: Defines(doc, i, name) {
        var i :| Defines(doc, i, name);
        assert Defines(doc[..n], i, name);
      }
    }
  }

  lemma FragmentsAreOwn(doc: seq<Definition>)
    ensures forall name :: name in FragmentsOf(doc) <==> exists i :: Defines(doc, i, name)
    ensures forall i, name :: Defines(doc, i, name) && (forall j :: i < j ==> !Defines(doc, j, name)) ==>
              name in FragmentsOf(doc) && FragmentsOf(doc)[name] == doc[i].sel
  {
    forall name ensures name in FragmentsOf(doc) <==> exists i :: Defines(doc, i, name) {
      FragmentsAreDefined(doc, name);
    }
    forall i, name | Defines(doc, i, name) && forall j :: i < j ==> !Defines(doc, j, name)
      ensures name in FragmentsOf(doc) && FragmentsOf(doc)[name] == doc[i].sel
    {
      FragmentsAreDefined(doc, name);
    }
  }

  function DefinitionSize(d: Definition): nat {
    match d case Operation(sel) => Size(sel) case Fragment(_, sel) => Size(sel) case OtherDefinition => 0
  }

  /** The number of selections written in the document. */
  function DocumentSize(doc: seq<Definition>): nat {
    if doc == [] then 0 else DocumentSize(doc[..|doc| - 1]) + DefinitionSize(doc[|doc| - 1])
  }

  /** All selections of a document. */
  function ListedIn(doc: seq<Definition>): seq<Selection> {
    if doc == [] then []
    else
      var last := doc[|doc| - 1];
      ListedIn(doc[..|doc| - 1]) + if last.OtherDefinition? then [] else Listed(last.sel)
  }

  lemma {:induction false} DocumentSizeIsCount(doc: seq<Definition>)
    ensures DocumentSize(doc) == |ListedIn(doc)|
  {
    if doc != [] {
      DocumentSizeIsCount(doc[..|doc| - 1]);
      if !doc[|doc| - 1].OtherDefinition? { SizeIsCount(doc[|doc| - 1].sel); }
    }
  }

  function OperationSizes(doc: seq<Definition>): nat {
    if doc == [] then 0
    else OperationSizes(doc[..|doc| - 1]) + if doc[|doc| - 1].Operation? then Size(doc[|doc| - 1].sel) else 0
  }

  lemma {:induction false} OperationsAndBodiesFit(doc: seq<Definition>)
    ensures OperationSizes(doc) + BodySizes(FragmentsOf(doc), FragmentsOf(doc).Keys) <= DocumentSize(doc)
  {
    if doc != [] {
      var n := |doc| - 1;
      OperationsAndBodiesFit(doc[..n]);
      if doc[n].Fragment? && doc[n].name.Some? {
        var m, name := FragmentsOf(doc[..n]), doc[n].name.value;
        var k := m[name := doc[n].sel];
        BodySizesRemove(k, k.Keys, name);
        BodySizesSame(m, k, m.Keys - {name});
        assert k.Keys - {name} == m.Keys - {name};
        BodySizesUnion(m, m.Keys - {name}, m.Keys * {name});
        assert m.Keys == (m.Keys - {name}) + (m.Keys * {name});
      }
    }
  }

  lemma {:induction false} BodySizesSame(m: Fragments, k: Fragments, names: set<string>)
    requires names <= m.Keys && names <= k.Keys && forall n :: n in names ==> m[n] == k[n]
    ensures BodySizes(m, names) == BodySizes(k, names)
  {
    if names != {} {
      var n :| n in names;
      BodySizesRemove(m, names, n);
      BodySizesRemove(k, names, n);
      BodySizesSame(m, k, names - {n});
    }
  }

  /** A rank above all others, for operations. */
  ghost predicate TopRank(frags: Fragments, rank: Rank, top: nat) {
    forall n | n in frags && n in rank :: rank[n] < top
  }

  lemma {:induction false} BelowTop(frags: Fragments, rank: Rank, top: nat, ss: SelectionSet)
    requires TopRank(frags, rank, top) && forall n :: n in frags ==> n in rank
    ensures SpreadsBelow(frags, rank, ss, top)
  {
    forall i | 0 <= i < |ss| ensures SelectionBelow(frags, rank, ss[i], top) {
      match ss[i]
      case Field(sub) => BelowTop(frags, rank, top, sub);
      case Inline(sub) => BelowTop(frags, rank, top, sub);
      case Spread(_) =>
    }
  }

  /** The depth of an operation is at most the limit when it is fully inlined. */
  ghost predicate WithinLimit(frags: Fragments, rank: Rank, top: nat, ss: SelectionSet, maxDepth: int)
    requires Acyclic(frags, rank) && TopRank(frags, rank, top)
  {
    BelowTop(frags, rank, top, ss);
    Nesting(Inlined(frags, rank, ss, top)) <= maxDepth
  }

  // ----- acyclic fragments -----

  /** The selections spread the fragment, at any depth of fields and inline fragments. */
  predicate Spreads(ss: SelectionSet, name: string) { exists i :: 0 <= i < |ss| && SelectionSpreads(ss[i], name) }

  predicate SelectionSpreads(s: Selection, name: string) {
    match s
    case Field(sub) => Spreads(sub, name)
    case Inline(sub) => Spreads(sub, name)
    case Spread(n) => n == Some(name)
  }

  /** Each fragment spreads the next. */
  predicate Chain(frags: Fragments, path: seq<string>) {
    && path != [] && (forall i :: 0 <= i < |path| ==> path[i] in frags)
    && forall i :: 0 <= i < |path| - 1 ==> Spreads(frags[path[i]], path[i + 1])
  }

  /** No fragment spreads itself, directly or through others. */
  ghost predicate NoCycle(frags: Fragments) {
    forall path :: Chain(frags, path) && |path| > 1 ==> path[0] != path[|path| - 1]
  }

  lemma {:induction false} BelowWhenSpreadsAre(frags: Fragments, rank: Rank, ss: SelectionSet, r: nat)
    requires forall n :: n in frags && Spreads(ss, n) ==> n in rank && rank[n] < r
    ensures SpreadsBelow(frags, rank, ss, r)
  {
    forall i | 0 <= i < |ss| ensures SelectionBelow(frags, rank, ss[i], r) {
      assert forall n :: SelectionSpreads(ss[i], n) ==> Spreads(ss, n);
      match ss[i]
      case Field(sub) => BelowWhenSpreadsAre(frags, rank, sub, r);
      case Inline(sub) => BelowWhenSpreadsAre(frags, rank, sub, r);
      case Spread(_) =>
    }
  }

  lemma {:induction false} SpreadIsBelow(frags: Fragments, rank: Rank, ss: SelectionSet, r: nat, name: string)
    requires SpreadsBelow(frags, rank, ss, r) && name in frags && Spreads(ss, name)
    ensures name in rank && rank[name] < r
  {
    var i :| 0 <= i < |ss| && SelectionSpreads(ss[i], name);
    assert SelectionBelow(frags, rank, ss[i], r);
    match ss[i]
    case Field(sub) => SpreadIsBelow(frags, rank, sub, r, name);
    case Inline(sub) => SpreadIsBelow(frags, rank, sub, r, name);
    case Spread(_) =>
  }

  lemma ChainAppend(frags: Fragments, init: seq<string>, m: string)
    requires Chain(frags, init) && m in frags && Spreads(frags[init[|init| - 1]], m)
    ensures Chain(frags, init + [m])
  {
    var path := init + [m];
    forall i | 0 <= i < |path| - 1 ensures Spreads(frags[path[i]], path[i + 1]) {
      if i < |init| - 1 { assert path[i] == init[i] && path[i + 1] == init[i + 1]; }
    }
  }

  lemma ChainPart(frags: Fragments, path: seq<string>, i: nat, j: nat)
    requires Chain(frags, path) && i < j < |path|
    ensures Chain(frags, path[i..j + 1])
  {
    var part := path[i..j + 1];
    forall k | 0 <= k < |part| - 1 ensures Spreads(frags[part[k]], part[k + 1]) {
      assert part[k] == path[i + k] && part[k + 1] == path[i + k + 1];
    }
  }

  /** The fragment spreads one of the set. */
  predicate Leads(frags: Fragments, rest: set<string>, n: string)
    requires n in frags
  {
    exists m :: m in rest && Spreads(frags[n], m)
  }

  predicate AllLead(frags: Fragments, rest: set<string>)
    requires rest <= frags.Keys
  {
    forall n {:trigger Leads(frags, rest, n)} :: n in rest ==> Leads(frags, rest, n)
  }

  /** Where every fragment spreads another one of the set, there are chains of any length. */
  lemma {:induction false} LongChain(frags: Fragments, rest: set<string>, k: nat) returns (path: seq<string>)
    requires rest != {} && rest <= frags.Keys && AllLead(frags, rest)
    ensures Chain(frags, path) && |path| == k + 1 && forall i :: 0 <= i < |path| ==> path[i] in rest
  {
    if k == 0 {
      var n :| n in rest;
      return [n];
    }
    var init := LongChain(frags, rest, k - 1);
    assert init[k - 1] in rest && Leads(frags, rest, init[k - 1]);
    var m :| m in rest && Spreads(frags[init[k - 1]], m);
    ChainAppend(frags, init, m);
    path := init + [m];
  }

  lemma {:induction false} DistinctFits(path: seq<string>, rest: set<string>)
    requires forall i :: 0 <= i < |path| ==> path[i] in rest
    requires forall i, j :: 0 <= i < j < |path| ==> path[i] != path[j]
    ensures |path| <= |rest|
  {
    if path != [] {
      var n := |path| - 1;
      DistinctFits(path[..n], rest - {path[n]});
    }
  }

  /** Without cycles, some fragment of any set spreads none of the set. */
  lemma SomeReady(frags: Fragments, rest: set<string>)
    requires NoCycle(frags) && rest != {} && rest <= frags.Keys
    ensures !AllLead(frags, rest)
  {
    if AllLead(frags, rest) {
      var path := LongChain(frags, rest, |rest|);
      forall i, j | 0 <= i < j < |path| ensures path[i] != path[j] {
        ChainPart(frags, path, i, j);
        assert path[i..j + 1][0] == path[i] && path[i..j + 1][j - i] == path[j];
      }
      DistinctFits(path, rest);
      assert false;
    }
  }

  /** The fragments ranked so far, each above those it spreads. */
  ghost predicate Ranked(frags: Fragments, rank: Rank, done: set<string>) {
    && rank.Keys == done && done <= frags.Keys
    && forall n | n in done ::
         rank[n] < |done| && forall m | m in frags && Spreads(frags[n], m) :: m in rank && rank[m] < rank[n]
  }

  lemma RankOne(frags: Fragments, rank: Rank, done: set<string>, n: string)
    requires Ranked(frags, rank, done) && n in frags && n !in done
    requires forall m :: m in frags.Keys - done ==> !Spreads(frags[n], m)
    ensures Ranked(frags, rank[n := |done|], done + {n})
  {
  }

  /** Fragments without a cycle have a rank. */
  lemma {:induction false} RankRest(frags: Fragments, rank: Rank, done: set<string>) returns (full: Rank)
    requires NoCycle(frags) && Ranked(frags, rank, done)
    ensures Acyclic(frags, full) && TopRank(frags, full, |frags|)
    decreases frags.Keys - done
  {
    var rest := frags.Keys - done;
    if rest == {} {
      assert done == frags.Keys && |frags| == |frags.Keys|;
      forall n | n in frags ensures SpreadsBelow(frags, rank, frags[n], rank[n]) {
        BelowWhenSpreadsAre(frags, rank, frags[n], rank[n]);
      }
      return rank;
    }
    SomeReady(frags, rest);
    var n :| n in rest && !Leads(frags, rest, n);
    RankOne(frags, rank, done, n);
    full := RankRest(frags, rank[n := |done|], done + {n});
  }

  /** Fragments have a rank exactly when none spreads itself. */
  lemma AcyclicIffNoCycle(frags: Fragments)
    ensures NoCycle(frags) <==> exists rank :: Acyclic(frags, rank)
  {
    if NoCycle(frags) {
      var rank := RankRest(frags, map[], {});
    }
    if exists rank :: Acyclic(frags, rank) {
      var rank :| Acyclic(frags, rank);
      forall path | Chain(frags, path) && |path| > 1 ensures path[0] != path[|path| - 1] {
        RankFalls(frags, rank, path);
      }
    }
  }

  lemma {:induction false} RankFalls(frags: Fragments, rank: Rank, path: seq<string>)
    requires Acyclic(frags, rank) && Chain(frags, path) && |path| > 1
    ensures rank[path[|path| - 1]] < rank[path[0]]
  {
    assert SpreadsBelow(frags, rank, frags[path[0]], rank[path[0]]);
    SpreadIsBelow(frags, rank, frags[path[0]], rank[path[0]], path[1]);
    if |path| > 2 {
      assert Chain(frags, path[1..]);
      RankFalls(frags, rank, path[1..]);
    }
  }

  /** The selections, fully inlined, nest fields at most this deep. */
  ghost predicate InlinedWithin(frags: Fragments, ss: SelectionSet, maxDepth: int) {
    exists rank, top :: Acyclic(frags, rank) && TopRank(frags, rank, top) && WithinLimit(frags, rank, top, ss, maxDepth)
  }

  lemma WithinLimitIsInlined(frags: Fragments, rank: Rank, top: nat, ss: SelectionSet, maxDepth: int)
    requires Acyclic(frags, rank) && TopRank(frags, rank, top)
    ensures WithinLimit(frags, rank, top, ss, maxDepth) <==> InlinedWithin(frags, ss, maxDepth)
  {
    BelowTop(frags, rank, top, ss);
    if InlinedWithin(frags, ss, maxDepth) {
      var rank', top' :| Acyclic(frags, rank') && TopRank(frags, rank', top') &&
          WithinLimit(frags, rank', top', ss, maxDepth);
      BelowTop(frags, rank', top', ss);
      InlinedIsUnique(frags, rank, ss, top, rank', top');
    }
  }

  // ----- the check -----

  /** The first loop over the document's definitions. */
  method CollectFragments(doc: seq<Definition>) returns (fragments: Fragments)
    ensures fragments == FragmentsOf(doc)
  {
    fragments := map[];
    for i := 0 to |doc|
      invariant fragments == FragmentsOf(doc[..i])
    {
      assert doc[..i + 1][..i] == doc[..i];
      if doc[i].Fragment? && doc[i].name.Some? { fragments := fragments[doc[i].name.value := doc[i].sel]; }
    }
    assert doc[..|doc|] == doc;
  }

  /** checkDepth on a parsed document. It looks at no more selections than the document holds, cycles or
      not; and when none of the document's fragments spreads itself it accepts exactly the documents all of
      whose operations, fully inlined, nest fields at most maxDepth deep. */
  method CheckDepth(doc: seq<Definition>, maxDepth: int)
    returns (accepted: bool, ghost visited: nat, ghost frags: Fragments)
    ensures visited <= |ListedIn(doc)|
    ensures maxDepth < 0 ==> accepted
    ensures forall name :: name in frags <==> exists i :: Defines(doc, i, name)
    ensures forall i, name :: Defines(doc, i, name) && (forall j :: i < j ==> !Defines(doc, j, name)) ==>
              name in frags && frags[name] == doc[i].sel
    ensures maxDepth >= 0 && NoCycle(frags) ==>
              (accepted <==> forall i :: 0 <= i < |doc| && doc[i].Operation? ==>
               InlinedWithin(frags, doc[i].sel, maxDepth))
  {
    DocumentSizeIsCount(doc);
    FragmentsAreOwn(doc);
    frags := FragmentsOf(doc);
    if maxDepth < 0 { return true, 0, frags; }
    var fragments := CollectFragments(doc);
    var checker := new Checker(fragments);
    ghost var start := checker.Now();
    NothingWorked(fragments, start);
    ghost var done: nat;
    ghost var rank: Rank, top: nat := map[], |fragments|;
    if NoCycle(fragments) { rank := RankRest(fragments, map[], {}); }
    accepted, done := CheckOperations(checker, doc, maxDepth, rank, top);
    WorkBound(doc, done, fragments, start, checker.Now());
    if NoCycle(fragments) {
      forall i | 0 <= i < |doc| && doc[i].Operation?
        ensures WithinLimit(fragments, rank, top, doc[i].sel, maxDepth) <==>
                InlinedWithin(fragments, doc[i].sel, maxDepth)
      {
        WithinLimitIsInlined(fragments, rank, top, doc[i].sel, maxDepth);
      }
    }
    return accepted, checker.visits, frags;
  }

  /** The loop over the operations, stopping at the first that is too deep. */
  method CheckOperations(checker: Checker, doc: seq<Definition>, maxDepth: int, ghost rank: Rank, ghost top: nat)
    returns (accepted: bool, ghost done: nat)
    requires Valid(checker.fragments, checker.Now()) && maxDepth >= 0
    modifies checker
    ensures done <= |doc| && Worked(checker.fragments, old(checker.Now()), checker.Now(), OperationSizes(doc[..done]))
    ensures Sound(checker.fragments, rank, top, old(checker.Now())) && TopRank(checker.fragments, rank, top) ==>
              (accepted <==> forall j :: 0 <= j < |doc| && doc[j].Operation? ==>
                               WithinLimit(checker.fragments, rank, top, doc[j].sel, maxDepth))
    ensures accepted ==> done == |doc|
    ensures Sound(checker.fragments, rank, top, old(checker.Now())) && TopRank(checker.fragments, rank, top) &&
            !accepted ==>
              && 0 < done && doc[done - 1].Operation? &&
                 !WithinLimit(checker.fragments, rank, top, doc[done - 1].sel, maxDepth)
              && forall j :: 0 <= j < done - 1 && doc[j].Operation? ==>
                   WithinLimit(checker.fragments, rank, top, doc[j].sel, maxDepth)
  {
    ghost var frags := checker.fragments;
    ghost var start := checker.Now();
    NothingWorked(frags, start);
    for i := 0 to |doc|
      invariant Worked(frags, start, checker.Now(), OperationSizes(doc[..i]))
      invariant Sound(frags, rank, top, start) && TopRank(frags, rank, top) ==>
                  Sound(frags, rank, top, checker.Now()) &&
                  forall j :: 0 <= j < i && doc[j].Operation? ==> WithinLimit(frags, rank, top, doc[j].sel, maxDepth)
    {
      assert doc[..i + 1][..i] == doc[..i];
      if doc[i].Operation? {
        ghost var before := checker.Now();
        if Sound(frags, rank, top, start) && TopRank(frags, rank, top) { BelowTop(frags, rank, top, doc[i].sel); }
        var d := checker.DepthOfSet(doc[i].sel, rank, top);
        WorkedThen(frags, start, before, checker.Now(), OperationSizes(doc[..i]), Size(doc[i].sel));
        if d > maxDepth { return false, i + 1; }
      }
    }
    return true, |doc|;
  }

  lemma WorkBound(doc: seq<Definition>, i: nat, frags: Fragments, s: State, t: State)
    requires i <= |doc| && frags == FragmentsOf(doc) && s == State(map[], {}, 0)
    requires Worked(frags, s, t, OperationSizes(doc[..i]))
    ensures t.visits <= DocumentSize(doc)
  {
    OperationsAndBodiesFit(doc);
    OperationsGrow(doc, i);
    BodySizesUnion(frags, t.fragDepth.Keys, frags.Keys - t.fragDepth.Keys);
    assert frags.Keys == t.fragDepth.Keys + (frags.Keys - t.fragDepth.Keys);
    assert t.fragDepth.Keys - s.fragDepth.Keys == t.fragDepth.Keys;
  }

  lemma {:induction false} OperationsGrow(doc: seq<Definition>, i: nat)
    requires i <= |doc|
    ensures OperationSizes(doc[..i]) <= OperationSizes(doc)
  {
    if i < |doc| {
      assert doc[..|doc| - 1][..i] == doc[..i];
      OperationsGrow(doc[..|doc| - 1], i);
    } else {
      assert doc[..i] == doc;
    }
  }
}

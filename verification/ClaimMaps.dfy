/** setClaimPath in place: the nested claim maps are references, and the loop walks down them, creating
    maps where none are and changing the last one. */
module ClaimMaps {
  import opened Values
  import opened Claims

  type Ref = nat

  /** What a claim map holds under a name: a value that is not a map, or another map. */
  datatype Cell = Leaf(v: Value) | Sub(at: Ref)

  /** The maps allocated so far, below the next free reference. */
  datatype Heap = Heap(maps: map<Ref, map<string, Cell>>, next: Ref)

  /** A map only refers to maps allocated after it. */
  ghost predicate Ranked(h: Heap) {
    forall m | m in h.maps :: m < h.next && forall k | k in h.maps[m] :: RankedCell(h, m, h.maps[m][k])
  }

  predicate RankedCell(h: Heap, m: Ref, c: Cell) {
    match c case Leaf(v) => !v.Obj? case Sub(s) => m < s < h.next && s in h.maps
  }

  ghost predicate SubAt(h: Heap, m: Ref, k: string) { m in h.maps && k in h.maps[m] && h.maps[m][k].Sub? }

  ghost function Child(h: Heap, m: Ref, k: string): (s: Ref)
    requires Ranked(h) && SubAt(h, m, k)
    ensures s in h.maps && m < s < h.next
  {
    assert RankedCell(h, m, h.maps[m][k]);
    h.maps[m][k].at
  }

  /** The maps reachable from m. */
  ghost function Reach(h: Heap, m: Ref): set<Ref>
    requires Ranked(h) && m in h.maps
    decreases h.next - m
  {
    {m} + set k, r | k in h.maps[m] && SubAt(h, m, k) && r in Reach(h, Child(h, m, k)) :: r
  }

  /** No map below m is reachable in two ways: the maps form a tree, as decoded JSON does. */
  ghost predicate Tree(h: Heap, m: Ref)
    requires Ranked(h) && m in h.maps
    decreases h.next - m
  {
    && (forall k | SubAt(h, m, k) :: Tree(h, Child(h, m, k)))
    && (forall j, k | SubAt(h, m, j) && SubAt(h, m, k) && j != k ::
        Reach(h, Child(h, m, j)) !! Reach(h, Child(h, m, k)))
  }

  /** The claims a map stands for. */
  ghost function Contents(h: Heap, m: Ref): ClaimMap
    requires Ranked(h) && m in h.maps
    decreases h.next - m
  {
    map k | k in h.maps[m] :: match h.maps[m][k] case Leaf(v) => v case Sub(s) => Obj(Contents(h, s))
  }

  lemma {:induction false} ReachUp(h: Heap, m: Ref)
    requires Ranked(h) && m in h.maps
    ensures forall r :: r in Reach(h, m) ==> m <= r && r in h.maps
    decreases h.next - m
  {
    forall k | SubAt(h, m, k) ensures forall r :: r in Reach(h, Child(h, m, k)) ==> m < r && r in h.maps {
      ReachUp(h, Child(h, m, k));
    }
  }

  predicate Kept(h: Heap, g: Heap, r: Ref) { r in h.maps && r in g.maps && g.maps[r] == h.maps[r] }

  ghost predicate Same(h: Heap, g: Heap, m: Ref)
    requires Ranked(h) && Ranked(g)
  {
    m in h.maps && m in g.maps && Contents(g, m) == Contents(h, m) && Reach(g, m) == Reach(h, m) && Tree(g, m)
  }

  /** A tree whose maps are unchanged is unchanged. */
  lemma {:induction false} Frame(h: Heap, g: Heap, m: Ref)
    requires Ranked(h) && Ranked(g) && m in h.maps && Tree(h, m)
    requires forall r :: r in Reach(h, m) ==> Kept(h, g, r)
    ensures Same(h, g, m)
    decreases h.next - m
  {
    assert m in Reach(h, m);
    forall k | SubAt(h, m, k) ensures Same(h, g, Child(h, m, k)) {
      Frame(h, g, Child(h, m, k));
    }
    FrameHere(h, g, m);
  }

  lemma FrameHere(h: Heap, g: Heap, m: Ref)
    requires Ranked(h) && Ranked(g) && m in h.maps && m in g.maps && Tree(h, m) && h.maps[m] == g.maps[m]
    requires forall k :: SubAt(h, m, k) ==> Same(h, g, Child(h, m, k))
    ensures Same(h, g, m)
  {
    assert forall k :: SubAt(g, m, k) <==> SubAt(h, m, k);
    assert forall k :: SubAt(h, m, k) ==> Child(g, m, k) == Child(h, m, k);
    forall k | k in h.maps[m] ensures Contents(g, m)[k] == Contents(h, m)[k] {
      if SubAt(h, m, k) { assert Same(h, g, Child(h, m, k)); }
    }
  }

  // ----- replacing one entry of a map -----

  /** g's map m is h's with another entry at p, and the trees at the other entries are the same. */
  ghost predicate Replaced(h: Heap, g: Heap, m: Ref, p: string)
    requires Ranked(h) && Ranked(g)
  {
    && m in h.maps && m in g.maps && p in g.maps[m] && g.maps[m] == h.maps[m][p := g.maps[m][p]]
    && forall k :: k != p && SubAt(h, m, k) ==> Same(h, g, Child(h, m, k))
  }

  lemma ReplacedContents(h: Heap, g: Heap, m: Ref, p: string)
    requires Ranked(h) && Ranked(g) && Replaced(h, g, m, p)
    ensures Contents(g, m) == Contents(h, m)[p := if SubAt(g, m, p) then Obj(Contents(g, Child(g, m, p)))
                                                  else g.maps[m][p].v]
  {
    forall k | k in h.maps[m] && k != p ensures Contents(g, m)[k] == Contents(h, m)[k] {
      if SubAt(h, m, k) { assert Same(h, g, Child(h, m, k)); }
    }
  }

  lemma ReplacedReach(h: Heap, g: Heap, m: Ref, p: string)
    requires Ranked(h) && Ranked(g) && Replaced(h, g, m, p)
    ensures Reach(g, m) <= Reach(h, m) + if SubAt(g, m, p) then Reach(g, Child(g, m, p)) else {}
  {
    forall r | r in Reach(g, m) ensures r in Reach(h, m) || (SubAt(g, m, p) && r in Reach(g, Child(g, m, p))) {
      if r != m {
        var k :| k in g.maps[m] && SubAt(g, m, k) && r in Reach(g, Child(g, m, k));
        if k != p { assert SubAt(h, m, k) && Same(h, g, Child(h, m, k)); }
      }
    }
  }

  lemma ReplacedTree(h: Heap, g: Heap, m: Ref, p: string)
    requires Ranked(h) && Ranked(g) && Replaced(h, g, m, p) && Tree(h, m)
    requires SubAt(g, m, p) ==> Tree(g, Child(g, m, p))
    requires SubAt(g, m, p) ==> forall k :: k != p && SubAt(h, m, k) ==>
             Reach(g, Child(g, m, p)) !! Reach(h, Child(h, m, k))
    ensures Tree(g, m)
  {
    forall k | SubAt(g, m, k) ensures Tree(g, Child(g, m, k)) {
      if k != p { assert SubAt(h, m, k) && Same(h, g, Child(h, m, k)); }
    }
    forall j, k | SubAt(g, m, j) && SubAt(g, m, k) && j != k
      ensures Reach(g, Child(g, m, j)) !! Reach(g, Child(g, m, k))
    {
      if j != p { assert SubAt(h, m, j) && Same(h, g, Child(h, m, j)); }
      if k != p { assert SubAt(h, m, k) && Same(h, g, Child(h, m, k)); }
    }
  }

  /** The trees at the other entries do not reach what changed. */
  lemma OthersSame(h: Heap, g: Heap, m: Ref, p: string)
    requires Ranked(h) && Ranked(g) && m in h.maps && Tree(h, m)
    requires forall r :: r in h.maps && r != m && (SubAt(h, m, p) ==> r !in Reach(h, Child(h, m, p))) ==> Kept(h, g, r)
    ensures forall k :: k != p && SubAt(h, m, k) ==> Same(h, g, Child(h, m, k))
  {
    forall k | k != p && SubAt(h, m, k) ensures Same(h, g, Child(h, m, k)) {
      var s := Child(h, m, k);
      ReachUp(h, s);
      assert SubAt(h, m, p) ==> Reach(h, s) !! Reach(h, Child(h, m, p));
      Frame(h, g, s);
    }
  }

  // ----- what the walk writes -----

  /** From h to g exactly the value at the path below m was written; maps not below m are as before. */
  ghost predicate Wrote(h: Heap, g: Heap, m: Ref, parts: seq<string>, v: Value)
    requires parts != []
  {
    && Ranked(h) && Ranked(g) && m in h.maps && m in g.maps
    && (forall r :: r in h.maps && r !in Reach(h, m) ==> Kept(h, g, r))
    && (forall r :: r in Reach(g, m) ==> r in Reach(h, m) || r !in h.maps)
    && Tree(g, m)
    && Contents(g, m) == SetAt(Contents(h, m), parts, v)
  }

  function Assign(h: Heap, m: Ref, p: string, c: Cell): Heap
    requires m in h.maps
  {
    h.(maps := h.maps[m := h.maps[m][p := c]])
  }

  /** Allocates an empty map. */
  function Allocate(h: Heap): Heap { Heap(h.maps[h.next := map[]], h.next + 1) }

  /** Writing the last segment. */
  lemma WroteLast(h: Heap, m: Ref, p: string, v: Value)
    requires Ranked(h) && m in h.maps && Tree(h, m) && !v.Obj?
    ensures Wrote(h, Assign(h, m, p, Leaf(v)), m, [p], v)
  {
    var g := Assign(h, m, p, Leaf(v));
    AssignRanked(h, m, p, Leaf(v));
    OthersSame(h, g, m, p);
    ReplacedContents(h, g, m, p);
    ReplacedReach(h, g, m, p);
    ReplacedTree(h, g, m, p);
    assert m in Reach(h, m);
  }

  lemma AssignRanked(h: Heap, m: Ref, p: string, c: Cell)
    requires Ranked(h) && m in h.maps && RankedCell(h, m, c)
    ensures Ranked(Assign(h, m, p, c))
  {
    var g := Assign(h, m, p, c);
    forall n, k | n in g.maps && k in g.maps[n] ensures RankedCell(g, n, g.maps[n][k]) {
      if n == m && k == p {} else { assert RankedCell(h, n, h.maps[n][k]); }
    }
  }

  /** Writing below a map that is there. */
  lemma WroteBelow(h: Heap, g: Heap, m: Ref, p: string, rest: seq<string>, v: Value)
    requires Ranked(h) && SubAt(h, m, p) && Tree(h, m) && rest != []
    requires Wrote(h, g, Child(h, m, p), rest, v)
    ensures Wrote(h, g, m, [p] + rest, v)
  {
    var c := Child(h, m, p);
    ReachUp(h, c);
    assert Kept(h, g, m);
    OthersSame(h, g, m, p);
    ReplacedContents(h, g, m, p);
    ReplacedReach(h, g, m, p);
    forall k | k != p && SubAt(h, m, k) ensures Reach(g, c) !! Reach(h, Child(h, m, k)) {
      ReachUp(h, Child(h, m, k));
    }
    ReplacedTree(h, g, m, p);
    ReachChild(h, m, p);
    assert ([p] + rest)[1..] == rest;
  }

  lemma ReachChild(h: Heap, m: Ref, p: string)
    requires Ranked(h) && SubAt(h, m, p)
    ensures Reach(h, Child(h, m, p)) <= Reach(h, m) && m in Reach(h, m)
  {}

  /** An empty map put where none was. */
  function Opened(h: Heap, m: Ref, p: string): Heap
    requires m in h.maps && m != h.next
  {
    Assign(Allocate(h), m, p, Sub(h.next))
  }

  lemma OpenedIsTree(h: Heap, m: Ref, p: string)
    requires Ranked(h) && m in h.maps && m < h.next && Tree(h, m) && !SubAt(h, m, p)
    ensures var o := Opened(h, m, p);
            && Ranked(o) && SubAt(o, m, p) && Tree(o, m) && Reach(o, m) <= Reach(h, m) + {h.next}
            && Contents(o, m) == Contents(h, m)[p := Obj(map[])]
  {
    var o, a := Opened(h, m, p), Allocate(h);
    AllocateRanked(h);
    AssignRanked(a, m, p, Sub(h.next));
    assert h.next !in h.maps;
    OthersSame(h, o, m, p);
    assert o.maps[h.next] == map[];
    assert Contents(o, h.next) == map[] && Reach(o, h.next) == {h.next} && Tree(o, h.next);
    ReplacedContents(h, o, m, p);
    ReplacedReach(h, o, m, p);
    forall k | k != p && SubAt(h, m, k) ensures h.next !in Reach(h, Child(h, m, k)) {
      ReachUp(h, Child(h, m, k));
    }
    ReplacedTree(h, o, m, p);
  }

  lemma AllocateRanked(h: Heap)
    requires Ranked(h)
    ensures Ranked(Allocate(h)) && h.next !in h.maps
  {
    var a := Allocate(h);
    assert h.next !in h.maps;
    forall n, k | n in a.maps && k in a.maps[n] ensures RankedCell(a, n, a.maps[n][k]) {
      assert RankedCell(h, n, h.maps[n][k]);
    }
  }

  /** Writing below a map just put there is writing below m. */
  lemma WroteOpened(h: Heap, g: Heap, m: Ref, p: string, rest: seq<string>, v: Value)
    requires Ranked(h) && m in h.maps && m < h.next && Tree(h, m) && !SubAt(h, m, p) && rest != []
    requires Wrote(Opened(h, m, p), g, m, [p] + rest, v)
    ensures Wrote(h, g, m, [p] + rest, v)
  {
    var o := Opened(h, m, p);
    OpenedIsTree(h, m, p);
    assert m in Reach(h, m);
    ReachUp(h, m);
    forall r | r in h.maps && r !in Reach(h, m) ensures Kept(h, g, r) {
      assert r in o.maps && r !in Reach(o, m) && Kept(o, g, r);
    }
    SetAtOpened(h, m, p, rest, v);
  }

  lemma SetAtOpened(h: Heap, m: Ref, p: string, rest: seq<string>, v: Value)
    requires Ranked(h) && m in h.maps && !SubAt(h, m, p) && rest != []
    ensures SetAt(Contents(h, m)[p := Obj(map[])], [p] + rest, v) == SetAt(Contents(h, m), [p] + rest, v)
  {
    var c := Contents(h, m);
    if p in h.maps[m] { assert RankedCell(h, m, h.maps[m][p]); }
    assert ([p] + rest)[1..] == rest;
    assert c[p := Obj(map[])][p := Obj(SetAt(map[], rest, v))] == c[p := Obj(SetAt(map[], rest, v))];
  }

  class ClaimStore {
    var maps: map<Ref, map<string, Cell>>
    var next: Ref

    constructor ()
      ensures maps == map[] && next == 0
    {
      maps, next := map[], 0;
    }

    function State(): Heap reads this { Heap(maps, next) }

    /** Writes a value at a dot path below root, in place. */
    method SetClaimPath(root: Ref, path: string, v: Value)
      requires Ranked(State()) && root in maps && Tree(State(), root) && !v.Obj?
      modifies this
      ensures Wrote(old(State()), State(), root, SplitDots(path), v)
      ensures Contents(State(), root) == Claims.SetClaimPath(Contents(old(State()), root), path, v)
    {
      var parts := SplitDots(path);
      var m := root;
      var i := 0;
      ghost var start := State();
      assert parts[0..] == parts;
      while i < |parts| - 1
        invariant 0 <= i < |parts|
        invariant Ranked(State()) && m in maps && Tree(State(), m)
        invariant forall g :: Wrote(State(), g, m, parts[i..], v) ==> Wrote(start, g, root, parts, v)
      {
        ghost var h := State();
        assert m < next;
        var child;
        if parts[i] in maps[m] && maps[m][parts[i]].Sub? {
          child := maps[m][parts[i]].at;
        } else {
          child := next;
          maps := maps[child := map[]];
          next := next + 1;
          maps := maps[m := maps[m][parts[i] := Sub(child)]];
          assert State() == Opened(h, m, parts[i]);
        }
        StepDown(start, h, State(), root, m, parts, i, v);
        m := child;
        i := i + 1;
      }
      assert parts[i..] == [parts[i]];
      WroteLast(State(), m, parts[i], v);
      maps := maps[m := maps[m][parts[i] := Leaf(v)]];
    }
  }

  /** One step of the walk: what remains to be shown is a write below the child. */
  lemma StepDown(start: Heap, h: Heap, o: Heap, root: Ref, m: Ref, parts: seq<string>, i: nat, v: Value)
    requires i < |parts| - 1 && Ranked(h) && m in h.maps && m < h.next && Tree(h, m)
    requires forall g :: Wrote(h, g, m, parts[i..], v) ==> Wrote(start, g, root, parts, v)
    requires o == if SubAt(h, m, parts[i]) then h else Opened(h, m, parts[i])
    ensures Ranked(o) && SubAt(o, m, parts[i]) && Tree(o, Child(o, m, parts[i]))
    ensures forall g :: Wrote(o, g, Child(o, m, parts[i]), parts[i + 1..], v) ==> Wrote(start, g, root, parts, v)
  {
    var p, rest := parts[i], parts[i + 1..];
    assert parts[i..] == [p] + rest;
    if !SubAt(h, m, p) { OpenedIsTree(h, m, p); }
    forall g | Wrote(o, g, Child(o, m, p), rest, v) ensures Wrote(start, g, root, parts, v) {
      WroteBelow(o, g, m, p, rest, v);
      if !SubAt(h, m, p) { WroteOpened(h, g, m, p, rest, v); }
    }
  }
}

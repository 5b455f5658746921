/** A whole request: many relationship fields, with their arguments, share one set of loaders, keyed by
    direction, constraint and argument signature. */
module Requests {
  import opened Values
  import opened KeyConditions
  import opened Paging
  import opened Window
  import opened Loader
  import opened Relationship

  /** A relationship field with its arguments. */
  datatype Use = Use(relation: Relation, args: Value)

  /** What stays the same during a request: how keys and arguments are rendered, and what each use stands for. */
  datatype Setup = Setup(sig: Signature, argSig: Value -> string, fieldOf: Use -> Field)

  /** A resolver enqueues a key for a use, or one of its thunks fetches a key. */
  datatype Act = Act(use: Use, event: Event)

  /** A loader, with the use whose load function it was made with. */
  datatype Built = Built(maker: Use, state: State)

  function KeyOfUse(s: Setup, u: Use): string {
    LoaderKey(u.relation.direction, u.relation.constraint, s.argSig(u.args))
  }

  /** The loader an act finds, or makes. */
  function Found(s: Setup, loaders: map<string, Built>, u: Use): Built {
    if KeyOfUse(s, u) in loaders then loaders[KeyOfUse(s, u)] else Built(u, START)
  }

  function Perform(s: Setup, loaders: map<string, Built>, a: Act): map<string, Built> {
    var b := Found(s, loaders, a.use);
    loaders[KeyOfUse(s, a.use) := b.(state := Step(s.sig, b.state, a.event))]
  }

  /** The loaders after any interleaving of acts over any uses. */
  function RunAll(s: Setup, acts: seq<Act>): map<string, Built> {
    if acts == [] then map[] else Perform(s, RunAll(s, acts[..|acts| - 1]), acts[|acts| - 1])
  }

  /** The events that reach one loader. */
  function EventsAt(s: Setup, acts: seq<Act>, key: string): seq<Event> {
    if acts == [] then []
    else
      var n := |acts| - 1;
      EventsAt(s, acts[..n], key) + if KeyOfUse(s, acts[n].use) == key then [acts[n].event] else []
  }

  /** Constraint names are unique per direction, identifiers hold no NUL byte, and equal argument signatures
      mean equal arguments, among the uses of the request. */
  ghost predicate Separate(s: Setup, acts: seq<Act>) {
    && (forall i :: 0 <= i < |acts| ==> NoNul(acts[i].use.relation.direction) && NoNul(acts[i].use.relation.constraint))
    && ConstraintsUnique(set i | 0 <= i < |acts| :: acts[i].use.relation)
    && forall i, j :: 0 <= i < |acts| && 0 <= j < |acts| && s.argSig(acts[i].use.args) == s.argSig(acts[j].use.args)
                      ==> acts[i].use.args == acts[j].use.args
  }

  /** Uses that share a loader key are one use. */
  ghost predicate OneUsePerKey(s: Setup, acts: seq<Act>) {
    forall i, j :: 0 <= i < |acts| && 0 <= j < |acts| && KeyOfUse(s, acts[i].use) == KeyOfUse(s, acts[j].use)
                   ==> acts[i].use == acts[j].use
  }

  lemma {:induction false} SeparateUses(s: Setup, acts: seq<Act>)
    requires Separate(s, acts)
    ensures OneUsePerKey(s, acts)
  {
    var relations := set i | 0 <= i < |acts| :: acts[i].use.relation;
    forall i, j | 0 <= i < |acts| && 0 <= j < |acts| && KeyOfUse(s, acts[i].use) == KeyOfUse(s, acts[j].use)
      ensures acts[i].use == acts[j].use
    {
      var u, v := acts[i].use, acts[j].use;
      LoaderKeyInjective(u.relation.direction, u.relation.constraint, s.argSig(u.args),
                         v.relation.direction, v.relation.constraint, s.argSig(v.args));
      assert u.relation in relations && v.relation in relations;
    }
  }

  lemma {:induction false} EventsAtLast(s: Setup, acts: seq<Act>, key: string)
    requires acts != []
    ensures var n := |acts| - 1;
            var before := EventsAt(s, acts[..n], key);
            EventsAt(s, acts, key) == if KeyOfUse(s, acts[n].use) == key then before + [acts[n].event] else before
  {
    var before := EventsAt(s, acts[..|acts| - 1], key);
    assert before + [] == before;
  }

  lemma {:induction false} MakerStays(s: Setup, acts: seq<Act>, key: string, maker: Use)
    requires acts != [] && MadeBy(s, acts[..|acts| - 1], key, maker)
    ensures MadeBy(s, acts, key, maker)
  {
    var init := acts[..|acts| - 1];
    var i :| 0 <= i < |init| && init[i].use == maker && KeyOfUse(s, init[i].use) == key;
    assert acts[i] == init[i];
  }

  /** One act at its own loader: the loader is in the state its events lead to before and after. */
  lemma {:induction false} OwnStep(s: Setup, loaders: map<string, Built>, es: seq<Event>, a: Act)
    requires var key := KeyOfUse(s, a.use);
             (key in loaders <==> es != []) && (key in loaders ==> loaders[key].state == Run(s.sig, es))
    ensures var key, after := KeyOfUse(s, a.use), Perform(s, loaders, a);
            && key in after && after[key].state == Run(s.sig, es + [a.event])
            && after[key].maker == if key in loaders then loaders[key].maker else a.use
  {
    assert Loader.Init(es + [a.event]) == es;
  }

  /** Each loader is in the state its own events lead to. */
  lemma {:induction false} LoaderRuns(s: Setup, acts: seq<Act>, key: string)
    ensures key in RunAll(s, acts) <==> EventsAt(s, acts, key) != []
    ensures key in RunAll(s, acts) ==> RunAll(s, acts)[key].state == Run(s.sig, EventsAt(s, acts, key))
  {
    if acts != [] {
      var n := |acts| - 1;
      LoaderRuns(s, acts[..n], key);
      EventsAtLast(s, acts, key);
      if KeyOfUse(s, acts[n].use) == key { OwnStep(s, RunAll(s, acts[..n]), EventsAt(s, acts[..n], key), acts[n]); }
    }
  }

  /** Each loader was made for a use with its key. */
  lemma {:induction false} MakerRuns(s: Setup, acts: seq<Act>, key: string)
    requires key in RunAll(s, acts)
    ensures MadeBy(s, acts, key, RunAll(s, acts)[key].maker)
  {
    var n := |acts| - 1;
    if key in RunAll(s, acts[..n]) {
      MakerRuns(s, acts[..n], key);
      MakerStays(s, acts, key, RunAll(s, acts[..n])[key].maker);
    } else {
      assert MadeBy(s, acts, key, acts[n].use);
    }
  }

  predicate MadeBy(s: Setup, acts: seq<Act>, key: string, maker: Use) {
    exists i :: 0 <= i < |acts| && acts[i].use == maker && KeyOfUse(s, acts[i].use) == key
  }

  /** Every load was answered by the database, for the batch that was sent, by the load function the loader was
      made with, or failed. */
  ghost predicate LoadsAnswered(s: Setup, acts: seq<Act>) {
    acts == [] ||
    (var n := |acts| - 1;
     var b := Found(s, RunAll(s, acts[..n]), acts[n].use);
     LoadsAnswered(s, acts[..n]) && LoadAnswered(s.fieldOf(b.maker), s.sig, b.state, acts[n].event))
  }

  lemma {:induction false} OwnLoader(s: Setup, acts: seq<Act>, u: Use)
    requires forall i :: 0 <= i < |acts| && KeyOfUse(s, acts[i].use) == KeyOfUse(s, u) ==> acts[i].use == u
    ensures Found(s, RunAll(s, acts), u) == Built(u, Run(s.sig, EventsAt(s, acts, KeyOfUse(s, u))))
  {
    var key := KeyOfUse(s, u);
    LoaderRuns(s, acts, key);
    if key in RunAll(s, acts) { MakerRuns(s, acts, key); }
  }

  /** With one use per key, every load a use's loader performs is a load of that use's own field. */
  lemma {:induction false} OwnLoads(s: Setup, acts: seq<Act>, u: Use)
    requires LoadsAnswered(s, acts) && s.fieldOf(u).sig == s.sig
    requires forall i :: 0 <= i < |acts| && KeyOfUse(s, acts[i].use) == KeyOfUse(s, u) ==> acts[i].use == u
    ensures LoadsFromDatabase(s.fieldOf(u), EventsAt(s, acts, KeyOfUse(s, u)))
  {
    if acts != [] {
      var n, key := |acts| - 1, KeyOfUse(s, u);
      var init, last := acts[..n], acts[n];
      OwnLoads(s, init, u);
      EventsAtLast(s, acts, key);
      if KeyOfUse(s, last.use) == key {
        var es := EventsAt(s, acts, key);
        assert Loader.Init(es) == EventsAt(s, init, key) && Loader.Last(es) == last.event;
        OwnLoader(s, init, u);
      }
    }
  }

  /** The events at a use's loader are those of the use. */
  lemma {:induction false} EventsOfUse(s: Setup, acts: seq<Act>, u: Use)
    requires forall i :: 0 <= i < |acts| && KeyOfUse(s, acts[i].use) == KeyOfUse(s, u) ==> acts[i].use == u
    ensures forall e :: e in EventsAt(s, acts, KeyOfUse(s, u)) <==> Act(u, e) in acts
  {
    if acts != [] {
      var n := |acts| - 1;
      EventsOfUse(s, acts[..n], u);
      assert acts == acts[..n] + [acts[n]];
    }
  }

  lemma {:induction false} UseEnqueuesValid(s: Setup, acts: seq<Act>, u: Use)
    requires forall i :: 0 <= i < |acts| && KeyOfUse(s, acts[i].use) == KeyOfUse(s, u) ==> acts[i].use == u
    requires forall i :: 0 <= i < |acts| && acts[i].use == u && acts[i].event.Enqueue? ==>
               ValidKey(s.fieldOf(u), acts[i].event.key)
    ensures EnqueuesValidKeys(s.fieldOf(u), EventsAt(s, acts, KeyOfUse(s, u)))
  {
    EventsOfUse(s, acts, u);
    var es := EventsAt(s, acts, KeyOfUse(s, u));
    forall n | 0 <= n < |es| && es[n].Enqueue? ensures ValidKey(s.fieldOf(u), es[n].key) {
      assert es[n] in es;
    }
  }

  /** A whole request. Over every interleaving of enqueues and fetches of all relationship fields and all their
      arguments, with unique constraint names and exact argument signatures, whatever a use fetches for a key
      it enqueued, cut to its page, is a page its own fallback query for that key may return. */
  lemma {:induction false} RequestRefinesFallback(s: Setup, acts: seq<Act>, u: Use, key: Key, answer: Answer)
    requires var all := acts + [Act(u, Fetch(key, answer))];
             && Separate(s, all) && LoadsAnswered(s, all)
             && RunAll(s, all)[KeyOfUse(s, u)].state.err.None?
    requires s.fieldOf(u).sig == s.sig && Assumptions(s.fieldOf(u))
    requires forall i :: 0 <= i < |acts| && acts[i].use == u && acts[i].event.Enqueue? ==>
               ValidKey(s.fieldOf(u), acts[i].event.key)
    requires Act(u, Enqueue(key)) in acts
    ensures var f := s.fieldOf(u);
            var rows := Served(s.sig, RunAll(s, acts + [Act(u, Fetch(key, answer))])[KeyOfUse(s, u)].state, key);
            rows.Ok? && |key| == |f.joinCols| && FallbackPage(f, key, Slice(rows.value, f.offset, f.limit))
  {
    var last := Act(u, Fetch(key, answer));
    var all, k, f := acts + [last], KeyOfUse(s, u), s.fieldOf(u);
    var es := EventsAt(s, acts, k);
    assert all[..|acts|] == acts && all[|acts|] == last;
    SeparateUses(s, all);
    OwnLoads(s, all, u);
    LoaderRuns(s, all, k);
    EventsAtLast(s, all, k);
    forall i | 0 <= i < |acts| && KeyOfUse(s, acts[i].use) == k ensures acts[i].use == u { assert all[i] == acts[i]; }
    EventsOfUse(s, acts, u);
    assert EnqueuesValidKeys(f, es) by { UseEnqueuesValid(s, acts, u); }
    RelationshipRefinesFallback(f, es, key, answer);
  }
}

/** The multi-round relationship loader: batching state, its runs, and the per-request loader set. */
module Loader {
  import opened Values
  import opened SqlMeaning
  import opened KeyConditions
  import opened Window

  // ----- one loader as a state machine -----

  datatype State = State(
    seen: set<string>,               // every signature ever enqueued
    pending: seq<Key>,               // enqueued but not yet sent
    loaded: set<string>,             // signatures already fetched
    byKey: map<string, seq<Row>>,    // grouped results, accumulated
    err: Option<string>)             // sticky

  const START := State({}, [], {}, map[], None)

  /** What the load function gives for a batch: grouped rows, or a failure. */
  datatype Answer = Grouped(groups: map<string, seq<Row>>) | Failed(reason: string)

  function Sigs(sig: Signature, keys: seq<Key>): set<string> { set k | k in keys :: sig(k) }

  function Enqueued(sig: Signature, s: State, key: Key): State {
    if sig(key) in s.seen then s else s.(seen := s.seen + {sig(key)}, pending := s.pending + [key])
  }

  /** A fetch sends the pending batch when its own key is not loaded yet and something is pending. */
  predicate Sends(sig: Signature, s: State, key: Key) { s.err.None? && sig(key) !in s.loaded && s.pending != [] }

  function Fetched(sig: Signature, s: State, key: Key, answer: Answer): State {
    if !Sends(sig, s, key) then s
    else match answer
      case Failed(reason) => s.(pending := [], err := Some(reason))
      case Grouped(groups) => s.(pending := [], loaded := s.loaded + Sigs(sig, s.pending), byKey := s.byKey + groups)
  }

  function Served(sig: Signature, s: State, key: Key): Result<seq<Row>> {
    match s.err case Some(reason) => Err(reason) case None => Ok(Get(s.byKey, sig(key)))
  }

  class RelLoader {
    const sig: Signature
    var seen: set<string>
    var pending: seq<Key>
    var loaded: set<string>
    var byKey: map<string, seq<Row>>
    var err: Option<string>

    function Now(): State
      reads this
    {
      State(seen, pending, loaded, byKey, err)
    }

    constructor (sig: Signature)
      ensures this.sig == sig && Now() == START
    {
      this.sig := sig;
      seen, pending, loaded, byKey, err := {}, [], {}, map[], None;
    }

    /** Registers a parent key for the next batch, once in the loader's lifetime. */
    method Enqueue(key: Key)
      modifies this
      ensures Now() == Enqueued(sig, old(Now()), key)
    {
      var s := sig(key);
      if s !in seen {
        seen := seen + {s};
        pending := pending + [key];
      }
    }

    /** The rows of one key. `answer` is what the load function would return if it were called now. */
    method Fetch(key: Key, answer: Answer) returns (rows: Result<seq<Row>>)
      modifies this
      ensures Now() == Fetched(sig, old(Now()), key, answer)
      ensures rows == Served(sig, Now(), key)
    {
      var s := sig(key);
      if err.Some? { return Err(err.value); }
      if s !in loaded && pending != [] {
        var batch := pending;
        pending := [];
        if answer.Failed? {
          err := Some(answer.reason);
          return Err(answer.reason);
        }
        ghost var before := loaded;
        for i := 0 to |batch|
          invariant loaded == before + Sigs(sig, batch[..i])
          invariant seen == old(seen) && pending == [] && byKey == old(byKey) && err == old(err)
        {
          assert batch[..i + 1] == batch[..i] + [batch[i]];
          loaded := loaded + {sig(batch[i])};
        }
        assert batch[..|batch|] == batch;
        byKey := byKey + answer.groups;
      }
      return Ok(Get(byKey, s));
    }
  }

  // ----- runs -----

  datatype Event = Enqueue(key: Key) | Fetch(key: Key, answer: Answer)

  function Step(sig: Signature, s: State, e: Event): State {
    match e
    case Enqueue(key) => Enqueued(sig, s, key)
    case Fetch(key, answer) => Fetched(sig, s, key, answer)
  }

  function Init(es: seq<Event>): seq<Event>
    requires es != []
  {
    es[..|es| - 1]
  }

  function Last(es: seq<Event>): Event
    requires es != []
  {
    es[|es| - 1]
  }

  /** The state after any interleaving of enqueues and fetches. */
  function Run(sig: Signature, es: seq<Event>): State {
    if es == [] then START else Step(sig, Run(sig, Init(es)), Last(es))
  }

  predicate LastSends(sig: Signature, es: seq<Event>)
    requires es != []
  {
    Last(es).Fetch? && Sends(sig, Run(sig, Init(es)), Last(es).key)
  }

  /** The batches sent to the database during a run, failed ones included. */
  function Sent(sig: Signature, es: seq<Event>): seq<seq<Key>> {
    if es == [] then []
    else Sent(sig, Init(es)) + if LastSends(sig, es) then [Run(sig, Init(es)).pending] else []
  }

  /** A grouped answer covers its batch and nothing else, and gives every key a permitted group. */
  ghost predicate Answers(sig: Signature, batch: seq<Key>, groups: map<string, seq<Row>>,
                          permitted: (string, seq<Row>) -> bool) {
    groups.Keys <= Sigs(sig, batch) && forall k | k in batch :: permitted(sig(k), Get(groups, sig(k)))
  }

  /** Every batch of the run was answered for that batch, or failed. */
  ghost predicate Answered(sig: Signature, es: seq<Event>, permitted: (string, seq<Row>) -> bool) {
    es == [] ||
    (Answered(sig, Init(es), permitted) &&
     (LastSends(sig, es) && Last(es).answer.Grouped? ==>
        Answers(sig, Run(sig, Init(es)).pending, Last(es).answer.groups, permitted)))
  }

  predicate DistinctSigs(sig: Signature, keys: seq<Key>) {
    forall i, j :: 0 <= i < j < |keys| ==> sig(keys[i]) != sig(keys[j])
  }

  function Concat(batches: seq<seq<Key>>): seq<Key> {
    if batches == [] then [] else Concat(batches[..|batches| - 1]) + batches[|batches| - 1]
  }

  lemma ConcatAppend(batches: seq<seq<Key>>, b: seq<Key>)
    ensures Concat(batches + [b]) == Concat(batches) + b
  {
    assert (batches + [b])[..|batches|] == batches;
  }

  lemma SigsConcat(sig: Signature, a: seq<Key>, b: seq<Key>)
    ensures Sigs(sig, a + b) == Sigs(sig, a) + Sigs(sig, b)
  {
  }

  lemma OneMoreKey(sig: Signature, keys: seq<Key>, key: Key)
    requires DistinctSigs(sig, keys) && sig(key) !in Sigs(sig, keys)
    ensures DistinctSigs(sig, keys + [key]) && Sigs(sig, keys + [key]) == Sigs(sig, keys) + {sig(key)}
  {
    forall i | 0 <= i < |keys| ensures sig(keys[i]) != sig(key) { assert keys[i] in keys; }
    SigsConcat(sig, keys, [key]);
  }

  /** Over every run, each distinct enqueued key is sent in exactly one batch or is still pending:
      the batches followed by the pending keys hold every enqueued signature, each once. */
  lemma {:induction false} EachKeySentOnce(sig: Signature, es: seq<Event>)
    ensures var all := Concat(Sent(sig, es)) + Run(sig, es).pending;
            DistinctSigs(sig, all) && Sigs(sig, all) == Run(sig, es).seen
  {
    if es != [] {
      EachKeySentOnce(sig, Init(es));
      var s, t := Run(sig, Init(es)), Run(sig, es);
      var sent := Concat(Sent(sig, Init(es)));
      if LastSends(sig, es) {
        ConcatAppend(Sent(sig, Init(es)), s.pending);
        assert t.pending == [] && t.seen == s.seen;
        assert Concat(Sent(sig, es)) == sent + s.pending && sent + s.pending + [] == sent + s.pending;
      } else {
        assert Sent(sig, es) == Sent(sig, Init(es));
        assert Sent(sig, Init(es)) + [] == Sent(sig, Init(es));
        if t != s {
          assert t == Enqueued(sig, s, Last(es).key);
          assert sent + t.pending == sent + s.pending + [Last(es).key];
          OneMoreKey(sig, sent + s.pending, Last(es).key);
        }
      }
    }
  }

  /** Without a load error the signatures seen are the disjoint union of those loaded and those pending. */
  lemma {:induction false} SeenIsLoadedOrPending(sig: Signature, es: seq<Event>)
    ensures var s := Run(sig, es);
            s.loaded !! Sigs(sig, s.pending) && s.loaded <= s.seen &&
            (s.err.None? ==> s.seen == s.loaded + Sigs(sig, s.pending))
  {
    if es != [] {
      SeenIsLoadedOrPending(sig, Init(es));
      var s := Run(sig, Init(es));
      if Last(es).Enqueue? && sig(Last(es).key) !in s.seen {
        SigsConcat(sig, s.pending, [Last(es).key]);
        assert Sigs(sig, [Last(es).key]) == {sig(Last(es).key)};
      }
    }
  }

  /** Only enqueued keys are seen, and all of them. */
  lemma {:induction false} SeenIff(sig: Signature, es: seq<Event>, s: string)
    ensures s in Run(sig, es).seen <==> exists i :: 0 <= i < |es| && es[i].Enqueue? && sig(es[i].key) == s
  {
    if es != [] {
      SeenIff(sig, Init(es), s);
      assert forall i :: 0 <= i < |es| - 1 ==> es[i] == Init(es)[i];
      if exists i :: 0 <= i < |es| && es[i].Enqueue? && sig(es[i].key) == s {
        var i :| 0 <= i < |es| && es[i].Enqueue? && sig(es[i].key) == s;
        if i < |es| - 1 { assert Init(es)[i].Enqueue?; }
      }
    }
  }

  /** What is pending was enqueued. */
  lemma {:induction false} PendingWasEnqueued(sig: Signature, es: seq<Event>)
    ensures forall k :: k in Run(sig, es).pending ==> Enqueue(k) in es
  {
    if es != [] {
      PendingWasEnqueued(sig, Init(es));
      assert es == Init(es) + [Last(es)];
    }
  }

  /** Every loaded signature keeps the permitted group its own batch gave it. */
  lemma {:induction false} LoadedIsPermitted(sig: Signature, es: seq<Event>, permitted: (string, seq<Row>) -> bool)
    requires Answered(sig, es, permitted)
    ensures var s := Run(sig, es);
            s.byKey.Keys <= s.loaded && forall k | k in s.loaded :: permitted(k, Get(s.byKey, k))
  {
    if es != [] {
      LoadedIsPermitted(sig, Init(es), permitted);
      if LastSends(sig, es) && Last(es).answer.Grouped? {
        var s, groups := Run(sig, Init(es)), Last(es).answer.groups;
        SeenIsLoadedOrPending(sig, Init(es));
        forall k | k in s.loaded + Sigs(sig, s.pending) ensures permitted(k, Get(s.byKey + groups, k)) {
          if k in s.loaded { assert k !in groups; } else { assert k !in s.byKey; }
        }
      }
    }
  }

  /** The loader refines direct lookup: over every interleaving, if no load has failed, fetching a key
      that was enqueued returns a group permitted for that very key. */
  lemma FetchReturnsPermitted(sig: Signature, es: seq<Event>, key: Key, answer: Answer,
                              permitted: (string, seq<Row>) -> bool)
    requires Answered(sig, es + [Fetch(key, answer)], permitted)
    requires exists i :: 0 <= i < |es| && es[i].Enqueue? && sig(es[i].key) == sig(key)
    requires Run(sig, es + [Fetch(key, answer)]).err.None?
    ensures var rows := Served(sig, Run(sig, es + [Fetch(key, answer)]), key);
            rows.Ok? && permitted(sig(key), rows.value)
  {
    var all := es + [Fetch(key, answer)];
    assert Init(all) == es && Last(all) == Fetch(key, answer);
    SeenIff(sig, es, sig(key));
    SeenIsLoadedOrPending(sig, es);
    FetchLoads(sig, Run(sig, es), key, answer);
    LoadedIsPermitted(sig, all, permitted);
  }

  lemma FetchLoads(sig: Signature, s: State, key: Key, answer: Answer)
    requires sig(key) in s.seen && (s.err.None? ==> s.seen == s.loaded + Sigs(sig, s.pending))
    requires Fetched(sig, s, key, answer).err.None?
    ensures sig(key) in Fetched(sig, s, key, answer).loaded
  {
  }

  /** No grouped result is ever overwritten by a later batch. */
  lemma {:induction false} GroupsAreKept(sig: Signature, es: seq<Event>, more: seq<Event>,
                                         permitted: (string, seq<Row>) -> bool, s: string)
    requires Answered(sig, es + more, permitted) && s in Run(sig, es).byKey
    ensures s in Run(sig, es + more).byKey && Run(sig, es + more).byKey[s] == Run(sig, es).byKey[s]
    decreases |more|
  {
    if more == [] {
      assert es + more == es;
    } else {
      var all := es + more;
      assert Init(all) == es + Init(more);
      GroupsAreKept(sig, es, Init(more), permitted, s);
      SeenIsLoadedOrPending(sig, Init(all));
      LoadedIsPermitted(sig, Init(all), permitted);
    }
  }

  /** After a load error every fetch fails with that error and nothing more is sent. */
  lemma {:induction false} ErrorIsFinal(sig: Signature, es: seq<Event>, more: seq<Event>)
    requires Run(sig, es).err.Some?
    ensures Run(sig, es + more).err == Run(sig, es).err
    ensures Sent(sig, es + more) == Sent(sig, es)
    ensures forall key :: Served(sig, Run(sig, es + more), key) == Err(Run(sig, es).err.value)
    decreases |more|
  {
    if more == [] {
      assert es + more == es;
    } else {
      assert Init(es + more) == es + Init(more);
      ErrorIsFinal(sig, es, Init(more));
    }
  }

  lemma {:induction false} LoadedStays(sig: Signature, es: seq<Event>, more: seq<Event>)
    ensures Run(sig, es).loaded <= Run(sig, es + more).loaded
    decreases |more|
  {
    if more == [] {
      assert es + more == es;
    } else {
      assert Init(es + more) == es + Init(more);
      LoadedStays(sig, es, Init(more));
    }
  }

  /** Fetching a key again, at any later moment, sends nothing and changes nothing: keys enqueued since then wait for a
      fetch that needs them. */
  lemma RefetchSendsNothing(sig: Signature, es: seq<Event>, key: Key, answer: Answer, more: seq<Event>, again: Answer)
    requires Enqueue(key) in es && Run(sig, es + [Fetch(key, answer)] + more).err.None?
    ensures var all := es + [Fetch(key, answer)] + more;
            && Sent(sig, all + [Fetch(key, again)]) == Sent(sig, all)
            && Run(sig, all + [Fetch(key, again)]) == Run(sig, all)
  {
    var once := es + [Fetch(key, answer)];
    var all := once + more;
    assert Init(once) == es && Last(once) == Fetch(key, answer);
    assert Init(all + [Fetch(key, again)]) == all && Last(all + [Fetch(key, again)]) == Fetch(key, again);
    if Run(sig, once).err.Some? { ErrorIsFinal(sig, once, more); }
    var i :| 0 <= i < |es| && es[i] == Enqueue(key);
    SeenIff(sig, es, sig(key));
    SeenIsLoadedOrPending(sig, es);
    FetchLoads(sig, Run(sig, es), key, answer);
    LoadedStays(sig, once, more);
  }

  // ----- waves -----

  /** One breadth-first wave of the executor: keys are enqueued before any of them is fetched. */
  predicate Wave(w: seq<Event>) {
    forall i, j :: 0 <= i < j < |w| && w[i].Fetch? ==> w[j].Fetch?
  }

  function Waves(ws: seq<seq<Event>>): seq<Event> {
    if ws == [] then [] else Waves(ws[..|ws| - 1]) + ws[|ws| - 1]
  }

  /** Within a wave at most one batch is sent, and once it is sent nothing is pending. */
  lemma {:induction false} OneBatchPerWave(sig: Signature, es: seq<Event>, w: seq<Event>)
    requires Wave(w)
    ensures |Sent(sig, es)| <= |Sent(sig, es + w)| <= |Sent(sig, es)| + 1
    ensures |Sent(sig, es + w)| == |Sent(sig, es)| + 1 ==> w != [] && Last(w).Fetch? && Run(sig, es + w).pending == []
    decreases |w|
  {
    if w == [] {
      assert es + w == es;
    } else {
      assert Init(es + w) == es + Init(w);
      OneBatchPerWave(sig, es, Init(w));
      if Last(w).Enqueue? && Init(w) != [] { assert Last(Init(w)) == w[|w| - 2]; }
    }
  }

  /** A run of waves sends at most one batch per wave. */
  lemma {:induction false} BatchCountBound(sig: Signature, ws: seq<seq<Event>>)
    requires forall i :: 0 <= i < |ws| ==> Wave(ws[i])
    ensures |Sent(sig, Waves(ws))| <= |ws|
  {
    if ws != [] {
      BatchCountBound(sig, ws[..|ws| - 1]);
      OneBatchPerWave(sig, Waves(ws[..|ws| - 1]), ws[|ws| - 1]);
    }
  }

  // ----- the per-request loader set -----

  /** The identity of one relationship field. */
  datatype Relation = Relation(direction: string, constraint: string, table: string)

  /** One request for a loader: the relationship and the signature of its arguments. */
  datatype Request = Request(relation: Relation, args: string)

  const NUL := '\0'

  /** The loader key leaves the table out. */
  function LoaderKey(direction: string, constraint: string, args: string): string {
    direction + [NUL] + constraint + [NUL] + args
  }

  function RequestKey(q: Request): string { LoaderKey(q.relation.direction, q.relation.constraint, q.args) }

  class LoaderSet {
    var loaders: map<string, RelLoader>

    constructor ()
      ensures loaders == map[]
    {
      loaders := map[];
    }

    /** The loader for a key, created on first use. */
    method GetOrCreate(key: string, sig: Signature) returns (l: RelLoader)
      modifies this
      ensures key in old(loaders) ==> l == old(loaders[key]) && loaders == old(loaders)
      ensures key !in old(loaders) ==> fresh(l) && l.sig == sig && l.Now() == START && loaders == old(loaders)[key := l]
    {
      if key in loaders { return loaders[key]; }
      l := new RelLoader(sig);
      loaders := loaders[key := l];
    }
  }

  /** The request whose make function built the loader that serves request i: the first with its key. */
  function Maker(qs: seq<Request>, i: nat): (j: nat)
    requires i < |qs|
    ensures j <= i && RequestKey(qs[j]) == RequestKey(qs[i])
    ensures forall n :: 0 <= n < j ==> RequestKey(qs[n]) != RequestKey(qs[i])
  {
    FirstFrom(qs, i, 0)
  }

  function FirstFrom(qs: seq<Request>, i: nat, from: nat): (j: nat)
    requires from <= i < |qs|
    ensures from <= j <= i && RequestKey(qs[j]) == RequestKey(qs[i])
    ensures forall n :: from <= n < j ==> RequestKey(qs[n]) != RequestKey(qs[i])
    decreases i - from
  {
    if RequestKey(qs[from]) == RequestKey(qs[i]) then from else FirstFrom(qs, i, from + 1)
  }

  predicate NoNul(s: string) { NUL !in s }

  lemma SplitAtNul(a: string, x: string, b: string, y: string)
    requires NoNul(a) && NoNul(b) && a + [NUL] + x == b + [NUL] + y
    ensures a == b && x == y
  {
    var s := a + [NUL] + x;
    assert s[|a|] == NUL && s[|b|] == NUL;
    assert forall i :: 0 <= i < |a| ==> s[i] == a[i] && s[i] != NUL;
    assert forall i :: 0 <= i < |b| ==> s[i] == b[i] && s[i] != NUL;
    assert |a| == |b|;
    assert a == s[..|a|] && b == s[..|b|];
    assert x == s[|a| + 1..] && y == s[|b| + 1..];
  }

  /** Loader keys are unambiguous: identifiers hold no NUL byte. */
  lemma LoaderKeyInjective(d: string, c: string, a: string, d': string, c': string, a': string)
    requires NoNul(d) && NoNul(c) && NoNul(d') && NoNul(c')
    requires LoaderKey(d, c, a) == LoaderKey(d', c', a')
    ensures d == d' && c == c' && a == a'
  {
    assert LoaderKey(d, c, a) == d + [NUL] + (c + [NUL] + a);
    assert LoaderKey(d', c', a') == d' + [NUL] + (c' + [NUL] + a');
    SplitAtNul(d, c + [NUL] + a, d', c' + [NUL] + a');
    SplitAtNul(c, a, c', a');
  }

  /** Foreign-key constraint names are unique per direction across the exposed relationships. */
  predicate ConstraintsUnique(relations: set<Relation>) {
    forall r, s :: r in relations && s in relations && r.direction == s.direction && r.constraint == s.constraint ==>
        r == s
  }

  ghost predicate ServedByOwn(relations: set<Relation>, qs: seq<Request>) {
    (forall i :: 0 <= i < |qs| ==> qs[i].relation in relations) ==>
    forall i :: 0 <= i < |qs| ==> qs[Maker(qs, i)] == qs[i]
  }

  /** Every request is served by a loader built for its own relationship and arguments, in every order
      of requests, exactly when no two relationships share direction and constraint name. */
  lemma OwnLoaderIff(relations: set<Relation>)
    requires forall r :: r in relations ==> NoNul(r.direction) && NoNul(r.constraint)
    ensures (forall qs: seq<Request> :: ServedByOwn(relations, qs)) <==> ConstraintsUnique(relations)
  {
    if forall qs: seq<Request> :: ServedByOwn(relations, qs) {
      forall r, s | r in relations && s in relations && r.direction == s.direction && r.constraint == s.constraint
        ensures r == s
      {
        var qs := [Request(r, ""), Request(s, "")];
        assert ServedByOwn(relations, qs);
        assert RequestKey(qs[0]) == RequestKey(qs[1]);
        assert Maker(qs, 1) == 0;
      }
    }
    if ConstraintsUnique(relations) {
      forall qs: seq<Request>, i | (forall n :: 0 <= n < |qs| ==> qs[n].relation in relations) && 0 <= i < |qs|
        ensures qs[Maker(qs, i)] == qs[i]
      {
        var q, m := qs[i], qs[Maker(qs, i)];
        LoaderKeyInjective(q.relation.direction, q.relation.constraint, q.args, m.relation.direction,
                           m.relation.constraint, m.args);
      }
      forall qs: seq<Request> ensures ServedByOwn(relations, qs) {}
    }
  }

  /** The instance: two child tables whose foreign keys are both named "fk_author". The second request is
      served by the loader built for the first, which loads the other table. */
  lemma SameConstraintSharesLoader()
    ensures var posts, comments := Relation("in", "fk_author", "posts"), Relation("in", "fk_author", "comments");
            var qs := [Request(posts, "{}"), Request(comments, "{}")];
            && RequestKey(qs[0]) == RequestKey(qs[1]) && Maker(qs, 1) == 0 && qs[0].relation != qs[1].relation
            && !ServedByOwn({posts, comments}, qs)
  {
    var posts, comments := Relation("in", "fk_author", "posts"), Relation("in", "fk_author", "comments");
    var qs := [Request(posts, "{}"), Request(comments, "{}")];
    assert posts.table[0] != comments.table[0];
    assert qs[1] != qs[0];
  }
}

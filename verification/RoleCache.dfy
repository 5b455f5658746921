/** The TTL cache of the database role resolver: concurrent lookups interleave at its critical sections,
    the clock only moves forward, and the identity table may change at any time. */
module RoleCache {
  import opened Values
  import opened Claims

  /** A cached role with its history: when it was read from the database and when it was stored. */
  datatype Entry = Entry(role: string, readAt: int, storedAt: int)

  datatype Answer =
    | FromCache(role: string, at: int, readAt: int, storedAt: int)
    | FromDatabase(role: string, readAt: int)
    | Refused

  /** Where one lookup stands. */
  datatype Lookup =
    | Peeked(id: Value, seen: Option<Entry>)                 // has looked into the cache
    | Asking(id: Value)                                      // is about to query the database
    | Holding(id: Value, role: string, readAt: int)          // has a role to store
    | Answered(id: Value, answer: Answer)

  datatype Action = Start(id: Value) | Decide | Query | Store

  /** One step of lookup p at a moment of the clock. */
  datatype Event = Event(p: nat, at: int, action: Action)

  datatype World = World(cache: map<string, Entry>, lookups: map<nat, Lookup>)

  /** The identity table over time: the role of an id, absent when there is no row or no role. */
  type Table = (Value, int) -> Option<string>

  /** Go's rendering of a float (%v), by its bits. */
  type FloatPrinter = int -> string

  /** What stays the same during a run. */
  datatype Setup = Setup(ttl: int, show: FloatPrinter, db: Table)

  /** The cache key of an id (Go's %v). */
  function PrintId(show: FloatPrinter, id: Value): string {
    match id case Str(s) => s case Int(n) => Decimal(n) case Float(bits) => show(bits) case _ => ""
  }

  /** The ids the resolver looks up: non-empty strings and numbers. */
  predicate AcceptedId(id: Value) { id.Int? || id.Float? || (id.Str? && id.s != "") }

  /** The id a token carries; a float with an integral value is looked up as that integer. */
  function IdOf(integral: int -> Option<int>, claims: ClaimMap, path: string): (id: Option<Value>)
    ensures id.Some? ==> AcceptedId(id.value)
  {
    match LookupClaim(claims, path)
    case Some(Str(s)) => if s == "" then None else Some(Str(s))
    case Some(Float(bits)) => (match integral(bits) case Some(n) => Some(Int(n)) case None => Some(Float(bits)))
    case _ => None
  }

  function Find(cache: map<string, Entry>, key: string): Option<Entry> {
    if key in cache then Some(cache[key]) else None
  }

  /** One atomic step of the resolver; a step that does not fit its lookup's stage does nothing. */
  function Next(s: Setup, w: World, e: Event): World {
    match e.action
    case Start(id) =>
      if e.p in w.lookups then w
      else w.(lookups := w.lookups[e.p := if s.ttl > 0 then Peeked(id, Find(w.cache, PrintId(s.show, id)))
                                          else Asking(id)])
    case Decide =>
      if e.p in w.lookups && w.lookups[e.p].Peeked? then
        var l := w.lookups[e.p];
        if l.seen.Some? && e.at < l.seen.value.storedAt + s.ttl then
          w.(lookups := w.lookups[e.p := Answered(l.id,
                                                  FromCache(l.seen.value.role, e.at, l.seen.value.readAt,
                                                            l.seen.value.storedAt))])
        else w.(lookups := w.lookups[e.p := Asking(l.id)])
      else w
    case Query =>
      if e.p in w.lookups && w.lookups[e.p].Asking? then
        var id := w.lookups[e.p].id;
        match s.db(id, e.at)
        case None => w.(lookups := w.lookups[e.p := Answered(id, Refused)])
        case Some(role) =>
          if s.ttl > 0 then w.(lookups := w.lookups[e.p := Holding(id, role, e.at)])
          else w.(lookups := w.lookups[e.p := Answered(id, FromDatabase(role, e.at))])
      else w
    case Store =>
      if e.p in w.lookups && w.lookups[e.p].Holding? then
        var l := w.lookups[e.p];
        World(w.cache[PrintId(s.show, l.id) := Entry(l.role, l.readAt, e.at)],
              w.lookups[e.p := Answered(l.id, FromDatabase(l.role, l.readAt))])
      else w
  }

  function Run(s: Setup, es: seq<Event>): World {
    if es == [] then World(map[], map[]) else Next(s, Run(s, es[..|es| - 1]), es[|es| - 1])
  }

  predicate Timed(es: seq<Event>) { forall i, j :: 0 <= i < j < |es| ==> es[i].at <= es[j].at }

  predicate AcceptedIds(es: seq<Event>) {
    forall i :: 0 <= i < |es| && es[i].action.Start? ==> AcceptedId(es[i].action.id)
  }

  /** The database answers alike for ids that print alike. */
  ghost predicate DependsOnPrint(s: Setup) {
    forall a: Value, b: Value, t: int ::
      AcceptedId(a) && AcceptedId(b) && PrintId(s.show, a) == PrintId(s.show, b) ==> s.db(a, t) == s.db(b, t)
  }

  /** The same, among the ids looked up in one run. */
  ghost predicate LikeRoles(s: Setup, es: seq<Event>) {
    forall i, j, t: int ::
      0 <= i < |es| && 0 <= j < |es| && es[i].action.Start? && es[j].action.Start?
      && PrintId(s.show, es[i].action.id) == PrintId(s.show, es[j].action.id) ==>
        s.db(es[i].action.id, t) == s.db(es[j].action.id, t)
  }

  // ----- which ids share a cache key -----

  /** Of strings and integers, different ids share a key only as an integer and its own numeral. */
  lemma SharesKeyIff(show: FloatPrinter, a: Value, b: Value)
    requires (a.Str? || a.Int?) && (b.Str? || b.Int?)
    ensures PrintId(show, a) == PrintId(show, b) <==>
            a == b || (a.Int? && b == Str(Decimal(a.n))) || (b.Int? && a == Str(Decimal(b.n)))
    ensures a.Str? ==> PrintId(show, a) == a.s
  {
    if a.Int? { DecimalReads(a.n); }
    if b.Int? { DecimalReads(b.n); }
  }

  /** The ids of a run are all non-empty strings, or all integers, as one identity column gives them. */
  predicate OneKindOfId(es: seq<Event>) {
    || (forall i :: 0 <= i < |es| && es[i].action.Start? ==> es[i].action.id.Str? && es[i].action.id.s != "")
    || (forall i :: 0 <= i < |es| && es[i].action.Start? ==> es[i].action.id.Int?)
  }

  lemma OneKindLikeRoles(s: Setup, es: seq<Event>)
    requires OneKindOfId(es)
    ensures LikeRoles(s, es)
  {
    forall i, j, t: int | 0 <= i < |es| && 0 <= j < |es| && es[i].action.Start? && es[j].action.Start?
                          && PrintId(s.show, es[i].action.id) == PrintId(s.show, es[j].action.id)
      ensures s.db(es[i].action.id, t) == s.db(es[j].action.id, t)
    {
      SharesKeyIff(s.show, es[i].action.id, es[j].action.id);
    }
  }

  // ----- where everything in the cache and in the answers comes from -----

  predicate Started(es: seq<Event>, p: nat, id: Value) {
    exists i :: 0 <= i < |es| && es[i].p == p && es[i].action == Start(id)
  }

  /** Lookup q, for an id printed as key, read the entry's role at step i and stored it at step j. */
  predicate WrittenBy(s: Setup, es: seq<Event>, w: World, key: string, e: Entry, q: nat, i: nat, j: nat) {
    && i < j < |es| && es[i] == Event(q, e.readAt, Query) && es[j] == Event(q, e.storedAt, Store)
    && q in w.lookups && w.lookups[q] == Answered(w.lookups[q].id, FromDatabase(e.role, e.readAt))
    && PrintId(s.show, w.lookups[q].id) == key
  }

  /** Some lookup wrote the entry before step n. */
  ghost predicate Written(s: Setup, es: seq<Event>, w: World, n: nat, key: string, e: Entry) {
    exists q: nat, i: nat, j: nat :: j < n && WrittenBy(s, es, w, key, e, q, i, j)
  }

  /** The lookup was answered from the cache at step d, with an entry written before, still within its time. */
  ghost predicate HitAt(s: Setup, es: seq<Event>, w: World, p: nat, id: Value, a: Answer, d: nat)
    requires a.FromCache?
  {
    && d < |es| && es[d] == Event(p, a.at, Decide) && a.at < a.storedAt + s.ttl
    && Written(s, es, w, d, PrintId(s.show, id), Entry(a.role, a.readAt, a.storedAt))
  }

  ghost predicate LookupTraced(s: Setup, es: seq<Event>, w: World, p: nat, l: Lookup) {
    && Started(es, p, l.id)
    && match l
       case Peeked(id, seen) => s.ttl > 0 && (seen.Some? ==> Written(s, es, w, |es|, PrintId(s.show, id), seen.value))
       case Asking(_) => true
       case Holding(id, role, readAt) => s.db(id, readAt) == Some(role) && Event(p, readAt, Query) in es
       case Answered(id, answer) =>
         match answer
         case FromCache(_, _, _, _) => s.ttl > 0 && exists d :: HitAt(s, es, w, p, id, answer, d)
         case FromDatabase(role, readAt) => s.db(id, readAt) == Some(role) && Event(p, readAt, Query) in es
         case Refused => true
  }

  ghost predicate Traced(s: Setup, es: seq<Event>, w: World) {
    && (forall p | p in w.lookups :: LookupTraced(s, es, w, p, w.lookups[p]))
    && (forall k | k in w.cache :: Written(s, es, w, |es|, k, w.cache[k]))
    && (s.ttl <= 0 ==> w.cache == map[] && forall p | p in w.lookups :: !w.lookups[p].Holding?)
  }

  lemma AnsweredStays(s: Setup, w: World, e: Event, q: nat)
    requires q in w.lookups && w.lookups[q].Answered?
    ensures q in Next(s, w, e).lookups && Next(s, w, e).lookups[q] == w.lookups[q]
  {
  }

  lemma WrittenStays(s: Setup, es: seq<Event>, w: World, e: Event, n: nat, key: string, x: Entry)
    requires Written(s, es, w, n, key, x)
    ensures Written(s, es + [e], Next(s, w, e), n, key, x)
  {
    var q: nat, i: nat, j: nat :| j < n && WrittenBy(s, es, w, key, x, q, i, j);
    AnsweredStays(s, w, e, q);
    assert WrittenBy(s, es + [e], Next(s, w, e), key, x, q, i, j);
  }

  /** What was traced stays traced. */
  lemma TraceStays(s: Setup, es: seq<Event>, w: World, e: Event, p: nat, l: Lookup)
    requires LookupTraced(s, es, w, p, l)
    ensures LookupTraced(s, es + [e], Next(s, w, e), p, l)
  {
    var all, n := es + [e], Next(s, w, e);
    var i :| 0 <= i < |es| && es[i].p == p && es[i].action == Start(l.id);
    assert all[i] == es[i];
    match l
    case Peeked(id, seen) =>
      if seen.Some? {
        WrittenStays(s, es, w, e, |es|, PrintId(s.show, id), seen.value);
        var q: nat, a: nat, b: nat :| b < |es| && WrittenBy(s, all, n, PrintId(s.show, id), seen.value, q, a, b);
      }
    case Answered(id, answer) =>
      if answer.FromCache? {
        var d :| HitAt(s, es, w, p, id, answer, d);
        WrittenStays(s, es, w, e, d, PrintId(s.show, id), Entry(answer.role, answer.readAt, answer.storedAt));
        assert HitAt(s, all, n, p, id, answer, d);
      }
    case _ =>
  }

  /** What the acting lookup becomes is traced. */
  lemma TraceMoves(s: Setup, es: seq<Event>, w: World, e: Event)
    requires Traced(s, es, w)
    requires e.p in Next(s, w, e).lookups && (e.p !in w.lookups || Next(s, w, e).lookups[e.p] != w.lookups[e.p])
    ensures LookupTraced(s, es + [e], Next(s, w, e), e.p, Next(s, w, e).lookups[e.p])
  {
    var all, n := es + [e], Next(s, w, e);
    assert all[|es|] == e;
    match e.action
    case Start(id) =>
      assert Started(all, e.p, id);
      var key := PrintId(s.show, id);
      if s.ttl > 0 && key in w.cache { WrittenStays(s, es, w, e, |es|, key, w.cache[key]); }
    case Decide =>
      var l := w.lookups[e.p];
      TraceStays(s, es, w, e, e.p, l);
      if n.lookups[e.p].Answered? {
        WrittenStays(s, es, w, e, |es|, PrintId(s.show, l.id), l.seen.value);
        assert HitAt(s, all, n, e.p, l.id, n.lookups[e.p].answer, |es|);
      }
    case Query =>
      TraceStays(s, es, w, e, e.p, w.lookups[e.p]);
      assert e in all;
    case Store =>
      TraceStays(s, es, w, e, e.p, w.lookups[e.p]);
  }

  /** The entry a store writes was written by the lookup that stores it. */
  lemma StoreIsWritten(s: Setup, es: seq<Event>, w: World, e: Event)
    requires Traced(s, es, w) && e.action.Store? && e.p in w.lookups && w.lookups[e.p].Holding?
    ensures var l := w.lookups[e.p];
            Written(s, es + [e], Next(s, w, e), |es| + 1, PrintId(s.show, l.id), Entry(l.role, l.readAt, e.at))
  {
    var l := w.lookups[e.p];
    assert LookupTraced(s, es, w, e.p, l);
    var i :| 0 <= i < |es| && es[i] == Event(e.p, l.readAt, Query);
    var all := es + [e];
    assert all[i] == es[i] && all[|es|] == e == Event(e.p, e.at, Store);
    assert WrittenBy(s, all, Next(s, w, e), PrintId(s.show, l.id), Entry(l.role, l.readAt, e.at), e.p, i, |es|);
  }

  /** Only a store changes the cache, and only at its own key. */
  lemma CacheChanges(s: Setup, w: World, e: Event, k: string)
    requires k in Next(s, w, e).cache && !(k in w.cache && Next(s, w, e).cache[k] == w.cache[k])
    ensures e.action.Store? && e.p in w.lookups && w.lookups[e.p].Holding?
    ensures var l := w.lookups[e.p];
            k == PrintId(s.show, l.id) && Next(s, w, e).cache[k] == Entry(l.role, l.readAt, e.at)
  {
  }

  lemma WrittenLater(s: Setup, es: seq<Event>, w: World, n: nat, m: nat, key: string, x: Entry)
    requires Written(s, es, w, n, key, x) && n <= m
    ensures Written(s, es, w, m, key, x)
  {
    var q: nat, i: nat, j: nat :| j < n && WrittenBy(s, es, w, key, x, q, i, j);
    assert j < m;
  }

  lemma CacheStep(s: Setup, es: seq<Event>, w: World, e: Event, k: string)
    requires Traced(s, es, w) && k in Next(s, w, e).cache
    ensures Written(s, es + [e], Next(s, w, e), |es| + 1, k, Next(s, w, e).cache[k])
  {
    if k in w.cache && Next(s, w, e).cache[k] == w.cache[k] {
      WrittenStays(s, es, w, e, |es|, k, w.cache[k]);
      WrittenLater(s, es + [e], Next(s, w, e), |es|, |es| + 1, k, w.cache[k]);
    } else {
      CacheChanges(s, w, e, k);
      StoreIsWritten(s, es, w, e);
    }
  }

  /** Without caching nothing is stored, nor held for storing. */
  lemma NoCacheStep(s: Setup, es: seq<Event>, w: World, e: Event)
    requires Traced(s, es, w) && s.ttl <= 0
    ensures Next(s, w, e).cache == map[] && forall p | p in Next(s, w, e).lookups :: !Next(s, w, e).lookups[p].Holding?
  {
  }

  lemma OthersStay(s: Setup, w: World, e: Event, p: nat)
    requires p in Next(s, w, e).lookups && p != e.p
    ensures p in w.lookups && Next(s, w, e).lookups[p] == w.lookups[p]
  {
  }

  lemma TraceStep(s: Setup, es: seq<Event>, w: World, e: Event)
    requires Traced(s, es, w)
    ensures Traced(s, es + [e], Next(s, w, e))
  {
    var all, n := es + [e], Next(s, w, e);
    forall p | p in n.lookups ensures LookupTraced(s, all, n, p, n.lookups[p]) {
      if p in w.lookups && n.lookups[p] == w.lookups[p] {
        TraceStays(s, es, w, e, p, w.lookups[p]);
      } else {
        if p != e.p { OthersStay(s, w, e, p); }
        TraceMoves(s, es, w, e);
      }
    }
    forall k | k in n.cache ensures Written(s, all, n, |all|, k, n.cache[k]) {
      CacheStep(s, es, w, e, k);
    }
    if s.ttl <= 0 { NoCacheStep(s, es, w, e); }
  }

  /** Over every run, every cache entry and every answer has a history. */
  lemma {:induction false} RunIsTraced(s: Setup, es: seq<Event>)
    ensures Traced(s, es, Run(s, es))
  {
    if es != [] {
      var init, last := es[..|es| - 1], es[|es| - 1];
      RunIsTraced(s, init);
      TraceStep(s, init, Run(s, init), last);
      var after := Next(s, Run(s, init), last);
      assert es == init + [last];
      assert Run(s, es) == after && Traced(s, es, after);
    }
  }

  // ----- staleness -----

  /** The cached answer a of lookup p: some lookup q read the role at step i and stored it at step j, before p
      decided at step d. */
  predicate ServedFrom(es: seq<Event>, p: nat, a: Answer, q: nat, i: nat, j: nat, d: nat)
    requires a.FromCache?
  {
    && i < j < d < |es|
    && es[i] == Event(q, a.readAt, Query) && es[j] == Event(q, a.storedAt, Store) && es[d] == Event(p, a.at, Decide)
  }

  /** Staleness bound. Over every interleaving of concurrent lookups, a role served from the cache was the
      database's value for that id when some lookup queried it, less than ttl plus that same lookup's
      read-to-store delay before it was served. */
  lemma StalenessBound(s: Setup, es: seq<Event>, p: nat)
    requires LikeRoles(s, es) && Timed(es)
    requires p in Run(s, es).lookups
    requires Run(s, es).lookups[p].Answered? && Run(s, es).lookups[p].answer.FromCache?
    ensures var l := Run(s, es).lookups[p];
            var a := l.answer;
            && s.db(l.id, a.readAt) == Some(a.role) && a.readAt <= a.storedAt <= a.at
            && a.at - a.readAt < s.ttl + (a.storedAt - a.readAt)
            && exists q, i, j, d :: ServedFrom(es, p, a, q, i, j, d)
  {
    var q, i, j, d := CachedAnswer(s, es, p);
    assert ServedFrom(es, p, Run(s, es).lookups[p].answer, q, i, j, d);
  }

  /** Where a cached answer comes from: the database's value for an id that prints alike. */
  lemma CachedOrigin(s: Setup, es: seq<Event>, p: nat) returns (id: Value, q: nat, i: nat, j: nat, d: nat)
    requires p in Run(s, es).lookups
    requires Run(s, es).lookups[p].Answered? && Run(s, es).lookups[p].answer.FromCache?
    ensures var l := Run(s, es).lookups[p];
            var a := l.answer;
            && PrintId(s.show, id) == PrintId(s.show, l.id) && Started(es, q, id) && Started(es, p, l.id)
            && s.db(id, a.readAt) == Some(a.role) && a.at < a.storedAt + s.ttl && ServedFrom(es, p, a, q, i, j, d)
  {
    var w := Run(s, es);
    var l := w.lookups[p];
    var a := l.answer;
    RunIsTraced(s, es);
    assert LookupTraced(s, es, w, p, l);
    d :| HitAt(s, es, w, p, l.id, a, d);
    q, i, j :| j < d && WrittenBy(s, es, w, PrintId(s.show, l.id), Entry(a.role, a.readAt, a.storedAt), q, i, j);
    assert LookupTraced(s, es, w, q, w.lookups[q]);
    id := w.lookups[q].id;
  }

  /** With like roles it is the value for the very id. */
  lemma CachedAnswer(s: Setup, es: seq<Event>, p: nat) returns (q: nat, i: nat, j: nat, d: nat)
    requires LikeRoles(s, es)
    requires p in Run(s, es).lookups
    requires Run(s, es).lookups[p].Answered? && Run(s, es).lookups[p].answer.FromCache?
    ensures var l := Run(s, es).lookups[p];
            var a := l.answer;
            s.db(l.id, a.readAt) == Some(a.role) && a.at < a.storedAt + s.ttl && ServedFrom(es, p, a, q, i, j, d)
  {
    var id;
    id, q, i, j, d := CachedOrigin(s, es, p);
    var l := Run(s, es).lookups[p];
    var m, n :| 0 <= m < |es| && 0 <= n < |es| && es[m].action == Start(id) && es[n].action == Start(l.id);
  }

  /** With caching off every role served is one the database gave at this very lookup's own query. */
  lemma NoCacheNoStaleness(s: Setup, es: seq<Event>, p: nat)
    requires s.ttl <= 0
    requires p in Run(s, es).lookups && Run(s, es).lookups[p].Answered?
    ensures Run(s, es).cache == map[]
    ensures var l := Run(s, es).lookups[p];
            l.answer.Refused? ||
            (l.answer.FromDatabase? && s.db(l.id, l.answer.readAt) == Some(l.answer.role) &&
             Event(p, l.answer.readAt, Query) in es)
  {
    RunIsTraced(s, es);
    assert LookupTraced(s, es, Run(s, es), p, Run(s, es).lookups[p]);
  }

  // ----- one id's role served for another -----

  /** The cached answer is one the database gave for this very id. */
  ghost predicate OwnRole(s: Setup, es: seq<Event>, p: nat) {
    var w := Run(s, es);
    p in w.lookups && w.lookups[p].Answered? && w.lookups[p].answer.FromCache? ==>
      s.db(w.lookups[p].id, w.lookups[p].answer.readAt) == Some(w.lookups[p].answer.role)
  }

  lemma LikeRolesOwn(s: Setup, es: seq<Event>, p: nat)
    requires LikeRoles(s, es)
    ensures OwnRole(s, es, p)
  {
    var w := Run(s, es);
    if p in w.lookups && w.lookups[p].Answered? && w.lookups[p].answer.FromCache? {
      var q, i, j, d := CachedAnswer(s, es, p);
    }
  }

  /** In a run whose ids are all non-empty strings, or all integers, every cached answer belongs to its own id,
      whatever the database answers for other ids. */
  lemma OneKindOwnRole(s: Setup, es: seq<Event>, p: nat)
    requires OneKindOfId(es)
    ensures OwnRole(s, es, p)
  {
    OneKindLikeRoles(s, es);
    LikeRolesOwn(s, es, p);
  }

  /** The cache key is the printed id, so 42 and "42" share an entry: cached answers belong to their own id
      in every run exactly when the database answers alike for accepted ids that print alike. */
  lemma OwnRoleIff(s: Setup)
    requires s.ttl > 0
    ensures (forall es: seq<Event>, p: nat :: Timed(es) && AcceptedIds(es) ==> OwnRole(s, es, p)) <==> DependsOnPrint(s)
  {
    if DependsOnPrint(s) {
      forall es: seq<Event>, p: nat | Timed(es) && AcceptedIds(es) ensures OwnRole(s, es, p) {
        LikeRolesOwn(s, es, p);
      }
    }
    if forall es: seq<Event>, p: nat :: Timed(es) && AcceptedIds(es) ==> OwnRole(s, es, p) {
      forall a: Value, b: Value, t: int | AcceptedId(a) && AcceptedId(b) && PrintId(s.show, a) == PrintId(s.show, b)
        ensures s.db(a, t) == s.db(b, t)
      {
        if s.db(a, t).Some? { SharedEntry(s, a, b, t); }
        if s.db(b, t).Some? { SharedEntry(s, b, a, t); }
      }
    }
  }

  /** One lookup of a, complete, and then one of b. */
  function TwoLookups(a: Value, b: Value, t: int): seq<Event> {
    [Event(0, t, Start(a)), Event(0, t, Decide), Event(0, t, Query), Event(0, t, Store), Event(1, t, Start(b)),
     Event(1, t, Decide)]
  }

  /** Of two ids that print alike, the second is served the first one's role: it is its own only if the
      database gives both the same. */
  lemma SharedEntry(s: Setup, a: Value, b: Value, t: int)
    requires s.ttl > 0 && PrintId(s.show, a) == PrintId(s.show, b) && s.db(a, t).Some?
    ensures 1 in Run(s, TwoLookups(a, b, t)).lookups
    ensures Run(s, TwoLookups(a, b, t)).lookups[1] == Answered(b, FromCache(s.db(a, t).value, t, t, t))
    ensures OwnRole(s, TwoLookups(a, b, t), 1) <==> s.db(b, t) == s.db(a, t)
  {
    var es := TwoLookups(a, b, t);
    var key, role := PrintId(s.show, a), s.db(a, t).value;
    assert es[..5][..4] == es[..4] && es[..4][..3] == es[..3] && es[..3][..2] == es[..2] && es[..2][..1] == es[..1] &&
           es[..1][..0] == [];
    assert Run(s, es[..1]) == World(map[], map[0 := Peeked(a, None)]);
    assert Run(s, es[..2]) == World(map[], map[0 := Asking(a)]);
    assert Run(s, es[..3]) == World(map[], map[0 := Holding(a, role, t)]);
    assert Run(s, es[..4]) == World(map[key := Entry(role, t, t)], map[0 := Answered(a, FromDatabase(role, t))]);
    assert Run(s, es[..5]).lookups[1] == Peeked(b, Some(Entry(role, t, t)));
    assert Run(s, es).lookups[1] == Answered(b, FromCache(role, t, t, t));
  }

  /** The instance: the ids 42 and "42", with different roles in the table. */
  lemma NumberAndNumeralShareEntry(s: Setup, t: int)
    requires s.ttl > 0 && s.db(Int(42), t) == Some("admin") && s.db(Str("42"), t) == Some("user")
    ensures PrintId(s.show, Int(42)) == PrintId(s.show, Str("42"))
    ensures var es := TwoLookups(Int(42), Str("42"), t);
            && Timed(es) && AcceptedIds(es)
            && 1 in Run(s, es).lookups && Run(s, es).lookups[1] == Answered(Str("42"), FromCache("admin", t, t, t))
            && !OwnRole(s, es, 1)
  {
    assert DecimalNat(42) == DecimalNat(4) + [DigitChar(2)];
    assert Decimal(42) == "42";
    SharedEntry(s, Int(42), Str("42"), t);
  }

  // ----- the resolver itself -----

  datatype CacheEntry = CacheEntry(role: string, expires: int)

  class Resolver {
    const ttl: int
    const show: FloatPrinter
    const integral: int -> Option<int>
    const idClaim: string
    var cache: map<string, CacheEntry>

    constructor (ttl: int, show: FloatPrinter, integral: int -> Option<int>, idClaim: string)
      ensures this.ttl == ttl && this.show == show && this.integral == integral && this.idClaim == idClaim &&
              cache == map[]
    {
      this.ttl, this.show, this.integral, this.idClaim := ttl, show, integral, idClaim;
      cache := map[];
    }

    /** The stored entries are the model's, with their expiry times. */
    predicate Represents(c: map<string, Entry>)
      reads this
    {
      cache.Keys == c.Keys && forall k | k in c :: cache[k] == CacheEntry(c[k].role, c[k].storedAt + ttl)
    }

    /** First critical section: look into the cache. */
    method Peek(key: string, ghost c: map<string, Entry>) returns (e: Option<CacheEntry>)
      requires Represents(c)
      ensures e == match Find(c, key) case None => None case Some(x) => Some(CacheEntry(x.role, x.storedAt + ttl))
    {
      if key in cache { return Some(cache[key]); }
      return None;
    }

    /** Second critical section: store a role read at readAt. */
    method Put(key: string, role: string, now: int, ghost readAt: int, ghost c: map<string, Entry>)
      requires Represents(c)
      modifies this
      ensures Represents(c[key := Entry(role, readAt, now)])
    {
      cache := cache[key := CacheEntry(role, now + ttl)];
    }

    /** The id of a token: a non-empty string, or a number, integral ones as integers. */
    method ReadId(claims: ClaimMap) returns (id: Option<Value>)
      ensures id == IdOf(integral, claims, idClaim)
      ensures id.Some? <==>
              var v := LookupClaim(claims, idClaim);
              v.Some? && (v.value.Float? || (v.value.Str? && v.value != Str("")))
      ensures id.Some? ==>
                var v := LookupClaim(claims, idClaim).value;
                id.value == v || (v.Float? && integral(v.bits).Some? && id.value == Int(integral(v.bits).value))
      ensures id.Some? && id.value.Float? ==> integral(id.value.bits).None?
    {
      var v := LookupClaim(claims, idClaim);
      if v.None? { return None; }
      match v.value {
        case Str(s) =>
          if s == "" { return None; }
          return Some(Str(s));
        case Float(bits) =>
          var n := integral(bits);
          if n.Some? { return Some(Int(n.value)); }
          return Some(Float(bits));
        case _ => return None;
      }
    }

    /** One lookup from start to end with no other lookup in between: the clock is read at its steps, and
        `found` is what the database answers for the token's id. A token without an acceptable id is refused
        and changes nothing; any other goes through the four steps of the model in a row. */
    method Resolve(claims: ClaimMap, decideAt: int, queryAt: int, storeAt: int, found: Option<string>,
                   ghost c: map<string, Entry>, ghost db: Table)
      returns (role: Option<string>, ghost after: World)
      requires Represents(c) &&
               (IdOf(integral, claims, idClaim).Some? ==> db(IdOf(integral, claims, idClaim).value, queryAt) == found)
      modifies this
      ensures Represents(after.cache)
      ensures match IdOf(integral, claims, idClaim)
              case None => after == World(c, map[]) && role == None
              case Some(id) =>
                var s := Setup(ttl, show, db);
                && after == Next(s, Next(s, Next(s, Next(s, World(c, map[]),
                              Event(0, decideAt, Start(id))), Event(0, decideAt, Decide)), Event(0, queryAt, Query)),
                            Event(0, storeAt, Store))
                && 0 in after.lookups && after.lookups[0].Answered?
                && role == (match after.lookups[0].answer
                            case FromCache(r, _, _, _) => Some(r)
                            case FromDatabase(r, _) => Some(r)
                            case Refused => None)
    {
      var read := ReadId(claims);
      if read.None? { return None, World(c, map[]); }
      var id := read.value;
      ghost var s := Setup(ttl, show, db);
      ghost var w1 := Next(s, World(c, map[]), Event(0, decideAt, Start(id)));
      ghost var w2 := Next(s, w1, Event(0, decideAt, Decide));
      ghost var w3 := Next(s, w2, Event(0, queryAt, Query));
      after := Next(s, w3, Event(0, storeAt, Store));
      var key := PrintId(show, id);
      if ttl > 0 {
        var e := Peek(key, c);
        if e.Some? && decideAt < e.value.expires { return Some(e.value.role), after; }
      }
      if found.None? { return None, after; }
      if ttl > 0 { Put(key, found.value, storeAt, queryAt, c); }
      return found, after;
    }
  }
}

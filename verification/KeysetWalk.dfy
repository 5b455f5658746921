/** Keyset pagination as a protocol: a client follows end_cursor from page to page while the table
    may change between pages. Rows are represented by their primary keys. */
module KeysetWalk {
  import opened Values
  import opened Lex

  /** One primary-key value with an exact order. */
  datatype KeyVal = IntKey(n: int) | StrKey(s: string)

  type PrimaryKey = seq<KeyVal>

  predicate KeyValLess(a: KeyVal, b: KeyVal) {
    match (a, b)
    case (IntKey(n), IntKey(m)) => n < m
    case (StrKey(s), StrKey(t)) => StringLess(s, t)
    case (IntKey(_), StrKey(_)) => true
    case (StrKey(_), IntKey(_)) => false
  }

  /** Composite keys compare lexicographically. */
  predicate KeyLess(a: PrimaryKey, b: PrimaryKey) { Less(KeyValLess, a, b) }

  lemma KeyValLessStrictTotal()
    ensures StrictTotal(KeyValLess)
  {
    StringLessStrictTotal();
  }

  lemma KeyLessStrictTotal()
    ensures StrictTotal(KeyLess)
  {
    KeyValLessStrictTotal();
    forall a: PrimaryKey ensures !KeyLess(a, a) { LessIrreflexive(KeyValLess, a); }
    forall a: PrimaryKey, b: PrimaryKey
      ensures KeyLess(a, b) || a == b || KeyLess(b, a)
    {
      LessTotal(KeyValLess, a, b);
    }
    forall a: PrimaryKey, b: PrimaryKey, c: PrimaryKey | KeyLess(a, b) && KeyLess(b, c) ensures KeyLess(a, c) {
      LessTransitive(KeyValLess, a, b, c);
    }
  }

  predicate Increasing(keys: seq<PrimaryKey>) { forall i, j :: 0 <= i < j < |keys| ==> KeyLess(keys[i], keys[j]) }

  /** The keys are the n least of the set, in order: all of it if it has no more than n. */
  ghost predicate Least(all: set<PrimaryKey>, n: nat, keys: seq<PrimaryKey>) {
    && Increasing(keys) && |keys| <= n
    && (forall k :: k in keys ==> k in all)
    && (forall k :: k in all && k !in keys ==> |keys| == n && forall i :: 0 <= i < n ==> KeyLess(keys[i], k))
  }

  // ----- one page -----

  /** One answered page: the keys that existed and matched in its snapshot, and what was returned. */
  datatype Page = Page(matching: set<PrimaryKey>, first: nat, keys: seq<PrimaryKey>, hasNext: bool)

  predicate Beyond(after: Option<PrimaryKey>, k: PrimaryKey) { after.Some? ==> KeyLess(after.value, k) }

  ghost function Rest(after: Option<PrimaryKey>, matching: set<PrimaryKey>): set<PrimaryKey> {
    set k | k in matching && Beyond(after, k)
  }

  /** The page the connection resolver answers after a cursor: it fetches one row more than asked for. */
  ghost predicate PageAfter(after: Option<PrimaryKey>, p: Page) {
    exists fetched :: PageFrom(after, p, fetched)
  }

  ghost predicate PageFrom(after: Option<PrimaryKey>, p: Page, fetched: seq<PrimaryKey>) {
    && Least(Rest(after, p.matching), p.first + 1, fetched)
    && p.keys == fetched[..if |fetched| > p.first then p.first else |fetched|]
    && (p.hasNext <==> |fetched| > p.first > 0)
  }

  function LastKey(p: Page): PrimaryKey
    requires p.keys != []
  {
    p.keys[|p.keys| - 1]
  }

  /** What one page promises: its keys are the least ones beyond the cursor, and has_next_page is true
      exactly when a non-empty page leaves matching rows behind, so it always comes with a cursor. */
  lemma PageIsLeast(after: Option<PrimaryKey>, p: Page)
    requires PageAfter(after, p)
    ensures Least(Rest(after, p.matching), p.first, p.keys)
    ensures p.hasNext ==> p.keys != []
    ensures p.first > 0 ==> (p.hasNext <==> exists k :: k in Rest(after, p.matching) && k !in p.keys)
    ensures p.first == 0 ==> p.keys == [] && !p.hasNext
  {
    KeyLessStrictTotal();
    var fetched :| PageFrom(after, p, fetched);
    if |fetched| > p.first {
      var extra := fetched[p.first];
      assert extra in fetched;
      assert forall i :: 0 <= i < p.first ==> p.keys[i] == fetched[i];
      assert extra in Rest(after, p.matching) && extra !in p.keys;
      forall k | k in Rest(after, p.matching) && k !in p.keys
        ensures |p.keys| == p.first && forall i :: 0 <= i < p.first ==> KeyLess(p.keys[i], k)
      {
        if k in fetched {
          var j :| 0 <= j < |fetched| && fetched[j] == k;
          assert j >= p.first;
        }
      }
    } else {
      assert p.keys == fetched;
    }
  }

  // ----- the walk -----

  /** A walk: each page after the first was asked for with the previous page's end cursor, because the
      previous page said that more rows follow. Page sizes and snapshots may differ from page to page. */
  ghost predicate Walk(after: Option<PrimaryKey>, pages: seq<Page>)
    decreases |pages|
  {
    pages == [] ||
    (PageAfter(after, pages[0]) &&
     (|pages| > 1 ==> pages[0].hasNext && pages[0].keys != [] && Walk(Some(LastKey(pages[0])), pages[1..])))
  }

  /** The i-th page continues from the i-th cursor and hands the next cursor on. */
  ghost predicate Continues(cursors: seq<Option<PrimaryKey>>, pages: seq<Page>, i: nat)
    requires |cursors| == |pages| && i < |pages|
  {
    && PageAfter(cursors[i], pages[i])
    && (i + 1 < |pages| ==> pages[i].hasNext && pages[i].keys != [] && cursors[i + 1] == Some(LastKey(pages[i])))
  }

  /** Pages that each continue from the previous page's last key form a walk. */
  lemma {:induction false} PagesAreWalk(after: Option<PrimaryKey>, cursors: seq<Option<PrimaryKey>>, pages: seq<Page>)
    requires |cursors| == |pages| && (pages != [] ==> cursors[0] == after)
    requires forall i :: 0 <= i < |pages| ==> Continues(cursors, pages, i)
    ensures Walk(after, pages)
    decreases |pages|
  {
    if |pages| > 0 {
      assert Continues(cursors, pages, 0);
      forall i | 0 <= i < |pages| - 1 ensures Continues(cursors[1..], pages[1..], i) {
        assert Continues(cursors, pages, i + 1);
      }
      if |pages| > 1 { PagesAreWalk(Some(LastKey(pages[0])), cursors[1..], pages[1..]); }
    }
  }

  function AllKeys(pages: seq<Page>): seq<PrimaryKey> {
    if pages == [] then [] else pages[0].keys + AllKeys(pages[1..])
  }

  /** Returned keys strictly increase over the whole walk, so none is returned twice, whatever
      inserts, deletes and updates happen between pages. */
  lemma {:induction false} WalkIncreases(after: Option<PrimaryKey>, pages: seq<Page>)
    requires Walk(after, pages)
    ensures Increasing(AllKeys(pages))
    ensures forall k :: k in AllKeys(pages) ==> Beyond(after, k)
    decreases |pages|
  {
    if pages != [] {
      KeyLessStrictTotal();
      PageIsLeast(after, pages[0]);
      if |pages| > 1 {
        WalkIncreases(Some(LastKey(pages[0])), pages[1..]);
        var here, rest := pages[0].keys, AllKeys(pages[1..]);
        var n := |here|;
        forall i, j | 0 <= i < j < |here + rest| ensures KeyLess((here + rest)[i], (here + rest)[j]) {
          if i < n <= j {
            assert rest[j - n] in rest;
            assert KeyLess(here[n - 1], rest[j - n]);
          }
        }
        forall k | k in rest ensures Beyond(after, k) { assert here[n - 1] in here; }
      } else {
        assert AllKeys(pages) == pages[0].keys + AllKeys(pages[1..]) == pages[0].keys;
      }
    }
  }

  /** A row that exists and matches in every page's snapshot has been returned by the time
      has_next_page is false: concurrent changes to other rows never make the walk skip it. */
  lemma {:induction false} WalkIsComplete(after: Option<PrimaryKey>, pages: seq<Page>, k: PrimaryKey)
    requires Walk(after, pages) && Finished(pages) && AlwaysPresent(pages, k) && Beyond(after, k)
    ensures k in AllKeys(pages)
    decreases |pages|
  {
    KeyLessStrictTotal();
    var p := pages[0];
    PageIsLeast(after, p);
    assert k in Rest(after, p.matching);
    if k !in p.keys {
      assert p.hasNext;
      assert |pages| > 1;
      assert KeyLess(p.keys[p.first - 1], k);
      WalkIsComplete(Some(LastKey(p)), pages[1..], k);
    }
  }

  /** The client stopped because has_next_page was false. */
  predicate Finished(pages: seq<Page>) { pages != [] && !pages[|pages| - 1].hasNext }

  /** At every page at least one row was asked for, and a row with this key existed and matched. */
  predicate AlwaysPresent(pages: seq<Page>, k: PrimaryKey) {
    forall i :: 0 <= i < |pages| ==> pages[i].first >= 1 && k in pages[i].matching
  }

  predicate OccursOnce(keys: seq<PrimaryKey>, k: PrimaryKey) {
    exists i :: 0 <= i < |keys| && keys[i] == k && forall j :: 0 <= j < |keys| && keys[j] == k ==> j == i
  }

  /** Such a row is returned exactly once. */
  lemma ReturnedExactlyOnce(pages: seq<Page>, k: PrimaryKey)
    requires Walk(None, pages) && Finished(pages) && AlwaysPresent(pages, k)
    ensures OccursOnce(AllKeys(pages), k)
  {
    KeyLessStrictTotal();
    WalkIncreases(None, pages);
    WalkIsComplete(None, pages, k);
    IncreasingDistinct(AllKeys(pages));
    var i :| 0 <= i < |AllKeys(pages)| && AllKeys(pages)[i] == k;
  }

  lemma IncreasingDistinct(keys: seq<PrimaryKey>)
    requires Increasing(keys)
    ensures forall i, j :: 0 <= i < j < |keys| ==> keys[i] != keys[j]
  {
    KeyLessStrictTotal();
    forall i, j | 0 <= i < j < |keys| ensures keys[i] != keys[j] { assert KeyLess(keys[i], keys[j]); }
  }

  // ----- a table that does not change -----

  predicate Static(pages: seq<Page>, matching: set<PrimaryKey>, first: nat) {
    forall i :: 0 <= i < |pages| ==> pages[i].matching == matching && pages[i].first == first
  }

  /** Number of pages of size k needed for n rows; an empty result still takes one page. */
  function PagesFor(n: nat, k: nat): nat
    requires k >= 1
  {
    if n <= k then 1 else 1 + PagesFor(n - k, k)
  }

  /** PagesFor is max(1, ceil(n/k)): the least number of pages that n rows fit in, and at least one. */
  lemma {:induction false} PagesForIsCeiling(n: nat, k: nat)
    requires k >= 1
    ensures var p := PagesFor(n, k);
            n <= p * k && (n > 0 ==> (p - 1) * k < n) && (n == 0 ==> p == 1)
  {
    if n > k {
      PagesForIsCeiling(n - k, k);
      var q := PagesFor(n - k, k);
      assert (q + 1) * k == q * k + k && q * k == (q - 1) * k + k;
    }
  }

  lemma {:induction false} IncreasingSize(keys: seq<PrimaryKey>)
    requires Increasing(keys)
    ensures |set k | k in keys| == |keys|
  {
    if keys != [] {
      KeyLessStrictTotal();
      var n := |keys| - 1;
      IncreasingSize(keys[..n]);
      assert keys == keys[..n] + [keys[n]];
      assert (set k | k in keys) == (set k | k in keys[..n]) + {keys[n]};
      assert forall i :: 0 <= i < n ==> KeyLess(keys[i], keys[n]) && keys[i] != keys[n];
    }
  }

  /** The last page returns all that remained. */
  lemma LastPageTakesAll(after: Option<PrimaryKey>, p: Page)
    requires PageAfter(after, p) && p.first >= 1 && !p.hasNext
    ensures (set k | k in p.keys) == Rest(after, p.matching) && |Rest(after, p.matching)| <= p.first
  {
    PageIsLeast(after, p);
    IncreasingSize(p.keys);
    assert forall k :: k in Rest(after, p.matching) ==> k in p.keys;
  }

  /** Any other page takes a full page off what remains. */
  lemma PageTakesFirst(after: Option<PrimaryKey>, p: Page)
    requires PageAfter(after, p) && p.first >= 1 && p.hasNext
    ensures p.keys != [] && Rest(Some(LastKey(p)), p.matching) == Rest(after, p.matching) - (set k | k in p.keys)
    ensures |Rest(Some(LastKey(p)), p.matching)| == |Rest(after, p.matching)| - p.first > 0
  {
    PageIsLeast(after, p);
    IncreasingSize(p.keys);
    var mine := set k | k in p.keys;
    var all := Rest(after, p.matching);
    RestBeyondPage(after, p);
    var extra :| extra in all && extra !in p.keys;
    assert mine <= all && extra in all - mine;
    assert |all - mine| == |all| - |mine|;
  }

  lemma RestBeyondPage(after: Option<PrimaryKey>, p: Page)
    requires Least(Rest(after, p.matching), p.first, p.keys) && p.keys != []
    requires exists k :: k in Rest(after, p.matching) && k !in p.keys
    ensures Rest(Some(LastKey(p)), p.matching) == Rest(after, p.matching) - (set k | k in p.keys)
  {
    KeyLessStrictTotal();
    var last := LastKey(p);
    assert last in p.keys;
    forall k | k in p.keys ensures !KeyLess(last, k) {
      var i :| 0 <= i < |p.keys| && p.keys[i] == k;
      assert i < |p.keys| - 1 ==> KeyLess(k, last);
    }
    forall k | k in Rest(after, p.matching) && k !in p.keys ensures k in Rest(Some(last), p.matching) {
      assert KeyLess(p.keys[p.first - 1], k);
    }
  }

  lemma StaticTail(after: Option<PrimaryKey>, pages: seq<Page>, matching: set<PrimaryKey>, first: nat)
    requires Walk(after, pages) && |pages| > 1 && first >= 1 && Static(pages, matching, first)
    ensures pages[0].matching == matching && pages[0].first == first && pages[0].hasNext && PageAfter(after, pages[0])
    ensures pages[0].keys != [] && Static(pages[1..], matching, first) && Walk(Some(LastKey(pages[0])), pages[1..])
    ensures Finished(pages) ==> Finished(pages[1..])
  {
    assert pages[1..][|pages| - 2] == pages[|pages| - 1];
  }

  /** Exact enumeration: on a table that does not change, following end_cursor with page size k >= 1 until
      has_next_page is false returns every matching row in key order, in max(1, ceil(n/k)) pages. */
  lemma {:induction false} StaticEnumeration(after: Option<PrimaryKey>, pages: seq<Page>, matching: set<PrimaryKey>,
                                             first: nat)
    requires Walk(after, pages) && Finished(pages) && first >= 1 && Static(pages, matching, first)
    ensures Increasing(AllKeys(pages))
    ensures forall k :: k in AllKeys(pages) <==> k in Rest(after, matching)
    ensures |pages| == PagesFor(|Rest(after, matching)|, first)
    decreases |pages|
  {
    WalkIncreases(after, pages);
    var p := pages[0];
    if p.hasNext {
      assert |pages| > 1;
      StaticTail(after, pages, matching, first);
      var rest := pages[1..];
      StaticEnumeration(Some(LastKey(p)), rest, matching, first);
      RestShrinks(after, p, matching, first);
      PageAndRest(after, p, matching);
      assert AllKeys(pages) == p.keys + AllKeys(rest);
    } else {
      LastPageTakesAll(after, p);
      assert |pages| == 1;
      assert AllKeys(pages) == p.keys + AllKeys(pages[1..]) == p.keys;
    }
  }

  /** What a page returns and what it leaves is all there was. */
  lemma PageAndRest(after: Option<PrimaryKey>, p: Page, matching: set<PrimaryKey>)
    requires PageAfter(after, p) && p.hasNext && p.first >= 1 && p.matching == matching
    ensures p.keys != []
    ensures forall k :: k in Rest(after, matching) <==> k in p.keys || k in Rest(Some(LastKey(p)), matching)
  {
    PageTakesFirst(after, p);
    PageIsLeast(after, p);
  }

  lemma RestShrinks(after: Option<PrimaryKey>, p: Page, matching: set<PrimaryKey>, first: nat)
    requires PageAfter(after, p) && p.hasNext && p.matching == matching && p.first == first >= 1
    ensures p.keys != [] && |Rest(after, matching)| > first
    ensures PagesFor(|Rest(after, matching)|, first) == 1 + PagesFor(|Rest(Some(LastKey(p)), matching)|, first)
  {
    PageTakesFirst(after, p);
    assert Rest(after, p.matching) == Rest(after, matching);
    PagesForStep(|Rest(after, matching)|, first);
  }

  lemma PagesForStep(n: nat, k: nat)
    requires k >= 1 && n > k
    ensures PagesFor(n, k) == 1 + PagesFor(n - k, k)
  {
  }

  /** On a table that does not change, any walk with page size k >= 1, finished or not, has at most as many
      pages as the rows need. */
  lemma {:induction false} StaticBound(after: Option<PrimaryKey>, pages: seq<Page>, matching: set<PrimaryKey>,
                                       first: nat)
    requires Walk(after, pages) && first >= 1 && Static(pages, matching, first)
    ensures |pages| <= PagesFor(|Rest(after, matching)|, first)
    decreases |pages|
  {
    if |pages| > 1 {
      StaticTail(after, pages, matching, first);
      RestShrinks(after, pages[0], matching, first);
      StaticBound(Some(LastKey(pages[0])), pages[1..], matching, first);
    }
  }

  /** While pages remain, the number of rows still to come decreases: on a static table the walk ends. */
  lemma WalkMakesProgress(after: Option<PrimaryKey>, p: Page)
    requires PageAfter(after, p) && p.hasNext
    ensures p.keys != [] && |Rest(Some(LastKey(p)), p.matching)| < |Rest(after, p.matching)|
  {
    PageIsLeast(after, p);
    PageTakesFirst(after, p);
  }
}

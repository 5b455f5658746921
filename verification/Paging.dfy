/** Limit and offset: how a list request is clamped, and the in-memory page of an ordered group. */
module Paging {
  import opened Values

  /** schema_gen.default_page_size and schema_gen.max_page_size. */
  datatype PageConfig = PageConfig(defaultSize: int, maxSize: int)

  datatype PageArgs = PageArgs(limit: Option<int>, offset: Option<int>)

  datatype Bounds = Bounds(limit: int, offset: int)

  function Or(x: Option<int>, default: int): int { if x.Some? then x.value else default }

  /** The effective limit and offset of a list request. */
  function PageBounds(cfg: PageConfig, a: PageArgs): Result<Bounds> {
    var asked := Or(a.limit, cfg.defaultSize);
    if asked < 0 then Err("limit must be >= 0")
    else
      var limit := if asked > cfg.maxSize then cfg.maxSize else asked;
      var offset := Or(a.offset, 0);
      if offset < 0 then Err("offset must be >= 0") else Ok(Bounds(limit, offset))
  }

  /** The limit is the one asked for, or the default, capped at the maximum; the offset the one asked for, or 0. A
      negative one is refused. */
  lemma BoundsAreAsked(cfg: PageConfig, limit: int, offset: int)
    ensures PageBounds(cfg, PageArgs(Some(limit), Some(offset))).Ok? <==> limit >= 0 && offset >= 0
    ensures limit >= 0 && offset >= 0 ==>
              var b := PageBounds(cfg, PageArgs(Some(limit), Some(offset))).value;
              b.offset == offset && b.limit <= limit && b.limit <= cfg.maxSize && b.limit in {limit, cfg.maxSize}
    ensures PageBounds(cfg, PageArgs(None, Some(offset))) ==
            PageBounds(cfg, PageArgs(Some(cfg.defaultSize), Some(offset)))
    ensures PageBounds(cfg, PageArgs(Some(limit), None)) == PageBounds(cfg, PageArgs(Some(limit), Some(0)))
    ensures PageBounds(cfg, PageArgs(None, None)) == PageBounds(cfg, PageArgs(Some(cfg.defaultSize), Some(0)))
  {
  }

  function Min(a: int, b: int): int { if a <= b then a else b }

  /** What SQL's LIMIT/OFFSET keeps of an ordered result. */
  function Slice<T>(rows: seq<T>, offset: nat, limit: nat): seq<T> {
    rows[Min(offset, |rows|)..Min(offset + limit, |rows|)]
  }

  /** What config loading does with the two sizes: zero means unset, and only their order is validated. */
  function LoadConfig(defaultSize: int, maxSize: int): Result<PageConfig> {
    var d := if defaultSize == 0 then 25 else defaultSize;
    var m := if maxSize == 0 then 200 else maxSize;
    if d > m then Err("default_page_size exceeds max_page_size") else Ok(PageConfig(d, m))
  }

  /** Every accepted request gets a usable (non-negative) page exactly when the configured maximum is non-negative. */
  lemma BoundsNonNegativeIff(cfg: PageConfig)
    ensures (forall a: PageArgs :: PageBounds(cfg, a).Ok? ==>
             PageBounds(cfg, a).value.limit >= 0 && PageBounds(cfg, a).value.offset >= 0)
            <==> cfg.maxSize >= 0
  {
    var zero := PageArgs(Some(0), None);
    if cfg.maxSize < 0 {
      assert PageBounds(cfg, zero).Ok? && PageBounds(cfg, zero).value.limit < 0;
    }
  }

  /** A configuration loads exactly when its sizes, 25 and 200 if unset, are in order, and is then as given. */
  lemma ConfigLoadsIff(defaultSize: int, maxSize: int)
    ensures defaultSize != 0 && maxSize != 0 ==>
              (LoadConfig(defaultSize, maxSize).Ok? <==> defaultSize <= maxSize) &&
              (defaultSize <= maxSize ==> LoadConfig(defaultSize, maxSize).value == PageConfig(defaultSize, maxSize))
    ensures LoadConfig(0, maxSize) == LoadConfig(25, maxSize) &&
            LoadConfig(defaultSize, 0) == LoadConfig(defaultSize, 200)
  {
  }

  /** Validation lets a negative maximum through: nothing but the order of the two sizes is checked. */
  lemma NegativeMaximumLoads()
    ensures LoadConfig(-2, -1) == Ok(PageConfig(-2, -1))
    ensures PageBounds(PageConfig(-2, -1), PageArgs(Some(10), None)) == Ok(Bounds(-1, 0))
  {
  }

  /** What a resolver gives: slicing with a negative bound panics. */
  datatype Outcome<T> = Replied(value: T) | Refused(reason: string) | Panicked

  /** The page of an already ordered group of rows: what LIMIT/OFFSET would keep of it, unless a negative
      maximum has made the limit negative while rows remain behind the offset. */
  method ApplyPage<T>(cfg: PageConfig, group: seq<T>, a: PageArgs) returns (page: Outcome<seq<T>>)
    ensures page.Refused? <==> Or(a.limit, cfg.defaultSize) < 0 || Or(a.offset, 0) < 0
    ensures page.Refused? <==> PageBounds(cfg, a).Err?
    ensures page.Panicked? <==> !page.Refused? && cfg.maxSize < 0 && Or(a.offset, 0) < |group|
    ensures page.Replied? && cfg.maxSize < 0 ==> page.value == []
    ensures page.Replied? && cfg.maxSize >= 0 ==>
              page.value == Slice(group, Or(a.offset, 0), Min(Or(a.limit, cfg.defaultSize), cfg.maxSize))
  {
    var bounds := PageBounds(cfg, a);
    if bounds.Err? { return Refused(bounds.reason); }
    var limit, offset := bounds.value.limit, bounds.value.offset;
    if offset >= |group| { return Replied([]); }
    var rows := group[offset..];
    if |rows| > limit {
      if limit < 0 { return Panicked; }
      rows := rows[..limit];
    }
    return Replied(rows);
  }
}

# gqlgate, modelled and verified in Dafny

gqlgate turns GraphQL arguments, role rules and JWT claims into SQL and rebuilds results in memory.
This project models that logic and proves what it is for. `dafny verify dfyconfig.toml` covers the whole project.

How the model is laid out:

- **Filters to SQL.** `SqlText` holds SQL text as tokens, placeholder binding and a parser with SQL precedence;
  `SqlMeaning` evaluates expressions in three-valued logic against an arbitrary database (`Db` leaves the comparison,
  pattern and JSON predicates open). `WhereCompiler` compiles nested filters with the source's loops; `Conditions`,
  `KeyConditions`, `RoleFilter`, `Ordering`, `Writes` and `Statements` build the statements around them. A compiled text
  is judged only by binding its placeholders in order, parsing it and evaluating the result. `Queries` reads whole
  statements back from their text and says which rows a database may answer.
- **Batched relationships.** `Window` relates the `ROW_NUMBER()` query, grouping and slicing to one query per parent;
  results of an `ORDER BY` with ties are a relation, not a function. `Loader` is the multi-round batcher as a class with its
  runs as event sequences, `Paging` the page bounds, and `Relationship` puts the three together. `Requests` runs many
  fields with their arguments through one set of loaders. `Resolvers` goes from arguments through statement text to
  rows, for batches, single parents, connections and nearest neighbours.
- **Cursor pagination.** `KeysetWalk` is the protocol over runs, with a table that changes between pages; `Connection` is the
  resolver and shows that each page it answers is a step of that protocol. `Lex` orders composite keys.
- **Depth, claims, role filters, role cache, names.** `Depth`, `Claims` with `ClaimMaps`, `Filters`, `RoleCache`, and `Names` with
  `RoleSchema` and `TableFields`.

Hypotheses are predicates in the contracts, each about the values the columns involved can hold:
`Relationship.Assumptions` (among the values of one join column SQL equality is an equivalence, signatures tell keys
apart and agree with SQL on the table's rows, the page fits the cap), `Connection.ValidSetting` and `KeyedTable`
(each key column holds integers, or strings that the column's own collation compares and sorts by some sort key; keys are
unique up to it; integers compare exactly with their numerals; the cursor codec is lossless and the conditions parse),
`Requests.Separate` (constraint names are unique per direction, argument signatures tell arguments apart),
`RoleCache.LikeRoles` (ids that print alike have like roles; proved for runs over one kind of id), `Names.Sound` (what
the startup check establishes), `Resolvers.Executes` and `RanksCompare` (the database answers a statement by what its text
says, and compares ranks as numbers). `Consistency` shows that one database
meets the relationship and the connection hypotheses at once, a case-insensitive one included.
Where the code fails a hypothesis, or a promise, on some inputs, the exact condition is proved with an instance that fails:

- Negative sizes: bounds are usable exactly for a non-negative maximum (`Paging.BoundsNonNegativeIff`), and validation
  lets a negative one through (`Paging.NegativeMaximumLoads`); slicing then panics (`Paging.ApplyPage`, `Connection.FinishConnection`).
- Collations: every batched page is a per-row page exactly when different keys are never equal in SQL
  (`Window.PagesRefineIff`); a child under "A" is lost to its parent "a" (`Window.CollationLosesRow`).
- Loader keys name the constraint but not the table: own loaders exactly for unique names (`Loader.OwnLoaderIff`), and two
  tables that share one (`Loader.SameConstraintSharesLoader`).
- A role filter that is not one whole expression: what it means exactly among any conditions
  (`Conditions.FilterSpliceExact`), and one that undoes itself (`Conditions.UnbalancedFilterEscapes`).
- Role-cache keys are printed ids: own roles exactly when ids printed alike have like roles (`RoleCache.OwnRoleIff`), and
  the ids 42 and "42" (`RoleCache.NumberAndNumeralShareEntry`).
- Claim paths: set-then-lookup exactly when no inner segment is empty (`Claims.SetThenLookupIff`), and the path ".x"
  (`Claims.LeadingDotIsLost`).
- Filter inputs keep their connectives exactly when no readable column is named like one (`TableFields.BuildBoolExp`), and
  the startup check does not look at such names (`Names.ColumnNamesUnchecked`).

## Model

| member | source | states |
|---|---|---|
| `WhereCompiler.WhereSql` | schema/sqlgen.go:41-116 | A nested filter is accepted exactly when every entry is well formed over readable columns; then every identifier in the text is a column the role may read, and the text, with arguments bound in order and parsed with SQL precedence, has the filter's own three-valued truth on every row of every database. Empty `_and`/`_or` restrict nothing, `{}` is true, null entries are skipped. |
| `WhereCompiler.EntrySql` | schema/sqlgen.go:44-111 | One entry's operands are aligned units whose conjunction is the entry's truth; refused exactly when the entry is not acceptable. |
| `WhereCompiler.ConnectiveSql` | schema/sqlgen.go:50-75 | The items of an `_and`/`_or` list compile one by one to parenthesised operands with the items' truths. |
| `WhereCompiler.OperatorsSql` | schema/sqlgen.go:87-110 | All operators on a column are conjoined, each with its own truth. |
| `WhereCompiler.ColumnCond` | schema/sqlgen.go:126-189 | One operator is accepted exactly for operands of its shape and means the comparison, pattern, null test or JSON test it names; negations follow three-valued NOT. |
| `WhereCompiler.MembershipCond` | schema/sqlgen.go:139-163 | `_in []` is false, `_nin []` is true; otherwise membership in three-valued logic, NULL operands included. |
| `WhereCompiler.OneColumnAccepted` | schema/sqlgen.go:76-189 | A filter on one field with one operator is accepted exactly when the field is a column the role may read and the operand fits the operator, spelt out for all fifteen. |
| `WhereCompiler.OneColumnSelects` | schema/sqlgen.go:126-189 | Such a filter selects exactly the rows whose cell is as asked, in two-valued terms: NULL is equal to nothing and different from nothing, a JSON column is compared with the encoded operand. |
| `WhereCompiler.EntriesConjoin` | schema/sqlgen.go:41-48 | A filter is true when all entries that restrict are, false when one is. |
| `WhereCompiler.ConnectivesMean` | schema/sqlgen.go:50-75 | `_and`, `_or` and `_not` combine the truths of their items as conjunction, disjunction and negation. |
| `Catalog.SortedKeys` | schema/sqlgen.go:29-36 | The keys of a map, each once, in strictly ascending byte order. |
| `Lex.StringLessIff` | schema/sqlgen.go:29-36 | That order: a proper prefix is less, otherwise the smaller character at the first difference decides. |
| `SqlText.JoinBinds` | schema/sqlgen.go:112-115 | Joining fragments and appending their argument lists in the same order leaves every placeholder bound to the value its own fragment meant, and counts agree. |
| `SqlText.BindConcat` | schema/sqlgen.go:203-217 | Binding distributes over concatenation of texts and of argument lists. |
| `SqlText.ParenthesesMakeUnit` | schema/sqlgen.go:209 | Any whole expression in parentheses is one operand of AND/OR. |
| `SqlText.JoinAndParses` | schema/sqlgen.go:113 | Operands joined by AND parse as one expression, their conjunction in order. |
| `SqlText.JoinOrParses` | schema/sqlgen.go:66-71 | Operands joined by OR parse as one expression, their disjunction in order. |
| `Conditions.CombineConds` | schema/sqlgen.go:203-217 | The loop computes `Combine`: present, non-empty conditions in parentheses joined by AND, arguments in text order. |
| `Conditions.CombineMeans` | schema/sqlgen.go:203-217 | The combined text parses as a whole and selects a row exactly when every present condition selects it. |
| `Conditions.RoleFilterSurvives` | schema/sqlgen.go:366-404 | Whatever the client's where and the resolver's condition, the selected rows are exactly the role filter's rows that the other conditions keep. |
| `Conditions.FilterSpliceExact` | schema/sqlgen.go:192-217 | For any aligned filter text, whatever well-formed conditions stand before it and whatever aligned condition stands behind it, the combined text is the conjunction of those before with y exactly when the parenthesised filter and what follows it read as y on their own; with nothing before it the combined text is just that text. |
| `Conditions.CombineAligned` | schema/sqlgen.go:203-217 | Any combination of aligned conditions, parsing or not, is aligned, and binds to the bound operands joined in order. |
| `Conditions.UnbalancedFilterEscapes` | rbac/rbac.go:229-249 | A concrete filter text, not a whole expression but with paired parentheses once spliced, makes every row selectable for every user condition. |
| `RoleFilter.RbacCond` | schema/sqlgen.go:192-201 | Unrestricted operations have no condition; otherwise it fails exactly when a claim is missing or unbindable, and the rendered condition is aligned and reads, bound, as the expression with the claims in place. |
| `RoleFilter.CompiledFilterSurvives` | schema/sqlgen.go:192-217 | A compiled filter whose expression is one whole condition keeps, at any position among any other well-formed conditions, exactly the rows the expression keeps with the claims in place. |
| `RoleFilter.ClaimInMeans` | rbac/rbac.go:250-291 | `column IN (:jwt.path)` keeps the rows whose column equals the claim's value or one of its elements; an empty array or a null keeps none. |
| `RoleFilter.RoleWhere` | schema/sqlgen.go:192-217 | From compiled filter and claims to the WHERE part of any statement, with any conditions before and behind: fails exactly on claims, every placeholder is aligned whether or not the filter is one whole condition, and when it is (or is absent) the rows selected are exactly the filter's among those of the other conditions. |
| `KeyConditions.InCondition` | schema/sqlgen.go:571-594 | The loops build the single-column or row-value IN list for any keys, the empty set included. |
| `KeyConditions.InCondMeans` | schema/sqlgen.go:571-594 | Bound and parsed, the IN condition is three-valued membership of the row's key tuple among the keys; no key means false. |
| `KeyConditions.KeysetCondition` | schema/sqlgen.go:463-477 | Builds the seek condition for any key width with the cursor values in column order. |
| `KeyConditions.KeysetCondMeans` | schema/sqlgen.go:463-477 | Bound and parsed, the seek condition is the lexicographic comparison of the row's key with the cursor. |
| `KeyConditions.EqCondMeans` | schema/builder.go:440-445 | The per-row equality condition is true exactly when every column equals its value. |
| `KeyConditions.PkCond` | schema/sqlgen.go:873-890 | Refused exactly when a primary-key argument is missing or null; otherwise the equality condition of the bound arguments, column by column. |
| `KeyConditions.BatchIsUnionOfRows` | schema/sqlgen.go:566-594 | A row is selected by the batched key condition exactly when some per-row equality condition selects it. |
| `Ordering.OrderColumns` | schema/sqlgen.go:223-255 | Refused exactly when an entry is neither null nor a readable column with the direction ASC or DESC; otherwise the columns, all readable, are the requested ones, each in its own direction, by object and then by ordinal. |
| `Ordering.OrderDetermined` | schema/sqlgen.go:219-255 | The argument determines the column list: neither map iteration order nor sort stability shows. |
| `Ordering.QuoteRoundTrip` | schema/sqlgen.go:14-17 | A quoted identifier followed by other text is read back as that name and that text, for every name. |
| `Paging.ApplyPage` | schema/sqlgen.go:349-362 | For a loaded group, the page is positions [offset, offset + least of limit and maximum) of it; a negative limit or offset is refused; it panics exactly when the maximum is negative and rows remain behind the offset. |
| `Paging.BoundsAreAsked` | schema/sqlgen.go:315-333 | The limit is the one asked for, or the default, capped at the maximum; the offset the one asked for, or 0; a negative one is refused. |
| `Paging.ConfigLoadsIff` | config/config.go:418-421 | Sizes load exactly when they are in order, 25 and 200 standing for unset ones, and are then as given. |
| `Paging.BoundsNonNegativeIff` | schema/sqlgen.go:315-333 | Every accepted request gets non-negative bounds exactly when the configured maximum is non-negative. |
| `Paging.NegativeMaximumLoads` | config/config.go:418-421 | A configuration with sizes -2 and -1 loads, and a request for 10 rows then gets limit -1. |
| `Window.GroupByColumns` | schema/dataloader.go:142-153 | Each bucket holds exactly the rows with its signature, in query order; no empty bucket exists. |
| `Window.WindowOrderRefines` | schema/sqlgen.go:269-286 | Rows sorted by the window order are sorted by the requested order, also when that is empty. |
| `Window.RanksAreDetermined` | schema/sqlgen.go:266-286 | Without a requested order the primary key numbers the rows: where it does not tie, every row has one possible rank. |
| `Window.DescendingReverses` | schema/sqlgen.go:247-251 | A key in the other direction compares the rows the other way round. |
| `Window.GroupCompletes` | schema/sqlgen.go:541-560 | What cap and grouping keep of one parent is a prefix, of at least the cap's length or all, of some valid ordering of exactly that parent's rows. |
| `Window.BatchSelectsPerRow` | schema/sqlgen.go:521-534 | For each key, the batch's WHERE selects exactly the rows the per-row query's WHERE selects. |
| `Window.BatchedPageIsPerRowPage` | schema/sqlgen.go:505-566 | For any table, filters, order with ties, keys and page within the cap (or no cap), with SQL equality an equivalence among each join column's values, the grouped and sliced page is one that a per-parent LIMIT/OFFSET query may return. |
| `Window.SignatureAgreesIff` | schema/dataloader.go:128-153 | For any key width, grouping by exact signatures finds what SQL finds, on every table and key, exactly when different keys are never equal in SQL. |
| `Window.PagesRefineIff` | schema/dataloader.go:128-153 | Every page of every batch, over all tables, filters, orders, keys and results, is a per-row page exactly when different keys are never equal in SQL. |
| `Window.OneRowLost` | schema/dataloader.go:128-153 | Whenever SQL equates two keys that signatures tell apart, a to-many page of one row over a one-row table exists whose batch returns the row and whose grouping loses it. |
| `Window.CollationLosesRow` | schema/dataloader.go:128-153 | The child row under "A", ranked first by the windowed statement, is lost to the parent "a" under a collation that equates them. |
| `Loader.RelLoader.Enqueue` | schema/dataloader.go:90-98 | The new state is the old one with the key pending, unless its signature was ever seen. |
| `Loader.RelLoader.Fetch` | schema/dataloader.go:103-126 | The whole new state and the answer: nothing after an error, a batch of all pending keys when the key is not loaded, and the group stored for the key. |
| `Loader.LoaderSet.GetOrCreate` | schema/dataloader.go:50-59 | An existing loader is returned unchanged; a new one is stored and every other entry kept. |
| `Loader.EachKeySentOnce` | schema/dataloader.go:90-126 | Over every run the batches followed by the pending keys hold every enqueued signature exactly once. |
| `Loader.SeenIsLoadedOrPending` | schema/dataloader.go:69-126 | Without a load error the seen signatures are the disjoint union of loaded and pending ones. |
| `Loader.SeenIff` | schema/dataloader.go:90-98 | A signature is seen exactly when a key with it was enqueued. |
| `Loader.LoadedIsPermitted` | schema/dataloader.go:110-124 | Every loaded signature holds a group its own batch was permitted to give. |
| `Loader.FetchReturnsPermitted` | schema/dataloader.go:100-126 | Over every interleaving without load error, fetching an enqueued key returns a group permitted for that key. |
| `Loader.GroupsAreKept` | schema/dataloader.go:121-123 | No later batch overwrites a group. |
| `Loader.RefetchSendsNothing` | schema/dataloader.go:103-126 | Once a key was enqueued and fetched, fetching it again at any later moment sends nothing and changes nothing. |
| `Loader.ErrorIsFinal` | schema/dataloader.go:107-117 | After a load error every fetch fails with it and nothing more is sent. |
| `Loader.OneBatchPerWave` | schema/dataloader.go:61-68 | A wave (enqueues, then fetches) sends at most one batch, and then nothing is pending. |
| `Loader.BatchCountBound` | schema/dataloader.go:61-126 | A run of n waves sends at most n batches. |
| `Loader.LoaderKeyInjective` | schema/dataloader.go:187-190 | Direction, constraint and arguments can be read back from a loader key. |
| `Loader.OwnLoaderIff` | schema/dataloader.go:187-190 | Every request is served by its own relationship's loader in every request order exactly when no two relationships share direction and constraint. |
| `Loader.SameConstraintSharesLoader` | schema/dataloader.go:187-190 | Two child tables with one constraint name: the second request is served by the loader built for the first. |
| `Relationship.RelationshipRefinesFallback` | schema/builder.go:526-573 | Over every interleaving of enqueues and fetches without load error, the page cut from a fetched group is one the fallback per-row query may return. |
| `Relationship.ApartMeetsAssumptions` | schema/builder.go:526-573 | On any table the assumptions hold when different keys are never equal in SQL and signatures tell cells apart. |
| `Resolvers.BatchAnswers` | schema/sqlgen.go:505-566 | The rows a database may answer to the batch statement's text, read as a numbered subquery and an outer filter on the rank, are exactly the results of the ranked, capped and ordered batch. |
| `Resolvers.LoadBatch` | schema/builder.go:546-555 | From keys to statement text to rows to groups: what a load gives is an outcome of its batch, as the relationship theorems assume. |
| `Resolvers.SelectAnswers` | schema/sqlgen.go:366-404 | The rows a database may answer to a SELECT with limit and offset are exactly the pages of an ordering of the selected rows. |
| `Resolvers.LoadOne` | schema/builder.go:526-540 | What the per-row query gives is a fallback page. |
| `Requests.RequestRefinesFallback` | schema/builder.go:543-573 | A whole request: over every interleaving of enqueues and fetches of all relationship fields with all their arguments through one loader set, a page cut for a use is one that use's own fallback query may return, when constraint names are unique and argument signatures exact and that use's loader had no error. |
| `Requests.SeparateUses` | schema/dataloader.go:159-190 | With constraint names unique per direction and argument signatures that tell arguments apart, uses that share a loader key are one use. |
| `Consistency.IntegerKeysMeetAssumptions` | schema/builder.go:526-573 | Over any table of integer or NULL foreign keys and under any collation of each string column, one database meets the relationship's assumptions and compares and orders cursor keys as the connection needs. |
| `Consistency.SettingExists` | schema/builder.go:744-817 | With that database and a concrete lossless token format, connections over any primary key of integers and strings, under any collations, meet every hypothesis. |
| `Consistency.CaselessSetting` | schema/builder.go:744-817 | A database that equates "A" and "a" everywhere meets every hypothesis of connections over an integer key and over a string key. |
| `Relationship.OutcomeIsPermitted` | schema/builder.go:543-562 | Any result of the batched query, grouped, gives each key of the batch a permitted group. |
| `Relationship.OutcomeStaysInBatch` | schema/builder.go:543-562 | No group appears for a key outside the batch. |
| `Relationship.NullKeySelectsNothing` | schema/builder.go:513-520 | For a NULL key the fallback query could only return no rows, which is what is answered. |
| `Relationship.KeyOfParent` | schema/builder.go:513-521 | No key as soon as one of the parent's columns is NULL, else their values in order. |
| `Relationship.ToManyThunk` | schema/builder.go:563-573 | The thunk answers the stored group cut to the requested page, the load error, or the refusal or panic of the bounds. |
| `Relationship.ToOneThunk` | schema/builder.go:468-477 | The thunk answers the first row of the group, null when it is empty, or the load error. |
| `KeysetWalk.PageIsLeast` | schema/builder.go:776-801 | A page holds the least matching keys beyond the cursor; has_next_page is true exactly when a page of positive size leaves some; then a cursor exists. |
| `KeysetWalk.WalkIncreases` | schema/builder.go:725-817 | Under arbitrary changes between pages the returned keys strictly increase over the whole walk. |
| `KeysetWalk.WalkIsComplete` | schema/builder.go:725-817 | A key matching in every snapshot beyond the start has been returned when the walk finishes. |
| `KeysetWalk.ReturnedExactlyOnce` | schema/builder.go:725-817 | Such a key is returned exactly once. |
| `KeysetWalk.StaticEnumeration` | schema/builder.go:725-817 | On a static table with page size k >= 1 the pages concatenate to the sorted matching keys, in `PagesFor(n, k)` pages. |
| `KeysetWalk.StaticBound` | schema/builder.go:725-817 | On a static table any walk with page size k >= 1, finished or not, has at most `PagesFor(n, k)` pages. |
| `KeysetWalk.PagesForIsCeiling` | schema/builder.go:751-762 | `PagesFor` is max(1, ceil(n/k)). |
| `KeysetWalk.WalkMakesProgress` | schema/builder.go:785-801 | While has_next_page is true the number of rows still to come strictly decreases. |
| `Connection.PrepareConnection` | schema/builder.go:749-772 | Fails exactly for a negative page size or a cursor of another query shape or key width; otherwise the page size is the least of the one asked for and the maximum, and the seek condition is the one the walk theorems use. |
| `Resolvers.KeysetAnswers` | schema/sqlgen.go:482-503 | The rows a database may answer to the keyset statement's text are exactly the keyset results. |
| `Resolvers.ResolveConnection` | schema/builder.go:744-817 | From arguments to statement text to rows to the answer: every page answered is one the walk theorems speak of, for the cursor given; refused exactly for a negative size, a bad cursor or a failing query; panics only under a negative maximum. |
| `Connection.FinishConnection` | schema/builder.go:776-801 | Trims the extra row, sets has_next_page and the end cursor of the last row kept; panics exactly for a negative page size. |
| `Connection.CursorRoundTrip` | schema/cursor.go:28-51 | A cursor decodes, and to its own keys, exactly for the shape and width it was made for. |
| `Connection.CursorReadsBack` | schema/cursor.go:62-79 | The key values printed into a cursor are canonical and read back as the row's key. |
| `Connection.SeekIsKeyLess` | schema/sqlgen.go:463-477 | The database's row-value comparison with canonical cursor strings is the lexicographic key order: integers by value, strings by the sort keys of their own column's collation. Only the key columns are constrained. |
| `Connection.OrderIsKeyOrder` | schema/sqlgen.go:450-458 | ORDER BY the primary key is the same key order. |
| `Connection.SeekSelects` | schema/sqlgen.go:482-503 | For a cursor of canonical keys the statement selects exactly the matching rows beyond it. |
| `Connection.FetchedAreLeast` | schema/sqlgen.go:482-503 | The rows fetched are those with the least keys beyond the cursor. |
| `Connection.PageRefines` | schema/builder.go:744-817 | Every answered page is a step of the keyset protocol, and its end cursor seeks beyond its last row. |
| `Connection.EndCursorIsCanonical` | schema/builder.go:792-801 | Every end cursor holds canonical keys, whatever cursor its page was asked with. |
| `Connection.ConcurrentWalkIncreases` | schema/builder.go:744-817 | Walking with the returned cursors while the table changes, primary keys strictly increase over the whole walk. |
| `Connection.ConcurrentWalkIsComplete` | schema/builder.go:744-817 | A key with a matching row at every page is returned exactly once by the end of the walk. |
| `Connection.StaticWalk` | schema/builder.go:744-817 | On a static table a finished walk returns exactly the matching rows, each in key order, in max(1, ceil(n/k)) pages. |
| `Connection.StaticWalkEnds` | schema/builder.go:744-817 | On a static table any walk, finished or not, has at most max(1, ceil(n/k)) pages, so the client's loop ends. |
| `Depth.CheckDepth` | server/depth.go:14-98 | Terminates and visits no more selections than the document holds, cycles included; over the fragments the document defines (the last of a name counts), when none spreads itself, directly or through others, it accepts exactly when every operation, fully inlined, nests fields at most maxDepth deep. |
| `Depth.FragmentsAreDefined` | server/depth.go:26-31 | A name is collected exactly when a definition of the document defines it, with the selections of the last one that does. |
| `Depth.Checker.DepthOfSet` | server/depth.go:46-68 | Terminates by untouched fragments and remaining size; visits are paid for by the set and the fragments first entered; the result is the inlined depth. |
| `Depth.Checker.DepthOfSelection` | server/depth.go:53-62 | The same for one selection. |
| `Depth.Checker.FragmentDepth` | server/depth.go:70-86 | A fragment's body is traversed at most once; the memo holds inlined depths. |
| `Depth.CheckOperations` | server/depth.go:88-96 | Within the work bound; when it refuses, the last operation looked at is too deep and all before it are not. |
| `Depth.InlinedIsUnique` | server/depth.go:33-39 | The inlined document does not depend on the acyclicity witness. |
| `Depth.AcyclicIffNoCycle` | server/depth.go:33-41 | Fragments can be ranked above all they spread, which inlining needs, exactly when no fragment spreads itself through any chain. |
| `Depth.OperationsAndBodiesFit` | server/depth.go:26-31 | Operations and the fragments kept by name together are no larger than the document. |
| `Depth.DocumentSizeIsCount` | server/depth.go:26-31 | The size that bounds the visits is the number of selections in the document. |
| `Claims.LookupIsBacktrackingSearch` | rbac/rbac.go:300-322 | Lookup succeeds exactly when some split of the path at dots walks to a value, and returns the value of the preferred split. |
| `Claims.LookupFindsBest` | rbac/rbac.go:300-322 | The value found is that of the split with the longest first key at every level, among all splits that lead to a value. |
| `Claims.LookupMissesNothing` | rbac/rbac.go:300-322 | If any split leads to a value, lookup finds one. |
| `ClaimMaps.ClaimStore.SetClaimPath` | cmd/gqlgate/main.go:119-134 | Walking and changing the nested maps in place gives the claims with the value written at the path; maps not below the root keep their contents, and the maps stay a tree. |
| `Claims.SetThenLookupIff` | cmd/gqlgate/main.go:117-134 | Over claim names without dots, the value just set is looked up again exactly when no segment but the last is empty. |
| `Claims.LeadingDotIsLost` | cmd/gqlgate/main.go:119-134 | A value set at ".x" is not found at ".x". |
| `Claims.SetLeavesOthers` | cmd/gqlgate/main.go:119-134 | Lookups under other first segments are unchanged. |
| `Filters.CompileFilter` | rbac/rbac.go:235-249 | Refuses exactly blank text; otherwise segments and references interleave to the expression, one more segment than paths, and no segment holds a further reference. |
| `Filters.ReferenceIff` | rbac/rbac.go:216 | A reference is `:jwt.` with a word character behind it, in ASCII codes. |
| `Filters.ClaimPathIff` | rbac/rbac.go:216-217 | A claim path is one or more names of word characters joined by dots. |
| `Filters.BlankIff` | rbac/rbac.go:236-238 | ASCII text is blank when it holds white space only. |
| `Filters.BindableIff` | rbac/rbac.go:266-291 | Strings, numbers, booleans, null and arrays of such can be bound, and nothing else. |
| `Filters.CanonicalIsUnique` | rbac/rbac.go:215-249 | Two canonical cuts of one expression are the same, so the cut is determined by the text. |
| `Filters.FilterSql` | rbac/rbac.go:255-294 | Fails exactly when a referenced claim is missing or cannot be bound; otherwise placeholders and arguments align and the bound text is the expression with every claim's values in place. |
| `Filters.AppendClaim` | rbac/rbac.go:268-291 | A scalar becomes one placeholder, a list one per element, an empty list NULL, with the values appended in that order. |
| `Filters.AppendList` | rbac/rbac.go:276-288 | A non-empty list is rendered as comma-separated placeholders bound to its elements. |
| `RoleCache.StalenessBound` | auth/rolelookup.go:42-89 | Over every interleaving of lookups of ids whose roles agree when they print alike, a cached role was the database's value for that id at the moment some lookup queried it; that lookup stored it later, and the answer came less than ttl plus that delay after the query. |
| `RoleCache.NoCacheNoStaleness` | auth/rolelookup.go:62-88 | With ttl 0 every role served is what the database gave at that same lookup's own query step, and nothing is cached. |
| `RoleCache.OwnRoleIff` | auth/rolelookup.go:47-68 | In every run over accepted ids (non-empty strings, integers, floats under any rendering) cached answers belong to their own id exactly when the database answers alike for ids printed alike. |
| `RoleCache.SharesKeyIff` | auth/rolelookup.go:61 | Of strings and integers, different ids share a cache key only as an integer and its own numeral. |
| `RoleCache.OneKindOwnRole` | auth/rolelookup.go:42-89 | In every run whose ids are all non-empty strings, or all integers, cached answers belong to their own id, whatever the database holds. |
| `RoleCache.SharedEntry` | auth/rolelookup.go:61-68 | Of two ids printed alike the second is served the first one's role, its own exactly when the database gives both the same. |
| `RoleCache.NumberAndNumeralShareEntry` | auth/rolelookup.go:61-68 | The ids 42 and "42" with different roles: the second lookup is served the first one's. |
| `RoleCache.Resolver.Peek` | auth/rolelookup.go:63-65 | The first critical section reads the entry and changes nothing. |
| `RoleCache.Resolver.Put` | auth/rolelookup.go:83-87 | The second stores the role with its expiry and keeps every other entry. |
| `RoleCache.Resolver.ReadId` | auth/rolelookup.go:43-59 | The claim is refused unless a non-empty string or a number; integral floats become integers. |
| `RoleCache.Resolver.Resolve` | auth/rolelookup.go:42-89 | From the token's claims: no acceptable id is refused without a change; otherwise one undisturbed lookup does the four steps of the state machine and gives its answer. |
| `Names.CheckNameCollisions` | schema/builder.go:66-145 | Passes exactly when table names, column names per table and all claimed names are free of clashes with each other and the reserved names; a reported clash is real. |
| `Names.FirstRepeat` | schema/builder.go:76-83 | Finds a repeat exactly when two names sanitise alike, and reports such a pair. |
| `Names.ClaimNamespaces` | schema/builder.go:86-143 | Passes exactly when each of the three namespaces is clash-free, and names a contested entry otherwise. |
| `RoleSchema.RoleNamesDistinct` | schema/builder.go:227-310 | After the check passed, every role's root fields and generated types are pairwise distinct and differ from the built-in and the reserved names. |
| `RoleSchema.GeneratedForms` | schema/builder.go:667-678 | Which fields and types a role gets for a table, by its grants alone; by-key and connection fields only where the whole primary key can be read. |
| `RoleSchema.QueryNames` | schema/builder.go:689-732 | The query fields written for a table, by name. |
| `RoleSchema.MutationNames` | schema/builder.go:913-1100 | The mutation fields written for a table, by name. |
| `RoleSchema.TypeNamesAre` | schema/builder.go:243-264 | The types made for a table, by name, are exactly those among the claimed ones that its grants generate. |
| `RoleSchema.BuiltInsReserved` | schema/builder.go:86-96 | The check reserves the built-in names, and besides only a comparison type that is never made. |
| `RoleSchema.BuildRootFields` | schema/builder.go:267-288 | Filling the root field maps overwrites nothing: every field belongs to the table that generated it and none is missing. |
| `TableFields.RelFieldName` | schema/builder.go:369-389 | Terminates with an unused name: the candidate, or the first free suffix, at most as many tries as there are fields plus one. |
| `TableFields.JoinNamesAppend` | schema/builder.go:375-379 | The suffix of a relationship's name is the names of its columns in order, an underscore between them. |
| `TableFields.AddRelationFields` | schema/builder.go:391-499 | Adds exactly the relationships whose table can be selected and whose local columns can be read, each under a name made for it, and keeps every earlier field. |
| `TableFields.BuildObjectFields` | schema/builder.go:336-365 | The fields are exactly the readable columns under their names and the relationships the role may follow, each under a free name made for it. |
| `TableFields.BuildBoolExp` | schema/builder.go:579-597 | The connectives survive exactly when no readable column is named like one. |
| `Names.ColumnNamesUnchecked` | schema/builder.go:78-84 | A passing catalog still passes after any non-vector column takes a name its table does not use, "_and" included. |
| `Writes.MergeValues` | schema/sqlgen.go:749-769 | Refused exactly for an unwritable field or a preset without value; otherwise exactly the client's columns and the preset columns, presets winning, in any field order. |
| `Writes.WritableIff` | schema/sqlgen.go:748-756 | The client may set exactly the fields of columns that are granted, not preset and not generated. |
| `Writes.PresetForces` | rbac/rbac.go:79-93 | A preset forces its literal, or the scalar claim at its path. |
| `Writes.WritesOnlyGranted` | schema/sqlgen.go:746-782 | Every assignment is forced by a preset, or asked for by a client field of a granted, not generated column, with its bound value. |
| `Writes.SetClause` | schema/sqlgen.go:746-782 | Also refused when nothing is written; the SET text, bound, reads back as the merged columns and values in column order. |
| `Writes.WritesExactlyMerged` | schema/sqlgen.go:773-781 | The SET list has every merged value once and nothing else. |
| `Statements.RunUpdate` | schema/sqlgen.go:784-799 | Fails exactly on fields, presets and claims. The UPDATE, aligned whatever the filter, reads back as writing exactly the merged values into the rows of its condition; for a filter that is one whole condition (or absent) these are the rows where exactly the client's condition and the filter hold. |
| `Statements.SelectReads` | schema/sqlgen.go:401-403 | The bound text of a SELECT reads back as the columns, table, condition, order and limits asked for. |
| `Statements.LimitClause` | schema/sqlgen.go:335-344 | Refused exactly with the bounds; otherwise limit and, if positive, offset read back. |
| `Statements.NearestReads` | schema/vector.go:147-154 | The bound text reads back as a search by distance to the query vector, nearest first, with its condition and limit. |
| `Resolvers.NearestAnswers` | schema/vector.go:128-160 | The search answers at most the rows asked for, nearest first, never one without a vector, and none left out is nearer than one returned. |
| `Statements.BatchReads` | schema/sqlgen.go:550-559 | The bound text reads back as a subquery numbered per key in the window's order, and an outer filter that compares the rank with the cap. |
| `Statements.CountAndDeleteRead` | schema/sqlgen.go:606-607 | The bound texts of COUNT and DELETE read back as their table and condition. |

## Left out

- SQL lexing: text is modelled as tokens, with one developer-written predicate as one token; a static segment of a role filter has arbitrary tokens, and a reference stands between tokens (not inside a quoted literal). Quoting of identifiers is covered separately by `Ordering.QuoteRoundTrip`.
- Columns: the columns a statement returns are read back, but a returned row keeps all its cells.
- The database engine: a query is a relation from table contents to permitted row sequences; drivers, transactions, hooks and scanning of rows are not modelled.
- The GraphQL executor: resolver and thunk order is any sequence of enqueues and fetches, or waves of them.
- JSON and base64: the cursor codec is assumed lossless, and the JSON of list arguments to tell arguments apart. The hash of `cursorShape` is an opaque string, and different filters are not claimed to have different shapes.
- `Connection.PageRefines`: asks that the cursor's integers be canonical numerals, as every cursor the service hands out has; how the database reads a forged cursor is not modelled.
- Cursor keys of other types than integers and strings: `stringifyKey` prints them with `%v`, so no pagination claim is made for them.
- `Filters.FilterSql`: assumes static filter text holds no placeholder, as the source does.
- Cyclic fragments: only termination and the work bound are claimed; their depth values are not.
- `ClaimMaps.ClaimStore.SetClaimPath`: the value written is not itself a map (callers write a role name or an id), and a map is a reference into one store rather than a Go map.
- Locks: each critical section of the loader and the role cache is one atomic step.
- `RoleCache.Resolver.Resolve`: how Go renders a float, and which floats are integral, are parameters; database errors count as no role.
- Inserts: `mergedRowValues` merges as `Writes.MergeValues` does; the multi-row insert and re-selection by last insert id are not modelled.
- `resolveOp` and the wildcard rules of role resolution: a role's granted columns, presets and filters are inputs.
- Custom hook fields, which are rejected when their name is taken, and graphqlName itself, which is an arbitrary function here.
- Scalar coercion, configuration defaults other than the two page sizes, hot reload, aggregates (`collectAggSelections` keeps only the last repeated selection), HTTP, CORS, JWT verification.

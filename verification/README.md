# Verified models of the shop's caches, protocols and algorithms

A Dafny project that models the parts of the Django shop backend where correctness spans several functions or several
requests, and proves what those parts keep. `dafny verify dfyconfig.toml` checks everything.

| files | what they model |
|---|---|
| `ProductListCache`, `ProductListFreshness`, `ProductListSequential`, `ProductListOrder`, `ProductListStaleness`, `ProductListLoss`, `ProductListFacetLoss` | the product list: a page cache and, inside it, a facet-count cache, each tagged with a generation counter that itself expires, under interleaved requests and writers |
| `Idempotency`, `IdempotencyProtocol`, `IdempotencyOnce`, `IdempotencyLate`, `IdempotencyReplay`, `IdempotencyTwice` | idempotency keys: stored response, lock with expiry, and interleaved callers |
| `BundlePricing`, `EffectivePrice`, `BundleCache`, `BundleHistory`, `BundleQuote`, `BundleShop` | the bundle price and its rounding, what it shows of the rows, and its cache on top of the cache of effective prices, over sequential histories |
| `CollectionCache`, `CollectionRefresh`, `CollectionRows`, `CollectionShop`, `OnSale` | collection membership, its cached id lists, the smart refresh, and the on-sale rule |
| `CategoryTree` | the cycle check on category parents |
| `Slugs`, `Digits` | slug generation, and decimal numerals |
| `QueryKey` | the key form under which product-list pages are shared |
| `CartLines`, `CartService` | cart lines that merge and saturate, and cart pricing |
| `ProductImages` | the at-most-one-primary-image constraint, write by write |
| `InquiryReference`, `Characters` | the inquiry reference code and its parser, over Python's character classes |
| `Ordering`, `Sums`, `Options` | `ORDER BY` as the one strictly sorted listing of a finite set; the sum of a listing; the optional value |

Code of the source that changes state is a class or a method with a loop, proved equal to a function; the theorems are
about runs and histories of those functions. Code that is one expression is a function.

## Results that differ from what the source says

Each of these is proved, with the exact condition under which the source does keep the promise.

- **Writes inside a transaction, and deletes.** The handlers of a product, image, facet-definition or category change run
  at `post_save`/`post_delete`. Inside `transaction.atomic()` (`create_product`, `create_image`, `update_image`), for
  every delete that Django wraps in a transaction, and for every save in the admin site, which wraps each form in one, they
  bump the counters before the commit. A request between the bump and the commit then stores an old page under the new
  generation. Writes by `update()`, such as a product's review figures (apps/reviews/services.py:121), run no handler and
  bump nothing. `ProductListOrder.SourceHandlers` shows that these
  orders keep neither rows nor facet counts fresh; the two theorems before it give the orders that do.
- **Counters expire.** The counters are created by `cache.set(key, 1)` without a lifetime, and `CACHES`
  (config/settings.py:410-419) sets no `TIMEOUT`, so they get Django's default of 300 seconds. A counter that disappears
  starts again and can meet an old entry: `ProductListLoss.ExpiredCounterServesStalePage` is a run with nothing but saves,
  requests and the clock. `ProductListLoss.PageCounterLossHarmlessExactlyWhen` and
  `ProductListFacetLoss.FacetCounterLossHarmlessExactlyWhen` say when nothing of the kind can follow. The bound
  `ProductListStaleness.StalenessIsBounded` needs no assumption.
- **Creating a missing counter is not atomic.** Between a failed `incr` and its `set(key, 1)` another writer may have
  raised the counter: `ProductListLoss.LateCreationServesStalePage`. When the creation moves no counter back, the freshness
  theorem covers it. When it does, `ProductListLoss.RowsShownExactlyWhenCurrent` and
  `ProductListFacetLoss.FacetsShownExactlyWhenCurrent` say, from any state on, which transactions all later requests show.
- **Idempotent views run a mutation twice.** The helpers' module promises at most one run per key; the calling views (for
  example apps/orders/views.py:91-143) do not read the stored result again after winning the lock.
  `IdempotencyTwice.SourceRunsTwice` is a run with two executions at the same instant; with the second read
  (`IdempotencyOnce.RereadRunsOnce`) there is none, and `IdempotencyLate.RunsOnceExactlyWhenNoMutationIsLate` says exactly
  which runs keep the promise.
- **Bundle prices rest on a second cache.** `effective_unit_price` answers from its own cache, whose generation a product
  save raises only if the price changes (apps/promotions/signals.py:65-74). A product that leaves a discounted category
  keeps its old price there, and the next read of a bundle stores a price computed from it:
  `BundleHistory.CategoryChangeLeavesStalePrice`. Deleted categories and brands (`SET_NULL`), redemption budgets that run
  out (apps/promotions/services.py:592-594), and discounts that start or end raise no generation at all.
  `BundleHistory.EventKeepsRightExactlyWhenHarmless` gives the exact condition for every event.
- **Moving a row to another collection or bundle.** `collection` is writable in the membership serializer
  (apps/collections/serializers.py:118-135) and in the admin site, and `bundle` of a bundle item in the admin site
  (apps/bundles/admin.py:33-40), although not in its serializer (apps/bundles/serializers.py:29). The handlers invalidate
  only the collection or bundle that the row now names: `CollectionCache.MoveCoherentExactlyWhenOldUncached` and
  `BundleCache.MoveCoherentExactlyWhenOldUncached` give the exact conditions, `CollectionCache.MovedRowLeavesStaleList` and
  `BundleHistory.MovedItemLeavesStalePrice` the runs.
- **Repeated query parameters.** The key form sorts the values of a key, while `get` takes the last one sent:
  `QueryKey.SharingIsRightExactlyWhenUnambiguous`.
- **Two category moves at once.** The walk and the save are separate: `CategoryTree.RacingMovesCycleExactlyWhenCrossed`,
  and `CategoryTree.RacingMovesMakeCycle` for a run. The admin site writes `parent` without the
  walk (apps/catalog/admin.py:30-38); `CategoryTree.MoveAcyclicExactlyWhenAccepted` says which of those saves leave a cycle.
- **A stale image row.** `update_image` saves every field of the loaded row, but demotes other primaries only when the
  flag is in the request: `ProductImages.UpdateSafeExactlyWhenFlagStillHeld`, and `ProductImages.StaleRowBreaksConstraint`
  for a run.
- **Deleting a bundle** sets it to null on cart lines and can leave two lines for one product:
  `CartLines.BundleDeletionKeepsOneLineExactlyWhenNoCollision`, and `CartLines.BundleDeletionLeavesTwoLines` for a run.
- **Order of on-sale products.** The comment of `_on_sale` promises the order of discount priority; the code orders by
  descending id. `OnSale.LowerPriorityComesFirst` is a catalogue on which the two differ, and
  `OnSale.PriorityOrderExactlyWhenNewerIsAsProminent` says when they agree.
- **Digits that are no decimals.** `isdigit` accepts 128 characters, such as `²`, `₂` and `①`, on which `int` raises:
  `InquiryReference.OtherDigitRaises` for each of them, `InquiryReference.RaisesExactlyOnOtherDigits` for the condition.

## Assumptions

- Product list: each step is one cache or database access; the increment of an existing counter is atomic, and its failure
  and the creation that follows are two steps. Keys may be evicted at any time. The several queries of
  one listing (page count, rows) are one read step; the facet definitions and counts are another. A database state is the
  number of transactions committed so far. Hashes of queries are injective, and so is the rendering that precedes them.
- Idempotency: scopes contain no `:` and keys do not end in `:lock` (`Idempotency.LockKeyClash` shows why); the time-based
  theorems assume that a lock holder releases within 60 seconds, and
  `IdempotencyProtocol.AcquireExclusiveExactlyWhenNoneOverstays` says what happens otherwise. A request's fingerprint is
  one string.
- Bundle and collection histories are sequential. Under given promotions, the best price of a product is an arbitrary
  function of its row; entries of the bundle, effective-price and list caches may expire at any event. Primary keys of
  products are not used again. A smart rule's result is an
  arbitrary list of distinct existing products; the database check on `smart_rule` (apps/collections/models.py:88-92)
  rules out a smart collection without a registered rule.
- Money is a whole number of cents (`discount_value` in hundredths), so totals are exact.
- Strings are sequences of characters, of the classes of Unicode 16, which is the version of Python 3.14
  (.github/workflows/ci.yml:19). Slugs and cache keys compare characters only.

## Model

| member | source | states |
|---|---|---|
| ProductListFreshness.RequestShowsFinishedWriter | apps/catalog/views.py:254-283 | in every interleaving, a request opened after a writer finished serves rows that include its transaction if the writer bumped the page counter after the commit, and facet counts that include it if a facet bump and then a page bump followed the commit |
| ProductListFreshness.RunInv | apps/catalog/cache.py:144-257 | every step of requests, writers, evictions and the clock keeps the invariant that a page or facet entry under a generation is as new as every commit that reached that generation |
| ProductListOrder.RowsFreshExactlyWhenPageFollowsCommit | apps/catalog/signals.py:39-86 | a writer's order of commit and bumps keeps listed rows fresh in all runs if and only if a page bump follows the commit |
| ProductListOrder.FacetsFreshExactlyWhenFacetThenPageFollowCommit | apps/catalog/signals.py:46-48 | it keeps facet counts fresh in all runs if and only if, after the commit, a facet bump precedes a page bump; the swapped order has a run that freezes old counts into a current page |
| ProductListOrder.SourceHandlers | apps/catalog/signals.py:25-86 | plain saves keep rows fresh for every handler and facet counts exactly for product and facet-definition saves; handlers that fire before the commit keep neither |
| ProductListOrder.StaleRows | apps/catalog/views.py:254-258 | without a page bump after the commit, a run serves a page without the committed transaction |
| ProductListOrder.StaleFacets | apps/catalog/services.py:294-314 | if no facet bump precedes the last page bump after the commit, a run serves old facet counts under the new page generation |
| ProductListStaleness.StalenessIsBounded | apps/catalog/cache.py:37-41 | with no assumption on counters or handlers, served rows are at most 60 s plus one build old, and facet counts at most 360 s plus two builds |
| ProductListLoss.ExpiredCounterServesStalePage | apps/catalog/cache.py:213-218 | a run in which the page counter, created at second 0, expires at second 300, and a request opened at 302, after a save that finished at 295, is served the page of second 290 |
| ProductListLoss.RowsShownExactlyWhenCurrent | apps/catalog/views.py:254-283 | from any state on, all later requests show a transaction in their rows, in every continuation, if and only if every unexpired page and every request that holds rows, under the current generation or a later one, includes it |
| ProductListLoss.PageCounterLossHarmlessExactlyWhen | apps/catalog/cache.py:200-218 | once the page counter is gone, that is if and only if every unexpired page and every request that already holds rows includes it |
| ProductListFacetLoss.FacetsShownExactlyWhenCurrent | apps/catalog/services.py:294-314 | from any state on, all later requests show a transaction in their facet counts, in every continuation, if and only if it is in every unexpired facet entry and page that can be reached again, under a current or later generation or a facet generation that a request with a current page generation has read, and in what requests are about to store there |
| ProductListFacetLoss.FacetCounterLossHarmlessExactlyWhen | apps/catalog/cache.py:144-197 | once the facet counter is gone, that is if and only if every unexpired facet entry, every unexpired page under a current or later generation, and everything that requests hold to store in either, includes it |
| ProductListLoss.LateCreationServesStalePage | apps/catalog/cache.py:213-218 | two writers miss and create the counter around a third; a request opened after the third finished is served a page without it |
| ProductListSequential.BrowseRuns | apps/catalog/views.py:254-283 | the request's single steps, uninterrupted, amount to answering from the page cache or from the database and facet cache, and storing the answer |
| ProductListSequential.TakenRuns | apps/catalog/views.py:254-283 | leaving out the accesses that a cache hit makes unnecessary changes nothing |
| ProductListSequential.StoredIsFoundExactlyUntilExpiry | apps/catalog/cache.py:37-41 | a stored page answers its query for 60 seconds, and computed facet counts for 300 seconds, and no longer |
| ProductListSequential.CounterLivesFiveMinutes | apps/catalog/cache.py:200-218 | a counter expires 300 seconds after its creation, however often it is raised in the meantime |
| ProductListSequential.SaveRuns | apps/catalog/signals.py:39-48 | a plain save's single steps amount to one commit followed by its handler's bumps |
| ProductListSequential.AfterBumpsRaises | apps/catalog/cache.py:81-218 | a sequence of bumps moves no counter back, and raises exactly those it names, whichever were missing |
| ProductListSequential.Storefront.Handle | apps/catalog/signals.py:25-86 | the handler performs exactly its bumps, in the order the freshness theorem needs |
| ProductListSequential.Storefront.Save | apps/catalog/signals.py:39-48 | commit first, then the handler's bumps in order; together they are the state machine's writer run to its end |
| ProductListSequential.Storefront.ComputeFacetCounts | apps/catalog/services.py:272-314 | the facet generation is read first; the counts are the cached ones under the current facet generation, or those of the current database, which are then stored for 300 s |
| ProductListSequential.Storefront.List | apps/catalog/views.py:241-283 | the view takes its steps in the order the freshness theorem needs, the generation read before any data; run on the state machine, those steps give its answer and caches |
| Idempotency.CacheKeyInjective | apps/core/idempotency.py:52-67 | with colon-free scopes, two entries share a key if and only if scope and key are equal |
| Idempotency.LockKeyClash | apps/core/idempotency.py:105-126 | a lock marker takes the place of a stored response if and only if that response's key is the marker's key followed by ":lock", in the same scope |
| Idempotency.LockKeyInjective | apps/core/idempotency.py:105-126 | with colon-free scopes, two locks are the same if and only if scope and key are equal |
| Idempotency.StoredForOneDay | apps/core/idempotency.py:24-102 | a stored response is read back unchanged for 86400 seconds and no longer, and conflicts with exactly the requests of another fingerprint, or with none if it was stored without one |
| Idempotency.LockedForOneMinute | apps/core/idempotency.py:105-126 | a marker stops others for 60 seconds from when it was set, unless it is released; a second try does not prolong it |
| Idempotency.IdempotencyStore.ReadCachedResult | apps/core/idempotency.py:70-81 | answers the unexpired stored response, if any |
| Idempotency.IdempotencyStore.StoreResult | apps/core/idempotency.py:84-102 | what is stored is what the next read answers, for 24 hours |
| Idempotency.IdempotencyStore.AcquireProcessingLock | apps/core/idempotency.py:105-116 | wins exactly when no unexpired marker is there, and leaves one there either way |
| Idempotency.IdempotencyStore.ReleaseProcessingLock | apps/core/idempotency.py:119-126 | removes the marker, whoever wrote it, and nothing else |
| IdempotencyProtocol.LockIsExclusive | apps/core/idempotency.py:105-126 | in every interleaving where holders release in time, at most one caller per (scope, key) holds the lock, although release deletes unconditionally |
| IdempotencyProtocol.ContenderIsRefused | apps/orders/views.py:96-102 | while a caller holds the lock in time, another caller of the same key gets the in-progress conflict and changes nothing else |
| IdempotencyProtocol.FailureFreesKey | apps/orders/views.py:103-143 | a request whose mutation fails leaves the lock free, no execution, and every stored response as it was |
| IdempotencyProtocol.AcquireExclusiveExactlyWhenNoneOverstays | apps/core/idempotency.py:105-116 | without that assumption, taking the lock keeps it exclusive if and only if no holder of the same key has outlived its marker |
| IdempotencyOnce.RereadRunsOnce | apps/core/idempotency.py:1-15 | if winners read again under the lock, no key's mutation runs again within 24 hours of its stored response, in every timely interleaving |
| IdempotencyLate.RunsOnceExactlyWhenNoMutationIsLate | apps/orders/views.py:91-143 | a timely run of the views keeps every key to one execution per unexpired response if and only if no mutation is taken while an unexpired response for its key is stored |
| IdempotencyReplay.LaterRequestIsReplayedOrRefused | apps/core/idempotency.py:1-15 | with the second read, every request that arrives once the mutation has run and is answered before its response expires gets the in-progress refusal, the stored status and data unchanged, or a conflict, in every timely interleaving |
| IdempotencyTwice.SourceRunsTwice | apps/orders/views.py:91-143 | two requests under one key, both read before either stored, run the mutation twice in a timely run |
| IdempotencyReplay.LaterRequestIsReplayed | apps/core/idempotency.py:163-197 | in either protocol, a request arriving after the store gets the stored status and data unchanged for the same fingerprint and a conflict for another, in every interleaving without a late mutation |
| IdempotencyOnce.RunInv | apps/core/idempotency.py:70-126 | every step keeps the link between executions, stored responses, markers and lock holders |
| BundlePricing.ComputeBundlePrice | apps/bundles/services.py:193-242 | the accumulating loop computes the specified price, or the error for a bundle without items |
| BundlePricing.QuantizeUnique | apps/bundles/services.py:284 | the nearest cent with ties to even is the only value that the rounding may take |
| BundlePricing.DiscountMonotone | apps/bundles/services.py:265-284 | for every discount, a larger total never has a smaller discount nor a smaller discounted total, across the rounding and the cap |
| BundlePricing.DiscountBounds | apps/bundles/services.py:284 | the rounded discount never exceeds the total |
| BundlePricing.DiscountAccuracy | apps/bundles/services.py:279-284 | a percentage up to 100 is charged to within half a cent, with half a cent to the even side, a larger one takes the whole total, and a fixed amount is charged exactly up to the total |
| BundlePricing.PriceConserved | apps/bundles/services.py:213-242 | the items are priced in order, and their line totals are the price plus the discount, neither negative |
| BundlePricing.ListPriceOnlyQuoted | apps/bundles/services.py:217-242 | a product's list price moves the quoted regular price by the change times the quantity and leaves price and discount alone |
| BundlePricing.MoreNeverCostsLess | apps/bundles/services.py:213-240 | raising one item's quantity never lowers the bundle price |
| BundleQuote.UncachedAnswerShowsRows | apps/bundles/services.py:207-242 | an uncached price shows every item of the bundle, in key order, with the item's quantity and option, its product's name, sku and list price, and its effective price; line totals are price times quantity; the regular price is the sum of list price times quantity, and price and discount add up to the sum of the line totals |
| BundleQuote.LargerQuantityNeverCheaper | apps/bundles/services.py:213-240 | saving an item with a larger quantity never lowers the price that the next read computes |
| BundleQuote.DeletionsCascade | apps/bundles/models.py:85-86 | a deleted bundle or product takes exactly its items along; a deleted category or brand is cleared from exactly the products that name it |
| BundleQuote.HandlersDropExactly | apps/bundles/signals.py:16-78 | a write drops the cached price of exactly the bundles it concerns, and leaves every other entry as it was |
| BundleQuote.GenerationRisesExactly | apps/promotions/signals.py:20-80 | the effective prices start over exactly when a product is new, changes its list price or is deleted, or a discount changes or goes with its bundle |
| BundleHistory.CacheIsInvisible | apps/bundles/services.py:184-190 | after any history of harmless events, a price read for an existing bundle is what a recomputation gives, and that is the price the current rows and promotions give |
| BundleHistory.EventKeepsRightExactlyWhenHarmless | apps/promotions/signals.py:44-80 | an event keeps every readable price right, now and in all harmless continuations, if and only if it is harmless: a product save changes the price, or leaves the best price alone, or no live effective price of the product is cached; an item moved to another bundle leaves one without a cached price; a change that no handler sees touches no price that is cached; a lost generation meets no entry it could revive wrongly |
| BundleHistory.CoherentExactlyWhenRightFromNowOn | apps/promotions/cache.py:42-101 | the invariant on both caches is the weakest that keeps every later read right |
| BundleHistory.CategoryChangeLeavesStalePrice | apps/promotions/signals.py:65-74 | a history of saves, reads and one expiry after which a bundle price read differs from a recomputation |
| BundleHistory.MovedItemLeavesStalePrice | apps/bundles/signals.py:38-41 | a history after which a bundle whose only item was moved away still answers a price, while a recomputation refuses |
| BundleCache.StepCoherentExactlyWhenHarmless | apps/bundles/signals.py:16-78 | every event with the handlers of both apps keeps both caches current if and only if it is harmless |
| BundleCache.RewrittenExactly | apps/catalog/models.py:131-142 | a deletion of categories or brands, or a drift of the promotions, keeps both caches current if and only if no cached price rests on a best price that changes |
| BundleCache.OwnersOf | apps/bundles/signals.py:50-66 | looking bundles up through their items reaches exactly the bundles that hold the product |
| BundleHistory.RenameLeavesOldEntry | apps/bundles/signals.py:26-29 | a rename leaves the old slug's entry behind, under no bundle's slug |
| BundleCache.MoveCoherentExactlyWhenOldUncached | apps/bundles/signals.py:38-41 | an item moved to another bundle leaves all prices right if and only if the bundle it left had none cached |
| BundleShop.Shop.InvalidateBundlesForProduct | apps/bundles/signals.py:50-66 | drops exactly the entries of the bundles that hold the product |
| BundleShop.Shop.InvalidateAllBundlePrices | apps/bundles/cache.py:70-81 | drops the entry of every existing bundle |
| BundleShop.Shop.PriceBundleItems | apps/promotions/services.py:209-244 | prices every item in key order, each through the effective-price cache as the reads before it left it; the lines are those of the cache before, and what it stores is the best price of every product not cached |
| BundleShop.Shop.GetBundlePrice | apps/bundles/services.py:160-190 | answers the cached price, or the recomputed one that shows the rows, and stores only a price |
| BundleShop.Shop.SaveProduct | apps/promotions/signals.py:44-74 | a product save with the handlers of both apps is its event of the history |
| BundleShop.Shop.OnItemsDeleted | apps/bundles/signals.py:44-47 | the handlers of cascaded items drop exactly their bundles' entries |
| BundleShop.Shop.DeleteProduct | apps/bundles/signals.py:75-78 | the cascade and the handlers together are the delete event, although the product's own handler finds no items left |
| BundleShop.Shop.DeleteBundle | apps/bundles/signals.py:32-35 | a bundle delete with its cascade over items and scoped discounts is the delete event |
| BundleShop.Shop.DeleteItem | apps/bundles/signals.py:44-47 | an item delete is its event |
| BundleShop.Shop.SaveItem | apps/bundles/signals.py:38-41 | an item save, to the same or another bundle, is its event |
| BundleShop.Shop.SaveBundle | apps/bundles/signals.py:26-29 | a bundle create, update or rename is its event |
| BundleShop.Shop.ChangePromotions | apps/promotions/signals.py:20-41 | a discount save or delete is its event: a new generation, and every bundle price dropped |
| CollectionCache.CacheIsInvisible | apps/collections/selectors.py:86-93 | after any history of harmless events, every read answers the membership rows in (sort_order, pk) order, and no cached list outlives its collection |
| CollectionCache.StepCoherentExactlyWhenHarmless | apps/collections/signals.py:18-69 | every event with its handlers keeps every cached list equal to its rows and tied to a collection if and only if it is harmless: it moves no row out of a collection whose list is cached |
| CollectionCache.RefreshReplaces | apps/collections/services.py:270-279 | a refresh leaves exactly the rule result, numbered from zero, in its collection, and every other collection's rows alone |
| CollectionCache.RefreshedCoherent | apps/collections/services.py:270-283 | the list stored by a refresh equals the rows it wrote |
| CollectionRefresh.RefreshesExactlyInWindow | apps/collections/services.py:246-283 | a refresh changes nothing if the collection is manual, inactive, starts after or ended before the instant, and otherwise, both limits included, leaves the rule result, numbered from zero, as its rows and its list, and every other collection alone |
| CollectionRows.MembersInOrder | apps/collections/selectors.py:86-93 | the listing of a collection is the products of its rows by sort_order, ties by key |
| CollectionRows.AddInsertsMember | apps/collections/models.py:100-124 | an added row puts its product behind all of its position, and moves no other member; a second row for the pair is refused |
| CollectionRows.UpdateMovesMember | apps/collections/models.py:100-124 | a changed or moved row takes its member out of one place and puts the new one into its place by position |
| CollectionRows.RemoveDropsMember | apps/collections/models.py:100-124 | a removed row takes exactly its own member out of its collection's listing |
| CollectionRows.DeletionsCascade | apps/collections/models.py:111-118 | a deleted collection or product takes exactly its rows along |
| CollectionRows.HandlersDropExactly | apps/collections/signals.py:18-69 | a write drops exactly the lists it concerns, and leaves every other list as it was |
| CollectionCache.NoProductTwice | apps/collections/models.py:100-124 | after any history, moves included, no read of a collection lists a product twice |
| CollectionCache.MoveCoherentExactlyWhenOldUncached | apps/collections/signals.py:50-58 | a row moved to another collection leaves all lists right if and only if the collection it left had none cached |
| CollectionCache.MovedRowLeavesStaleList | apps/collections/signals.py:50-58 | a run from empty tables in which a moved row leaves the first collection listing a product it has no row for |
| CollectionRefresh.SweepEffect | apps/collections/services.py:286-298 | a sweep replaces rows and list of exactly the visited smart collections that are active, started and not over, both limits included; every other one keeps both |
| CollectionRefresh.SweepIsIdempotent | apps/collections/services.py:249-252 | a second sweep over an unchanged catalogue, in any order, changes neither (product, sort_order) rows nor any cached list |
| CollectionShop.Shop.BeforeCollectionSave | apps/collections/signals.py:18-36 | drops the old and the new slug's list, or, for an unknown primary key, nothing |
| CollectionShop.Shop.SaveCollection | apps/collections/signals.py:18-36 | a collection create, update or rename is its event |
| CollectionShop.Shop.BeforeRowsDelete | apps/collections/signals.py:61-69 | the handlers of deleted rows drop exactly their collections' lists |
| CollectionShop.Shop.DeleteCollection | apps/collections/signals.py:39-47 | a collection delete with its cascade is its event |
| CollectionShop.Shop.DeleteProduct | apps/collections/signals.py:61-69 | a product delete with its cascade is its event |
| CollectionShop.Shop.AddMember | apps/collections/signals.py:50-58 | adding a row is its event |
| CollectionShop.Shop.UpdateMember | apps/collections/signals.py:50-58 | changing a row, or moving it to another collection, is its event |
| CollectionShop.Shop.RemoveMember | apps/collections/signals.py:61-69 | removing a row is its event |
| CollectionShop.Shop.GetCollectionProductPks | apps/collections/selectors.py:74-93 | answers the cached list, or the rows in display order |
| CollectionShop.Shop.BulkCreate | apps/collections/services.py:272-279 | inserts the result under consecutive keys, numbered from zero |
| CollectionShop.Shop.RefreshSmartCollection | apps/collections/services.py:246-283 | deletes, recreates, saves and caches as the refresh event says, and answers whether the collection is smart, active, started and not over |
| CollectionShop.Shop.RefreshAllSmartCollections | apps/collections/services.py:286-298 | is a sweep over exactly the active smart collections, and counts exactly the refreshed ones |
| OnSale.OnSale | apps/collections/services.py:138-194 | returns exactly the products on sale, each once, in descending id order |
| OnSale.OnSaleMeans | apps/collections/services.py:160-187 | a product is on sale if and only if it is active and a discount covers it that is active, has started, is not over, and has redemptions left, both limits of its window included |
| OnSale.DeadDiscountAddsNothing | apps/collections/services.py:160-172 | a discount that is inactive, not started, over, used up or meant for bundles puts no product on sale |
| OnSale.PriorityOrderExactlyWhenNewerIsAsProminent | apps/collections/services.py:141-147 | the promised order by discount priority holds if and only if of two products on sale the newer one is never on the less prominent offer |
| OnSale.LowerPriorityComesFirst | apps/collections/services.py:190-194 | a catalogue whose product on the higher-priority discount comes second |
| OnSale.AddIds | apps/collections/services.py:184-187 | the dedup loop appends every new id once, skipping nulls, and keeps what was listed |
| CategoryTree.Validate | apps/catalog/serializers.py:131-167 | on any table, even with cycles, the walk ends and refuses if and only if the category is the proposed parent or one of its ancestors |
| CategoryTree.MoveAcyclicExactlyWhenAccepted | apps/catalog/serializers.py:148-167 | moving a category keeps the relation acyclic if and only if the walk accepts |
| CategoryTree.EventEffect | apps/catalog/models.py:20-30 | a create or an accepted move sets the one parent and no other; a deletion takes exactly the category and those below it |
| CategoryTree.RunKeepsForest | apps/catalog/models.py:20-30 | every run of creations, accepted moves and cascading deletions keeps the table a forest |
| CategoryTree.FromEmpty | apps/catalog/models.py:20-30 | every run from the empty table ends in a forest in which every chain of ancestors reaches a root |
| CategoryTree.ChainEnds | apps/catalog/models.py:22-24 | in an acyclic table every chain of ancestors ends at a root |
| CategoryTree.RacingMovesCycleExactlyWhenCrossed | apps/catalog/serializers.py:148-167 | two moves validated against the same table leave a cycle if and only if each new parent lies at or below the other category |
| CategoryTree.RacingMovesMakeCycle | apps/catalog/serializers.py:148-167 | two categories, each accepted as the other's parent, end in a cycle |
| Slugs.GenerateUniqueSlug | apps/catalog/services.py:57-81 | stops after at most one suffix more than there are taken slugs, at the first slug no other row has: the base, or what fits of it, a hyphen and the number of tries |
| Slugs.UniqueBundleSlug | apps/bundles/services.py:59-68 | the bundles' search: the base, or the whole base, a hyphen and the number of tries, the first that no other bundle has; never empty |
| Slugs.SlugKeepsBase | apps/catalog/services.py:71-77 | a suffixed slug is the longest prefix of the base that fits, less trailing hyphens, in front of a hyphen and the number of tries; the whole base if there is no limit or it fits |
| Slugs.BaseKeepsWhatFits | apps/catalog/services.py:67-68 | the base is the text, or the longest prefix of it that fits, less trailing hyphens |
| Slugs.FreeOfOthers | apps/catalog/services.py:70-79 | the slug is no other row's, is suffixed if and only if another row has the base, and every suffixed slug before it is another row's |
| Slugs.CandidatesDistinct | apps/catalog/services.py:71-77 | different counters give different candidates, despite truncation and hyphen stripping |
| Slugs.BoundIsReached | apps/catalog/services.py:70-79 | a base that ends like a suffix is its own first candidate, so the bound on the tries is reached |
| Slugs.StableAsRowsGrow | apps/catalog/services.py:67-68 | regenerating an instance's slug after other rows were added gives it back if and only if none of them took it |
| Slugs.SaveKeepsUnique | apps/catalog/services.py:66-81 | saving the generated slug keeps slugs unique across rows |
| QueryKey.SharedExactlyWhenPermuted | apps/catalog/views.py:80-81 | two requests have the same key form if and only if their parameters are permutations of each other, repeats included |
| QueryKey.LastValueWins | apps/catalog/views.py:71-72 | the value read for a parameter is the last one sent |
| QueryKey.SharingIsRightExactlyWhenUnambiguous | apps/catalog/views.py:71-72 | every request that shares the entry reads the same value for every parameter if and only if no parameter is sent with two values |
| CartLines.RunKeepsCarts | apps/cart/services.py:54-83 | every run keeps quantities in 1..999, and one line per product and bundle unless a deleted bundle collides |
| CartLines.AddsSaturate | apps/cart/services.py:70-83 | a pair that is only added to ends at the sum of the accepted adds, or 999 if that is less, however split, ordered or interleaved |
| CartLines.AddEffect | apps/cart/services.py:57-83 | an add is refused for a quantity outside 1..999, a missing, inactive or out-of-stock product, or a missing bundle, in this order; otherwise the oldest line of the pair gets the capped sum, or a new line the quantity |
| CartLines.UpdateEffect | apps/cart/services.py:100-115 | an accepted update leaves the line with the requested quantity, whatever it was, and all else as it was; the refusals are those of the quantity, the cart's own lines, and products that can be ordered, in this order |
| CartLines.UpdateSetsHeld | apps/cart/services.py:112-113 | after an accepted update the cart holds exactly the requested quantity of the line's pair, and of every other pair what it held |
| CartLines.LastUpdateWins | apps/cart/services.py:112-113 | of two accepted updates of a line only the last matters |
| CartLines.RemoveUndoesAdd | apps/cart/services.py:118-133 | removing a line that an add has created gives the lines before the add back |
| CartLines.CatalogueEventEffect | apps/cart/models.py:54-63 | a deleted product takes exactly its lines out of the carts; a deleted bundle's lines become loose ones with the same quantities |
| CartLines.BundleDeletionKeepsOneLineExactlyWhenNoCollision | apps/cart/models.py:56-63 | deleting a bundle keeps one line per pair if and only if no cart holds both its line and the loose product's |
| CartLines.BundleDeletionLeavesTwoLines | apps/cart/models.py:56-63 | a run from an empty cart that ends with two lines for one product |
| CartService.AddChangesSubtotal | apps/cart/selectors.py:87-94 | an add changes its cart's subtotal by the unit price times what it changes the pair's quantity by, and no other cart's |
| CartService.UpdateChangesSubtotal | apps/cart/selectors.py:87-94 | an accepted update changes its cart's subtotal by the unit price times the change of quantity, and no other cart's |
| CartService.RemoveChangesSubtotal | apps/cart/selectors.py:87-94 | a removal lowers its cart's subtotal by the unit price times the line's quantity, and no other cart's |
| CartService.PriceCartLines | apps/cart/selectors.py:72-104 | prices every line of the cart once, oldest first, at its product's price, loose or in a bundle, times its quantity; the subtotal is the sum of the line totals |
| CartService.Carts.AddItem | apps/cart/services.py:40-83 | the checks in order, then the capped merge into the oldest matching line, or a new line |
| CartService.Carts.UpdateItem | apps/cart/services.py:86-115 | the checks in order, then exactly one line's quantity changes |
| CartService.Carts.RemoveItem | apps/cart/services.py:118-133 | removes exactly the line, if the cart owns it |
| ProductImages.ConstraintNeverFires | apps/catalog/services.py:208-217 | after any run, no single write of the next operation gives a product two primary images |
| ProductImages.CreateProductKeepsFirstClaim | apps/catalog/services.py:208-217 | a created product's images are the uploads in order, with exactly the first claimed primary kept |
| ProductImages.CreateImageEffect | apps/catalog/services.py:516-527 | a created image is as uploaded, without variants, and, if primary, its product's only one; other rows keep everything but the flag |
| ProductImages.UpdateEffect | apps/catalog/services.py:544-555 | an update leaves the row with each given field as given and each other field as loaded; a new file discards the variants; every other row keeps all but the flag, which a requested one takes from the product's other images |
| ProductImages.UpdateSafeExactlyWhenFlagStillHeld | apps/catalog/services.py:546-555 | an update of a loaded row respects the constraint if and only if it asks for the flag, drops it, or no other image has taken it since |
| ProductImages.StaleRowBreaksConstraint | apps/catalog/services.py:546-555 | a run after which an update of a stale row makes the constraint fire |
| ProductImages.Gallery.CreateImages | apps/catalog/services.py:208-217 | the loop issues exactly the specified writes, each allowed by the constraint |
| ProductImages.Gallery.CreateImage | apps/catalog/services.py:499-529 | demotes first, then inserts, each write allowed by the constraint |
| ProductImages.Gallery.UpdateImage | apps/catalog/services.py:532-558 | demotes the others when the flag is requested, then saves the loaded row; a refused save undoes both, and is refused exactly when the loaded row's flag has been taken over |
| InquiryReference.ParsesExactlyTheSpellings | apps/inquiries/models.py:100-109 | the parser reads a text as a number if and only if the text is space, the prefix in any case, a hash, separators and decimal digits of any script that amount to the number, in that order |
| InquiryReference.RaisesExactlyOnOtherDigits | apps/inquiries/models.py:107-109 | it raises instead of answering None if and only if the digits of such a text include one that is no decimal |
| InquiryReference.OtherDigitRaises | apps/inquiries/models.py:107-109 | every one of these digits alone makes it raise |
| InquiryReference.ParseReferenceRoundTrip | apps/inquiries/models.py:76-109 | parsing undoes printing for every id, also beyond six digits |
| InquiryReference.ReferenceShape | apps/inquiries/models.py:76-85 | a reference is INQ, a hyphen and the number, in exactly six digits up to 999999 and in as many as it has above |
| InquiryReference.DocumentedSpellings | apps/inquiries/models.py:87-94 | inq123, INQ 123, #123 and 123 are read as the number, for every number |
| InquiryReference.PrefixSpellings | apps/inquiries/models.py:102-105 | the prefix is read in any case, and with a dotless i |
| InquiryReference.ParseReference | apps/inquiries/models.py:87-109 | the loop over the two tokens computes the parse; a missing value is refused |
| Digits.ReadPrint | apps/inquiries/models.py:84 | reading a printed number gives it back |

## Left out

- CategoryTree.Validate: the lookup and the later save are not one step; `RacingMovesCycleExactlyWhenCrossed` covers the gap.
- ProductListSequential.Storefront.Save: the class runs one request or save at a time; interleavings are on the state machine only.
- ProductListStaleness.StalenessIsBounded: the build time is measured from a request's first access to its last store, as seen in the run.
- CollectionShop.Shop.RefreshAllSmartCollections: all refreshes of one sweep use one instant and one set of rule results, and the order of the collections is arbitrary.
- InquiryReference.ParseReference: Python's limit of 4300 digits on converted numerals; upper-casing leaves letters other than ASCII's and the dotless i alone, which changes no outcome.
- Category rows and category detail caches of `apps/catalog/cache.py`: the same scheme with one level.
- The content of facet counts (`_choice_counts_for_facet`, `_range_stats_for_facet`, `_coerce_numeric`) and `validate_facet_params`: sums and filters done by SQL.
- `get_collection_products`, `build_cart_snapshot`: projections of results that are modelled.
- The other smart rules (`_new_arrivals`, `_restocked`, `_low_stock`) and the dispatch in `compute_membership`: single queries.
- Writes that a uniqueness or foreign-key constraint refuses change nothing in the models; the source may already have dropped a cache entry, which is harmless.
- Races on the bundle-price and collection caches, where a late store after an invalidation lasts until its expiry; their histories are sequential.
- How the best price follows from the discounts (`_best_discount`, `_apply_discount`), prices outside bundles, and coupons; the generation counter of the effective prices may vanish at any event instead of after 300 seconds.
- The bundle, collection and effective-price caches keep no clock: any entry may expire at any event.
- Redis eviction of idempotency entries, a crash between a mutation and its stored response, and the hashing of request bodies.
- Text normalisation before slug truncation (accents, case, regular expressions), and `Decimal` precision beyond 28 digits.
- Rows edited in the admin site, other than bundle items and collection rows: image, cart and category rows are written there without the services and checks modelled here.
- Brand saves, which have no signal handler, HTTP, authentication, permissions, serializers other than the cycle check, images' files and the background job that writes their variants, search ranking and analytics.

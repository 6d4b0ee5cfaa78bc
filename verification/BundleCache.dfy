/**
  The cached bundle prices, computed from cached effective prices, over any sequential history of catalogue, bundle
  and promotion changes: in which histories every price read is the price the current rows and promotions give.
 */
module BundleCache {
  import opened Options
  import opened Ordering
  import opened BundlePricing
  import opened EffectivePrice

  datatype Item = Item(bundle: nat, product: nat, quantity: nat, isOptional: bool)

  /** Primary keys of products below `nextProduct` have been handed out and are never used again. */
  datatype Db = Db(bundles: map<nat, Bundle>, items: map<nat, Item>, products: map<nat, Product>, nextProduct: nat,
                   best: Best)

  type Cache = map<string, Price>

  datatype State = State(db: Db, prices: Cache, effective: Effective)

  /** Foreign keys point at rows, and slugs are unique. */
  ghost predicate Valid(db: Db) {
    && (forall i <- db.items :: db.items[i].bundle in db.bundles && db.items[i].product in db.products)
    && (forall a <- db.bundles, b <- db.bundles :: db.bundles[a].slug == db.bundles[b].slug ==> a == b)
    && (forall p <- db.products :: p < db.nextProduct)
  }

  ghost predicate ValidState(s: State) { Valid(s.db) && forall p <- s.effective.entries :: p < s.db.nextProduct }

  function ItemsOf(db: Db, b: nat): set<nat> { set i <- db.items | db.items[i].bundle == b }

  function ProductsOf(db: Db, b: nat): set<nat> { set i <- db.items | db.items[i].bundle == b :: db.items[i].product }

  function LineFor(item: Item, product: Product, unitPrice: nat): Line {
    Line(item.product, product.name, product.sku, item.quantity, item.isOptional, product.price, unitPrice)
  }

  /** An item's line with its product's effective price, cached or not. */
  function LineOf(db: Db, effective: Effective, i: nat): Line
    requires Valid(db) && i in db.items
  {
    var p := db.items[i].product;
    LineFor(db.items[i], db.products[p], effective.Price(p, db.products[p], db.best))
  }

  /** The bundle's items in primary-key order, each with its product's current prices. */
  function Lines(db: Db, effective: Effective, b: nat): seq<Line>
    requires Valid(db)
  {
    var pks := Sort(ItemsOf(db, b), Less);
    seq(|pks|, k requires 0 <= k < |pks| => assert pks[k] in pks; LineOf(db, effective, pks[k]))
  }

  /** What `_compute_bundle_price` returns for a bundle now; `None` is its validation error. */
  function Recompute(s: State, b: nat): Option<Price>
    requires Valid(s.db) && b in s.db.bundles
  {
    ComputePrice(s.db.bundles[b], Lines(s.db, s.effective, b))
  }

  const COLD := Effective(None, map[])

  /** The price that the current rows and promotions give: a recomputation with no effective price cached. */
  function TruePrice(db: Db, b: nat): Option<Price>
    requires Valid(db) && b in db.bundles
  {
    Recompute(State(db, map[], COLD), b)
  }

  /** `get_bundle_price`: the cached price, or a fresh one, stored unless it failed. */
  function Answer(s: State, b: nat): Option<Price>
    requires Valid(s.db) && b in s.db.bundles
  {
    var slug := s.db.bundles[b].slug;
    if slug in s.prices then Some(s.prices[slug]) else Recompute(s, b)
  }

  function AfterRead(s: State, b: nat): State
    requires Valid(s.db) && b in s.db.bundles
  {
    var slug, recomputed := s.db.bundles[b].slug, Recompute(s, b);
    if slug in s.prices || recomputed.None? then s
    else s.(prices := s.prices[slug := recomputed.value],
            effective := s.effective.PricedAll(ProductsOf(s.db, b), s.db.products, s.db.best))
  }

  /******* Histories *******/

  datatype Event =
    | SaveBundle(pk: nat, bundle: Bundle)
    | DeleteBundle(pk: nat, discounted: bool)  // a discount scoped to the bundle goes with it
    | SaveItem(pk: nat, item: Item)
    | DeleteItem(pk: nat)
    | SaveProduct(pk: nat, product: Product)
    | DeleteProduct(pk: nat)
    | DeleteCategories(pks: set<nat>)
    | DeleteBrand(pk: nat)
    | ChangePromotions(best: Best)  // a discount is saved or deleted
    | DriftPromotions(best: Best)   // a discount's window opens or closes, its budget runs out, or its products change
    | ReadPrice(pk: nat)
    | ReadEffective(pk: nat)
    | Expire(slug: string)
    | ExpireEffective(pk: nat)
    | LoseGeneration

  function ItemsNaming(items: map<nat, Item>, product: nat): map<nat, Item> {
    map i <- items | items[i].product == product :: items[i]
  }

  function OwnerSlugs(bundles: map<nat, Bundle>, items: map<nat, Item>): set<string> {
    set i <- items | items[i].bundle in bundles :: bundles[items[i].bundle].slug
  }

  /** The slugs of the bundles in which a product appears. */
  function SlugsWith(db: Db, product: nat): set<string> { OwnerSlugs(db.bundles, ItemsNaming(db.items, product)) }

  /** Going through the distinct bundle ids reaches the same slugs. */
  lemma OwnersOf(db: Db, product: nat, bundleIds: set<nat>)
    requires bundleIds == set i <- db.items | db.items[i].product == product :: db.items[i].bundle
    ensures (set b <- bundleIds | b in db.bundles :: db.bundles[b].slug) == SlugsWith(db, product)
  {
    var reached, named := set b <- bundleIds | b in db.bundles :: db.bundles[b].slug, ItemsNaming(db.items, product);
    forall slug <- reached ensures slug in SlugsWith(db, product) {
      var b :| b in bundleIds && b in db.bundles && db.bundles[b].slug == slug;
      var i :| i in db.items && db.items[i].product == product && db.items[i].bundle == b;
      assert i in named && named[i].bundle == b;
    }
    forall slug <- SlugsWith(db, product) ensures slug in reached {
      var i :| i in named && named[i].bundle in db.bundles && db.bundles[named[i].bundle].slug == slug;
      assert named[i].bundle in bundleIds;
    }
  }

  function Slugs(db: Db): set<string> { set b <- db.bundles :: db.bundles[b].slug }

  function Drop(prices: Cache, slugs: set<string>): Cache { prices - slugs }

  predicate SlugFree(db: Db, pk: nat, slug: string) {
    forall b <- db.bundles :: b != pk ==> db.bundles[b].slug != slug
  }

  /** `pre_save`: the row is new, or its stored price differs. */
  predicate PriceChanges(products: map<nat, Product>, pk: nat, product: Product) {
    pk !in products || products[pk].price != product.price
  }

  /** `SET_NULL` on the products of deleted categories; no handler runs for them. */
  function WithoutCategories(products: map<nat, Product>, pks: set<nat>): map<nat, Product> {
    map p <- products ::
      if products[p].category.Some? && products[p].category.value in pks then products[p].(category := None)
      else products[p]
  }

  function WithoutBrand(products: map<nat, Product>, pk: nat): map<nat, Product> {
    map p <- products :: if products[p].brand == Some(pk) then products[p].(brand := None) else products[p]
  }

  /** The item row itself, wherever it was before: only the bundle it now names is invalidated. */
  function ItemSaved(s: State, pk: nat, item: Item): State
    requires item.bundle in s.db.bundles
  {
    s.(db := s.db.(items := s.db.items[pk := item]), prices := Drop(s.prices, {s.db.bundles[item.bundle].slug}))
  }

  /** The cascade takes the bundle's items and discounts along; a deleted discount drops every price there is. */
  function BundleDeleted(s: State, pk: nat, discounted: bool): State
    requires pk in s.db.bundles
  {
    State(s.db.(bundles := s.db.bundles - {pk}, items := s.db.items - ItemsOf(s.db, pk)),
          Drop(s.prices, if discounted then Slugs(s.db) else {s.db.bundles[pk].slug}),
          if discounted then s.effective.Bumped() else s.effective)
  }

  function ProductSaved(s: State, pk: nat, product: Product): State {
    s.(db := s.db.(products := s.db.products[pk := product],
                   nextProduct := if pk < s.db.nextProduct then s.db.nextProduct else pk + 1),
       prices := Drop(s.prices, SlugsWith(s.db, pk)),
       effective := if PriceChanges(s.db.products, pk, product) then s.effective.Bumped() else s.effective)
  }

  function WithoutProduct(db: Db, pk: nat): Db {
    db.(products := db.products - {pk}, items := map i <- db.items | db.items[i].product != pk :: db.items[i])
  }

  function ProductDeleted(s: State, pk: nat): State {
    State(WithoutProduct(s.db, pk), Drop(s.prices, SlugsWith(s.db, pk)), s.effective.Bumped())
  }

  /** One event and the cache deletions of its signal handlers; a write the constraints refuse changes nothing. */
  function Step(s: State, e: Event): State
    requires Valid(s.db)
  {
    var db := s.db;
    match e
    case SaveBundle(pk, bundle) =>
      if !SlugFree(db, pk, bundle.slug) then s
      else s.(db := db.(bundles := db.bundles[pk := bundle]), prices := Drop(s.prices, {bundle.slug}))
    case DeleteBundle(pk, discounted) => if pk in db.bundles then BundleDeleted(s, pk, discounted) else s
    case SaveItem(pk, item) =>
      if item.bundle in db.bundles && item.product in db.products then ItemSaved(s, pk, item) else s
    case DeleteItem(pk) =>
      if pk !in db.items then s
      else s.(db := db.(items := db.items - {pk}), prices := Drop(s.prices, {db.bundles[db.items[pk].bundle].slug}))
    case SaveProduct(pk, product) =>
      if pk !in db.products && pk < db.nextProduct then s else ProductSaved(s, pk, product)
    case DeleteProduct(pk) => ProductDeleted(s, pk)
    case DeleteCategories(pks) => s.(db := db.(products := WithoutCategories(db.products, pks)))
    case DeleteBrand(pk) => s.(db := db.(products := WithoutBrand(db.products, pk)))
    case ChangePromotions(best) =>
      s.(db := db.(best := best), prices := Drop(s.prices, Slugs(db)), effective := s.effective.Bumped())
    case DriftPromotions(best) => s.(db := db.(best := best))
    case ReadPrice(pk) => if pk in db.bundles then AfterRead(s, pk) else s
    case ReadEffective(pk) =>
      if pk in db.products then s.(effective := s.effective.Priced(pk, db.products[pk], db.best)) else s
    case Expire(slug) => s.(prices := Drop(s.prices, {slug}))
    case ExpireEffective(pk) => s.(effective := s.effective.(entries := s.effective.entries - {pk}))
    case LoseGeneration => s.(effective := s.effective.(generation := None))
  }

  lemma StepValid(s: State, e: Event)
    requires ValidState(s)
    ensures ValidState(Step(s, e))
  {
    match e
    case SaveBundle(_, _) =>
    case DeleteBundle(_, _) =>
    case SaveItem(_, _) =>
    case DeleteItem(_) =>
    case SaveProduct(_, _) =>
    case DeleteProduct(_) =>
    case DeleteCategories(_) =>
    case DeleteBrand(_) =>
    case ChangePromotions(_) =>
    case DriftPromotions(_) =>
    case ReadPrice(_) =>
    case ReadEffective(_) =>
    case Expire(_) =>
    case ExpireEffective(_) =>
    case LoseGeneration =>
  }

  /******* Coherence *******/

  /** No cached effective price of a product is ahead of the generation, and those under it are the best price. */
  ghost predicate EffectiveRight(s: State, p: nat)
    requires p in s.db.products
  {
    p in s.effective.entries ==>
      && s.effective.entries[p].gen <= s.effective.Gen()
      && (s.effective.entries[p].gen == s.effective.Gen() ==>
          s.effective.entries[p].price == s.db.best(p, s.db.products[p]))
  }

  ghost predicate PriceRight(s: State, b: nat)
    requires Valid(s.db) && b in s.db.bundles
  {
    s.db.bundles[b].slug in s.prices ==> TruePrice(s.db, b) == Some(s.prices[s.db.bundles[b].slug])
  }

  ghost predicate Coherent(s: State)
    requires Valid(s.db)
  {
    && (forall p <- s.db.products :: EffectiveRight(s, p))
    && (forall b <- s.db.bundles :: PriceRight(s, b))
  }

  /** With right effective prices, a recomputation is right. */
  lemma RecomputeRight(s: State, b: nat)
    requires Valid(s.db) && b in s.db.bundles && forall p <- s.db.products :: EffectiveRight(s, p)
    ensures Recompute(s, b) == TruePrice(s.db, b)
  {
    forall i <- ItemsOf(s.db, b) ensures LineOf(s.db, s.effective, i) == LineOf(s.db, COLD, i) {
      assert EffectiveRight(s, s.db.items[i].product);
    }
    SameLines(s.db, s.effective, s.db, COLD, b);
  }

  lemma SameLines(db: Db, effective: Effective, db': Db, effective': Effective, b: nat)
    requires Valid(db) && Valid(db') && ItemsOf(db', b) == ItemsOf(db, b)
    requires forall i <- ItemsOf(db, b) :: LineOf(db', effective', i) == LineOf(db, effective, i)
    ensures Lines(db', effective', b) == Lines(db, effective, b)
  {
    var pks := Sort(ItemsOf(db, b), Less);
    forall k | 0 <= k < |pks| ensures pks[k] in ItemsOf(db, b) { assert pks[k] in pks; }
  }

  /** A bundle's true price depends on its own row, its items, and their products. */
  lemma SamePrice(db: Db, db': Db, b: nat)
    requires Valid(db) && Valid(db') && b in db.bundles && b in db'.bundles && db'.bundles[b] == db.bundles[b]
    requires ItemsOf(db', b) == ItemsOf(db, b)
    requires forall i <- ItemsOf(db, b) :: LineOf(db', COLD, i) == LineOf(db, COLD, i)
    ensures TruePrice(db', b) == TruePrice(db, b)
  {
    SameLines(db, COLD, db', COLD, b);
  }

  /** The entry of a bundle whose row, items and products stayed is kept right. */
  lemma RowsKept(s: State, t: State, b: nat)
    requires Valid(s.db) && Valid(t.db) && b in s.db.bundles && b in t.db.bundles && t.db.bundles[b] == s.db.bundles[b]
    requires ItemsOf(t.db, b) == ItemsOf(s.db, b)
    requires forall i <- ItemsOf(s.db, b) :: LineOf(t.db, COLD, i) == LineOf(s.db, COLD, i)
    requires s.db.bundles[b].slug in t.prices ==> s.db.bundles[b].slug in s.prices
    requires s.db.bundles[b].slug in t.prices ==> t.prices[s.db.bundles[b].slug] == s.prices[s.db.bundles[b].slug]
    requires PriceRight(s, b)
    ensures PriceRight(t, b)
  {
    SamePrice(s.db, t.db, b);
  }

  lemma BundleEventKeeps(s: State, e: Event, b: nat)
    requires Valid(s.db) && Coherent(s) && (e.SaveBundle? || e.DeleteBundle?)
    requires Valid(Step(s, e).db) && b in Step(s, e).db.bundles
    ensures PriceRight(Step(s, e), b)
  {
    var t := Step(s, e);
    if t.db.bundles[b].slug in t.prices {
      OtherBundleStays(s, e, b);
      RowsKept(s, t, b);
    }
  }

  lemma OtherBundleStays(s: State, e: Event, b: nat)
    requires Valid(s.db) && (e.SaveBundle? || e.DeleteBundle?)
    requires b in Step(s, e).db.bundles && Step(s, e).db.bundles[b].slug in Step(s, e).prices
    ensures b in s.db.bundles && Step(s, e).db.bundles[b] == s.db.bundles[b]
    ensures ItemsOf(Step(s, e).db, b) == ItemsOf(s.db, b) && Step(s, e).db.products == s.db.products
    ensures forall i <- ItemsOf(s.db, b) :: i in Step(s, e).db.items && Step(s, e).db.items[i] == s.db.items[i]
  {
  }

  /** Writing or deleting an item row of other bundles. */
  lemma ItemsElsewhere(db: Db, pk: nat, item: Option<Item>, b: nat)
    requires Valid(db) && (pk in db.items ==> db.items[pk].bundle != b)
    requires item.Some? ==>
               item.value.bundle != b && item.value.bundle in db.bundles && item.value.product in db.products
    ensures var db' := db.(items := if item.Some? then db.items[pk := item.value] else db.items - {pk});
            && Valid(db') && ItemsOf(db', b) == ItemsOf(db, b)
            && forall i <- ItemsOf(db, b) :: LineOf(db', COLD, i) == LineOf(db, COLD, i)
  {
  }

  lemma ItemEventKeeps(s: State, e: Event, b: nat)
    requires Valid(s.db) && Coherent(s) && (e.SaveItem? || e.DeleteItem?)
    requires e.SaveItem? ==> !Moves(s.db, e.pk, e.item)
    requires Valid(Step(s, e).db) && b in Step(s, e).db.bundles
    ensures PriceRight(Step(s, e), b)
  {
    var t := Step(s, e);
    if t != s && t.db.bundles[b].slug in t.prices {
      ItemsElsewhere(s.db, e.pk, if e.SaveItem? then Some(e.item) else None, b);
      RowsKept(s, t, b);
    }
  }

  lemma SlugOfProduct(db: Db, i: nat)
    requires Valid(db) && i in db.items
    ensures db.bundles[db.items[i].bundle].slug in SlugsWith(db, db.items[i].product)
  {
    assert i in ItemsNaming(db.items, db.items[i].product);
  }

  /** The bundles that keep their entries when a product changes hold other products only. */
  lemma HoldsOthers(db: Db, b: nat, pk: nat)
    requires Valid(db) && b in db.bundles && db.bundles[b].slug !in SlugsWith(db, pk)
    ensures forall i <- ItemsOf(db, b) :: db.items[i].product != pk
  {
    forall i <- ItemsOf(db, b) ensures db.items[i].product != pk { SlugOfProduct(db, i); }
  }

  lemma SaveProductKeeps(s: State, pk: nat, product: Product, b: nat)
    requires Valid(s.db) && Valid(ProductSaved(s, pk, product).db) && b in s.db.bundles && PriceRight(s, b)
    ensures PriceRight(ProductSaved(s, pk, product), b)
  {
    if s.db.bundles[b].slug in Drop(s.prices, SlugsWith(s.db, pk)) {
      HoldsOthers(s.db, b, pk);
      RowsKept(s, ProductSaved(s, pk, product), b);
    }
  }

  lemma DeleteProductKeeps(s: State, pk: nat, b: nat)
    requires Valid(s.db) && Valid(WithoutProduct(s.db, pk)) && b in s.db.bundles && PriceRight(s, b)
    ensures PriceRight(ProductDeleted(s, pk), b)
  {
    if s.db.bundles[b].slug in Drop(s.prices, SlugsWith(s.db, pk)) {
      HoldsOthers(s.db, b, pk);
      assert ItemsOf(WithoutProduct(s.db, pk), b) == ItemsOf(s.db, b);
      RowsKept(s, ProductDeleted(s, pk), b);
    }
  }

  /******* Which events keep everything right *******/

  /** Some bundle with a cached price holds the product. */
  predicate InCachedBundle(s: State, p: nat)
    requires Valid(s.db)
  {
    exists i <- s.db.items :: s.db.items[i].product == p && s.db.bundles[s.db.items[i].bundle].slug in s.prices
  }

  /**
    The product's best price may become `price` without any handler noticing: it is the same, or no cached price rests
    on it.
   */
  predicate SilentlySafe(s: State, p: nat, price: nat)
    requires Valid(s.db) && p in s.db.products
  {
    price == s.db.best(p, s.db.products[p]) || (s.effective.Live(p).None? && !InCachedBundle(s, p))
  }

  /** The save puts an existing item into another bundle. */
  predicate Moves(db: Db, pk: nat, item: Item) {
    && item.bundle in db.bundles && item.product in db.products
    && pk in db.items && db.items[pk].bundle != item.bundle
  }

  /**
    What must hold for an event to leave every cached price right. An item moved to another bundle leaves the price of
    the bundle it was in. A product save is noticed by the effective prices only if it changes the price; deletions of
    categories and brands, and promotions that drift, are not noticed at all; and when the generation counter
    disappears, cached prices of earlier generations can count again.
   */
  predicate Harmless(s: State, e: Event)
    requires Valid(s.db)
  {
    match e
    case SaveItem(pk, item) =>
      Moves(s.db, pk, item) ==> s.db.bundles[s.db.items[pk].bundle].slug !in s.prices
    case SaveProduct(pk, product) =>
      || PriceChanges(s.db.products, pk, product)
      || s.db.best(pk, product) == s.db.best(pk, s.db.products[pk])
      || s.effective.Live(pk).None?
    case DeleteCategories(pks) =>
      forall p <- s.db.products :: SilentlySafe(s, p, s.db.best(p, WithoutCategories(s.db.products, pks)[p]))
    case DeleteBrand(pk) =>
      forall p <- s.db.products :: SilentlySafe(s, p, s.db.best(p, WithoutBrand(s.db.products, pk)[p]))
    case DriftPromotions(best) =>
      forall p <- s.db.products :: SilentlySafe(s, p, best(p, s.db.products[p]))
    case LoseGeneration =>
      forall p <- s.db.products :: p in s.effective.entries ==>
        s.effective.entries[p].gen == 0 && s.effective.entries[p].price == s.db.best(p, s.db.products[p])
    case _ => true
  }

  /** After an event that no handler notices: other categories and brands, or other promotions. */
  function Rewritten(s: State, products: map<nat, Product>, best: Best): State {
    s.(db := s.db.(products := products, best := best))
  }

  ghost predicate OnlyClasses(products: map<nat, Product>, products': map<nat, Product>) {
    products'.Keys == products.Keys
    && forall p <- products ::
         products'[p] == products[p].(category := products'[p].category, brand := products'[p].brand)
  }

  lemma RewrittenLine(db: Db, products: map<nat, Product>, best: Best, i: nat)
    requires Valid(db) && OnlyClasses(db.products, products) && i in db.items
    ensures var p, db' := db.items[i].product, db.(products := products, best := best);
            Valid(db') && LineOf(db', COLD, i) == LineOf(db, COLD, i).(unitPrice := best(p, products[p]))
  {
  }

  ghost predicate AllSilentlySafe(s: State, products: map<nat, Product>, best: Best)
    requires Valid(s.db) && products.Keys == s.db.products.Keys
  {
    forall p <- s.db.products :: SilentlySafe(s, p, best(p, products[p]))
  }

  lemma RewrittenKeeps(s: State, products: map<nat, Product>, best: Best, b: nat)
    requires Valid(s.db) && Coherent(s) && OnlyClasses(s.db.products, products) && b in s.db.bundles
    requires AllSilentlySafe(s, products, best)
    ensures Valid(Rewritten(s, products, best).db) && PriceRight(Rewritten(s, products, best), b)
  {
    var t := Rewritten(s, products, best);
    if s.db.bundles[b].slug in s.prices {
      forall i <- ItemsOf(s.db, b) ensures LineOf(t.db, COLD, i) == LineOf(s.db, COLD, i) {
        var p := s.db.items[i].product;
        RewrittenLine(s.db, products, best, i);
        assert InCachedBundle(s, p) && SilentlySafe(s, p, best(p, products[p]));
      }
      RowsKept(s, t, b);
    }
  }

  /** A cached price shows the unit price of every item. */
  lemma PriceShowsUnits(db: Db, db': Db, i: nat)
    requires Valid(db) && Valid(db') && i in db.items && db'.items == db.items && db'.bundles == db.bundles
    requires TruePrice(db', db.items[i].bundle) == TruePrice(db, db.items[i].bundle)
    requires ItemsOf(db', db.items[i].bundle) == ItemsOf(db, db.items[i].bundle)
    ensures LineOf(db', COLD, i) == LineOf(db, COLD, i)
  {
    var b := db.items[i].bundle;
    var pks := Sort(ItemsOf(db, b), Less);
    assert i in ItemsOf(db, b);
    var k := ListedAt(pks, i);
    PriceShowsLine(db, b, pks, k);
    PriceShowsLine(db', b, pks, k);
  }

  lemma ListedAt(pks: seq<nat>, i: nat) returns (k: nat)
    requires i in pks
    ensures k < |pks| && pks[k] == i
  {
    k :| 0 <= k < |pks| && pks[k] == i;
  }

  lemma PriceShowsLine(db: Db, b: nat, pks: seq<nat>, k: nat)
    requires Valid(db) && b in db.bundles && pks == Sort(ItemsOf(db, b), Less) && k < |pks| && pks[k] in db.items
    ensures var price := TruePrice(db, b);
            price.Some? && k < |price.value.items| && price.value.items[k].line == LineOf(db, COLD, pks[k])
  {
    assert Lines(db, COLD, b)[k] == LineOf(db, COLD, pks[k]);
  }

  /** Such an event keeps everything right exactly when no cached price rests on what changes. */
  lemma RewrittenExactly(s: State, products: map<nat, Product>, best: Best)
    requires Valid(s.db) && Coherent(s) && OnlyClasses(s.db.products, products)
    ensures Valid(Rewritten(s, products, best).db)
    ensures Coherent(Rewritten(s, products, best)) <==> AllSilentlySafe(s, products, best)
  {
    var t := Rewritten(s, products, best);
    if AllSilentlySafe(s, products, best) {
      forall p <- t.db.products ensures EffectiveRight(t, p) {
        assert EffectiveRight(s, p) && SilentlySafe(s, p, best(p, products[p]));
      }
      forall b <- t.db.bundles ensures PriceRight(t, b) { RewrittenKeeps(s, products, best, b); }
    } else {
      var p :| p in s.db.products && !SilentlySafe(s, p, best(p, products[p]));
      assert EffectiveRight(s, p);
      if s.effective.Live(p).Some? {
        assert !EffectiveRight(t, p);
      } else {
        RewrittenStale(s, products, best, p);
      }
    }
  }

  lemma RewrittenStale(s: State, products: map<nat, Product>, best: Best, p: nat)
    requires Valid(s.db) && Coherent(s) && OnlyClasses(s.db.products, products)
    requires p in s.db.products && best(p, products[p]) != s.db.best(p, s.db.products[p]) && InCachedBundle(s, p)
    ensures Valid(Rewritten(s, products, best).db) && !Coherent(Rewritten(s, products, best))
  {
    var t := Rewritten(s, products, best);
    var i :| i in s.db.items && s.db.items[i].product == p && s.db.bundles[s.db.items[i].bundle].slug in s.prices;
    RewrittenLine(s.db, products, best, i);
    assert PriceRight(s, s.db.items[i].bundle);
    assert ItemsOf(t.db, s.db.items[i].bundle) == ItemsOf(s.db, s.db.items[i].bundle);
    if PriceRight(t, s.db.items[i].bundle) { PriceShowsUnits(s.db, t.db, i); }
  }

  lemma SaveProductExactly(s: State, pk: nat, product: Product)
    requires ValidState(s) && Coherent(s) && (pk in s.db.products || s.db.nextProduct <= pk)
    ensures var t := ProductSaved(s, pk, product);
            Valid(t.db) && (Coherent(t) <==> Harmless(s, SaveProduct(pk, product)))
  {
    var t := ProductSaved(s, pk, product);
    forall p <- t.db.products | p != pk ensures EffectiveRight(t, p) { assert EffectiveRight(s, p); }
    if pk in s.db.products { assert EffectiveRight(s, pk); }
    forall b <- t.db.bundles ensures PriceRight(t, b) {
      assert PriceRight(s, b);
      SaveProductKeeps(s, pk, product, b);
    }
    assert EffectiveRight(t, pk) <==> Harmless(s, SaveProduct(pk, product));
  }

  lemma LoseGenerationExactly(s: State)
    requires Valid(s.db) && Coherent(s)
    ensures Coherent(Step(s, LoseGeneration)) <==> Harmless(s, LoseGeneration)
  {
    var t := Step(s, LoseGeneration);
    forall b <- t.db.bundles ensures PriceRight(t, b) { assert PriceRight(s, b); }
    forall p <- s.db.products
      ensures EffectiveRight(t, p) <==> (p in s.effective.entries ==>
                s.effective.entries[p].gen == 0 && s.effective.entries[p].price == s.db.best(p, s.db.products[p]))
    {
    }
  }

  lemma ReadCoherent(s: State, b: nat)
    requires ValidState(s) && Coherent(s) && b in s.db.bundles
    ensures Coherent(AfterRead(s, b))
  {
    var t := AfterRead(s, b);
    RecomputeRight(s, b);
    forall p <- t.db.products ensures EffectiveRight(t, p) { assert EffectiveRight(s, p); }
    forall c <- t.db.bundles ensures PriceRight(t, c) {
      assert PriceRight(s, c);
      assert s.db.bundles[c].slug == s.db.bundles[b].slug ==> c == b;
    }
  }

  /** Events that touch neither products nor promotions leave the effective prices right. */
  lemma EffectiveKept(s: State, t: State)
    requires Valid(s.db) && Valid(t.db) && Coherent(s) && t.db.products == s.db.products && t.db.best == s.db.best
    requires t.effective.generation == s.effective.generation
    requires forall p <- t.effective.entries :: p in t.db.products ==>
               || (p in s.effective.entries && t.effective.entries[p] == s.effective.entries[p])
               || t.effective.entries[p] == Tagged(s.effective.Gen(), t.db.best(p, t.db.products[p]))
    ensures forall p <- t.db.products :: EffectiveRight(t, p)
  {
    forall p <- t.db.products ensures EffectiveRight(t, p) { assert EffectiveRight(s, p); }
  }

  lemma PriceListsEveryItem(db: Db, b: nat)
    requires Valid(db) && b in db.bundles && TruePrice(db, b).Some?
    ensures |TruePrice(db, b).value.items| == |ItemsOf(db, b)|
  {
  }

  /**
    The item handler sees only the bundle the item now names. An item moved to another bundle leaves every cached
    price right exactly when the bundle it left had none cached.
   */
  lemma MoveCoherentExactlyWhenOldUncached(s: State, pk: nat, item: Item)
    requires Valid(s.db) && Coherent(s) && pk in s.db.items
    requires item.bundle in s.db.bundles && item.product in s.db.products && item.bundle != s.db.items[pk].bundle
    ensures var t := ItemSaved(s, pk, item);
            Valid(t.db) && (Coherent(t) <==> s.db.bundles[s.db.items[pk].bundle].slug !in s.prices)
  {
    var t := ItemSaved(s, pk, item);
    if s.db.bundles[s.db.items[pk].bundle].slug in s.prices {
      MoveLeavesStale(s, pk, item);
    } else {
      EffectiveKept(s, t);
      forall b <- t.db.bundles ensures PriceRight(t, b) { MoveKeepsOthers(s, pk, item, b); }
    }
  }

  lemma MoveLeavesStale(s: State, pk: nat, item: Item)
    requires Valid(s.db) && Coherent(s) && pk in s.db.items && s.db.bundles[s.db.items[pk].bundle].slug in s.prices
    requires item.bundle in s.db.bundles && item.product in s.db.products && item.bundle != s.db.items[pk].bundle
    ensures Valid(ItemSaved(s, pk, item).db) && !PriceRight(ItemSaved(s, pk, item), s.db.items[pk].bundle)
  {
    var t, from := ItemSaved(s, pk, item), s.db.items[pk].bundle;
    MoveValid(s.db, pk, item);
    MovedOut(s.db, t.db, pk, item);
    assert s.db.bundles[from].slug != s.db.bundles[item.bundle].slug;
    StaleWithFewerItems(s, t, from);
  }

  lemma MoveValid(db: Db, pk: nat, item: Item)
    requires Valid(db) && item.bundle in db.bundles && item.product in db.products
    ensures Valid(db.(items := db.items[pk := item]))
  {
  }

  lemma StaleWithFewerItems(s: State, t: State, b: nat)
    requires Valid(s.db) && Valid(t.db) && b in s.db.bundles && t.db.bundles == s.db.bundles && PriceRight(s, b)
    requires s.db.bundles[b].slug in s.prices && s.db.bundles[b].slug in t.prices
    requires t.prices[s.db.bundles[b].slug] == s.prices[s.db.bundles[b].slug]
    requires |ItemsOf(t.db, b)| != |ItemsOf(s.db, b)|
    ensures !PriceRight(t, b)
  {
    FewerItems(s.db, t.db, b);
  }

  /** Prices of different numbers of items differ. */
  lemma FewerItems(db: Db, db': Db, b: nat)
    requires Valid(db) && Valid(db') && b in db.bundles && b in db'.bundles && |ItemsOf(db', b)| != |ItemsOf(db, b)|
    requires TruePrice(db, b).Some?
    ensures TruePrice(db', b) != TruePrice(db, b)
  {
    PriceListsEveryItem(db, b);
    if TruePrice(db', b).Some? { PriceListsEveryItem(db', b); }
  }

  lemma MovedOut(db: Db, db': Db, pk: nat, item: Item)
    requires pk in db.items && item.bundle != db.items[pk].bundle && db'.items == db.items[pk := item]
    ensures |ItemsOf(db', db.items[pk].bundle)| == |ItemsOf(db, db.items[pk].bundle)| - 1
  {
    var from := db.items[pk].bundle;
    assert ItemsOf(db, from) == ItemsOf(db', from) + {pk} && pk !in ItemsOf(db', from);
  }

  lemma MoveKeepsOthers(s: State, pk: nat, item: Item, b: nat)
    requires Valid(s.db) && Coherent(s) && pk in s.db.items && b in s.db.bundles
    requires item.bundle in s.db.bundles && item.product in s.db.products
    requires s.db.bundles[s.db.items[pk].bundle].slug !in s.prices
    ensures Valid(ItemSaved(s, pk, item).db) && PriceRight(ItemSaved(s, pk, item), b)
  {
    var t := ItemSaved(s, pk, item);
    assert PriceRight(s, b);
    if s.db.bundles[b].slug in t.prices {
      ItemsElsewhere(s.db, pk, Some(item), b);
      RowsKept(s, t, b);
    }
  }

  /** A new generation makes every effective price that is cached a past one. */
  lemma BumpedRight(s: State, t: State)
    requires Valid(s.db) && Valid(t.db) && Coherent(s) && t.db.products.Keys <= s.db.products.Keys
    requires t.effective == s.effective.Bumped()
    ensures forall p <- t.db.products :: EffectiveRight(t, p)
  {
    forall p <- t.db.products ensures EffectiveRight(t, p) { assert EffectiveRight(s, p); }
  }

  lemma BundleEventCoherent(s: State, e: Event)
    requires ValidState(s) && Coherent(s) && (e.SaveBundle? || e.DeleteBundle?)
    ensures Valid(Step(s, e).db) && Coherent(Step(s, e))
  {
    var t := Step(s, e);
    StepValid(s, e);
    if t.effective == s.effective { EffectiveKept(s, t); } else { BumpedRight(s, t); }
    forall b <- t.db.bundles ensures PriceRight(t, b) { BundleEventKeeps(s, e, b); }
  }

  lemma ItemEventExactly(s: State, e: Event)
    requires ValidState(s) && Coherent(s) && (e.SaveItem? || e.DeleteItem?)
    ensures Valid(Step(s, e).db) && (Coherent(Step(s, e)) <==> Harmless(s, e))
  {
    var t := Step(s, e);
    StepValid(s, e);
    if e.SaveItem? && Moves(s.db, e.pk, e.item) {
      MoveCoherentExactlyWhenOldUncached(s, e.pk, e.item);
    } else {
      EffectiveKept(s, t);
      forall b <- t.db.bundles ensures PriceRight(t, b) { ItemEventKeeps(s, e, b); }
    }
  }

  lemma DeleteProductCoherent(s: State, pk: nat)
    requires ValidState(s) && Coherent(s)
    ensures Valid(Step(s, DeleteProduct(pk)).db) && Coherent(Step(s, DeleteProduct(pk)))
  {
    var t := Step(s, DeleteProduct(pk));
    StepValid(s, DeleteProduct(pk));
    forall p <- t.db.products ensures EffectiveRight(t, p) { assert EffectiveRight(s, p); }
    forall b <- t.db.bundles ensures PriceRight(t, b) {
      assert PriceRight(s, b);
      DeleteProductKeeps(s, pk, b);
    }
  }

  lemma CacheEventCoherent(s: State, e: Event)
    requires ValidState(s) && Coherent(s)
    requires e.ChangePromotions? || e.ReadEffective? || e.Expire? || e.ExpireEffective?
    ensures Valid(Step(s, e).db) && Coherent(Step(s, e))
  {
    var t := Step(s, e);
    StepValid(s, e);
    if e.ChangePromotions? {
      forall p <- t.db.products ensures EffectiveRight(t, p) { assert EffectiveRight(s, p); }
      assert forall b <- t.db.bundles :: t.db.bundles[b].slug in Slugs(s.db);
    } else {
      EffectiveKept(s, t);
      forall b <- t.db.bundles ensures PriceRight(t, b) { assert PriceRight(s, b); }
    }
  }

  /** An event keeps every cached price right exactly when it is harmless. */
  lemma StepCoherentExactlyWhenHarmless(s: State, e: Event)
    requires ValidState(s) && Coherent(s)
    ensures Valid(Step(s, e).db) && (Coherent(Step(s, e)) <==> Harmless(s, e))
  {
    StepValid(s, e);
    match e
    case SaveProduct(pk, product) =>
      if pk in s.db.products || s.db.nextProduct <= pk { SaveProductExactly(s, pk, product); }
    case DeleteCategories(pks) => RewrittenExactly(s, WithoutCategories(s.db.products, pks), s.db.best);
    case DeleteBrand(pk) => RewrittenExactly(s, WithoutBrand(s.db.products, pk), s.db.best);
    case DriftPromotions(best) => RewrittenExactly(s, s.db.products, best);
    case LoseGeneration => LoseGenerationExactly(s);
    case DeleteProduct(pk) => DeleteProductCoherent(s, pk);
    case ReadPrice(pk) => if pk in s.db.bundles { ReadCoherent(s, pk); }
    case _ =>
      if e.SaveBundle? || e.DeleteBundle? {
        BundleEventCoherent(s, e);
      } else if e.SaveItem? || e.DeleteItem? {
        ItemEventExactly(s, e);
      } else {
        CacheEventCoherent(s, e);
      }
  }
}

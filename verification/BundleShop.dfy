/**
  The bundle and product tables with their two caches as one object, with the signal handlers that follow each write.
 */
module BundleShop {
  import opened Options
  import opened Ordering
  import opened BundlePricing
  import opened EffectivePrice
  import opened BundleCache

  class Shop {
    var bundles: map<nat, Bundle>
    var items: map<nat, Item>
    var products: map<nat, Product>
    var nextProduct: nat
    var best: Best
    var prices: Cache
    var generation: Option<nat>
    var entries: map<nat, Tagged>

    constructor (best: Best)
      ensures Model() == State(Db(map[], map[], map[], 0, best), map[], COLD)
    {
      bundles, items, products, nextProduct, prices, generation, entries := map[], map[], map[], 0, map[], None, map[];
      this.best := best;
    }

    ghost function Model(): State
      reads this
    {
      State(Db(bundles, items, products, nextProduct, best), prices, Effective(generation, entries))
    }

    method InvalidateBundlePrice(slug: string)
      modifies this`prices
      ensures prices == Drop(old(prices), {slug})
    {
      prices := prices - {slug};
    }

    /** `_invalidate_bundles_for_product`: looks the bundles up through the items that exist now. */
    method InvalidateBundlesForProduct(product: nat)
      requires Valid(Model().db)
      modifies this`prices
      ensures prices == Drop(old(prices), SlugsWith(Model().db, product))
    {
      var bundleIds := set i <- items | items[i].product == product :: items[i].bundle;
      ghost var all := bundleIds;
      while bundleIds != {}
        invariant bundleIds <= all
        invariant prices == Drop(old(prices), set b <- all - bundleIds | b in bundles :: bundles[b].slug)
      {
        var b :| b in bundleIds;
        assert b in bundles;
        InvalidateBundlePrice(bundles[b].slug);
        bundleIds := bundleIds - {b};
      }
      assert all - bundleIds == all;
      OwnersOf(Model().db, product, all);
    }

    method InvalidateAllBundlePrices()
      modifies this`prices
      ensures prices == Drop(old(prices), Slugs(Model().db))
    {
      var slugs := set b <- bundles :: bundles[b].slug;
      ghost var all := slugs;
      while slugs != {}
        invariant slugs <= all
        invariant prices == Drop(old(prices), all - slugs)
      {
        var slug :| slug in slugs;
        prices := prices - {slug};
        slugs := slugs - {slug};
      }
    }

    method BumpDiscountGeneration()
      modifies this`generation
      ensures Model().effective == old(Model().effective).Bumped()
    {
      if generation.Some? { generation := Some(generation.value + 1); } else { generation := Some(1); }
    }

    /** `effective_unit_price`, inside a bundle. */
    method EffectiveUnitPrice(p: nat) returns (price: nat)
      requires p in products
      modifies this`entries
      ensures price == old(Model().effective).Price(p, products[p], best)
      ensures Model().effective == old(Model().effective).Priced(p, products[p], best)
    {
      var current := if generation.Some? then generation.value else 0;
      if p in entries && entries[p].gen == current { return entries[p].price; }
      price := best(p, products[p]);
      entries := entries[p := Tagged(current, price)];
    }

    /** One item, priced through the effective-price cache. */
    method PriceItem(i: nat) returns (line: Line)
      requires i in items && items[i].product in products
      modifies this`entries
      ensures var p := items[i].product;
              && line == LineFor(items[i], products[p], old(Model().effective).Price(p, products[p], best))
              && Model().effective == old(Model().effective).Priced(p, products[p], best)
    {
      var unitPrice := EffectiveUnitPrice(items[i].product);
      line := LineFor(items[i], products[items[i].product], unitPrice);
    }

    /** The next of the listed items, after those before it. */
    method PriceNext(ghost before: Effective, pks: seq<nat>, k: nat, itemRows: seq<Line>) returns (more: seq<Line>)
      requires Listed(items, products, pks) && k < |pks|
      requires itemRows == LinesAt(items, products, best, before, pks, k)
      requires Model().effective == before.PricedAll(ProductsAt(items, products, pks, k), products, best)
      modifies this`entries
      ensures more == LinesAt(items, products, best, before, pks, k + 1)
      ensures Model().effective == before.PricedAll(ProductsAt(items, products, pks, k + 1), products, best)
    {
      NextItem(items, products, best, before, pks, k);
      var line := PriceItem(pks[k]);
      more := itemRows + [line];
    }

    /** The listed items in order. */
    method PriceItems(pks: seq<nat>) returns (itemRows: seq<Line>)
      requires Listed(items, products, pks)
      modifies this`entries
      ensures itemRows == LinesAt(items, products, best, old(Model().effective), pks, |pks|)
      ensures Model().effective
              == old(Model().effective).PricedAll(ProductsAt(items, products, pks, |pks|), products, best)
    {
      ghost var before := Model().effective;
      itemRows := [];
      for k := 0 to |pks|
        invariant itemRows == LinesAt(items, products, best, before, pks, k)
        invariant Model().effective == before.PricedAll(ProductsAt(items, products, pks, k), products, best)
      {
        itemRows := PriceNext(before, pks, k, itemRows);
      }
    }

    /** The bundle's items by primary key. */
    method PriceBundleItems(b: nat) returns (itemRows: seq<Line>)
      requires Valid(Model().db)
      modifies this`entries
      ensures itemRows == Lines(Model().db, old(Model().effective), b)
      ensures Model().effective == old(Model().effective).PricedAll(ProductsOf(Model().db, b), products, best)
    {
      ghost var before, db := Model().effective, Model().db;
      var own: set<nat> := set i <- items | items[i].bundle == b;
      assert own == ItemsOf(db, b);
      var pks := Sort(own, Less);
      InTable(db, b, pks);
      itemRows := PriceItems(pks);
      assert Model().db == db;
      AllRead(db, b, pks);
      AllLines(db, before, b, pks);
    }

    method GetBundlePrice(b: nat) returns (price: Option<Price>)
      requires Valid(Model().db) && b in bundles
      modifies this`prices, this`entries
      ensures price == Answer(old(Model()), b)
      ensures Model() == AfterRead(old(Model()), b)
    {
      var slug := bundles[b].slug;
      if slug in prices { return Some(prices[slug]); }
      ghost var s := Model();
      var itemRows := PriceBundleItems(b);
      price := ComputeBundlePrice(bundles[b], itemRows);
      if price.Some? { prices := prices[slug := price.value]; }
      UncachedRead(s, b, itemRows);
    }

    /** `pre_save` raises the generation if the price changes; `post_save` drops the bundles' prices. */
    method SaveProduct(pk: nat, product: Product)
      requires Valid(Model().db) && (pk in products || nextProduct <= pk)
      modifies this`products, this`nextProduct, this`prices, this`generation
      ensures Model() == Step(old(Model()), Event.SaveProduct(pk, product))
    {
      if pk !in products || products[pk].price != product.price { BumpDiscountGeneration(); }
      products := products[pk := product];
      if nextProduct <= pk { nextProduct := pk + 1; }
      InvalidateBundlesForProduct(pk);
    }

    /** `post_delete` of deleted items, one after the other. */
    method OnItemsDeleted(instances: map<nat, Item>)
      requires forall i <- instances :: instances[i].bundle in bundles
      modifies this`prices
      ensures prices == Drop(old(prices), OwnerSlugs(bundles, instances))
    {
      var left := instances.Keys;
      while left != {}
        invariant left <= instances.Keys
        invariant prices == Drop(old(prices), set i <- instances | i !in left :: bundles[instances[i].bundle].slug)
      {
        var i :| i in left;
        InvalidateBundlePrice(bundles[instances[i].bundle].slug);
        left := left - {i};
      }
    }

    /**
      The cascade deletes the items and runs their handlers first; when the product's own handlers run, no item names
      the product any more, so no bundle is left for them to invalidate.
     */
    method DeleteProduct(pk: nat)
      requires Valid(Model().db)
      modifies this`products, this`items, this`prices, this`generation
      ensures Model() == ProductDeleted(old(Model()), pk)
    {
      NothingNamed(Model().db, pk);
      DeleteProductRows(pk);
      OnProductDeleted(pk);
    }

    method DeleteProductRows(pk: nat)
      requires Valid(Model().db)
      modifies this`products, this`items, this`prices
      ensures Model().db == WithoutProduct(old(Model().db), pk)
      ensures prices == Drop(old(prices), SlugsWith(old(Model().db), pk))
    {
      DeleteItemsOf(pk);
      products := products - {pk};
    }

    /** The `post_delete` handlers of the bundles and the promotions. */
    method OnProductDeleted(pk: nat)
      requires Valid(Model().db) && SlugsWith(Model().db, pk) == {}
      modifies this`prices, this`generation
      ensures Model() == old(Model()).(effective := old(Model().effective).Bumped())
    {
      InvalidateBundlesForProduct(pk);
      BumpDiscountGeneration();
    }

    method DeleteItemsOf(product: nat)
      requires Valid(Model().db)
      modifies this`items, this`prices
      ensures items == map i <- old(items) | old(items)[i].product != product :: old(items)[i]
      ensures prices == Drop(old(prices), SlugsWith(old(Model().db), product))
    {
      var instances := ItemsNaming(items, product);
      items := map i <- items | items[i].product != product :: items[i];
      OnItemsDeleted(instances);
    }

    /** `_invalidate_on_discount_change`. */
    method OnDiscountChanged()
      modifies this`prices, this`generation
      ensures Model() == old(Model()).(prices := Drop(old(prices), Slugs(Model().db)),
                                       effective := old(Model().effective).Bumped())
    {
      BumpDiscountGeneration();
      InvalidateAllBundlePrices();
    }

    /** The cascade deletes the items first, each dropping the bundle's entry, then the discounts, then the bundle. */
    method DeleteBundle(pk: nat, discounted: bool)
      requires Valid(Model().db) && pk in bundles
      modifies this`bundles, this`items, this`prices, this`generation
      ensures Model() == BundleDeleted(old(Model()), pk, discounted)
    {
      DeleteItemsIn(pk);
      if discounted { OnDiscountChanged(); }
      var slug := bundles[pk].slug;
      bundles := bundles - {pk};
      InvalidateBundlePrice(slug);
    }

    method DeleteItemsIn(b: nat)
      requires Valid(Model().db) && b in bundles
      modifies this`items, this`prices
      ensures items == old(items) - ItemsOf(old(Model().db), b)
      ensures prices == old(prices) || prices == Drop(old(prices), {bundles[b].slug})
    {
      var instances := map i <- items | items[i].bundle == b :: items[i];
      assert instances.Keys == ItemsOf(Model().db, b);
      items := items - instances.Keys;
      OnItemsDeleted(instances);
      assert OwnerSlugs(bundles, instances) <= {bundles[b].slug};
      assert OwnerSlugs(bundles, instances) == {} || OwnerSlugs(bundles, instances) == {bundles[b].slug};
    }

    method DeleteItem(pk: nat)
      requires Valid(Model().db) && pk in items
      modifies this`items, this`prices
      ensures Model() == Step(old(Model()), Event.DeleteItem(pk))
    {
      var slug := bundles[items[pk].bundle].slug;
      items := items - {pk};
      InvalidateBundlePrice(slug);
    }

    method SaveItem(pk: nat, item: Item)
      requires Valid(Model().db) && item.bundle in bundles && item.product in products
      modifies this`items, this`prices
      ensures Model() == Step(old(Model()), Event.SaveItem(pk, item))
    {
      items := items[pk := item];
      InvalidateBundlePrice(bundles[item.bundle].slug);
    }

    method SaveBundle(pk: nat, bundle: Bundle)
      requires Valid(Model().db) && SlugFree(Model().db, pk, bundle.slug)
      modifies this`bundles, this`prices
      ensures Model() == Step(old(Model()), Event.SaveBundle(pk, bundle))
    {
      bundles := bundles[pk := bundle];
      InvalidateBundlePrice(bundle.slug);
    }

    /** A discount is saved or deleted. */
    method ChangePromotions(best: Best)
      requires Valid(Model().db)
      modifies this`best, this`prices, this`generation
      ensures Model() == Step(old(Model()), Event.ChangePromotions(best))
    {
      this.best := best;
      OnDiscountChanged();
    }
  }

  lemma NothingNamed(db: Db, pk: nat)
    requires Valid(db)
    ensures Valid(WithoutProduct(db, pk)) && SlugsWith(WithoutProduct(db, pk), pk) == {}
  {
  }

  /** The keys are of items, and these of products, that exist. */
  ghost predicate Listed(items: map<nat, Item>, products: map<nat, Product>, pks: seq<nat>) {
    forall k :: 0 <= k < |pks| ==> pks[k] in items && items[pks[k]].product in products
  }

  /** The lines of the first `n` items. */
  ghost function LinesAt(items: map<nat, Item>, products: map<nat, Product>, best: Best, effective: Effective,
                         pks: seq<nat>, n: nat): (lines: seq<Line>)
    requires n <= |pks| && Listed(items, products, pks)
    ensures |lines| == n
  {
    if n == 0 then []
    else
      var p := items[pks[n - 1]].product;
      var unitPrice := effective.Price(p, products[p], best);
      LinesAt(items, products, best, effective, pks, n - 1) + [LineFor(items[pks[n - 1]], products[p], unitPrice)]
  }

  /** The products of the first `n` items. */
  ghost function ProductsAt(items: map<nat, Item>, products: map<nat, Product>, pks: seq<nat>, n: nat): set<nat>
    requires n <= |pks| && Listed(items, products, pks)
  {
    if n == 0 then {} else ProductsAt(items, products, pks, n - 1) + {items[pks[n - 1]].product}
  }

  /** Earlier reads do not change an item's price, and its own read adds its product to those read. */
  lemma NextItem(items: map<nat, Item>, products: map<nat, Product>, best: Best, before: Effective, pks: seq<nat>,
      k: nat)
    requires k < |pks| && Listed(items, products, pks)
    ensures var m, p := before.PricedAll(ProductsAt(items, products, pks, k), products, best), items[pks[k]].product;
            && m.Price(p, products[p], best) == before.Price(p, products[p], best)
            && m.Priced(p, products[p], best)
               == before.PricedAll(ProductsAt(items, products, pks, k + 1), products, best)
  {
    PricedOneMore(before, ProductsAt(items, products, pks, k), items[pks[k]].product, products, best);
  }

  lemma InTable(db: Db, b: nat, pks: seq<nat>)
    requires Valid(db) && pks == Sort(ItemsOf(db, b), Less)
    ensures Listed(db.items, db.products, pks)
  {
    forall k | 0 <= k < |pks| ensures pks[k] in db.items { assert pks[k] in pks; }
  }

  lemma {:induction false} LineAtIs(db: Db, effective: Effective, pks: seq<nat>, n: nat, k: nat)
    requires Valid(db) && k < n <= |pks| && Listed(db.items, db.products, pks)
    ensures LinesAt(db.items, db.products, db.best, effective, pks, n)[k] == LineOf(db, effective, pks[k])
  {
    if k < n - 1 { LineAtIs(db, effective, pks, n - 1, k); }
  }

  lemma AllLines(db: Db, effective: Effective, b: nat, pks: seq<nat>)
    requires Valid(db) && pks == Sort(ItemsOf(db, b), Less) && Listed(db.items, db.products, pks)
    ensures LinesAt(db.items, db.products, db.best, effective, pks, |pks|) == Lines(db, effective, b)
  {
    var lines := LinesAt(db.items, db.products, db.best, effective, pks, |pks|);
    forall k | 0 <= k < |pks| ensures lines[k] == Lines(db, effective, b)[k] {
      LineAtIs(db, effective, pks, |pks|, k);
    }
  }

  lemma {:induction false} ProductsAtAre(items: map<nat, Item>, products: map<nat, Product>, pks: seq<nat>, n: nat,
      p: nat)
    requires n <= |pks| && Listed(items, products, pks)
    ensures p in ProductsAt(items, products, pks, n) <==> exists k :: 0 <= k < n && items[pks[k]].product == p
  {
    if n > 0 { ProductsAtAre(items, products, pks, n - 1, p); }
  }

  lemma AllRead(db: Db, b: nat, pks: seq<nat>)
    requires pks == Sort(ItemsOf(db, b), Less) && Listed(db.items, db.products, pks)
    ensures ProductsAt(db.items, db.products, pks, |pks|) == ProductsOf(db, b)
  {
    forall k | 0 <= k < |pks| ensures db.items[pks[k]].product in ProductsOf(db, b) { assert pks[k] in pks; }
    forall p ensures p in ProductsAt(db.items, db.products, pks, |pks|) <==> p in ProductsOf(db, b) {
      ProductsAtAre(db.items, db.products, pks, |pks|, p);
      if p in ProductsOf(db, b) {
        var i :| i in db.items && db.items[i].bundle == b && db.items[i].product == p;
        assert i in pks;
      }
    }
  }

  /** What an uncached read answers and leaves behind. */
  lemma UncachedRead(s: State, b: nat, itemRows: seq<Line>)
    requires Valid(s.db) && b in s.db.bundles && s.db.bundles[b].slug !in s.prices
    requires itemRows == Lines(s.db, s.effective, b)
    ensures var price := ComputePrice(s.db.bundles[b], itemRows);
            && Answer(s, b) == price
            && AfterRead(s, b)
               == s.(prices := if price.Some? then s.prices[s.db.bundles[b].slug := price.value] else s.prices,
                     effective := s.effective.PricedAll(ProductsOf(s.db, b), s.db.products, s.db.best))
  {
    if ComputePrice(s.db.bundles[b], itemRows).None? { NothingRead(s.db, b, s.effective); }
  }

  /** A bundle without items warms nothing. */
  lemma NothingRead(db: Db, b: nat, effective: Effective)
    requires Valid(db) && b in db.bundles && ComputePrice(db.bundles[b], Lines(db, effective, b)).None?
    ensures effective.PricedAll(ProductsOf(db, b), db.products, db.best) == effective
  {
    assert |ItemsOf(db, b)| == |Sort(ItemsOf(db, b), Less)| == 0;
    forall i <- db.items ensures db.items[i].bundle != b { assert i !in ItemsOf(db, b); }
    assert ProductsOf(db, b) == {};
    assert effective.PricedAll({}, db.products, db.best).entries == effective.entries;
  }
}

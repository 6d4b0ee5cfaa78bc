/**
  What an uncached bundle price shows of the rows it is computed from, and what becomes of the rows in every event of a
  history.
 */
module BundleQuote {
  import opened Options
  import opened Ordering
  import opened Sums
  import opened BundlePricing
  import opened EffectivePrice
  import opened BundleCache

  /******* The quote *******/

  /** The keys of the bundle's items, in order. */
  ghost predicate ItemKeys(db: Db, b: nat, pks: seq<nat>) {
    && (forall i, j :: 0 <= i < j < |pks| ==> pks[i] < pks[j])
    && (forall i :: i in pks <==> i in db.items && db.items[i].bundle == b)
  }

  /** The detail shows item row `i`, its product's row, and that product's effective price. */
  ghost predicate Shows(s: State, i: nat, detail: Detail)
    requires Valid(s.db)
  {
    && i in s.db.items
    && var item, product := s.db.items[i], s.db.products[s.db.items[i].product];
       && detail.line.product == item.product && detail.line.quantity == item.quantity
       && detail.line.isOptional == item.isOptional
       && detail.line.name == product.name && detail.line.sku == product.sku
       && detail.line.regularUnit == product.price
       && detail.line.unitPrice == s.effective.Price(item.product, product, s.db.best)
       && detail.lineTotal == detail.line.unitPrice * item.quantity
  }

  lemma KeysAreSorted(db: Db, b: nat, pks: seq<nat>)
    requires ItemKeys(db, b, pks)
    ensures pks == Sort(ItemsOf(db, b), Less)
  {
    SortUnique(pks, Sort(ItemsOf(db, b), Less), Less);
  }

  lemma KeysExist(db: Db, b: nat) returns (pks: seq<nat>)
    ensures ItemKeys(db, b, pks)
  {
    pks := Sort(ItemsOf(db, b), Less);
    forall i, j | 0 <= i < j < |pks| ensures pks[i] < pks[j] { assert Less(pks[i], pks[j]); }
  }

  lemma {:induction false} RegularTotalAddsUp(lines: seq<Line>, regular: seq<nat>)
    requires |regular| == |lines|
    requires forall k :: 0 <= k < |lines| ==> regular[k] == lines[k].regularUnit * lines[k].quantity
    ensures RegularTotal(lines) == Sum(regular)
  {
    if lines != [] {
      var n := |lines| - 1;
      assert lines == lines[..n] + [lines[n]];
      TotalAppend(lines[..n], lines[n]);
      RegularTotalAddsUp(lines[..n], regular[..n]);
    }
  }

  lemma {:induction false} TotalAddsUp(lines: seq<Line>, totals: seq<nat>)
    requires |totals| == |lines|
    requires forall k :: 0 <= k < |lines| ==> totals[k] == lines[k].unitPrice * lines[k].quantity
    ensures Total(lines) == Sum(totals)
  {
    if lines != [] {
      var n := |lines| - 1;
      assert lines == lines[..n] + [lines[n]];
      TotalAppend(lines[..n], lines[n]);
      TotalAddsUp(lines[..n], totals[..n]);
    }
  }

  /** The amounts that the regular price and the line totals of the listed items add up to. */
  ghost predicate Amounts(s: State, pks: seq<nat>, regular: seq<nat>, totals: seq<nat>)
    requires Valid(s.db) && forall i <- pks :: i in s.db.items
  {
    && |regular| == |totals| == |pks|
    && forall k :: 0 <= k < |pks| ==>
         var item := s.db.items[pks[k]];
         var product := s.db.products[item.product];
         && regular[k] == product.price * item.quantity
         && totals[k] == s.effective.Price(item.product, product, s.db.best) * item.quantity
  }

  /**
    A bundle price that is not cached shows the bundle's items in key order, each as its row and its product's row are.
    Its regular price is the sum of list price times quantity, and its price and discount together are the sum of unit
    price times quantity. A bundle without items has none.
   */
  lemma UncachedAnswerShowsRows(s: State, b: nat, pks: seq<nat>, regular: seq<nat>, totals: seq<nat>)
    requires Valid(s.db) && b in s.db.bundles && s.db.bundles[b].slug !in s.prices
    requires ItemKeys(s.db, b, pks) && Amounts(s, pks, regular, totals)
    ensures Answer(s, b).Some? <==> pks != []
    ensures pks != [] ==>
              var price := Answer(s, b).value;
              && price.slug == s.db.bundles[b].slug
              && |price.items| == |pks| && (forall k :: 0 <= k < |pks| ==> Shows(s, pks[k], price.items[k]))
              && price.regularPrice == Sum(regular) && price.price + price.discount == Sum(totals)
              && price.discount == DiscountAmount(s.db.bundles[b], Sum(totals))
  {
    KeysAreSorted(s.db, b, pks);
    var lines := Lines(s.db, s.effective, b);
    forall k | 0 <= k < |pks| ensures pks[k] in s.db.items && lines[k] == LineOf(s.db, s.effective, pks[k]) {
      assert pks[k] in pks;
    }
    RegularTotalAddsUp(lines, regular);
    TotalAddsUp(lines, totals);
  }

  lemma QuantityItems(db: Db, i: nat, quantity: nat)
    requires Valid(db) && i in db.items
    ensures var db', b := db.(items := db.items[i := db.items[i].(quantity := quantity)]), db.items[i].bundle;
            && Valid(db') && ItemsOf(db', b) == ItemsOf(db, b)
            && forall j <- db.items :: j != i ==> db'.items[j] == db.items[j]
  {
  }

  /** In the listing of a bundle's lines, another quantity of one item changes the quantity of its line. */
  lemma QuantityLines(db: Db, db': Db, effective: Effective, i: nat, quantity: nat, pks: seq<nat>, k: nat)
    requires Valid(db) && i in db.items && db' == db.(items := db.items[i := db.items[i].(quantity := quantity)])
    requires pks == Sort(ItemsOf(db, db.items[i].bundle), Less) && k < |pks| && pks[k] == i
    ensures Valid(db')
    ensures var lines := Lines(db, effective, db.items[i].bundle);
            && k < |lines| && lines[k].quantity == db.items[i].quantity
            && Lines(db', effective, db.items[i].bundle) == lines[k := lines[k].(quantity := quantity)]
  {
    var b := db.items[i].bundle;
    QuantityItems(db, i, quantity);
    var lines, lines' := Lines(db, effective, b), Lines(db', effective, b);
    forall j | 0 <= j < |pks|
      ensures lines'[j] == if j == k then lines[k].(quantity := quantity) else lines[j]
    {
      assert pks[j] in pks;
      assert j < k ==> Less(pks[j], pks[k]);
      assert k < j ==> Less(pks[k], pks[j]);
    }
  }

  /** Saving an item with a larger quantity never lowers the price that the next read computes. */
  lemma LargerQuantityNeverCheaper(s: State, i: nat, quantity: nat)
    requires Valid(s.db) && i in s.db.items && s.db.items[i].quantity <= quantity
    requires s.db.bundles[s.db.items[i].bundle].slug !in s.prices
    ensures var b, t := s.db.items[i].bundle, Step(s, SaveItem(i, s.db.items[i].(quantity := quantity)));
            && Valid(t.db) && b in t.db.bundles && t.db.bundles[b].slug !in t.prices
            && Answer(s, b).Some? && Answer(t, b).Some? && Answer(s, b).value.price <= Answer(t, b).value.price
  {
    var b, t := s.db.items[i].bundle, Step(s, SaveItem(i, s.db.items[i].(quantity := quantity)));
    var pks := Sort(ItemsOf(s.db, b), Less);
    assert i in ItemsOf(s.db, b);
    var k := ListedAt(pks, i);
    QuantityLines(s.db, t.db, s.effective, i, quantity, pks, k);
    MoreNeverCostsLess(s.db.bundles[b], Lines(s.db, s.effective, b), k, quantity);
  }

  /******* The rows *******/

  /** A save writes its row and no other, unless a constraint refuses it: then nothing at all changes. */
  lemma SavesWriteOneRow(s: State, e: Event, pk: nat)
    requires Valid(s.db) && (e.SaveBundle? || e.SaveItem? || e.SaveProduct?) && e.pk == pk
    ensures var t := Step(s, e);
            match e
            case SaveBundle(_, bundle) =>
              if exists b <- s.db.bundles :: b != pk && s.db.bundles[b].slug == bundle.slug then t == s
              else
                && t.db.items == s.db.items && t.db.products == s.db.products
                && t.db.bundles.Keys == s.db.bundles.Keys + {pk} && t.db.bundles[pk] == bundle
                && forall b <- s.db.bundles :: b != pk ==> t.db.bundles[b] == s.db.bundles[b]
            case SaveItem(_, item) =>
              if item.bundle !in s.db.bundles || item.product !in s.db.products then t == s
              else
                && t.db.bundles == s.db.bundles && t.db.products == s.db.products
                && t.db.items.Keys == s.db.items.Keys + {pk} && t.db.items[pk] == item
                && forall i <- s.db.items :: i != pk ==> t.db.items[i] == s.db.items[i]
            case SaveProduct(_, product) =>
              if pk !in s.db.products && pk < s.db.nextProduct then t == s
              else
                && t.db.bundles == s.db.bundles && t.db.items == s.db.items
                && t.db.products.Keys == s.db.products.Keys + {pk} && t.db.products[pk] == product
                && forall p <- s.db.products :: p != pk ==> t.db.products[p] == s.db.products[p]
            case _ => true
  {
  }

  /** A deletion takes along exactly the rows that name the deleted one, or clears their reference to it. */
  lemma DeletionsCascade(s: State, e: Event)
    requires Valid(s.db)
    ensures var t := Step(s, e);
            match e
            case DeleteBundle(pk, _) =>
              && t.db.products == s.db.products && t.db.bundles == s.db.bundles - {pk}
              && forall i :: i in t.db.items <==> i in s.db.items && s.db.items[i].bundle != pk
            case DeleteItem(pk) =>
              t.db == s.db.(items := t.db.items) && forall i :: i in t.db.items <==> i in s.db.items && i != pk
            case DeleteProduct(pk) =>
              && t.db.bundles == s.db.bundles && t.db.products == s.db.products - {pk}
              && forall i :: i in t.db.items <==> i in s.db.items && s.db.items[i].product != pk
            case DeleteCategories(pks) =>
              && t.db == s.db.(products := t.db.products) && t.db.products.Keys == s.db.products.Keys
              && forall p <- s.db.products ::
                   && t.db.products[p] == s.db.products[p].(category := t.db.products[p].category)
                   && t.db.products[p].category
                      == if exists c <- pks :: s.db.products[p].category == Some(c) then None
                         else s.db.products[p].category
            case DeleteBrand(pk) =>
              && t.db == s.db.(products := t.db.products) && t.db.products.Keys == s.db.products.Keys
              && forall p <- s.db.products ::
                   && t.db.products[p] == s.db.products[p].(brand := t.db.products[p].brand)
                   && t.db.products[p].brand
                      == if s.db.products[p].brand == Some(pk) then None else s.db.products[p].brand
            case _ => true
    ensures e.DeleteBundle? || e.DeleteItem? || e.DeleteProduct? ==>
              forall i <- Step(s, e).db.items :: Step(s, e).db.items[i] == s.db.items[i]
  {
  }

  /** Every other event leaves the rows alone, and only discounts and time change the best prices. */
  lemma OthersKeepRows(s: State, e: Event)
    requires Valid(s.db)
    requires e.ChangePromotions? || e.DriftPromotions? || e.ReadPrice? || e.ReadEffective? || e.Expire?
             || e.ExpireEffective? || e.LoseGeneration?
    ensures Step(s, e).db
            == s.db.(best := if e.ChangePromotions? || e.DriftPromotions? then e.best else s.db.best)
  {
  }

  /** An entry that expires, or a lost generation, is gone; nothing else is. */
  lemma ExpiryDropsOneEntry(s: State, e: Event)
    requires Valid(s.db) && (e.Expire? || e.ExpireEffective? || e.LoseGeneration?)
    ensures var t := Step(s, e);
            match e
            case Expire(slug) => t.effective == s.effective && t.prices == s.prices - {slug}
            case ExpireEffective(pk) =>
              && t.prices == s.prices && t.effective.Gen() == s.effective.Gen() && t.effective.Live(pk) == None
              && forall p :: p != pk ==> t.effective.Live(p) == s.effective.Live(p)
            case LoseGeneration =>
              && t.prices == s.prices && t.effective.Gen() == 0 && t.effective.entries == s.effective.entries
            case _ => true
  {
  }

  /******* The caches *******/

  /** Some item puts the product into the bundle with the slug. */
  ghost predicate Holds(db: Db, slug: string, product: nat)
    requires Valid(db)
  {
    exists i <- db.items :: db.items[i].product == product && db.bundles[db.items[i].bundle].slug == slug
  }

  /** The slug is that of an existing bundle. */
  ghost predicate InUse(db: Db, slug: string) { exists b <- db.bundles :: db.bundles[b].slug == slug }

  /**
    The handlers of an accepted write drop exactly the cached prices of the bundle written, of the bundle an item names
    or named, of the bundles that hold the product, or, for a discount, of all bundles there are. They change no other.
   */
  lemma HandlersDropExactly(s: State, e: Event, slug: string)
    requires Valid(s.db) && Step(s, e) != s && slug in s.prices
    ensures slug in Step(s, e).prices ==> Step(s, e).prices[slug] == s.prices[slug]
    ensures match e
            case SaveBundle(_, bundle) => slug in Step(s, e).prices <==> slug != bundle.slug
            case DeleteBundle(pk, discounted) =>
              slug in Step(s, e).prices <==>
                if discounted then !InUse(s.db, slug) else slug != s.db.bundles[pk].slug
            case SaveItem(_, item) => slug in Step(s, e).prices <==> slug != s.db.bundles[item.bundle].slug
            case DeleteItem(pk) => slug in Step(s, e).prices <==> slug != s.db.bundles[s.db.items[pk].bundle].slug
            case SaveProduct(pk, _) => slug in Step(s, e).prices <==> !Holds(s.db, slug, pk)
            case DeleteProduct(pk) => slug in Step(s, e).prices <==> !Holds(s.db, slug, pk)
            case ChangePromotions(_) => slug in Step(s, e).prices <==> !InUse(s.db, slug)
            case _ => true
  {
    if e.SaveProduct? || e.DeleteProduct? { OwnedExactly(s.db, slug, e.pk); }
  }

  lemma OwnedExactly(db: Db, slug: string, product: nat)
    requires Valid(db)
    ensures slug in SlugsWith(db, product) <==> Holds(db, slug, product)
  {
    var named := ItemsNaming(db.items, product);
    if i :| i in db.items && db.items[i].product == product && db.bundles[db.items[i].bundle].slug == slug {
      assert i in named;
    }
  }

  /**
    The effective prices start over exactly when a product is new, changes its list price or is deleted, and when a
    discount changes, also by going with its bundle.
   */
  lemma GenerationRisesExactly(s: State, e: Event)
    requires Valid(s.db) && Step(s, e) != s && !e.LoseGeneration?
    ensures Step(s, e).effective.Gen()
            == s.effective.Gen() +
               if e.DeleteProduct? || e.ChangePromotions? || (e.DeleteBundle? && e.discounted)
                  || (e.SaveProduct? && (e.pk !in s.db.products || s.db.products[e.pk].price != e.product.price))
               then 1 else 0
  {
  }
}

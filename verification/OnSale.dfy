/**
  The on-sale rule of the smart collections: the union of what the live discounts cover, computed with a dedup loop.
 */
module OnSale {
  import opened Options
  import opened Ordering

  datatype Product = Product(isActive: bool, category: Option<nat>, brand: Option<nat>)

  type Catalogue = map<nat, Product>

  datatype Scope =
    | Products(products: set<nat>)
    | Categories(categories: seq<nat>)
    | Brands(brands: seq<nat>)
    | Bundle
    | Sitewide

  datatype Discount = Discount(isActive: bool, startsAt: int, endsAt: Option<int>, scope: Scope, priority: nat,
                               maxRedemptions: Option<nat>, redemptionCount: nat)

  type Discounts = map<nat, Discount>

  /******* What the rule means *******/

  predicate Live(d: Discount, now: int) {
    d.isActive && d.startsAt <= now && (d.endsAt.Some? ==> now <= d.endsAt.value)
  }

  predicate HasBudget(d: Discount) { d.maxRedemptions.Some? ==> d.redemptionCount < d.maxRedemptions.value }

  predicate Covers(catalogue: Catalogue, d: Discount, p: nat) {
    match d.scope
    case Products(products) => p in products
    case Categories(categories) =>
      p in catalogue && catalogue[p].category.Some? && catalogue[p].category.value in categories
    case Brands(brands) => p in catalogue && catalogue[p].brand.Some? && catalogue[p].brand.value in brands
    case Bundle => false
    case Sitewide => true
  }

  /** A live discount with budget left covers the product. */
  predicate Applies(catalogue: Catalogue, d: Discount, now: int, p: nat) {
    Live(d, now) && HasBudget(d) && Covers(catalogue, d, p)
  }

  /** An active product that some live discount with budget left covers. */
  predicate IsOnSale(catalogue: Catalogue, discounts: Discounts, now: int, p: nat) {
    p in catalogue && catalogue[p].isActive && exists k <- discounts :: Applies(catalogue, discounts[k], now, p)
  }

  /** The discount covers the product: as one of its products, or through its category or brand, or by covering all. */
  ghost predicate InScope(product: Product, p: nat, scope: Scope) {
    match scope
    case Products(products) => p in products
    case Categories(categories) => exists c <- categories :: product.category == Some(c)
    case Brands(brands) => exists b <- brands :: product.brand == Some(b)
    case Bundle => false
    case Sitewide => true
  }

  /**
    A product is on sale exactly when it is active and a discount puts it on sale: one that is active, has started, is
    not over, has redemptions left, and covers it. Both limits belong to the window.
   */
  lemma OnSaleMeans(catalogue: Catalogue, discounts: Discounts, now: int, p: nat)
    ensures IsOnSale(catalogue, discounts, now, p) <==>
            && p in catalogue && catalogue[p].isActive
            && exists k <- discounts ::
                 && discounts[k].isActive && !(now < discounts[k].startsAt)
                 && !(discounts[k].endsAt.Some? && discounts[k].endsAt.value < now)
                 && !(discounts[k].maxRedemptions.Some?
                      && discounts[k].maxRedemptions.value <= discounts[k].redemptionCount)
                 && InScope(catalogue[p], p, discounts[k].scope)
  {
  }

  /** A discount that has not started, is over or used up, or is meant for bundles puts no product on sale. */
  lemma DeadDiscountAddsNothing(catalogue: Catalogue, discounts: Discounts, k: nat, d: Discount, now: int, p: nat)
    requires k !in discounts
    requires !d.isActive || now < d.startsAt || (d.endsAt.Some? && d.endsAt.value < now)
             || (d.maxRedemptions.Some? && d.maxRedemptions.value <= d.redemptionCount) || d.scope.Bundle?
    ensures IsOnSale(catalogue, discounts[k := d], now, p) <==> IsOnSale(catalogue, discounts, now, p)
  {
    forall j <- discounts ensures discounts[k := d][j] == discounts[j] {}
  }

  /** Every product on sale, once, newest id first. */
  function OnSaleProducts(catalogue: Catalogue, discounts: Discounts, now: int): seq<nat> {
    var found: set<nat> := set p <- catalogue | IsOnSale(catalogue, discounts, now, p);
    Sort(found, Greater)
  }

  /******* The queries *******/

  /** One group's rows of an outer join with the products: a group without products yields a single `None`. */
  function GroupRows(members: set<nat>): (rows: seq<Option<nat>>)
    ensures forall p :: Some(p) in rows <==> p in members
  {
    if members == {} then [None]
    else
      var pks := Sort(members, Less);
      var rows := seq(|pks|, i requires 0 <= i < |pks| => Some(pks[i]));
      assert forall i :: 0 <= i < |pks| ==> rows[i] == Some(pks[i]);
      rows
  }

  /** `values_list("products__pk")` over the chosen categories. */
  function CategoryRows(catalogue: Catalogue, categories: seq<nat>): (rows: seq<Option<nat>>)
    ensures forall p :: Some(p) in rows <==>
              p in catalogue && catalogue[p].category.Some? && catalogue[p].category.value in categories
  {
    if categories == [] then []
    else
      var members: set<nat> := set p <- catalogue | catalogue[p].category == Some(categories[0]);
      GroupRows(members) + CategoryRows(catalogue, categories[1..])
  }

  /** `values_list("products__pk")` over the chosen brands. */
  function BrandRows(catalogue: Catalogue, brands: seq<nat>): (rows: seq<Option<nat>>)
    ensures forall p :: Some(p) in rows <==>
              p in catalogue && catalogue[p].brand.Some? && catalogue[p].brand.value in brands
  {
    if brands == [] then []
    else GroupRows(set p <- catalogue | catalogue[p].brand == Some(brands[0])) + BrandRows(catalogue, brands[1..])
  }

  /** The ids one discount contributes. */
  function Ids(catalogue: Catalogue, scope: Scope): seq<Option<nat>> {
    match scope
    case Products(products) => GroupRows(products)
    case Categories(categories) => CategoryRows(catalogue, categories)
    case Brands(brands) => BrandRows(catalogue, brands)
    case Bundle => []
    case Sitewide => GroupRows(set p <- catalogue | catalogue[p].isActive)
  }

  lemma IdsAreCovered(catalogue: Catalogue, d: Discount, p: nat)
    requires p in catalogue && catalogue[p].isActive
    ensures Some(p) in Ids(catalogue, d.scope) <==> Covers(catalogue, d, p)
  {
  }

  /******* The rule *******/

  datatype Rank = Rank(priority: nat, pk: nat)

  /** `ORDER BY -priority, pk`. */
  predicate Sooner(a: Rank, b: Rank) { b.priority < a.priority || (a.priority == b.priority && a.pk < b.pk) }

  ghost predicate Union(catalogue: Catalogue, budgets: seq<Discount>, seen: set<nat>) {
    forall p :: p in seen <==> Contributed(catalogue, budgets, p)
  }

  ghost predicate Contributed(catalogue: Catalogue, budgets: seq<Discount>, p: nat) {
    exists i :: 0 <= i < |budgets| && Some(p) in Ids(catalogue, budgets[i].scope)
  }

  predicate Eligible(d: Discount, now: int) { Live(d, now) && !d.scope.Bundle? && HasBudget(d) }

  /** The rows of the discount query. */
  function LiveRanks(discounts: Discounts, now: int): set<Rank> {
    set k <- discounts | Live(discounts[k], now) && !discounts[k].scope.Bundle? :: Rank(discounts[k].priority, k)
  }

  /** The live discounts with budget left, by priority. */
  method Budgets(discounts: Discounts, now: int) returns (budgets: seq<Discount>)
    ensures forall d :: d in budgets <==> exists k <- discounts :: discounts[k] == d && Eligible(d, now)
  {
    var ranks := Sort(LiveRanks(discounts, now), Sooner);
    forall j | 0 <= j < |ranks| ensures ranks[j].pk in discounts { assert ranks[j] in ranks; }
    budgets := Funded(discounts, ranks);
    AllEligible(discounts, now, ranks, budgets);
  }

  /** The source's second filter, over the rows of the query. */
  method Funded(discounts: Discounts, ranks: seq<Rank>) returns (budgets: seq<Discount>)
    requires forall j :: 0 <= j < |ranks| ==> ranks[j].pk in discounts
    ensures forall d :: d in budgets <==> exists j :: 0 <= j < |ranks| && discounts[ranks[j].pk] == d && HasBudget(d)
  {
    budgets := [];
    for i := 0 to |ranks|
      invariant forall d :: d in budgets <==> exists j :: 0 <= j < i && discounts[ranks[j].pk] == d && HasBudget(d)
    {
      var d := discounts[ranks[i].pk];
      if HasBudget(d) { budgets := budgets + [d]; }
    }
  }

  lemma AllEligible(discounts: Discounts, now: int, ranks: seq<Rank>, budgets: seq<Discount>)
    requires (forall r :: r in ranks <==> r in LiveRanks(discounts, now)) && forall r <- ranks :: r.pk in discounts
    requires forall d :: d in budgets <==> exists j :: 0 <= j < |ranks| && discounts[ranks[j].pk] == d && HasBudget(d)
    ensures forall d :: d in budgets <==> exists k <- discounts :: discounts[k] == d && Eligible(d, now)
  {
    forall d ensures d in budgets <==> exists k <- discounts :: discounts[k] == d && Eligible(d, now) {
      if d in budgets {
        var j :| 0 <= j < |ranks| && discounts[ranks[j].pk] == d && HasBudget(d);
        assert ranks[j] in ranks && Eligible(d, now);
      } else if k :| k in discounts && discounts[k] == d && Eligible(d, now) {
        var j := RankListed(discounts, now, k, ranks);
      }
    }
  }

  lemma RankListed(discounts: Discounts, now: int, k: nat, ranks: seq<Rank>) returns (j: nat)
    requires k in discounts && Eligible(discounts[k], now)
    requires forall r :: r in ranks <==> r in LiveRanks(discounts, now)
    ensures j < |ranks| && ranks[j].pk == k
  {
    assert Rank(discounts[k].priority, k) in ranks;
    j :| 0 <= j < |ranks| && ranks[j] == Rank(discounts[k].priority, k);
  }

  /** The dedup over one discount's ids: every new id once, after those already listed. */
  method AddIds(ids: seq<Option<nat>>, listed: seq<nat>, known: set<nat>) returns (productPks: seq<nat>, seen: set<nat>)
    requires (forall p :: p in known <==> p in listed) && |known| == |listed|
    ensures (forall p :: p in seen <==> p in productPks) && |seen| == |productPks|
    ensures listed <= productPks
    ensures forall p :: p in seen <==> p in known || Some(p) in ids
  {
    productPks, seen := listed, known;
    for j := 0 to |ids|
      invariant (forall p :: p in seen <==> p in productPks) && |seen| == |productPks| && listed <= productPks
      invariant forall p :: p in seen <==> p in known || Some(p) in ids[..j]
    {
      assert ids[..j + 1] == ids[..j] + [ids[j]];
      if ids[j].Some? && ids[j].value !in seen {
        seen := seen + {ids[j].value};
        productPks := productPks + [ids[j].value];
      }
    }
    assert ids[..|ids|] == ids;
  }

  /** `_on_sale`. */
  method OnSale(catalogue: Catalogue, discounts: Discounts, now: int) returns (pks: seq<nat>)
    ensures pks == OnSaleProducts(catalogue, discounts, now)
    ensures forall p :: p in pks <==> IsOnSale(catalogue, discounts, now, p)
    ensures forall i, j :: 0 <= i < j < |pks| ==> pks[j] < pks[i]
  {
    var budgets := Budgets(discounts, now);
    var productPks: seq<nat>, seen: set<nat> := [], {};
    for i := 0 to |budgets|
      invariant (forall p :: p in seen <==> p in productPks) && |seen| == |productPks|
      invariant Union(catalogue, budgets[..i], seen)
    {
      ghost var before := seen;
      productPks, seen := AddIds(Ids(catalogue, budgets[i].scope), productPks, seen);
      UnionGrows(catalogue, budgets, i, before, seen);
    }
    assert budgets[..|budgets|] == budgets;
    forall p | p in catalogue && catalogue[p].isActive ensures p in seen <==> IsOnSale(catalogue, discounts, now, p) {
      CoveredInUnion(catalogue, discounts, budgets, seen, now, p);
    }
    var found: set<nat> := set p <- catalogue | p in productPks && catalogue[p].isActive;
    assert found == set p <- catalogue | IsOnSale(catalogue, discounts, now, p);
    if productPks == [] {
      assert found == {};
      return [];
    }
    pks := Sort(found, Greater);
  }

  lemma UnionGrows(catalogue: Catalogue, budgets: seq<Discount>, i: nat, before: set<nat>, after: set<nat>)
    requires i < |budgets| && Union(catalogue, budgets[..i], before)
    requires forall p :: p in after <==> p in before || Some(p) in Ids(catalogue, budgets[i].scope)
    ensures Union(catalogue, budgets[..i + 1], after)
  {
    assert budgets[..i + 1] == budgets[..i] + [budgets[i]];
    forall p ensures p in after <==> Contributed(catalogue, budgets[..i + 1], p) {
      SeenByOneMore(catalogue, budgets[..i], budgets[i], before, p);
    }
  }

  lemma SeenByOneMore(catalogue: Catalogue, budgets: seq<Discount>, d: Discount, before: set<nat>, p: nat)
    requires p in before <==> Contributed(catalogue, budgets, p)
    ensures Contributed(catalogue, budgets + [d], p) <==> p in before || Some(p) in Ids(catalogue, d.scope)
  {
    ContributedByOneMore(catalogue, budgets, d, p);
  }

  lemma ContributedByOneMore(catalogue: Catalogue, budgets: seq<Discount>, d: Discount, p: nat)
    ensures Contributed(catalogue, budgets + [d], p) <==>
        Contributed(catalogue, budgets, p) || Some(p) in Ids(catalogue, d.scope)
  {
    var more := budgets + [d];
    if k :| 0 <= k < |budgets| && Some(p) in Ids(catalogue, budgets[k].scope) { assert more[k] == budgets[k]; }
    assert more[|budgets|] == d;
  }

  lemma CoveredInUnion(catalogue: Catalogue, discounts: Discounts, budgets: seq<Discount>, seen: set<nat>, now: int,
                       p: nat)
    requires forall d :: d in budgets <==> exists k <- discounts :: discounts[k] == d && Eligible(d, now)
    requires Union(catalogue, budgets, seen) && p in catalogue && catalogue[p].isActive
    ensures p in seen <==> IsOnSale(catalogue, discounts, now, p)
  {
    if p in seen {
      var i :| 0 <= i < |budgets| && Some(p) in Ids(catalogue, budgets[i].scope);
      IdsAreCovered(catalogue, budgets[i], p);
      assert budgets[i] in budgets;
      var k :| k in discounts && discounts[k] == budgets[i] && Eligible(budgets[i], now);
      assert Applies(catalogue, discounts[k], now, p);
    }
    if IsOnSale(catalogue, discounts, now, p) {
      var k :| k in discounts && Applies(catalogue, discounts[k], now, p);
      IdsAreCovered(catalogue, discounts[k], p);
      assert Eligible(discounts[k], now);
      assert discounts[k] in budgets;
      var i :| 0 <= i < |budgets| && budgets[i] == discounts[k];
      assert Some(p) in Ids(catalogue, budgets[i].scope);
    }
  }

  /******* The order *******/

  /** Some discount on `p` has at least the priority of every discount on `q`. */
  ghost predicate AsProminent(catalogue: Catalogue, discounts: Discounts, now: int, p: nat, q: nat) {
    exists k <- discounts :: Applies(catalogue, discounts[k], now, p) &&
      forall l <- discounts :: Applies(catalogue, discounts[l], now, q) ==>
          discounts[l].priority <= discounts[k].priority
  }

  /** The most prominent offers come first. */
  ghost predicate InPriorityOrder(catalogue: Catalogue, discounts: Discounts, now: int, pks: seq<nat>) {
    forall i, j :: 0 <= i < j < |pks| ==> AsProminent(catalogue, discounts, now, pks[i], pks[j])
  }

  /**
    The rule's description promises the order of discount priority; the query orders by descending id. The promise
    holds exactly when of two products on sale the newer one is never on the less prominent offer.
   */
  lemma PriorityOrderExactlyWhenNewerIsAsProminent(catalogue: Catalogue, discounts: Discounts, now: int)
    ensures InPriorityOrder(catalogue, discounts, now, OnSaleProducts(catalogue, discounts, now)) <==>
            forall p, q | IsOnSale(catalogue, discounts, now, p) && IsOnSale(catalogue, discounts, now, q) && q < p ::
              AsProminent(catalogue, discounts, now, p, q)
  {
    var pks := OnSaleProducts(catalogue, discounts, now);
    if InPriorityOrder(catalogue, discounts, now, pks) {
      forall p, q | IsOnSale(catalogue, discounts, now, p) && IsOnSale(catalogue, discounts, now, q) && q < p
        ensures AsProminent(catalogue, discounts, now, p, q)
      {
        var i, j := NewerIsFirst(catalogue, discounts, now, p, q);
        assert AsProminent(catalogue, discounts, now, pks[i], pks[j]);
      }
    } else {
      var i, j :| 0 <= i < j < |pks| && !AsProminent(catalogue, discounts, now, pks[i], pks[j]);
      assert pks[i] in pks && pks[j] in pks && Greater(pks[i], pks[j]);
    }
  }

  lemma NewerIsFirst(catalogue: Catalogue, discounts: Discounts, now: int, p: nat, q: nat) returns (i: nat, j: nat)
    requires IsOnSale(catalogue, discounts, now, p) && IsOnSale(catalogue, discounts, now, q) && q < p
    ensures var pks := OnSaleProducts(catalogue, discounts, now); i < j < |pks| && pks[i] == p && pks[j] == q
  {
    var pks := OnSaleProducts(catalogue, discounts, now);
    assert p in pks && q in pks;
    i :| 0 <= i < |pks| && pks[i] == p;
    j :| 0 <= j < |pks| && pks[j] == q;
    assert j < i ==> Greater(pks[j], pks[i]);
  }

  function OnOne(p: nat, priority: nat): Discount { Discount(true, 0, None, Products({p}), priority, None, 0) }

  /** Product 1 on an offer of priority 10 comes after product 2 on one of priority 0. */
  lemma LowerPriorityComesFirst(now: int)
    requires 0 <= now
    ensures var catalogue := map[1 := Product(true, None, None), 2 := Product(true, None, None)];
            var discounts := map[1 := OnOne(1, 10), 2 := OnOne(2, 0)];
            && OnSaleProducts(catalogue, discounts, now) == [2, 1]
            && !InPriorityOrder(catalogue, discounts, now, [2, 1])
  {
    var catalogue := map[1 := Product(true, None, None), 2 := Product(true, None, None)];
    var discounts := map[1 := OnOne(1, 10), 2 := OnOne(2, 0)];
    assert Applies(catalogue, discounts[1], now, 1) && Applies(catalogue, discounts[2], now, 2);
    assert IsOnSale(catalogue, discounts, now, 1) && IsOnSale(catalogue, discounts, now, 2);
    var listed: seq<nat> := [2, 1];
    assert Strictly(listed, Greater);
    SortUnique(OnSaleProducts(catalogue, discounts, now), listed, Greater);
    assert !AsProminent(catalogue, discounts, now, [2, 1][0], [2, 1][1]);
  }
}

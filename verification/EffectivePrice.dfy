/**
  A product's unit price inside bundles: the best price under the current promotions, behind a cache whose entries
  count only under the generation they were computed in.
 */
module EffectivePrice {
  import opened Options

  /** `rest` stands for every other column. */
  datatype Product = Product(name: string, sku: string, price: nat, category: Option<nat>, brand: Option<nat>,
                             rest: string)

  /** The best discounted price of a product under some promotions: any function of its row. */
  type Best = (nat, Product) -> nat

  datatype Tagged = Tagged(gen: nat, price: nat)

  /** The generation counter and the cached prices; an expired entry is one that is gone. */
  datatype Effective = Effective(generation: Option<nat>, entries: map<nat, Tagged>) {

    function Gen(): nat { if generation.Some? then generation.value else 0 }

    function Bumped(): Effective { this.(generation := Some(Gen() + 1)) }

    /** The cached price, if it was computed under the current generation. */
    function Live(p: nat): Option<nat> {
      if p in entries && entries[p].gen == Gen() then Some(entries[p].price) else None
    }

    /** `effective_unit_price`. */
    function Price(p: nat, product: Product, best: Best): nat {
      if Live(p).Some? then Live(p).value else best(p, product)
    }

    /** The cache after that read. */
    function Priced(p: nat, product: Product, best: Best): Effective {
      if Live(p).Some? then this else this.(entries := entries[p := Tagged(Gen(), best(p, product))])
    }

    /** The cache after reads of several products. */
    function PricedAll(read: set<nat>, products: map<nat, Product>, best: Best): Effective {
      this.(entries := entries + map p <- read | p in products && Live(p).None? :: Tagged(Gen(), best(p, products[p])))
    }
  }

  lemma PricedOneMore(e: Effective, read: set<nat>, p: nat, products: map<nat, Product>, best: Best)
    requires p in products
    ensures e.PricedAll(read, products, best).Price(p, products[p], best) == e.Price(p, products[p], best)
    ensures e.PricedAll(read, products, best).Priced(p, products[p], best) == e.PricedAll(read + {p}, products, best)
  {
    var m := e.PricedAll(read, products, best);
    var t := e.PricedAll(read + {p}, products, best);
    if e.Live(p).Some? {
      assert p !in (map x <- read | x in products && e.Live(x).None? :: Tagged(e.Gen(), best(x, products[x])));
      assert m.entries == t.entries;
    } else if p in read {
      assert m.entries == t.entries;
    } else {
      assert m.entries[p := Tagged(e.Gen(), best(p, products[p]))] == t.entries;
    }
  }
}

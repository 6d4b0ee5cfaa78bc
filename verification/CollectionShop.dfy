/**
  The collection tables and the cache of id lists as one object, with the signal handlers that run before each write.
 */
module CollectionShop {
  import opened Options
  import opened CollectionCache
  import opened CollectionRefresh

  /** The collections a sweep in `order` refreshes. */
  ghost function Hits(s: State, order: seq<nat>, now: int): set<nat> { set c <- order | Hit(s, order, c, now) }

  lemma {:induction false} SweepAppend(s: State, order: seq<nat>, c: nat, result: nat -> seq<nat>, now: int)
    ensures var t := Sweep(s, order, result, now);
            && SameCollections(s, t)
            && Sweep(s, order + [c], result, now) == if c in t.collections then Refreshed(t, c, result(c), now) else t
    decreases |order|
  {
    if order == [] {
      assert order + [c] == [c] && [c][1..] == [];
    } else {
      var m := if order[0] in s.collections then Refreshed(s, order[0], result(order[0]), now) else s;
      assert (order + [c])[0] == order[0] && (order + [c])[1..] == order[1..] + [c];
      SweepAppend(m, order[1..], c, result, now);
    }
  }

  class Shop {
    var collections: map<nat, Collection>
    var rows: Rows
    var products: set<nat>
    var nextPk: nat
    var cached: Cache

    constructor ()
      ensures Model() == EMPTY
    {
      collections, rows, products, nextPk, cached := map[], map[], {}, 0, map[];
    }

    ghost function Model(): State
      reads this
    {
      State(collections, rows, products, nextPk, cached)
    }

    method InvalidateCollection(slug: string)
      modifies this`cached
      ensures cached == old(cached) - {slug}
    {
      cached := cached - {slug};
    }

    /** `pre_save` of a collection; `known` says that the instance carries a primary key. */
    method BeforeCollectionSave(pk: nat, known: bool, slug: string)
      modifies this`cached
      ensures cached == if !known then old(cached) - {slug}
                        else if pk !in collections then old(cached)
                        else old(cached) - {collections[pk].slug} - {slug}
    {
      if known {
        if pk !in collections { return; }
        InvalidateCollection(collections[pk].slug);
      }
      InvalidateCollection(slug);
    }

    method SaveCollection(pk: nat, known: bool, collection: Collection)
      requires SlugFree(Model(), pk, collection.slug) && (pk in collections ==> known)
      modifies this`collections, this`cached
      ensures Model() == Step(old(Model()), if pk in old(collections) then UpdateCollection(pk, collection)
                                            else CreateCollection(pk, collection, known))
    {
      BeforeCollectionSave(pk, known, collection.slug);
      collections := collections[pk := collection];
    }

    /** `pre_delete` of the rows a delete collects, one after the other. */
    method BeforeRowsDelete(doomed: set<nat>)
      requires forall k <- doomed :: k in rows && rows[k].collection in collections
      modifies this`cached
      ensures cached == old(cached) - set k <- doomed :: collections[rows[k].collection].slug
    {
      var left := doomed;
      while left != {}
        invariant left <= doomed
        invariant cached == old(cached) - set k <- doomed | k !in left :: collections[rows[k].collection].slug
      {
        var k :| k in left;
        InvalidateCollection(collections[rows[k].collection].slug);
        left := left - {k};
      }
    }

    method DeleteCollection(pk: nat)
      requires Valid(Model()) && pk in collections
      modifies this`collections, this`rows, this`cached
      ensures Model() == Step(old(Model()), Event.DeleteCollection(pk))
    {
      BeforeRowsDelete(set k <- rows | rows[k].collection == pk);
      InvalidateCollection(collections[pk].slug);
      rows := map k <- rows | rows[k].collection != pk :: rows[k];
      collections := collections - {pk};
    }

    method DeleteProduct(product: nat)
      requires Valid(Model())
      modifies this`products, this`rows, this`cached
      ensures Model() == Step(old(Model()), Event.DeleteProduct(product))
    {
      var doomed := set k <- rows | rows[k].product == product;
      BeforeRowsDelete(doomed);
      assert OwnerSlugs(old(Model()), product) == set k <- doomed :: collections[rows[k].collection].slug;
      rows := map k <- rows | rows[k].product != product :: rows[k];
      products := products - {product};
    }

    method AddMember(row: Row)
      requires row.collection in collections && row.product in products && PairFree(rows, nextPk, row)
      modifies this`rows, this`nextPk, this`cached
      ensures Model() == Step(old(Model()), Event.AddMember(row))
    {
      InvalidateCollection(collections[row.collection].slug);
      rows, nextPk := rows[nextPk := row], nextPk + 1;
    }

    method UpdateMember(pk: nat, row: Row)
      requires Valid(Model()) && pk in rows && row.collection in collections && row.product in products
      requires PairFree(rows, pk, row)
      modifies this`rows, this`cached
      ensures Model() == Step(old(Model()), Event.UpdateMember(pk, row))
    {
      InvalidateCollection(collections[row.collection].slug);
      rows := rows[pk := row];
    }

    method RemoveMember(pk: nat)
      requires Valid(Model()) && pk in rows
      modifies this`rows, this`cached
      ensures Model() == Step(old(Model()), Event.RemoveMember(pk))
    {
      InvalidateCollection(collections[rows[pk].collection].slug);
      rows := rows - {pk};
    }

    method GetCollectionProductPks(c: nat) returns (pks: seq<nat>)
      requires c in collections
      ensures pks == Answer(Model(), c)
    {
      var slug := collections[c].slug;
      if slug in cached { return cached[slug]; }
      pks := Listing(rows, c);
    }

    /** `bulk_create`, which sends no signals. */
    method BulkCreate(c: nat, productPks: seq<nat>)
      modifies this`rows, this`nextPk
      ensures rows == old(rows) + Inserted(c, productPks, old(nextPk)) && nextPk == old(nextPk) + |productPks|
    {
      var index := 0;
      while index < |productPks|
        invariant index <= |productPks| && nextPk == old(nextPk) + index
        invariant rows == old(rows) + Inserted(c, productPks[..index], old(nextPk))
      {
        OneMoreInserted(old(rows), c, productPks, index, old(nextPk));
        rows, nextPk, index := rows[nextPk := Row(c, productPks[index], index)], nextPk + 1, index + 1;
      }
      assert productPks[..index] == productPks;
    }

    method RefreshSmartCollection(c: nat, productPks: seq<nat>, now: int) returns (refreshed: bool)
      requires c in collections
      modifies this`collections, this`rows, this`nextPk, this`cached
      ensures Model() == Refreshed(old(Model()), c, productPks, now)
      ensures var it := old(collections)[c];
              refreshed <==> it.smart && it.isActive && (it.startsAt.Some? ==> it.startsAt.value <= now)
                             && (it.endsAt.Some? ==> now <= it.endsAt.value)
    {
      if !collections[c].smart || !InWindow(collections[c], now) { return false; }
      var slug := collections[c].slug;
      var doomed := set k <- rows | rows[k].collection == c;
      BeforeRowsDelete(doomed);
      assert cached == old(cached) || cached == old(cached) - {slug};
      rows := map k <- rows | rows[k].collection != c :: rows[k];
      BulkCreate(c, productPks);
      SaveCollectionRow(c, collections[c].(lastRefreshedAt := Some(now)));
      cached := cached[slug := productPks];
      refreshed := true;
    }

    /** A save that keeps the slug. */
    method SaveCollectionRow(c: nat, collection: Collection)
      requires c in collections && collection.slug == collections[c].slug
      modifies this`collections, this`cached
      ensures collections == old(collections)[c := collection] && cached == old(cached) - {collection.slug}
    {
      BeforeCollectionSave(c, true, collection.slug);
      collections := collections[c := collection];
    }

    /** The sweep over the active smart collections, in the order it happened to take, and how many it refreshed. */
    method RefreshAllSmartCollections(result: nat -> seq<nat>, now: int) returns (refreshed: nat, ghost order: seq<nat>)
      modifies this`collections, this`rows, this`nextPk, this`cached
      ensures forall c :: c in order <==>
                c in old(collections) && old(collections)[c].smart && old(collections)[c].isActive
      ensures Model() == Sweep(old(Model()), order, result, now)
      ensures refreshed == |Hits(old(Model()), order, now)|
    {
      var todo := set c <- collections | collections[c].smart && collections[c].isActive;
      ghost var all := todo;
      refreshed, order := 0, [];
      while todo != {}
        invariant todo <= all && forall c :: c in order <==> c in all - todo
        invariant Model() == Sweep(old(Model()), order, result, now)
        invariant refreshed == |Hits(old(Model()), order, now)|
      {
        var c :| c in todo;
        SweepAppend(old(Model()), order, c, result, now);
        var done := RefreshSmartCollection(c, result(c), now);
        HitsAppend(old(Model()), order, c, now);
        refreshed := if done then refreshed + 1 else refreshed;
        order, todo := order + [c], todo - {c};
      }
    }
  }

  lemma OneMoreInserted(rows: Rows, c: nat, productPks: seq<nat>, n: nat, nextPk: nat)
    requires n < |productPks|
    ensures (rows + Inserted(c, productPks[..n], nextPk))[nextPk + n := Row(c, productPks[n], n)]
            == rows + Inserted(c, productPks[..n + 1], nextPk)
  {
    assert productPks[..n + 1][..n] == productPks[..n];
  }

  lemma HitsAppend(s: State, order: seq<nat>, c: nat, now: int)
    requires c in s.collections && c !in order
    ensures |Hits(s, order + [c], now)| == |Hits(s, order, now)| + if Hit(s, [c], c, now) then 1 else 0
  {
    var before, after := Hits(s, order, now), Hits(s, order + [c], now);
    if Hit(s, [c], c, now) {
      assert after == before + {c};
    } else {
      assert after == before;
    }
  }
}

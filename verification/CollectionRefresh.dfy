/**
  The smart-collection refresh: what one sweep does to every collection, that a second sweep over an unchanged
  catalogue changes nothing, and the class with the tables, the cache and the signal handlers.
 */
module CollectionRefresh {
  import opened Options
  import opened CollectionCache

  /** `refresh_all_smart_collections` over the collections in `order`, with every rule's current result. */
  function Sweep(s: State, order: seq<nat>, result: nat -> seq<nat>, now: int): State
    decreases |order|
  {
    if order == [] then s
    else
      var m := if order[0] in s.collections then Refreshed(s, order[0], result(order[0]), now) else s;
      Sweep(m, order[1..], result, now)
  }

  /** `t` has the collections of `s`, apart from the time of their last refresh. */
  ghost predicate SameCollections(s: State, t: State) {
    t.collections.Keys == s.collections.Keys &&
    forall c <- s.collections ::
        t.collections[c] == s.collections[c].(lastRefreshedAt := t.collections[c].lastRefreshedAt)
  }

  /** The sweep visits a smart collection that is active, has started and is not over; both limits belong to it. */
  ghost predicate Hit(s: State, order: seq<nat>, c: nat, now: int) {
    && c in order && c in s.collections && s.collections[c].smart && s.collections[c].isActive
    && (s.collections[c].startsAt.Some? ==> s.collections[c].startsAt.value <= now)
    && (s.collections[c].endsAt.Some? ==> now <= s.collections[c].endsAt.value)
  }

  /** What a sweep leaves for collection `c`: the numbered rule result and its list, or what was there. */
  ghost predicate Swept(s: State, t: State, order: seq<nat>, result: nat -> seq<nat>, now: int, c: nat)
    requires c in s.collections
  {
    var slug := s.collections[c].slug;
    if Hit(s, order, c, now) then
      Members(t.rows, c) == Enumerated(result(c)) && slug in t.cached && t.cached[slug] == result(c)
    else
      Members(t.rows, c) == Members(s.rows, c)
      && (slug in t.cached <==> slug in s.cached) && (slug in s.cached ==> t.cached[slug] == s.cached[slug])
  }

  lemma RefreshedSwept(s: State, c: nat, result: nat -> seq<nat>, now: int, d: nat)
    requires Valid(s) && c in s.collections && d in s.collections
    ensures Swept(s, Refreshed(s, c, result(c), now), [c], result, now, d)
  {
    RefreshReplaces(s.rows, c, result(c), s.nextPk);
  }

  /** The collection can be refreshed now: smart, active, started and not over. */
  lemma RefreshableIs(c: Collection, now: int)
    ensures Refreshable(c, now) <==>
            !(!c.smart || !c.isActive || (c.startsAt.Some? && now < c.startsAt.value)
              || (c.endsAt.Some? && c.endsAt.value < now))
  {
  }

  lemma RefreshedTables(s: State, c: nat, result: seq<nat>, now: int)
    requires c in s.collections && Refreshable(s.collections[c], now)
    ensures var it, t := s.collections[c], Refreshed(s, c, result, now);
            && t.rows == RefreshedRows(s.rows, c, result, s.nextPk) && t.products == s.products
            && t.cached == s.cached[it.slug := result]
            && t.collections == s.collections[c := it.(lastRefreshedAt := Some(now))]
  {
    var slug := s.collections[c].slug;
    assert (s.cached - {slug})[slug := result] == s.cached[slug := result];
  }

  /**
    A refresh changes nothing at all if the collection is manual, inactive, not yet started or over. Otherwise it leaves
    the rule result, numbered from zero, as its rows and its list, and every other collection alone.
   */
  lemma RefreshesExactlyInWindow(s: State, c: nat, result: seq<nat>, now: int)
    requires Valid(s) && c in s.collections
    ensures var it, t := s.collections[c], Refreshed(s, c, result, now);
            if !it.smart || !it.isActive || (it.startsAt.Some? && now < it.startsAt.value)
               || (it.endsAt.Some? && it.endsAt.value < now)
            then t == s
            else
              && Members(t.rows, c) == Enumerated(result) && Listing(t.rows, c) == result
              && t.cached == s.cached[it.slug := result] && t.products == s.products
              && t.collections == s.collections[c := it.(lastRefreshedAt := Some(now))]
              && forall d :: d != c ==> Members(t.rows, d) == Members(s.rows, d)
  {
    RefreshableIs(s.collections[c], now);
    if Refreshable(s.collections[c], now) {
      RefreshedTables(s, c, result, now);
      RefreshReplaces(s.rows, c, result, s.nextPk);
    }
  }

  lemma RefreshedKeeps(s: State, c: nat, result: seq<nat>, now: int)
    requires Valid(s) && Coherent(s) && c in s.collections && forall p <- result :: p in s.products
    ensures var t := Refreshed(s, c, result, now);
            Valid(t) && Coherent(t) && SameCollections(s, t) && t.products == s.products
  {
    RefreshedCoherent(s, c, result, now);
    RefreshedValid(s, c, result, now);
  }

  lemma RefreshedValid(s: State, c: nat, result: seq<nat>, now: int)
    requires Valid(s) && c in s.collections && forall p <- result :: p in s.products
    ensures Valid(Refreshed(s, c, result, now))
  {
    var t := Refreshed(s, c, result, now);
    if t != s {
      forall k <- t.rows
        ensures k < t.nextPk && t.rows[k].collection in t.collections && t.rows[k].product in t.products
      {
        if k >= s.nextPk { assert t.rows[k].product in result; }
      }
    }
  }

  lemma OneSwept(s: State, m: State, c: nat, result: nat -> seq<nat>, now: int, d: nat)
    requires Valid(s) && d in s.collections && m == if c in s.collections then Refreshed(s, c, result(c), now) else s
    ensures Swept(s, m, [c], result, now, d)
  {
    if c in s.collections { RefreshedSwept(s, c, result, now, d); }
  }

  lemma SweptTrans(s: State, m: State, t: State, first: nat, rest: seq<nat>, result: nat -> seq<nat>, now: int, c: nat)
    requires c in s.collections && SameCollections(s, m) && Swept(s, m, [first], result, now, c)
    requires Swept(m, t, rest, result, now, c)
    ensures Swept(s, t, [first] + rest, result, now, c)
  {
    assert m.collections[c] == s.collections[c].(lastRefreshedAt := m.collections[c].lastRefreshedAt);
    assert c in [first] + rest <==> c in [first] || c in rest;
  }

  /** A sweep refreshes exactly the in-window smart collections it visits, and leaves every other one alone. */
  lemma {:induction false} SweepEffect(s: State, order: seq<nat>, result: nat -> seq<nat>, now: int)
    requires Valid(s) && Coherent(s) && forall c :: forall p <- result(c) :: p in s.products
    ensures var t := Sweep(s, order, result, now);
            && Valid(t) && Coherent(t) && SameCollections(s, t) && t.products == s.products
            && forall c <- s.collections :: Swept(s, t, order, result, now, c)
    decreases |order|
  {
    if order != [] {
      var m := if order[0] in s.collections then Refreshed(s, order[0], result(order[0]), now) else s;
      if order[0] in s.collections { RefreshedKeeps(s, order[0], result(order[0]), now); }
      SweepEffect(m, order[1..], result, now);
      var t := Sweep(m, order[1..], result, now);
      assert [order[0]] + order[1..] == order;
      forall c <- s.collections ensures Swept(s, t, order, result, now, c) {
        OneSwept(s, m, order[0], result, now, c);
        SweptTrans(s, m, t, order[0], order[1..], result, now, c);
      }
    }
  }

  /**
    Repeating a sweep over an unchanged catalogue, in any order over the same collections, changes neither a
    collection's (product, sort_order) rows nor any cached list.
   */
  lemma SweepIsIdempotent(s: State, order: seq<nat>, again: seq<nat>, result: nat -> seq<nat>, now: int)
    requires Valid(s) && Coherent(s) && (forall c :: forall p <- result(c) :: p in s.products)
    requires forall c :: c in again <==> c in order
    ensures var t := Sweep(s, order, result, now);
            var u := Sweep(t, again, result, now);
            && (forall c <- s.collections :: Members(u.rows, c) == Members(t.rows, c))
            && u.cached == t.cached
  {
    var t := Sweep(s, order, result, now);
    var u := Sweep(t, again, result, now);
    SweepEffect(s, order, result, now);
    SweepEffect(t, again, result, now);
    forall c <- s.collections ensures SameFor(t, u, c) { SweptTwice(s, t, u, order, again, result, now, c); }
    SameLists(t, u);
  }

  lemma SweptTwice(s: State, t: State, u: State, order: seq<nat>, again: seq<nat>, result: nat -> seq<nat>, now: int,
                   c: nat)
    requires c in s.collections && SameCollections(s, t) && SameCollections(t, u) && (c in again <==> c in order)
    requires Swept(s, t, order, result, now, c) && Swept(t, u, again, result, now, c)
    ensures SameFor(t, u, c)
  {
    assert t.collections[c] == s.collections[c].(lastRefreshedAt := t.collections[c].lastRefreshedAt);
    assert u.collections[c] == t.collections[c].(lastRefreshedAt := u.collections[c].lastRefreshedAt);
  }

  ghost predicate SameEverywhere(t: State, u: State) {
    t.collections.Keys == u.collections.Keys && forall c <- t.collections :: SameFor(t, u, c)
  }

  lemma SameLists(t: State, u: State)
    requires Coherent(t) && Coherent(u) && SameEverywhere(t, u)
    ensures u.cached == t.cached
  {
    forall slug <- t.cached ensures slug in u.cached && u.cached[slug] == t.cached[slug] { KeptList(t, u, slug); }
    forall slug <- u.cached ensures slug in t.cached { NoNewList(t, u, slug); }
    SameEntries(t.cached, u.cached);
  }

  lemma SameEntries(a: Cache, b: Cache)
    requires forall slug <- a :: slug in b && b[slug] == a[slug]
    requires forall slug <- b :: slug in a
    ensures a == b
  {
  }

  lemma KeptList(t: State, u: State, slug: string)
    requires Coherent(t) && slug in t.cached && SameEverywhere(t, u)
    ensures slug in u.cached && u.cached[slug] == t.cached[slug]
  {
    var c :| c in t.collections && t.collections[c].slug == slug;
    assert SameFor(t, u, c);
  }

  lemma NoNewList(t: State, u: State, slug: string)
    requires Coherent(u) && slug in u.cached && SameEverywhere(t, u)
    ensures slug in t.cached
  {
    var c :| c in u.collections && u.collections[c].slug == slug;
    assert SameFor(t, u, c);
  }

  ghost predicate SameFor(t: State, u: State, c: nat) {
    && c in t.collections && c in u.collections && u.collections[c].slug == t.collections[c].slug
    && Members(u.rows, c) == Members(t.rows, c)
    && var slug := t.collections[c].slug;
       (slug in u.cached <==> slug in t.cached) && (slug in t.cached ==> u.cached[slug] == t.cached[slug])
  }
}

/**
  Collections, their membership rows, and the cached product id list of each collection, over any sequential
  history. The list is dropped before a row changes and stored again only by the smart refresh.
 */
module CollectionCache {
  import opened Options
  import opened Ordering

  datatype Collection = Collection(slug: string, smart: bool, rule: string, isActive: bool,
                                   startsAt: Option<int>, endsAt: Option<int>, lastRefreshedAt: Option<int>)

  datatype Row = Row(collection: nat, product: nat, sortOrder: nat)

  type Rows = map<nat, Row>

  type Cache = map<string, seq<nat>>

  datatype State = State(collections: map<nat, Collection>, rows: Rows, products: set<nat>, nextPk: nat, cached: Cache)

  /** Foreign keys point at rows, slugs are unique, and primary keys below `nextPk` have been handed out. */
  ghost predicate Valid(s: State) {
    && (forall k <- s.rows :: k < s.nextPk && s.rows[k].collection in s.collections && s.rows[k].product in s.products)
    && (forall a <- s.collections, b <- s.collections :: s.collections[a].slug == s.collections[b].slug ==> a == b)
  }

  /******* Display order *******/

  datatype Position = Position(sortOrder: nat, pk: nat)

  /** `ORDER BY sort_order, pk`. */
  predicate Before(a: Position, b: Position) {
    a.sortOrder < b.sortOrder || (a.sortOrder == b.sortOrder && a.pk < b.pk)
  }

  function Positions(rows: Rows, c: nat): set<Position> {
    set k <- rows | rows[k].collection == c :: Position(rows[k].sortOrder, k)
  }

  datatype Member = Member(product: nat, sortOrder: nat)

  function MemberAt(rows: Rows, p: Position): Member {
    if p.pk in rows then Member(rows[p.pk].product, rows[p.pk].sortOrder) else Member(0, 0)
  }

  /** The collection's rows in display order, without their primary keys. */
  function Members(rows: Rows, c: nat): seq<Member> { Arranged(rows, Sort(Positions(rows, c), Before)) }

  function Arranged(rows: Rows, order: seq<Position>): seq<Member> {
    seq(|order|, i requires 0 <= i < |order| => MemberAt(rows, order[i]))
  }

  function Products(members: seq<Member>): seq<nat> {
    seq(|members|, i requires 0 <= i < |members| => members[i].product)
  }

  /** The membership rows' product ids in display order: what the cached list stands for. */
  function Listing(rows: Rows, c: nat): seq<nat> { Products(Members(rows, c)) }

  /** `get_collection_product_pks`. */
  function Answer(s: State, c: nat): seq<nat>
    requires c in s.collections
  {
    var slug := s.collections[c].slug;
    if slug in s.cached then s.cached[slug] else Listing(s.rows, c)
  }

  lemma MembersDependOnOwnRows(rows: Rows, rows': Rows, c: nat)
    requires forall k <- rows :: rows[k].collection == c ==> k in rows' && rows'[k] == rows[k]
    requires forall k <- rows' :: rows'[k].collection == c ==> k in rows && rows[k] == rows'[k]
    ensures Members(rows', c) == Members(rows, c)
  {
    assert Positions(rows', c) == Positions(rows, c);
    ArrangedAlike(rows, rows', Sort(Positions(rows, c), Before));
  }

  lemma ArrangedAlike(rows: Rows, rows': Rows, order: seq<Position>)
    requires forall p <- order :: MemberAt(rows', p) == MemberAt(rows, p)
    ensures Arranged(rows', order) == Arranged(rows, order)
  {
  }

  lemma MembersCount(rows: Rows, c: nat)
    ensures |Listing(rows, c)| == |Positions(rows, c)|
  {
  }

  /******* Events *******/

  /** `_active_window`. */
  predicate InWindow(c: Collection, now: int) {
    c.isActive && (c.startsAt.Some? ==> c.startsAt.value <= now) && (c.endsAt.Some? ==> now <= c.endsAt.value)
  }

  predicate Refreshable(c: Collection, now: int) { c.smart && InWindow(c, now) }

  /** `bulk_create`: the rule result as rows 0, 1, 2, ... under fresh primary keys. */
  function Inserted(c: nat, result: seq<nat>, nextPk: nat): (rows: Rows)
    ensures forall k :: k in rows <==> nextPk <= k < nextPk + |result|
    ensures forall k <- rows :: rows[k] == Row(c, result[k - nextPk], k - nextPk)
  {
    if result == [] then map[]
    else
      var n := |result| - 1;
      Inserted(c, result[..n], nextPk)[nextPk + n := Row(c, result[n], n)]
  }

  /** The rows after a refresh: the collection's old ones gone, the rule result in their place. */
  function RefreshedRows(rows: Rows, c: nat, result: seq<nat>, nextPk: nat): Rows {
    (map k <- rows | rows[k].collection != c :: rows[k]) + Inserted(c, result, nextPk)
  }

  predicate Distinct(s: seq<nat>) { forall i, j :: 0 <= i < j < |s| ==> s[i] != s[j] }

  /** `refresh_smart_collection`, with the rule's current result and the current instant. */
  function Refreshed(s: State, c: nat, result: seq<nat>, now: int): State
    requires c in s.collections
  {
    var it := s.collections[c];
    if !Refreshable(it, now) then s
    else s.(collections := s.collections[c := it.(lastRefreshedAt := Some(now))],
            rows := RefreshedRows(s.rows, c, result, s.nextPk),
            nextPk := s.nextPk + |result|,
            cached := (s.cached - {it.slug})[it.slug := result])
  }

  datatype Event =
    | CreateCollection(pk: nat, collection: Collection, explicitPk: bool)
    | UpdateCollection(pk: nat, collection: Collection)
    | DeleteCollection(pk: nat)
    | AddProduct(product: nat)
    | DeleteProduct(product: nat)
    | AddMember(row: Row)
    | UpdateMember(pk: nat, row: Row)
    | RemoveMember(pk: nat)
    | Refresh(pk: nat, result: seq<nat>, now: int)
    | Expire(slug: string)

  predicate SlugFree(s: State, pk: nat, slug: string) {
    forall c <- s.collections :: c != pk ==> s.collections[c].slug != slug
  }

  /** No other row lists the product in the collection. */
  predicate PairFree(rows: Rows, pk: nat, row: Row) {
    forall k <- rows :: k != pk && rows[k].collection == row.collection ==> rows[k].product != row.product
  }

  function OwnerSlugs(s: State, product: nat): set<string> {
    set k <- s.rows | s.rows[k].product == product && s.rows[k].collection in s.collections ::
      s.collections[s.rows[k].collection].slug
  }

  /** A membership row written at `pk`: only the collection it now names is invalidated. */
  function MemberSaved(s: State, pk: nat, row: Row): State
    requires row.collection in s.collections
  {
    s.(rows := s.rows[pk := row], nextPk := if s.nextPk <= pk then pk + 1 else s.nextPk,
       cached := s.cached - {s.collections[row.collection].slug})
  }

  /** One event: the cache deletions of its `pre_save` or `pre_delete` handlers, and the write. */
  function Step(s: State, e: Event): State {
    match e
    case CreateCollection(pk, c, explicitPk) =>
      if pk in s.collections || !SlugFree(s, pk, c.slug) then s
      else s.(collections := s.collections[pk := c], cached := if explicitPk then s.cached else s.cached - {c.slug})
    case UpdateCollection(pk, c) =>
      if pk !in s.collections || !SlugFree(s, pk, c.slug) then s
      else s.(collections := s.collections[pk := c], cached := s.cached - {s.collections[pk].slug} - {c.slug})
    case DeleteCollection(pk) =>
      if pk !in s.collections then s
      else s.(collections := s.collections - {pk}, rows := map k <- s.rows | s.rows[k].collection != pk :: s.rows[k],
              cached := s.cached - {s.collections[pk].slug})
    case AddProduct(product) => s.(products := s.products + {product})
    case DeleteProduct(product) =>
      s.(products := s.products - {product}, rows := map k <- s.rows | s.rows[k].product != product :: s.rows[k],
         cached := s.cached - OwnerSlugs(s, product))
    case AddMember(row) =>
      if row.collection !in s.collections || row.product !in s.products || !PairFree(s.rows, s.nextPk, row) then s
      else MemberSaved(s, s.nextPk, row)
    case UpdateMember(pk, row) =>
      if pk !in s.rows || row.collection !in s.collections || row.product !in s.products || !PairFree(s.rows, pk, row)
      then s
      else MemberSaved(s, pk, row)
    case RemoveMember(pk) =>
      if pk !in s.rows || s.rows[pk].collection !in s.collections then s
      else s.(rows := s.rows - {pk}, cached := s.cached - {s.collections[s.rows[pk].collection].slug})
    case Refresh(pk, result, now) =>
      if pk !in s.collections || !Distinct(result) || !(forall p <- result :: p in s.products) then s
      else Refreshed(s, pk, result, now)
    case Expire(slug) => s.(cached := s.cached - {slug})
  }

  function Run(s: State, events: seq<Event>): State
    decreases |events|
  {
    if events == [] then s else Run(Step(s, events[0]), events[1..])
  }

  const EMPTY := State(map[], map[], {}, 0, map[])

  /******* The refresh *******/

  /** Positions 0, 1, ..., n-1 with consecutive primary keys. */
  function Numbered(n: nat, nextPk: nat): seq<Position> {
    seq(n, i requires 0 <= i < n => Position(i, nextPk + i))
  }

  lemma RefreshedPositions(rows: Rows, c: nat, result: seq<nat>, nextPk: nat)
    requires forall k <- rows :: k < nextPk
    ensures Sort(Positions(RefreshedRows(rows, c, result, nextPk), c), Before) == Numbered(|result|, nextPk)
  {
    var rows', order := RefreshedRows(rows, c, result, nextPk), Numbered(|result|, nextPk);
    forall p <- order ensures p in Positions(rows', c) {
      assert rows'[p.pk] == Row(c, result[p.pk - nextPk], p.pk - nextPk);
    }
    forall p <- Positions(rows', c) ensures p in order {
      var k :| k in rows' && rows'[k].collection == c && p == Position(rows'[k].sortOrder, k);
      assert nextPk <= k < nextPk + |result| && rows'[k] == Row(c, result[k - nextPk], k - nextPk);
      assert order[k - nextPk] == p;
    }
    SortUnique(Sort(Positions(rows', c), Before), order, Before);
  }

  function Enumerated(result: seq<nat>): seq<Member> {
    seq(|result|, i requires 0 <= i < |result| => Member(result[i], i))
  }

  ghost predicate FilledAt(rows: Rows, c: nat, result: seq<nat>, nextPk: nat, i: nat)
    requires i < |result|
  {
    nextPk + i in rows && rows[nextPk + i] == Row(c, result[i], i)
  }

  lemma FilledMembers(rows: Rows, c: nat, result: seq<nat>, nextPk: nat)
    requires forall i :: 0 <= i < |result| ==> FilledAt(rows, c, result, nextPk, i)
    ensures Arranged(rows, Numbered(|result|, nextPk)) == Enumerated(result)
  {
    var order := Numbered(|result|, nextPk);
    forall i | 0 <= i < |result| ensures MemberAt(rows, order[i]) == Enumerated(result)[i] {
      assert FilledAt(rows, c, result, nextPk, i);
    }
  }

  lemma RefreshedFilled(rows: Rows, c: nat, result: seq<nat>, nextPk: nat, i: nat)
    requires i < |result|
    ensures FilledAt(RefreshedRows(rows, c, result, nextPk), c, result, nextPk, i)
  {
    assert nextPk + i in Inserted(c, result, nextPk);
  }

  lemma RefreshedMembers(rows: Rows, c: nat, result: seq<nat>, nextPk: nat)
    requires forall k <- rows :: k < nextPk
    ensures Members(RefreshedRows(rows, c, result, nextPk), c) == Enumerated(result)
  {
    var rows' := RefreshedRows(rows, c, result, nextPk);
    RefreshedPositions(rows, c, result, nextPk);
    forall i | 0 <= i < |result| ensures FilledAt(rows', c, result, nextPk, i) {
      RefreshedFilled(rows, c, result, nextPk, i);
    }
    FilledMembers(rows', c, result, nextPk);
  }

  /**
    A refresh leaves exactly the rule result, numbered from zero, in the collection; other collections keep their
    rows.
   */
  lemma RefreshReplaces(rows: Rows, c: nat, result: seq<nat>, nextPk: nat)
    requires forall k <- rows :: k < nextPk
    ensures var rows' := RefreshedRows(rows, c, result, nextPk);
            && Members(rows', c) == Enumerated(result) && Listing(rows', c) == result
            && forall d :: d != c ==> Members(rows', d) == Members(rows, d)
  {
    var rows' := RefreshedRows(rows, c, result, nextPk);
    RefreshedMembers(rows, c, result, nextPk);
    assert Products(Enumerated(result)) == result;
    forall d | d != c ensures Members(rows', d) == Members(rows, d) { OthersKeepMembers(rows, c, result, nextPk, d); }
  }

  lemma OthersKeepMembers(rows: Rows, c: nat, result: seq<nat>, nextPk: nat, d: nat)
    requires (forall k <- rows :: k < nextPk) && d != c
    ensures Members(RefreshedRows(rows, c, result, nextPk), d) == Members(rows, d)
  {
    MembersDependOnOwnRows(rows, RefreshedRows(rows, c, result, nextPk), d);
  }

  /******* Coherence *******/

  /** Each cached list is the current listing of the collection whose slug it is under; none outlives its collection. */
  ghost predicate Coherent(s: State) {
    && (forall c <- s.collections ::
          s.collections[c].slug in s.cached ==> s.cached[s.collections[c].slug] == Listing(s.rows, c))
    && (forall slug <- s.cached :: exists c :: c in s.collections && s.collections[c].slug == slug)
  }

  lemma StepValid(s: State, e: Event)
    requires Valid(s)
    ensures Valid(Step(s, e))
  {
  }

  /** Collection `c` keeps its slug and rows. */
  ghost predicate Undisturbed(s: State, t: State, c: nat) {
    && c in s.collections && c in t.collections && s.collections[c].slug == t.collections[c].slug
    && (forall k <- s.rows :: s.rows[k].collection == c ==> k in t.rows && t.rows[k] == s.rows[k])
    && (forall k <- t.rows :: t.rows[k].collection == c ==> k in s.rows && s.rows[k] == t.rows[k])
  }

  /** Entries only disappear, and those that stay belong to undisturbed collections. */
  ghost predicate Invalidates(s: State, t: State) {
    && (forall slug <- t.cached :: slug in s.cached && t.cached[slug] == s.cached[slug])
    && (forall slug <- t.cached :: forall c <- s.collections :: s.collections[c].slug == slug ==> Undisturbed(s, t, c))
  }

  lemma InvalidatesCoherent(s: State, t: State)
    requires Valid(s) && Valid(t) && Coherent(s) && Invalidates(s, t)
    ensures Coherent(t)
  {
    forall slug <- t.cached
      ensures exists c :: c in t.collections && t.collections[c].slug == slug
    {
      var c :| c in s.collections && s.collections[c].slug == slug;
      assert Undisturbed(s, t, c);
    }
    forall c <- t.collections | t.collections[c].slug in t.cached
      ensures t.cached[t.collections[c].slug] == Listing(t.rows, c)
    {
      var d :| d in s.collections && s.collections[d].slug == t.collections[c].slug;
      assert Undisturbed(s, t, d) && d == c;
      MembersDependOnOwnRows(s.rows, t.rows, c);
    }
  }

  lemma SameRowsInvalidate(s: State, t: State)
    requires t.rows == s.rows
    requires forall slug <- t.cached :: slug in s.cached && t.cached[slug] == s.cached[slug]
    requires forall c <- s.collections | s.collections[c].slug in t.cached ::
               c in t.collections && t.collections[c].slug == s.collections[c].slug
    ensures Invalidates(s, t)
  {
    forall c <- s.collections | s.collections[c].slug in t.cached ensures Undisturbed(s, t, c) {}
  }

  lemma DeleteCollectionInvalidates(s: State, pk: nat)
    requires Valid(s) && pk in s.collections
    ensures Invalidates(s, Step(s, DeleteCollection(pk)))
  {
    var t := Step(s, DeleteCollection(pk));
    forall c <- s.collections | s.collections[c].slug in t.cached ensures Undisturbed(s, t, c) { assert c != pk; }
  }

  lemma CollectionWriteInvalidates(s: State, e: Event)
    requires Valid(s) && Step(s, e) != s && (e.CreateCollection? || e.UpdateCollection? || e.DeleteCollection?)
    ensures Invalidates(s, Step(s, e))
  {
    if e.DeleteCollection? {
      DeleteCollectionInvalidates(s, e.pk);
    } else {
      SameRowsInvalidate(s, Step(s, e));
    }
  }

  lemma MemberSavedInvalidates(s: State, pk: nat, row: Row)
    requires Valid(s) && Coherent(s) && row.collection in s.collections
    requires pk in s.rows ==> s.rows[pk].collection == row.collection
    ensures Invalidates(s, MemberSaved(s, pk, row))
  {
    var t := MemberSaved(s, pk, row);
    forall c <- s.collections | s.collections[c].slug in t.cached ensures Undisturbed(s, t, c) {
      assert c != row.collection;
    }
  }

  lemma RemoveMemberInvalidates(s: State, pk: nat)
    requires Valid(s) && pk in s.rows
    ensures Invalidates(s, Step(s, RemoveMember(pk)))
  {
    var t := Step(s, RemoveMember(pk));
    forall c <- s.collections | s.collections[c].slug in t.cached ensures Undisturbed(s, t, c) {
      assert s.rows[pk].collection != c;
    }
  }

  lemma OwnsSlug(s: State, k: nat)
    requires Valid(s) && k in s.rows
    ensures s.collections[s.rows[k].collection].slug in OwnerSlugs(s, s.rows[k].product)
  {
  }

  lemma DeleteProductInvalidates(s: State, product: nat)
    requires Valid(s)
    ensures Invalidates(s, Step(s, DeleteProduct(product)))
  {
    var t := Step(s, DeleteProduct(product));
    forall c <- s.collections | s.collections[c].slug in t.cached ensures Undisturbed(s, t, c) {
      forall k <- s.rows | s.rows[k].collection == c ensures k in t.rows && t.rows[k] == s.rows[k] {
        OwnsSlug(s, k);
      }
    }
  }

  /**
    The row handler sees only the collection the row now names. A row moved to another collection leaves every
    cached list right exactly when the collection it left had none cached.
   */
  lemma MoveCoherentExactlyWhenOldUncached(s: State, pk: nat, row: Row)
    requires Valid(s) && Coherent(s) && pk in s.rows && s.rows[pk].collection != row.collection
    requires row.collection in s.collections && row.product in s.products
    ensures Coherent(MemberSaved(s, pk, row)) <==> s.collections[s.rows[pk].collection].slug !in s.cached
  {
    if s.collections[s.rows[pk].collection].slug in s.cached {
      MoveStale(s, pk, row);
    } else {
      MoveInvalidates(s, pk, row);
      InvalidatesCoherent(s, MemberSaved(s, pk, row));
    }
  }

  lemma MoveInvalidates(s: State, pk: nat, row: Row)
    requires Valid(s) && pk in s.rows && row.collection in s.collections
    requires s.collections[s.rows[pk].collection].slug !in s.cached
    ensures Invalidates(s, MemberSaved(s, pk, row))
  {
    var t := MemberSaved(s, pk, row);
    forall c <- s.collections | s.collections[c].slug in t.cached ensures Undisturbed(s, t, c) {
      assert c != s.rows[pk].collection && c != row.collection;
    }
  }

  lemma MoveStale(s: State, pk: nat, row: Row)
    requires Valid(s) && Coherent(s) && pk in s.rows && row.collection in s.collections
    requires s.rows[pk].collection != row.collection
    requires s.collections[s.rows[pk].collection].slug in s.cached
    ensures !Coherent(MemberSaved(s, pk, row))
  {
    var from := s.rows[pk].collection;
    var t := s.(rows := s.rows[pk := row]);
    MovedOut(s.rows, pk, row);
    MembersCount(s.rows, from);
    MembersCount(t.rows, from);
    assert s.cached[s.collections[from].slug] != Listing(t.rows, from);
    assert s.collections[from].slug != s.collections[row.collection].slug;
  }

  lemma MovedOut(rows: Rows, pk: nat, row: Row)
    requires pk in rows && row.collection != rows[pk].collection
    ensures |Positions(rows[pk := row], rows[pk].collection)| == |Positions(rows, rows[pk].collection)| - 1
  {
    var from, previous := rows[pk].collection, Position(rows[pk].sortOrder, pk);
    var before, after := Positions(rows, from), Positions(rows[pk := row], from);
    forall p ensures p in after <==> p in before && p != previous {
      if p in before && p != previous { assert p.pk in rows[pk := row] && rows[pk := row][p.pk] == rows[p.pk]; }
      if p in after { assert p.pk in rows && rows[p.pk] == rows[pk := row][p.pk]; }
    }
    assert previous in before;
    assert after == before - {previous};
  }

  /** The save puts an existing row into another collection. */
  predicate Moves(s: State, pk: nat, row: Row) {
    && pk in s.rows && s.rows[pk].collection != row.collection
    && row.collection in s.collections && row.product in s.products && PairFree(s.rows, pk, row)
  }

  /** What must hold for an event to leave every cached list right: a row leaves only a collection without one. */
  predicate Harmless(s: State, e: Event)
    requires Valid(s)
  {
    e.UpdateMember? && Moves(s, e.pk, e.row) ==> s.collections[s.rows[e.pk].collection].slug !in s.cached
  }

  lemma WriteCoherent(s: State, e: Event)
    requires Valid(s) && Coherent(s) && !e.Refresh? && !(e.UpdateMember? && Moves(s, e.pk, e.row))
    ensures Coherent(Step(s, e))
  {
    var t := Step(s, e);
    StepValid(s, e);
    if t != s {
      match e
      case CreateCollection(_, _, _) => CollectionWriteInvalidates(s, e); InvalidatesCoherent(s, t);
      case UpdateCollection(_, _) => CollectionWriteInvalidates(s, e); InvalidatesCoherent(s, t);
      case DeleteCollection(_) => CollectionWriteInvalidates(s, e); InvalidatesCoherent(s, t);
      case AddMember(row) => MemberSavedInvalidates(s, s.nextPk, row); InvalidatesCoherent(s, t);
      case UpdateMember(pk, row) => MemberSavedInvalidates(s, pk, row); InvalidatesCoherent(s, t);
      case RemoveMember(pk) => RemoveMemberInvalidates(s, pk); InvalidatesCoherent(s, t);
      case DeleteProduct(product) => DeleteProductInvalidates(s, product); InvalidatesCoherent(s, t);
      case AddProduct(_) =>
      case Expire(_) =>
    }
  }

  lemma RefreshedCoherent(s: State, c: nat, result: seq<nat>, now: int)
    requires Valid(s) && Coherent(s) && c in s.collections
    ensures Coherent(Refreshed(s, c, result, now))
  {
    var t := Refreshed(s, c, result, now);
    if Refreshable(s.collections[c], now) {
      RefreshReplaces(s.rows, c, result, s.nextPk);
      forall d <- t.collections | t.collections[d].slug in t.cached
        ensures t.cached[t.collections[d].slug] == Listing(t.rows, d)
      {
        if d != c { assert s.collections[d].slug in s.cached; }
      }
      forall slug <- t.cached ensures exists d :: d in t.collections && t.collections[d].slug == slug {
        if slug == s.collections[c].slug {
          assert t.collections[c].slug == slug;
        } else {
          var d :| d in s.collections && s.collections[d].slug == slug;
          assert t.collections[d].slug == slug;
        }
      }
    }
  }

  lemma MoveIsStep(s: State, pk: nat, row: Row)
    requires Valid(s) && Moves(s, pk, row)
    ensures Step(s, UpdateMember(pk, row)) == MemberSaved(s, pk, row)
  {
  }

  /** An event keeps every cached list right exactly when it is harmless. */
  lemma StepCoherentExactlyWhenHarmless(s: State, e: Event)
    requires Valid(s) && Coherent(s)
    ensures Coherent(Step(s, e)) <==> Harmless(s, e)
  {
    if e.UpdateMember? && Moves(s, e.pk, e.row) {
      MoveIsStep(s, e.pk, e.row);
      MoveCoherentExactlyWhenOldUncached(s, e.pk, e.row);
    } else if !e.Refresh? {
      WriteCoherent(s, e);
    } else if e.pk in s.collections {
      RefreshedCoherent(s, e.pk, e.result, e.now);
    }
  }

  /** No event of the run moves a row out of a collection with a cached list. */
  ghost predicate HarmlessRun(s: State, events: seq<Event>)
    requires Valid(s)
    decreases |events|
  {
    if events == [] then true
    else
      StepValid(s, events[0]);
      Harmless(s, events[0]) && HarmlessRun(Step(s, events[0]), events[1..])
  }

  lemma {:induction false} RunCoherent(s: State, events: seq<Event>)
    requires Valid(s) && Coherent(s) && HarmlessRun(s, events)
    ensures Valid(Run(s, events)) && Coherent(Run(s, events))
    decreases |events|
  {
    if events != [] {
      StepValid(s, events[0]);
      StepCoherentExactlyWhenHarmless(s, events[0]);
      RunCoherent(Step(s, events[0]), events[1..]);
    }
  }

  /**
    After any history of harmless events, every read answers the membership rows in display order, and no cached list
    is orphaned.
   */
  lemma CacheIsInvisible(events: seq<Event>)
    requires HarmlessRun(EMPTY, events)
    ensures var s := Run(EMPTY, events);
            && (forall c <- s.collections :: Answer(s, c) == Listing(s.rows, c))
            && (forall slug <- s.cached :: exists c :: c in s.collections && s.collections[c].slug == slug)
  {
    RunCoherent(EMPTY, events);
  }

  /******* No product twice *******/

  ghost predicate PairsUnique(rows: Rows) {
    forall j <- rows, k <- rows ::
      rows[j].collection == rows[k].collection && rows[j].product == rows[k].product ==> j == k
  }

  lemma RefreshedPairs(rows: Rows, c: nat, result: seq<nat>, nextPk: nat)
    requires PairsUnique(rows) && Distinct(result)
    ensures PairsUnique(RefreshedRows(rows, c, result, nextPk))
  {
    var rows' := RefreshedRows(rows, c, result, nextPk);
    forall j <- rows', k <- rows' | rows'[j].collection == rows'[k].collection && rows'[j].product == rows'[k].product
      ensures j == k
    {
      if rows'[j].collection == c {
        assert rows'[j].product == result[j - nextPk] && rows'[k].product == result[k - nextPk];
      }
    }
  }

  ghost predicate ListsDistinct(cached: Cache) { forall slug <- cached :: Distinct(cached[slug]) }

  lemma StepPairs(s: State, e: Event)
    requires PairsUnique(s.rows) && ListsDistinct(s.cached)
    ensures PairsUnique(Step(s, e).rows) && ListsDistinct(Step(s, e).cached)
  {
    if e.Refresh? && e.pk in s.collections && Distinct(e.result) {
      RefreshedPairs(s.rows, e.pk, e.result, s.nextPk);
    }
  }

  lemma {:induction false} RunPairs(s: State, events: seq<Event>)
    requires PairsUnique(s.rows) && ListsDistinct(s.cached)
    ensures PairsUnique(Run(s, events).rows) && ListsDistinct(Run(s, events).cached)
    decreases |events|
  {
    if events != [] {
      StepPairs(s, events[0]);
      RunPairs(Step(s, events[0]), events[1..]);
    }
  }

  lemma ListingDistinct(rows: Rows, c: nat)
    requires PairsUnique(rows)
    ensures Distinct(Listing(rows, c))
  {
    var order := Sort(Positions(rows, c), Before);
    forall i, j | 0 <= i < j < |order| ensures Listing(rows, c)[i] != Listing(rows, c)[j] {
      assert order[i] in order && order[j] in order;
      assert Before(order[i], order[j]);
    }
  }

  /** After any history, no collection lists a product twice. */
  lemma NoProductTwice(events: seq<Event>, c: nat)
    requires c in Run(EMPTY, events).collections
    ensures Distinct(Answer(Run(EMPTY, events), c))
  {
    RunPairs(EMPTY, events);
    ListingDistinct(Run(EMPTY, events).rows, c);
  }

  /******* A move that goes wrong *******/

  function Smart(slug: string): Collection { Collection(slug, true, "", true, None, None, None) }

  /** Two collections and a product; the first, refreshed, lists it. */
  function OneListed(a: string, b: string): seq<Event> {
    [CreateCollection(1, Smart(a), false), CreateCollection(2, Smart(b), false), AddProduct(5), Refresh(1, [5], 0)]
  }

  lemma {:induction false} RunCons(s: State, e: Event, rest: seq<Event>)
    ensures Run(s, [e] + rest) == Run(Step(s, e), rest)
  {
    assert ([e] + rest)[1..] == rest;
  }

  lemma TablesFilled(a: string, b: string)
    requires a != b
    ensures var s := Step(EMPTY, CreateCollection(1, Smart(a), false));
            Step(Step(s, CreateCollection(2, Smart(b), false)), AddProduct(5))
            == State(map[1 := Smart(a), 2 := Smart(b)], map[], {5}, 0, map[])
  {
    var s := State(map[1 := Smart(a)], map[], {}, 0, map[]);
    assert Step(EMPTY, CreateCollection(1, Smart(a), false)) == s;
    assert Step(s, CreateCollection(2, Smart(b), false))
        == State(map[1 := Smart(a), 2 := Smart(b)], map[], {}, 0, map[]);
  }

  lemma OneRefreshed(a: string, b: string)
    requires a != b
    ensures var s := State(map[1 := Smart(a), 2 := Smart(b)], map[], {5}, 0, map[]);
            var t := Step(s, Refresh(1, [5], 0));
            && t.collections.Keys == {1, 2} && t.collections[1].slug == a && t.collections[2].slug == b
            && t.rows == map[0 := Row(1, 5, 0)] && t.products == {5} && t.cached == map[a := [5]]
  {
    var result: seq<nat> := [5];
    assert Inserted(1, result[..0], 0) == map[];
    assert Inserted(1, result, 0) == map[0 := Row(1, 5, 0)];
  }

  lemma OneListedRuns(a: string, b: string)
    requires a != b
    ensures var t := Run(EMPTY, OneListed(a, b));
            && Valid(t) && Coherent(t)
            && t.collections.Keys == {1, 2} && t.collections[1].slug == a && t.collections[2].slug == b
            && t.rows == map[0 := Row(1, 5, 0)] && t.products == {5} && t.cached == map[a := [5]]
  {
    var e1, e2 := CreateCollection(1, Smart(a), false), CreateCollection(2, Smart(b), false);
    var e3, e4 := AddProduct(5), Refresh(1, [5], 0);
    assert OneListed(a, b) == [e1] + ([e2] + ([e3] + ([e4] + [])));
    RunCons(EMPTY, e1, [e2] + ([e3] + ([e4] + [])));
    RunCons(Step(EMPTY, e1), e2, [e3] + ([e4] + []));
    RunCons(Step(Step(EMPTY, e1), e2), e3, [e4] + []);
    TablesFilled(a, b);
    RunCons(State(map[1 := Smart(a), 2 := Smart(b)], map[], {5}, 0, map[]), e4, []);
    OneRefreshed(a, b);
    OneListedHarmless(a, b);
    RunCoherent(EMPTY, OneListed(a, b));
  }

  lemma OneListedHarmless(a: string, b: string)
    ensures HarmlessRun(EMPTY, OneListed(a, b))
  {
    NoUpdatesHarmless(EMPTY, OneListed(a, b));
  }

  lemma {:induction false} NoUpdatesHarmless(s: State, events: seq<Event>)
    requires Valid(s) && forall e <- events :: !e.UpdateMember?
    ensures HarmlessRun(s, events)
    decreases |events|
  {
    if events != [] {
      StepValid(s, events[0]);
      NoUpdatesHarmless(Step(s, events[0]), events[1..]);
    }
  }

  /** Its row is moved to the second collection; the first still lists the product, but has no row. */
  lemma MovedRowLeavesStaleList(a: string, b: string)
    requires a != b
    ensures var t := Step(Run(EMPTY, OneListed(a, b)), UpdateMember(0, Row(2, 5, 0)));
            1 in t.collections && Answer(t, 1) == [5] && Listing(t.rows, 1) == []
  {
    OneListedRuns(a, b);
    var t := Step(Run(EMPTY, OneListed(a, b)), UpdateMember(0, Row(2, 5, 0)));
    assert Positions(t.rows, 1) == {};
    MembersCount(t.rows, 1);
  }
}

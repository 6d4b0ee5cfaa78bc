/**
  The collection tables behind the cached lists: what each event does to the rows, and what the listing of a collection
  is before and after a row is added, moved or removed.
 */
module CollectionRows {
  import opened Options
  import opened Ordering
  import opened CollectionCache

  /******* The display order *******/

  /** The collection's row keys by display position, ties by key. */
  ghost predicate KeysInOrder(rows: Rows, c: nat, pks: seq<nat>) {
    && (forall k :: k in pks <==> k in rows && rows[k].collection == c)
    && forall i, j :: 0 <= i < j < |pks| ==> InOrder(rows, pks[i], pks[j])
  }

  ghost predicate InOrder(rows: Rows, j: nat, k: nat) {
    && j in rows && k in rows
    && (rows[j].sortOrder < rows[k].sortOrder || (rows[j].sortOrder == rows[k].sortOrder && j < k))
  }

  ghost predicate MemberOf(rows: Rows, k: nat, member: Member) {
    k in rows && member.product == rows[k].product && member.sortOrder == rows[k].sortOrder
  }

  function PositionsOf(rows: Rows, pks: seq<nat>): seq<Position>
    requires forall k <- pks :: k in rows
  {
    seq(|pks|, i requires 0 <= i < |pks| => assert pks[i] in pks; Position(rows[pks[i]].sortOrder, pks[i]))
  }

  /** The members of a collection, and so its listing, are its rows in display order. */
  lemma MembersInOrder(rows: Rows, c: nat, pks: seq<nat>)
    requires KeysInOrder(rows, c, pks)
    ensures |Members(rows, c)| == |Listing(rows, c)| == |pks|
    ensures forall i :: 0 <= i < |pks| ==>
              MemberOf(rows, pks[i], Members(rows, c)[i]) && Listing(rows, c)[i] == rows[pks[i]].product
  {
    var order := PositionsOf(rows, pks);
    forall p ensures p in order <==> p in Positions(rows, c) {
      if p in Positions(rows, c) {
        var i :| 0 <= i < |pks| && pks[i] == p.pk;
        assert order[i] == p;
      }
      if p in order {
        var i :| 0 <= i < |order| && order[i] == p;
        assert pks[i] in pks;
      }
    }
    forall i, j | 0 <= i < j < |order| ensures Before(order[i], order[j]) { assert InOrder(rows, pks[i], pks[j]); }
    SortUnique(Sort(Positions(rows, c), Before), order, Before);
    forall i | 0 <= i < |pks| ensures MemberOf(rows, pks[i], Members(rows, c)[i]) { assert pks[i] in pks; }
  }

  lemma KeysExist(rows: Rows, c: nat) returns (pks: seq<nat>)
    ensures KeysInOrder(rows, c, pks)
  {
    var order := Sort(Positions(rows, c), Before);
    pks := seq(|order|, i requires 0 <= i < |order| => order[i].pk);
    forall i | 0 <= i < |order|
      ensures order[i].pk in rows && rows[order[i].pk] == rows[order[i].pk].(collection := c)
              && order[i].sortOrder == rows[order[i].pk].sortOrder
    {
      assert order[i] in order;
    }
    forall k | k in rows && rows[k].collection == c ensures k in pks {
      assert Position(rows[k].sortOrder, k) in order;
      var i :| 0 <= i < |order| && order[i] == Position(rows[k].sortOrder, k);
      assert pks[i] == k;
    }
    forall i, j | 0 <= i < j < |pks| ensures InOrder(rows, pks[i], pks[j]) { assert Before(order[i], order[j]); }
  }

  /******* Added and removed rows *******/

  function Inserted<T>(s: seq<T>, i: nat, x: T): seq<T>
    requires i <= |s|
  {
    s[..i] + [x] + s[i..]
  }

  function Without<T>(s: seq<T>, i: nat): seq<T>
    requires i < |s|
  {
    s[..i] + s[i + 1..]
  }

  /** The first listed row that `pk` comes before. */
  lemma {:induction false} PlaceOf(rows: Rows, c: nat, pks: seq<nat>, pk: nat) returns (i: nat)
    requires pk in rows && KeysInOrder(rows - {pk}, c, pks)
    ensures i <= |pks| && (forall j :: 0 <= j < i ==> InOrder(rows, pks[j], pk))
    ensures forall j :: i <= j < |pks| ==> InOrder(rows, pk, pks[j])
  {
    i := 0;
    while i < |pks| && InOrder(rows, pks[i], pk)
      invariant i <= |pks| && forall j :: 0 <= j < i ==> InOrder(rows, pks[j], pk)
    {
      i := i + 1;
    }
    forall j | i <= j < |pks| ensures InOrder(rows, pk, pks[j]) {
      assert pks[i] in pks && pks[j] in pks;
      if i < j { assert InOrder(rows - {pk}, pks[i], pks[j]); }
    }
  }

  lemma InsertedIs<T>(all: seq<T>, others: seq<T>, i: nat)
    requires |all| == |others| + 1 && i <= |others|
    requires forall j :: 0 <= j < i ==> all[j] == others[j]
    requires forall j :: i <= j < |others| ==> all[j + 1] == others[j]
    ensures all == Inserted(others, i, all[i])
  {
  }

  lemma WithoutInserted<T>(s: seq<T>, i: nat, x: T)
    requires i <= |s|
    ensures Without(Inserted(s, i, x), i) == s
  {
  }

  /** Writing a new row puts its key in its place among the others. */
  lemma RowPlaced(rows: Rows, pk: nat, pks: seq<nat>, i: nat)
    requires pk in rows && KeysInOrder(rows - {pk}, rows[pk].collection, pks)
    requires i <= |pks| && (forall j :: 0 <= j < i ==> InOrder(rows, pks[j], pk))
    requires forall j :: i <= j < |pks| ==> InOrder(rows, pk, pks[j])
    ensures KeysInOrder(rows, rows[pk].collection, Inserted(pks, i, pk))
  {
    var c, all := rows[pk].collection, Inserted(pks, i, pk);
    forall j, k | 0 <= j < k < |all| ensures InOrder(rows, all[j], all[k]) {
      assert all[j] == if j < i then pks[j] else if j == i then pk else pks[j - 1];
      assert all[k] == if k < i then pks[k] else if k == i then pk else pks[k - 1];
      if j != i && k != i {
        assert InOrder(rows - {pk}, if j < i then pks[j] else pks[j - 1], if k < i then pks[k] else pks[k - 1]);
      }
    }
    forall k ensures k in all <==> k in rows && rows[k].collection == c { InInserted(pks, i, pk, k); }
  }

  lemma InInserted<T(!new)>(s: seq<T>, i: nat, x: T, y: T)
    requires i <= |s|
    ensures y in Inserted(s, i, x) <==> y in s || y == x
  {
    if y in s {
      var j :| 0 <= j < |s| && s[j] == y;
      assert if j < i then Inserted(s, i, x)[j] == y else Inserted(s, i, x)[j + 1] == y;
    }
    assert Inserted(s, i, x)[i] == x;
  }

  /** Where a member with the position can be put: behind those of lower, and before those of higher position. */
  ghost predicate Fits(others: seq<Member>, i: nat, sortOrder: nat) {
    && i <= |others|
    && (forall j :: 0 <= j < i ==> others[j].sortOrder <= sortOrder)
    && (forall j :: i <= j < |others| ==> sortOrder <= others[j].sortOrder)
  }

  /** Behind all of its own position, too. */
  ghost predicate FitsLast(others: seq<Member>, i: nat, sortOrder: nat) {
    Fits(others, i, sortOrder) && forall j :: i <= j < |others| ==> sortOrder < others[j].sortOrder
  }

  lemma KeysInserted(rows: Rows, pk: nat) returns (pks: seq<nat>, i: nat)
    requires pk in rows
    ensures var c := rows[pk].collection;
            i <= |pks| && KeysInOrder(rows - {pk}, c, pks) && KeysInOrder(rows, c, Inserted(pks, i, pk))
  {
    pks := KeysExist(rows - {pk}, rows[pk].collection);
    i := PlaceOf(rows, rows[pk].collection, pks, pk);
    RowPlaced(rows, pk, pks, i);
  }

  lemma MemberAtKey(rows: Rows, c: nat, pks: seq<nat>, j: nat)
    requires KeysInOrder(rows, c, pks) && j < |pks|
    ensures |Members(rows, c)| == |pks| && pks[j] in rows
    ensures Members(rows, c)[j] == Member(rows[pks[j]].product, rows[pks[j]].sortOrder)
  {
    MembersInOrder(rows, c, pks);
    assert MemberOf(rows, pks[j], Members(rows, c)[j]);
  }

  lemma OtherMember(rows: Rows, pk: nat, pks: seq<nat>, i: nat, j: nat)
    requires pk in rows && i <= |pks| && j < |pks| && KeysInOrder(rows - {pk}, rows[pk].collection, pks)
    requires KeysInOrder(rows, rows[pk].collection, Inserted(pks, i, pk))
    ensures var c := rows[pk].collection;
            && |Members(rows - {pk}, c)| == |pks| && |Members(rows, c)| == |pks| + 1
            && Members(rows, c)[if j < i then j else j + 1] == Members(rows - {pk}, c)[j]
            && Members(rows - {pk}, c)[j].sortOrder == rows[pks[j]].sortOrder
  {
    var all, c, k := Inserted(pks, i, pk), rows[pk].collection, if j < i then j else j + 1;
    MemberAtKey(rows - {pk}, c, pks, j);
    assert all[k] == pks[j];
    MemberAtKey(rows, c, all, k);
  }

  lemma MembersWithInserted(rows: Rows, pk: nat, pks: seq<nat>, i: nat)
    requires pk in rows && i <= |pks| && KeysInOrder(rows - {pk}, rows[pk].collection, pks)
    requires KeysInOrder(rows, rows[pk].collection, Inserted(pks, i, pk))
    ensures var others := Members(rows - {pk}, rows[pk].collection);
            i <= |others| && Members(rows, rows[pk].collection)
                             == Inserted(others, i, Member(rows[pk].product, rows[pk].sortOrder))
  {
    var c := rows[pk].collection;
    MembersInOrder(rows - {pk}, c, pks);
    MembersInOrder(rows, c, Inserted(pks, i, pk));
    var others, all := Members(rows - {pk}, c), Members(rows, c);
    assert MemberOf(rows, Inserted(pks, i, pk)[i], all[i]);
    forall j | 0 <= j < i ensures all[j] == others[j] { OtherMember(rows, pk, pks, i, j); }
    forall j | i <= j < |others| ensures all[j + 1] == others[j] { OtherMember(rows, pk, pks, i, j); }
    InsertedIs(all, others, i);
  }

  /** A row stands after those of lower, and before those of higher position in its collection. */
  lemma MemberInserted(rows: Rows, pk: nat) returns (i: nat)
    requires pk in rows
    ensures var others := Members(rows - {pk}, rows[pk].collection);
            && i <= |others| && Fits(others, i, rows[pk].sortOrder)
            && ((forall k <- rows :: k <= pk) ==> FitsLast(others, i, rows[pk].sortOrder))
            && Members(rows, rows[pk].collection)
               == Inserted(others, i, Member(rows[pk].product, rows[pk].sortOrder))
  {
    var pks;
    pks, i := KeysInserted(rows, pk);
    MembersWithInserted(rows, pk, pks, i);
    var all := Inserted(pks, i, pk);
    MembersInOrder(rows - {pk}, rows[pk].collection, pks);
    assert all[i] == pk;
    forall j | 0 <= j < |pks|
      ensures if j < i then InOrder(rows, pks[j], pk) else InOrder(rows, pk, pks[j])
      ensures Members(rows - {pk}, rows[pk].collection)[j].sortOrder == rows[pks[j]].sortOrder
    {
      OtherMember(rows, pk, pks, i, j);
      assert all[if j < i then j else j + 1] == pks[j];
      assert if j < i then InOrder(rows, all[j], all[i]) else InOrder(rows, all[i], all[j + 1]);
    }
  }

  /** The rows of the tables, as the constraints allow a row at `pk` to be written. */
  ghost predicate RowAllowed(s: State, pk: nat, row: Row) {
    && row.collection in s.collections && row.product in s.products
    && forall k <- s.rows :: k != pk && s.rows[k].collection == row.collection ==> s.rows[k].product != row.product
  }

  /** What writing a row does to the members of each collection. */
  lemma RowWritten(rows: Rows, pk: nat, row: Row, rows': Rows, others: Rows) returns (i: nat)
    requires rows' == rows[pk := row] && others == rows - {pk}
    ensures Fits(Members(others, row.collection), i, row.sortOrder)
    ensures (forall k <- rows :: k <= pk) ==> FitsLast(Members(others, row.collection), i, row.sortOrder)
    ensures Members(rows', row.collection)
            == Inserted(Members(others, row.collection), i, Member(row.product, row.sortOrder))
    ensures forall d :: d != row.collection ==> Members(rows', d) == Members(others, d)
  {
    i := MemberInserted(rows', pk);
    assert rows' - {pk} == others;
    forall d | d != row.collection ensures Members(rows', d) == Members(others, d) {
      OthersUntouched(rows, pk, row, d);
    }
  }

  lemma AddedRows(s: State, row: Row)
    requires Valid(s)
    ensures Step(s, AddMember(row)) == if RowAllowed(s, s.nextPk, row) then MemberSaved(s, s.nextPk, row) else s
  {
  }

  lemma UpdatedRows(s: State, pk: nat, row: Row)
    requires Valid(s) && pk in s.rows
    ensures Step(s, UpdateMember(pk, row)) == if RowAllowed(s, pk, row) then MemberSaved(s, pk, row) else s
  {
  }

  lemma RemovedRows(s: State, pk: nat)
    requires Valid(s) && pk in s.rows
    ensures Step(s, RemoveMember(pk)).rows == s.rows - {pk}
  {
  }

  /** Writing a row leaves the members of every collection that it does not name as they are without it. */
  lemma OthersUntouched(rows: Rows, pk: nat, row: Row, d: nat)
    requires d != row.collection
    ensures Members(rows[pk := row], d) == Members(rows - {pk}, d)
  {
    MembersDependOnOwnRows(rows - {pk}, rows[pk := row], d);
  }

  /**
    Adding a row is refused without effect if it names no collection or product, or a product that the collection
    already has. Otherwise the collection's members are those before with the new one behind all of its position.
   */
  lemma AddInsertsMember(s: State, row: Row) returns (i: nat)
    requires Valid(s)
    ensures !RowAllowed(s, s.nextPk, row) ==> Step(s, AddMember(row)) == s
    ensures RowAllowed(s, s.nextPk, row) ==>
              var t, was := Step(s, AddMember(row)), Members(s.rows, row.collection);
              && t.rows == s.rows[s.nextPk := row] && FitsLast(was, i, row.sortOrder)
              && Members(t.rows, row.collection) == Inserted(was, i, Member(row.product, row.sortOrder))
              && forall d :: d != row.collection ==> Members(t.rows, d) == Members(s.rows, d)
  {
    AddedRows(s, row);
    assert s.rows == s.rows - {s.nextPk};
    i := RowWritten(s.rows, s.nextPk, row, s.rows[s.nextPk := row], s.rows);
  }

  /** Changing or moving a row removes its member and puts the new one in its place by position. */
  lemma UpdateMovesMember(s: State, pk: nat, row: Row) returns (i: nat)
    requires Valid(s) && pk in s.rows
    ensures !RowAllowed(s, pk, row) ==> Step(s, UpdateMember(pk, row)) == s
    ensures RowAllowed(s, pk, row) ==>
              var t, others := Step(s, UpdateMember(pk, row)), Members(s.rows - {pk}, row.collection);
              && t.rows == s.rows[pk := row] && Fits(others, i, row.sortOrder)
              && Members(t.rows, row.collection) == Inserted(others, i, Member(row.product, row.sortOrder))
              && forall d :: d != row.collection ==> Members(t.rows, d) == Members(s.rows - {pk}, d)
  {
    UpdatedRows(s, pk, row);
    i := RowWritten(s.rows, pk, row, s.rows[pk := row], s.rows - {pk});
  }

  /** Removing a row takes one member, the row's, out of its collection, and none out of another. */
  lemma RemoveDropsMember(s: State, pk: nat) returns (i: nat)
    requires Valid(s) && pk in s.rows
    ensures var t, was := Step(s, RemoveMember(pk)), Members(s.rows, s.rows[pk].collection);
            && t.rows == s.rows - {pk} && i < |was|
            && was[i] == Member(s.rows[pk].product, s.rows[pk].sortOrder)
            && Members(t.rows, s.rows[pk].collection) == Without(was, i)
            && forall d :: d != s.rows[pk].collection ==> Members(t.rows, d) == Members(s.rows, d)
  {
    RemovedRows(s, pk);
    var row := s.rows[pk];
    assert s.rows[pk := row] == s.rows;
    i := RowWritten(s.rows, pk, row, s.rows, s.rows - {pk});
    WithoutInserted(Members(s.rows - {pk}, row.collection), i, Member(row.product, row.sortOrder));
  }

  /** Deleting a collection or a product takes exactly the rows that name it along. */
  lemma DeletionsCascade(s: State, e: Event)
    requires e.DeleteCollection? || e.DeleteProduct?
    ensures var t := Step(s, e);
            && (e.DeleteCollection? ==> t.products == s.products && t.collections == s.collections - {e.pk})
            && (e.DeleteProduct? ==> t.collections == s.collections && t.products == s.products - {e.product})
            && (forall k <- t.rows :: k in s.rows && t.rows[k] == s.rows[k])
    ensures Valid(s) ==>
              forall k <- s.rows :: k in Step(s, e).rows <==>
                if e.DeleteCollection? then s.rows[k].collection != e.pk else s.rows[k].product != e.product
  {
  }

  /** A collection is created or changed as given unless its slug is another's; its rows stay, and so does the rest. */
  lemma CollectionSaved(s: State, e: Event)
    requires e.CreateCollection? || e.UpdateCollection?
    requires if e.CreateCollection? then e.pk !in s.collections else e.pk in s.collections
    ensures var t := Step(s, e);
            if exists c <- s.collections :: c != e.pk && s.collections[c].slug == e.collection.slug then t == s
            else t == s.(collections := s.collections[e.pk := e.collection], cached := t.cached)
  {
  }

  /** A new product changes no row, and a list that expires is dropped alone. */
  lemma OthersKeepRows(s: State, e: Event)
    requires e.AddProduct? || e.Expire?
    ensures Step(s, e) == if e.AddProduct? then s.(products := s.products + {e.product})
                          else s.(cached := Step(s, e).cached)
    ensures e.Expire? ==>
              forall slug :: slug in Step(s, e).cached <==> slug in s.cached && slug != e.slug
    ensures forall slug <- Step(s, e).cached :: slug in s.cached && Step(s, e).cached[slug] == s.cached[slug]
  {
  }

  /******* The lists *******/

  /** The event drops the list under the slug: it writes that collection or one of its rows. */
  ghost predicate Concerns(s: State, e: Event, slug: string)
    requires Valid(s)
  {
    match e
    case CreateCollection(_, c, explicitPk) => !explicitPk && slug == c.slug
    case UpdateCollection(pk, c) => slug == c.slug || (pk in s.collections && slug == s.collections[pk].slug)
    case DeleteCollection(pk) => pk in s.collections && slug == s.collections[pk].slug
    case AddMember(row) => row.collection in s.collections && slug == s.collections[row.collection].slug
    case UpdateMember(_, row) => row.collection in s.collections && slug == s.collections[row.collection].slug
    case RemoveMember(pk) => pk in s.rows && slug == s.collections[s.rows[pk].collection].slug
    case DeleteProduct(product) =>
      exists k <- s.rows :: s.rows[k].product == product && s.collections[s.rows[k].collection].slug == slug
    case Expire(expired) => slug == expired
    case _ => false
  }

  /** The handlers of an accepted write drop exactly the lists it concerns, and change no other. */
  lemma HandlersDropExactly(s: State, e: Event, slug: string)
    requires Valid(s) && Step(s, e) != s && !e.Refresh? && slug in s.cached
    ensures slug in Step(s, e).cached <==> !Concerns(s, e, slug)
    ensures slug in Step(s, e).cached ==> Step(s, e).cached[slug] == s.cached[slug]
  {
  }
}

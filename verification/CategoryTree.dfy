/**
  The category parent relation: the ancestor walk that decides whether a new parent is accepted, and the forest that
  every run of creations, accepted moves and cascading deletions keeps.
 */
module CategoryTree {
  import opened Options
  import opened Ordering

  /** `parent_id` by primary key. A table may hold anything: dangling parents, even cycles. */
  type Table = map<nat, Option<nat>>

  function Parent(t: Table, n: Option<nat>): Option<nat> {
    if n.Some? && n.value in t then t[n.value] else None
  }

  /** `k` steps up from `n`. */
  function Climb(t: Table, n: Option<nat>, k: nat): Option<nat>
    decreases k
  {
    if k == 0 then n else Climb(t, Parent(t, n), k - 1)
  }

  /** `target` is the category `n` or one of its ancestors. */
  ghost predicate Reaches(t: Table, n: Option<nat>, target: nat) {
    exists k: nat :: Climb(t, n, k) == Some(target)
  }

  /** No category is its own ancestor. */
  ghost predicate Acyclic(t: Table) {
    forall n: nat, k: nat :: k >= 1 ==> Climb(t, Some(n), k) != Some(n)
  }

  ghost predicate Closed(t: Table) {
    forall n <- t :: t[n].Some? ==> t[n].value in t
  }

  lemma {:induction false} ClimbAdd(t: Table, n: Option<nat>, j: nat, k: nat)
    ensures Climb(t, n, j + k) == Climb(t, Climb(t, n, j), k)
    decreases j
  {
    if j > 0 { ClimbAdd(t, Parent(t, n), j - 1, k); }
  }

  lemma {:induction false} ClimbFromNone(t: Table, k: nat)
    ensures Climb(t, None, k) == None
  {
    if k > 0 { ClimbFromNone(t, k - 1); }
  }

  lemma {:induction false} FirstReach(t: Table, n: Option<nat>, target: nat, k: nat) returns (m: nat)
    requires Climb(t, n, k) == Some(target)
    ensures m <= k && Climb(t, n, m) == Some(target) && forall j: nat :: j < m ==> Climb(t, n, j) != Some(target)
  {
    m := 0;
    while Climb(t, n, m) != Some(target)
      invariant m <= k && forall j: nat :: j < m ==> Climb(t, n, j) != Some(target)
      decreases k - m
    {
      m := m + 1;
    }
  }

  /******* The walk *******/

  /** Once a climb repeats, it has shown everything it will ever show. */
  lemma {:induction false} RepeatShowsAll(t: Table, n: Option<nat>, j: nat, i: nat, k: nat)
    requires j < i && Climb(t, n, i) == Climb(t, n, j)
    ensures exists m: nat :: m < i && Climb(t, n, m) == Climb(t, n, k)
    decreases k
  {
    if k >= i {
      ClimbAdd(t, n, i, k - i);
      ClimbAdd(t, n, j, k - i);
      assert i + (k - i) == k && Climb(t, n, k) == Climb(t, n, j + (k - i));
      RepeatShowsAll(t, n, j, i, j + (k - i));
    }
  }

  /**
    The check of `CategoryWriteSerializer.validate`, on any table: it stops even on a cycle, and refuses exactly when
    the category is the proposed parent or one of that parent's ancestors.
   */
  method Validate(t: Table, instance: Option<nat>, parent: Option<nat>) returns (accepted: bool)
    ensures accepted <==> instance.None? || !Reaches(t, parent, instance.value)
  {
    if parent.None? || instance.None? {
      forall k: nat ensures Climb(t, None, k) == None { ClimbFromNone(t, k); }
      return true;
    }
    var node, visited := parent, {};
    ghost var i: nat := 0;
    while node.Some?
      invariant node == Climb(t, parent, i)
      invariant forall x :: x in visited <==> exists j: nat :: j < i && Climb(t, parent, j) == Some(x)
      invariant forall j: nat :: j < i ==> Climb(t, parent, j).Some? && Climb(t, parent, j) != instance
      decreases t.Keys - visited, node.Some?
    {
      if node == instance { return false; }
      if node.value in visited {
        ghost var j: nat :| j < i && Climb(t, parent, j) == node;
        forall k: nat ensures Climb(t, parent, k) != instance { RepeatShowsAll(t, parent, j, i, k); }
        return true;
      }
      ClimbAdd(t, parent, i, 1);
      visited := visited + {node.value};
      node := if node.value in t then t[node.value] else None;
      i := i + 1;
    }
    forall k: nat ensures Climb(t, parent, k) != instance {
      if k >= i { ClimbAdd(t, parent, i, k - i); ClimbFromNone(t, k - i); }
    }
    accepted := true;
  }

  /******* What acceptance means *******/

  /** Tables that differ in `c`'s parent only agree on every climb that does not leave from `c`. */
  lemma {:induction false} SameClimb(t: Table, t': Table, c: nat, n: Option<nat>, k: nat)
    requires forall x :: x != c ==> (x in t <==> x in t') && (x in t ==> t'[x] == t[x])
    requires forall j: nat :: j < k ==> Climb(t, n, j) != Some(c)
    ensures Climb(t', n, k) == Climb(t, n, k)
    decreases k
  {
    if k > 0 {
      assert Climb(t, n, 0) != Some(c);
      forall j: nat | j < k - 1 ensures Climb(t, Parent(t, n), j) != Some(c) { assert Climb(t, n, j + 1) != Some(c); }
      SameClimb(t, t', c, Parent(t, n), k - 1);
    }
  }

  lemma MovedCycle(t: Table, c: nat, parent: Option<nat>)
    requires Reaches(t, parent, c)
    ensures !Acyclic(t[c := parent])
  {
    var k: nat :| Climb(t, parent, k) == Some(c);
    var m := FirstReach(t, parent, c, k);
    SameClimb(t, t[c := parent], c, parent, m);
    assert Climb(t[c := parent], Some(c), m + 1) == Some(c);
  }

  /** A climb from `parent` that reaches `c` after the move reached it before. */
  lemma ReachedBefore(t: Table, c: nat, parent: Option<nat>, k: nat)
    requires Climb(t[c := parent], parent, k) == Some(c)
    ensures Reaches(t, parent, c)
  {
    var m := FirstReach(t[c := parent], parent, c, k);
    SameClimb(t[c := parent], t, c, parent, m);
  }

  lemma MovedAcyclic(t: Table, c: nat, parent: Option<nat>)
    requires Acyclic(t) && !Reaches(t, parent, c)
    ensures Acyclic(t[c := parent])
  {
    var t' := t[c := parent];
    forall n: nat, k: nat | k >= 1 ensures Climb(t', Some(n), k) != Some(n) {
      if Climb(t', Some(n), k) == Some(n) {
        if j: nat :| j < k && Climb(t', Some(n), j) == Some(c) {
          ClimbAdd(t', Some(n), j, k);
          ClimbAdd(t', Some(n), k, j);
          assert Climb(t', Some(c), k) == Some(c) && Parent(t', Some(c)) == parent;
          ReachedBefore(t, c, parent, k - 1);
        } else {
          SameClimb(t', t, c, Some(n), k);
        }
      }
    }
  }

  /** Moving a category keeps the relation free of cycles exactly when the walk accepts the move. */
  lemma MoveAcyclicExactlyWhenAccepted(t: Table, c: nat, parent: Option<nat>)
    requires Acyclic(t)
    ensures Acyclic(t[c := parent]) <==> !Reaches(t, parent, c)
  {
    if Reaches(t, parent, c) { MovedCycle(t, c, parent); } else { MovedAcyclic(t, c, parent); }
  }

  /******* Runs *******/

  datatype Event =
    | Create(pk: nat, parent: Option<nat>)
    | Move(pk: nat, parent: Option<nat>)
    | Delete(pk: nat)

  ghost predicate Exists(t: Table, parent: Option<nat>) { parent.Some? ==> parent.value in t }

  /** A delete cascades to every category below the deleted one. */
  ghost function Below(t: Table, pk: nat): set<nat> { set n <- t | Reaches(t, Some(n), pk) }

  ghost function Step(t: Table, e: Event): Table {
    match e
    case Create(pk, parent) => if pk in t || !Exists(t, parent) then t else t[pk := parent]
    case Move(pk, parent) => if pk !in t || !Exists(t, parent) || Reaches(t, parent, pk) then t else t[pk := parent]
    case Delete(pk) => t - Below(t, pk)
  }

  ghost function Run(t: Table, events: seq<Event>): Table
    decreases |events|
  {
    if events == [] then t else Run(Step(t, events[0]), events[1..])
  }

  ghost predicate Forest(t: Table) { Acyclic(t) && Closed(t) }

  lemma {:induction false} AbsentUnreached(t: Table, n: Option<nat>, pk: nat, k: nat)
    requires Closed(t) && Exists(t, n) && pk !in t
    ensures Climb(t, n, k) != Some(pk)
    decreases k
  {
    if k > 0 { AbsentUnreached(t, Parent(t, n), pk, k - 1); }
  }

  lemma {:induction false} SubtableClimb(t: Table, t': Table, n: Option<nat>, k: nat)
    requires Closed(t') && Exists(t', n) && t'.Keys <= t.Keys && forall x <- t' :: t'[x] == t[x]
    ensures Climb(t', n, k) == Climb(t, n, k)
    decreases k
  {
    if k > 0 { SubtableClimb(t, t', Parent(t', n), k - 1); }
  }

  lemma ParentSpared(t: Table, n: nat, pk: nat)
    requires n in t && !Reaches(t, Some(n), pk)
    ensures !Reaches(t, t[n], pk)
  {
    forall k: nat ensures Climb(t, t[n], k) != Some(pk) { assert Climb(t, Some(n), k + 1) == Climb(t, t[n], k); }
  }

  lemma DeleteKeepsForest(t: Table, pk: nat)
    requires Forest(t)
    ensures Forest(t - Below(t, pk))
  {
    var t' := t - Below(t, pk);
    forall n <- t' | t'[n].Some? ensures t'[n].value in t' {
      ParentSpared(t, n, pk);
    }
    forall n: nat, k: nat | k >= 1 ensures Climb(t', Some(n), k) != Some(n) {
      if n in t' {
        SubtableClimb(t, t', Some(n), k);
      } else {
        ClimbFromNone(t', k - 1);
      }
    }
  }

  lemma StepKeepsForest(t: Table, e: Event)
    requires Forest(t)
    ensures Forest(Step(t, e))
  {
    match e
    case Create(pk, parent) =>
      if Step(t, e) != t {
        forall k: nat ensures Climb(t, parent, k) != Some(pk) { AbsentUnreached(t, parent, pk, k); }
        MovedAcyclic(t, pk, parent);
      }
    case Move(pk, parent) => if Step(t, e) != t { MovedAcyclic(t, pk, parent); }
    case Delete(pk) => DeleteKeepsForest(t, pk);
  }

  /**
    What each event does to the table. A category is created unless its key is in use or its parent does not exist. A
    move sets the parent and is refused exactly if the category or the parent does not exist, or the walk from the new
    parent meets the category. A deletion takes exactly the category and those below it. No other parent changes.
   */
  lemma EventEffect(t: Table, e: Event)
    ensures var t' := Step(t, e);
            && (e.Create? ==>
                  if e.pk in t || (e.parent.Some? && e.parent.value !in t) then t' == t
                  else t'.Keys == t.Keys + {e.pk} && t'[e.pk] == e.parent && forall n <- t :: t'[n] == t[n])
            && (e.Move? ==>
                  if e.pk !in t || (e.parent.Some? && e.parent.value !in t)
                     || Reaches(t, e.parent, e.pk)
                  then t' == t
                  else t'.Keys == t.Keys && t'[e.pk] == e.parent && forall n <- t :: n != e.pk ==> t'[n] == t[n])
            && (e.Delete? ==>
                  && (forall n <- t' :: n in t && t'[n] == t[n])
                  && forall n <- t :: n !in t' <==> Reaches(t, Some(n), e.pk))
  {
  }

  /** Every run of creations, validated moves and cascading deletions keeps the table a forest. */
  lemma {:induction false} RunKeepsForest(t: Table, events: seq<Event>)
    requires Forest(t)
    ensures Forest(Run(t, events))
    decreases |events|
  {
    if events != [] {
      StepKeepsForest(t, events[0]);
      RunKeepsForest(Step(t, events[0]), events[1..]);
    }
  }

  lemma FromEmpty(events: seq<Event>, n: nat)
    ensures var t := Run(map[], events);
            Forest(t) && Climb(t, Some(n), |t| + 1) == None
  {
    forall n: nat, k: nat | k >= 1 ensures Climb(map[], Some(n), k) != Some(n) { ClimbFromNone(map[], k - 1); }
    RunKeepsForest(map[], events);
    ChainEnds(Run(map[], events), n);
  }

  /** The first `k` stops of a climb. */
  function Stops(t: Table, n: Option<nat>, k: nat): set<Option<nat>> {
    if k == 0 then {} else Stops(t, n, k - 1) + {Climb(t, n, k - 1)}
  }

  lemma {:induction false} StopIndex(t: Table, n: Option<nat>, k: nat, x: Option<nat>) returns (j: nat)
    requires x in Stops(t, n, k)
    ensures j < k && Climb(t, n, j) == x
    decreases k
  {
    if x == Climb(t, n, k - 1) { j := k - 1; } else { j := StopIndex(t, n, k - 1, x); }
  }

  lemma {:induction false} StopsDistinct(t: Table, n: nat, k: nat)
    requires Acyclic(t) && Climb(t, Some(n), k).Some?
    ensures |Stops(t, Some(n), k)| == k
    ensures forall x <- Stops(t, Some(n), k) :: x.Some? && x.value in t
  {
    if k > 0 {
      var last := Climb(t, Some(n), k - 1);
      ClimbAdd(t, Some(n), k - 1, 1);
      assert Climb(t, last, 1) == Parent(t, last);
      StopsDistinct(t, n, k - 1);
      if last in Stops(t, Some(n), k - 1) {
        var j := StopIndex(t, Some(n), k - 1, last);
        ClimbAdd(t, Some(n), j, k - 1 - j);
        assert false;
      }
    }
  }

  /** In an acyclic table every chain of ancestors ends at a root. */
  lemma ChainEnds(t: Table, n: nat)
    requires Acyclic(t)
    ensures Climb(t, Some(n), |t| + 1) == None
  {
    var k := |t| + 1;
    if Climb(t, Some(n), k).Some? {
      StopsDistinct(t, n, k);
      var stops, keys := Stops(t, Some(n), k), set x <- t :: Some(x);
      assert stops <= keys;
      SubsetSize(stops, keys);
      KeysSize(t.Keys, keys);
    }
  }

  lemma {:induction false} KeysSize(keys: set<nat>, wrapped: set<Option<nat>>)
    requires wrapped == set x <- keys :: Some(x)
    ensures |wrapped| == |keys|
  {
    if x :| x in keys {
      assert wrapped - {Some(x)} == set y <- keys - {x} :: Some(y);
      KeysSize(keys - {x}, wrapped - {Some(x)});
    }
  }

  /******* Two moves validated against the same table *******/

  lemma ReachesThroughMove(t: Table, c: nat, parent: Option<nat>, n: Option<nat>, target: nat)
    requires !Reaches(t, n, target) && Reaches(t[c := parent], n, target)
    ensures Reaches(t, n, c) && Reaches(t[c := parent], parent, target)
  {
    var t' := t[c := parent];
    var k: nat :| Climb(t', n, k) == Some(target);
    if j: nat :| j < k && Climb(t', n, j) == Some(c) {
      var m := FirstReach(t', n, c, j);
      SameClimb(t', t, c, n, m);
      ClimbAdd(t', n, m, k - m);
      assert Climb(t', Some(c), k - m) == Climb(t', parent, k - m - 1);
    } else {
      SameClimb(t', t, c, n, k);
    }
  }

  lemma ReachesUnaffected(t: Table, c: nat, parent: Option<nat>, target: nat)
    requires !Reaches(t, parent, c)
    ensures Reaches(t[c := parent], parent, target) <==> Reaches(t, parent, target)
  {
    var t' := t[c := parent];
    forall k: nat ensures Climb(t', parent, k) == Climb(t, parent, k) { SameClimb(t, t', c, parent, k); }
    if Reaches(t', parent, target) {
      var k: nat :| Climb(t', parent, k) == Some(target);
      assert Climb(t, parent, k) == Some(target);
    }
    if Reaches(t, parent, target) {
      var k: nat :| Climb(t, parent, k) == Some(target);
      assert Climb(t', parent, k) == Some(target);
    }
  }

  /**
    The walk and the save are separate. Two moves of different categories, each accepted against the same table and
    then both saved, leave a cycle exactly when each new parent lies at or below the other moved category.
   */
  lemma RacingMovesCycleExactlyWhenCrossed(t: Table, c: nat, p: Option<nat>, d: nat, q: Option<nat>)
    requires Acyclic(t) && c != d && !Reaches(t, p, c) && !Reaches(t, q, d)
    ensures Acyclic(t[c := p][d := q]) <==> !(Reaches(t, p, d) && Reaches(t, q, c))
  {
    var t' := t[c := p];
    MovedAcyclic(t, c, p);
    MoveAcyclicExactlyWhenAccepted(t', d, q);
    ReachesUnaffected(t, c, p, d);
    if Reaches(t', q, d) {
      ReachesThroughMove(t, c, p, q, d);
    }
    if Reaches(t, p, d) && Reaches(t, q, c) {
      var j: nat :| Climb(t, q, j) == Some(c);
      var i := FirstReach(t, q, c, j);
      SameClimb(t, t', c, q, i);
      var k: nat :| Climb(t', p, k) == Some(d);
      ClimbAdd(t', q, i, k + 1);
      assert Climb(t', Some(c), k + 1) == Climb(t', p, k);
    }
  }

  /**
    Categories 1 and 2, created side by side: each is accepted as the other's parent, and saving both makes a cycle.
   */
  lemma RacingMovesMakeCycle()
    ensures var t := Run(map[], [Create(1, None), Create(2, None)]);
            && t == map[1 := None, 2 := None]
            && !Reaches(t, Some(2), 1) && !Reaches(t, Some(1), 2) && !Acyclic(t[1 := Some(2)][2 := Some(1)])
  {
    var t: Table := map[1 := None, 2 := None];
    assert [Create(1, None), Create(2, None)][1..] == [Create(2, None)] && [Create(2, None)][1..] == [];
    assert Step(map[], Create(1, None)) == map[1 := None] && Step(map[1 := None], Create(2, None)) == t;
    assert Run(t, []) == t;
    forall k: nat ensures Climb(t, Some(2), k) != Some(1) && Climb(t, Some(1), k) != Some(2) {
      if k > 0 { ClimbFromNone(t, k - 1); }
    }
    var u := t[1 := Some(2)][2 := Some(1)];
    assert Climb(u, Some(1), 2) == Climb(u, Some(2), 1) == Climb(u, Some(1), 0) == Some(1);
  }
}

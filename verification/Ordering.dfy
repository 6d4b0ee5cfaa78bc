/** Database ordering: the one strictly sorted listing of a finite set under a strict total order. */
module Ordering {

  ghost predicate StrictTotal<T(!new)>(less: (T, T) -> bool) {
    && (forall x :: !less(x, x))
    && (forall x, y, z :: less(x, y) && less(y, z) ==> less(x, z))
    && (forall x, y :: x == y || less(x, y) || less(y, x))
  }

  ghost predicate Strictly<T>(s: seq<T>, less: (T, T) -> bool) {
    forall i, j :: 0 <= i < j < |s| ==> less(s[i], s[j])
  }

  predicate IsLeast<T(==)>(m: T, s: set<T>, less: (T, T) -> bool) {
    m in s && forall y <- s :: y == m || less(m, y)
  }

  lemma {:induction false} LeastExists<T(!new)>(s: set<T>, less: (T, T) -> bool) returns (m: T)
    requires StrictTotal(less) && s != {}
    ensures IsLeast(m, s, less)
    decreases |s|
  {
    var x :| x in s;
    m := x;
    if s - {x} == {} {
      assert s == {x};
    } else {
      var l := LeastExists(s - {x}, less);
      if less(l, x) { m := l; }
      forall y <- s ensures y == m || less(m, y) {
        if y != x && y != l { assert y in s - {x} && less(l, y); }
      }
    }
  }

  /** `ORDER BY`: the elements of `s`, each once, in strictly ascending order. */
  function Sort<T(!new, ==)>(s: set<T>, less: (T, T) -> bool): (r: seq<T>)
    requires StrictTotal(less)
    ensures Strictly(r, less)
    ensures forall x :: x in r <==> x in s
    ensures |r| == |s|
    decreases |s|
  {
    if s == {} then []
    else
      assert exists m :: IsLeast(m, s, less) by { var m := LeastExists(s, less); }
      assert forall m, n :: IsLeast(m, s, less) && IsLeast(n, s, less) ==> m == n;
      var m :| IsLeast(m, s, less);
      [m] + Sort(s - {m}, less)
  }

  lemma HeadIn<T>(s: seq<T>)
    ensures s != [] ==> s[0] in s
  {
  }

  /** Two strictly sorted listings of the same elements are the same listing. */
  lemma {:induction false} SortUnique<T(!new)>(a: seq<T>, b: seq<T>, less: (T, T) -> bool)
    requires StrictTotal(less) && Strictly(a, less) && Strictly(b, less)
    requires forall x :: x in a <==> x in b
    ensures a == b
    decreases |a|
  {
    if a == [] {
      HeadIn(b);
    } else {
      assert a[0] in b && b != [] && b[0] in a;
      var i :| 0 <= i < |b| && b[i] == a[0];
      var j :| 0 <= j < |a| && a[j] == b[0];
      assert a[0] == b[0];
      forall x ensures x in a[1..] <==> x in b[1..] {
        if x in a[1..] {
          var k :| 0 <= k < |a[1..]| && a[1..][k] == x;
          assert a[k + 1] == x && less(a[0], x);
          assert x in b && b == [b[0]] + b[1..];
        }
        if x in b[1..] {
          var k :| 0 <= k < |b[1..]| && b[1..][k] == x;
          assert b[k + 1] == x && less(b[0], x);
          assert x in a && a == [a[0]] + a[1..];
        }
      }
      SortUnique(a[1..], b[1..], less);
      assert a == [a[0]] + a[1..] && b == [b[0]] + b[1..];
    }
  }

  lemma AppendedStrictly(s: seq<nat>, x: nat)
    requires Strictly(s, Less) && forall y <- s :: y < x
    ensures Strictly(s + [x], Less)
  {
    var t := s + [x];
    forall i, j | 0 <= i < j < |t| ensures Less(t[i], t[j]) {
      if j == |s| { assert t[i] == s[i] && s[i] in s; } else { assert t[i] == s[i] && t[j] == s[j]; }
    }
  }

  lemma {:induction false} SubsetSize<T>(a: set<T>, b: set<T>)
    requires a <= b
    ensures |a| <= |b|
  {
    if x :| x in a { SubsetSize(a - {x}, b - {x}); }
  }

  predicate Less(x: nat, y: nat) { x < y }

  predicate Greater(x: nat, y: nat) { y < x }

  lemma AppendGreatest(s: set<nat>, x: nat)
    requires forall y <- s :: y < x
    ensures Sort(s + {x}, Less) == Sort(s, Less) + [x]
  {
    var was: seq<nat>, now: seq<nat> := Sort(s, Less), Sort(s + {x}, Less);
    var listed: seq<nat> := was + [x];
    AppendedStrictly(was, x);
    forall k ensures k in listed <==> k in now { assert k in listed <==> k in was || k == x; }
    SortUnique(now, listed, Less);
  }

  lemma StrictlyWithout(pks: seq<nat>, i: nat)
    requires Strictly(pks, Less) && i < |pks|
    ensures Strictly(pks[..i] + pks[i + 1..], Less)
  {
    var rest := pks[..i] + pks[i + 1..];
    forall j, k | 0 <= j < k < |rest| ensures Less(rest[j], rest[k]) {
      assert rest[j] == pks[if j < i then j else j + 1] && rest[k] == pks[if k < i then k else k + 1];
    }
  }

  lemma InWithout(pks: seq<nat>, i: nat, k: nat)
    requires Strictly(pks, Less) && i < |pks|
    ensures k in pks[..i] + pks[i + 1..] <==> k in pks && k != pks[i]
  {
    if k in pks && k != pks[i] {
      var j :| 0 <= j < |pks| && pks[j] == k;
      assert if j < i then pks[..i][j] == k else pks[i + 1..][j - i - 1] == k;
    }
  }

  /** Without one element, the listing is the old one with that element taken out. */
  lemma SortWithout(s: set<nat>, pks: seq<nat>, i: nat)
    requires pks == Sort(s, Less) && i < |pks|
    ensures Sort(s - {pks[i]}, Less) == pks[..i] + pks[i + 1..]
  {
    var rest: seq<nat>, left: seq<nat> := pks[..i] + pks[i + 1..], Sort(s - {pks[i]}, Less);
    StrictlyWithout(pks, i);
    forall k ensures k in rest <==> k in left { InWithout(pks, i, k); }
    SortUnique(left, rest, Less);
  }
}

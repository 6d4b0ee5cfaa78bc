/**
  The key form of a product-list request: its parameters with keys and values sorted. Two requests share a cached
  page exactly when they carry the same parameters, and sharing is right exactly when no parameter is ambiguous.
 */
module QueryKey {
  import opened Options
  import opened Ordering

  datatype Pair = Pair(key: string, value: string)

  /** A query string's parameters, in the order they were sent. */
  type Params = seq<Pair>

  function Keys(p: Params): set<string> { set x <- p :: x.key }

  /** `getlist`: the values sent for a key, in order. */
  function Values(p: Params, key: string): seq<string> {
    if p == [] then []
    else Values(p[..|p| - 1], key) + if p[|p| - 1].key == key then [p[|p| - 1].value] else []
  }

  /** `get`: the last value sent for a key. */
  function Get(p: Params, key: string): Option<string> {
    var values := Values(p, key);
    if values == [] then None else Some(values[|values| - 1])
  }

  /** A request that sends no value for a key reads none; sending one more value makes it the one that is read. */
  lemma LastValueWins(p: Params, x: Pair, key: string)
    ensures Get([], key) == None
    ensures Get(p + [x], key) == if x.key == key then Some(x.value) else Get(p, key)
  {
    assert (p + [x])[..|p + [x]| - 1] == p;
  }

  /******* String order *******/

  /** Code point by code point; a proper prefix comes first. */
  predicate LexLess(a: string, b: string) {
    if a == [] then b != [] else b != [] && (a[0] < b[0] || (a[0] == b[0] && LexLess(a[1..], b[1..])))
  }

  lemma {:induction false} LexIrreflexive(a: string)
    ensures !LexLess(a, a)
  {
    if a != [] { LexIrreflexive(a[1..]); }
  }

  lemma {:induction false} LexTransitive(a: string, b: string, c: string)
    requires LexLess(a, b) && LexLess(b, c)
    ensures LexLess(a, c)
  {
    if a != [] && a[0] == b[0] == c[0] { LexTransitive(a[1..], b[1..], c[1..]); }
  }

  lemma {:induction false} LexTotal(a: string, b: string)
    ensures a == b || LexLess(a, b) || LexLess(b, a)
  {
    if a != [] && b != [] && a[0] == b[0] {
      LexTotal(a[1..], b[1..]);
      if a[1..] == b[1..] { assert a == [a[0]] + a[1..] && b == [b[0]] + b[1..]; }
    }
  }

  lemma LexStrictTotal()
    ensures StrictTotal(LexLess)
  {
    forall x ensures !LexLess(x, x) { LexIrreflexive(x); }
    forall x, y, z | LexLess(x, y) && LexLess(y, z) ensures LexLess(x, z) { LexTransitive(x, y, z); }
    forall x, y ensures x == y || LexLess(x, y) || LexLess(y, x) { LexTotal(x, y); }
  }

  /******* Sorted values *******/

  predicate AtMost(a: string, b: string) { a == b || LexLess(a, b) }

  ghost predicate Ascending(s: seq<string>) {
    forall i, j :: 0 <= i < j < |s| ==> AtMost(s[i], s[j])
  }

  function Insert(x: string, s: seq<string>): (r: seq<string>)
    ensures multiset(r) == multiset(s) + multiset{x}
  {
    if s == [] then [x]
    else if AtMost(x, s[0]) then [x] + s
    else assert s == [s[0]] + s[1..]; [s[0]] + Insert(x, s[1..])
  }

  /** `sorted(values)`. */
  function SortValues(s: seq<string>): (r: seq<string>)
    ensures multiset(r) == multiset(s)
  {
    if s == [] then [] else assert s == [s[0]] + s[1..]; Insert(s[0], SortValues(s[1..]))
  }

  lemma {:induction false} InsertAscending(x: string, s: seq<string>)
    requires Ascending(s)
    ensures Ascending(Insert(x, s))
  {
    LexStrictTotal();
    if s != [] && !AtMost(x, s[0]) {
      var r := Insert(x, s[1..]);
      InsertAscending(x, s[1..]);
      forall j | 0 <= j < |r| ensures AtMost(s[0], r[j]) {
        assert r[j] in multiset(s[1..]) + multiset{x};
        if r[j] != x { assert r[j] in s[1..]; }
      }
    }
  }

  lemma {:induction false} SortValuesAscending(s: seq<string>)
    ensures Ascending(SortValues(s))
  {
    if s != [] {
      SortValuesAscending(s[1..]);
      InsertAscending(s[0], SortValues(s[1..]));
    }
  }

  lemma AtMostAntisymmetric(a: string, b: string)
    requires AtMost(a, b) && AtMost(b, a)
    ensures a == b
  {
    if a != b {
      LexTransitive(a, b, a);
      LexIrreflexive(a);
    }
  }

  lemma HeadIsLeast(a: seq<string>, x: string)
    requires Ascending(a) && x in multiset(a)
    ensures |a| > 0 && AtMost(a[0], x)
  {
    var i :| 0 <= i < |a| && a[i] == x;
  }

  lemma DropHead(a: seq<string>)
    requires Ascending(a) && |a| > 0
    ensures Ascending(a[1..]) && multiset(a[1..]) == multiset(a) - multiset{a[0]}
  {
    assert a == [a[0]] + a[1..];
  }

  lemma {:induction false} AscendingUnique(a: seq<string>, b: seq<string>)
    requires Ascending(a) && Ascending(b) && multiset(a) == multiset(b)
    ensures a == b
  {
    if a == [] {
      assert |multiset(a)| == |a| && |multiset(b)| == |b|;
    } else {
      assert a[0] in multiset(a);
      HeadIsLeast(b, a[0]);
      assert b[0] in multiset(b);
      HeadIsLeast(a, b[0]);
      AtMostAntisymmetric(a[0], b[0]);
      DropHead(a);
      DropHead(b);
      AscendingUnique(a[1..], b[1..]);
      assert a == [a[0]] + a[1..] && b == [b[0]] + b[1..];
    }
  }

  lemma SortedForm(s: seq<string>, t: seq<string>)
    ensures SortValues(s) == SortValues(t) <==> multiset(s) == multiset(t)
  {
    if multiset(s) == multiset(t) {
      SortValuesAscending(s);
      SortValuesAscending(t);
      AscendingUnique(SortValues(s), SortValues(t));
    }
  }

  /******* The key form *******/

  datatype Entry = Entry(key: string, values: seq<string>)

  function Entries(p: Params, keys: seq<string>): seq<Entry> {
    seq(|keys|, i requires 0 <= i < |keys| => Entry(keys[i], SortValues(Values(p, keys[i]))))
  }

  /** The value `_hash_query_params` prints and hashes. */
  function Normalized(p: Params): seq<Entry> {
    LexStrictTotal();
    Entries(p, Sort(Keys(p), LexLess))
  }

  lemma {:induction false} ValuesCount(p: Params, key: string, value: string)
    ensures multiset(Values(p, key))[value] == multiset(p)[Pair(key, value)]
  {
    if p != [] {
      var rest, last := p[..|p| - 1], p[|p| - 1];
      ValuesCount(rest, key, value);
      assert p == rest + [last];
      assert multiset(p) == multiset(rest) + multiset{last};
    }
  }

  lemma SameValues(p: Params, q: Params, key: string)
    requires multiset(p) == multiset(q)
    ensures multiset(Values(p, key)) == multiset(Values(q, key))
  {
    forall v ensures multiset(Values(p, key))[v] == multiset(Values(q, key))[v] {
      ValuesCount(p, key, v);
      ValuesCount(q, key, v);
    }
  }

  lemma SameKeys(p: Params, q: Params)
    requires multiset(p) == multiset(q)
    ensures Keys(p) == Keys(q)
  {
    forall x ensures x in p <==> x in q { assert x in p <==> x in multiset(p); assert x in q <==> x in multiset(q); }
  }

  lemma SameParamsSameForm(p: Params, q: Params)
    requires multiset(p) == multiset(q)
    ensures Normalized(p) == Normalized(q)
  {
    SameKeys(p, q);
    LexStrictTotal();
    var keys := Sort(Keys(p), LexLess);
    forall i | 0 <= i < |keys| ensures SortValues(Values(p, keys[i])) == SortValues(Values(q, keys[i])) {
      SameValues(p, q, keys[i]);
      SortedForm(Values(p, keys[i]), Values(q, keys[i]));
    }
  }

  lemma EntryFor(p: Params, q: Params, key: string)
    requires Normalized(p) == Normalized(q) && key in Keys(p)
    ensures key in Keys(q) && multiset(Values(p, key)) == multiset(Values(q, key))
  {
    LexStrictTotal();
    var keys, others := Sort(Keys(p), LexLess), Sort(Keys(q), LexLess);
    assert key in keys;
    var i :| 0 <= i < |keys| && keys[i] == key;
    assert Normalized(p)[i] == Normalized(q)[i];
    assert others[i] == key && others[i] in others;
    SortedForm(Values(p, key), Values(q, key));
  }

  lemma {:induction false} NoKeyNoValues(p: Params, key: string)
    requires key !in Keys(p)
    ensures Values(p, key) == []
  {
    if p != [] {
      assert p[|p| - 1] in p;
      NoKeyNoValues(p[..|p| - 1], key);
    }
  }

  lemma SameFormSameParams(p: Params, q: Params)
    requires Normalized(p) == Normalized(q)
    ensures multiset(p) == multiset(q)
  {
    forall x: Pair ensures multiset(p)[x] == multiset(q)[x] {
      ValuesCount(p, x.key, x.value);
      ValuesCount(q, x.key, x.value);
      if x.key in Keys(p) {
        EntryFor(p, q, x.key);
      } else {
        if x.key in Keys(q) { EntryFor(q, p, x.key); }
        NoKeyNoValues(p, x.key);
        NoKeyNoValues(q, x.key);
      }
    }
  }

  /**
    Two requests share a page entry exactly when one's parameters are a permutation of the other's, repeats included.
   */
  lemma SharedExactlyWhenPermuted(p: Params, q: Params)
    ensures Normalized(p) == Normalized(q) <==> multiset(p) == multiset(q)
  {
    if multiset(p) == multiset(q) { SameParamsSameForm(p, q); }
    if Normalized(p) == Normalized(q) { SameFormSameParams(p, q); }
  }

  /** No key is sent with two different values. */
  ghost predicate Unambiguous(p: Params) {
    forall x <- p, y <- p :: x.key == y.key ==> x.value == y.value
  }

  ghost predicate Agree(p: Params, q: Params) { forall key :: Get(p, key) == Get(q, key) }

  lemma {:induction false} ValueSent(p: Params, key: string, v: string)
    ensures v in Values(p, key) <==> Pair(key, v) in p
  {
    ValuesCount(p, key, v);
    assert v in Values(p, key) <==> v in multiset(Values(p, key));
    assert Pair(key, v) in p <==> Pair(key, v) in multiset(p);
  }

  lemma GetSent(p: Params, key: string)
    ensures match Get(p, key)
            case Some(v) => Pair(key, v) in p
            case None => key !in Keys(p)
  {
    var values := Values(p, key);
    if values != [] {
      assert values[|values| - 1] in values;
      ValueSent(p, key, values[|values| - 1]);
    } else if key in Keys(p) {
      var x :| x in p && x.key == key;
      ValueSent(p, key, x.value);
    }
  }

  lemma UnambiguousAgree(p: Params, q: Params, key: string)
    requires Unambiguous(p) && multiset(p) == multiset(q)
    ensures Get(p, key) == Get(q, key)
  {
    GetSent(p, key);
    GetSent(q, key);
    SameKeys(p, q);
    forall x ensures x in p <==> x in q { assert x in p <==> x in multiset(p); assert x in q <==> x in multiset(q); }
  }

  /** A repeated key's other value can be sent last. */
  lemma AmbiguousDisagree(p: Params, key: string, i: nat) returns (q: Params)
    requires i < |p| && p[i].key == key && Some(p[i].value) != Get(p, key)
    ensures multiset(q) == multiset(p) && Get(q, key) != Get(p, key)
  {
    q := p[..i] + p[i + 1..] + [p[i]];
    assert p == p[..i] + [p[i]] + p[i + 1..];
    assert q[..|q| - 1] == p[..i] + p[i + 1..];
    assert Get(q, key) == Some(p[i].value);
  }

  /**
    Every request that shares `p`'s entry reads the same value for every parameter, exactly when `p` sends no
    parameter with two different values: the values are sorted in the key, while `get` takes the last one sent.
   */
  lemma SharingIsRightExactlyWhenUnambiguous(p: Params)
    ensures (forall q :: Normalized(q) == Normalized(p) ==> Agree(p, q)) <==> Unambiguous(p)
  {
    if Unambiguous(p) {
      forall q | Normalized(q) == Normalized(p) ensures Agree(p, q) {
        SharedExactlyWhenPermuted(q, p);
        forall key ensures Get(p, key) == Get(q, key) { UnambiguousAgree(p, q, key); }
      }
    } else {
      var x, y :| x in p && y in p && x.key == y.key && x.value != y.value;
      var z := if Get(p, x.key) == Some(x.value) then y else x;
      var i :| 0 <= i < |p| && p[i] == z;
      var q := AmbiguousDisagree(p, x.key, i);
      SharedExactlyWhenPermuted(q, p);
      assert !Agree(p, q);
    }
  }
}

/**
  Slug generation: the truncated base, the numbered candidates, and the search for one that no other row has.
  The text is what slugify and the two regular expressions leave.
 */
module Slugs {
  import opened Options
  import opened Ordering
  import opened Digits

  /** `rstrip("-")`. */
  function StripHyphens(s: string): (r: string)
    ensures r <= s && (r != [] ==> r[|r| - 1] != '-')
  {
    if s != [] && s[|s| - 1] == '-' then StripHyphens(s[..|s| - 1]) else s
  }

  lemma {:induction false} StripsOnlyHyphens(s: string)
    ensures forall i :: |StripHyphens(s)| <= i < |s| ==> s[i] == '-'
  {
    if s != [] && s[|s| - 1] == '-' { StripsOnlyHyphens(s[..|s| - 1]); }
  }

  function Min(a: nat, b: nat): nat { if a < b then a else b }

  /** `s[:n]`. */
  function Prefix(s: string, n: nat): string { s[..Min(n, |s|)] }

  /** The base slug; a falsy maximum length means no truncation. */
  function Base(text: string, maxLength: nat): string {
    if maxLength == 0 then text else StripHyphens(Prefix(text, maxLength))
  }

  function Suffix(counter: nat): string { "-" + Print(counter) }

  /** What remains of the base in front of a suffix. */
  function Stem(base: string, maxLength: nat, suffix: string): string {
    if maxLength == 0 then base
    else StripHyphens(Prefix(base, if |suffix| < maxLength then maxLength - |suffix| else 0))
  }

  function Candidate(base: string, maxLength: nat, counter: nat): string {
    Stem(base, maxLength, Suffix(counter)) + Suffix(counter)
  }

  /** The slugs tried, in order: the base itself, then the candidates 1, 2, ... */
  function Attempt(base: string, maxLength: nat, i: nat): string {
    if i == 0 then base else Candidate(base, maxLength, i)
  }

  /******* Candidates *******/

  /** How many characters follow the last hyphen. */
  function TailLength(s: string): nat {
    if s == [] || s[|s| - 1] == '-' then 0 else 1 + TailLength(s[..|s| - 1])
  }

  lemma {:induction false} TailOf(a: string, p: string)
    requires '-' !in p
    ensures TailLength(a + "-" + p) == |p|
  {
    var s := a + "-" + p;
    if p == [] {
      assert s[|s| - 1] == '-';
    } else {
      assert s[|s| - 1] == p[|p| - 1] && s[..|s| - 1] == a + "-" + p[..|p| - 1];
      TailOf(a, p[..|p| - 1]);
    }
  }

  lemma LastHyphen(a: string, b: string, p: string, q: string)
    requires '-' !in p && '-' !in q && a + "-" + p == b + "-" + q
    ensures a == b && p == q
  {
    var s := a + "-" + p;
    TailOf(a, p);
    TailOf(b, q);
    assert a == s[..|a|] == b && p == s[|a| + 1..] == q;
  }

  lemma NumeralHasNoHyphen(n: nat)
    ensures '-' !in Print(n)
  {
    PrintIsNumeral(n);
  }

  /** Different counters give different candidates, whatever truncation and hyphen stripping removed. */
  lemma CandidatesDistinct(base: string, maxLength: nat, j: nat, k: nat)
    requires Candidate(base, maxLength, j) == Candidate(base, maxLength, k)
    ensures j == k
  {
    NumeralHasNoHyphen(j);
    NumeralHasNoHyphen(k);
    SuffixOf(Stem(base, maxLength, Suffix(j)), j);
    SuffixOf(Stem(base, maxLength, Suffix(k)), k);
    LastHyphen(Stem(base, maxLength, Suffix(j)), Stem(base, maxLength, Suffix(k)), Print(j), Print(k));
    PrintInjective(j, k);
  }

  lemma SuffixOf(stem: string, counter: nat)
    ensures stem + Suffix(counter) == stem + "-" + Print(counter)
  {
  }

  /** A candidate exceeds the maximum length only when its suffix alone does. */
  lemma CandidateFits(base: string, maxLength: nat, counter: nat)
    requires maxLength > 0
    ensures |Candidate(base, maxLength, counter)| <= maxLength <==> |Suffix(counter)| <= maxLength
  {
  }

  /** The first `n` candidates. */
  function Candidates(base: string, maxLength: nat, n: nat): set<string> {
    if n == 0 then {} else Candidates(base, maxLength, n - 1) + {Candidate(base, maxLength, n)}
  }

  lemma {:induction false} CandidateIndex(base: string, maxLength: nat, n: nat, s: string) returns (k: nat)
    requires s in Candidates(base, maxLength, n)
    ensures 1 <= k <= n && s == Candidate(base, maxLength, k)
  {
    if s == Candidate(base, maxLength, n) { k := n; } else { k := CandidateIndex(base, maxLength, n - 1, s); }
  }

  lemma {:induction false} CandidateCount(base: string, maxLength: nat, n: nat)
    ensures |Candidates(base, maxLength, n)| == n
  {
    if n > 0 {
      CandidateCount(base, maxLength, n - 1);
      if Candidate(base, maxLength, n) in Candidates(base, maxLength, n - 1) {
        var k := CandidateIndex(base, maxLength, n - 1, Candidate(base, maxLength, n));
        CandidatesDistinct(base, maxLength, n, k);
      }
    }
  }

  lemma {:induction false} AllTaken(base: string, maxLength: nat, n: nat, taken: set<string>)
    requires forall k :: 1 <= k <= n ==> Candidate(base, maxLength, k) in taken
    ensures n <= |taken|
  {
    CandidateCount(base, maxLength, n);
    forall s <- Candidates(base, maxLength, n) ensures s in taken { var k := CandidateIndex(base, maxLength, n, s); }
    SubsetSize(Candidates(base, maxLength, n), taken);
  }

  /******* The search *******/

  /** `slug` is the first free attempt, the `tries`-th candidate (0: the base). */
  ghost predicate FirstFree(base: string, maxLength: nat, taken: set<string>, slug: string, tries: nat) {
    && slug == Attempt(base, maxLength, tries) && slug !in taken
    && forall i: nat :: i < tries ==> Attempt(base, maxLength, i) in taken
  }

  /******* What is kept of the text *******/

  /** `kept` is the longest prefix of `s` of at most `room` characters, less the hyphens it ends with. */
  ghost predicate KeepsWhatFits(s: string, room: nat, kept: string) {
    && kept <= s && |kept| <= room && (kept == [] || kept[|kept| - 1] != '-')
    && forall i :: |kept| <= i < |s| && i < room ==> s[i] == '-'
  }

  /** The base slug is the text, or with a maximum length what fits of it. */
  lemma BaseKeepsWhatFits(text: string, maxLength: nat)
    ensures if maxLength == 0 then Base(text, maxLength) == text
            else KeepsWhatFits(text, maxLength, Base(text, maxLength))
    ensures maxLength > 0 && |text| <= maxLength && (text == [] || text[|text| - 1] != '-') ==>
              Base(text, maxLength) == text
  {
    StripsOnlyHyphens(Prefix(text, maxLength));
  }

  /** `slug` is the base as far as it fits, a hyphen, and the number of tries; `kept` is what remains of the base. */
  ghost predicate Suffixed(base: string, maxLength: nat, tries: nat, slug: string, kept: string) {
    && slug == kept + "-" + Print(tries)
    && if maxLength == 0 then kept == base
       else KeepsWhatFits(base, if |Print(tries)| + 1 <= maxLength then maxLength - |Print(tries)| - 1 else 0, kept)
  }

  /** The candidate of a counter is what fits of the base, a hyphen and the counter. */
  lemma CandidateIsSuffixed(base: string, maxLength: nat, counter: nat)
    ensures Suffixed(base, maxLength, counter, Candidate(base, maxLength, counter),
                     Stem(base, maxLength, Suffix(counter)))
  {
    SuffixOf(Stem(base, maxLength, Suffix(counter)), counter);
    if maxLength > 0 {
      StripsOnlyHyphens(Prefix(base, if |Suffix(counter)| < maxLength then maxLength - |Suffix(counter)| else 0));
    }
  }

  lemma OnlyCandidateIsSuffixed(base: string, maxLength: nat, counter: nat, slug: string, kept: string)
    requires Suffixed(base, maxLength, counter, slug, kept)
    ensures slug == Candidate(base, maxLength, counter)
  {
    CandidateIsSuffixed(base, maxLength, counter);
    if maxLength > 0 {
      KeptUnique(base, if |Print(counter)| + 1 <= maxLength then maxLength - |Print(counter)| - 1 else 0, kept,
                 Stem(base, maxLength, Suffix(counter)));
    }
  }

  /**
    The outcome of the search is the base itself, or what fits of it in front of the number of tries: all of it, if
    there is no maximum length or the whole fits and does not end with a hyphen.
   */
  lemma SlugKeepsBase(base: string, maxLength: nat, taken: set<string>, slug: string, tries: nat) returns (kept: string)
    requires FirstFree(base, maxLength, taken, slug, tries)
    ensures tries == 0 ==> slug == base
    ensures tries > 0 ==> Suffixed(base, maxLength, tries, slug, kept)
    ensures maxLength == 0 || (|base| + 1 + |Print(tries)| <= maxLength && (base == [] || base[|base| - 1] != '-')) ==>
              kept == base
  {
    kept := Stem(base, maxLength, Suffix(tries));
    CandidateIsSuffixed(base, maxLength, tries);
  }

  /** What fits is determined. */
  lemma KeptUnique(s: string, room: nat, kept: string, kept': string)
    requires KeepsWhatFits(s, room, kept) && KeepsWhatFits(s, room, kept')
    ensures kept == kept'
  {
    assert kept == s[..|kept|] && kept' == s[..|kept'|];
  }

  /** With "lamp" taken, the next slug is "lamp-1", for products and for bundles alike. */
  lemma TakenOnce(base: string, maxLength: nat, taken: set<string>)
    requires base in taken && base + "-1" !in taken
    requires maxLength == 0 || (|base| + 2 <= maxLength && (base == [] || base[|base| - 1] != '-'))
    ensures FirstFree(base, maxLength, taken, base + "-1", 1)
  {
    assert Print(1) == "1" && Suffix(1) == "-1";
    assert Prefix(base, |base|) == base;
    assert forall i: nat :: i < 1 ==> Attempt(base, maxLength, i) == base;
    if maxLength > 0 { assert Prefix(base, maxLength - 2) == base; }
  }

  /** The slugs of the rows other than the instance's own. */
  function Taken(rows: map<nat, string>, own: Option<nat>): set<string> {
    set pk <- rows | own != Some(pk) :: rows[pk]
  }

  /** Another row than the instance's own has the slug. */
  ghost predicate TakenByOther(rows: map<nat, string>, own: Option<nat>, slug: string) {
    exists pk <- rows :: own != Some(pk) && rows[pk] == slug
  }

  /** The slug is free; it is the base only if that is, and the base is taken otherwise. */
  lemma FreeOfOthers(base: string, maxLength: nat, rows: map<nat, string>, own: Option<nat>, slug: string, tries: nat)
    requires FirstFree(base, maxLength, Taken(rows, own), slug, tries)
    ensures !TakenByOther(rows, own, slug)
    ensures tries > 0 <==> TakenByOther(rows, own, base)
    ensures forall i: nat, s, kept :: 0 < i < tries && Suffixed(base, maxLength, i, s, kept) ==>
              TakenByOther(rows, own, s)
  {
    assert Attempt(base, maxLength, 0) == base;
    forall i: nat, s, kept | 0 < i < tries && Suffixed(base, maxLength, i, s, kept)
      ensures TakenByOther(rows, own, s)
    {
      OnlyCandidateIsSuffixed(base, maxLength, i, s, kept);
      assert Attempt(base, maxLength, i) in Taken(rows, own);
    }
  }

  /** `generate_unique_slug`: the loop stops after at most one suffix more than there are taken slugs. */
  method GenerateUniqueSlug(text: string, maxLength: nat, rows: map<nat, string>, own: Option<nat>)
    returns (slug: string, tries: nat)
    ensures FirstFree(Base(text, maxLength), maxLength, Taken(rows, own), slug, tries)
    ensures !TakenByOther(rows, own, slug) && (tries > 0 <==> TakenByOther(rows, own, Base(text, maxLength)))
    ensures tries == 0 ==> slug == Base(text, maxLength)
    ensures tries > 0 ==> exists kept :: Suffixed(Base(text, maxLength), maxLength, tries, slug, kept)
    ensures forall i: nat, s, kept :: 0 < i < tries && Suffixed(Base(text, maxLength), maxLength, i, s, kept) ==>
              TakenByOther(rows, own, s)
    ensures tries <= |Taken(rows, own)| + 1
    ensures maxLength > 0 && |Suffix(tries)| <= maxLength ==> |slug| <= maxLength
  {
    slug := if maxLength == 0 then text else StripHyphens(Prefix(text, maxLength));
    var base, counter := slug, 1;
    var taken := Taken(rows, own);
    tries := 0;
    while slug in taken
      invariant base == Base(text, maxLength) && counter == tries + 1
      invariant slug == Attempt(base, maxLength, tries)
      invariant forall i: nat :: i < tries ==> Attempt(base, maxLength, i) in taken
      invariant tries <= |taken| + 1
      decreases |taken| + 1 - tries
    {
      assert forall k :: 1 <= k <= tries ==> Candidate(base, maxLength, k) == Attempt(base, maxLength, k);
      AllTaken(base, maxLength, tries, taken);
      var suffix := "-" + Print(counter);
      if maxLength != 0 {
        var room := if maxLength < |suffix| then 0 else maxLength - |suffix|;
        slug := StripHyphens(Prefix(base, room)) + suffix;
      } else {
        slug := base + suffix;
      }
      tries, counter := counter, counter + 1;
    }
    if tries > 0 && maxLength > 0 { CandidateFits(base, maxLength, tries); }
    FreeOfOthers(base, maxLength, rows, own, slug, tries);
    ghost var kept := SlugKeepsBase(base, maxLength, taken, slug, tries);
  }

  /** The bundles' own `_unique_slug`: never truncated, and never empty. */
  method UniqueBundleSlug(text: string, rows: map<nat, string>, excludePk: Option<nat>)
    returns (candidate: string, tries: nat)
    ensures FirstFree(if text == [] then "bundle" else text, 0, Taken(rows, excludePk), candidate, tries)
    ensures !TakenByOther(rows, excludePk, candidate)
    ensures var base := if text == [] then "bundle" else text;
            && candidate == base + (if tries == 0 then "" else "-" + Print(tries))
            && (tries > 0 ==> TakenByOther(rows, excludePk, base))
            && forall i: nat :: 0 < i < tries ==> TakenByOther(rows, excludePk, base + "-" + Print(i))
    ensures tries <= |Taken(rows, excludePk)| + 1 && candidate != []
  {
    var slug := if text == [] then "bundle" else text;
    var counter, taken := 1, Taken(rows, excludePk);
    candidate, tries := slug, 0;
    while candidate in taken
      invariant counter == tries + 1 && candidate == Attempt(slug, 0, tries) && candidate != []
      invariant forall i: nat :: i < tries ==> Attempt(slug, 0, i) in taken
      invariant tries <= |taken| + 1
      decreases |taken| + 1 - tries
    {
      assert forall k :: 1 <= k <= tries ==> Candidate(slug, 0, k) == Attempt(slug, 0, k);
      AllTaken(slug, 0, tries, taken);
      candidate := slug + "-" + Print(counter);
      assert candidate == slug + ("-" + Print(counter));
      tries, counter := counter, counter + 1;
    }
    FreeOfOthers(slug, 0, rows, excludePk, candidate, tries);
    assert slug + "" == slug;
    forall i: nat | 0 < i < tries ensures TakenByOther(rows, excludePk, slug + "-" + Print(i)) {
      assert Suffixed(slug, 0, i, slug + "-" + Print(i), slug);
    }
  }

  /** Only one slug and count can be the outcome. */
  lemma FirstFreeUnique(base: string, maxLength: nat, taken: set<string>, s: string, i: nat, t: string, j: nat)
    requires FirstFree(base, maxLength, taken, s, i) && FirstFree(base, maxLength, taken, t, j)
    ensures s == t && i == j
  {
  }

  /** Regenerating an instance's slug after other rows were added gives it back exactly when none of them took it. */
  lemma StableAsRowsGrow(base: string, maxLength: nat, taken: set<string>, slug: string, tries: nat,
                         grown: set<string>, slug': string, tries': nat)
    requires FirstFree(base, maxLength, taken, slug, tries) && taken <= grown
    requires FirstFree(base, maxLength, grown, slug', tries')
    ensures slug' == slug <==> slug !in grown
  {
    if slug !in grown {
      assert FirstFree(base, maxLength, grown, slug, tries);
      FirstFreeUnique(base, maxLength, grown, slug, tries, slug', tries');
    }
  }

  /** The bound is reached: a base that ends like a suffix can be cut back to itself. */
  lemma BoundIsReached(stem: string, maxLength: nat)
    requires maxLength == |stem| + 2 && stem != [] && stem[|stem| - 1] != '-'
    ensures var base := stem + "-1";
            Base(base, maxLength) == base && FirstFree(base, maxLength, {base}, stem + "-2", 2)
  {
    var base := stem + "-1";
    assert Prefix(base, maxLength) == base && Prefix(base, |stem|) == stem;
    assert Print(1) == "1" && Print(2) == "2" && |Suffix(1)| == 2 && |Suffix(2)| == 2;
    assert Attempt(base, maxLength, 1) == stem + Suffix(1) == base;
    assert Attempt(base, maxLength, 2) == stem + Suffix(2) == stem + "-2";
    assert base[|base| - 1] == '1' && (stem + "-2")[|base| - 1] == '2';
    forall i: nat | i < 2 ensures Attempt(base, maxLength, i) == base { if i != 0 { assert i == 1; } }
  }

  /******* Histories *******/

  ghost predicate UniqueSlugs(rows: map<nat, string>) {
    forall a <- rows, b <- rows :: rows[a] == rows[b] ==> a == b
  }

  /** Saving the generated slug never collides with another row. */
  lemma SaveKeepsUnique(rows: map<nat, string>, pk: nat, base: string, maxLength: nat, slug: string, tries: nat)
    requires UniqueSlugs(rows) && FirstFree(base, maxLength, Taken(rows, Some(pk)), slug, tries)
    ensures UniqueSlugs(rows[pk := slug])
  {
    forall b <- rows | b != pk ensures rows[b] != slug { assert rows[b] in Taken(rows, Some(pk)); }
  }
}

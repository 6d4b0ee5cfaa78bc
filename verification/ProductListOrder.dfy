/**
  Which writers' orders of commit and counter bumps keep the product list fresh: exactly those that bump
  the page counter after the commit (for the rows), and the facet counter between the two (for the facet
  counts). Every other order has a run that serves the page without the transaction.
 */
module ProductListOrder {
  import opened Options
  import opened ProductListCache
  import opened ProductListFreshness
  import opened ProductListSequential

  /** In every run, requests opened after a writer of this script has finished show its transaction. */
  ghost predicate RowsAlwaysFresh(script: Script) {
    forall pre, post, w, r :: OpenedAfter(script, pre, post, w, r) ==>
        CommitOf(pre, w) < PageOf(pre, post, r).rows.version
  }

  ghost predicate FacetsAlwaysFresh(script: Script) {
    forall pre, post, w, r :: OpenedAfter(script, pre, post, w, r) ==>
        CommitOf(pre, w) < PageOf(pre, post, r).facets.version
  }

  lemma {:induction false} SteadyConcat(a: seq<Step>, b: seq<Step>)
    requires Steady(a) && Steady(b)
    ensures Steady(a + b)
  {
  }

  lemma {:induction false} ActsSteady(w: nat, n: nat)
    ensures Steady(Acts(w, n))
    decreases n
  {
    if n != 0 { ActsSteady(w, n - 1); }
  }

  /** Writer 0 up to its commit; then request 0, served in full; then the commit and `n` more actions. */
  function Prefix(script: Script, n: nat, q: string): seq<Step> {
    [Spawn(0, script)] + (Acts(0, |script.before|) + (Browse(0, q, Some(q)) + (Acts(0, 1) + Acts(0, n))))
  }

  lemma PrefixSteady(script: Script, n: nat, q: string)
    ensures Steady(Prefix(script, n, q))
  {
    ActsSteady(0, |script.before|);
    ActsSteady(0, 1);
    ActsSteady(0, n);
    SteadyConcat(Acts(0, 1), Acts(0, n));
    SteadyConcat(Browse(0, q, Some(q)), Acts(0, 1) + Acts(0, n));
    SteadyConcat(Acts(0, |script.before|), Browse(0, q, Some(q)) + (Acts(0, 1) + Acts(0, n)));
  }

  function Early(script: Script): Counters { AfterBumps(INIT.counters, script.before, 0) }

  lemma UpToCommit(script: Script)
    ensures var a := Run(INIT, [Spawn(0, script)] + Acts(0, |script.before|));
            && a == INIT.(counters := Early(script), writers := a.writers) && a.writers.Keys == {0}
            && a.writers[0].script == script && a.writers[0].pc == |script.before| && !a.writers[0].missed
  {
    var s0 := Next(INIT, Spawn(0, script));
    RunCons(INIT, Spawn(0, script), Acts(0, |script.before|));
    assert Upcoming(script, 0, script.before);
    BumpsAct(s0, 0, script.before);
  }

  lemma EarlyRequest(a: State, script: Script, q: string)
    requires a == INIT.(counters := Early(script), writers := a.writers)
    ensures Run(a, Browse(0, q, Some(q))) == a.(
              pages := map[Key(Gen(Early(script).page), q) := Entry(Page(Seen(0, 0), Seen(0, 0)), PAGE_TTL)],
              facets := map[Key(Gen(Early(script).facet), q) := Entry(Seen(0, 0), FACETS_TTL)],
              requests := map[0 := Served(Gen(Early(script).page), Page(Seen(0, 0), Seen(0, 0)), 0)])
  {
    BrowseRuns(a, 0, q, Some(q));
  }

  lemma CommitAndBumps(s: State, n: nat)
    requires 0 in s.writers && s.writers[0].pc == |s.writers[0].script.before| && n <= |s.writers[0].script.after|
    requires !s.writers[0].missed
    ensures var t, w := Run(s, Acts(0, 1) + Acts(0, n)), s.writers[0];
            && t == s.(commits := s.commits + [s.now], writers := t.writers,
                       counters := AfterBumps(s.counters, w.script.after[..n], s.now))
            && t.writers.Keys == s.writers.Keys
            && t.writers[0].script == w.script && t.writers[0].pc == |w.script.before| + 1 + n
            && t.writers[0].commit == Some(|s.commits|) && !t.writers[0].missed
  {
    RunConcat(s, Acts(0, 1), Acts(0, n));
    CommitActs(s, 0);
    FirstBumps(Committed(s, 0), n);
  }

  /** The first `n` bumps after the commit. */
  lemma FirstBumps(s: State, n: nat)
    requires 0 in s.writers && s.writers[0].pc == |s.writers[0].script.before| + 1 && !s.writers[0].missed
    requires n <= |s.writers[0].script.after|
    ensures var t, w := Run(s, Acts(0, n)), s.writers[0];
            && 0 in t.writers
            && t == s.(counters := AfterBumps(s.counters, w.script.after[..n], s.now),
                       writers := s.writers[0 := t.writers[0]])
            && t.writers[0].script == w.script && t.writers[0].pc == w.pc + n
            && t.writers[0].commit == w.commit && !t.writers[0].missed
  {
    FirstUpcoming(s.writers[0].script, n);
    BumpsAct(s, 0, s.writers[0].script.after[..n]);
  }

  lemma FirstUpcoming(script: Script, n: nat)
    requires n <= |script.after|
    ensures Upcoming(script, |script.before| + 1, script.after[..n])
  {
  }

  /** After `Prefix`, request 0's page and facet counts, both from before the commit, are cached. */
  lemma PrefixRuns(script: Script, n: nat, q: string)
    requires n <= |script.after|
    ensures var t := Run(INIT, Prefix(script, n, q));
            && t.now == 0 && t.commits == [0] && t.counters == AfterBumps(Early(script), script.after[..n], 0)
            && t.pages == map[Key(Gen(Early(script).page), q) := Entry(Page(Seen(0, 0), Seen(0, 0)), PAGE_TTL)]
            && t.facets == map[Key(Gen(Early(script).facet), q) := Entry(Seen(0, 0), FACETS_TTL)]
            && t.requests.Keys == {0} && t.writers.Keys == {0}
            && t.writers[0].script == script && t.writers[0].pc == |script.before| + 1 + n
            && t.writers[0].commit == Some(0) && !t.writers[0].missed
  {
    var ab, c, d := [Spawn(0, script)] + Acts(0, |script.before|), Browse(0, q, Some(q)), Acts(0, 1) + Acts(0, n);
    assert Prefix(script, n, q) == ab + (c + d);
    RunThree(INIT, ab, c, d);
    UpToCommit(script);
    EarlyRequest(Run(INIT, ab), script, q);
    CommitAndBumps(Run(Run(INIT, ab), c), n);
  }

  /** Writer 0 has finished, request `r` is new, and the next request would be served `page`. */
  ghost predicate Frozen(s: State, script: Script, r: nat, q: string, page: Page) {
    && s.writers.Keys == {0} && s.writers[0].script == script && s.writers[0].Finished()
    && s.writers[0].commit == Some(0) && r !in s.requests && PageHit(s, q) == Some(page)
  }

  /** A cached page is what the next request gets, whatever has been committed since. */
  lemma CachedPageIsServed(script: Script, pre: seq<Step>, r: nat, q: string, page: Page)
    requires Steady(pre)
    requires Frozen(Run(INIT, pre), script, r, q, page)
    ensures OpenedAfter(script, pre, Browse(r, q, None), 0, r)
    ensures CommitOf(pre, 0) == 0 && PageOf(pre, Browse(r, q, None), r) == page
  {
    BrowseRuns(Run(INIT, pre), r, q, None);
    SteadyKeeps(INIT, pre);
    SteadyKeeps(Run(INIT, pre), Browse(r, q, None));
  }

  /** With no page bump after the commit, request 1 is served the early page although the writer has finished. */
  lemma StaleRows(script: Script, q: string)
    requires PageGeneration !in script.after
    ensures var pre := Prefix(script, |script.after|, q);
            && OpenedAfter(script, pre, Browse(1, q, None), 0, 1) && CommitOf(pre, 0) == 0
            && PageOf(pre, Browse(1, q, None), 1) == Page(Seen(0, 0), Seen(0, 0))
  {
    PrefixSteady(script, |script.after|, q);
    PrefixRuns(script, |script.after|, q);
    assert script.after[..|script.after|] == script.after;
    AfterBumpsRaises(Early(script), script.after, 0, PageGeneration);
    CachedPageIsServed(script, Prefix(script, |script.after|, q), 1, q, Page(Seen(0, 0), Seen(0, 0)));
  }

  /** Writer 0 up to its last page bump, request 1, and the rest of writer 0. */
  function LatePrefix(script: Script, n: nat, q: string): seq<Step>
    requires n <= |script.after|
  {
    Prefix(script, n, q) + (Browse(1, q, Some(q)) + Acts(0, |script.after| - n))
  }

  /** Request 1 found the facet counts that request 0 stored and froze them into a page of the new generation. */
  lemma FrozenFacets(script: Script, n: nat, q: string)
    requires n <= |script.after| && FacetGeneration !in script.after[..n] && PageGeneration in script.after[..n]
    ensures var s := Run(Run(INIT, Prefix(script, n, q)), Browse(1, q, Some(q)));
            var gen := AfterBumps(Early(script), script.after[..n], 0).page;
            && s.now == 0 && s.commits == [0] && s.counters == AfterBumps(Early(script), script.after[..n], 0)
            && Lookup(s.pages, Key(Gen(gen), q), 0) == Some(Page(Seen(1, 0), Seen(0, 0)))
            && s.requests.Keys == {0, 1} && s.writers.Keys == {0}
            && s.writers[0].script == script && s.writers[0].pc == |script.before| + 1 + n
            && s.writers[0].commit == Some(0) && !s.writers[0].missed
  {
    var s := Run(INIT, Prefix(script, n, q));
    PrefixRuns(script, n, q);
    AfterBumpsRaises(Early(script), script.after[..n], 0, FacetGeneration);
    AfterBumpsRaises(Early(script), script.after[..n], 0, PageGeneration);
    BrowseRuns(s, 1, q, Some(q));
    assert PageHit(s, q).None?;
    assert FacetHit(s, Some(q)) == Some(Seen(0, 0));
  }

  lemma RestOfScript(s: State, script: Script, n: nat, r: nat, q: string, page: Page)
    requires s.writers.Keys == {0} && s.writers[0].script == script && s.writers[0].commit == Some(0)
    requires n <= |script.after| && s.writers[0].pc == |script.before| + 1 + n && PageGeneration !in script.after[n..]
    requires r !in s.requests && PageHit(s, q) == Some(page) && !s.writers[0].missed
    ensures Frozen(Run(s, Acts(0, |script.after| - n)), script, r, q, page)
  {
    RestUpcoming(script, n);
    BumpsAct(s, 0, script.after[n..]);
    AfterBumpsRaises(s.counters, script.after[n..], s.now, PageGeneration);
  }

  lemma RestUpcoming(script: Script, n: nat)
    requires n <= |script.after|
    ensures Upcoming(script, |script.before| + 1 + n, script.after[n..])
  {
  }

  lemma LatePrefixSteady(script: Script, n: nat, q: string)
    requires n <= |script.after|
    ensures Steady(LatePrefix(script, n, q))
  {
    PrefixSteady(script, n, q);
    ActsSteady(0, |script.after| - n);
    SteadyConcat(Browse(1, q, Some(q)), Acts(0, |script.after| - n));
    SteadyConcat(Prefix(script, n, q), Browse(1, q, Some(q)) + Acts(0, |script.after| - n));
  }

  lemma LatePrefixRuns(script: Script, n: nat, q: string)
    requires n <= |script.after| && FacetGeneration !in script.after[..n] && PageGeneration in script.after[..n]
    requires PageGeneration !in script.after[n..]
    ensures Frozen(Run(INIT, LatePrefix(script, n, q)), script, 2, q, Page(Seen(1, 0), Seen(0, 0)))
  {
    FrozenFacets(script, n, q);
    var s := Run(Run(INIT, Prefix(script, n, q)), Browse(1, q, Some(q)));
    RestOfScript(s, script, n, 2, q, Page(Seen(1, 0), Seen(0, 0)));
    LatePrefixSplits(script, n, q);
  }

  lemma RunThree(s: State, a: seq<Step>, b: seq<Step>, c: seq<Step>)
    ensures Run(s, a + (b + c)) == Run(Run(Run(s, a), b), c)
  {
    RunConcat(s, a, b + c);
    RunConcat(Run(s, a), b, c);
  }

  lemma LatePrefixSplits(script: Script, n: nat, q: string)
    requires n <= |script.after|
    ensures Run(INIT, LatePrefix(script, n, q))
            == Run(Run(Run(INIT, Prefix(script, n, q)), Browse(1, q, Some(q))), Acts(0, |script.after| - n))
  {
    RunThree(INIT, Prefix(script, n, q), Browse(1, q, Some(q)), Acts(0, |script.after| - n));
  }

  /** With no facet bump between the commit and the last page bump, request 2 is served the frozen facet counts. */
  lemma StaleFacets(script: Script, n: nat, q: string)
    requires n <= |script.after| && FacetGeneration !in script.after[..n] && PageGeneration in script.after[..n]
    requires PageGeneration !in script.after[n..]
    ensures var pre := LatePrefix(script, n, q);
            && OpenedAfter(script, pre, Browse(2, q, None), 0, 2) && CommitOf(pre, 0) == 0
            && PageOf(pre, Browse(2, q, None), 2) == Page(Seen(1, 0), Seen(0, 0))
  {
    LatePrefixSteady(script, n, q);
    LatePrefixRuns(script, n, q);
    CachedPageIsServed(script, LatePrefix(script, n, q), 2, q, Page(Seen(1, 0), Seen(0, 0)));
  }

  lemma {:induction false} LastPageBump(bumps: seq<Bump>) returns (n: nat)
    requires PageGeneration in bumps
    ensures 0 < n <= |bumps| && bumps[n - 1] == PageGeneration && PageGeneration !in bumps[n..]
  {
    n := |bumps|;
    while bumps[n - 1] != PageGeneration
      invariant 0 < n <= |bumps| && PageGeneration !in bumps[n..] && PageGeneration in bumps[..n]
      decreases n
    {
      assert bumps[..n] == bumps[..n - 1] + [bumps[n - 1]];
      assert bumps[n - 1..] == [bumps[n - 1]] + bumps[n..];
      n := n - 1;
    }
  }

  /******* The two characterisations *******/

  lemma RowsFreshExactlyWhenPageFollowsCommit(script: Script)
    ensures RowsAlwaysFresh(script) <==> PageGeneration in script.after
  {
    if PageGeneration in script.after {
      var i :| 0 <= i < |script.after| && script.after[i] == PageGeneration;
      assert script.Has(PageGeneration, |script.after|);
      forall pre, post, w, r | OpenedAfter(script, pre, post, w, r)
        ensures CommitOf(pre, w) < PageOf(pre, post, r).rows.version
      {
        RequestShowsFinishedWriter(script, pre, post, w, r);
      }
    } else {
      StaleRows(script, "");
    }
  }

  lemma NoFacetBefore(script: Script, n: nat, i: nat)
    requires !script.HasFacetThenPage(|script.after|) && i < n <= |script.after|
    requires script.after[n - 1] == PageGeneration
    ensures script.after[i] != FacetGeneration
  {
  }

  lemma FacetsFreshExactlyWhenFacetThenPageFollowCommit(script: Script)
    ensures FacetsAlwaysFresh(script) <==> script.HasFacetThenPage(|script.after|)
  {
    if script.HasFacetThenPage(|script.after|) {
      forall pre, post, w, r | OpenedAfter(script, pre, post, w, r)
        ensures CommitOf(pre, w) < PageOf(pre, post, r).facets.version
      {
        RequestShowsFinishedWriter(script, pre, post, w, r);
      }
    } else if PageGeneration in script.after {
      var n := LastPageBump(script.after);
      forall i | 0 <= i < n ensures script.after[i] != FacetGeneration {
        NoFacetBefore(script, n, i);
      }
      assert script.after[..n][n - 1] == PageGeneration;
      StaleFacets(script, n, "");
    } else {
      StaleRows(script, "");
    }
  }

  /**
    The handlers of the source. Plain product and facet-definition saves keep rows and facet counts fresh,
    plain category and image saves keep the rows fresh; the same handlers fired before the commit keep neither.
   */
  lemma SourceHandlers(e: Event)
    ensures RowsAlwaysFresh(PlainSave(e))
    ensures FacetsAlwaysFresh(PlainSave(e)) <==> e.ProductEvent? || e.FacetDefinitionEvent?
    ensures !RowsAlwaysFresh(InTransaction(e)) && !FacetsAlwaysFresh(InTransaction(e))
  {
    HandlerOrder(e);
    RowsFreshExactlyWhenPageFollowsCommit(PlainSave(e));
    FacetsFreshExactlyWhenFacetThenPageFollowCommit(PlainSave(e));
    RowsFreshExactlyWhenPageFollowsCommit(InTransaction(e));
    FacetsFreshExactlyWhenFacetThenPageFollowCommit(InTransaction(e));
  }

  /** Every handler ends with the page bump; only two of them bump the facet counter, and before it. */
  lemma HandlerOrder(e: Event)
    ensures PageGeneration in PlainSave(e).after
    ensures PlainSave(e).HasFacetThenPage(|Handler(e)|) <==> e.ProductEvent? || e.FacetDefinitionEvent?
    ensures InTransaction(e).after == []
  {
    match e
    case CategoryEvent => assert PlainSave(e).after[1] == PageGeneration;
    case ProductEvent => assert PlainSave(e).after[1] == FacetGeneration && PlainSave(e).after[2] == PageGeneration;
    case ImageEvent => assert PlainSave(e).after[0] == PageGeneration;
    case FacetDefinitionEvent =>
      assert PlainSave(e).after[0] == FacetGeneration && PlainSave(e).after[1] == PageGeneration;
  }
}

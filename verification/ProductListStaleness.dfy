/**
  What the expiry times alone guarantee, with no assumption on counters, signal order or evictions: how old
  the rows and facet counts of a served page can be.
 */
module ProductListStaleness {
  import opened Options
  import opened ProductListCache

  /** `seen` contains every transaction committed before the instant it was read at. */
  ghost predicate SeenOk(s: State, seen: Seen) {
    && seen.readAt <= s.now
    && (forall i :: seen.version <= i < |s.commits| ==> seen.readAt <= s.commits[i])
  }

  ghost predicate PageEntryOk(s: State, e: Entry<Page>) {
    && SeenOk(s, e.value.rows) && SeenOk(s, e.value.facets)
    && e.expiresAt <= e.value.rows.readAt + s.slowest + PAGE_TTL
    && e.expiresAt <= e.value.facets.readAt + 2 * s.slowest + FACETS_TTL + PAGE_TTL
  }

  ghost predicate FacetEntryOk(s: State, e: Entry<Seen>) {
    SeenOk(s, e.value) && e.expiresAt <= e.value.readAt + s.slowest + FACETS_TTL
  }

  ghost predicate RequestAged(s: State, r: Request) {
    match r
    case Served(_, page, at) =>
      && SeenOk(s, page.rows) && SeenOk(s, page.facets)
      && at < page.rows.readAt + s.slowest + PAGE_TTL
      && at < page.facets.readAt + 2 * s.slowest + FACETS_TTL + PAGE_TTL
    case Opened(_, _, t) => t <= s.now
    case Missed(_, _, t) => t <= s.now
    case HasRows(_, _, t, rows) => t <= s.now && SeenOk(s, rows) && t <= rows.readAt
    case HasFacetGen(_, _, t, rows, _) => t <= s.now && SeenOk(s, rows) && t <= rows.readAt
    case FacetsMissed(_, _, t, rows, _, _) => t <= s.now && SeenOk(s, rows) && t <= rows.readAt
    case FacetsRead(_, _, t, rows, _, _, facets) =>
      t <= s.now && SeenOk(s, rows) && t <= rows.readAt && SeenOk(s, facets) && t <= facets.readAt
    case Ready(_, _, t, rows, facets) =>
      && t <= s.now && SeenOk(s, rows) && t <= rows.readAt
      && SeenOk(s, facets) && t <= facets.readAt + s.slowest + FACETS_TTL
  }

  ghost predicate Aged(s: State) {
    && (forall k <- s.pages :: PageEntryOk(s, s.pages[k]))
    && (forall k <- s.facets :: FacetEntryOk(s, s.facets[k]))
    && (forall r <- s.requests :: RequestAged(s, s.requests[r]))
  }

  /** Time passes: the clock and the slowest build only grow, and new commits carry the current instant. */
  ghost predicate Ages(s: State, t: State) {
    && s.now <= t.now && s.slowest <= t.slowest
    && |s.commits| <= |t.commits|
    && (forall i :: 0 <= i < |t.commits| ==> if i < |s.commits| then t.commits[i] == s.commits[i]
        else s.now <= t.commits[i])
  }

  lemma SeenAges(s: State, t: State, seen: Seen)
    requires Ages(s, t) && SeenOk(s, seen)
    ensures SeenOk(t, seen)
  {
  }

  lemma RequestAges(s: State, t: State, r: Request)
    requires Ages(s, t) && RequestAged(s, r)
    ensures RequestAged(t, r)
  {
    match r
    case Served(_, page, _) => SeenAges(s, t, page.rows); SeenAges(s, t, page.facets);
    case Opened(_, _, _) =>
    case Missed(_, _, _) =>
    case HasRows(_, _, _, rows) => SeenAges(s, t, rows);
    case HasFacetGen(_, _, _, rows, _) => SeenAges(s, t, rows);
    case FacetsMissed(_, _, _, rows, _, _) => SeenAges(s, t, rows);
    case FacetsRead(_, _, _, rows, _, _, facets) => SeenAges(s, t, rows); SeenAges(s, t, facets);
    case Ready(_, _, _, rows, facets) => SeenAges(s, t, rows); SeenAges(s, t, facets);
  }

  /** Every entry and request of `t` is one of `s`, or sound on its own. */
  ghost predicate Extends(s: State, t: State) {
    && Ages(s, t)
    && (forall k <- t.pages :: (k in s.pages && t.pages[k] == s.pages[k]) || PageEntryOk(t, t.pages[k]))
    && (forall k <- t.facets :: (k in s.facets && t.facets[k] == s.facets[k]) || FacetEntryOk(t, t.facets[k]))
    && (forall r <- t.requests :: (r in s.requests && t.requests[r] == s.requests[r]) || RequestAged(t, t.requests[r]))
  }

  lemma ExtendsAged(s: State, t: State)
    requires Aged(s) && Extends(s, t)
    ensures Aged(t)
  {
    forall k <- t.pages ensures PageEntryOk(t, t.pages[k]) {
      if k in s.pages && t.pages[k] == s.pages[k] {
        assert PageEntryOk(s, s.pages[k]);
        SeenAges(s, t, s.pages[k].value.rows);
        SeenAges(s, t, s.pages[k].value.facets);
      }
    }
    forall k <- t.facets ensures FacetEntryOk(t, t.facets[k]) {
      if k in s.facets && t.facets[k] == s.facets[k] {
        assert FacetEntryOk(s, s.facets[k]);
        SeenAges(s, t, s.facets[k].value);
      }
    }
    forall r <- t.requests ensures RequestAged(t, t.requests[r]) {
      if r in s.requests && t.requests[r] == s.requests[r] { RequestAges(s, t, s.requests[r]); }
    }
  }

  lemma PageLookupAged(s: State, id: nat, step: Step)
    requires Aged(s) && id in s.requests && s.requests[id].Opened?
    ensures Extends(s, RequestStep(s, id, step))
  {
    var r := s.requests[id];
    assert RequestAged(s, r);
    if step.LookupPage? && Key(r.gen, r.query) in s.pages { assert PageEntryOk(s, s.pages[Key(r.gen, r.query)]); }
  }

  lemma FacetLookupAged(s: State, id: nat, step: Step)
    requires Aged(s) && id in s.requests && s.requests[id].HasFacetGen?
    ensures Extends(s, RequestStep(s, id, step))
  {
    var r := s.requests[id];
    assert RequestAged(s, r);
    if step.LookupFacets? && step.key.Some? && Key(r.facetGen, step.key.value) in s.facets {
      assert FacetEntryOk(s, s.facets[Key(r.facetGen, step.key.value)]);
    }
  }

  lemma StoreAged(s: State, id: nat, step: Step)
    requires Aged(s) && id in s.requests && (s.requests[id].FacetsRead? || s.requests[id].Ready?)
    ensures Extends(s, RequestStep(s, id, step))
  {
    assert RequestAged(s, s.requests[id]);
  }

  lemma RequestStepExtends(s: State, id: nat, step: Step)
    requires Aged(s) && id in s.requests
    ensures Extends(s, RequestStep(s, id, step))
  {
    var r := s.requests[id];
    assert RequestAged(s, r);
    if r.Opened? {
      PageLookupAged(s, id, step);
    } else if r.HasFacetGen? {
      FacetLookupAged(s, id, step);
    } else if r.FacetsRead? || r.Ready? {
      StoreAged(s, id, step);
    }
  }

  lemma WriterStepExtends(s: State, w: nat)
    requires Aged(s) && w in s.writers
    ensures Extends(s, WriterStep(s, w))
  {
    var t := WriterStep(s, w);
    assert t.pages == s.pages && t.facets == s.facets && t.requests == s.requests;
  }

  lemma NextAged(s: State, step: Step)
    requires Aged(s)
    ensures Aged(Next(s, step))
  {
    var t := Next(s, step);
    if step.Act? {
      if step.writer in s.writers { WriterStepExtends(s, step.writer); }
    } else if OfRequest(step) {
      if step.request in s.requests { RequestStepExtends(s, step.request, step); }
    } else {
      assert Extends(s, t);
    }
    if t != s { ExtendsAged(s, t); }
  }

  lemma {:induction false} RunAged(s: State, steps: seq<Step>)
    requires Aged(s)
    ensures Aged(Run(s, steps))
    decreases |steps|
  {
    if steps != [] {
      NextAged(s, steps[0]);
      RunAged(Next(s, steps[0]), steps[1..]);
    }
  }

  /**
    In every run whatsoever, a page served at instant `at` shows every transaction committed 60 seconds plus one
    build time earlier, and its facet counts every transaction committed 360 seconds plus two build times earlier.
    `slowest` is the longest build, from a request's first access to its last store, seen in the run.
   */
  lemma StalenessIsBounded(steps: seq<Step>, r: nat, i: nat)
    requires var t := Run(INIT, steps);
             r in t.requests && t.requests[r].Served? && i < |t.commits|
    ensures var t := Run(INIT, steps);
            && (t.commits[i] + 60 + t.slowest <= t.requests[r].at ==> i < t.requests[r].page.rows.version)
            && (t.commits[i] + 360 + 2 * t.slowest <= t.requests[r].at ==>
                  i < t.requests[r].page.facets.version)
  {
    RunAged(INIT, steps);
    var t := Run(INIT, steps);
    assert RequestAged(t, t.requests[r]);
  }
}

/**
  What happens when a generation counter moves back, because it expired, was evicted, or was created over a later
  one: a run in which an expired counter brings an old page back, and exactly when nothing of the kind can follow.
 */
module ProductListLoss {
  import opened Options
  import opened ProductListCache
  import opened ProductListSequential

  /******* A page counter that expires *******/

  /** Save 0 creates the counter; request 0 is served 290 seconds later, and save 1 follows 5 seconds after that. */
  function BeforeExpiry(q: string): seq<Step> {
    SaveSteps(0, ImageEvent) + ([Tick(290)] + (Browse(0, q, None) + ([Tick(5)] + SaveSteps(1, ImageEvent))))
  }

  /** The counter expires after 5 more seconds; one second later comes save 2, and after another one request 1. */
  function AfterExpiry(q: string): seq<Step> {
    [Tick(6)] + (SaveSteps(2, ImageEvent) + ([Tick(1)] + Browse(1, q, None)))
  }

  lemma ImageSaves(s: State, w: nat)
    requires w !in s.writers
    ensures var t := Run(s, SaveSteps(w, ImageEvent));
            && t == s.(commits := s.commits + [s.now], writers := t.writers,
                       counters := s.counters.(page := Bumped(s.counters.page, s.now)))
            && t.writers.Keys == s.writers.Keys + {w} && (forall v <- s.writers :: t.writers[v] == s.writers[v])
            && t.writers[w].script == PlainSave(ImageEvent) && t.writers[w].Finished()
            && t.writers[w].commit == Some(|s.commits|)
  {
    SaveRuns(s, w, ImageEvent);
    HandlerBumps(s.counters, ImageEvent, s.now);
  }

  lemma FirstSaveAndPage(q: string)
    ensures var s := Run(Next(Run(INIT, SaveSteps(0, ImageEvent)), Tick(290)), Browse(0, q, None));
            && s.now == 290 && s.commits == [0] && s.counters.page == Some(Counter(1, 300))
            && Key(1, q) in s.pages && s.pages[Key(1, q)] == Entry(Page(Seen(1, 290), Seen(1, 290)), 350)
            && s.requests.Keys == {0} && s.writers.Keys == {0}
  {
    ImageSaves(INIT, 0);
    var s := Next(Run(INIT, SaveSteps(0, ImageEvent)), Tick(290));
    BrowseRuns(s, 0, q, None);
  }

  lemma BeforeExpiryRuns(q: string)
    ensures var s := Run(INIT, BeforeExpiry(q));
            && s.now == 295 && s.counters.page == Some(Counter(2, 300))
            && Key(1, q) in s.pages && s.pages[Key(1, q)] == Entry(Page(Seen(1, 290), Seen(1, 290)), 350)
            && s.requests.Keys == {0} && s.writers.Keys == {0, 1}
            && s.writers[1].script == PlainSave(ImageEvent) && s.writers[1].Finished() && s.writers[1].commit == Some(1)
  {
    var s1 := Run(INIT, SaveSteps(0, ImageEvent));
    var s2 := Next(s1, Tick(290));
    var s3 := Run(s2, Browse(0, q, None));
    FirstSaveAndPage(q);
    RunConcat(INIT, SaveSteps(0, ImageEvent),
              [Tick(290)] + (Browse(0, q, None) + ([Tick(5)] + SaveSteps(1, ImageEvent))));
    RunCons(s1, Tick(290), Browse(0, q, None) + ([Tick(5)] + SaveSteps(1, ImageEvent)));
    RunConcat(s2, Browse(0, q, None), [Tick(5)] + SaveSteps(1, ImageEvent));
    RunCons(s3, Tick(5), SaveSteps(1, ImageEvent));
    ImageSaves(Next(s3, Tick(5)), 1);
  }

  lemma AfterExpiryRuns(s: State, q: string)
    requires s.now == 295 && s.counters.page == Some(Counter(2, 300))
    requires Key(1, q) in s.pages && s.pages[Key(1, q)] == Entry(Page(Seen(1, 290), Seen(1, 290)), 350)
    requires 1 !in s.requests && 2 !in s.writers
    ensures var t := Run(s, AfterExpiry(q));
            1 in t.requests && t.requests[1] == Served(1, Page(Seen(1, 290), Seen(1, 290)), 302)
  {
    var s1 := Next(s, Tick(6));
    var s2 := Run(s1, SaveSteps(2, ImageEvent));
    RunCons(s, Tick(6), SaveSteps(2, ImageEvent) + ([Tick(1)] + Browse(1, q, None)));
    RunConcat(s1, SaveSteps(2, ImageEvent), [Tick(1)] + Browse(1, q, None));
    ImageSaves(s1, 2);
    RunCons(s2, Tick(1), Browse(1, q, None));
    BrowseRuns(Next(s2, Tick(1)), 1, q, None);
  }

  /**
    A run with nothing but saves, requests and the clock. Request 1 is opened at second 302, after plain save 1
    finished at second 295, and is served the page of second 290, from before that save.
   */
  lemma ExpiredCounterServesStalePage(q: string)
    ensures var s := Run(INIT, BeforeExpiry(q));
            && 1 in s.writers && s.writers[1].script == PlainSave(ImageEvent) && s.writers[1].Finished()
            && s.writers[1].commit == Some(1) && s.now == 295 && 1 !in s.requests
    ensures var t := Run(Run(INIT, BeforeExpiry(q)), AfterExpiry(q));
            1 in t.requests && t.requests[1] == Served(1, Page(Seen(1, 290), Seen(1, 290)), 302)
  {
    BeforeExpiryRuns(q);
    AfterExpiryRuns(Run(INIT, BeforeExpiry(q)), q);
  }

  /******* A counter that is created late *******/

  /** Writer 0 commits and finds no counter; save 1 creates it, request 0 is served, and save 2 raises it. */
  function BeforeLate(q: string): seq<Step> {
    [Spawn(0, PlainSave(ImageEvent)), Act(0), Miss(0)]
    + (SaveSteps(1, ImageEvent) + (Browse(0, q, None) + SaveSteps(2, ImageEvent)))
  }

  lemma MissRuns()
    ensures var s := Run(INIT, [Spawn(0, PlainSave(ImageEvent)), Act(0), Miss(0)]);
            && s == INIT.(commits := [0], writers := s.writers) && s.writers.Keys == {0}
            && s.writers[0].missed && s.writers[0].AtBump() && s.writers[0].NextBump() == PageGeneration
  {
    var s1 := Next(INIT, Spawn(0, PlainSave(ImageEvent)));
    var s2 := Next(s1, Act(0));
    RunCons(INIT, Spawn(0, PlainSave(ImageEvent)), [Act(0), Miss(0)]);
    RunCons(s1, Act(0), [Miss(0)]);
    RunCons(s2, Miss(0), []);
    assert [Spawn(0, PlainSave(ImageEvent))] + [Act(0), Miss(0)] == [Spawn(0, PlainSave(ImageEvent)), Act(0), Miss(0)];
    assert [Act(0)] + [Miss(0)] == [Act(0), Miss(0)] && [Miss(0)] + [] == [Miss(0)];
  }

  lemma BeforeLateRuns(q: string)
    ensures var s := Run(INIT, BeforeLate(q));
            && s.now == 0 && s.counters.page == Some(Counter(2, 300)) && s.requests.Keys == {0}
            && Key(1, q) in s.pages && s.pages[Key(1, q)] == Entry(Page(Seen(2, 0), Seen(2, 0)), 60)
            && s.writers.Keys == {0, 1, 2}
            && s.writers[0].missed && s.writers[0].AtBump() && s.writers[0].NextBump() == PageGeneration
            && s.writers[2].script == PlainSave(ImageEvent) && s.writers[2].Finished() && s.writers[2].commit == Some(2)
  {
    var missing := [Spawn(0, PlainSave(ImageEvent)), Act(0), Miss(0)];
    MissRuns();
    RunConcat(INIT, missing, SaveSteps(1, ImageEvent) + (Browse(0, q, None) + SaveSteps(2, ImageEvent)));
    SavedAround(Run(INIT, missing), q);
  }

  lemma SavedAround(s: State, q: string)
    requires s == INIT.(commits := [0], writers := s.writers) && s.writers.Keys == {0}
    ensures var t := Run(s, SaveSteps(1, ImageEvent) + (Browse(0, q, None) + SaveSteps(2, ImageEvent)));
            && t.now == 0 && t.counters.page == Some(Counter(2, 300)) && t.requests.Keys == {0}
            && Key(1, q) in t.pages && t.pages[Key(1, q)] == Entry(Page(Seen(2, 0), Seen(2, 0)), 60)
            && t.writers.Keys == {0, 1, 2} && t.writers[0] == s.writers[0]
            && t.writers[2].script == PlainSave(ImageEvent) && t.writers[2].Finished() && t.writers[2].commit == Some(2)
  {
    var s1 := Run(s, SaveSteps(1, ImageEvent));
    RunConcat(s, SaveSteps(1, ImageEvent), Browse(0, q, None) + SaveSteps(2, ImageEvent));
    RunConcat(s1, Browse(0, q, None), SaveSteps(2, ImageEvent));
    ImageSaves(s, 1);
    BrowseRuns(s1, 0, q, None);
    ImageSaves(Run(s1, Browse(0, q, None)), 2);
  }

  /**
    The fallback is not atomic: writer 0 creates the counter over generation 2, and request 1, opened after plain
    save 2 has finished, is served the page of generation 1.
   */
  lemma LateCreationServesStalePage(q: string)
    ensures var s := Run(INIT, BeforeLate(q));
            && 2 in s.writers && s.writers[2].script == PlainSave(ImageEvent) && s.writers[2].Finished()
            && s.writers[2].commit == Some(2) && 1 !in s.requests
    ensures var t := Run(Run(INIT, BeforeLate(q)), [Act(0)] + Browse(1, q, None));
            1 in t.requests && t.requests[1] == Served(1, Page(Seen(2, 0), Seen(2, 0)), 0)
  {
    BeforeLateRuns(q);
    var s := Run(INIT, BeforeLate(q));
    RunCons(s, Act(0), Browse(1, q, None));
    BrowseRuns(Next(s, Act(0)), 1, q, None);
  }

  /** A late creation moves its counter back exactly when the counter has got past generation 1 meanwhile. */
  lemma LateCreationKeepsExactlyWhenNotPastOne(s: State, w: nat)
    requires w in s.writers && s.writers[w].Ok() && s.writers[w].missed && s.writers[w].NextBump() != CategoryGeneration
    ensures KeepsCounter(s, Act(w)) <==> s.counters.Of(s.writers[w].NextBump()) <= 1
  {
  }

  /******* Requests opened from now on *******/

  /** Request `r`, not opened yet in `s`, is answered in the run `post`, in which no counter moves back. */
  ghost predicate ServedLater(s: State, post: seq<Step>, r: nat) {
    && KeepsCounters(s, post) && r !in s.requests
    && r in Run(s, post).requests && Run(s, post).requests[r].Served?
  }

  function PageServed(s: State, post: seq<Step>, r: nat): Page {
    var t := Run(s, post);
    if r in t.requests && t.requests[r].Served? then t.requests[r].page else Page(Seen(0, 0), Seen(0, 0))
  }

  /** Every request opened from `s` on shows transaction `v` in its rows. */
  ghost predicate RowsShown(s: State, v: nat) {
    forall post, r :: ServedLater(s, post, r) ==> v < PageServed(s, post, r).rows.version
  }

  predicate HoldsRows(r: Request) { r.HasRows? || r.HasFacetGen? || r.FacetsMissed? || r.FacetsRead? || r.Ready? }

  /** Under generation `floor` or a later one, every unexpired page and every request that holds rows shows `v`. */
  ghost predicate RowsCurrent(s: State, floor: nat, v: nat) {
    && (forall k <- s.pages :: floor <= k.gen && s.now < s.pages[k].expiresAt ==> v < s.pages[k].value.rows.version)
    && (forall r <- s.requests :: HoldsRows(s.requests[r]) && floor <= s.requests[r].gen ==>
          v < s.requests[r].rows.version)
  }

  /******* Nothing old can come back *******/

  /** Requests outside `known` were opened at generation `floor` or later and, if served, show `v`. */
  ghost predicate RowsHeld(s: State, known: set<nat>, floor: nat, v: nat) {
    && v < |s.commits| && floor <= Gen(s.counters.page) && RowsCurrent(s, floor, v)
    && (forall r <- s.requests :: r !in known ==>
          floor <= s.requests[r].gen && (s.requests[r].Served? ==> v < s.requests[r].page.rows.version))
  }

  /** What every step but a request's own does: time passes, commits are added, entries disappear, requests open. */
  ghost predicate Passes(s: State, t: State) {
    && s.now <= t.now && |s.commits| <= |t.commits|
    && (forall k <- t.pages :: k in s.pages && t.pages[k] == s.pages[k])
    && (forall k <- t.facets :: k in s.facets && t.facets[k] == s.facets[k])
    && (forall r <- t.requests ::
          if r in s.requests then t.requests[r] == s.requests[r]
          else t.requests[r].Opened? && t.requests[r].gen == Gen(s.counters.page))
  }

  lemma OtherStepPasses(s: State, step: Step)
    requires !OfRequest(step)
    ensures Passes(s, Next(s, step))
  {
  }

  lemma PassesHeld(s: State, t: State, known: set<nat>, floor: nat, v: nat)
    requires Passes(s, t) && floor <= Gen(t.counters.page) && RowsHeld(s, known, floor, v)
    ensures RowsHeld(t, known, floor, v)
  {
  }

  lemma RequestStepRows(s: State, id: nat, step: Step, known: set<nat>, floor: nat, v: nat)
    requires RowsHeld(s, known, floor, v) && id in s.requests
    ensures RowsHeld(RequestStep(s, id, step), known, floor, v)
  {
  }

  lemma NextHeld(s: State, step: Step, known: set<nat>, floor: nat, v: nat)
    requires KeepsCounter(s, step) && RowsHeld(s, known, floor, v)
    ensures RowsHeld(Next(s, step), known, floor, v)
  {
    if !OfRequest(step) {
      OtherStepPasses(s, step);
      PassesHeld(s, Next(s, step), known, floor, v);
    } else if step.request in s.requests {
      RequestStepRows(s, step.request, step, known, floor, v);
    }
  }

  lemma {:induction false} RunHeld(s: State, steps: seq<Step>, known: set<nat>, floor: nat, v: nat)
    requires KeepsCounters(s, steps) && RowsHeld(s, known, floor, v)
    ensures RowsHeld(Run(s, steps), known, floor, v)
    decreases |steps|
  {
    if steps != [] {
      NextHeld(s, steps[0], known, floor, v);
      RunHeld(Next(s, steps[0]), steps[1..], known, floor, v);
    }
  }

  /******* Something old is still there *******/

  lemma {:induction false} FreshId(ids: set<nat>) returns (n: nat)
    ensures forall i <- ids :: i < n
  {
    n := 0;
    if x :| x in ids {
      var m := FreshId(ids - {x});
      n := if x < m then m else x + 1;
      forall i <- ids ensures i < n { if i != x { assert i in ids - {x}; } }
    }
  }

  lemma {:induction false} FreshQuery(queries: set<string>) returns (q: string)
    ensures forall x <- queries :: |x| < |q|
  {
    q := "";
    if x :| x in queries {
      var p := FreshQuery(queries - {x});
      q := (if |x| < |p| then p else x) + "?";
      forall y <- queries ensures |y| < |q| { if y != x { assert y in queries - {x}; } }
    }
  }

  function Bumps(bump: Bump, n: nat): seq<Bump> { if n == 0 then [] else [bump] + Bumps(bump, n - 1) }

  lemma {:induction false} BumpsMany(c: Counters, bump: Bump, n: nat, now: nat)
    ensures |Bumps(bump, n)| == n && forall b <- Bumps(bump, n) :: b == bump
    ensures AfterBumps(c, Bumps(bump, n), now) == c.With(bump, AfterBumps(c, Bumps(bump, n), now).Counter(bump))
    ensures AfterBumps(c, Bumps(bump, n), now).Of(bump) == c.Of(bump) + n
    decreases n
  {
    if n > 0 {
      assert Bumps(bump, n)[1..] == Bumps(bump, n - 1);
      BumpsMany(c.After(bump, now), bump, n - 1, now);
    }
  }

  /** A new writer that does nothing but raise one counter `n` times. */
  function RaiseSteps(w: nat, bump: Bump, n: nat): seq<Step> {
    [Spawn(w, Script(Bumps(bump, n), []))] + Acts(w, n)
  }

  lemma RaiseRuns(s: State, w: nat, bump: Bump, n: nat)
    requires w !in s.writers
    ensures var t := Run(s, RaiseSteps(w, bump, n));
            && KeepsCounters(s, RaiseSteps(w, bump, n))
            && t == s.(counters := s.counters.With(bump, t.counters.Counter(bump)), writers := t.writers)
            && t.counters.Of(bump) == s.counters.Of(bump) + n
  {
    var script := Script(Bumps(bump, n), []);
    var m := Next(s, Spawn(w, script));
    BumpsMany(s.counters, bump, n, s.now);
    RunCons(s, Spawn(w, script), Acts(w, n));
    assert Upcoming(script, 0, script.before);
    BumpsAct(m, w, script.before);
    assert RaiseSteps(w, bump, n)[1..] == Acts(w, n);
  }

  lemma BrowseKeeps(s: State, r: nat, q: string, key: Option<string>)
    requires r !in s.requests
    ensures KeepsCounters(s, Browse(r, q, key))
  {
    RequestStepsKeep(s, Browse(r, q, key));
  }

  lemma {:induction false} RequestStepsKeep(s: State, steps: seq<Step>)
    requires forall i :: 0 <= i < |steps| ==> steps[i].Open? || OfRequest(steps[i])
    ensures KeepsCounters(s, steps)
    decreases |steps|
  {
    if steps != [] {
      RequestStepKeeps(s, steps[0]);
      RequestStepsKeep(Next(s, steps[0]), steps[1..]);
    }
  }

  lemma RequestStepKeeps(s: State, step: Step)
    requires step.Open? || OfRequest(step)
    ensures KeepsCounter(s, step)
  {
    if OfRequest(step) && step.request in s.requests {
      assert RequestStep(s, step.request, step).counters == s.counters;
    }
  }

  /** An unexpired page under the current or a later generation is what some later request gets. */
  lemma PageComesBack(s: State, k: Key) returns (post: seq<Step>, r: nat)
    requires k in s.pages && s.now < s.pages[k].expiresAt && Gen(s.counters.page) <= k.gen
    ensures ServedLater(s, post, r) && PageServed(s, post, r) == s.pages[k].value
  {
    var w := FreshId(s.writers.Keys);
    r := FreshId(s.requests.Keys);
    var up := RaiseSteps(w, PageGeneration, k.gen - Gen(s.counters.page));
    RaiseRuns(s, w, PageGeneration, k.gen - Gen(s.counters.page));
    var t := Run(s, up);
    BrowseRuns(t, r, k.hash, None);
    BrowseKeeps(t, r, k.hash, None);
    post := up + Browse(r, k.hash, None);
    RunConcat(s, up, Browse(r, k.hash, None));
    KeepsCountersConcat(s, up, Browse(r, k.hash, None));
    assert Key(Gen(t.counters.page), k.hash) == k && t.pages == s.pages;
  }

  /** Unexpired facet counts under the current or a later generation are what some later request puts into its page. */
  lemma CountsComeBack(s: State, k: Key) returns (post: seq<Step>, r: nat)
    requires k in s.facets && s.now < s.facets[k].expiresAt && Gen(s.counters.facet) <= k.gen
    ensures ServedLater(s, post, r) && PageServed(s, post, r).facets == s.facets[k].value
  {
    var w := FreshId(s.writers.Keys);
    r := FreshId(s.requests.Keys);
    var q := FreshQuery(set p <- s.pages :: p.hash);
    var n := k.gen - Gen(s.counters.facet);
    var up, browse := RaiseSteps(w, FacetGeneration, n), Browse(r, q, Some(k.hash));
    RaiseRuns(s, w, FacetGeneration, n);
    FoundCounts(Run(s, up), k, r, q);
    post := up + browse;
    ThenServed(s, up, browse, r);
  }

  lemma FoundCounts(t: State, k: Key, r: nat, q: string)
    requires k in t.facets && t.now < t.facets[k].expiresAt && Gen(t.counters.facet) == k.gen
    requires r !in t.requests && forall p <- t.pages :: |p.hash| < |q|
    ensures ServedLater(t, Browse(r, q, Some(k.hash)), r)
    ensures PageServed(t, Browse(r, q, Some(k.hash)), r).facets == t.facets[k].value
  {
    BrowseRuns(t, r, q, Some(k.hash));
    BrowseKeeps(t, r, q, Some(k.hash));
    assert Key(Gen(t.counters.page), q) !in t.pages;
    assert Key(Gen(t.counters.facet), k.hash) == k;
  }

  /** Request `id` has stored its page; nothing else a later request depends on has moved back. */
  ghost predicate PageStored(s: State, t: State, id: nat) {
    && id in s.requests && HoldsRows(s.requests[id])
    && t.counters == s.counters && t.now == s.now && t.requests.Keys == s.requests.Keys
    && var k := Key(s.requests[id].gen, s.requests[id].query);
       && k in t.pages && t.now < t.pages[k].expiresAt && t.pages[k].value.rows == s.requests[id].rows
       && ((s.requests[id].FacetsRead? || s.requests[id].Ready?) ==> t.pages[k].value.facets == s.requests[id].facets)
  }

  function NextStep(id: nat, r: Request): Step {
    if r.HasRows? then ReadFacetGen(id)
    else if r.HasFacetGen? then LookupFacets(id, None)
    else if r.FacetsMissed? then ReadFacets(id)
    else if r.FacetsRead? then StoreFacets(id)
    else StorePage(id)
  }

  function StepsLeft(r: Request): nat {
    match r
    case HasRows(_, _, _, _) => 5
    case HasFacetGen(_, _, _, _, _) => 4
    case FacetsMissed(_, _, _, _, _, _) => 3
    case FacetsRead(_, _, _, _, _, _, _) => 2
    case _ => 1
  }

  /** A request that holds rows goes on holding them, one step closer to its store. */
  lemma StepsOn(s: State, id: nat)
    requires id in s.requests && HoldsRows(s.requests[id]) && !s.requests[id].Ready?
    ensures var t, r := Next(s, NextStep(id, s.requests[id])), s.requests[id];
            && t.counters == s.counters && t.now == s.now && t.requests.Keys == s.requests.Keys
            && HoldsRows(t.requests[id]) && StepsLeft(t.requests[id]) < StepsLeft(r)
            && t.requests[id].gen == r.gen && t.requests[id].query == r.query && t.requests[id].rows == r.rows
            && (r.FacetsRead? ==> t.requests[id].Ready? && t.requests[id].facets == r.facets)
  {
  }

  lemma {:induction false} StoresInTheEnd(s: State, id: nat) returns (steps: seq<Step>)
    requires id in s.requests && HoldsRows(s.requests[id])
    ensures KeepsCounters(s, steps) && PageStored(s, Run(s, steps), id)
    decreases StepsLeft(s.requests[id])
  {
    var step := NextStep(id, s.requests[id]);
    RequestStepKeeps(s, step);
    if s.requests[id].Ready? {
      steps := [step];
      RunCons(s, step, []);
      assert [step] + [] == [step] && [step][1..] == [];
    } else {
      StepsOn(s, id);
      var rest := StoresInTheEnd(Next(s, step), id);
      steps := [step] + rest;
      RunCons(s, step, rest);
      assert steps[1..] == rest;
    }
  }

  lemma ThenServed(s: State, steps: seq<Step>, post: seq<Step>, r: nat)
    requires KeepsCounters(s, steps) && Run(s, steps).requests.Keys == s.requests.Keys
    requires ServedLater(Run(s, steps), post, r)
    ensures ServedLater(s, steps + post, r) && PageServed(s, steps + post, r) == PageServed(Run(s, steps), post, r)
  {
    RunConcat(s, steps, post);
    KeepsCountersConcat(s, steps, post);
  }

  lemma RequestComesBack(s: State, id: nat) returns (post: seq<Step>, r: nat)
    requires id in s.requests && HoldsRows(s.requests[id]) && Gen(s.counters.page) <= s.requests[id].gen
    ensures ServedLater(s, post, r) && PageServed(s, post, r).rows == s.requests[id].rows
    ensures s.requests[id].FacetsRead? || s.requests[id].Ready? ==>
        PageServed(s, post, r).facets == s.requests[id].facets
  {
    var steps := StoresInTheEnd(s, id);
    var t := Run(s, steps);
    var later;
    later, r := PageComesBack(t, Key(s.requests[id].gen, s.requests[id].query));
    post := steps + later;
    ThenServed(s, steps, later, r);
  }

  /******* Exactly when *******/

  predicate CanComeBack(s: State, floor: nat, k: Key)
    requires k in s.pages
  {
    floor <= k.gen && s.now < s.pages[k].expiresAt
  }

  /**
    From any state on, every later request shows transaction `v` in its rows exactly when every unexpired page, and
    every request that already holds rows, under the current page generation or a later one includes it. Whatever a
    counter that moved back can reach again is under such a generation.
   */
  lemma RowsShownExactlyWhenCurrent(s: State, v: nat)
    requires v < |s.commits|
    ensures RowsShown(s, v) <==> RowsCurrent(s, Gen(s.counters.page), v)
  {
    var floor := Gen(s.counters.page);
    if RowsCurrent(s, floor, v) {
      forall post, r | ServedLater(s, post, r) ensures v < PageServed(s, post, r).rows.version {
        RunHeld(s, post, s.requests.Keys, floor, v);
      }
    } else if k :| k in s.pages && CanComeBack(s, floor, k) && s.pages[k].value.rows.version <= v {
      var post, r := PageComesBack(s, k);
    } else {
      var id :| id in s.requests && HoldsRows(s.requests[id]) && floor <= s.requests[id].gen
          && s.requests[id].rows.version <= v;
      var post, r := RequestComesBack(s, id);
    }
  }

  /** After the page counter is gone, that means every unexpired page and every request that already holds rows. */
  lemma PageCounterLossHarmlessExactlyWhen(s: State, v: nat)
    requires v < |s.commits| && s.counters.page.None?
    ensures RowsShown(s, v) <==>
            && (forall k <- s.pages :: s.now < s.pages[k].expiresAt ==> v < s.pages[k].value.rows.version)
            && (forall r <- s.requests :: HoldsRows(s.requests[r]) ==> v < s.requests[r].rows.version)
  {
    RowsShownExactlyWhenCurrent(s, v);
  }
}

/**
  The product list without interference: what one uninterrupted request answers and stores, and the
  classes whose methods perform the accesses in the source's order.
 */
module ProductListSequential {
  import opened Options
  import opened ProductListCache

  /** One uninterrupted request, as steps. */
  function Browse(r: nat, query: string, key: Option<string>): seq<Step> {
    [Open(r, query)] + ([LookupPage(r)] + DatabaseSteps(r, key))
  }

  function Current(s: State): Seen { Seen(|s.commits|, s.now) }

  /** The unexpired facet counts a request would find, if it may use the cache at all. */
  function FacetHit(s: State, key: Option<string>): Option<Seen> {
    if key.Some? then Lookup(s.facets, Key(Gen(s.counters.facet), key.value), s.now) else None
  }

  function FacetAnswer(s: State, key: Option<string>): Seen {
    if FacetHit(s, key).Some? then FacetHit(s, key).value else Current(s)
  }

  /** The facet cache after `compute_facet_counts`. */
  function FacetsAfter(s: State, key: Option<string>): map<Key, Entry<Seen>> {
    if key.Some? && FacetHit(s, key).None?
    then s.facets[Key(Gen(s.counters.facet), key.value) := Entry(Current(s), s.now + FACETS_TTL)]
    else s.facets
  }

  function PageHit(s: State, query: string): Option<Page> {
    Lookup(s.pages, Key(Gen(s.counters.page), query), s.now)
  }

  function Answer(s: State, query: string, key: Option<string>): Page {
    if PageHit(s, query).Some? then PageHit(s, query).value else Page(Current(s), FacetAnswer(s, key))
  }

  /** The caches after an uninterrupted request. */
  function Browsed(s: State, query: string, key: Option<string>): State {
    if PageHit(s, query).Some? then s
    else s.(facets := FacetsAfter(s, key),
            pages := s.pages[Key(Gen(s.counters.page), query) := Entry(Answer(s, query, key), s.now + PAGE_TTL)])
  }

  function WithRequest(s: State, r: nat, request: Request): State { s.(requests := s.requests[r := request]) }

  lemma {:induction false} RunCons(s: State, step: Step, rest: seq<Step>)
    ensures Run(s, [step] + rest) == Run(Next(s, step), rest)
  {
    assert ([step] + rest)[1..] == rest;
  }

  /** From the first database read on, an uninterrupted request computes and stores its answer. */
  lemma MissedRuns(s: State, r: nat, query: string, key: Option<string>)
    requires PageHit(s, query).None?
    ensures var g := Gen(s.counters.page);
            Run(WithRequest(s, r, Missed(query, g, s.now)),
                [ReadRows(r), ReadFacetGen(r), LookupFacets(r, key), ReadFacets(r), StoreFacets(r), StorePage(r)])
            == WithRequest(Browsed(s, query, key), r, Served(g, Answer(s, query, key), s.now))
  {
    var g, f, n, c := Gen(s.counters.page), Gen(s.counters.facet), s.now, Current(s);
    var s2 := WithRequest(s, r, Missed(query, g, n));
    var s3 := WithRequest(s, r, HasRows(query, g, n, c));
    var s4 := WithRequest(s, r, HasFacetGen(query, g, n, c, f));
    assert Next(s2, ReadRows(r)) == s3;
    assert Next(s3, ReadFacetGen(r)) == s4;
    RunCons(s2, ReadRows(r), [ReadFacetGen(r), LookupFacets(r, key), ReadFacets(r), StoreFacets(r), StorePage(r)]);
    RunCons(s3, ReadFacetGen(r), [LookupFacets(r, key), ReadFacets(r), StoreFacets(r), StorePage(r)]);
    FacetsRun(s, r, query, key);
  }

  /** `compute_facet_counts`, after its generation read: found, or computed and stored. */
  lemma FacetsResolve(s: State, r: nat, query: string, key: Option<string>)
    ensures var g, n, c := Gen(s.counters.page), s.now, Current(s);
            Next(Next(Next(WithRequest(s, r, HasFacetGen(query, g, n, c, Gen(s.counters.facet))),
                           LookupFacets(r, key)), ReadFacets(r)), StoreFacets(r))
            == WithRequest(s.(facets := FacetsAfter(s, key)), r, Ready(query, g, n, c, FacetAnswer(s, key)))
  {
    var g, f, n, c := Gen(s.counters.page), Gen(s.counters.facet), s.now, Current(s);
    var s4 := WithRequest(s, r, HasFacetGen(query, g, n, c, f));
    if FacetHit(s, key).Some? {
      assert Next(s4, LookupFacets(r, key)) == WithRequest(s, r, Ready(query, g, n, c, FacetAnswer(s, key)));
    } else {
      FacetsComputed(s, r, query, key);
      StoreFacetsRuns(s, r, query, key);
    }
  }

  lemma FacetsComputed(s: State, r: nat, query: string, key: Option<string>)
    requires FacetHit(s, key).None?
    ensures var g, f, n, c := Gen(s.counters.page), Gen(s.counters.facet), s.now, Current(s);
            Next(Next(WithRequest(s, r, HasFacetGen(query, g, n, c, f)), LookupFacets(r, key)), ReadFacets(r))
            == WithRequest(s, r, FacetsRead(query, g, n, c, f, key, c))
  {
    var g, f, n, c := Gen(s.counters.page), Gen(s.counters.facet), s.now, Current(s);
    assert Next(WithRequest(s, r, HasFacetGen(query, g, n, c, f)), LookupFacets(r, key))
        == WithRequest(s, r, FacetsMissed(query, g, n, c, f, key));
  }

  lemma StoreFacetsRuns(s: State, r: nat, query: string, key: Option<string>)
    requires FacetHit(s, key).None?
    ensures var g, n, c := Gen(s.counters.page), s.now, Current(s);
            Next(WithRequest(s, r, FacetsRead(query, g, n, c, Gen(s.counters.facet), key, c)), StoreFacets(r))
            == WithRequest(s.(facets := FacetsAfter(s, key)), r, Ready(query, g, n, c, FacetAnswer(s, key)))
  {
  }

  lemma FacetsRun(s: State, r: nat, query: string, key: Option<string>)
    requires PageHit(s, query).None?
    ensures var g := Gen(s.counters.page);
            Run(WithRequest(s, r, HasFacetGen(query, g, s.now, Current(s), Gen(s.counters.facet))),
                [LookupFacets(r, key), ReadFacets(r), StoreFacets(r), StorePage(r)])
            == WithRequest(Browsed(s, query, key), r, Served(g, Answer(s, query, key), s.now))
  {
    var g := Gen(s.counters.page);
    var s4 := WithRequest(s, r, HasFacetGen(query, g, s.now, Current(s), Gen(s.counters.facet)));
    FacetsResolve(s, r, query, key);
    RunFour(s4, LookupFacets(r, key), ReadFacets(r), StoreFacets(r), StorePage(r));
    PageStored(s, r, query, key);
  }

  lemma PageStored(s: State, r: nat, query: string, key: Option<string>)
    requires PageHit(s, query).None?
    ensures var g, c := Gen(s.counters.page), Current(s);
            Next(WithRequest(s.(facets := FacetsAfter(s, key)), r, Ready(query, g, s.now, c, FacetAnswer(s, key))),
                StorePage(r))
            == WithRequest(Browsed(s, query, key), r, Served(g, Answer(s, query, key), s.now))
  {
  }

  lemma {:induction false} RunFour(s: State, a: Step, b: Step, c: Step, d: Step)
    ensures Run(s, [a, b, c, d]) == Next(Next(Next(Next(s, a), b), c), d)
  {
    RunCons(s, a, [b, c, d]);
    RunCons(Next(s, a), b, [c, d]);
    RunCons(Next(Next(s, a), b), c, [d]);
    assert [d][1..] == [];
  }

  /******* How long what a request stores is found *******/

  /** A stored page answers the same query for 60 seconds and no longer, and facet counts that were computed for 300. */
  lemma StoredIsFoundExactlyUntilExpiry(s: State, query: string, key: Option<string>, seconds: nat)
    requires PageHit(s, query).None? && s.counters.At(s.now + seconds) == s.counters
    ensures var t := Next(Browsed(s, query, key), Tick(seconds));
            && PageHit(t, query) == (if seconds < 60 then Some(Answer(s, query, key)) else None)
            && (key.Some? && FacetHit(s, key).None? ==>
                  FacetHit(t, key) == if seconds < 300 then Some(Current(s)) else None)
  {
  }

  /** A counter that is created lives 300 seconds, however often it is raised in the meantime. */
  lemma CounterLivesFiveMinutes(counter: Option<Counter>, now: nat, later: nat)
    requires now <= later
    ensures counter.None? ==>
              Unexpired(Bumped(counter, now), later) == if later < now + 300 then Some(Counter(1, now + 300)) else None
    ensures counter.Some? ==>
              && Bumped(counter, now) == Some(Counter(counter.value.value + 1, counter.value.expiresAt))
              && (Unexpired(Bumped(counter, now), later) == None <==> Unexpired(counter, later) == None)
  {
  }

  /** The step moves no counter back as long as no writer has missed one. */
  predicate SteadyStep(step: Step) { step.Spawn? || step.Act? || step.Open? || OfRequest(step) }

  ghost predicate Steady(steps: seq<Step>) { forall i :: 0 <= i < |steps| ==> SteadyStep(steps[i]) }

  ghost predicate NoneMissed(s: State) { forall w <- s.writers :: !s.writers[w].missed }

  lemma SteadyStepKeeps(s: State, step: Step)
    requires NoneMissed(s) && SteadyStep(step)
    ensures KeepsCounter(s, step) && NoneMissed(Next(s, step))
  {
    if OfRequest(step) {
      RequestsOnly(s, step);
    } else if step.Act? && step.writer in s.writers {
      WriterKeeps(s, step.writer);
    }
  }

  lemma RequestsOnly(s: State, step: Step)
    requires OfRequest(step)
    ensures Next(s, step).counters == s.counters && Next(s, step).writers == s.writers
  {
  }

  lemma WriterKeeps(s: State, w: nat)
    requires NoneMissed(s) && w in s.writers
    ensures KeepsCounter(s, Act(w)) && NoneMissed(WriterStep(s, w))
  {
  }

  lemma {:induction false} SteadyKeeps(s: State, steps: seq<Step>)
    requires NoneMissed(s) && Steady(steps)
    ensures KeepsCounters(s, steps) && NoneMissed(Run(s, steps))
    decreases |steps|
  {
    if steps != [] {
      assert SteadyStep(steps[0]);
      SteadyStepKeeps(s, steps[0]);
      forall i | 0 <= i < |steps[1..]| ensures SteadyStep(steps[1..][i]) { assert steps[1..][i] == steps[i + 1]; }
      SteadyKeeps(Next(s, steps[0]), steps[1..]);
    }
  }

  /** A late step of an answered request changes nothing. */
  lemma {:induction false} ServedStays(s: State, r: nat, steps: seq<Step>)
    requires r in s.requests && s.requests[r].Served?
    requires forall i :: 0 <= i < |steps| ==>
      OfRequest(steps[i]) && steps[i].request == r
    ensures Run(s, steps) == s
    decreases |steps|
  {
    if steps != [] {
      assert Next(s, steps[0]) == s;
      ServedStays(s, r, steps[1..]);
    }
  }

  function DatabaseSteps(r: nat, key: Option<string>): seq<Step> {
    [ReadRows(r), ReadFacetGen(r), LookupFacets(r, key), ReadFacets(r), StoreFacets(r), StorePage(r)]
  }

  lemma LookupRuns(s: State, r: nat, query: string, key: Option<string>)
    ensures Run(Next(WithRequest(s, r, Opened(query, Gen(s.counters.page), s.now)), LookupPage(r)),
        DatabaseSteps(r, key))
            == WithRequest(Browsed(s, query, key), r, Served(Gen(s.counters.page), Answer(s, query, key), s.now))
  {
    if PageHit(s, query).Some? {
      var s1 := WithRequest(s, r, Served(Gen(s.counters.page), Answer(s, query, key), s.now));
      assert Next(WithRequest(s, r, Opened(query, Gen(s.counters.page), s.now)), LookupPage(r)) == s1;
      ServedStays(s1, r, DatabaseSteps(r, key));
    } else {
      assert Next(WithRequest(s, r, Opened(query, Gen(s.counters.page), s.now)), LookupPage(r))
          == WithRequest(s, r, Missed(query, Gen(s.counters.page), s.now));
      MissedRuns(s, r, query, key);
    }
  }

  /** What an uninterrupted request answers, and what it leaves in the caches. */
  lemma BrowseRuns(s: State, r: nat, query: string, key: Option<string>)
    requires r !in s.requests
    ensures Run(s, Browse(r, query, key))
            == WithRequest(Browsed(s, query, key), r, Served(Gen(s.counters.page), Answer(s, query, key), s.now))
  {
    var s1 := WithRequest(s, r, Opened(query, Gen(s.counters.page), s.now));
    RunCons(s, Open(r, query), [LookupPage(r)] + DatabaseSteps(r, key));
    OpenRuns(s, r, query);
    RunCons(s1, LookupPage(r), DatabaseSteps(r, key));
    LookupRuns(s, r, query, key);
  }

  lemma OpenRuns(s: State, r: nat, query: string)
    requires r !in s.requests
    ensures Next(s, Open(r, query)) == WithRequest(s, r, Opened(query, Gen(s.counters.page), s.now))
  {
  }

  /** The steps of an uninterrupted request that find something to do. */
  function Taken(s: State, r: nat, query: string, key: Option<string>): seq<Step> {
    [Open(r, query), LookupPage(r)]
    + if PageHit(s, query).Some? then [] else [ReadRows(r)] + FacetSteps(s, r, key) + [StorePage(r)]
  }

  function FacetSteps(s: State, r: nat, key: Option<string>): seq<Step> {
    [ReadFacetGen(r), LookupFacets(r, key)] + if FacetHit(s, key).Some? then [] else [ReadFacets(r), StoreFacets(r)]
  }

  /** The steps taken are those of the state machine. */
  lemma TakenRuns(s: State, r: nat, query: string, key: Option<string>)
    requires r !in s.requests
    ensures Run(s, Taken(s, r, query, key)) == Run(s, Browse(r, query, key))
  {
    BrowseRuns(s, r, query, key);
    if PageHit(s, query).Some? {
      assert Taken(s, r, query, key) == [Open(r, query), LookupPage(r)];
      FoundPageRuns(s, r, query, key);
    } else if FacetHit(s, key).Some? {
      assert Taken(s, r, query, key) == [Open(r, query)] + ([LookupPage(r)] + FoundFacets(r, key));
      RunCons(s, Open(r, query), [LookupPage(r)] + FoundFacets(r, key));
      RunCons(Next(s, Open(r, query)), LookupPage(r), FoundFacets(r, key));
      LookupMisses(s, r, query);
      FoundFacetsRun(s, r, query, key);
    } else {
      assert Taken(s, r, query, key) == Browse(r, query, key);
    }
  }

  lemma LookupMisses(s: State, r: nat, query: string)
    requires r !in s.requests && PageHit(s, query).None?
    ensures Next(Next(s, Open(r, query)), LookupPage(r))
        == WithRequest(s, r, Missed(query, Gen(s.counters.page), s.now))
  {
    OpenRuns(s, r, query);
  }

  lemma FoundPageRuns(s: State, r: nat, query: string, key: Option<string>)
    requires r !in s.requests && PageHit(s, query).Some?
    ensures Run(s, [Open(r, query), LookupPage(r)])
            == WithRequest(s, r, Served(Gen(s.counters.page), Answer(s, query, key), s.now))
  {
    assert [Open(r, query), LookupPage(r)] == [Open(r, query)] + ([LookupPage(r)] + []);
    RunCons(s, Open(r, query), [LookupPage(r)] + []);
    RunCons(Next(s, Open(r, query)), LookupPage(r), []);
    OpenRuns(s, r, query);
  }

  lemma TakenAnswers(s: State, r: nat, query: string, key: Option<string>)
    requires r !in s.requests
    ensures Run(s, Taken(s, r, query, key))
            == WithRequest(Browsed(s, query, key), r, Served(Gen(s.counters.page), Answer(s, query, key), s.now))
  {
    BrowseRuns(s, r, query, key);
    TakenRuns(s, r, query, key);
  }

  function FoundFacets(r: nat, key: Option<string>): seq<Step> {
    [ReadRows(r), ReadFacetGen(r), LookupFacets(r, key), StorePage(r)]
  }

  lemma FoundFacetsRun(s: State, r: nat, query: string, key: Option<string>)
    requires PageHit(s, query).None? && FacetHit(s, key).Some?
    ensures var g := Gen(s.counters.page);
            Run(WithRequest(s, r, Missed(query, g, s.now)), FoundFacets(r, key))
            == WithRequest(Browsed(s, query, key), r, Served(g, Answer(s, query, key), s.now))
  {
    var s2 := WithRequest(s, r, Missed(query, Gen(s.counters.page), s.now));
    RunFour(s2, ReadRows(r), ReadFacetGen(r), LookupFacets(r, key), StorePage(r));
    RowsThenFacets(s, r, query, key);
    assert s.(facets := FacetsAfter(s, key)) == s;
    PageStored(s, r, query, key);
  }

  lemma RowsThenFacets(s: State, r: nat, query: string, key: Option<string>)
    requires FacetHit(s, key).Some?
    ensures var g, n, c := Gen(s.counters.page), s.now, Current(s);
            Next(Next(Next(WithRequest(s, r, Missed(query, g, n)), ReadRows(r)), ReadFacetGen(r)), LookupFacets(r, key))
            == WithRequest(s, r, Ready(query, g, n, c, FacetAnswer(s, key)))
  {
    var g, n, c := Gen(s.counters.page), s.now, Current(s);
    var s3 := WithRequest(s, r, HasRows(query, g, n, c));
    var s4 := WithRequest(s, r, HasFacetGen(query, g, n, c, Gen(s.counters.facet)));
    assert Next(WithRequest(s, r, Missed(query, g, n)), ReadRows(r)) == s3 && Next(s3, ReadFacetGen(r)) == s4;
  }

  /******* One uninterrupted writer *******/

  function AfterBumps(c: Counters, bumps: seq<Bump>, now: nat): Counters
    decreases |bumps|
  {
    if bumps == [] then c else AfterBumps(c.After(bumps[0], now), bumps[1..], now)
  }

  /** Bumping raises exactly the counters named. */
  lemma {:induction false} AfterBumpsRaises(c: Counters, bumps: seq<Bump>, now: nat, bump: Bump)
    ensures c.Of(bump) <= AfterBumps(c, bumps, now).Of(bump)
    ensures c.Of(bump) < AfterBumps(c, bumps, now).Of(bump) <==> bump in bumps
    decreases |bumps|
  {
    if bumps != [] {
      AfterBumpsRaises(c.After(bumps[0], now), bumps[1..], now, bump);
      assert bump in bumps <==> bump == bumps[0] || bump in bumps[1..];
    }
  }

  /** The handlers' bump sequences, unrolled. */
  lemma HandlerBumps(c: Counters, e: Event, now: nat)
    ensures AfterBumps(c, Handler(e), now) ==
      match e
      case CategoryEvent => c.After(CategoryGeneration, now).After(PageGeneration, now)
      case ProductEvent => c.After(CategoryGeneration, now).After(FacetGeneration, now).After(PageGeneration, now)
      case ImageEvent => c.After(PageGeneration, now)
      case FacetDefinitionEvent => c.After(FacetGeneration, now).After(PageGeneration, now)
  {
    assert Handler(ProductEvent)[1..] == [FacetGeneration, PageGeneration];
    assert [FacetGeneration, PageGeneration][1..] == [PageGeneration];
    assert [CategoryGeneration, PageGeneration][1..] == [PageGeneration];
    assert [PageGeneration][1..] == [];
  }

  function Acts(w: nat, n: nat): seq<Step> { if n == 0 then [] else [Act(w)] + Acts(w, n - 1) }

  /** The `|bumps|` actions of a script from `pc` on are `bumps`, with no commit among them. */
  predicate Upcoming(script: Script, pc: nat, bumps: seq<Bump>) {
    forall i :: 0 <= i < |bumps| ==> BumpIs(script, pc, i, bumps[i])
  }

  predicate BumpIs(script: Script, pc: nat, i: nat, bump: Bump) {
    script.BumpsAt(pc + i) && script.BumpAt(pc + i) == bump
  }

  lemma {:induction false} BumpsAct(s: State, w: nat, bumps: seq<Bump>)
    requires w in s.writers && Upcoming(s.writers[w].script, s.writers[w].pc, bumps) && !s.writers[w].missed
    ensures KeepsCounters(s, Acts(w, |bumps|))
    ensures var t, wr := Run(s, Acts(w, |bumps|)), s.writers[w];
            && w in t.writers
            && t == s.(counters := AfterBumps(s.counters, bumps, s.now), writers := s.writers[w := t.writers[w]])
            && t.writers[w].script == wr.script && t.writers[w].pc == wr.pc + |bumps|
            && t.writers[w].commit == wr.commit && !t.writers[w].missed
    decreases |bumps|
  {
    var wr := s.writers[w];
    if bumps == [] {
      assert s.writers[w := wr] == s.writers;
    } else {
      var m := Next(s, Act(w));
      OneBumpActs(s, w, bumps[0]);
      UpcomingRest(wr.script, wr.pc, bumps);
      BumpsAct(m, w, bumps[1..]);
      RunCons(s, Act(w), Acts(w, |bumps| - 1));
      var last := Run(m, Acts(w, |bumps| - 1)).writers[w];
      assert m.writers[w := last] == s.writers[w := last];
      assert Acts(w, |bumps|)[1..] == Acts(w, |bumps| - 1);
    }
  }

  lemma OneBumpActs(s: State, w: nat, bump: Bump)
    requires w in s.writers && BumpIs(s.writers[w].script, s.writers[w].pc, 0, bump) && !s.writers[w].missed
    ensures var t, wr := Next(s, Act(w)), s.writers[w];
            && KeepsCounter(s, Act(w)) && w in t.writers
            && t == s.(counters := s.counters.After(bump, s.now), writers := s.writers[w := t.writers[w]])
            && t.writers[w].script == wr.script && t.writers[w].pc == wr.pc + 1
            && t.writers[w].commit == wr.commit && !t.writers[w].missed
  {
  }

  lemma UpcomingRest(script: Script, pc: nat, bumps: seq<Bump>)
    requires Upcoming(script, pc, bumps) && bumps != []
    ensures Upcoming(script, pc + 1, bumps[1..]) && BumpIs(script, pc, 0, bumps[0])
  {
    forall i | 0 <= i < |bumps[1..]| ensures BumpIs(script, pc + 1, i, bumps[1..][i]) {
      assert BumpIs(script, pc, i + 1, bumps[i + 1]);
    }
  }

  function Committed(s: State, w: nat): State
    requires w in s.writers
  {
    s.(commits := s.commits + [s.now],
       writers := s.writers[w := s.writers[w].(pc := s.writers[w].pc + 1, commit := Some(|s.commits|))])
  }

  lemma CommitActs(s: State, w: nat)
    requires w in s.writers && s.writers[w].pc == |s.writers[w].script.before|
    ensures Run(s, Acts(w, 1)) == Committed(s, w) && KeepsCounters(s, Acts(w, 1))
  {
    RunCons(s, Act(w), []);
    assert Acts(w, 1) == [Act(w)] + Acts(w, 0) && Acts(w, 0) == [];
  }

  /** A plain save by writer `w`, as steps. */
  function SaveSteps(w: nat, e: Event): seq<Step> {
    [Spawn(w, PlainSave(e))] + (Acts(w, 1) + Acts(w, |Handler(e)|))
  }

  /** A plain save commits, then raises the counters its handler names, and leaves the caches alone. */
  lemma SaveRuns(s: State, w: nat, e: Event)
    requires w !in s.writers
    ensures var t := Run(s, SaveSteps(w, e));
            && t == s.(commits := s.commits + [s.now], writers := t.writers,
                       counters := AfterBumps(s.counters, Handler(e), s.now))
            && t.writers.Keys == s.writers.Keys + {w} && (forall v <- s.writers :: t.writers[v] == s.writers[v])
            && t.writers[w].script == PlainSave(e) && t.writers[w].Finished()
                && t.writers[w].commit == Some(|s.commits|)
  {
    var s0 := Next(s, Spawn(w, PlainSave(e)));
    RunCons(s, Spawn(w, PlainSave(e)), Acts(w, 1) + Acts(w, |Handler(e)|));
    RunConcat(s0, Acts(w, 1), Acts(w, |Handler(e)|));
    CommitActs(s0, w);
    HandlerRuns(Committed(s0, w), w, e);
  }

  lemma HandlerRuns(s: State, w: nat, e: Event)
    requires w in s.writers && s.writers[w].script == PlainSave(e) && s.writers[w].pc == 1 && !s.writers[w].missed
    ensures var t := Run(s, Acts(w, |Handler(e)|));
            && w in t.writers
            && t == s.(counters := AfterBumps(s.counters, Handler(e), s.now), writers := s.writers[w := t.writers[w]])
            && t.writers[w].script == PlainSave(e) && t.writers[w].Finished()
                && t.writers[w].commit == s.writers[w].commit
  {
    assert Upcoming(PlainSave(e), 1, Handler(e));
    BumpsAct(s, w, Handler(e));
  }

  /******* The source's objects *******/

  datatype WriterAct = Commit | Raise(bump: Bump)

  function Raises(bumps: seq<Bump>): seq<WriterAct> {
    seq(|bumps|, i requires 0 <= i < |bumps| => Raise(bumps[i]))
  }

  /**
    The shared cache and the database of one storefront; a database read is a version number. `acts` and `steps`
    record the order in which writers and requests performed their accesses.
   */
  class Storefront {
    var now: nat
    var commits: seq<nat>
    var counters: Counters
    var pages: map<Key, Entry<Page>>
    var facets: map<Key, Entry<Seen>>
    ghost var acts: seq<WriterAct>
    ghost var steps: seq<Step>

    constructor ()
      ensures Model() == INIT && acts == [] && steps == []
    {
      now, commits, counters, pages, facets := 0, [], Counters(None, None, None), map[], map[];
      acts, steps := [], [];
    }

    /** This storefront as a state with no writer or request in flight. */
    ghost function Model(): State
      reads this
    {
      State(now, commits, counters, pages, facets, map[], map[], 0)
    }

    method BumpCategoryGeneration()
      modifies this`counters, this`acts
      ensures counters == old(counters).After(CategoryGeneration, now)
      ensures acts == old(acts) + [Raise(CategoryGeneration)]
    {
      acts := acts + [Raise(CategoryGeneration)];
      if counters.category.Some? {
        var counter := counters.category.value;
        counters := counters.(category := Some(Counter(counter.value + 1, counter.expiresAt)));
      } else {
        counters := counters.(category := Some(Counter(1, now + COUNTER_TTL)));
      }
    }

    method BumpFacetGeneration()
      modifies this`counters, this`acts
      ensures counters == old(counters).After(FacetGeneration, now) && acts == old(acts) + [Raise(FacetGeneration)]
    {
      acts := acts + [Raise(FacetGeneration)];
      if counters.facet.Some? {
        var counter := counters.facet.value;
        counters := counters.(facet := Some(Counter(counter.value + 1, counter.expiresAt)));
      } else {
        counters := counters.(facet := Some(Counter(1, now + COUNTER_TTL)));
      }
    }

    method BumpProductListGeneration()
      modifies this`counters, this`acts
      ensures counters == old(counters).After(PageGeneration, now) && acts == old(acts) + [Raise(PageGeneration)]
    {
      acts := acts + [Raise(PageGeneration)];
      if counters.page.Some? {
        var counter := counters.page.value;
        counters := counters.(page := Some(Counter(counter.value + 1, counter.expiresAt)));
      } else {
        counters := counters.(page := Some(Counter(1, now + COUNTER_TTL)));
      }
    }

    /** The signal handler of an event. */
    method Handle(e: Event)
      modifies this`counters, this`acts
      ensures counters == AfterBumps(old(counters), Handler(e), now)
      ensures acts == old(acts) + Raises(Handler(e))
    {
      HandlerBumps(counters, e, now);
      match e
      case CategoryEvent => BumpCategoryGeneration(); BumpProductListGeneration();
      case ProductEvent => BumpCategoryGeneration(); BumpFacetGeneration(); BumpProductListGeneration();
      case ImageEvent => BumpProductListGeneration();
      case FacetDefinitionEvent => BumpFacetGeneration(); BumpProductListGeneration();
    }

    /** A plain `save()`: the commit, then the handler. */
    method Save(e: Event)
      modifies this`commits, this`counters, this`acts
      ensures Model() == Run(old(Model()), SaveSteps(0, e)).(writers := map[])
      ensures acts == old(acts) + [Commit] + Raises(Handler(e))
    {
      commits, acts := commits + [now], acts + [Commit];
      Handle(e);
      SaveRuns(old(Model()), 0, e);
    }

    method ComputeFacetCounts(key: Option<string>) returns (counts: Seen)
      modifies this`facets, this`steps
      ensures counts == FacetAnswer(old(Model()), key)
      ensures facets == FacetsAfter(old(Model()), key)
      ensures steps == old(steps) + FacetSteps(old(Model()), 0, key)
    {
      steps := steps + [ReadFacetGen(0)];
      var generation := Gen(counters.facet);
      steps := steps + [LookupFacets(0, key)];
      if key.Some? {
        var cached := Lookup(facets, Key(generation, key.value), now);
        if cached.Some? { return cached.value; }
      }
      steps := steps + [ReadFacets(0)];
      counts := Seen(|commits|, now);
      steps := steps + [StoreFacets(0)];
      if key.Some? {
        facets := facets[Key(generation, key.value) := Entry(counts, now + FACETS_TTL)];
      }
    }

    /** `ProductListView.list`. */
    method List(query: string, key: Option<string>) returns (page: Page)
      modifies this`pages, this`facets, this`steps
      ensures page == Answer(old(Model()), query, key)
      ensures Model() == Browsed(old(Model()), query, key)
      ensures steps == old(steps) + Taken(old(Model()), 0, query, key)
      ensures Run(old(Model()), Taken(old(Model()), 0, query, key))
              == WithRequest(Model(), 0, Served(Gen(counters.page), page, now))
    {
      TakenAnswers(Model(), 0, query, key);
      var generation := Gen(counters.page);
      steps := steps + [Open(0, query), LookupPage(0)];
      var cached := Lookup(pages, Key(generation, query), now);
      if cached.Some? { return cached.value; }
      steps := steps + [ReadRows(0)];
      var rows := Seen(|commits|, now);
      var counts := ComputeFacetCounts(key);
      page := Page(rows, counts);
      steps := steps + [StorePage(0)];
      pages := pages[Key(generation, query) := Entry(page, now + PAGE_TTL)];
    }
  }
}

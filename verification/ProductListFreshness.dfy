/**
  Freshness of the product list: a request opened after a writer has finished shows that writer's
  transaction, in the rows and in the facet counts, exactly when the writer's script bumps in the right order.
 */
module ProductListFreshness {
  import opened Options
  import opened ProductListCache

  /******* The invariant *******/

  /** Every writer whose first page bump since its commit reached generation `gen` or earlier is in `seen`. */
  ghost predicate RowsCover(s: State, gen: nat, seen: Seen) {
    forall w <- s.writers :: s.writers[w].rowsAt.Some? && s.writers[w].rowsAt.value <= gen ==>
      s.writers[w].commit.Some? && s.writers[w].commit.value < seen.version
  }

  /** The same for facet counts stored under facet generation `gen`. */
  ghost predicate FacetsCover(s: State, gen: nat, seen: Seen) {
    forall w <- s.writers :: s.writers[w].facetsAt.Some? && s.writers[w].facetsAt.value <= gen ==>
      s.writers[w].commit.Some? && s.writers[w].commit.value < seen.version
  }

  /** The same for the facet counts embedded in a page of page generation `gen`. */
  ghost predicate PageFacetsCover(s: State, gen: nat, seen: Seen) {
    forall w <- s.writers :: s.writers[w].pageAt.Some? && s.writers[w].pageAt.value <= gen ==>
      s.writers[w].commit.Some? && s.writers[w].commit.value < seen.version
  }

  /** A facet generation read under page generation `gen` is past every facet bump that `gen` implies. */
  ghost predicate FacetGenCovers(s: State, gen: nat, facetGen: nat) {
    forall w <- s.writers :: s.writers[w].pageAt.Some? && s.writers[w].pageAt.value <= gen ==>
      s.writers[w].facetsAt.Some? && s.writers[w].facetsAt.value <= facetGen
  }

  ghost predicate PageOk(s: State, gen: nat, page: Page) {
    gen <= Gen(s.counters.page) && RowsCover(s, gen, page.rows) && PageFacetsCover(s, gen, page.facets)
  }

  ghost predicate WriterOk(s: State, w: Writer) {
    && w.Ok()
    && (w.commit.Some? ==> w.commit.value < |s.commits|)
    && (w.rowsAt.Some? ==> w.commit.Some? && ReachedOrMissed(s, w, PageGeneration, w.rowsAt.value))
    && (w.facetsAt.Some? ==> w.commit.Some? && ReachedOrMissed(s, w, FacetGeneration, w.facetsAt.value))
    && (w.pageAt.Some? ==>
          && w.facetsAt.Some? && w.facetsAt.value <= Gen(s.counters.facet)
          && ReachedOrMissed(s, w, PageGeneration, w.pageAt.value))
  }

  /** The counter has reached `gen`, or the writer missed it and is about to create generation 1. */
  ghost predicate ReachedOrMissed(s: State, w: Writer, bump: Bump, gen: nat) {
    gen <= s.counters.Of(bump) || (gen == 1 && w.missed && w.AtBump() && w.NextBump() == bump)
  }

  ghost predicate RequestOk(s: State, r: Request) {
    match r
    case Served(g, page, _) => PageOk(s, g, page)
    case Opened(_, g, _) => g <= Gen(s.counters.page)
    case Missed(_, g, _) => g <= Gen(s.counters.page)
    case HasRows(_, g, _, rows) => g <= Gen(s.counters.page) && RowsCover(s, g, rows)
    case HasFacetGen(_, g, _, rows, f) =>
      g <= Gen(s.counters.page) && RowsCover(s, g, rows) && f <= Gen(s.counters.facet) && FacetGenCovers(s, g, f)
    case FacetsMissed(_, g, _, rows, f, _) =>
      g <= Gen(s.counters.page) && RowsCover(s, g, rows) && f <= Gen(s.counters.facet) && FacetGenCovers(s, g, f)
    case FacetsRead(_, g, _, rows, f, _, facets) =>
      && g <= Gen(s.counters.page) && RowsCover(s, g, rows) && f <= Gen(s.counters.facet)
      && FacetsCover(s, f, facets) && PageFacetsCover(s, g, facets)
    case Ready(_, g, _, rows, facets) =>
      g <= Gen(s.counters.page) && RowsCover(s, g, rows) && PageFacetsCover(s, g, facets)
  }

  ghost predicate Inv(s: State) {
    && (forall w <- s.writers :: WriterOk(s, s.writers[w]))
    && (forall k <- s.pages :: PageOk(s, k.gen, s.pages[k].value))
    && (forall k <- s.facets :: k.gen <= Gen(s.counters.facet) && FacetsCover(s, k.gen, s.facets[k].value))
    && (forall r <- s.requests :: RequestOk(s, s.requests[r]))
  }

  /** What a step may do to the writers without disturbing anything already read or stored. */
  ghost predicate Advances(s: State, t: State) {
    && Gen(s.counters.page) <= Gen(t.counters.page)
    && Gen(s.counters.facet) <= Gen(t.counters.facet)
    && |s.commits| <= |t.commits|
    && s.writers.Keys <= t.writers.Keys
    && (forall w <- t.writers ::
          if w in s.writers then WriterAdvances(s, s.writers[w], t.writers[w])
          else t.writers[w].rowsAt.None? && t.writers[w].facetsAt.None? && t.writers[w].pageAt.None?)
  }

  ghost predicate WriterAdvances(s: State, before: Writer, after: Writer) {
    && (before.commit.Some? ==> after.commit == before.commit)
    && (after.rowsAt == before.rowsAt || (after.rowsAt.Some? && Gen(s.counters.page) < after.rowsAt.value))
    && (after.facetsAt == before.facetsAt
        || (before.facetsAt.None? && after.facetsAt.Some? && Gen(s.counters.facet) < after.facetsAt.value))
    && (after.pageAt == before.pageAt || (after.pageAt.Some? && Gen(s.counters.page) < after.pageAt.value))
  }

  lemma KeepsRows(s: State, t: State, gen: nat, seen: Seen)
    requires Advances(s, t) && gen <= Gen(s.counters.page) && RowsCover(s, gen, seen)
    ensures RowsCover(t, gen, seen)
  {
    forall w <- t.writers | t.writers[w].rowsAt.Some? && t.writers[w].rowsAt.value <= gen
      ensures t.writers[w].commit.Some? && t.writers[w].commit.value < seen.version
    {
      assert WriterAdvances(s, s.writers[w], t.writers[w]);
    }
  }

  lemma KeepsFacets(s: State, t: State, gen: nat, seen: Seen)
    requires Advances(s, t) && gen <= Gen(s.counters.facet) && FacetsCover(s, gen, seen)
    ensures FacetsCover(t, gen, seen)
  {
    forall w <- t.writers | t.writers[w].facetsAt.Some? && t.writers[w].facetsAt.value <= gen
      ensures t.writers[w].commit.Some? && t.writers[w].commit.value < seen.version
    {
      assert WriterAdvances(s, s.writers[w], t.writers[w]);
    }
  }

  lemma KeepsPageFacets(s: State, t: State, gen: nat, seen: Seen)
    requires Advances(s, t) && gen <= Gen(s.counters.page) && PageFacetsCover(s, gen, seen)
    ensures PageFacetsCover(t, gen, seen)
  {
    forall w <- t.writers | t.writers[w].pageAt.Some? && t.writers[w].pageAt.value <= gen
      ensures t.writers[w].commit.Some? && t.writers[w].commit.value < seen.version
    {
      assert WriterAdvances(s, s.writers[w], t.writers[w]);
    }
  }

  lemma KeepsFacetGen(s: State, t: State, gen: nat, facetGen: nat)
    requires Advances(s, t) && gen <= Gen(s.counters.page) && FacetGenCovers(s, gen, facetGen)
    ensures FacetGenCovers(t, gen, facetGen)
  {
    forall w <- t.writers | t.writers[w].pageAt.Some? && t.writers[w].pageAt.value <= gen
      ensures t.writers[w].facetsAt.Some? && t.writers[w].facetsAt.value <= facetGen
    {
      assert WriterAdvances(s, s.writers[w], t.writers[w]);
    }
  }

  lemma KeepsRequest(s: State, t: State, r: Request)
    requires Advances(s, t) && RequestOk(s, r)
    ensures RequestOk(t, r)
  {
    match r
    case Served(g, page, _) => KeepsRows(s, t, g, page.rows); KeepsPageFacets(s, t, g, page.facets);
    case Opened(_, _, _) =>
    case Missed(_, _, _) =>
    case HasRows(_, g, _, rows) => KeepsRows(s, t, g, rows);
    case HasFacetGen(_, g, _, rows, f) => KeepsRows(s, t, g, rows); KeepsFacetGen(s, t, g, f);
    case FacetsMissed(_, g, _, rows, f, _) => KeepsRows(s, t, g, rows); KeepsFacetGen(s, t, g, f);
    case FacetsRead(_, g, _, rows, f, _, facets) =>
      KeepsRows(s, t, g, rows); KeepsFacets(s, t, f, facets); KeepsPageFacets(s, t, g, facets);
    case Ready(_, g, _, rows, facets) => KeepsRows(s, t, g, rows); KeepsPageFacets(s, t, g, facets);
  }

  /** A step that advances writers and at most drops cache entries keeps the whole invariant, apart from the writers. */
  lemma KeepsInv(s: State, t: State)
    requires Inv(s) && Advances(s, t) && t.requests == s.requests
    requires forall k <- t.pages :: k in s.pages && t.pages[k] == s.pages[k]
    requires forall k <- t.facets :: k in s.facets && t.facets[k] == s.facets[k]
    requires forall w <- t.writers :: WriterOk(t, t.writers[w])
    ensures Inv(t)
  {
    forall k <- t.pages ensures PageOk(t, k.gen, t.pages[k].value) {
      assert PageOk(s, k.gen, s.pages[k].value);
      KeepsRows(s, t, k.gen, s.pages[k].value.rows);
      KeepsPageFacets(s, t, k.gen, s.pages[k].value.facets);
    }
    forall k <- t.facets ensures k.gen <= Gen(t.counters.facet) && FacetsCover(t, k.gen, t.facets[k].value) {
      KeepsFacets(s, t, k.gen, s.facets[k].value);
    }
    forall r <- t.requests ensures RequestOk(t, t.requests[r]) { KeepsRequest(s, t, s.requests[r]); }
  }

  lemma BumpingOk(w: Writer, gen: nat)
    requires w.Ok() && w.AtBump() && !w.missed
    ensures w.Bumping(gen).Ok()
  {
    if |w.script.before| < w.pc {
      var n := w.Done();
      assert w.missed || w.script.after[n] == w.NextBump();
    }
  }

  /** Only writer `id` moved from `s` to `t`, and it moved soundly. */
  ghost predicate OneWriterMoved(s: State, t: State, id: nat) {
    && id in s.writers && id in t.writers
    && t.writers == s.writers[id := t.writers[id]]
    && t.pages == s.pages && t.facets == s.facets && t.requests == s.requests
    && Gen(s.counters.page) <= Gen(t.counters.page) && Gen(s.counters.facet) <= Gen(t.counters.facet)
    && |s.commits| <= |t.commits|
    && WriterOk(t, t.writers[id]) && WriterAdvances(s, s.writers[id], t.writers[id])
  }

  lemma OneWriterMovedInv(s: State, t: State, id: nat)
    requires Inv(s) && OneWriterMoved(s, t, id)
    ensures Inv(t) && Advances(s, t)
  {
    forall w <- t.writers ensures WriterOk(t, t.writers[w]) && WriterAdvances(s, s.writers[w], t.writers[w]) {
      assert WriterOk(s, s.writers[w]);
    }
    KeepsInv(s, t);
  }

  lemma CommitMoves(s: State, id: nat)
    requires id in s.writers && WriterOk(s, s.writers[id]) && s.writers[id].pc == |s.writers[id].script.before|
    ensures OneWriterMoved(s, WriterStep(s, id), id)
  {
  }

  /** A bump only ever records the generation it has just reached. */
  lemma BumpingAdvances(s: State, w: Writer)
    requires WriterOk(s, w) && w.AtBump() && !w.missed
    ensures var gen := s.counters.Of(w.NextBump()) + 1;
            && WriterAdvances(s, w, w.Bumping(gen))
            && WriterOk(s.(counters := s.counters.After(w.NextBump(), s.now)), w.Bumping(gen))
  {
    BumpingOk(w, s.counters.Of(w.NextBump()) + 1);
  }

  /** Creating a missed counter only makes good on the generation recorded when it was missed. */
  lemma CreateMoves(s: State, id: nat)
    requires id in s.writers && WriterOk(s, s.writers[id]) && s.writers[id].missed && KeepsCounter(s, Act(id))
    ensures OneWriterMoved(s, WriterStep(s, id), id)
  {
    CreatedOk(s.writers[id]);
  }

  lemma CreatedOk(w: Writer)
    requires w.Ok() && w.missed
    ensures w.(pc := w.pc + 1, missed := false).Ok()
  {
    assert w.(pc := w.pc + 1, missed := false).Done() == w.Done();
  }

  lemma MissingOk(w: Writer)
    requires w.Ok() && w.AtBump() && !w.missed
    ensures w.Missing().Ok()
  {
    BumpingOk(w, 1);
    assert w.Missing().Done() == w.Bumping(1).Done();
  }

  lemma MissMoves(s: State, id: nat)
    requires id in s.writers && WriterOk(s, s.writers[id]) && MissStep(s, id) != s
    ensures OneWriterMoved(s, MissStep(s, id), id)
  {
    MissingOk(s.writers[id]);
  }

  lemma BumpMoves(s: State, id: nat)
    requires id in s.writers && WriterOk(s, s.writers[id]) && s.writers[id].AtBump() && !s.writers[id].missed
    ensures OneWriterMoved(s, WriterStep(s, id), id)
  {
    var w, t := s.writers[id], WriterStep(s, id);
    BumpingAdvances(s, w);
    SameOk(s.(counters := s.counters.After(w.NextBump(), s.now)), t, t.writers[id]);
  }

  lemma SameOk(s: State, t: State, w: Writer)
    requires t.counters == s.counters && t.commits == s.commits && WriterOk(s, w)
    ensures WriterOk(t, w)
  {
  }

  lemma WriterStepInv(s: State, id: nat)
    requires Inv(s) && id in s.writers && KeepsCounter(s, Act(id))
    ensures Inv(WriterStep(s, id)) && Advances(s, WriterStep(s, id))
  {
    assert WriterOk(s, s.writers[id]);
    if s.writers[id].pc == |s.writers[id].script.before| {
      CommitMoves(s, id);
      OneWriterMovedInv(s, WriterStep(s, id), id);
    } else if s.writers[id].AtBump() {
      if s.writers[id].missed { CreateMoves(s, id); } else { BumpMoves(s, id); }
      OneWriterMovedInv(s, WriterStep(s, id), id);
    }
  }

  lemma MissStepInv(s: State, id: nat)
    requires Inv(s) && id in s.writers && MissStep(s, id) != s
    ensures Inv(MissStep(s, id)) && Advances(s, MissStep(s, id))
  {
    assert WriterOk(s, s.writers[id]);
    MissMoves(s, id);
    OneWriterMovedInv(s, MissStep(s, id), id);
  }

  /** Only request `id` moved from `s` to `t`; whatever it read or stored is sound. */
  ghost predicate OneRequestMoved(s: State, t: State, id: nat) {
    && t.writers == s.writers && t.commits == s.commits && t.counters == s.counters
    && id in t.requests && t.requests == s.requests[id := t.requests[id]] && RequestOk(s, t.requests[id])
    && (forall k <- t.pages :: (k in s.pages && t.pages[k] == s.pages[k]) || PageOk(s, k.gen, t.pages[k].value))
    && (forall k <- t.facets :: (k in s.facets && t.facets[k] == s.facets[k])
                                || (k.gen <= Gen(s.counters.facet) && FacetsCover(s, k.gen, t.facets[k].value)))
  }

  lemma SameWritersAdvance(s: State, t: State)
    requires t.writers == s.writers && t.commits == s.commits && t.counters == s.counters
    ensures Advances(s, t)
  {
  }

  lemma OneRequestMovedInv(s: State, t: State, id: nat)
    requires Inv(s) && OneRequestMoved(s, t, id)
    ensures Inv(t) && Advances(s, t)
  {
    SameWritersAdvance(s, t);
    forall w <- t.writers ensures WriterOk(t, t.writers[w]) { assert WriterOk(s, s.writers[w]); }
    forall k <- t.pages ensures PageOk(t, k.gen, t.pages[k].value) {
      assert PageOk(s, k.gen, t.pages[k].value);
      KeepsRows(s, t, k.gen, t.pages[k].value.rows);
      KeepsPageFacets(s, t, k.gen, t.pages[k].value.facets);
    }
    forall k <- t.facets ensures k.gen <= Gen(t.counters.facet) && FacetsCover(t, k.gen, t.facets[k].value) {
      KeepsFacets(s, t, k.gen, t.facets[k].value);
    }
    forall r <- t.requests ensures RequestOk(t, t.requests[r]) { KeepsRequest(s, t, t.requests[r]); }
  }

  /** What a database read sees covers every writer that has got past its commit. */
  lemma CurrentCovers(s: State, gen: nat)
    requires Inv(s)
    ensures RowsCover(s, gen, Seen(|s.commits|, s.now)) && FacetsCover(s, gen, Seen(|s.commits|, s.now))
    ensures FacetGenCovers(s, gen, Gen(s.counters.facet))
  {
    forall w <- s.writers ensures WriterOk(s, s.writers[w]) {}
  }

  /** Facet counts stored under a facet generation that covers a page generation cover it too. */
  lemma FacetsCoverPage(s: State, gen: nat, facetGen: nat, seen: Seen)
    requires FacetGenCovers(s, gen, facetGen) && FacetsCover(s, facetGen, seen)
    ensures PageFacetsCover(s, gen, seen)
  {
  }

  lemma RequestMoves(s: State, id: nat, step: Step)
    requires Inv(s) && id in s.requests && RequestStep(s, id, step) != s
    ensures OneRequestMoved(s, RequestStep(s, id, step), id)
  {
    var r := s.requests[id];
    assert RequestOk(s, r);
    if r.HasFacetGen? {
      FacetLookupMoves(s, id, step);
    } else if r.FacetsMissed? {
      CurrentCovers(s, r.facetGen);
      FacetsCoverPage(s, r.gen, r.facetGen, Seen(|s.commits|, s.now));
    } else if r.Missed? || r.HasRows? {
      CurrentCovers(s, r.gen);
    }
  }

  lemma FacetLookupMoves(s: State, id: nat, step: Step)
    requires Inv(s) && id in s.requests && s.requests[id].HasFacetGen? && RequestStep(s, id, step) != s
    ensures OneRequestMoved(s, RequestStep(s, id, step), id)
  {
    var r := s.requests[id];
    assert RequestOk(s, r) && step.LookupFacets?;
    if step.key.Some? {
      var k := Key(r.facetGen, step.key.value);
      if Lookup(s.facets, k, s.now).Some? { FacetsCoverPage(s, r.gen, r.facetGen, s.facets[k].value); }
    }
  }

  /** The clock and evictions leave every writer alone. */
  lemma QuietInv(s: State, t: State)
    requires Inv(s)
    requires t.writers == s.writers && t.commits == s.commits
    requires Gen(s.counters.page) <= Gen(t.counters.page) && Gen(s.counters.facet) <= Gen(t.counters.facet)
    requires t.requests == s.requests
    requires forall k <- t.pages :: k in s.pages && t.pages[k] == s.pages[k]
    requires forall k <- t.facets :: k in s.facets && t.facets[k] == s.facets[k]
    ensures Inv(t) && Advances(s, t)
  {
    forall w <- t.writers ensures WriterOk(t, t.writers[w]) { assert WriterOk(s, s.writers[w]); }
    KeepsInv(s, t);
  }

  lemma SpawnInv(s: State, w: nat, script: Script)
    requires Inv(s) && w !in s.writers
    ensures Inv(Next(s, Spawn(w, script))) && Advances(s, Next(s, Spawn(w, script)))
  {
    var t := Next(s, Spawn(w, script));
    forall v <- t.writers ensures WriterOk(t, t.writers[v]) { if v in s.writers { assert WriterOk(s, s.writers[v]); } }
    KeepsInv(s, t);
  }

  lemma OpenInv(s: State, r: nat, query: string)
    requires Inv(s) && r !in s.requests
    ensures Inv(Next(s, Open(r, query))) && Advances(s, Next(s, Open(r, query)))
  {
    OneRequestMovedInv(s, Next(s, Open(r, query)), r);
  }

  lemma RequestStepInv(s: State, id: nat, step: Step)
    requires Inv(s) && id in s.requests
    ensures Inv(RequestStep(s, id, step)) && Advances(s, RequestStep(s, id, step))
  {
    if RequestStep(s, id, step) == s {
      SameWritersAdvance(s, s);
    } else {
      RequestMoves(s, id, step);
      OneRequestMovedInv(s, RequestStep(s, id, step), id);
    }
  }

  predicate QuietStep(step: Step) {
    step.Tick? || step.EvictPage? || step.EvictFacets? || step.LosePageCounter? || step.LoseFacetCounter?
  }

  lemma NextInv(s: State, step: Step)
    requires Inv(s) && KeepsCounter(s, step)
    ensures Inv(Next(s, step)) && Advances(s, Next(s, step))
  {
    var t := Next(s, step);
    if t == s {
      SameWritersAdvance(s, s);
    } else if QuietStep(step) {
      QuietInv(s, t);
    } else if step.Act? {
      WriterStepInv(s, step.writer);
    } else if step.Miss? {
      MissStepInv(s, step.writer);
    } else if step.Spawn? {
      SpawnInv(s, step.writer, step.script);
    } else if step.Open? {
      OpenInv(s, step.request, step.query);
    } else {
      RequestStepInv(s, step.request, step);
    }
  }

  /******* Runs *******/

  /** `t` is reached from `s`: counters only grow, finished writers stay put, later requests read later generations. */
  ghost predicate Later(s: State, t: State) {
    && Gen(s.counters.page) <= Gen(t.counters.page)
    && (forall w <- s.writers :: w in t.writers && (s.writers[w].Finished() ==> t.writers[w] == s.writers[w]))
    && (forall r <- t.requests :: if r in s.requests then t.requests[r].gen == s.requests[r].gen
                                  else Gen(s.counters.page) <= t.requests[r].gen)
    && (forall r <- s.requests :: r in t.requests)
  }

  lemma RequestStepLater(s: State, id: nat, step: Step)
    requires id in s.requests
    ensures Later(s, RequestStep(s, id, step))
  {
    var t := RequestStep(s, id, step);
    assert t.writers == s.writers && t.counters == s.counters;
    assert t.requests.Keys == s.requests.Keys;
  }

  lemma NextLater(s: State, step: Step)
    requires KeepsCounter(s, step)
    ensures Later(s, Next(s, step))
  {
    if step.Act? || step.Miss? {
      assert Next(s, step).requests == s.requests;
    } else if !QuietStep(step) && !step.Spawn? && !step.Open? {
      if step.request in s.requests { RequestStepLater(s, step.request, step); }
    }
  }

  lemma LaterTransitive(s: State, m: State, t: State)
    requires Later(s, m) && Later(m, t)
    ensures Later(s, t)
  {
    forall r <- t.requests
      ensures if r in s.requests then t.requests[r].gen == s.requests[r].gen
              else Gen(s.counters.page) <= t.requests[r].gen
    {
      assert if r in m.requests then t.requests[r].gen == m.requests[r].gen
             else Gen(m.counters.page) <= t.requests[r].gen;
    }
    forall w <- s.writers ensures w in t.writers && (s.writers[w].Finished() ==> t.writers[w] == s.writers[w]) {
      assert w in m.writers;
    }
  }

  lemma {:induction false} RunInv(s: State, steps: seq<Step>)
    requires Inv(s) && KeepsCounters(s, steps)
    ensures Inv(Run(s, steps)) && Later(s, Run(s, steps))
    decreases |steps|
  {
    if steps != [] {
      NextInv(s, steps[0]);
      NextLater(s, steps[0]);
      RunInv(Next(s, steps[0]), steps[1..]);
      LaterTransitive(s, Next(s, steps[0]), Run(s, steps));
    }
  }

  /**
    After the run `pre`, writer `w` (running `script`) has finished and request `r` has not been opened;
    during the run `post` it is opened and answered. No step moves a counter back.
   */
  ghost predicate OpenedAfter(script: Script, pre: seq<Step>, post: seq<Step>, w: nat, r: nat) {
    var s := Run(INIT, pre);
    var t := Run(s, post);
    && KeepsCounters(INIT, pre) && KeepsCounters(s, post)
    && w in s.writers && s.writers[w].script == script && s.writers[w].Finished() && s.writers[w].commit.Some?
    && r !in s.requests && r in t.requests && t.requests[r].Served?
  }

  /** The transaction of writer `w` and the page served to request `r`. */
  function CommitOf(pre: seq<Step>, w: nat): nat {
    var s := Run(INIT, pre);
    if w in s.writers && s.writers[w].commit.Some? then s.writers[w].commit.value else 0
  }

  function PageOf(pre: seq<Step>, post: seq<Step>, r: nat): Page {
    var t := Run(Run(INIT, pre), post);
    if r in t.requests && t.requests[r].Served? then t.requests[r].page else Page(Seen(0, 0), Seen(0, 0))
  }

  /** The freshness theorem, for one writer among any others and any interleaving. */
  lemma RequestShowsFinishedWriter(script: Script, pre: seq<Step>, post: seq<Step>, w: nat, r: nat)
    requires OpenedAfter(script, pre, post, w, r)
    ensures script.Has(PageGeneration, |script.after|) ==> CommitOf(pre, w) < PageOf(pre, post, r).rows.version
    ensures script.HasFacetThenPage(|script.after|) ==> CommitOf(pre, w) < PageOf(pre, post, r).facets.version
  {
    var s := Run(INIT, pre);
    RunInv(INIT, pre);
    RunInv(s, post);
    var t := Run(s, post);
    assert WriterOk(s, s.writers[w]) && t.writers[w] == s.writers[w];
    assert RequestOk(t, t.requests[r]) && Gen(s.counters.page) <= t.requests[r].gen;
  }
}

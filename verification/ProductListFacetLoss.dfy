/**
  From which states on every later request shows a transaction in its facet counts, whatever has happened to the two
  counters before. Old facet counts can come back through a page, through a facet entry that the facet counter or a
  request under way can still reach, or through a request about to store them in either.
 */
module ProductListFacetLoss {
  import opened Options
  import opened ProductListCache
  import opened ProductListSequential
  import opened ProductListLoss

  /** Every request opened from `s` on shows transaction `v` in its facet counts. */
  ghost predicate FacetsShown(s: State, v: nat) {
    forall post, r :: ServedLater(s, post, r) ==> v < PageServed(s, post, r).facets.version
  }

  /** What can be reached again: these generations and later ones, and the facet generations in `held`. */
  datatype Floors = Floors(page: nat, facet: nat, held: set<nat>) {
    predicate Reaches(facetGen: nat) { facet <= facetGen || facetGen in held }
  }

  /** A request that has read its facet generation, and whose page can still be served. */
  predicate Holding(r: Request, floor: nat) { r.HasFacetGen? && floor <= r.gen }

  function HeldGens(s: State, floor: nat): set<nat> {
    set r <- s.requests | Holding(s.requests[r], floor) :: s.requests[r].facetGen
  }

  function FloorsOf(s: State): Floors {
    Floors(Gen(s.counters.page), Gen(s.counters.facet), HeldGens(s, Gen(s.counters.page)))
  }

  /** The request is about to store facet counts where a later request can get them. */
  predicate Passing(r: Request, floors: Floors) {
    || (r.FacetsRead? && (floors.page <= r.gen || (r.key.Some? && floors.Reaches(r.facetGen))))
    || (r.Ready? && floors.page <= r.gen)
  }

  /** Unexpired facet entries and pages that can be reached, and requests about to store one, show `v`. */
  ghost predicate FacetsCurrent(s: State, floors: Floors, v: nat) {
    && (forall k <- s.facets ::
          floors.Reaches(k.gen) && s.now < s.facets[k].expiresAt ==> v < s.facets[k].value.version)
    && (forall k <- s.pages ::
          floors.page <= k.gen && s.now < s.pages[k].expiresAt ==> v < s.pages[k].value.facets.version)
    && (forall r <- s.requests :: Passing(s.requests[r], floors) ==> v < s.requests[r].facets.version)
  }

  /******* Nothing old can come back *******/

  /** What is true of each request: it reads under a reachable generation and, opened later, shows `v` once served. */
  predicate RequestHeld(r: Request, later: bool, floors: Floors, v: nat) {
    && (Holding(r, floors.page) ==> floors.Reaches(r.facetGen))
    && (later ==> floors.page <= r.gen && (r.Served? ==> v < r.page.facets.version))
  }

  ghost predicate FacetsHeld(s: State, known: set<nat>, floors: Floors, v: nat) {
    && v < |s.commits| && floors.page <= Gen(s.counters.page) && floors.facet <= Gen(s.counters.facet)
    && FacetsCurrent(s, floors, v)
    && (forall r <- s.requests :: RequestHeld(s.requests[r], r !in known, floors, v))
  }

  lemma PassesHeld(s: State, t: State, known: set<nat>, floors: Floors, v: nat)
    requires Passes(s, t) && FacetsHeld(s, known, floors, v)
    requires floors.page <= Gen(t.counters.page) && floors.facet <= Gen(t.counters.facet)
    ensures FacetsHeld(t, known, floors, v)
  {
  }

  /** Request `id` has moved; what it has now, and what it stored, shows `v` wherever that matters. */
  ghost predicate Moved(s: State, t: State, id: nat, later: bool, floors: Floors, v: nat) {
    && id in t.requests && t.requests == s.requests[id := t.requests[id]]
    && t.commits == s.commits && t.now == s.now && t.counters == s.counters
    && (forall k <- t.facets :: (k in s.facets && t.facets[k] == s.facets[k])
                                || (floors.Reaches(k.gen) ==> v < t.facets[k].value.version))
    && (forall k <- t.pages :: (k in s.pages && t.pages[k] == s.pages[k])
                               || (floors.page <= k.gen ==> v < t.pages[k].value.facets.version))
    && (Passing(t.requests[id], floors) ==> v < t.requests[id].facets.version)
    && RequestHeld(t.requests[id], later, floors, v)
  }

  lemma RequestMoves(s: State, id: nat, step: Step, known: set<nat>, floors: Floors, v: nat)
    requires FacetsHeld(s, known, floors, v) && id in s.requests && RequestStep(s, id, step) != s
    ensures Moved(s, RequestStep(s, id, step), id, id !in known, floors, v)
  {
    assert RequestHeld(s.requests[id], id !in known, floors, v);
  }

  lemma MovedHeld(s: State, t: State, id: nat, known: set<nat>, floors: Floors, v: nat)
    requires FacetsHeld(s, known, floors, v) && id in s.requests && Moved(s, t, id, id !in known, floors, v)
    ensures FacetsHeld(t, known, floors, v)
  {
  }

  lemma NextHeld(s: State, step: Step, known: set<nat>, floors: Floors, v: nat)
    requires KeepsCounter(s, step) && FacetsHeld(s, known, floors, v)
    ensures FacetsHeld(Next(s, step), known, floors, v)
  {
    if !OfRequest(step) {
      OtherStepPasses(s, step);
      PassesHeld(s, Next(s, step), known, floors, v);
    } else if step.request in s.requests && RequestStep(s, step.request, step) != s {
      RequestMoves(s, step.request, step, known, floors, v);
      MovedHeld(s, RequestStep(s, step.request, step), step.request, known, floors, v);
    }
  }

  lemma {:induction false} RunHeld(s: State, steps: seq<Step>, known: set<nat>, floors: Floors, v: nat)
    requires KeepsCounters(s, steps) && FacetsHeld(s, known, floors, v)
    ensures FacetsHeld(Run(s, steps), known, floors, v)
    decreases |steps|
  {
    if steps != [] {
      NextHeld(s, steps[0], known, floors, v);
      RunHeld(Next(s, steps[0]), steps[1..], known, floors, v);
    }
  }

  /******* Something old is still there *******/

  lemma OneStep(s: State, step: Step)
    requires OfRequest(step)
    ensures KeepsCounters(s, [step]) && Run(s, [step]) == Next(s, step)
  {
    RequestStepsKeep(s, [step]);
    RunCons(s, step, []);
    assert [step] == [step] + [];
  }

  /** A request under way that has read the facet generation of an unexpired entry can still find it. */
  lemma HolderFinds(s: State, k: Key, id: nat) returns (post: seq<Step>, r: nat)
    requires k in s.facets && s.now < s.facets[k].expiresAt
    requires id in s.requests && Holding(s.requests[id], Gen(s.counters.page)) && s.requests[id].facetGen == k.gen
    ensures ServedLater(s, post, r) && PageServed(s, post, r).facets == s.facets[k].value
  {
    var step := LookupFacets(id, Some(k.hash));
    var t := Next(s, step);
    OneStep(s, step);
    assert k == Key(s.requests[id].facetGen, k.hash);
    var later;
    later, r := RequestComesBack(t, id);
    post := [step] + later;
    ThenServed(s, [step], later, r);
  }

  lemma EntryComesBack(s: State, k: Key) returns (post: seq<Step>, r: nat)
    requires k in s.facets && s.now < s.facets[k].expiresAt && FloorsOf(s).Reaches(k.gen)
    ensures ServedLater(s, post, r) && PageServed(s, post, r).facets == s.facets[k].value
  {
    if Gen(s.counters.facet) <= k.gen {
      post, r := CountsComeBack(s, k);
    } else {
      var id :| id in s.requests && Holding(s.requests[id], Gen(s.counters.page)) && s.requests[id].facetGen == k.gen;
      post, r := HolderFinds(s, k, id);
    }
  }

  /** A request about to store facet counts under a key that can be reached. */
  lemma StoredCountsComeBack(s: State, id: nat) returns (post: seq<Step>, r: nat)
    requires id in s.requests && s.requests[id].FacetsRead? && s.requests[id].key.Some?
    requires FloorsOf(s).Reaches(s.requests[id].facetGen)
    ensures ServedLater(s, post, r) && PageServed(s, post, r).facets == s.requests[id].facets
  {
    var t, k := Next(s, StoreFacets(id)), Key(s.requests[id].facetGen, s.requests[id].key.value);
    OneStep(s, StoreFacets(id));
    StoringKeepsHeld(s, id);
    var later;
    later, r := EntryComesBack(t, k);
    post := [StoreFacets(id)] + later;
    ThenServed(s, [StoreFacets(id)], later, r);
  }

  lemma StoringKeepsHeld(s: State, id: nat)
    requires id in s.requests && s.requests[id].FacetsRead?
    ensures FloorsOf(Next(s, StoreFacets(id))) == FloorsOf(s)
  {
    var t, floor := Next(s, StoreFacets(id)), Gen(s.counters.page);
    assert t.requests.Keys == s.requests.Keys && forall r <- s.requests :: r != id ==> t.requests[r] == s.requests[r];
    assert HeldGens(t, floor) == HeldGens(s, floor);
  }

  /******* Exactly when *******/

  predicate OldEntry(s: State, k: Key, v: nat)
    requires k in s.facets
  {
    FloorsOf(s).Reaches(k.gen) && s.now < s.facets[k].expiresAt && s.facets[k].value.version <= v
  }

  predicate OldPage(s: State, k: Key, v: nat)
    requires k in s.pages
  {
    CanComeBack(s, Gen(s.counters.page), k) && s.pages[k].value.facets.version <= v
  }

  /** Something old that can be reached gives a later request without `v`. */
  lemma SomethingOld(s: State, v: nat) returns (post: seq<Step>, r: nat)
    requires !FacetsCurrent(s, FloorsOf(s), v)
    ensures ServedLater(s, post, r) && PageServed(s, post, r).facets.version <= v
  {
    if k :| k in s.facets && OldEntry(s, k, v) {
      post, r := EntryComesBack(s, k);
    } else if k :| k in s.pages && OldPage(s, k, v) {
      post, r := PageComesBack(s, k);
    } else {
      var id :| id in s.requests && Passing(s.requests[id], FloorsOf(s)) && s.requests[id].facets.version <= v;
      if Gen(s.counters.page) <= s.requests[id].gen {
        post, r := RequestComesBack(s, id);
      } else {
        post, r := StoredCountsComeBack(s, id);
      }
    }
  }

  /**
    From any state on, every later request shows transaction `v` in its facet counts exactly when it is in all unexpired
    pages of the current page generation or later, in all unexpired facet entries of the current facet generation or
    later, or of one that a request with such a page has read, and in what requests are about to store in any of these.
   */
  lemma FacetsShownExactlyWhenCurrent(s: State, v: nat)
    requires v < |s.commits|
    ensures FacetsShown(s, v) <==> FacetsCurrent(s, FloorsOf(s), v)
  {
    var floors := FloorsOf(s);
    if FacetsCurrent(s, floors, v) {
      forall r <- s.requests ensures RequestHeld(s.requests[r], false, floors, v) {
        if Holding(s.requests[r], floors.page) { assert s.requests[r].facetGen in HeldGens(s, floors.page); }
      }
      forall post, r | ServedLater(s, post, r) ensures v < PageServed(s, post, r).facets.version {
        RunHeld(s, post, s.requests.Keys, floors, v);
      }
    } else {
      var post, r := SomethingOld(s, v);
    }
  }

  /** After the facet counter is gone, that means every unexpired facet entry, and every request that can store one. */
  lemma FacetCounterLossHarmlessExactlyWhen(s: State, v: nat)
    requires v < |s.commits| && s.counters.facet.None?
    ensures FacetsShown(s, v) <==>
            && (forall k <- s.facets :: s.now < s.facets[k].expiresAt ==> v < s.facets[k].value.version)
            && (forall k <- s.pages ::
                  Gen(s.counters.page) <= k.gen && s.now < s.pages[k].expiresAt ==> v < s.pages[k].value.facets.version)
            && (forall r <- s.requests ::
                  CanStore(s.requests[r], Gen(s.counters.page)) ==> v < s.requests[r].facets.version)
  {
    FacetsShownExactlyWhenCurrent(s, v);
    assert forall r <- s.requests ::
      Passing(s.requests[r], FloorsOf(s)) <==> CanStore(s.requests[r], Gen(s.counters.page));
  }

  /** The request is about to store facet counts in a facet entry, or in a page that can still be served. */
  predicate CanStore(r: Request, floor: nat) {
    (r.FacetsRead? && (r.key.Some? || floor <= r.gen)) || (r.Ready? && floor <= r.gen)
  }
}

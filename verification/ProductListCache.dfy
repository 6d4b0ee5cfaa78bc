/**
  The storefront product list and its two generation-tagged caches.

  Requests (`ProductListView.list`) and writers (a committed row change plus the counter bumps of its
  signal handlers) run interleaved, one cache or database access per step. A database state is named by
  the number of transactions committed so far: a read of version `v` shows transactions `0..v-1`.
 */
module ProductListCache {
  import opened Options

  const PAGE_TTL: nat := 60
  const FACETS_TTL: nat := 300

  /** The counters are created without a lifetime of their own, so they get the backend's default. */
  const COUNTER_TTL: nat := 300

  /******* Writers *******/

  datatype Bump = CategoryGeneration | FacetGeneration | PageGeneration

  datatype Event = CategoryEvent | ProductEvent | ImageEvent | FacetDefinitionEvent

  /** The bumps a signal handler performs, in order (saves and deletes share them). */
  function Handler(e: Event): seq<Bump> {
    match e
    case CategoryEvent => [CategoryGeneration, PageGeneration]
    case ProductEvent => [CategoryGeneration, FacetGeneration, PageGeneration]
    case ImageEvent => [PageGeneration]
    case FacetDefinitionEvent => [FacetGeneration, PageGeneration]
  }

  datatype Counter = Counter(value: nat, expiresAt: nat)

  /** `cache.get(key, 0)` on a counter. */
  function Gen(counter: Option<Counter>): nat { if counter.Some? then counter.value.value else 0 }

  /** `cache.set(key, 1)`. */
  function Created(now: nat): Option<Counter> { Some(Counter(1, now + COUNTER_TTL)) }

  /** `cache.incr`, which keeps the expiry, or the fallback when the key is missing. */
  function Bumped(counter: Option<Counter>, now: nat): Option<Counter> {
    if counter.Some? then Some(counter.value.(value := counter.value.value + 1)) else Created(now)
  }

  function Unexpired(counter: Option<Counter>, now: nat): Option<Counter> {
    if counter.Some? && now < counter.value.expiresAt then counter else None
  }

  /** The three generation counters; `None` is a missing key. */
  datatype Counters = Counters(category: Option<Counter>, facet: Option<Counter>, page: Option<Counter>) {

    function Counter(bump: Bump): Option<Counter> {
      match bump
      case CategoryGeneration => category
      case FacetGeneration => facet
      case PageGeneration => page
    }

    function With(bump: Bump, counter: Option<Counter>): Counters {
      match bump
      case CategoryGeneration => this.(category := counter)
      case FacetGeneration => this.(facet := counter)
      case PageGeneration => this.(page := counter)
    }

    function Of(bump: Bump): nat { Gen(Counter(bump)) }

    function After(bump: Bump, now: nat): Counters { With(bump, Bumped(Counter(bump), now)) }

    /** What is left of the counters when the clock shows `now`. */
    function At(now: nat): Counters {
      Counters(Unexpired(category, now), Unexpired(facet, now), Unexpired(page, now))
    }
  }

  /** One transaction with the counter bumps that precede and follow its commit. */
  datatype Script = Script(before: seq<Bump>, after: seq<Bump>) {
    function Length(): nat { |before| + 1 + |after| }

    /** The action at position `pc` is a bump, not the commit. */
    predicate BumpsAt(pc: nat) { pc < Length() && pc != |before| }

    function BumpAt(pc: nat): Bump
      requires BumpsAt(pc)
    {
      if pc < |before| then before[pc] else after[pc - |before| - 1]
    }

    /** One of the first `n` bumps after the commit is `bump`. */
    predicate Has(bump: Bump, n: nat) {
      exists i :: 0 <= i < n && i < |after| && after[i] == bump
    }

    /** Among the first `n` bumps after the commit, some facet bump precedes some page bump. */
    predicate HasFacetThenPage(n: nat) {
      exists i, j :: 0 <= i < j < n && j < |after| && after[i] == FacetGeneration && after[j] == PageGeneration
    }
  }

  /** A plain `save()`: the row is committed when `post_save` fires. */
  function PlainSave(e: Event): Script { Script([], Handler(e)) }

  /** A save or delete inside `transaction.atomic()`: the handlers fire before the commit. */
  function InTransaction(e: Event): Script { Script(Handler(e), []) }

  /**
    A writer part-way through its script. `commit` is the index of its transaction; `rowsAt`, `facetsAt`
    and `pageAt` are the generations reached by its first page bump after the commit, its first facet
    bump after the commit, and its first page bump after that. A writer that has `missed` found no counter
    to increment and is about to create it.
   */
  datatype Writer = Writer(script: Script, pc: nat, missed: bool, commit: Option<nat>,
                           rowsAt: Option<nat>, facetsAt: Option<nat>, pageAt: Option<nat>)
  {
    predicate Finished() { pc == script.Length() }

    /** How many bumps have been performed, or begun, since the commit. */
    function Done(): nat {
      if |script.before| < pc then pc - |script.before| - (if missed then 0 else 1) else 0
    }

    predicate Ok() {
      && pc <= script.Length() && (missed ==> AtBump())
      && (commit.Some? <==> |script.before| < pc)
      && (rowsAt.Some? <==> script.Has(PageGeneration, Done()))
      && (facetsAt.Some? <==> script.Has(FacetGeneration, Done()))
      && (pageAt.Some? <==> script.HasFacetThenPage(Done()))
    }

    /** The next action is a bump, not the commit. */
    predicate AtBump() { script.BumpsAt(pc) }

    function NextBump(): Bump
      requires AtBump()
    {
      script.BumpAt(pc)
    }

    /** This writer after its next bump took the counter to `gen`. */
    function Bumping(gen: nat): Writer
      requires AtBump()
    {
      match NextBump()
      case CategoryGeneration => this.(pc := pc + 1)
      case FacetGeneration =>
        this.(pc := pc + 1, facetsAt := if facetsAt.None? && commit.Some? then Some(gen) else facetsAt)
      case PageGeneration =>
        this.(pc := pc + 1,
              rowsAt := if rowsAt.None? && commit.Some? then Some(gen) else rowsAt,
              pageAt := if pageAt.None? && facetsAt.Some? then Some(gen) else pageAt)
    }

    /** This writer after its increment failed: what it will create is generation 1. */
    function Missing(): Writer
      requires AtBump()
    {
      Bumping(1).(pc := pc, missed := true)
    }
  }

  /******* Requests *******/

  /** What a database read saw, and when it was made. */
  datatype Seen = Seen(version: nat, readAt: nat)

  datatype Page = Page(rows: Seen, facets: Seen)

  /** A generation-tagged cache key: the counter's value and the hash of the query. */
  datatype Key = Key(gen: nat, hash: string)

  datatype Entry<T> = Entry(value: T, expiresAt: nat)

  /** `ProductListView.list` and, inside it, `compute_facet_counts`; one constructor per program point. */
  datatype Request =
    | Opened(query: string, gen: nat, start: nat)
    | Missed(query: string, gen: nat, start: nat)
    | HasRows(query: string, gen: nat, start: nat, rows: Seen)
    | HasFacetGen(query: string, gen: nat, start: nat, rows: Seen, facetGen: nat)
    | FacetsMissed(query: string, gen: nat, start: nat, rows: Seen, facetGen: nat, key: Option<string>)
    | FacetsRead(query: string, gen: nat, start: nat, rows: Seen, facetGen: nat, key: Option<string>, facets: Seen)
    | Ready(query: string, gen: nat, start: nat, rows: Seen, facets: Seen)
    | Served(gen: nat, page: Page, at: nat)

  datatype State = State(
    now: nat,
    commits: seq<nat>,
    counters: Counters,
    pages: map<Key, Entry<Page>>,
    facets: map<Key, Entry<Seen>>,
    writers: map<nat, Writer>,
    requests: map<nat, Request>,
    slowest: nat)

  const INIT := State(0, [], Counters(None, None, None), map[], map[], map[], map[], 0)

  /** `cache.get` on a payload key: only an unexpired entry is returned. */
  function Lookup<K, T>(cache: map<K, Entry<T>>, key: K, now: nat): Option<T> {
    if key in cache && now < cache[key].expiresAt then Some(cache[key].value) else None
  }

  function Max(a: nat, b: nat): nat { if a < b then b else a }

  /******* Steps *******/

  datatype Step =
    | Tick(seconds: nat)
    | Spawn(writer: nat, script: Script)
    | Act(writer: nat)
    | Miss(writer: nat)
    | Open(request: nat, query: string)
    | LookupPage(request: nat)
    | ReadRows(request: nat)
    | ReadFacetGen(request: nat)
    | LookupFacets(request: nat, key: Option<string>)
    | ReadFacets(request: nat)
    | StoreFacets(request: nat)
    | StorePage(request: nat)
    | EvictPage(pageKey: Key)
    | EvictFacets(facetsKey: Key)
    | LoseFacetCounter
    | LosePageCounter

  /** A step of a request that has been opened. */
  predicate OfRequest(step: Step) {
    step.LookupPage? || step.ReadRows? || step.ReadFacetGen? || step.LookupFacets? || step.ReadFacets?
    || step.StoreFacets? || step.StorePage?
  }

  /**
    One action of a writer: a bump, the commit, or nothing once the script is finished. A bump is one atomic
    increment, or the creation of a missing counter. A writer that has already missed creates the counter whatever
    it has become since.
   */
  function WriterStep(s: State, id: nat): State
    requires id in s.writers
  {
    var w := s.writers[id];
    if w.pc == |w.script.before| then
      s.(commits := s.commits + [s.now],
         writers := s.writers[id := w.(pc := w.pc + 1, commit := Some(|s.commits|))])
    else if w.AtBump() && w.missed then
      s.(counters := s.counters.With(w.NextBump(), Created(s.now)),
         writers := s.writers[id := w.(pc := w.pc + 1, missed := false)])
    else if w.AtBump() then
      s.(counters := s.counters.After(w.NextBump(), s.now),
         writers := s.writers[id := w.Bumping(s.counters.Of(w.NextBump()) + 1)])
    else s
  }

  /** A writer's increment fails because the counter is missing. */
  function MissStep(s: State, id: nat): State
    requires id in s.writers
  {
    var w := s.writers[id];
    if w.AtBump() && !w.missed && s.counters.Counter(w.NextBump()).None?
    then s.(writers := s.writers[id := w.Missing()])
    else s
  }

  /** The next access of an in-flight request; a step that does not fit its program point changes nothing. */
  function RequestStep(s: State, id: nat, step: Step): State
    requires id in s.requests
  {
    var current := Seen(|s.commits|, s.now);
    match (s.requests[id], step)
    case (Opened(q, g, t), LookupPage(_)) =>
      var hit := Lookup(s.pages, Key(g, q), s.now);
      s.(requests := s.requests[id := if hit.Some? then Served(g, hit.value, s.now) else Missed(q, g, t)])
    case (Missed(q, g, t), ReadRows(_)) =>
      s.(requests := s.requests[id := HasRows(q, g, t, current)])
    case (HasRows(q, g, t, rows), ReadFacetGen(_)) =>
      s.(requests := s.requests[id := HasFacetGen(q, g, t, rows, Gen(s.counters.facet))])
    case (HasFacetGen(q, g, t, rows, f), LookupFacets(_, key)) =>
      var hit := if key.Some? then Lookup(s.facets, Key(f, key.value), s.now) else None;
      s.(requests := s.requests[id := if hit.Some? then Ready(q, g, t, rows, hit.value)
                                      else FacetsMissed(q, g, t, rows, f, key)])
    case (FacetsMissed(q, g, t, rows, f, key), ReadFacets(_)) =>
      s.(requests := s.requests[id := FacetsRead(q, g, t, rows, f, key, current)])
    case (FacetsRead(q, g, t, rows, f, key, facets), StoreFacets(_)) =>
      s.(requests := s.requests[id := Ready(q, g, t, rows, facets)],
         facets := if key.Some? then s.facets[Key(f, key.value) := Entry(facets, s.now + FACETS_TTL)] else s.facets,
         slowest := if t <= s.now then Max(s.slowest, s.now - t) else s.slowest)
    case (Ready(q, g, t, rows, facets), StorePage(_)) =>
      var page := Page(rows, facets);
      s.(requests := s.requests[id := Served(g, page, s.now)],
         pages := s.pages[Key(g, q) := Entry(page, s.now + PAGE_TTL)],
         slowest := if t <= s.now then Max(s.slowest, s.now - t) else s.slowest)
    case _ => s
  }

  function Next(s: State, step: Step): State {
    match step
    case Tick(d) => s.(now := s.now + d, counters := s.counters.At(s.now + d))
    case Spawn(w, script) =>
      if w in s.writers then s else s.(writers := s.writers[w := Writer(script, 0, false, None, None, None, None)])
    case Act(w) => if w in s.writers then WriterStep(s, w) else s
    case Miss(w) => if w in s.writers then MissStep(s, w) else s
    case Open(r, q) =>
      if r in s.requests then s else s.(requests := s.requests[r := Opened(q, Gen(s.counters.page), s.now)])
    case EvictPage(key) => s.(pages := s.pages - {key})
    case EvictFacets(key) => s.(facets := s.facets - {key})
    case LoseFacetCounter => s.(counters := s.counters.(facet := None))
    case LosePageCounter => s.(counters := s.counters.(page := None))
    case _ => if step.request in s.requests then RequestStep(s, step.request, step) else s
  }

  function Run(s: State, steps: seq<Step>): State
    decreases |steps|
  {
    if steps == [] then s else Run(Next(s, steps[0]), steps[1..])
  }

  lemma {:induction false} RunConcat(s: State, a: seq<Step>, b: seq<Step>)
    ensures Run(s, a + b) == Run(Run(s, a), b)
    decreases |a|
  {
    if a == [] {
      assert a + b == b;
    } else {
      assert (a + b)[1..] == a[1..] + b;
      RunConcat(Next(s, a[0]), a[1..], b);
    }
  }

  /** The step moves neither generation back: no counter expires, is evicted, or is created over a later one. */
  ghost predicate KeepsCounter(s: State, step: Step) {
    && Gen(s.counters.page) <= Gen(Next(s, step).counters.page)
    && Gen(s.counters.facet) <= Gen(Next(s, step).counters.facet)
  }

  ghost predicate KeepsCounters(s: State, steps: seq<Step>)
    decreases |steps|
  {
    steps != [] ==> KeepsCounter(s, steps[0]) && KeepsCounters(Next(s, steps[0]), steps[1..])
  }

  lemma {:induction false} KeepsCountersConcat(s: State, a: seq<Step>, b: seq<Step>)
    ensures KeepsCounters(s, a + b) <==> KeepsCounters(s, a) && KeepsCounters(Run(s, a), b)
    decreases |a|
  {
    if a == [] {
      assert a + b == b;
    } else {
      assert (a + b)[1..] == a[1..] + b;
      KeepsCountersConcat(Next(s, a[0]), a[1..], b);
    }
  }
}

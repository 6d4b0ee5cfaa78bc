/**
  Callers of the idempotency helpers, interleaved one cache access per step, in the order of the staff order
  intake view: read the stored result, take the lock, (optionally) read again, run the mutation, store, release.
 */
module IdempotencyProtocol {
  import opened Options
  import opened Idempotency

  datatype Request = Request(scope: string, key: string, fingerprint: string) {
    /** A scope without ":" and a key that does not end in ":lock". */
    predicate Proper() { ':' !in scope && !(5 <= |key| && key[|key| - 5..] == ":lock") }
    function Key(): string { CacheKey(scope, key) }
    function Lock(): string { LockKey(scope, key) }
    predicate SameKey(other: Request) { scope == other.scope && key == other.key }
  }

  datatype Response =
    | Fresh(status: nat, data: string)
    | Replay(status: nat, data: string)
    | Conflict
    | InProgress
    | Invalid

  /** One caller's program point; `since` is when it won the lock. */
  datatype Caller =
    | Arrived(request: Request)
    | Checked(request: Request)
    | Holding(request: Request, since: nat)
    | Confirmed(request: Request, since: nat)
    | Mutated(request: Request, since: nat, entry: nat)
    | Finishing(request: Request, since: nat, response: Response)
    | Answered(request: Request, response: Response)
  {
    predicate HasLock() { Holding? || Confirmed? || Mutated? || Finishing? }
  }

  /** One execution of the mutation: when it ran, and when its response was stored. */
  datatype Execution = Execution(request: Request, status: nat, data: string, at: nat, storedAt: Option<nat>)

  /** `reread` says whether a winner reads the stored result again under the lock; the source's views do not. */
  datatype State = State(reread: bool, now: nat, cache: Cache, callers: map<nat, Caller>, log: seq<Execution>)

  function Start(reread: bool): State { State(reread, 0, map[], map[], []) }

  datatype Step =
    | Tick(seconds: nat)
    | Arrive(caller: nat, request: Request)
    | Check(caller: nat)
    | Acquire(caller: nat)
    | Recheck(caller: nat)
    | Mutate(caller: nat, status: nat, data: string)
    | Fail(caller: nat)
    | Store(caller: nat)
    | Release(caller: nat)

  /** The answer to a request whose key already has a stored result. */
  function FromCache(cached: Result, fingerprint: string): Response {
    if PayloadConflict(Some(cached), fingerprint) then Conflict else Replay(cached.status, cached.data)
  }

  function CallerStep(s: State, id: nat, step: Step): State
    requires id in s.callers
  {
    match (s.callers[id], step)
    case (Arrived(q), Check(_)) =>
      var cached := ReadResult(s.cache, q.scope, q.key, s.now);
      s.(callers := s.callers[id := if cached.Some? then Answered(q, FromCache(cached.value, q.fingerprint))
                                    else Checked(q)])
    case (Checked(q), Acquire(_)) =>
      if Live(s.cache, q.Lock(), s.now) then s.(callers := s.callers[id := Answered(q, InProgress)])
      else s.(cache := AfterAcquire(s.cache, q.scope, q.key, s.now), callers := s.callers[id := Holding(q, s.now)])
    case (Holding(q, t), Recheck(_)) =>
      var cached := if s.reread then ReadResult(s.cache, q.scope, q.key, s.now) else None;
      s.(callers := s.callers[id := if cached.Some? then Finishing(q, t, FromCache(cached.value, q.fingerprint))
                                    else Confirmed(q, t)])
    case (Confirmed(q, t), Mutate(_, status, data)) =>
      s.(callers := s.callers[id := Mutated(q, t, |s.log|)], log := s.log + [Execution(q, status, data, s.now, None)])
    case (Confirmed(q, t), Fail(_)) =>
      s.(callers := s.callers[id := Finishing(q, t, Invalid)])
    case (Mutated(q, t, i), Store(_)) =>
      if i < |s.log| then
        var e := s.log[i];
        s.(cache := AfterStore(s.cache, q.scope, q.key, Result(e.status, e.data, Some(q.fingerprint)), s.now),
           callers := s.callers[id := Finishing(q, t, Fresh(e.status, e.data))],
           log := s.log[i := e.(storedAt := Some(s.now))])
      else s
    case (Finishing(q, _, response), Release(_)) =>
      s.(cache := AfterRelease(s.cache, q.scope, q.key), callers := s.callers[id := Answered(q, response)])
    case _ => s
  }

  function Next(s: State, step: Step): State {
    match step
    case Tick(d) => s.(now := s.now + d)
    case Arrive(c, q) => if c in s.callers then s else s.(callers := s.callers[c := Arrived(q)])
    case _ => if step.caller in s.callers then CallerStep(s, step.caller, step) else s
  }

  function Run(s: State, steps: seq<Step>): State
    decreases |steps|
  {
    if steps == [] then s else Run(Next(s, steps[0]), steps[1..])
  }

  /** No lock holder has outlived its marker. */
  ghost predicate Timely(s: State) {
    forall c <- s.callers :: s.callers[c].HasLock() ==> s.now < s.callers[c].since + LOCK_TTL
  }

  /** Every request is proper, and every state on the way is timely. */
  ghost predicate TimelyRun(s: State, steps: seq<Step>)
    decreases |steps|
  {
    Timely(s) && (steps != [] ==>
      (steps[0].Arrive? ==> steps[0].request.Proper()) && TimelyRun(Next(s, steps[0]), steps[1..]))
  }

  /******* Mutual exclusion *******/

  lemma ProperKeys(q: Request, r: Request)
    requires q.Proper() && r.Proper()
    ensures q.Lock() != r.Key()
    ensures q.Key() == r.Key() <==> q.SameKey(r)
    ensures q.Lock() == r.Lock() <==> q.SameKey(r)
  {
    LockKeyClash(q.scope, q.key, r.scope, r.key);
    CacheKeyInjective(q.scope, q.key, r.scope, r.key);
    LockKeyInjective(q.scope, q.key, r.scope, r.key);
    assert (q.key + ":lock")[|q.key + ":lock"| - 5..] == ":lock";
  }

  ghost predicate HasMarker(cache: Cache, c: Caller)
    requires c.HasLock()
  {
    c.request.Lock() in cache && cache[c.request.Lock()] == Marker(c.since + LOCK_TTL)
  }

  /** At most one caller per (scope, key) is between acquire and release, and its marker is in the cache. */
  ghost predicate Exclusive(s: State) {
    && (forall c <- s.callers :: s.callers[c].request.Proper())
    && (forall c <- s.callers :: s.callers[c].HasLock() ==> HasMarker(s.cache, s.callers[c]))
    && (forall c, d | c in s.callers && d in s.callers && c != d && s.callers[c].HasLock() && s.callers[d].HasLock() ::
          !s.callers[c].request.SameKey(s.callers[d].request))
  }

  /** Caller `id` alone moved, under the same request; it took, kept or gave up the lock, the cache following. */
  ghost predicate CallerMoved(s: State, t: State, id: nat) {
    && id in s.callers && id in t.callers && t.callers == s.callers[id := t.callers[id]] && t.now == s.now
    && var c, c', q := s.callers[id], t.callers[id], s.callers[id].request;
       && c'.request == q
       && if !c.HasLock() && c'.HasLock() then
            !Live(s.cache, q.Lock(), s.now) && t.cache == s.cache[q.Lock() := Marker(s.now + LOCK_TTL)]
                && c'.since == s.now
          else if c.HasLock() && !c'.HasLock() then t.cache == s.cache - {q.Lock()}
          else
            && (c.HasLock() ==> c'.since == c.since)
            && (t.cache == s.cache || (q.Key() in t.cache && t.cache == s.cache[q.Key() := t.cache[q.Key()]]))
  }

  lemma CallerStepMoves(s: State, id: nat, step: Step)
    requires id in s.callers
    ensures CallerStep(s, id, step) == s || CallerMoved(s, CallerStep(s, id, step), id)
  {
    var t := CallerStep(s, id, step);
    if t != s && s.callers[id].Mutated? {
      var e, q := s.log[s.callers[id].entry], s.callers[id].request;
      assert t.cache == s.cache[q.Key() := Stored(Result(e.status, e.data, Some(q.fingerprint)), s.now + RESULT_TTL)];
    }
  }

  lemma MarkersKept(s: State, t: State, id: nat, d: nat)
    requires Exclusive(s) && Timely(s) && CallerMoved(s, t, id) && d in t.callers && t.callers[d].HasLock()
    ensures HasMarker(t.cache, t.callers[d])
  {
    ProperKeys(t.callers[d].request, s.callers[id].request);
    ProperKeys(s.callers[id].request, t.callers[d].request);
  }

  lemma ExclusiveKept(s: State, t: State, id: nat)
    requires Exclusive(s) && Timely(s) && CallerMoved(s, t, id)
    ensures Exclusive(t)
  {
    forall c <- t.callers ensures t.callers[c].request.Proper() { assert s.callers[c].request.Proper(); }
    forall d <- t.callers | t.callers[d].HasLock() ensures HasMarker(t.cache, t.callers[d]) {
      MarkersKept(s, t, id, d);
    }
    forall d <- t.callers | d != id && t.callers[id].HasLock() && t.callers[d].HasLock()
      ensures !t.callers[id].request.SameKey(t.callers[d].request)
    {
      ProperKeys(s.callers[id].request, s.callers[d].request);
      assert HasMarker(s.cache, s.callers[d]);
    }
  }

  lemma NextExclusive(s: State, step: Step)
    requires Exclusive(s) && Timely(s) && (step.Arrive? ==> step.request.Proper())
    ensures Exclusive(Next(s, step))
  {
    if !step.Tick? && !step.Arrive? && step.caller in s.callers {
      CallerStepMoves(s, step.caller, step);
      if Next(s, step) != s { ExclusiveKept(s, Next(s, step), step.caller); }
    }
  }

  /** In every timely run of either protocol, at most one caller per (scope, key) holds the lock. */
  lemma {:induction false} LockIsExclusive(s: State, steps: seq<Step>)
    requires Exclusive(s) && TimelyRun(s, steps)
    ensures Exclusive(Run(s, steps))
    decreases |steps|
  {
    if steps != [] {
      NextExclusive(s, steps[0]);
      LockIsExclusive(Next(s, steps[0]), steps[1..]);
    }
  }

  /** While a caller holds the lock in time, another caller of the same key is refused, and nothing else changes. */
  lemma ContenderIsRefused(s: State, holder: nat, id: nat)
    requires Exclusive(s) && Timely(s) && holder in s.callers && s.callers[holder].HasLock()
    requires id in s.callers && s.callers[id].Checked? && s.callers[id].request.SameKey(s.callers[holder].request)
    ensures Next(s, Acquire(id)) == s.(callers := s.callers[id := Answered(s.callers[id].request, InProgress)])
  {
    assert HasMarker(s.cache, s.callers[holder]);
  }

  /**
    A request whose mutation fails is answered with the error. Its release leaves every stored response, no execution,
    and a lock that is free, so that the same key can be used again.
   */
  lemma FailureFreesKey(s: State, id: nat, other: Request)
    requires Exclusive(s) && id in s.callers && s.callers[id].Confirmed? && other.Proper()
    ensures var q, t := s.callers[id].request, Next(Next(s, Fail(id)), Release(id));
            && t.log == s.log && t.callers == s.callers[id := Answered(q, Invalid)]
            && !Live(t.cache, q.Lock(), t.now)
            && ReadResult(t.cache, other.scope, other.key, t.now) == ReadResult(s.cache, other.scope, other.key, s.now)
  {
    ProperKeys(s.callers[id].request, other);
  }

  /** Without timeliness: winning the lock keeps it exclusive exactly when no holder of the same key has overstayed. */
  lemma AcquireExclusiveExactlyWhenNoneOverstays(s: State, id: nat)
    requires Exclusive(s) && id in s.callers && s.callers[id].Checked?
    ensures Exclusive(Next(s, Acquire(id))) <==>
            forall d <- s.callers :: s.callers[d].HasLock() && s.callers[d].request.SameKey(s.callers[id].request) ==>
              s.now < s.callers[d].since + LOCK_TTL
  {
    if forall d <- s.callers :: s.callers[d].HasLock() && s.callers[d].request.SameKey(s.callers[id].request) ==>
         s.now < s.callers[d].since + LOCK_TTL
    {
      AcquireKeepsExclusive(s, id);
    } else {
      var d :| d in s.callers && s.callers[d].HasLock() && s.callers[d].request.SameKey(s.callers[id].request)
               && s.callers[d].since + LOCK_TTL <= s.now;
      OverstayerLosesLock(s, id, d);
    }
  }

  lemma OverstayerLosesLock(s: State, id: nat, d: nat)
    requires Exclusive(s) && id in s.callers && s.callers[id].Checked? && d in s.callers && s.callers[d].HasLock()
    requires s.callers[d].request.SameKey(s.callers[id].request) && s.callers[d].since + LOCK_TTL <= s.now
    ensures !Exclusive(Next(s, Acquire(id)))
  {
    var t := Next(s, Acquire(id));
    ProperKeys(s.callers[d].request, s.callers[id].request);
    assert HasMarker(s.cache, s.callers[d]);
    assert t.callers[d] == s.callers[d] && t.callers[id].HasLock();
  }

  lemma AcquireKeepsExclusive(s: State, id: nat)
    requires Exclusive(s) && id in s.callers && s.callers[id].Checked?
    requires forall d <- s.callers :: s.callers[d].HasLock() && s.callers[d].request.SameKey(s.callers[id].request) ==>
               s.now < s.callers[d].since + LOCK_TTL
    ensures Exclusive(Next(s, Acquire(id)))
  {
    var q, t := s.callers[id].request, Next(s, Acquire(id));
    CallerStepMoves(s, id, Acquire(id));
    forall d <- t.callers | t.callers[d].HasLock() ensures HasMarker(t.cache, t.callers[d]) {
      ProperKeys(t.callers[d].request, q);
    }
    forall d <- t.callers | d != id && t.callers[id].HasLock() && t.callers[d].HasLock()
      ensures !q.SameKey(t.callers[d].request)
    {
      ProperKeys(q, s.callers[d].request);
      assert HasMarker(s.cache, s.callers[d]);
    }
    forall c <- t.callers ensures t.callers[c].request.Proper() { assert s.callers[c].request.Proper(); }
  }
}

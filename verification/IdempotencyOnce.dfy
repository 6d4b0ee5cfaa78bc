/**
  At-most-once execution. With a second read under the lock every key runs its mutation at most once until the
  stored response expires; and so does every run in which no mutation is taken while an unexpired response for its key
  is stored.
 */
module IdempotencyOnce {
  import opened Options
  import opened Idempotency
  import opened IdempotencyProtocol

  /** Execution `e` is over and its stored response has expired. */
  predicate Expired(e: Execution, now: nat) { e.storedAt.Some? && e.storedAt.value + RESULT_TTL <= now }

  /** The mutation ran again under a key only after the earlier stored response had expired. */
  ghost predicate AtMostOnce(log: seq<Execution>) {
    forall i, j :: 0 <= i < j < |log| && log[i].request.SameKey(log[j].request) ==> Expired(log[i], log[j].at)
  }

  /** No execution under the request's key is running or still answerable. */
  ghost predicate Clear(s: State, q: Request) {
    forall i :: 0 <= i < |s.log| && s.log[i].request.SameKey(q) ==> Expired(s.log[i], s.now)
  }

  function ResponseOf(e: Execution): Result { Result(e.status, e.data, Some(e.request.fingerprint)) }

  /**
    An execution is either still between the mutation and the store, or its response is in the cache until it expires.
   */
  ghost predicate ExecutionOk(s: State, i: nat)
    requires i < |s.log|
  {
    var e := s.log[i];
    && e.request.Proper() && e.at <= s.now
    && (e.storedAt.Some? ==>
          && e.at <= e.storedAt.value <= s.now
          && (s.now < e.storedAt.value + RESULT_TTL ==>
                e.request.Key() in s.cache
                && s.cache[e.request.Key()] == Stored(ResponseOf(e), e.storedAt.value + RESULT_TTL)))
  }

  ghost predicate CallerOk(s: State, c: Caller) {
    && (c.Confirmed? && s.reread ==> Clear(s, c.request))
    && (c.Mutated? ==> c.entry < |s.log| && s.log[c.entry].request == c.request && s.log[c.entry].storedAt.None?)
  }

  ghost predicate Inv(s: State) {
    && Exclusive(s)
    && AtMostOnce(s.log)
    && (forall i :: 0 <= i < |s.log| ==> ExecutionOk(s, i))
    && (forall i :: 0 <= i < |s.log| && s.log[i].storedAt.None? ==> Running(s, i))
    && (forall c <- s.callers :: CallerOk(s, s.callers[c]))
    && (forall k <- s.cache :: s.cache[k].Stored? ==> Accounted(s, k))
  }

  /** Some lock holder is about to store execution `i`. */
  ghost predicate Running(s: State, i: nat)
    requires i < |s.log|
  {
    exists c :: c in s.callers && s.callers[c].Mutated? && s.callers[c].entry == i
        && s.callers[c].request == s.log[i].request
  }

  /** A stored response is that of a logged execution. */
  ghost predicate Accounted(s: State, k: string)
    requires k in s.cache && s.cache[k].Stored?
  {
    exists i :: 0 <= i < |s.log| && s.log[i].request.Key() == k && s.log[i].storedAt.Some?
                && s.cache[k] == Stored(ResponseOf(s.log[i]), s.log[i].storedAt.value + RESULT_TTL)
  }

  /******* The invariant is kept *******/

  /** The mutation runs although an unexpired response for its key is stored: only possible without the second read. */
  predicate LateMutation(s: State, step: Step) {
    && step.Mutate? && step.caller in s.callers && s.callers[step.caller].Confirmed?
    && var q := s.callers[step.caller].request;
       ReadResult(s.cache, q.scope, q.key, s.now).Some?
  }

  lemma NotRunning(s: State, id: nat, i: nat)
    requires Exclusive(s) && id in s.callers && (s.callers[id].Holding? || s.callers[id].Confirmed?)
    requires i < |s.log| && s.log[i].request.SameKey(s.callers[id].request)
    ensures !Running(s, i)
  {
    forall c <- s.callers | s.callers[c].Mutated? ensures s.callers[c].request != s.log[i].request {
      assert s.callers[c].HasLock() && s.callers[id].HasLock();
    }
  }

  /** A lock holder whose key has no unexpired stored response may run. */
  lemma WinnerIsClear(s: State, id: nat)
    requires Inv(s) && id in s.callers && (s.callers[id].Holding? || s.callers[id].Confirmed?)
    requires ReadResult(s.cache, s.callers[id].request.scope, s.callers[id].request.key, s.now).None?
    ensures Clear(s, s.callers[id].request)
  {
    var q := s.callers[id].request;
    forall i | 0 <= i < |s.log| && s.log[i].request.SameKey(q) ensures Expired(s.log[i], s.now) {
      assert ExecutionOk(s, i);
      NotRunning(s, id, i);
    }
  }

  /** Only caller `id` changed; the cache changed at most at markers. */
  ghost predicate Quiet(s: State, t: State, id: nat) {
    && t.log == s.log && t.now == s.now && id in t.callers && t.callers == s.callers[id := t.callers[id]]
    && (id in s.callers ==> !s.callers[id].Mutated?) && !t.callers[id].Mutated?
    && t.reread == s.reread && (t.callers[id].Confirmed? && s.reread ==> Clear(s, t.callers[id].request))
    && (forall k <- t.cache :: t.cache[k].Stored? ==> k in s.cache && t.cache[k] == s.cache[k])
    && (forall i :: 0 <= i < |s.log| && s.log[i].request.Key() in s.cache && s.cache[s.log[i].request.Key()].Stored? ==>
          s.log[i].request.Key() in t.cache && t.cache[s.log[i].request.Key()] == s.cache[s.log[i].request.Key()])
  }

  lemma RunningKept(s: State, t: State, id: nat, i: nat)
    requires i < |s.log| && i < |t.log| && t.log[i].request == s.log[i].request && Running(s, i)
    requires id in t.callers && t.callers == s.callers[id := t.callers[id]]
    requires id in s.callers ==> s.callers[id].Mutated? ==> t.callers[id] == s.callers[id] || s.callers[id].entry != i
    ensures Running(t, i)
  {
    var c :| c in s.callers && s.callers[c].Mutated? && s.callers[c].entry == i
        && s.callers[c].request == s.log[i].request;
    assert c in t.callers && t.callers[c] == s.callers[c];
  }

  lemma AccountedKept(s: State, t: State, k: string)
    requires k in s.cache && k in t.cache && t.cache[k] == s.cache[k] && s.cache[k].Stored? && Accounted(s, k)
    requires |s.log| <= |t.log| && forall i :: 0 <= i < |s.log| ==> t.log[i] == s.log[i]
    ensures Accounted(t, k)
  {
    var i :| 0 <= i < |s.log| && s.log[i].request.Key() == k && s.log[i].storedAt.Some?
             && s.cache[k] == Stored(ResponseOf(s.log[i]), s.log[i].storedAt.value + RESULT_TTL);
    assert t.log[i].request.Key() == k;
  }

  lemma QuietInv(s: State, t: State, id: nat)
    requires Inv(s) && Quiet(s, t, id) && Exclusive(t)
    ensures Inv(t)
  {
    forall i | 0 <= i < |t.log| ensures ExecutionOk(t, i) { assert ExecutionOk(s, i); }
    forall i | 0 <= i < |t.log| && t.log[i].storedAt.None? ensures Running(t, i) { RunningKept(s, t, id, i); }
    forall c <- t.callers ensures CallerOk(t, t.callers[c]) { if c != id { assert CallerOk(s, s.callers[c]); } }
    forall k <- t.cache | t.cache[k].Stored? ensures Accounted(t, k) { AccountedKept(s, t, k); }
  }

  lemma TickInv(s: State, d: nat)
    requires Inv(s)
    ensures Inv(s.(now := s.now + d))
  {
    var t := s.(now := s.now + d);
    forall i | 0 <= i < |t.log| ensures ExecutionOk(t, i) { assert ExecutionOk(s, i); }
    forall i | 0 <= i < |t.log| && t.log[i].storedAt.None? ensures Running(t, i) {
      assert Running(s, i);
      var c :| c in s.callers && s.callers[c].Mutated? && s.callers[c].entry == i
          && s.callers[c].request == s.log[i].request;
      assert c in t.callers;
    }
    forall c <- t.callers ensures CallerOk(t, t.callers[c]) { assert CallerOk(s, s.callers[c]); }
    forall k <- t.cache | t.cache[k].Stored? ensures Accounted(t, k) { AccountedKept(s, t, k); }
  }

  lemma MutateLog(s: State, q: Request, e: Execution)
    requires Inv(s) && Clear(s, q) && e.request == q && e.at == s.now
    ensures AtMostOnce(s.log + [e])
  {
    forall i, j | 0 <= i < j < |s.log + [e]| && (s.log + [e])[i].request.SameKey((s.log + [e])[j].request)
      ensures Expired((s.log + [e])[i], (s.log + [e])[j].at)
    {
      if j == |s.log| { assert s.log[i].request.SameKey(q); }
    }
  }

  lemma MutateInv(s: State, id: nat, status: nat, data: string)
    requires Inv(s) && id in s.callers && s.callers[id].Confirmed? && Exclusive(Next(s, Mutate(id, status, data)))
    requires !LateMutation(s, Mutate(id, status, data))
    ensures Inv(Next(s, Mutate(id, status, data)))
  {
    var t, q := Next(s, Mutate(id, status, data)), s.callers[id].request;
    WinnerIsClear(s, id);
    MutateLog(s, q, Execution(q, status, data, s.now, None));
    forall i | 0 <= i < |t.log| ensures ExecutionOk(t, i) { if i < |s.log| { assert ExecutionOk(s, i); } }
    forall i | 0 <= i < |t.log| && t.log[i].storedAt.None? ensures Running(t, i) {
      if i < |s.log| { RunningKept(s, t, id, i); } else { assert t.callers[id].Mutated?; }
    }
    forall c <- t.callers ensures CallerOk(t, t.callers[c]) {
      if c != id {
        assert CallerOk(s, s.callers[c]);
        if t.callers[c].Confirmed? { assert !t.callers[c].request.SameKey(q) && !q.SameKey(t.callers[c].request); }
      }
    }
    forall k <- t.cache | t.cache[k].Stored? ensures Accounted(t, k) { AccountedKept(s, t, k); }
  }

  /** No other execution of the key is stored and unexpired while one is running. */
  lemma OthersExpired(s: State, i: nat, j: nat)
    requires Inv(s) && i < |s.log| && j < |s.log| && i != j && s.log[i].storedAt.None?
    requires s.log[i].request.SameKey(s.log[j].request) && s.log[j].storedAt.Some?
    ensures Expired(s.log[j], s.now)
  {
    assert ExecutionOk(s, i);
    RunningIsLast(s, i, j);
    assert Expired(s.log[j], s.log[i].at);
  }

  lemma RunningIsLast(s: State, i: nat, j: nat)
    requires AtMostOnce(s.log) && i < |s.log| && j < |s.log| && i != j && s.log[i].storedAt.None?
    requires s.log[i].request.SameKey(s.log[j].request)
    ensures j < i
  {
  }

  lemma StoredLog(s: State, i: nat)
    requires Inv(s) && i < |s.log| && s.log[i].storedAt.None?
    ensures AtMostOnce(s.log[i := s.log[i].(storedAt := Some(s.now))])
  {
    var log := s.log[i := s.log[i].(storedAt := Some(s.now))];
    forall a, b | 0 <= a < b < |log| && log[a].request.SameKey(log[b].request) ensures Expired(log[a], log[b].at) {
      assert s.log[a].request.SameKey(s.log[b].request) && Expired(s.log[a], s.log[b].at);
    }
  }

  lemma StoreExecutions(s: State, id: nat, j: nat)
    requires Inv(s) && id in s.callers && s.callers[id].Mutated? && j < |s.log|
    ensures var t := Next(s, Store(id)); j < |t.log| && ExecutionOk(t, j)
  {
    var q, i := s.callers[id].request, s.callers[id].entry;
    assert CallerOk(s, s.callers[id]) && ExecutionOk(s, i) && ExecutionOk(s, j);
    ProperKeys(q, s.log[j].request);
    if j != i && q.SameKey(s.log[j].request) && s.log[j].storedAt.Some? { OthersExpired(s, i, j); }
  }

  lemma StoreInv(s: State, id: nat)
    requires Inv(s) && id in s.callers && s.callers[id].Mutated? && Exclusive(Next(s, Store(id)))
    ensures Inv(Next(s, Store(id)))
  {
    var t, q, i := Next(s, Store(id)), s.callers[id].request, s.callers[id].entry;
    assert CallerOk(s, s.callers[id]);
    StoredLog(s, i);
    forall j | 0 <= j < |t.log| ensures ExecutionOk(t, j) { StoreExecutions(s, id, j); }
    forall j | 0 <= j < |t.log| && t.log[j].storedAt.None? ensures Running(t, j) { RunningKept(s, t, id, j); }
    forall c <- t.callers ensures CallerOk(t, t.callers[c]) {
      if c != id {
        assert CallerOk(s, s.callers[c]);
        assert s.callers[c].HasLock() ==> !q.SameKey(s.callers[c].request) && !s.callers[c].request.SameKey(q);
      }
    }
    forall k <- t.cache | t.cache[k].Stored? ensures Accounted(t, k) { StoreAccounted(s, id, k); }
  }

  lemma StoreAccounted(s: State, id: nat, k: string)
    requires Inv(s) && id in s.callers && s.callers[id].Mutated?
    requires var t := Next(s, Store(id)); k in t.cache && t.cache[k].Stored?
    ensures Accounted(Next(s, Store(id)), k)
  {
    var t, q, i := Next(s, Store(id)), s.callers[id].request, s.callers[id].entry;
    assert CallerOk(s, s.callers[id]);
    if k == q.Key() {
      assert t.log[i].request.Key() == k;
    } else {
      assert Accounted(s, k);
      var j :| 0 <= j < |s.log| && s.log[j].request.Key() == k && s.log[j].storedAt.Some?
               && s.cache[k] == Stored(ResponseOf(s.log[j]), s.log[j].storedAt.value + RESULT_TTL);
      assert t.log[j] == s.log[j];
    }
  }

  lemma OtherStepQuiet(s: State, id: nat, step: Step)
    requires Inv(s) && id in s.callers && !step.Mutate? && !step.Store? && !step.Tick? && !step.Arrive?
    requires step.caller == id && CallerStep(s, id, step) != s
    ensures Quiet(s, CallerStep(s, id, step), id)
  {
    var q := s.callers[id].request;
    assert CallerOk(s, s.callers[id]);
    if s.callers[id].Holding? && ReadResult(s.cache, q.scope, q.key, s.now).None? { WinnerIsClear(s, id); }
    forall i | 0 <= i < |s.log| ensures s.log[i].request.Key() != q.Lock() {
      assert ExecutionOk(s, i);
      ProperKeys(q, s.log[i].request);
    }
  }

  lemma NextInv(s: State, step: Step)
    requires Inv(s) && Timely(s) && (step.Arrive? ==> step.request.Proper()) && !LateMutation(s, step)
    ensures Inv(Next(s, step))
  {
    NextExclusive(s, step);
    if step.Tick? {
      TickInv(s, step.seconds);
    } else if step.Arrive? {
      if step.caller !in s.callers { QuietInv(s, Next(s, step), step.caller); }
    } else if step.caller in s.callers && CallerStep(s, step.caller, step) != s {
      if step.Mutate? {
        MutateInv(s, step.caller, step.status, step.data);
      } else if step.Store? {
        StoreInv(s, step.caller);
      } else {
        OtherStepQuiet(s, step.caller, step);
        QuietInv(s, CallerStep(s, step.caller, step), step.caller);
      }
    }
  }

  /** No mutation of the run is taken while an unexpired response for its key is stored. */
  ghost predicate NoLateMutation(s: State, steps: seq<Step>)
    decreases |steps|
  {
    steps != [] ==> !LateMutation(s, steps[0]) && NoLateMutation(Next(s, steps[0]), steps[1..])
  }

  lemma {:induction false} RunInv(s: State, steps: seq<Step>)
    requires Inv(s) && TimelyRun(s, steps) && NoLateMutation(s, steps)
    ensures Inv(Run(s, steps))
    decreases |steps|
  {
    if steps != [] {
      NextInv(s, steps[0]);
      RunInv(Next(s, steps[0]), steps[1..]);
    }
  }

  /******* With the second read *******/

  /** The unexpired stored response of a key, if any, is that of an execution of the key. */
  lemma StoredIsLogged(s: State, q: Request) returns (i: nat)
    requires Inv(s) && q.Proper() && ReadResult(s.cache, q.scope, q.key, s.now).Some?
    ensures i < |s.log| && s.log[i].request.SameKey(q) && s.log[i].storedAt.Some? && !Expired(s.log[i], s.now)
    ensures ReadResult(s.cache, q.scope, q.key, s.now) == Some(ResponseOf(s.log[i]))
  {
    assert Accounted(s, q.Key());
    i :| 0 <= i < |s.log| && s.log[i].request.Key() == q.Key() && s.log[i].storedAt.Some?
         && s.cache[q.Key()] == Stored(ResponseOf(s.log[i]), s.log[i].storedAt.value + RESULT_TTL);
    assert ExecutionOk(s, i);
    ProperKeys(q, s.log[i].request);
  }

  lemma RereadNotLate(s: State, step: Step)
    requires Inv(s) && s.reread
    ensures !LateMutation(s, step)
  {
    if step.Mutate? && step.caller in s.callers && s.callers[step.caller].Confirmed? {
      var q := s.callers[step.caller].request;
      assert CallerOk(s, s.callers[step.caller]);
      ClearIsUnstored(s, q);
    }
  }

  lemma ClearIsUnstored(s: State, q: Request)
    requires Inv(s) && q.Proper() && Clear(s, q)
    ensures ReadResult(s.cache, q.scope, q.key, s.now).None?
  {
    if q.Key() in s.cache && s.cache[q.Key()].Stored? {
      assert Accounted(s, q.Key());
      var i :| 0 <= i < |s.log| && s.log[i].request.Key() == q.Key() && s.log[i].storedAt.Some?
               && s.cache[q.Key()] == Stored(ResponseOf(s.log[i]), s.log[i].storedAt.value + RESULT_TTL);
      assert ExecutionOk(s, i);
      ProperKeys(q, s.log[i].request);
    }
  }

  lemma {:induction false} RereadNeverLate(s: State, steps: seq<Step>)
    requires Inv(s) && s.reread && TimelyRun(s, steps)
    ensures NoLateMutation(s, steps)
    decreases |steps|
  {
    if steps != [] {
      RereadNotLate(s, steps[0]);
      NextInv(s, steps[0]);
      assert Next(s, steps[0]).reread;
      RereadNeverLate(Next(s, steps[0]), steps[1..]);
    }
  }

  /** Every timely run of the protocol with the second read runs each key at most once per stored response. */
  lemma RereadRunsOnce(steps: seq<Step>)
    requires TimelyRun(Start(true), steps)
    ensures AtMostOnce(Run(Start(true), steps).log)
  {
    RereadNeverLate(Start(true), steps);
    RunInv(Start(true), steps);
  }
}

/**
  What a request under a key is answered once the key's mutation has run: in either protocol after the response has
  been stored, and with the second read from the mutation on.
 */
module IdempotencyReplay {
  import opened Options
  import opened Idempotency
  import opened IdempotencyProtocol
  import opened IdempotencyOnce

  /******* Later requests *******/

  /** Execution `e` is stored, and no caller outside `known` got past its first read under the same key. */
  ghost predicate Settled(s: State, known: set<nat>, i: nat, e: Execution) {
    && i < |s.log| && s.log[i] == e && e.storedAt.Some?
    && (forall c <- s.callers :: c !in known && s.callers[c].request.SameKey(e.request) ==>
          || s.callers[c].Arrived?
          || s.callers[c] == Answered(s.callers[c].request, FromCache(ResponseOf(e), s.callers[c].request.fingerprint)))
  }

  lemma NextSettled(s: State, step: Step, known: set<nat>, i: nat, e: Execution)
    requires Inv(s) && Settled(s, known, i, e) && s.now < e.storedAt.value + RESULT_TTL
    ensures Settled(Next(s, step), known, i, e)
  {
    if !step.Tick? && !step.Arrive? && step.caller in s.callers {
      var c := s.callers[step.caller];
      assert CallerOk(s, c) && ExecutionOk(s, i);
      if c.Arrived? && c.request.SameKey(e.request) { assert c.request.Key() == e.request.Key(); }
      assert Next(s, step).log == s.log || step.Mutate? || (step.Store? && c.Mutated?);
    }
  }

  lemma {:induction false} RunMonotone(s: State, steps: seq<Step>)
    ensures s.now <= Run(s, steps).now
    decreases |steps|
  {
    if steps != [] { RunMonotone(Next(s, steps[0]), steps[1..]); }
  }

  lemma {:induction false} RunSettled(s: State, steps: seq<Step>, known: set<nat>, i: nat, e: Execution)
    requires Inv(s) && TimelyRun(s, steps) && NoLateMutation(s, steps) && Settled(s, known, i, e)
    requires Run(s, steps).now < e.storedAt.value + RESULT_TTL
    ensures Settled(Run(s, steps), known, i, e)
    decreases |steps|
  {
    if steps != [] {
      RunMonotone(s, steps);
      NextSettled(s, steps[0], known, i, e);
      NextInv(s, steps[0]);
      RunSettled(Next(s, steps[0]), steps[1..], known, i, e);
    }
  }

  /**
    A request that arrives after execution `i` was stored, under the same key, and is answered before the stored
    response expires: it gets that status and data unchanged if it carries the same fingerprint, and a conflict if not.
   */
  lemma LaterRequestIsReplayed(reread: bool, pre: seq<Step>, post: seq<Step>, i: nat, c: nat)
    requires TimelyRun(Start(reread), pre) && NoLateMutation(Start(reread), pre)
    requires TimelyRun(Run(Start(reread), pre), post) && NoLateMutation(Run(Start(reread), pre), post)
    requires var s := Run(Start(reread), pre);
             i < |s.log| && s.log[i].storedAt.Some? && c !in s.callers
    requires var s, t := Run(Start(reread), pre), Run(Run(Start(reread), pre), post);
             c in t.callers && !t.callers[c].Arrived? && t.callers[c].request.SameKey(s.log[i].request)
             && t.now < s.log[i].storedAt.value + RESULT_TTL
    ensures var s, t := Run(Start(reread), pre), Run(Run(Start(reread), pre), post);
            var e, q := s.log[i], t.callers[c].request;
            t.callers[c]
            == Answered(q, if q.fingerprint == e.request.fingerprint then Replay(e.status, e.data) else Conflict)
  {
    var s := Run(Start(reread), pre);
    RunInv(Start(reread), pre);
    RunSettled(s, post, s.callers.Keys, i, s.log[i]);
  }

  /******* Later requests, from the mutation on *******/

  /** Execution `i` is running, or its stored response has not expired. */
  predicate Answerable(s: State, i: nat) { i < |s.log| && !Expired(s.log[i], s.now) }

  /** What a request under the key of execution `e` is answered: a refusal, the response unchanged, or a conflict. */
  predicate Accepted(e: Execution, q: Request, response: Response) {
    || response == InProgress
    || response == if q.fingerprint == e.request.fingerprint then Replay(e.status, e.data) else Conflict
  }

  predicate Waits(e: Execution, c: Caller) {
    || c.Arrived? || c.Checked? || c.Holding?
    || ((c.Finishing? || c.Answered?) && Accepted(e, c.request, c.response))
  }

  predicate SameExecution(e: Execution, f: Execution) {
    f == e.(storedAt := f.storedAt) && (e.storedAt.Some? ==> f.storedAt == e.storedAt)
  }

  /** `e` is what execution `i` was; callers outside `known` under its key have not got past the lock to run again. */
  ghost predicate Following(s: State, known: set<nat>, i: nat, e: Execution) {
    && i < |s.log| && SameExecution(e, s.log[i])
    && (forall c <- s.callers :: c !in known && s.callers[c].request.SameKey(e.request) ==> Waits(e, s.callers[c]))
  }

  /** A read under the key of an answerable execution finds its response, or, while it is running, nothing. */
  lemma ReadFindsExecution(s: State, i: nat, q: Request)
    requires Inv(s) && Answerable(s, i) && q.Proper() && q.SameKey(s.log[i].request)
    ensures var cached := ReadResult(s.cache, q.scope, q.key, s.now);
            if s.log[i].storedAt.Some? then cached == Some(ResponseOf(s.log[i])) else cached.None?
  {
    assert ExecutionOk(s, i);
    ProperKeys(q, s.log[i].request);
    if s.log[i].storedAt.None? { RunningIsUnstored(s, i, q); }
  }

  lemma RunningIsUnstored(s: State, i: nat, q: Request)
    requires Inv(s) && i < |s.log| && s.log[i].storedAt.None? && q.Proper() && q.SameKey(s.log[i].request)
    ensures ReadResult(s.cache, q.scope, q.key, s.now).None?
  {
    if q.Key() in s.cache && s.cache[q.Key()].Stored? {
      assert Accounted(s, q.Key());
      var j :| 0 <= j < |s.log| && s.log[j].request.Key() == q.Key() && s.log[j].storedAt.Some?
               && s.cache[q.Key()] == Stored(ResponseOf(s.log[j]), s.log[j].storedAt.value + RESULT_TTL);
      assert ExecutionOk(s, j);
      ProperKeys(q, s.log[j].request);
      OthersExpired(s, i, j);
    }
  }

  lemma CallerFollows(s: State, step: Step, known: set<nat>, i: nat, e: Execution)
    requires Inv(s) && s.reread && Following(s, known, i, e) && Answerable(s, i)
    requires !step.Tick? && !step.Arrive? && step.caller in s.callers && step.caller !in known
    requires s.callers[step.caller].request.SameKey(e.request)
    ensures step.caller in Next(s, step).callers && Waits(e, Next(s, step).callers[step.caller])
  {
    var c := s.callers[step.caller];
    assert Waits(e, c) && c.request.Proper();
    ReadFindsExecution(s, i, c.request);
    if c.Holding? { NotRunning(s, step.caller, i); }
  }

  lemma LogKeeps(s: State, step: Step, i: nat)
    requires Inv(s) && i < |s.log|
    ensures i < |Next(s, step).log| && SameExecution(s.log[i], Next(s, step).log[i])
  {
    if step.Store? && step.caller in s.callers { assert CallerOk(s, s.callers[step.caller]); }
  }

  lemma OthersStay(s: State, step: Step, c: nat)
    requires c in Next(s, step).callers && (step.Tick? || step.caller != c)
    ensures c in s.callers && Next(s, step).callers[c] == s.callers[c]
  {
  }

  lemma NextFollowing(s: State, step: Step, known: set<nat>, i: nat, e: Execution)
    requires Inv(s) && s.reread && Following(s, known, i, e) && Answerable(s, i)
    ensures Following(Next(s, step), known, i, e)
  {
    var t := Next(s, step);
    LogKeeps(s, step, i);
    forall c <- t.callers | c !in known && t.callers[c].request.SameKey(e.request) ensures Waits(e, t.callers[c]) {
      if step.Tick? || step.caller != c {
        OthersStay(s, step, c);
      } else if c in s.callers && !step.Arrive? {
        assert t.callers[c].request == s.callers[c].request;
        CallerFollows(s, step, known, i, e);
      }
    }
  }

  /** What is answerable at the end was answerable all along. */
  lemma {:induction false} AnswerableBefore(s: State, steps: seq<Step>, i: nat)
    requires Inv(s) && TimelyRun(s, steps) && NoLateMutation(s, steps) && i < |s.log|
    ensures Answerable(Run(s, steps), i) ==> Answerable(s, i)
    decreases |steps|
  {
    if steps != [] {
      NextInv(s, steps[0]);
      LogKeeps(s, steps[0], i);
      assert s.now <= Next(s, steps[0]).now;
      AnswerableBefore(Next(s, steps[0]), steps[1..], i);
    }
  }

  lemma {:induction false} RunFollowing(s: State, steps: seq<Step>, known: set<nat>, i: nat, e: Execution)
    requires Inv(s) && s.reread && TimelyRun(s, steps) && NoLateMutation(s, steps)
    requires Following(s, known, i, e) && Answerable(Run(s, steps), i)
    ensures Following(Run(s, steps), known, i, e)
    decreases |steps|
  {
    if steps != [] {
      AnswerableBefore(s, steps, i);
      NextFollowing(s, steps[0], known, i, e);
      NextInv(s, steps[0]);
      assert Next(s, steps[0]).reread;
      RunFollowing(Next(s, steps[0]), steps[1..], known, i, e);
    }
  }

  lemma {:induction false} RunKeepsReread(s: State, steps: seq<Step>)
    ensures Run(s, steps).reread == s.reread
    decreases |steps|
  {
    if steps != [] { RunKeepsReread(Next(s, steps[0]), steps[1..]); }
  }

  /**
    With the second read, a request that arrives once execution `i` has run, under the same key, and is answered while
    that execution is unstored or its stored response has not expired, gets the in-progress refusal, the stored status
    and data unchanged (same fingerprint), or a conflict (another fingerprint). It never runs anything.
   */
  lemma LaterRequestIsReplayedOrRefused(pre: seq<Step>, post: seq<Step>, i: nat, c: nat)
    requires TimelyRun(Start(true), pre) && TimelyRun(Run(Start(true), pre), post)
    requires i < |Run(Start(true), pre).log| && c !in Run(Start(true), pre).callers
    requires var s, t := Run(Start(true), pre), Run(Run(Start(true), pre), post);
             && c in t.callers && t.callers[c].Answered? && t.callers[c].request.SameKey(s.log[i].request)
             && Answerable(t, i)
    ensures var s, t := Run(Start(true), pre), Run(Run(Start(true), pre), post);
            Accepted(s.log[i], t.callers[c].request, t.callers[c].response)
  {
    var s := Run(Start(true), pre);
    RereadNeverLate(Start(true), pre);
    RunInv(Start(true), pre);
    RunKeepsReread(Start(true), pre);
    RereadNeverLate(s, post);
    RunFollowing(s, post, s.callers.Keys, i, s.log[i]);
  }
}

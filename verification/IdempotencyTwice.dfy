/** A run of the source's protocol in which one key runs its mutation twice. */
module IdempotencyTwice {
  import opened Options
  import opened Idempotency
  import opened IdempotencyProtocol
  import opened IdempotencyOnce

  /******* The source's views run a mutation twice *******/

  /** Two requests read before either has stored; the second wins the lock after the first released it. */
  function DoubleSubmit(q: Request, data: string): seq<Step> {
    [Arrive(0, q), Arrive(1, q), Check(0), Check(1)]
    + ([Acquire(0), Recheck(0), Mutate(0, 201, data), Store(0)]
        + [Release(0), Acquire(1), Recheck(1), Mutate(1, 201, data)])
  }

  lemma {:induction false} NoTicksTimely(s: State, steps: seq<Step>)
    requires s.now == 0
    requires forall i :: 0 <= i < |steps| ==> !steps[i].Tick? && (steps[i].Arrive? ==> steps[i].request.Proper())
    ensures TimelyRun(s, steps)
    decreases |steps|
  {
    if steps != [] { NoTicksTimely(Next(s, steps[0]), steps[1..]); }
  }

  lemma {:induction false} RunCons(s: State, step: Step, rest: seq<Step>)
    ensures Run(s, [step] + rest) == Run(Next(s, step), rest)
  {
    assert ([step] + rest)[1..] == rest;
  }

  lemma RunFour(s: State, a: Step, b: Step, c: Step, d: Step, rest: seq<Step>)
    ensures Run(s, [a, b, c, d] + rest) == Run(Next(Next(Next(Next(s, a), b), c), d), rest)
  {
    assert [a, b, c, d] + rest == [a] + ([b] + ([c] + ([d] + rest)));
    RunCons(s, a, [b] + ([c] + ([d] + rest)));
    RunCons(Next(s, a), b, [c] + ([d] + rest));
    RunCons(Next(Next(s, a), b), c, [d] + rest);
    RunCons(Next(Next(Next(s, a), b), c), d, rest);
  }

  function Pair(cache: Cache, first: Caller, second: Caller, log: seq<Execution>): State {
    State(false, 0, cache, map[0 := first, 1 := second], log)
  }

  lemma BothCheck(q: Request)
    ensures Next(Next(Next(Next(Start(false), Arrive(0, q)), Arrive(1, q)), Check(0)), Check(1))
            == Pair(map[], Checked(q), Checked(q), [])
  {
    var s := Start(false).(callers := map[0 := Arrived(q)]);
    assert Next(Start(false), Arrive(0, q)) == s;
    assert Next(s, Arrive(1, q)) == Pair(map[], Arrived(q), Arrived(q), []);
    assert Next(Pair(map[], Arrived(q), Arrived(q), []), Check(0)) == Pair(map[], Checked(q), Arrived(q), []);
  }

  lemma FirstRuns(q: Request, data: string)
    ensures var s := Pair(map[], Checked(q), Checked(q), []);
            Next(Next(Next(s, Acquire(0)), Recheck(0)), Mutate(0, 201, data))
            == Pair(map[q.Lock() := Marker(LOCK_TTL)], Mutated(q, 0, 0), Checked(q), [Execution(q, 201, data, 0, None)])
  {
    var s := Pair(map[], Checked(q), Checked(q), []);
    var locked: Cache := map[q.Lock() := Marker(LOCK_TTL)];
    assert Next(s, Acquire(0)) == Pair(locked, Holding(q, 0), Checked(q), []);
    assert Next(Pair(locked, Holding(q, 0), Checked(q), []), Recheck(0))
        == Pair(locked, Confirmed(q, 0), Checked(q), []);
  }

  /** The first caller's store and release, and the second caller's lock. */
  lemma SecondWins(cache: Cache, q: Request, e: Execution)
    requires e.request == q && e.storedAt.None? && q.Proper()
    ensures var t := Next(Next(Next(Pair(cache, Mutated(q, 0, 0), Checked(q), [e]), Store(0)), Release(0)), Acquire(1));
            && t.now == 0 && !t.reread && 1 in t.callers && t.callers[1] == Holding(q, 0)
            && t.log == [e.(storedAt := Some(0))]
            && q.Key() in t.cache && t.cache[q.Key()] == Stored(ResponseOf(e), RESULT_TTL)
  {
    ProperKeys(q, q);
    FirstReleases(cache, q, e);
    WinsFreeLock(AfterStore(cache, q.scope, q.key, ResponseOf(e), 0) - {q.Lock()}, q,
                 Answered(q, Fresh(e.status, e.data)), [e.(storedAt := Some(0))]);
  }

  lemma FirstReleases(cache: Cache, q: Request, e: Execution)
    requires e.request == q && e.storedAt.None?
    ensures Next(Next(Pair(cache, Mutated(q, 0, 0), Checked(q), [e]), Store(0)), Release(0))
            == Pair(AfterStore(cache, q.scope, q.key, ResponseOf(e), 0) - {q.Lock()},
                    Answered(q, Fresh(e.status, e.data)), Checked(q), [e.(storedAt := Some(0))])
  {
    FirstStores(cache, q, e);
    ReleaseFrees(AfterStore(cache, q.scope, q.key, ResponseOf(e), 0), q, Fresh(e.status, e.data),
        [e.(storedAt := Some(0))]);
  }

  lemma FirstStores(cache: Cache, q: Request, e: Execution)
    requires e.request == q && e.storedAt.None?
    ensures Next(Pair(cache, Mutated(q, 0, 0), Checked(q), [e]), Store(0))
            == Pair(AfterStore(cache, q.scope, q.key, ResponseOf(e), 0), Finishing(q, 0, Fresh(e.status, e.data)),
                    Checked(q), [e.(storedAt := Some(0))])
  {
  }

  lemma ReleaseFrees(cache: Cache, q: Request, response: Response, log: seq<Execution>)
    ensures Next(Pair(cache, Finishing(q, 0, response), Checked(q), log), Release(0))
            == Pair(cache - {q.Lock()}, Answered(q, response), Checked(q), log)
  {
  }

  lemma WinsFreeLock(cache: Cache, q: Request, first: Caller, log: seq<Execution>)
    requires q.Lock() !in cache
    ensures Next(Pair(cache, first, Checked(q), log), Acquire(1))
            == Pair(cache[q.Lock() := Marker(LOCK_TTL)], first, Holding(q, 0), log)
  {
  }

  /** A timely run of the source's protocol, with proper requests, in which one key runs its mutation twice. */
  lemma SourceRunsTwice(q: Request, data: string)
    requires q.Proper()
    ensures TimelyRun(Start(false), DoubleSubmit(q, data))
    ensures !AtMostOnce(Run(Start(false), DoubleSubmit(q, data)).log)
  {
    NoTicksTimely(Start(false), DoubleSubmit(q, data));
    DoubleSubmitLogged(q, data);
  }

  lemma DoubleSubmitLogged(q: Request, data: string)
    requires q.Proper()
    ensures !AtMostOnce(Run(Start(false), DoubleSubmit(q, data)).log)
  {
    var e := Execution(q, 201, data, 0, None);
    var locked: Cache := map[q.Lock() := Marker(LOCK_TTL)];
    var t := Next(Next(Next(Pair(locked, Mutated(q, 0, 0), Checked(q), [e]), Store(0)), Release(0)), Acquire(1));
    BothCheck(q);
    FirstRuns(q, data);
    DoubleSubmitUnrolled(q, data);
    SecondWins(locked, q, e);
    WinnerLogs(t, q, data);
    LoggedTwice(t.log + [e]);
  }

  lemma WinnerLogs(t: State, q: Request, data: string)
    requires t.now == 0 && !t.reread && 1 in t.callers && t.callers[1] == Holding(q, 0)
    ensures Next(Next(t, Recheck(1)), Mutate(1, 201, data)).log == t.log + [Execution(q, 201, data, 0, None)]
  {
  }

  lemma LoggedTwice(log: seq<Execution>)
    requires |log| == 2 && log[0].request.SameKey(log[1].request) && !Expired(log[0], log[1].at)
    ensures !AtMostOnce(log)
  {
  }

  lemma DoubleSubmitUnrolled(q: Request, data: string)
    ensures var s := Next(Next(Next(Next(Start(false), Arrive(0, q)), Arrive(1, q)), Check(0)), Check(1));
            var t := Next(Next(Next(Next(s, Acquire(0)), Recheck(0)), Mutate(0, 201, data)), Store(0));
            Run(Start(false), DoubleSubmit(q, data))
            == Next(Next(Next(Next(t, Release(0)), Acquire(1)), Recheck(1)), Mutate(1, 201, data))
  {
    var s := Next(Next(Next(Next(Start(false), Arrive(0, q)), Arrive(1, q)), Check(0)), Check(1));
    var t := Next(Next(Next(Next(s, Acquire(0)), Recheck(0)), Mutate(0, 201, data)), Store(0));
    var last := [Release(0), Acquire(1), Recheck(1), Mutate(1, 201, data)];
    RunFour(Start(false), Arrive(0, q), Arrive(1, q), Check(0), Check(1),
            [Acquire(0), Recheck(0), Mutate(0, 201, data), Store(0)] + last);
    RunFour(s, Acquire(0), Recheck(0), Mutate(0, 201, data), Store(0), last);
    assert last == last + [];
    RunFour(t, Release(0), Acquire(1), Recheck(1), Mutate(1, 201, data), []);
  }
}

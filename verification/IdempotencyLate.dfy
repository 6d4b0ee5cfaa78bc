/**
  Without the second read, as in the source's views: exactly which runs keep every key to one execution per stored
  response.
 */
module IdempotencyLate {
  import opened IdempotencyProtocol
  import opened IdempotencyOnce

  /** Execution `j` ran although execution `i` of the same key had not expired. */
  ghost predicate RanAgain(s: State, i: nat, j: nat) {
    i < j < |s.log| && s.log[i].request.SameKey(s.log[j].request) && !Expired(s.log[i], s.log[j].at)
        && s.log[j].at <= s.now
  }

  lemma LateMutationRunsAgain(s: State, step: Step) returns (i: nat)
    requires Inv(s) && LateMutation(s, step)
    ensures RanAgain(Next(s, step), i, |s.log|)
  {
    i := StoredIsLogged(s, s.callers[step.caller].request);
    var t := Next(s, step);
    assert t.log[i] == s.log[i] && t.log[|s.log|].at == s.now;
  }

  lemma NextRanAgain(s: State, step: Step, i: nat, j: nat)
    requires RanAgain(s, i, j)
    ensures RanAgain(Next(s, step), i, j)
  {
  }

  lemma {:induction false} RunRanAgain(s: State, steps: seq<Step>, i: nat, j: nat)
    requires RanAgain(s, i, j)
    ensures RanAgain(Run(s, steps), i, j)
    decreases |steps|
  {
    if steps != [] {
      NextRanAgain(s, steps[0], i, j);
      RunRanAgain(Next(s, steps[0]), steps[1..], i, j);
    }
  }

  lemma {:induction false} LateMutationShows(s: State, steps: seq<Step>)
    requires Inv(s) && TimelyRun(s, steps) && !NoLateMutation(s, steps)
    ensures !AtMostOnce(Run(s, steps).log)
    decreases |steps|
  {
    if LateMutation(s, steps[0]) {
      var i := LateMutationRunsAgain(s, steps[0]);
      RunRanAgain(Next(s, steps[0]), steps[1..], i, |s.log|);
    } else {
      NextInv(s, steps[0]);
      LateMutationShows(Next(s, steps[0]), steps[1..]);
    }
  }

  /**
    A timely run, of the views' protocol as of the other, keeps every key to one execution per stored response exactly
    when no mutation is taken while an unexpired response for its key is stored.
   */
  lemma RunsOnceExactlyWhenNoMutationIsLate(reread: bool, steps: seq<Step>)
    requires TimelyRun(Start(reread), steps)
    ensures AtMostOnce(Run(Start(reread), steps).log) <==> NoLateMutation(Start(reread), steps)
  {
    if NoLateMutation(Start(reread), steps) {
      RunInv(Start(reread), steps);
    } else {
      LateMutationShows(Start(reread), steps);
    }
  }
}

/** When a failed delivery is final.

    The sweep fails a row whose last lease expired but leaves the claim token on it, so the
    worker that was given up can still report its result. */
module AlertFailed {
  import opened Wrappers
  import opened AlertStore
  import opened AlertSystem
  import opened AlertInvariant
  import opened AlertHistory
  import opened AlertExamples

  /** Row `i` is failed after the run, unless an operator retried it. */
  ghost predicate StaysFailed(s: System, i: nat, steps: seq<Step>)
    requires i < |s.store.deliveries|
  {
    var rows := RunFrom(s, steps).store.deliveries;
    i < |rows| && (rows[i].retries == s.store.deliveries[i].retries ==> rows[i].status == Failed)
  }

  /** The worker whose token is still on the row loads it, if it has not yet, and reports
      that the message was delivered. */
  function LateReport(token: nat, now: int): seq<Step> {
    [ReadStep(token), FinaliseStep(token, Delivered, now)]
  }

  lemma Loaded(s: System, token: nat, i: nat)
    requires Leased(s.store.deliveries, s.workers)
    requires i < |s.store.deliveries| && s.store.deliveries[i].claimToken == Some(token)
    ensures var t := Load(s, token);
            && t.store == s.store
            && token in t.workers && t.workers[token].delivery == i && t.workers[token].read.Some?
  {
    assert RowLease(s.store.deliveries[i], i, s.workers);
  }

  lemma Delivers(s: System, token: nat, i: nat, now: int)
    requires token in s.workers && s.workers[token].delivery == i && s.workers[token].read.Some?
    requires i < |s.store.deliveries| && s.store.deliveries[i].claimToken == Some(token)
    ensures var rows := Finish(s, token, Delivered, now).store.deliveries;
            i < |rows| && rows[i].status == Sent && rows[i].retries == s.store.deliveries[i].retries
  {
    FinaliseShape(s.store, token, i, s.workers[token].read.value, Delivered, now);
  }

  lemma LateReportLands(s: System, token: nat, i: nat, now: int)
    requires Leased(s.store.deliveries, s.workers)
    requires i < |s.store.deliveries| && s.store.deliveries[i].claimToken == Some(token)
    ensures var rows := RunFrom(s, LateReport(token, now)).store.deliveries;
            i < |rows| && rows[i].status == Sent && rows[i].retries == s.store.deliveries[i].retries
  {
    RunTwo(s, ReadStep(token), FinaliseStep(token, Delivered, now));
    Loaded(s, token, i);
    Delivers(Load(s, token), token, i, now);
  }

  /** A failed row is final, up to operator retries, exactly when no claim token is on it. */
  lemma FailedIsFinalExactly(s: System, i: nat)
    requires Inv(s) && i < |s.store.deliveries| && s.store.deliveries[i].status == Failed
    ensures s.store.deliveries[i].claimToken.None? <==>
              forall steps :: FeasibleRun(steps) ==> StaysFailed(s, i, steps)
  {
    if s.store.deliveries[i].claimToken.None? {
      forall steps | FeasibleRun(steps)
        ensures StaysFailed(s, i, steps)
      {
        Absorbing(s, steps, i);
      }
    } else {
      var token := s.store.deliveries[i].claimToken.value;
      LateReportLands(s, token, i, 0);
      assert FeasibleRun(LateReport(token, 0));
      assert !StaysFailed(s, i, LateReport(token, 0));
    }
  }

  // ------------------------------------------------------------ witness

  /** `n` workers in turn claim the first row and stop, each an hour after the last. */
  function Claims(n: nat): seq<Step> {
    if n == 0 then [] else Claims(n - 1) + [ClaimStep(n - 1, 0, 3600 * n)]
  }

  lemma {:induction false} AfterClaims(n: nat)
    requires n <= MAX_ATTEMPTS
    ensures FeasibleRun(Claims(n))
    ensures var s := RunFrom(FirstEvaluated(), Claims(n));
            && |s.store.deliveries| == 1 && s.store.deliveries[0].attempts == n
            && (forall token :: token in s.workers ==> token < n)
            && (if n == 0 then s == FirstEvaluated()
                else s.store.deliveries[0].status == Sending
                     && s.store.deliveries[0].claimToken == Some(n - 1)
                     && s.store.deliveries[0].claimedAt == Some(3600 * n))
  {
    if n > 0 {
      AfterClaims(n - 1);
      var steps := Claims(n);
      assert steps[..|steps| - 1] == Claims(n - 1);
      var s := RunFrom(FirstEvaluated(), Claims(n - 1));
      assert CanClaim(s, n - 1, 0, 3600 * n);
    }
  }

  lemma SweptAfterClaims()
    ensures var rest := Claims(5) + [SweepStep(36000)];
            var rows := RunFrom(FirstEvaluated(), rest).store.deliveries;
            FeasibleRun(rest) && |rows| == 1 && rows[0].status == Failed && rows[0].claimToken.Some?
  {
    AfterClaims(5);
    var rest := Claims(5) + [SweepStep(36000)];
    assert rest[..|rest| - 1] == Claims(5);
    var claimed := RunFrom(FirstEvaluated(), Claims(5));
    assert RunFrom(FirstEvaluated(), rest) == Apply(claimed, SweepStep(36000));
    assert Exhausted(claimed.store.deliveries[0], 36000);
  }

  /** A reachable state with a failed row that still carries a token. */
  lemma FailedWithTokenWitness()
    ensures exists steps :: FeasibleRun(steps) && |Run(steps).store.deliveries| == 1
              && Run(steps).store.deliveries[0].status == Failed
              && Run(steps).store.deliveries[0].claimToken.Some?
  {
    var first := [EnqueueStep("k", "p"), EvaluateStep("k", false, [FIRST_RULE], 0)];
    var rest := Claims(5) + [SweepStep(36000)];
    FirstEvaluatedReached();
    SweptAfterClaims();
    RunSplit(EMPTY, first, rest);
    assert FeasibleRun(first + rest);
  }
}

/** What a worker that has lost its row can still do: it writes the destination of the row
    without looking at the claim token. */
module AlertStale {
  import opened AlertStore
  import opened AlertSystem
  import opened AlertInvariant
  import opened AlertSteps
  import opened AlertHistory
  import opened AlertExamples

  // ------------------------------------- destinations keep their route

  predicate SameButLanguage(a: Route, b: Route) {
    a.(language := b.language) == b
  }

  /** The row still goes where its identity says, except perhaps for the language. */
  predicate Routed(destination: Destination, r: Delivery) {
    SameButLanguage(destination.route, r.identity.route)
  }

  ghost predicate RowsRouted(rows: seq<Delivery>) {
    forall i :: 0 <= i < |rows| ==> Routed(rows[i].destination, rows[i])
  }

  predicate ReadRouted(w: Worker, rows: seq<Delivery>) {
    w.read.Some? && w.delivery < |rows| ==> Routed(w.read.value.destination, rows[w.delivery])
  }

  ghost predicate AllRouted(s: System) {
    && RowsRouted(s.store.deliveries)
    && forall t :: t in s.workers ==> ReadRouted(s.workers[t], s.store.deliveries)
  }

  lemma {:induction false} CandidatesRouted(s: Store, event: nat, sourceKey: string, m: RuleMatch, n: nat, now: int)
    requires n <= |m.candidates| && RowsRouted(s.deliveries)
    ensures RowsRouted(EvaluateCandidates(s, event, sourceKey, m, n, now).deliveries)
  {
    if n > 0 {
      CandidatesRouted(s, event, sourceKey, m, n - 1, now);
    }
  }

  lemma {:induction false} RulesRouted(s: Store, key: string, running: bool, matches: seq<RuleMatch>, n: nat, now: int)
    requires n <= |matches| && RowsRouted(s.deliveries)
    ensures RowsRouted(EvaluateRules(s, key, running, matches, n, now).deliveries)
  {
    if n > 0 {
      RulesRouted(s, key, running, matches, n - 1, now);
      var u, m := EvaluateRules(s, key, running, matches, n - 1, now), matches[n - 1];
      var sourceKey := EventKey(key, running, m);
      var created := u.(events := u.events + [Event(m.rule, sourceKey, m.policy, EventPending)]);
      CandidatesRouted(created, |u.events|, sourceKey, m, |m.candidates|, now);
    }
  }

  lemma {:induction false} SupplementsRouted(s: Store, originals: seq<nat>, now: int)
    requires Rooted(s, originals) && RowsRouted(s.deliveries)
    ensures RowsRouted(AddSupplements(s, originals, now).deliveries)
    decreases |originals|
  {
    if originals != [] {
      SupplementsRouted(AddSupplement(s, originals[0], now), originals[1..], now);
    }
  }

  lemma AdvanceRouted(s: Store, now: int)
    requires RowsRouted(s.deliveries)
    ensures RowsRouted(Advance(s, now).deliveries)
  {
    var released := Released(s, now);
    var all := Originals(released, |released.deliveries|);
    assert forall j :: 0 <= j < |Batch(all)| ==> Batch(all)[j] == all[j] && all[j] in all;
    SupplementsRouted(released, Batch(all), now);
  }

  lemma FinishRouted(s: System, token: nat, outcome: Outcome, now: int)
    requires RowsRouted(s.store.deliveries)
    ensures RowsRouted(Finish(s, token, outcome, now).store.deliveries)
  {
    if Finalising(s, token) {
      var i, read := s.workers[token].delivery, s.workers[token].read.value;
      FinaliseShape(s.store, token, i, read, outcome, now);
    }
  }

  lemma RelabelRouted(s: System, token: nat, language: string)
    requires AllRouted(s)
    ensures RowsRouted(Relabel(s, token, language).store.deliveries)
  {
    assert token in s.workers ==> ReadRouted(s.workers[token], s.store.deliveries);
  }

  lemma EvaluateRouted(s: Store, key: string, running: bool, matches: seq<RuleMatch>, now: int)
    requires RowsRouted(s.deliveries)
    ensures RowsRouted(Evaluate(s, key, running, matches, now).deliveries)
  {
    RulesRouted(s, key, running, matches, |matches|, now);
  }

  lemma RowwiseRouted(s: System, step: Step)
    requires RowsRouted(s.store.deliveries)
    requires step.ClaimStep? || step.SweepStep? || step.RetryStep? || step.DropStep?
    ensures RowsRouted(Apply(s, step).store.deliveries)
  {
  }

  lemma RowsStayRouted(s: System, step: Step)
    requires AllRouted(s)
    ensures RowsRouted(Apply(s, step).store.deliveries)
  {
    match step
    case EvaluateStep(key, running, matches, now) => EvaluateRouted(s.store, key, running, matches, now);
    case AdvanceStep(now) => AdvanceRouted(s.store, now);
    case FinaliseStep(token, outcome, now) => FinishRouted(s, token, outcome, now);
    case RelabelStep(token, language) => RelabelRouted(s, token, language);
    case ClaimStep(_, _, _) => RowwiseRouted(s, step);
    case SweepStep(_) => RowwiseRouted(s, step);
    case RetryStep(_, _) => RowwiseRouted(s, step);
    case DropStep(_) => RowwiseRouted(s, step);
    case _ =>
  }

  /** A worker of before the step reads as it did, or has just loaded its row. */
  lemma ReadStaysRouted(s: System, step: Step, w: nat)
    requires AllRouted(s) && w in s.workers && WorkerLease(s.workers[w], s.store.deliveries)
    requires RowsEffect(s.store.deliveries, Apply(s, step).store.deliveries, false)
    ensures w in Apply(s, step).workers && ReadRouted(Apply(s, step).workers[w], Apply(s, step).store.deliveries)
  {
    var i := s.workers[w].delivery;
    assert ReadRouted(s.workers[w], s.store.deliveries);
    assert Follows(s.store.deliveries[i], Apply(s, step).store.deliveries[i]);
  }

  lemma StepRouted(s: System, step: Step)
    requires Leased(s.store.deliveries, s.workers) && AllRouted(s)
    requires RowsEffect(s.store.deliveries, Apply(s, step).store.deliveries, false)
    ensures AllRouted(Apply(s, step))
  {
    RowsStayRouted(s, step);
    var t := Apply(s, step);
    forall w | w in t.workers
      ensures ReadRouted(t.workers[w], t.store.deliveries)
    {
      if w in s.workers {
        ReadStaysRouted(s, step, w);
      }
    }
  }

  /** In every reachable state rows go where their identities say, except for the language. */
  lemma {:induction false} StaysRouted(s: System, steps: seq<Step>)
    requires Inv(s) && FeasibleRun(steps) && AllRouted(s)
    ensures AllRouted(RunFrom(s, steps))
  {
    if steps != [] {
      var front := steps[..|steps| - 1];
      StaysRouted(s, front);
      Reachable(s, front);
      StepRows(RunFrom(s, front), steps[|steps| - 1]);
      StepRouted(RunFrom(s, front), steps[|steps| - 1]);
    }
  }

  // --------------------------------------------------- the stale write

  function WithLanguage(r: Delivery, language: string): Delivery {
    r.(destination := r.destination.(route := r.destination.route.(language := language)))
  }

  /** The unguarded write sets the language of the worker's row.  It never touches another
      row or table, nor the row's status, attempts, key, token, pointer, channel or
      recipients, whether the worker still holds the row or not. */
  lemma RelabelOnlyLanguage(s: System, token: nat, language: string)
    requires Inv(s) && AllRouted(s) && token in s.workers && s.workers[token].read.Some?
    ensures var i := s.workers[token].delivery;
            && i < |s.store.deliveries|
            && Relabel(s, token, language)
            == s.(store := s.store.(deliveries :=
                    s.store.deliveries[i := WithLanguage(s.store.deliveries[i], language)]))
  {
    var i := s.workers[token].delivery;
    assert WorkerLease(s.workers[token], s.store.deliveries) && ReadRouted(s.workers[token], s.store.deliveries);
    assert Keyed(s.store.deliveries, i) && Routed(s.store.deliveries[i].destination, s.store.deliveries[i]);
  }

  predicate OwnStep(step: Step, token: nat, i: nat) {
    || (step.ClaimStep? && step.token == token && step.delivery == i)
    || (step.ReadStep? && step.token == token)
    || (step.RelabelStep? && step.token == token)
    || (step.FinaliseStep? && step.token == token)
  }

  /** A worker that has lost its row can change the store in exactly one way: by writing a
      language that differs from the stored one. */
  lemma StaleStepExactly(s: System, step: Step, token: nat, i: nat)
    requires Inv(s) && AllRouted(s) && Superseded(s, token, i) && OwnStep(step, token, i)
    ensures Apply(s, step).store != s.store <==>
              && step.RelabelStep? && s.workers[token].read.Some?
              && s.store.deliveries[i].destination.route.language != step.language
  {
    if step.RelabelStep? && s.workers[token].read.Some? {
      RelabelOnlyLanguage(s, token, step.language);
      var rows := s.store.deliveries;
      var after := rows[i := WithLanguage(rows[i], step.language)];
      assert after[i] == WithLanguage(rows[i], step.language);
      if rows[i].destination.route.language == step.language {
        assert after == rows;
      }
    }
  }

  /** The same over whole runs from the empty system. */
  lemma StaleWorkerExactly(steps: seq<Step>, step: Step, token: nat, i: nat)
    requires FeasibleRun(steps) && Superseded(Run(steps), token, i) && OwnStep(step, token, i)
    ensures Apply(Run(steps), step).store != Run(steps).store <==>
              && step.RelabelStep? && Run(steps).workers[token].read.Some?
              && Run(steps).store.deliveries[i].destination.route.language != step.language
  {
    Reachable(EMPTY, steps);
    StaysRouted(EMPTY, steps);
    StaleStepExactly(Run(steps), step, token, i);
  }

  // ------------------------------------------------------------ witness

  /** Worker 0 claims and loads; its lease runs out and worker 1 sends the message. */
  lemma SentByAnother()
    ensures var s := FirstEvaluated();
            var t := RunFrom(s, [ClaimStep(0, 0, 0), ReadStep(0)] + Send(1, 0, "en-US", 3600));
            && 0 in t.workers && t.workers[0].delivery == 0 && t.workers[0].read.Some?
            && |t.store.deliveries| == 1 && t.store.deliveries[0].status == Sent
            && t.store.deliveries[0].claimToken.None?
            && t.store.deliveries[0].destination.route.language == "en-US"
  {
    var s := FirstEvaluated();
    ClaimsAndLoads(s, 0, 0, 0);
    var u := RunFrom(s, [ClaimStep(0, 0, 0), ReadStep(0)]);
    assert CanClaim(u, 1, 0, 3600);
    Sends(u, 1, 0, "en-US", 3600);
    RunSplit(s, [ClaimStep(0, 0, 0), ReadStep(0)], Send(1, 0, "en-US", 3600));
  }

  /** A reachable state in which a superseded worker changes the destination of a row that
      has already been sent. */
  lemma StaleWriteWitness()
    ensures exists steps ::
              && FeasibleRun(steps) && Superseded(Run(steps), 0, 0)
              && Run(steps).store.deliveries[0].status == Sent
              && Apply(Run(steps), RelabelStep(0, "es")).store != Run(steps).store
  {
    var first := [EnqueueStep("k", "p"), EvaluateStep("k", false, [FIRST_RULE], 0)];
    var rest := [ClaimStep(0, 0, 0), ReadStep(0)] + Send(1, 0, "en-US", 3600);
    FirstEvaluatedReached();
    SentByAnother();
    RunSplit(EMPTY, first, rest);
    assert FeasibleRun(first + rest);
    StaleWorkerExactly(first + rest, RelabelStep(0, "es"), 0, 0);
  }
}

/** Every step of the alert outbox keeps the invariant, hence every run does. */
module AlertSteps {
  import opened Wrappers
  import opened AlertStore
  import opened AlertSystem
  import opened AlertInvariant

  // ---------------------------------------------------------- evaluation

  lemma RefreshInv(s: System, touched: set<nat>)
    requires Inv(s)
    ensures Inv(s.(store := Refresh(s.store, touched)))
  {
    forall i | 0 <= i < |s.store.deliveries|
      ensures Rewrites(s.store.deliveries[i], s.store.deliveries[i], s.store.diagnoses)
    {
      Untouched(s, i);
    }
    RewriteInv(s, Refresh(s.store, touched));
  }

  /** No row of the event belongs to one of the candidates from `n` on. */
  ghost predicate Room(s: Store, event: nat, m: RuleMatch, n: nat) {
    && event < |s.events| && s.events[event].policy == m.policy
    && forall i, a :: 0 <= i < |s.deliveries| && n <= a < |m.candidates| && s.deliveries[i].event == event ==>
         s.deliveries[i].subscription != Some(m.candidates[a].subscription)
  }

  lemma EvaluateCandidateInv(s: System, event: nat, sourceKey: string, m: RuleMatch, n: nat, now: int)
    requires Inv(s) && n < |m.candidates| && Room(s.store, event, m, n) && DistinctCandidates(m)
    ensures var t := EvaluateCandidate(s.store, event, sourceKey, m.policy, m.candidates[n], now);
            Inv(s.(store := t)) && Room(t, event, m, n + 1)
  {
    var c := m.candidates[n];
    var id := CandidateIdentity(sourceKey, m.policy, c);
    var holder := KeyHolder(s.store.deliveries, id);
    var row := NewRow(event, Some(c.subscription), id, now);
    assert forall i :: 0 <= i < |s.store.deliveries| ==> !SamePlace(s.store.deliveries[i], row);
    if c.coolingDown {
      AppendInv(s, row.(status := Suppressed));
    } else if holder.Some? {
      AppendInv(s, row.(status := Suppressed, destination := row.destination.(deduplicatedBy := holder)));
    } else {
      var d := AttachDiagnosis(s.store.diagnoses, AttachedKey(m.policy, sourceKey, c.language), now);
      DiagnosesInv(s, d);
      AppendInv(s.(store := s.store.(diagnoses := d)), OwnerRow(event, c.subscription, id, now));
    }
  }

  ghost predicate Evaluating(s: System, t: Store, event: nat, m: RuleMatch, n: nat) {
    Inv(s.(store := t)) && Room(t, event, m, n)
  }

  lemma NextCandidateInv(s: System, t: Store, u: Store, event: nat, sourceKey: string, m: RuleMatch, n: nat, now: int)
    requires n < |m.candidates| && DistinctCandidates(m) && Evaluating(s, t, event, m, n)
    requires u == EvaluateCandidate(t, event, sourceKey, m.policy, m.candidates[n], now)
    ensures Evaluating(s, u, event, m, n + 1)
  {
    EvaluateCandidateInv(s.(store := t), event, sourceKey, m, n, now);
  }

  lemma {:induction false} EvaluateCandidatesInv(s: System, event: nat, sourceKey: string, m: RuleMatch, n: nat,
                                                 now: int)
    requires n <= |m.candidates| && DistinctCandidates(m) && Evaluating(s, s.store, event, m, 0)
    ensures Evaluating(s, EvaluateCandidates(s.store, event, sourceKey, m, n, now), event, m, n)
  {
    if n > 0 {
      EvaluateCandidatesInv(s, event, sourceKey, m, n - 1, now);
      var t := EvaluateCandidates(s.store, event, sourceKey, m, n - 1, now);
      var u := EvaluateCandidates(s.store, event, sourceKey, m, n, now);
      NextCandidateInv(s, t, u, event, sourceKey, m, n - 1, now);
    }
  }

  lemma EvaluateRuleInv(s: System, key: string, running: bool, m: RuleMatch, now: int)
    requires Inv(s) && DistinctCandidates(m)
    ensures Inv(s.(store := EvaluateRule(s.store, key, running, m, now)))
  {
    var sourceKey := EventKey(key, running, m);
    if !EventExists(s.store.events, m.rule, sourceKey) {
      var e := |s.store.events|;
      var events := s.store.events + [Event(m.rule, sourceKey, m.policy, EventPending)];
      var created := s.(store := s.store.(events := events));
      assert Placed(created.store.deliveries, created.store.events);
      EvaluateCandidatesInv(created, e, sourceKey, m, |m.candidates|, now);
      RefreshInv(created.(store := EvaluateCandidates(created.store, e, sourceKey, m, |m.candidates|, now)), {e});
    }
  }

  lemma {:induction false} EvaluateRulesInv(s: System, key: string, running: bool, matches: seq<RuleMatch>,
                                            n: nat, now: int)
    requires Inv(s) && n <= |matches|
    requires forall a :: 0 <= a < |matches| ==> DistinctCandidates(matches[a])
    ensures Inv(s.(store := EvaluateRules(s.store, key, running, matches, n, now)))
  {
    if n > 0 {
      EvaluateRulesInv(s, key, running, matches, n - 1, now);
      EvaluateRuleInv(s.(store := EvaluateRules(s.store, key, running, matches, n - 1, now)),
                      key, running, matches[n - 1], now);
    }
  }

  // ------------------------------------------------------ claim and send

  lemma ClaimInv(s: System, token: nat, i: nat, now: int)
    requires Inv(s)
    ensures Inv(Claim(s, token, i, now))
  {
    if CanClaim(s, token, i, now) {
      var rows := s.store.deliveries;
      // First clear the old token: an in-place rewrite.
      var cleared := s.store.(deliveries := rows[i := ClaimRow(rows[i], token, now).(claimToken := None)]);
      forall j | 0 <= j < |rows|
        ensures Rewrites(rows[j], cleared.deliveries[j], s.store.diagnoses)
      {
        Untouched(s, j);
        assert Keyed(rows, j);
      }
      RewriteInv(s, cleared);
      ClaimTokenInv(s.(store := cleared), token, i);
      assert Claim(s, token, i, now).store.deliveries
          == cleared.deliveries[i := cleared.deliveries[i].(claimToken := Some(token))];
    }
  }

  lemma ClaimTokenLeased(rows: seq<Delivery>, workers: map<nat, Worker>, token: nat, i: nat)
    requires Leased(rows, workers) && token !in workers && i < |rows| && rows[i].status == Sending
    ensures Leased(rows[i := rows[i].(claimToken := Some(token))], workers[token := Worker(i, None)])
  {
    var after, extended := rows[i := rows[i].(claimToken := Some(token))], workers[token := Worker(i, None)];
    forall j | 0 <= j < |after|
      ensures RowLease(after[j], j, extended)
    {
      assert RowLease(rows[j], j, workers);
    }
    forall w | w in extended
      ensures WorkerLease(extended[w], after)
    {
      assert w != token ==> WorkerLease(workers[w], rows);
    }
  }

  lemma ClaimTokenStore(s: Store, token: nat, i: nat)
    requires StoreInv(s) && i < |s.deliveries|
    ensures StoreInv(s.(deliveries := s.deliveries[i := s.deliveries[i].(claimToken := Some(token))]))
  {
    var rows := s.deliveries;
    var after := rows[i := rows[i].(claimToken := Some(token))];
    forall j | 0 <= j < |after|
      ensures Keyed(after, j) && Gate(after[j], s.diagnoses)
    {
      assert Keyed(rows, j) && Gate(rows[j], s.diagnoses);
    }
    PlacedFrame(rows, after, s.events);
  }

  /** Writing a fresh token on a row that has none, and registering its worker. */
  lemma ClaimTokenInv(s: System, token: nat, i: nat)
    requires Inv(s) && token !in s.workers && i < |s.store.deliveries|
    requires s.store.deliveries[i].status == Sending
    ensures Inv(System(s.store.(deliveries :=
                         s.store.deliveries[i := s.store.deliveries[i].(claimToken := Some(token))]),
                       s.workers[token := Worker(i, None)]))
  {
    ClaimTokenLeased(s.store.deliveries, s.workers, token, i);
    ClaimTokenStore(s.store, token, i);
  }

  lemma LoadInv(s: System, token: nat)
    requires Inv(s)
    ensures Inv(Load(s, token))
  {
    if token in s.workers {
      assert WorkerLease(s.workers[token], s.store.deliveries);
      var i := s.workers[token].delivery;
      assert Keyed(s.store.deliveries, i) && RowLease(s.store.deliveries[i], i, s.workers);
      forall w | w in s.workers
        ensures WorkerLease(s.workers[w], s.store.deliveries)
      {
      }
    }
  }

  lemma RelabelInv(s: System, token: nat, language: string)
    requires Inv(s)
    ensures Inv(Relabel(s, token, language))
  {
    if token in s.workers && s.workers[token].read.Some? {
      assert WorkerLease(s.workers[token], s.store.deliveries);
      var i := s.workers[token].delivery;
      assert Keyed(s.store.deliveries, i);
      var t := Relabel(s, token, language).store;
      forall j | 0 <= j < |s.store.deliveries|
        ensures Rewrites(s.store.deliveries[j], t.deliveries[j], t.diagnoses)
      {
        Untouched(s, j);
      }
      RewriteInv(s, t);
    }
  }

  /** Only the worker whose token is on the row can finalise it, and the row is then owned. */
  predicate Finalising(s: System, token: nat) {
    && token in s.workers && s.workers[token].read.Some?
    && s.workers[token].delivery < |s.store.deliveries|
    && s.store.deliveries[s.workers[token].delivery].claimToken == Some(token)
  }

  /** The store after the finalising update and before promotion. */
  function Written(s: System, token: nat, outcome: Outcome, now: int): Store
    requires Finalising(s, token)
  {
    var i := s.workers[token].delivery;
    s.store.(deliveries := s.store.deliveries[i :=
      FinalRow(s.store.deliveries[i], s.workers[token].read.value.attempts, outcome, now)])
  }

  lemma WrittenInv(s: System, token: nat, outcome: Outcome, now: int)
    requires Inv(s) && Finalising(s, token)
    ensures Inv(s.(store := Written(s, token, outcome, now)))
  {
    var i := s.workers[token].delivery;
    var t := Written(s, token, outcome, now);
    assert WorkerLease(s.workers[token], s.store.deliveries) && RowLease(s.store.deliveries[i], i, s.workers);
    assert Keyed(s.store.deliveries, i);
    forall j | 0 <= j < |s.store.deliveries|
      ensures Rewrites(s.store.deliveries[j], t.deliveries[j], t.diagnoses)
    {
      Untouched(s, j);
    }
    RewriteInv(s, t);
  }

  lemma FinishInv(s: System, token: nat, outcome: Outcome, now: int)
    requires Inv(s)
    ensures Inv(Finish(s, token, outcome, now))
  {
    if Finalising(s, token) {
      var i := s.workers[token].delivery;
      var read := s.workers[token].read.value;
      assert RowLease(s.store.deliveries[i], i, s.workers);
      WrittenInv(s, token, outcome, now);
      var t := Written(s, token, outcome, now);
      var promoted := if t.deliveries[i].status == Skipped then Promote(t, i, read, now) else t;
      PromoteInv(s.(store := t), i, read, now);
      RefreshInv(s.(store := promoted), {read.event});
    }
  }

  lemma PromoteInv(s: System, i: nat, read: Delivery, now: int)
    requires Inv(s) && i < |s.store.deliveries| && s.store.deliveries[i].claimToken.None?
    requires read.dedupeKey == s.store.deliveries[i].dedupeKey && read.diagnosis == s.store.deliveries[i].diagnosis
    ensures s.store.deliveries[i].status == Skipped ==> Inv(s.(store := Promote(s.store, i, read, now)))
  {
    var duplicates := Duplicates(s.store.deliveries, i, |s.store.deliveries|);
    if s.store.deliveries[i].status == Skipped && read.dedupeKey.Some? && duplicates != [] {
      var heir := duplicates[0];
      HandOverInv(s, i, heir, read, now);
      RefreshInv(s.(store := s.store.(deliveries := HandOver(s.store.deliveries, i, heir, read, now))),
                 {s.store.deliveries[heir].event});
    }
  }

  // ----------------------------------------------------------- diagnoses

  lemma {:induction false} AddSupplementInv(s: System, i: nat, now: int)
    requires Inv(s) && i < |s.store.deliveries| && s.store.deliveries[i].event < |s.store.events|
    requires s.store.deliveries[i].status == Sent && s.store.deliveries[i].phase == Initial
    requires s.store.deliveries[i].subscription.Some?
    requires KeyHolder(s.store.deliveries, SupplementIdentity(s.store, s.store.deliveries[i])).None? ==>
               !HasSupplement(s.store.deliveries, s.store.deliveries[i].event, s.store.deliveries[i].subscription.value)
    ensures Inv(s.(store := AddSupplement(s.store, i, now)))
  {
    var row := SupplementRow(s.store, i, now);
    if row.Some? {
      var r := row.value;
      assert Keyed(s.store.deliveries, i);
      assert SamePlace(s.store.deliveries[i], r.(phase := Initial));
      forall j | 0 <= j < |s.store.deliveries|
        ensures !SamePlace(s.store.deliveries[j], r)
      {
      }
      AppendInv(s, r);
    }
  }

  /** The row's event and subscription have no supplement yet. */
  predicate Unsupplied(s: Store, i: nat)
    requires i < |s.deliveries| && s.deliveries[i].subscription.Some?
  {
    !HasSupplement(s.deliveries, s.deliveries[i].event, s.deliveries[i].subscription.value)
  }

  /** The originals are sent rows at distinct places, none with a supplement. */
  ghost predicate Unserved(s: Store, originals: seq<nat>) {
    && Rooted(s, originals)
    && (forall a :: 0 <= a < |originals| ==>
          var r := s.deliveries[originals[a]];
          r.status == Sent && r.phase == Initial && r.subscription.Some? && Unsupplied(s, originals[a]))
    && (forall a, b :: 0 <= a < b < |originals| ==>
          !SamePlace(s.deliveries[originals[a]], s.deliveries[originals[b]]))
  }

  lemma RestUnserved(s: Store, originals: seq<nat>, now: int)
    requires originals != [] && Unserved(s, originals)
    ensures Unserved(AddSupplement(s, originals[0], now), originals[1..])
  {
    var t := AddSupplement(s, originals[0], now);
    var rest := originals[1..];
    forall a | 0 <= a < |rest|
      ensures rest[a] == originals[a + 1] && t.deliveries[rest[a]] == s.deliveries[rest[a]]
      ensures Unsupplied(t, rest[a])
    {
      assert !SamePlace(s.deliveries[originals[0]], s.deliveries[originals[a + 1]]);
      assert Unsupplied(s, originals[a + 1]);
    }
  }

  lemma {:induction false} AddSupplementsInv(s: System, originals: seq<nat>, now: int)
    requires Inv(s) && Unserved(s.store, originals)
    ensures Inv(s.(store := AddSupplements(s.store, originals, now)))
    decreases |originals|
  {
    if originals != [] {
      assert Unsupplied(s.store, originals[0]);
      AddSupplementInv(s, originals[0], now);
      RestUnserved(s.store, originals, now);
      AddSupplementsInv(s.(store := AddSupplement(s.store, originals[0], now)), originals[1..], now);
    }
  }

  lemma ReleasedInv(s: System, now: int)
    requires Inv(s)
    ensures Inv(s.(store := Released(s.store, now)))
  {
    var t := Released(s.store, now);
    forall i | 0 <= i < |s.store.deliveries|
      ensures Rewrites(s.store.deliveries[i], t.deliveries[i], t.diagnoses)
    {
      Untouched(s, i);
    }
    assert forall k :: k in s.store.diagnoses ==> JobOk(s.store.diagnoses[k]);
    RewriteInv(s, t);
  }

  lemma AdvanceInv(s: System, now: int)
    requires Inv(s)
    ensures Inv(s.(store := Advance(s.store, now)))
  {
    ReleasedInv(s, now);
    var t := Released(s.store, now);
    var originals := Batch(Originals(t, |t.deliveries|));
    OriginalsUnserved(t);
    AddSupplementsInv(s.(store := t), originals, now);
    RefreshInv(s.(store := AddSupplements(t, originals, now)),
               WaitingEvents(s.store.deliveries, t.diagnoses)
               + SupplementedEvents(t, originals, now));
  }

  lemma OriginalsUnserved(s: Store)
    requires Placed(s.deliveries, s.events)
    ensures Unserved(s, Batch(Originals(s, |s.deliveries|)))
  {
    var all := Originals(s, |s.deliveries|);
    var originals := Batch(all);
    forall a | 0 <= a < |originals|
      ensures originals[a] == all[a] && originals[a] < |s.deliveries| && NeedsSupplement(s, originals[a])
    {
      assert all[a] in all;
    }
  }

  lemma DiagnosisStepInv(s: System, step: Step)
    requires Inv(s) && (step.StartStep? || step.FinishStep?)
    ensures Inv(Apply(s, step))
  {
    DiagnosesInv(s, Apply(s, step).store.diagnoses);
  }

  // ------------------------------------------------------------ the rest

  lemma SweepInv(s: System, now: int)
    requires Inv(s)
    ensures Inv(s.(store := Sweep(s.store, now)))
  {
    var t := Sweep(s.store, now);
    forall i | 0 <= i < |s.store.deliveries|
      ensures Rewrites(s.store.deliveries[i], t.deliveries[i], t.diagnoses)
    {
      Untouched(s, i);
    }
    RewriteInv(s, t);
  }

  lemma {:induction false} RetryInv(s: System, event: nat, now: int)
    requires Inv(s)
    ensures Inv(s.(store := Retry(s.store, event, now)))
  {
    var t := Retry(s.store, event, now);
    forall i | 0 <= i < |s.store.deliveries|
      ensures Rewrites(s.store.deliveries[i], t.deliveries[i], t.diagnoses)
    {
      Untouched(s, i);
      assert RowLease(s.store.deliveries[i], i, s.workers);
    }
    RewriteInv(s, t);
  }

  lemma DropInv(s: System, subscription: nat)
    requires Inv(s)
    ensures Inv(s.(store := DropSubscription(s.store, subscription)))
  {
    var t := DropSubscription(s.store, subscription);
    forall i | 0 <= i < |s.store.deliveries|
      ensures Rewrites(s.store.deliveries[i], t.deliveries[i], t.diagnoses)
    {
      Untouched(s, i);
    }
    RewriteInv(s, t);
  }

  lemma EvaluateInv(s: System, key: string, running: bool, matches: seq<RuleMatch>, now: int)
    requires Inv(s)
    requires forall a :: 0 <= a < |matches| ==> DistinctCandidates(matches[a])
    ensures Inv(s.(store := Evaluate(s.store, key, running, matches, now)))
  {
    EvaluateRulesInv(s, key, running, matches, |matches|, now);
  }

  lemma WorkerStepInv(s: System, step: Step)
    requires Inv(s)
    requires step.ClaimStep? || step.ReadStep? || step.RelabelStep? || step.FinaliseStep?
    ensures Inv(Apply(s, step))
  {
    match step
    case ClaimStep(token, i, now) => ClaimInv(s, token, i, now);
    case ReadStep(token) => LoadInv(s, token);
    case RelabelStep(token, language) => RelabelInv(s, token, language);
    case FinaliseStep(token, outcome, now) => FinishInv(s, token, outcome, now);
  }

  lemma OperatorStepInv(s: System, step: Step)
    requires Inv(s) && (step.SweepStep? || step.RetryStep? || step.DropStep? || step.RefreshStep?)
    ensures Inv(Apply(s, step))
  {
    match step
    case SweepStep(now) => SweepInv(s, now);
    case RetryStep(event, now) => RetryInv(s, event, now);
    case DropStep(subscription) => DropInv(s, subscription);
    case RefreshStep(event) => RefreshInv(s, {event});
  }

  /** One step of any kind keeps the invariant. */
  lemma StepInv(s: System, step: Step)
    requires Inv(s) && Feasible(step)
    ensures Inv(Apply(s, step))
  {
    if step.EnqueueStep? {
      assert StoreInv(Enqueue(s.store, step.key, step.payload));
    } else if step.EvaluateStep? {
      EvaluateInv(s, step.key, step.running, step.matches, step.now);
    } else if step.AdvanceStep? {
      AdvanceInv(s, step.now);
    } else if step.StartStep? || step.FinishStep? {
      DiagnosisStepInv(s, step);
    } else if step.SweepStep? || step.RetryStep? || step.DropStep? || step.RefreshStep? {
      OperatorStepInv(s, step);
    } else {
      WorkerStepInv(s, step);
    }
  }

  /** Every reachable state satisfies the invariant. */
  lemma {:induction false} Reachable(s: System, steps: seq<Step>)
    requires Inv(s) && FeasibleRun(steps)
    ensures Inv(RunFrom(s, steps))
  {
    if steps != [] {
      Reachable(s, steps[..|steps| - 1]);
      StepInv(RunFrom(s, steps[..|steps| - 1]), steps[|steps| - 1]);
    }
  }
}

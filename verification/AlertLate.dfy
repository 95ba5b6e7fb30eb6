/** Destinations that are evaluated after the owner of their identity was skipped.

    A skipped row without duplicates keeps its dedupe key, so a later rule with the same
    destination is suppressed behind a row that will never be skipped again. */
module AlertLate {
  import opened Wrappers
  import opened AlertStore
  import opened AlertSystem
  import opened AlertInvariant
  import opened AlertSteps
  import opened AlertHistory
  import opened AlertEvaluation
  import opened AlertExamples

  // --------------------------------------------- exactly when it is lost

  /** A skipped row holds the key of the identity. */
  ghost predicate DeadKey(rows: seq<Delivery>, id: Identity) {
    exists o :: 0 <= o < |rows| && rows[o].status == Skipped && rows[o].dedupeKey == Some(id)
  }

  /** The row is active, or waits in the queue of an active owner. */
  predicate InPlay(rows: seq<Delivery>, i: nat) {
    && i < |rows|
    && (Active(rows[i].status)
        || (rows[i].status == Suppressed && rows[i].destination.deduplicatedBy.Some?
            && rows[i].destination.deduplicatedBy.value < |rows|
            && Active(rows[rows[i].destination.deduplicatedBy.value].status)))
  }

  /** Among rows that hold their keys lawfully, a row that is active or points at an owner is
      in play exactly when its key is not dead. */
  lemma InPlayByKey(rows: seq<Delivery>, i: nat)
    requires Ownership(rows) && i < |rows|
    requires Active(rows[i].status) || (rows[i].status == Suppressed && rows[i].destination.deduplicatedBy.Some?)
    ensures InPlay(rows, i) <==> !DeadKey(rows, rows[i].identity)
  {
    assert Keyed(rows, i);
    var h := if Active(rows[i].status) then i else rows[i].destination.deduplicatedBy.value;
    assert Keyed(rows, h) && rows[h].dedupeKey == Some(rows[i].identity);
    if DeadKey(rows, rows[i].identity) {
      var o :| 0 <= o < |rows| && rows[o].status == Skipped && rows[o].dedupeKey == Some(rows[i].identity);
      assert o == h;
    }
  }

  lemma DeadKeyGrown(s: Store, t: Store, now: int, id: Identity)
    requires Grown(s, t, now)
    ensures DeadKey(t.deliveries, id) <==> DeadKey(s.deliveries, id)
  {
    assert forall o :: 0 <= o < |s.deliveries| ==> t.deliveries[o] == s.deliveries[o];
  }

  /** The row that an evaluation adds for a destination which is not cooling down is in play
      afterwards exactly when no skipped row held the destination's key before. */
  lemma {:induction false} InPlayExactly(s: System, step: Step, a: nat, b: nat) returns (i: nat)
    requires Inv(s) && Feasible(step) && EvaluatesMatch(s.store, step, a) && b < |step.matches[a].candidates|
    requires !step.matches[a].candidates[b].coolingDown
    ensures |s.store.deliveries| <= i
    ensures IsRowOf(Apply(s, step).store, i, MatchKey(step, a), step.matches[a], step.matches[a].candidates[b],
                    step.now)
    ensures InPlay(Apply(s, step).store.deliveries, i) <==>
              !DeadKey(s.store.deliveries, MatchIdentity(step, a, b))
  {
    i := AddsRow(s, step, a, b);
    StepInv(s, step);
    InPlayByKey(Apply(s, step).store.deliveries, i);
    DeadKeyGrown(s.store, Apply(s, step).store, step.now, MatchIdentity(step, a, b));
  }

  /** A destination evaluated while a skipped row holds its key gets a row that is not active
      after the evaluation, nor after any later run. */
  lemma {:induction false} LateDuplicateStaysSuppressed(s: System, step: Step, a: nat, b: nat, later: seq<Step>)
    returns (i: nat)
    requires Inv(s) && Feasible(step) && FeasibleRun(later)
    requires EvaluatesMatch(s.store, step, a) && b < |step.matches[a].candidates|
    requires DeadKey(s.store.deliveries, MatchIdentity(step, a, b))
    ensures |s.store.deliveries| <= i
    ensures IsRowOf(Apply(s, step).store, i, MatchKey(step, a), step.matches[a], step.matches[a].candidates[b],
                    step.now)
    ensures !Active(Apply(s, step).store.deliveries[i].status)
    ensures i < |RunFrom(Apply(s, step), later).store.deliveries|
    ensures !Active(RunFrom(Apply(s, step), later).store.deliveries[i].status)
  {
    i := AddsRow(s, step, a, b);
    var rows := s.store.deliveries;
    var o :| 0 <= o < |rows| && rows[o].status == Skipped && rows[o].dedupeKey == Some(MatchIdentity(step, a, b));
    assert Keyed(rows, o);
    RunOne(s, step);
    SkippedKeyIsDead(s, o, [step], i);
    StaysDead(s, o, step, later, i);
  }

  lemma {:induction false} StaysDead(s: System, o: nat, step: Step, later: seq<Step>, i: nat)
    requires Inv(s) && Feasible(step) && FeasibleRun(later)
    requires o < |s.store.deliveries| && s.store.deliveries[o].status == Skipped
    requires s.store.deliveries[o].dedupeKey.Some?
    requires i < |Apply(s, step).store.deliveries|
    requires Apply(s, step).store.deliveries[i].identity == s.store.deliveries[o].identity
    ensures i < |RunFrom(Apply(s, step), later).store.deliveries|
    ensures !Active(RunFrom(Apply(s, step), later).store.deliveries[i].status)
  {
    StepInv(s, step);
    RunEffect(Apply(s, step), later);
    assert Follows(Apply(s, step).store.deliveries[i], RunFrom(Apply(s, step), later).store.deliveries[i]);
    RunOne(s, step);
    RunSplit(s, [step], later);
    SkippedKeyIsDead(s, o, [step] + later, i);
  }

  /** Otherwise it gets a row that is in play. */
  lemma {:induction false} OtherwiseInPlay(s: System, step: Step, a: nat, b: nat) returns (i: nat)
    requires Inv(s) && Feasible(step) && EvaluatesMatch(s.store, step, a) && b < |step.matches[a].candidates|
    requires !step.matches[a].candidates[b].coolingDown && !DeadKey(s.store.deliveries, MatchIdentity(step, a, b))
    ensures |s.store.deliveries| <= i
    ensures IsRowOf(Apply(s, step).store, i, MatchKey(step, a), step.matches[a], step.matches[a].candidates[b],
                    step.now)
    ensures InPlay(Apply(s, step).store.deliveries, i)
  {
    i := InPlayExactly(s, step, a, b);
  }

  // ------------------------------------------------------------ witness

  const SECOND_RULE := RuleMatch(1, "run_failed", Direct, [CHANNEL.(subscription := 1)])

  function FirstSkipped(): Delivery {
    FirstEvaluated().store.deliveries[0].(status := Skipped, attempts := 1, claims := 1, claimedAt := Some(0),
                                          nextAttemptAt := 60)
  }

  lemma Declined0(s: Store, row: Delivery)
    requires row == ClaimRow(FirstEvaluated().store.deliveries[0], 0, 0)
    requires s == FirstEvaluated().store.(deliveries := [row])
    ensures Finalise(s, 0, 0, row, Declined, 0).deliveries == [FirstSkipped()]
    ensures Finalise(s, 0, 0, row, Declined, 0).outbox == s.outbox
    ensures Finalise(s, 0, 0, row, Declined, 0).events == [Event(0, "k", Direct, EventSkipped)]
  {
    assert Pow2(0) == 1 && Backoff(1) == 60;
    var skipped := FinalRow(row, 1, Declined, 0);
    assert skipped == FirstSkipped();
    var written := s.(deliveries := [skipped]);
    assert s.deliveries[0 := skipped] == [skipped];
    assert Duplicates([skipped], 0, 0) == [] && Duplicates([skipped], 0, 1) == [];
    assert Promote(written, 0, row, 0) == written;
    assert Finalise(s, 0, 0, row, Declined, 0) == Refresh(written, {0});
  }

  lemma SkippedReached(s: System)
    requires s == FirstEvaluated()
    ensures var t := RunFrom(s, [ClaimStep(0, 0, 0), ReadStep(0), FinaliseStep(0, Declined, 0)]);
            t.store.deliveries == [FirstSkipped()] && t.store.outbox == s.store.outbox
            && t.store.events == [Event(0, "k", Direct, EventSkipped)]
  {
    var a, b, c := ClaimStep(0, 0, 0), ReadStep(0), FinaliseStep(0, Declined, 0);
    assert [a, b, c][..2] == [a, b];
    ClaimsAndLoads(s, 0, 0, 0);
    var loaded := RunFrom(s, [a, b]);
    Declined0(loaded.store, ClaimRow(s.store.deliveries[0], 0, 0));
    assert RunFrom(s, [a, b, c]) == Apply(loaded, c);
  }

  lemma SecondEvaluated(s: System)
    requires s.store.deliveries == [FirstSkipped()] && s.store.events == [Event(0, "k", Direct, EventSkipped)]
    requires "k" in s.store.outbox && s.store.outbox["k"].payload == "p"
    ensures var t := RunFrom(s, [EnqueueStep("k", "q"), EvaluateStep("k", false, [SECOND_RULE], 1)]);
            |t.store.deliveries| == 2 && t.store.deliveries[0] == FirstSkipped()
            && IsDuplicate(t.store.deliveries[1], 0)
  {
    var a, b := EnqueueStep("k", "q"), EvaluateStep("k", false, [SECOND_RULE], 1);
    assert [a, b][..1] == [a] && [a][..0] == [];
    var u := RunFrom(s, [a]);
    assert u == Apply(RunFrom(s, []), a);
    var e := Event(1, "k", Direct, EventPending);
    var created := u.store.(events := u.store.events + [e]);
    assert EvaluateCandidates(created, 1, "k", SECOND_RULE, 0, 1) == created;
    assert KeyHolder(created.deliveries, OWNER) == Some(0);
    var t := EvaluateCandidate(created, 1, "k", Direct, SECOND_RULE.candidates[0], 1);
    assert |t.deliveries| == 2 && t.deliveries[0] == FirstSkipped() && IsDuplicate(t.deliveries[1], 0);
    assert EvaluateCandidates(created, 1, "k", SECOND_RULE, 1, 1) == t;
    assert EvaluateRules(u.store, "k", false, [SECOND_RULE], 0, 1) == u.store;
    assert !EventExists(u.store.events, 1, "k");
    assert EvaluateRule(u.store, "k", false, SECOND_RULE, 1) == Refresh(t, {1});
    assert EvaluateRules(u.store, "k", false, [SECOND_RULE], 1, 1) == Refresh(t, {1});
    assert RunFrom(s, [a, b]) == Apply(u, b);
  }

  /** A reachable state with a suppressed duplicate behind a skipped owner. */
  lemma LateDuplicateWitness()
    ensures exists steps :: FeasibleRun(steps) && |Run(steps).store.deliveries| == 2
              && Run(steps).store.deliveries[0].status == Skipped
              && IsDuplicate(Run(steps).store.deliveries[1], 0)
  {
    var first := [EnqueueStep("k", "p"), EvaluateStep("k", false, [FIRST_RULE], 0)];
    var skip := [ClaimStep(0, 0, 0), ReadStep(0), FinaliseStep(0, Declined, 0)];
    var second := [EnqueueStep("k", "q"), EvaluateStep("k", false, [SECOND_RULE], 1)];
    FirstEvaluatedReached();
    SkippedReached(Run(first));
    RunSplit(EMPTY, first, skip);
    SecondEvaluated(Run(first + skip));
    RunSplit(EMPTY, first + skip, second);
    var steps := first + skip + second;
    assert FeasibleRun(steps);
    assert Run(steps).store.deliveries[0] == FirstSkipped();
  }
}

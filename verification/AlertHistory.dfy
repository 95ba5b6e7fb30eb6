/** What holds across whole runs of the alert outbox. */
module AlertHistory {
  import opened Wrappers
  import opened AlertStore
  import opened AlertSystem
  import opened AlertInvariant
  import opened AlertSteps

  // --------------------------------------------- one row through time

  /** How a row may look later, as `b`, when it once looked like `a`. */
  predicate Follows(a: Delivery, b: Delivery) {
    && b.identity == a.identity && b.event == a.event && b.phase == a.phase
    && a.claims <= b.claims && a.retries <= b.retries
    && (a.retries == b.retries ==> a.attempts <= b.attempts)
    && (a.status == Sent ==> b.status == Sent && b.sentAt == a.sentAt && b.dedupeKey == a.dedupeKey)
    && (a.status == Skipped ==> b.status == Skipped && b.dedupeKey == a.dedupeKey)
    && (a.status == Failed && a.claimToken.None? ==>
          a.retries < b.retries || (b.status == Failed && b.claimToken.None?))
    && (a.status != Suppressed ==> b.status != Suppressed)
  }

  predicate SameKeys(a: Delivery, b: Delivery) {
    && b.dedupeKey == a.dedupeKey
    && b.destination.deduplicatedBy == a.destination.deduplicatedBy
    && (a.status == Suppressed <==> b.status == Suppressed)
  }

  /** The step is a finalisation that takes effect and skips the row. */
  predicate Skips(s: System, step: Step) {
    step.FinaliseStep? && step.outcome == Declined && Finalising(s, step.token)
  }

  lemma {:induction false} EvaluateCandidatesAppends(s: Store, event: nat, sourceKey: string, m: RuleMatch, n: nat,
                                                     now: int)
    requires n <= |m.candidates|
    ensures var t := EvaluateCandidates(s, event, sourceKey, m, n, now);
            s.deliveries <= t.deliveries && t.events == s.events
            && (forall k :: k in s.diagnoses ==> k in t.diagnoses && t.diagnoses[k] == s.diagnoses[k])
            && (forall i :: |s.deliveries| <= i < |t.deliveries| ==> t.deliveries[i].event == event)
  {
    if n > 0 {
      EvaluateCandidatesAppends(s, event, sourceKey, m, n - 1, now);
    }
  }

  /** Evaluation only appends: rows, events and diagnoses that exist are left alone. */
  lemma {:induction false} EvaluateRulesAppends(s: Store, key: string, running: bool, matches: seq<RuleMatch>,
                                                n: nat, now: int)
    requires n <= |matches|
    ensures var t := EvaluateRules(s, key, running, matches, n, now);
            s.deliveries <= t.deliveries && s.events <= t.events && t.outbox == s.outbox
            && (forall k :: k in s.diagnoses ==> k in t.diagnoses && t.diagnoses[k] == s.diagnoses[k])
            && (forall i :: |s.deliveries| <= i < |t.deliveries| ==> t.deliveries[i].event >= |s.events|)
  {
    if n > 0 {
      EvaluateRulesAppends(s, key, running, matches, n - 1, now);
      var u := EvaluateRules(s, key, running, matches, n - 1, now);
      var m := matches[n - 1];
      var sourceKey := EventKey(key, running, m);
      if !EventExists(u.events, m.rule, sourceKey) {
        var created := u.(events := u.events + [Event(m.rule, sourceKey, m.policy, EventPending)]);
        EvaluateCandidatesAppends(created, |u.events|, sourceKey, m, |m.candidates|, now);
        EvaluateCandidatesOutbox(created, |u.events|, sourceKey, m, |m.candidates|, now);
        var t := EvaluateRules(s, key, running, matches, n, now);
        assert u.events <= t.events;
      }
    }
  }

  lemma {:induction false} EvaluateCandidatesOutbox(s: Store, event: nat, sourceKey: string, m: RuleMatch, n: nat,
                                                    now: int)
    requires n <= |m.candidates|
    ensures EvaluateCandidates(s, event, sourceKey, m, n, now).outbox == s.outbox
  {
    if n > 0 {
      EvaluateCandidatesOutbox(s, event, sourceKey, m, n - 1, now);
    }
  }

  /** `after` extends `rows`, and each old row has evolved lawfully. */
  ghost predicate RowsEffect(rows: seq<Delivery>, after: seq<Delivery>, keepsKeys: bool) {
    && |rows| <= |after|
    && (forall i :: 0 <= i < |rows| ==>
          Follows(rows[i], after[i]) && (keepsKeys ==> SameKeys(rows[i], after[i])))
  }

  /** What writing the result of row `i` does to row `j`. */
  lemma WrittenRow(rows: seq<Delivery>, i: nat, attempts: nat, outcome: Outcome, now: int, j: nat)
    requires i < |rows| && j < |rows| && rows[i].attempts <= attempts
    requires rows[i].status in {Sending, Failed, Pending} && rows[i].claimToken.Some?
    ensures var t := rows[i := FinalRow(rows[i], attempts, outcome, now)];
            && Follows(rows[j], t[j])
            && SameKeys(rows[j], t[j])
            && t[j].claimToken == if j == i then None else rows[j].claimToken
  {
  }

  /** Handing the owner's key over keeps row `j`, now `b` and once `a`, lawful. */
  lemma HandedRow(a: Delivery, b: Delivery, j: nat, owner: nat, heir: nat, read: Delivery, now: int)
    requires Follows(a, b)
    requires j == owner ==> a.status !in {Sent, Skipped}
    requires j == heir ==> b.status == Suppressed
    ensures Follows(a, HandOverRow(b, j, owner, heir, read, now))
    ensures HandOverRow(b, j, owner, heir, read, now).claimToken == b.claimToken
  {
  }

  /** The rows after finalising row `i`: written, then handed over if it was skipped and
      has duplicates. */
  function FinalRows(rows: seq<Delivery>, i: nat, read: Delivery, outcome: Outcome, now: int): seq<Delivery>
    requires i < |rows|
  {
    var written := rows[i := FinalRow(rows[i], read.attempts, outcome, now)];
    var duplicates := Duplicates(written, i, |written|);
    if outcome != Declined || read.dedupeKey.None? || duplicates == [] then written
    else HandOver(written, i, duplicates[0], read, now)
  }

  lemma FinaliseShape(s: Store, token: nat, i: nat, read: Delivery, outcome: Outcome, now: int)
    requires i < |s.deliveries| && s.deliveries[i].claimToken == Some(token)
    ensures Finalise(s, token, i, read, outcome, now).deliveries == FinalRows(s.deliveries, i, read, outcome, now)
  {
  }

  /** What finalising row `i` does to row `j`. */
  lemma FinaliseRow(rows: seq<Delivery>, i: nat, read: Delivery, outcome: Outcome, now: int, j: nat)
    requires i < |rows| && j < |rows| && rows[i].claimToken.Some?
    requires rows[i].status in {Sending, Failed, Pending} && rows[i].attempts <= read.attempts
    ensures var after := FinalRows(rows, i, read, outcome, now);
            && |after| == |rows|
            && Follows(rows[j], after[j])
            && (outcome != Declined ==> SameKeys(rows[j], after[j]))
            && after[j].claimToken == if j == i then None else rows[j].claimToken
  {
    WrittenRow(rows, i, read.attempts, outcome, now, j);
    var written := rows[i := FinalRow(rows[i], read.attempts, outcome, now)];
    var duplicates := Duplicates(written, i, |written|);
    if outcome == Declined && duplicates != [] {
      HandedRow(rows[j], written[j], j, i, duplicates[0], read, now);
    }
  }

  lemma FinishRows(s: System, token: nat, outcome: Outcome, now: int)
    requires Ownership(s.store.deliveries) && Leased(s.store.deliveries, s.workers)
    ensures RowsEffect(s.store.deliveries, Finish(s, token, outcome, now).store.deliveries,
                       !Skips(s, FinaliseStep(token, outcome, now)))
    ensures forall j :: 0 <= j < |s.store.deliveries| ==>
              Finish(s, token, outcome, now).store.deliveries[j].claimToken
              == if Finalising(s, token) && j == s.workers[token].delivery then None
                 else s.store.deliveries[j].claimToken
  {
    if Finalising(s, token) {
      var i := s.workers[token].delivery;
      var read := s.workers[token].read.value;
      var rows := s.store.deliveries;
      assert RowLease(rows[i], i, s.workers);
      FinaliseShape(s.store, token, i, read, outcome, now);
      forall j | 0 <= j < |rows|
        ensures var after := FinalRows(rows, i, read, outcome, now);
                && |after| == |rows|
                && Follows(rows[j], after[j])
                && (outcome != Declined ==> SameKeys(rows[j], after[j]))
                && after[j].claimToken == if j == i then None else rows[j].claimToken
      {
        FinaliseRow(rows, i, read, outcome, now, j);
      }
    }
  }

  lemma RelabelRows(s: System, token: nat, language: string)
    requires Ownership(s.store.deliveries) && Leased(s.store.deliveries, s.workers)
    ensures RowsEffect(s.store.deliveries, Relabel(s, token, language).store.deliveries, true)
  {
    if token in s.workers {
      assert WorkerLease(s.workers[token], s.store.deliveries);
      assert Keyed(s.store.deliveries, s.workers[token].delivery);
    }
  }

  lemma ClaimRows(s: System, token: nat, i: nat, now: int)
    ensures RowsEffect(s.store.deliveries, Claim(s, token, i, now).store.deliveries, true)
  {
  }

  lemma SweepRows(s: Store, now: int)
    ensures RowsEffect(s.deliveries, Sweep(s, now).deliveries, true)
  {
  }

  lemma RetriedRows(s: Store, event: nat, now: int)
    ensures RowsEffect(s.deliveries, Retry(s, event, now).deliveries, true)
  {
  }

  lemma DroppedRows(s: Store, subscription: nat)
    ensures RowsEffect(s.deliveries, DropSubscription(s, subscription).deliveries, true)
  {
  }

  lemma ReleasedRows(s: Store, now: int)
    ensures RowsEffect(s.deliveries, Released(s, now).deliveries, true)
  {
  }

  lemma AdvanceRows(s: Store, now: int)
    ensures RowsEffect(s.deliveries, Advance(s, now).deliveries, true)
    ensures Released(s, now).deliveries <= Advance(s, now).deliveries
  {
    ReleasedRows(s, now);
    assert Released(s, now).deliveries <= Advance(s, now).deliveries;
  }

  lemma ExtendedRows(rows: seq<Delivery>, after: seq<Delivery>)
    requires rows <= after
    ensures RowsEffect(rows, after, true)
  {
  }

  /** Steps that rewrite no delivery. */
  predicate IsQuiet(step: Step) {
    step.EnqueueStep? || step.ReadStep? || step.RefreshStep? || step.StartStep? || step.FinishStep?
  }

  lemma QuietRows(s: System, step: Step)
    requires IsQuiet(step)
    ensures Apply(s, step).store.deliveries == s.store.deliveries
  {
  }

  lemma {:induction false} EvaluatedRows(s: Store, key: string, running: bool, matches: seq<RuleMatch>, now: int)
    ensures RowsEffect(s.deliveries, Evaluate(s, key, running, matches, now).deliveries, true)
  {
    EvaluateRulesAppends(s, key, running, matches, |matches|, now);
    ExtendedRows(s.deliveries, EvaluateRules(s, key, running, matches, |matches|, now).deliveries);
    ExtendedRows(s.deliveries, s.deliveries);
  }

  lemma {:induction false} BulkRows(s: System, step: Step)
    requires step.SweepStep? || step.RetryStep? || step.DropStep?
    ensures RowsEffect(s.store.deliveries, Apply(s, step).store.deliveries, true)
  {
    if step.SweepStep? {
      SweepRows(s.store, step.now);
    } else if step.RetryStep? {
      RetriedRows(s.store, step.event, step.now);
    } else {
      DroppedRows(s.store, step.subscription);
    }
  }

  /** What any single step does to the rows that exist before it. */
  lemma {:induction false} StepRows(s: System, step: Step)
    requires Ownership(s.store.deliveries) && Leased(s.store.deliveries, s.workers)
    ensures RowsEffect(s.store.deliveries, Apply(s, step).store.deliveries, !Skips(s, step))
  {
    if IsQuiet(step) {
      QuietRows(s, step);
      ExtendedRows(s.store.deliveries, s.store.deliveries);
    } else if step.FinaliseStep? {
      FinishRows(s, step.token, step.outcome, step.now);
    } else if step.RelabelStep? {
      RelabelRows(s, step.token, step.language);
    } else if step.ClaimStep? {
      ClaimRows(s, step.token, step.delivery, step.now);
    } else if step.EvaluateStep? {
      EvaluatedRows(s.store, step.key, step.running, step.matches, step.now);
    } else if step.AdvanceStep? {
      AdvanceRows(s.store, step.now);
    } else {
      BulkRows(s, step);
    }
  }

  /** Diagnoses keep their keys and their final statuses. */
  ghost predicate JobsKept(d: map<DiagnosisKey, Diagnosis>, e: map<DiagnosisKey, Diagnosis>) {
    forall k :: k in d ==> k in e && (Final(d[k].status) ==> e[k].status == d[k].status)
  }

  lemma {:induction false} EvaluatedJobs(s: Store, key: string, running: bool, matches: seq<RuleMatch>, now: int)
    ensures JobsKept(s.diagnoses, Evaluate(s, key, running, matches, now).diagnoses)
  {
    EvaluateRulesAppends(s, key, running, matches, |matches|, now);
  }

  lemma AdvancedJobs(s: Store, now: int)
    ensures JobsKept(s.diagnoses, Advance(s, now).diagnoses)
  {
    assert Advance(s, now).diagnoses == ExpireAll(s.diagnoses, now);
  }

  lemma StartedJobs(s: Store, k: DiagnosisKey, success: bool, now: int)
    ensures JobsKept(s.diagnoses, StartDiagnosis(s, k, now).diagnoses)
    ensures JobsKept(s.diagnoses, FinishDiagnosis(s, k, success, now).diagnoses)
  {
  }

  lemma OtherJobs(s: System, step: Step)
    requires !step.EvaluateStep? && !step.AdvanceStep? && !step.StartStep? && !step.FinishStep?
    ensures Apply(s, step).store.diagnoses == s.store.diagnoses
  {
  }

  lemma {:induction false} StepJobs(s: System, step: Step)
    ensures JobsKept(s.store.diagnoses, Apply(s, step).store.diagnoses)
  {
    match step
    case EvaluateStep(key, running, matches, now) => EvaluatedJobs(s.store, key, running, matches, now);
    case AdvanceStep(now) => AdvancedJobs(s.store, now);
    case StartStep(k, now) => StartedJobs(s.store, k, true, now);
    case FinishStep(k, success, now) => StartedJobs(s.store, k, success, now);
    case _ => OtherJobs(s, step);
  }

  ghost predicate Effect(s: System, t: System, keepsKeys: bool) {
    && RowsEffect(s.store.deliveries, t.store.deliveries, keepsKeys)
    && Progress(s.store.diagnoses, t.store.diagnoses)
    && (forall w :: w in s.workers ==> w in t.workers && t.workers[w].delivery == s.workers[w].delivery)
  }

  lemma StepProgress(s: System, step: Step)
    requires Inv(s) && Feasible(step)
    ensures Progress(s.store.diagnoses, Apply(s, step).store.diagnoses)
  {
    StepInv(s, step);
    StepJobs(s, step);
    InvJobs(Apply(s, step));
  }

  lemma InvJobs(s: System)
    requires Inv(s)
    ensures forall k :: k in s.store.diagnoses ==> JobOk(s.store.diagnoses[k])
  {
  }

  lemma StepWorkers(s: System, step: Step)
    ensures forall w :: w in s.workers ==>
              w in Apply(s, step).workers && Apply(s, step).workers[w].delivery == s.workers[w].delivery
  {
  }

  /** What any single step does to the rows, diagnoses and workers that exist before it. */
  lemma {:induction false} StepEffect(s: System, step: Step)
    requires Inv(s) && Feasible(step)
    ensures Effect(s, Apply(s, step), !Skips(s, step))
  {
    StepRows(s, step);
    StepProgress(s, step);
    StepWorkers(s, step);
  }

  lemma FollowsTransitive(a: Delivery, b: Delivery, c: Delivery)
    requires Follows(a, b) && Follows(b, c)
    ensures Follows(a, c)
  {
  }

  lemma {:induction false} RunEffect(s: System, steps: seq<Step>)
    requires Inv(s) && FeasibleRun(steps)
    ensures Effect(s, RunFrom(s, steps), false)
  {
    if steps == [] {
      assert forall k :: k in s.store.diagnoses ==> JobOk(s.store.diagnoses[k]);
    } else {
      var front := steps[..|steps| - 1];
      RunEffect(s, front);
      Reachable(s, front);
      StepEffect(RunFrom(s, front), steps[|steps| - 1]);
      var u, t := RunFrom(s, front), RunFrom(s, steps);
      forall i | 0 <= i < |s.store.deliveries|
        ensures Follows(s.store.deliveries[i], t.store.deliveries[i])
      {
        FollowsTransitive(s.store.deliveries[i], u.store.deliveries[i], t.store.deliveries[i]);
      }
    }
  }

  // ------------------------------------------------- dedupe identities

  /** In every reachable state the active rows of one identity are a single row, which
      holds the key, and every duplicate points at the key holder. */
  lemma OneOwner(steps: seq<Step>, i: nat, j: nat)
    requires FeasibleRun(steps)
    requires i < |Run(steps).store.deliveries| && j < |Run(steps).store.deliveries|
    ensures var rows := Run(steps).store.deliveries;
            && (rows[i].status !in {Skipped, Suppressed} ==> rows[i].dedupeKey == Some(rows[i].identity))
            && (rows[i].identity == rows[j].identity ==>
                  rows[i].status in {Skipped, Suppressed} || rows[j].status in {Skipped, Suppressed} || i == j)
            && (rows[i].destination.deduplicatedBy.Some? ==>
                  rows[i].status == Suppressed
                  && KeyHolder(rows, rows[i].identity) == rows[i].destination.deduplicatedBy)
  {
    Reachable(EMPTY, steps);
    var rows := Run(steps).store.deliveries;
    assert Keyed(rows, i) && Keyed(rows, j);
    if rows[i].destination.deduplicatedBy.Some? {
      UniqueHolder(rows, rows[i].destination.deduplicatedBy.value, rows[i].identity);
    }
  }

  lemma UniqueHolder(rows: seq<Delivery>, o: nat, id: Identity)
    requires Ownership(rows) && o < |rows| && rows[o].dedupeKey == Some(id)
    ensures KeyHolder(rows, id) == Some(o)
  {
    var h := KeyHolder(rows, id);
    assert h.Some?;
    assert rows[h.value].dedupeKey == rows[o].dedupeKey;
  }

  /** At most one row of an identity is ever sent, even comparing different moments. */
  lemma SentOnce(earlier: seq<Step>, later: seq<Step>, i: nat, j: nat)
    requires FeasibleRun(earlier) && FeasibleRun(later)
    requires i < |Run(earlier).store.deliveries| && Run(earlier).store.deliveries[i].status == Sent
    requires j < |Run(earlier + later).store.deliveries| && Run(earlier + later).store.deliveries[j].status == Sent
    requires Run(earlier).store.deliveries[i].identity == Run(earlier + later).store.deliveries[j].identity
    ensures i == j
  {
    RunSplit(EMPTY, earlier, later);
    Reachable(EMPTY, earlier);
    RunEffect(Run(earlier), later);
    assert Follows(Run(earlier).store.deliveries[i], Run(earlier + later).store.deliveries[i]);
    assert FeasibleRun(earlier + later);
    OneOwner(earlier + later, i, j);
  }

  /** Once the key of an identity is held by a skipped row, no destination with that
      identity is ever active again: later evaluations only add suppressed rows. */
  lemma SkippedKeyIsDead(s: System, o: nat, steps: seq<Step>, i: nat)
    requires Inv(s) && FeasibleRun(steps)
    requires o < |s.store.deliveries| && s.store.deliveries[o].status == Skipped
    requires s.store.deliveries[o].dedupeKey.Some?
    requires i < |RunFrom(s, steps).store.deliveries|
    requires RunFrom(s, steps).store.deliveries[i].identity == s.store.deliveries[o].identity
    ensures !Active(RunFrom(s, steps).store.deliveries[i].status)
  {
    Reachable(s, steps);
    RunEffect(s, steps);
    var rows := RunFrom(s, steps).store.deliveries;
    SkippedStays(s.store.deliveries, rows, o);
    if Active(rows[i].status) {
      ActiveHolds(rows, i, o);
    }
  }

  lemma SkippedStays(rows: seq<Delivery>, after: seq<Delivery>, o: nat)
    requires Ownership(rows) && RowsEffect(rows, after, false)
    requires o < |rows| && rows[o].status == Skipped && rows[o].dedupeKey.Some?
    ensures after[o].status == Skipped && after[o].dedupeKey == Some(rows[o].identity)
  {
    assert Keyed(rows, o) && Follows(rows[o], after[o]);
  }

  lemma ActiveHolds(rows: seq<Delivery>, i: nat, o: nat)
    requires Ownership(rows) && i < |rows| && o < |rows|
    requires Active(rows[i].status) && rows[o].dedupeKey == Some(rows[i].identity)
    ensures i == o
  {
    assert Keyed(rows, i);
  }

  // -------------------------------------------------------------- leases

  /** Attempts stay within the limit, and external sends within five per operator round. */
  lemma SendsBounded(steps: seq<Step>, i: nat)
    requires FeasibleRun(steps) && i < |Run(steps).store.deliveries|
    ensures var r := Run(steps).store.deliveries[i];
            r.attempts <= 5 && r.claims <= 5 * (r.retries + 1)
  {
    Reachable(EMPTY, steps);
    assert RowLease(Run(steps).store.deliveries[i], i, Run(steps).workers);
  }

  /** Attempts never decrease between operator retries; sent and skipped rows stay so,
      and so does a failed row that no worker still holds. */
  lemma Absorbing(s: System, steps: seq<Step>, i: nat)
    requires Inv(s) && FeasibleRun(steps) && i < |s.store.deliveries|
    ensures |s.store.deliveries| <= |RunFrom(s, steps).store.deliveries|
    ensures var a, b := s.store.deliveries[i], RunFrom(s, steps).store.deliveries[i];
            && (a.status in {Sent, Skipped} ==> b.status == a.status)
            && (a.status == Failed && a.claimToken.None? && b.retries == a.retries ==> b.status == Failed)
            && (b.retries == a.retries ==> a.attempts <= b.attempts)
  {
    RunEffect(s, steps);
    assert Follows(s.store.deliveries[i], RunFrom(s, steps).store.deliveries[i]);
  }

  /** The worker has claimed row `i` but its token is no longer on it. */
  predicate Superseded(s: System, token: nat, i: nat) {
    && token in s.workers && s.workers[token].delivery == i && i < |s.store.deliveries|
    && s.store.deliveries[i].claimToken != Some(token)
  }

  lemma {:induction false} SupersededStep(s: System, step: Step, token: nat, i: nat)
    requires Inv(s) && Feasible(step) && Superseded(s, token, i)
    ensures Superseded(Apply(s, step), token, i)
  {
    StepEffect(s, step);
    StepInv(s, step);
    var t := Apply(s, step);
    if t.store.deliveries[i].claimToken == Some(token) {
      TokensComeFromClaims(s, step, i);
      assert false;
    }
  }

  /** A step that puts a token on an existing row is that token's claim. */
  lemma {:induction false} TokensComeFromClaims(s: System, step: Step, i: nat)
    requires Ownership(s.store.deliveries) && Leased(s.store.deliveries, s.workers)
    requires Feasible(step) && i < |s.store.deliveries|
    ensures |s.store.deliveries| <= |Apply(s, step).store.deliveries|
    ensures var after := Apply(s, step).store.deliveries[i].claimToken;
            after in {None, s.store.deliveries[i].claimToken}
            || (step.ClaimStep? && after == Some(step.token) && step.token !in s.workers)
  {
    if step.FinaliseStep? {
      FinishRows(s, step.token, step.outcome, step.now);
    } else if !step.ClaimStep? {
      TokensStay(s, step, i);
    }
  }

  /** A worker whose lease was taken over can never finish: its result changes nothing,
      whatever happens in between. */
  lemma {:induction false} SupersededIsInert(s: System, steps: seq<Step>, token: nat, i: nat, outcome: Outcome,
                                             now: int)
    requires Inv(s) && FeasibleRun(steps) && Superseded(s, token, i)
    ensures Superseded(RunFrom(s, steps), token, i)
    ensures Finish(RunFrom(s, steps), token, outcome, now) == RunFrom(s, steps)
  {
    if steps != [] {
      SupersededIsInert(s, steps[..|steps| - 1], token, i, outcome, now);
      Reachable(s, steps[..|steps| - 1]);
      SupersededStep(RunFrom(s, steps[..|steps| - 1]), steps[|steps| - 1], token, i);
    }
  }

  /** Steps other than claims and finalisations leave every token where it is. */
  lemma TokensStay(s: System, step: Step, i: nat)
    requires i < |s.store.deliveries| && !step.ClaimStep? && !step.FinaliseStep?
    ensures |s.store.deliveries| <= |Apply(s, step).store.deliveries|
    ensures Apply(s, step).store.deliveries[i].claimToken == s.store.deliveries[i].claimToken
  {
    match step
    case EvaluateStep(key, running, matches, now) =>
      EvaluateRulesAppends(s.store, key, running, matches, |matches|, now);
    case AdvanceStep(now) => AdvanceRows(s.store, now);
    case _ =>
  }

  /** The claim of another worker on the row that `token` holds, once the lease has run out. */
  predicate TakesOver(s: System, step: Step, i: nat) {
    step.ClaimStep? && step.delivery == i && CanClaim(s, step.token, i, step.now)
  }

  /** A worker that holds row `i` is superseded by a step exactly when the step is another
      worker's successful claim of the row, or its own effective finalisation. */
  lemma {:induction false} LeaseEndsExactly(s: System, step: Step, token: nat, i: nat)
    requires Inv(s) && Feasible(step) && i < |s.store.deliveries|
    requires s.store.deliveries[i].claimToken == Some(token)
    ensures Superseded(Apply(s, step), token, i) <==>
              TakesOver(s, step, i) || (step.FinaliseStep? && step.token == token && Finalising(s, token))
  {
    HolderStays(s, step, token, i);
    if step.FinaliseStep? {
      FinishRows(s, step.token, step.outcome, step.now);
    } else if !step.ClaimStep? {
      TokensStay(s, step, i);
    }
  }

  lemma HolderStays(s: System, step: Step, token: nat, i: nat)
    requires Inv(s) && Feasible(step) && i < |s.store.deliveries|
    requires s.store.deliveries[i].claimToken == Some(token)
    ensures token in s.workers && s.workers[token].delivery == i
    ensures token in Apply(s, step).workers && Apply(s, step).workers[token].delivery == i
    ensures i < |Apply(s, step).store.deliveries|
  {
    assert RowLease(s.store.deliveries[i], i, s.workers);
    StepWorkers(s, step);
    StepRows(s, step);
  }

  // ----------------------------------------------------------- diagnoses

  /** A row of a diagnose-first rule is never claimed before its diagnosis is final,
      however it came to be pending. */
  lemma DiagnoseFirstGate(steps: seq<Step>, token: nat, i: nat, now: int)
    requires FeasibleRun(steps) && CanClaim(Run(steps), token, i, now)
    requires Run(steps).store.deliveries[i].phase == Initial
    requires Run(steps).store.deliveries[i].event < |Run(steps).store.events|
    requires Run(steps).store.events[Run(steps).store.deliveries[i].event].policy.DiagnoseFirst?
    ensures var k := Run(steps).store.deliveries[i].diagnosis;
            && k.Some? && k.value in Run(steps).store.diagnoses
            && Run(steps).store.diagnoses[k.value].status in {Completed, Errored, TimedOut}
  {
    Reachable(EMPTY, steps);
    assert Gate(Run(steps).store.deliveries[i], Run(steps).store.diagnoses);
  }

  /** Each analysis is claimed at most once and its final status never changes. */
  lemma DiagnosisOnce(earlier: seq<Step>, later: seq<Step>, k: DiagnosisKey)
    requires FeasibleRun(earlier) && FeasibleRun(later) && k in Run(earlier).store.diagnoses
    ensures k in Run(earlier + later).store.diagnoses
    ensures Run(earlier + later).store.diagnoses[k].claims <= 1
    ensures Run(earlier).store.diagnoses[k].status in {Completed, Errored, TimedOut} ==>
              Run(earlier + later).store.diagnoses[k].status == Run(earlier).store.diagnoses[k].status
  {
    RunSplit(EMPTY, earlier, later);
    Reachable(EMPTY, earlier);
    RunEffect(Run(earlier), later);
  }

  lemma ReleasesWaiting(s: Store, now: int, i: nat)
    requires i < |s.deliveries| && s.deliveries[i].status == Diagnosing
    requires s.deliveries[i].diagnosis.Some? && s.deliveries[i].diagnosis.value in s.diagnoses
    ensures var d, r := s.diagnoses[s.deliveries[i].diagnosis.value], Released(s, now).deliveries[i];
            if d.status in {Queued, Running} && d.deadline > now then r.status == Diagnosing
            else r.status == Pending && r.nextAttemptAt == now
  {
    var k := s.deliveries[i].diagnosis.value;
    var e := ExpireAll(s.diagnoses, now);
    assert e[k] == Expire(s.diagnoses[k], now);
    assert Waiting(s.deliveries[i], e) <==> Final(e[k].status);
    var d := s.diagnoses[k].status;
    assert d.Queued? || d.Running? || d.Completed? || d.Errored? || d.TimedOut?;
  }

  /** After an advance a row is still waiting exactly when it was waiting on a live
      diagnosis with a later deadline; every other waiting row is now due. */
  lemma AdvanceReleases(s: System, now: int, i: nat)
    requires Inv(s) && i < |s.store.deliveries| && s.store.deliveries[i].status == Diagnosing
    ensures |s.store.deliveries| <= |Advance(s.store, now).deliveries|
    ensures s.store.deliveries[i].diagnosis.Some? && s.store.deliveries[i].diagnosis.value in s.store.diagnoses
    ensures var d := s.store.diagnoses[s.store.deliveries[i].diagnosis.value];
            var after := Advance(s.store, now).deliveries[i];
            && (after.status == Diagnosing <==> d.status in {Queued, Running} && d.deadline > now)
            && (after.status != Diagnosing ==> after.status == Pending && after.nextAttemptAt == now)
  {
    assert Gate(s.store.deliveries[i], s.store.diagnoses);
    ReleasesWaiting(s.store, now, i);
    AdvanceRows(s.store, now);
  }

  /** Every supplement has a sent base row of the same event and subscription, and while the
      subscription lasts it is the only supplement there. */
  lemma SupplementBased(steps: seq<Step>, i: nat, j: nat)
    requires FeasibleRun(steps)
    requires i < |Run(steps).store.deliveries| && j < |Run(steps).store.deliveries|
    requires Run(steps).store.deliveries[i].phase == Supplement
    ensures var rows := Run(steps).store.deliveries;
            && HasBase(rows, rows[i])
            && (rows[i].subscription.Some? && SamePlace(rows[i], rows[j]) ==> i == j)
  {
    Reachable(EMPTY, steps);
  }
}

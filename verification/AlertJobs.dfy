/** The life of an analysis: how each step moves it, and what a result says about the run. */
module AlertJobs {
  import opened AlertStore
  import opened AlertSystem
  import opened AlertHistory

  /** The status after a step of an analysis with this status and deadline. */
  function Moved(k: DiagnosisKey, status: DiagnosisStatus, deadline: int, step: Step): DiagnosisStatus {
    match step
    case StartStep(j, now) => if j == k && status == Queued && now < deadline then Running else status
    case FinishStep(j, success, now) =>
      if j == k && status == Running && now < deadline then (if success then Completed else Errored) else status
    case AdvanceStep(now) => if status in {Queued, Running} && deadline <= now then TimedOut else status
    case _ => status
  }

  lemma EvaluationMovesNothing(s: Store, step: Step, k: DiagnosisKey)
    requires step.EvaluateStep? && k in s.diagnoses
    ensures var t := Evaluate(s, step.key, step.running, step.matches, step.now);
            k in t.diagnoses && t.diagnoses[k] == s.diagnoses[k]
  {
    EvaluateRulesAppends(s, step.key, step.running, step.matches, |step.matches|, step.now);
  }

  /** An analysis is started by its claim and finished by its result, each only before the
      deadline, and timed out by the first advance from the deadline on; no other step moves
      it, and nothing changes its deadline. */
  lemma {:induction false} JobMovesExactly(s: System, step: Step, k: DiagnosisKey)
    requires k in s.store.diagnoses
    ensures k in Apply(s, step).store.diagnoses
    ensures var d, e := s.store.diagnoses[k], Apply(s, step).store.diagnoses[k];
            e.deadline == d.deadline && e.status == Moved(k, d.status, d.deadline, step)
  {
    match step
    case EvaluateStep(_, _, _, _) => EvaluationMovesNothing(s.store, step, k);
    case AdvanceStep(now) => assert Advance(s.store, now).diagnoses == ExpireAll(s.store.diagnoses, now);
    case StartStep(_, _) =>
    case FinishStep(_, _, _) =>
    case _ => OtherJobs(s, step);
  }

  ghost predicate Started(steps: seq<Step>, k: DiagnosisKey, deadline: int, n: nat)
    requires n <= |steps|
  {
    exists x :: 0 <= x < n && steps[x].StartStep? && steps[x].diagnosis == k && steps[x].now < deadline
  }

  ghost predicate Finished(steps: seq<Step>, k: DiagnosisKey, deadline: int, success: bool) {
    exists y: nat ::
      && y < |steps| && steps[y].FinishStep? && steps[y].diagnosis == k && steps[y].success == success
      && steps[y].now < deadline && Started(steps, k, deadline, y)
  }

  ghost predicate Expired(steps: seq<Step>, deadline: int) {
    exists x :: 0 <= x < |steps| && steps[x].AdvanceStep? && steps[x].now >= deadline
  }

  /** What a run must have done for the analysis to have this status. */
  ghost predicate Explained(steps: seq<Step>, k: DiagnosisKey, status: DiagnosisStatus, deadline: int) {
    match status
    case Queued => true
    case Running => Started(steps, k, deadline, |steps|)
    case Completed => Finished(steps, k, deadline, true)
    case Errored => Finished(steps, k, deadline, false)
    case TimedOut => Expired(steps, deadline)
  }

  lemma ExplainedLonger(steps: seq<Step>, last: Step, k: DiagnosisKey, status: DiagnosisStatus, deadline: int)
    requires Explained(steps, k, status, deadline)
    ensures Explained(steps + [last], k, status, deadline)
  {
    var all := steps + [last];
    assert forall x :: 0 <= x < |steps| ==> all[x] == steps[x];
    match status
    case Completed => FinishedLonger(steps, last, k, deadline, true);
    case Errored => FinishedLonger(steps, last, k, deadline, false);
    case _ =>
  }

  lemma FinishedLonger(steps: seq<Step>, last: Step, k: DiagnosisKey, deadline: int, success: bool)
    requires Finished(steps, k, deadline, success)
    ensures Finished(steps + [last], k, deadline, success)
  {
    var all := steps + [last];
    assert forall x :: 0 <= x < |steps| ==> all[x] == steps[x];
    var y: nat :| y < |steps| && steps[y].FinishStep? && steps[y].diagnosis == k && steps[y].success == success
      && steps[y].now < deadline && Started(steps, k, deadline, y);
    assert Started(all, k, deadline, y);
    assert all[y] == steps[y];
  }

  lemma ExplainedNext(steps: seq<Step>, last: Step, k: DiagnosisKey, status: DiagnosisStatus, deadline: int)
    requires Explained(steps, k, status, deadline)
    ensures Explained(steps + [last], k, Moved(k, status, deadline, last), deadline)
  {
    var all, n := steps + [last], |steps|;
    assert forall x :: 0 <= x < n ==> all[x] == steps[x];
    assert all[n] == last;
    if Moved(k, status, deadline, last) == status {
      ExplainedLonger(steps, last, k, status, deadline);
    } else if last.FinishStep? {
      assert Started(all, k, deadline, n);
    }
  }

  /** An analysis is running, completed, failed or timed out only after its claim, its result
      in time, or an advance from its deadline on. */
  lemma {:induction false} JobExplained(steps: seq<Step>, k: DiagnosisKey)
    requires k in Run(steps).store.diagnoses
    ensures Explained(steps, k, Run(steps).store.diagnoses[k].status, Run(steps).store.diagnoses[k].deadline)
  {
    if steps != [] {
      var front, last := steps[..|steps| - 1], steps[|steps| - 1];
      assert steps == front + [last];
      var s := Run(front);
      if k in s.store.diagnoses {
        JobExplained(front, k);
        JobMovesExactly(s, last, k);
        ExplainedNext(front, last, k, s.store.diagnoses[k].status, s.store.diagnoses[k].deadline);
      } else {
        NewJobsWait(s, last, k);
      }
    }
  }

  lemma OtherKeys(s: System, step: Step)
    requires !step.EvaluateStep?
    ensures Apply(s, step).store.diagnoses.Keys == s.store.diagnoses.Keys
  {
    match step
    case AdvanceStep(now) => assert Advance(s.store, now).diagnoses == ExpireAll(s.store.diagnoses, now);
    case StartStep(_, _) =>
    case FinishStep(_, _, _) =>
    case _ => OtherJobs(s, step);
  }

  /** An analysis appears by an evaluation, unclaimed. */
  lemma {:induction false} NewJobsWait(s: System, step: Step, k: DiagnosisKey)
    requires k !in s.store.diagnoses && k in Apply(s, step).store.diagnoses
    ensures step.EvaluateStep?
    ensures Apply(s, step).store.diagnoses[k] == Diagnosis(Queued, step.now + k.timeout, 0)
  {
    if step.EvaluateStep? {
      RulesAddJobs(s.store, step.key, step.running, step.matches, |step.matches|, step.now, k);
    } else {
      OtherKeys(s, step);
    }
  }

  lemma {:induction false} CandidatesAddJobs(s: Store, event: nat, sourceKey: string, m: RuleMatch, n: nat, now: int,
                                             k: DiagnosisKey)
    requires n <= |m.candidates| && k !in s.diagnoses
    ensures var t := EvaluateCandidates(s, event, sourceKey, m, n, now);
            k in t.diagnoses ==> t.diagnoses[k] == Diagnosis(Queued, now + k.timeout, 0)
  {
    if n > 0 {
      CandidatesAddJobs(s, event, sourceKey, m, n - 1, now, k);
    }
  }

  lemma {:induction false} RulesAddJobs(s: Store, key: string, running: bool, matches: seq<RuleMatch>, n: nat, now: int,
                                        k: DiagnosisKey)
    requires n <= |matches| && k !in s.diagnoses
    ensures var t := EvaluateRules(s, key, running, matches, n, now);
            k in t.diagnoses ==> t.diagnoses[k] == Diagnosis(Queued, now + k.timeout, 0)
  {
    if n > 0 {
      RulesAddJobs(s, key, running, matches, n - 1, now, k);
      var u, m := EvaluateRules(s, key, running, matches, n - 1, now), matches[n - 1];
      var created := u.(events := u.events + [Event(m.rule, EventKey(key, running, m), m.policy, EventPending)]);
      if k !in u.diagnoses {
        CandidatesAddJobs(created, |u.events|, EventKey(key, running, m), m, |m.candidates|, now, k);
      } else {
        EvaluateCandidatesAppends(created, |u.events|, EventKey(key, running, m), m, |m.candidates|, now);
      }
    }
  }
}

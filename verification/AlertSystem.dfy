/** Runs of the alert outbox: any interleaving of evaluation, workers, diagnosis jobs,
    the periodic sweep and operator actions.

    A worker is what one `send_alert_delivery` call keeps outside the database: the row
    it claimed and, once loaded, its copy of that row.  A worker that never finishes is
    a crash.  Every step is a total function; a step whose guard fails changes nothing. */
module AlertSystem {
  import opened Wrappers
  import opened AlertStore

  datatype Worker = Worker(delivery: nat, read: Option<Delivery>)

  datatype System = System(store: Store, workers: map<nat, Worker>)

  datatype Step =
    | EnqueueStep(key: string, payload: string)
    | EvaluateStep(key: string, running: bool, matches: seq<RuleMatch>, now: int)
    | ClaimStep(token: nat, delivery: nat, now: int)
    | ReadStep(token: nat)
    | RelabelStep(token: nat, language: string)
    | FinaliseStep(token: nat, outcome: Outcome, now: int)
    | StartStep(diagnosis: DiagnosisKey, now: int)
    | FinishStep(diagnosis: DiagnosisKey, success: bool, now: int)
    | AdvanceStep(now: int)
    | SweepStep(now: int)
    | RefreshStep(event: nat)
    | RetryStep(event: nat, now: int)
    | DropStep(subscription: nat)

  const EMPTY := System(Store(map[], [], [], map[]), map[])

  /** Claim tokens are fresh. */
  predicate CanClaim(s: System, token: nat, i: nat, now: int) {
    token !in s.workers && i < |s.store.deliveries| && Claimable(s.store.deliveries[i], now)
  }

  function Claim(s: System, token: nat, i: nat, now: int): System {
    if CanClaim(s, token, i, now) then
      System(s.store.(deliveries := s.store.deliveries[i := ClaimRow(s.store.deliveries[i], token, now)]),
             s.workers[token := Worker(i, None)])
    else s
  }

  function Load(s: System, token: nat): System {
    if token in s.workers && s.workers[token].read.None? && s.workers[token].delivery < |s.store.deliveries| then
      s.(workers := s.workers[token := s.workers[token].(read := Some(s.store.deliveries[s.workers[token].delivery]))])
    else s
  }

  /** The unguarded write of the destination, from the worker's own copy. */
  function Relabel(s: System, token: nat, language: string): System {
    if token in s.workers && s.workers[token].read.Some? && s.workers[token].delivery < |s.store.deliveries| then
      var i := s.workers[token].delivery;
      var d := s.workers[token].read.value.destination;
      s.(store := s.store.(deliveries := s.store.deliveries[i :=
        s.store.deliveries[i].(destination := d.(route := d.route.(language := language)))]))
    else s
  }

  function Finish(s: System, token: nat, outcome: Outcome, now: int): System {
    if token in s.workers && s.workers[token].read.Some? then
      s.(store := Finalise(s.store, token, s.workers[token].delivery, s.workers[token].read.value, outcome, now))
    else s
  }

  function Apply(s: System, step: Step): System {
    match step
    case EnqueueStep(key, payload) => s.(store := Enqueue(s.store, key, payload))
    case EvaluateStep(key, running, matches, now) => s.(store := Evaluate(s.store, key, running, matches, now))
    case ClaimStep(token, i, now) => Claim(s, token, i, now)
    case ReadStep(token) => Load(s, token)
    case RelabelStep(token, language) => Relabel(s, token, language)
    case FinaliseStep(token, outcome, now) => Finish(s, token, outcome, now)
    case StartStep(k, now) => s.(store := StartDiagnosis(s.store, k, now))
    case FinishStep(k, success, now) => s.(store := FinishDiagnosis(s.store, k, success, now))
    case AdvanceStep(now) => s.(store := Advance(s.store, now))
    case SweepStep(now) => s.(store := Sweep(s.store, now))
    case RefreshStep(event) => s.(store := Refresh(s.store, {event}))
    case RetryStep(event, now) => s.(store := Retry(s.store, event, now))
    case DropStep(subscription) => s.(store := DropSubscription(s.store, subscription))
  }

  /** A query for a rule's subscriptions returns each one once. */
  predicate DistinctCandidates(m: RuleMatch) {
    forall a, b :: 0 <= a < b < |m.candidates| ==> m.candidates[a].subscription != m.candidates[b].subscription
  }

  predicate Feasible(step: Step) {
    step.EvaluateStep? ==> forall a :: 0 <= a < |step.matches| ==> DistinctCandidates(step.matches[a])
  }

  predicate FeasibleRun(steps: seq<Step>) {
    forall a :: 0 <= a < |steps| ==> Feasible(steps[a])
  }

  /** The state after `steps`, starting from `s`. */
  function RunFrom(s: System, steps: seq<Step>): System {
    if steps == [] then s else Apply(RunFrom(s, steps[..|steps| - 1]), steps[|steps| - 1])
  }

  function Run(steps: seq<Step>): System {
    RunFrom(EMPTY, steps)
  }

  lemma {:induction false} RunSplit(s: System, a: seq<Step>, b: seq<Step>)
    ensures RunFrom(s, a + b) == RunFrom(RunFrom(s, a), b)
  {
    if b == [] {
      assert a + b == a;
    } else {
      var front := b[..|b| - 1];
      assert (a + b)[..|a + b| - 1] == a + front;
      RunSplit(s, a, front);
    }
  }
}

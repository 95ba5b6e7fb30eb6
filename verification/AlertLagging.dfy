/** A run after which an event is stored as sent although its deliveries do not sum up to
    sent. */
module AlertLagging {
  import opened Wrappers
  import opened AlertStore
  import opened AlertSystem
  import opened AlertSteps
  import opened AlertSummary
  import opened AlertExamples

  const POLICY := NotifyThenDiagnose(1, 1)
  const ENGLISH := Route("c", {}, "en-US", POLICY)
  const SPANISH := Route("c", {}, "es", POLICY)
  const FIRST := Identity("k", ENGLISH, Initial)
  const SECOND := Identity("k", SPANISH, Initial)
  const JOB := DiagnosisKey("k", "en-US", 1, 1)
  const OTHER_JOB := DiagnosisKey("k", "es", 1, 1)
  const TO_ENGLISH := Candidate(0, "c", {}, "en-US", false)
  const TO_SPANISH := Candidate(1, "c", {}, "es", false)
  const RULES := [RuleMatch(0, "run_failed", POLICY, [TO_ENGLISH]), RuleMatch(1, "run_failed", POLICY, [TO_SPANISH])]

  /** Two rules notify the same channel in different languages. */
  function Evaluated(): System {
    System(Store(map["k" := Occurrence("p", Some(0))],
                 [Event(0, "k", POLICY, EventPending), Event(1, "k", POLICY, EventPending)],
                 [OwnerRow(0, 0, FIRST, 0), OwnerRow(1, 1, SECOND, 0)],
                 map[JOB := Diagnosis(Queued, 1, 0), OTHER_JOB := Diagnosis(Queued, 1, 0)]),
           map[])
  }

  lemma EvaluatedReached()
    ensures Run([EnqueueStep("k", "p"), EvaluateStep("k", false, RULES, 0)]) == Evaluated()
  {
    var a, b := EnqueueStep("k", "p"), EvaluateStep("k", false, RULES, 0);
    RunTwo(EMPTY, a, b);
    var s := Apply(EMPTY, a).store;
    EvaluatesOne(s, "k", RULES[0], TO_ENGLISH, 0);
    var t := EvaluateRule(s, "k", false, RULES[0], 0);
    EvaluatesOne(t, "k", RULES[1], TO_SPANISH, 0);
    assert EvaluateRules(s, "k", false, RULES, 0, 0) == s;
    assert EvaluateRules(s, "k", false, RULES, 1, 0) == t;
    assert EvaluateRules(s, "k", false, RULES, 2, 0) == EvaluateRule(t, "k", false, RULES[1], 0);
  }

  /** Both messages are sent, the second after its subscription's language has become the
      first one's. */
  function Sent(): Store {
    Evaluated().store.(
      events := [Event(0, "k", POLICY, EventSent), Event(1, "k", POLICY, EventSent)],
      deliveries := [SentRow(OwnerRow(0, 0, FIRST, 0), "en-US", 0), SentRow(OwnerRow(1, 1, SECOND, 0), "en-US", 0)])
  }

  lemma SentReached()
    ensures RunFrom(Evaluated(), Send(0, 0, "en-US", 0) + Send(1, 1, "en-US", 0)).store == Sent()
  {
    var s := Evaluated();
    Sends(s, 0, 0, "en-US", 0);
    var t := RunFrom(s, Send(0, 0, "en-US", 0));
    OneSent(s.store.(deliveries := t.store.deliveries), 0);
    assert t.store.deliveries == [SentRow(OwnerRow(0, 0, FIRST, 0), "en-US", 0), OwnerRow(1, 1, SECOND, 0)];
    assert t.store.events == [Event(0, "k", POLICY, EventSent), Event(1, "k", POLICY, EventPending)];
    Sends(t, 1, 1, "en-US", 0);
    RunSplit(s, Send(0, 0, "en-US", 0), Send(1, 1, "en-US", 0));
    var u := RunFrom(t, Send(1, 1, "en-US", 0));
    assert u.store.deliveries == Sent().deliveries;
    OneSent(t.store.(deliveries := u.store.deliveries), 1);
    assert u.store.events == Sent().events;
  }

  lemma OneSent(s: Store, e: nat)
    requires e < |s.deliveries| && s.deliveries[e].event == e && s.deliveries[e].status == Status.Sent
    requires forall i :: 0 <= i < |s.deliveries| && s.deliveries[i].event == e ==> i == e
    ensures Summary(s.deliveries, e) == EventSent
  {
    assert s.deliveries[e].status in {Status.Sent};
  }

  function Completing(k: DiagnosisKey): seq<Step> {
    [StartStep(k, 0), FinishStep(k, true, 0)]
  }

  lemma Completes(s: System, k: DiagnosisKey)
    requires k in s.store.diagnoses && s.store.diagnoses[k] == Diagnosis(Queued, 1, 0)
    ensures RunFrom(s, Completing(k))
         == s.(store := s.store.(diagnoses := s.store.diagnoses[k := Diagnosis(Completed, 1, 1)]))
  {
    RunTwo(s, StartStep(k, 0), FinishStep(k, true, 0));
    var running := s.store.diagnoses[k := Diagnosis(Running, 1, 1)];
    assert running[k := Diagnosis(Completed, 1, 1)] == s.store.diagnoses[k := Diagnosis(Completed, 1, 1)];
  }

  /** Both analyses are completed. */
  function Ready(): Store {
    Sent().(diagnoses := map[JOB := Diagnosis(Completed, 1, 1), OTHER_JOB := Diagnosis(Completed, 1, 1)])
  }

  function Steps(): seq<Step> {
    [EnqueueStep("k", "p"), EvaluateStep("k", false, RULES, 0)]
    + (Send(0, 0, "en-US", 0) + Send(1, 1, "en-US", 0))
    + (Completing(JOB) + Completing(OTHER_JOB))
  }

  lemma BothComplete(s: System)
    requires s.store == Sent()
    ensures RunFrom(s, Completing(JOB) + Completing(OTHER_JOB)).store == Ready()
  {
    Completes(s, JOB);
    var t := RunFrom(s, Completing(JOB));
    assert t.store.diagnoses[OTHER_JOB] == Diagnosis(Queued, 1, 0);
    Completes(t, OTHER_JOB);
    RunSplit(s, Completing(JOB), Completing(OTHER_JOB));
    assert RunFrom(t, Completing(OTHER_JOB)).store.diagnoses == Ready().diagnoses;
  }

  /** Runs that follow one another. */
  lemma Chained(s: System, t: System, u: System, a: seq<Step>, b: seq<Step>, c: seq<Step>)
    requires RunFrom(s, a) == t && RunFrom(t, b) == u
    ensures RunFrom(s, a + b + c) == RunFrom(u, c)
  {
    RunSplit(s, a, b);
    RunSplit(s, a + b, c);
  }

  lemma ReadyReached()
    ensures Run(Steps()).store == Ready()
  {
    var first := [EnqueueStep("k", "p"), EvaluateStep("k", false, RULES, 0)];
    var sends := Send(0, 0, "en-US", 0) + Send(1, 1, "en-US", 0);
    var u := RunFrom(Evaluated(), sends);
    EvaluatedReached();
    SentReached();
    BothComplete(u);
    Chained(EMPTY, Evaluated(), u, first, sends, Completing(JOB) + Completing(OTHER_JOB));
  }

  lemma StepsFeasible()
    ensures FeasibleRun(Steps())
  {
    assert forall a :: 0 <= a < |Steps()| && Steps()[a].EvaluateStep? ==> Steps()[a].matches == RULES;
  }

  lemma BothNeedSupplements(s: Store)
    requires s == Ready()
    ensures |s.deliveries| == 2 && Originals(s, 2) == [0, 1]
  {
    assert NeedsSupplement(s, 0) && NeedsSupplement(s, 1);
    assert Originals(s, 0) == [];
    assert Originals(s, 1) == [0];
  }

  lemma ReadyIsRight(s: Store)
    requires s == Ready()
    ensures |s.events| == 2 && s.events[1].status == Summary(s.deliveries, 1) == EventSent
  {
    OneSent(s, 1);
  }

  lemma BothServed(s: Store)
    requires |s.deliveries| == 2 && Originals(s, 2) == [0, 1]
    ensures Served(s) == [0, 1]
  {
  }

  lemma SameIdentity(s: Store)
    requires s == Ready()
    ensures Rooted(s, [0, 1]) && s.deliveries[1].event == 1 && s.deliveries[0].event == 0
    ensures IdentityOf(s, [0, 1], 0) == IdentityOf(s, [0, 1], 1)
  {
  }

  lemma NotFree(s: Store, originals: seq<nat>)
    requires |originals| == 2 && Rooted(s, originals)
    requires s.deliveries[originals[0]].event == 0 && s.deliveries[originals[1]].event == 1
    requires IdentityOf(s, originals, 0) == IdentityOf(s, originals, 1)
    ensures SomeServed(s, originals, 1) && !SomeFree(s, originals, 1)
  {
    assert Serves(s, originals, 1, 1);
  }

  /** The first original takes the key that the second one's supplement would have. */
  lemma SecondIsNotFree(s: Store)
    requires s == Ready()
    ensures Rooted(s, Served(s)) && SomeServed(s, Served(s), 1) && !SomeFree(s, Served(s), 1)
  {
    BothNeedSupplements(s);
    BothServed(s);
    SameIdentity(s);
    NotFree(s, [0, 1]);
  }

  lemma LagsAfter(steps: seq<Step>)
    requires FeasibleRun(steps) && |Run(steps).store.events| == 2
    requires Run(steps).store.events[1].status == Summary(Run(steps).store.deliveries, 1) == EventSent
    requires Rooted(Run(steps).store, Served(Run(steps).store))
    requires SomeServed(Run(steps).store, Served(Run(steps).store), 1)
    requires !SomeFree(Run(steps).store, Served(Run(steps).store), 1)
    ensures 1 < |Advance(Run(steps).store, 0).events|
    ensures Advance(Run(steps).store, 0).events[1].status != Summary(Advance(Run(steps).store, 0).deliveries, 1)
  {
    Reachable(EMPTY, steps);
    AdvanceLagsExactly(Run(steps), 0, 1);
  }

  /** A run from the empty system, and an advance that leaves a right status wrong. */
  lemma LaggingWitness()
    ensures exists steps, e: nat ::
              && FeasibleRun(steps) && e < |Run(steps).store.events|
              && Run(steps).store.events[e].status == Summary(Run(steps).store.deliveries, e)
              && e < |Advance(Run(steps).store, 0).events|
              && Advance(Run(steps).store, 0).events[e].status != Summary(Advance(Run(steps).store, 0).deliveries, e)
  {
    StepsFeasible();
    ReadyReached();
    ReadyIsRight(Run(Steps()).store);
    SecondIsNotFree(Run(Steps()).store);
    LagsAfter(Steps());
  }
}

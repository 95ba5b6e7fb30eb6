/** Small runs from the empty system, for the modules that exhibit one. */
module AlertExamples {
  import opened Wrappers
  import opened AlertStore
  import opened AlertSystem

  const CHANNEL := Candidate(0, "c", {}, "en-US", false)
  const FIRST_RULE := RuleMatch(0, "run_failed", Direct, [CHANNEL])
  const OWNER := Identity("k", Route("c", {}, "en-US", Direct), Initial)

  function FirstEvaluated(): System {
    System(Store(map["k" := Occurrence("p", Some(0))], [Event(0, "k", Direct, EventPending)],
                 [NewRow(0, Some(0), OWNER, 0).(dedupeKey := Some(OWNER))], map[]), map[])
  }

  lemma RunOne(s: System, a: Step)
    ensures RunFrom(s, [a]) == Apply(s, a)
  {
    assert [a][..0] == [];
  }

  lemma RunTwo(s: System, a: Step, b: Step)
    ensures RunFrom(s, [a, b]) == Apply(Apply(s, a), b)
  {
    assert [a, b][..1] == [a];
    RunOne(s, a);
  }

  /** A rule with one new destination adds an event and its owner. */
  lemma EvaluatesOne(s: Store, key: string, m: RuleMatch, c: Candidate, now: int)
    requires m.candidates == [c] && !c.coolingDown && !EventExists(s.events, m.rule, key)
    requires KeyHolder(s.deliveries, CandidateIdentity(key, m.policy, c)).None?
    ensures EvaluateRule(s, key, false, m, now)
         == s.(events := s.events + [Event(m.rule, key, m.policy, EventPending)],
               deliveries := s.deliveries
                             + [OwnerRow(|s.events|, c.subscription, CandidateIdentity(key, m.policy, c), now)],
               diagnoses := AttachDiagnosis(s.diagnoses, AttachedKey(m.policy, key, c.language), now))
  {
    var e := |s.events|;
    var created := s.(events := s.events + [Event(m.rule, key, m.policy, EventPending)]);
    assert EvaluateCandidates(created, e, key, m, 0, now) == created;
    var t := EvaluateCandidates(created, e, key, m, 1, now);
    assert t == EvaluateCandidate(created, e, key, m.policy, c, now);
    assert t.deliveries[|s.deliveries|].status in {Pending, Sending, Diagnosing};
    assert Refresh(t, {e}).events == t.events;
  }

  lemma FirstEvaluatedReached()
    ensures Run([EnqueueStep("k", "p"), EvaluateStep("k", false, [FIRST_RULE], 0)]) == FirstEvaluated()
  {
    var a, b := EnqueueStep("k", "p"), EvaluateStep("k", false, [FIRST_RULE], 0);
    RunTwo(EMPTY, a, b);
    var s := Apply(EMPTY, a).store;
    EvaluatesOne(s, "k", FIRST_RULE, CHANNEL, 0);
    assert EvaluateRules(s, "k", false, [FIRST_RULE], 0, 0) == s;
    assert EvaluateRules(s, "k", false, [FIRST_RULE], 1, 0) == EvaluateRule(s, "k", false, FIRST_RULE, 0);
  }

  /** What a worker leaves of row `i` when it claims it, finds the subscription's language to
      be `language`, and reports that the message was delivered, all at `now`. */
  function SentRow(r: Delivery, language: string, now: int): Delivery {
    r.(status := Sent, attempts := r.attempts + 1, claims := r.claims + 1, claimedAt := Some(now), claimToken := None,
       sentAt := Some(now), nextAttemptAt := now + Backoff(r.attempts + 1),
       destination := r.destination.(route := r.destination.route.(language := language)))
  }

  function Send(token: nat, i: nat, language: string, now: int): seq<Step> {
    [ClaimStep(token, i, now), ReadStep(token)] + [RelabelStep(token, language), FinaliseStep(token, Delivered, now)]
  }

  /** The system in which a new worker has loaded row `i`, which now is `row`. */
  function Working(s: System, token: nat, i: nat, row: Delivery, read: Delivery): System
    requires i < |s.store.deliveries|
  {
    System(s.store.(deliveries := s.store.deliveries[i := row]), s.workers[token := Worker(i, Some(read))])
  }

  lemma ClaimsAndLoads(s: System, token: nat, i: nat, now: int)
    requires CanClaim(s, token, i, now)
    ensures var row := ClaimRow(s.store.deliveries[i], token, now);
            RunFrom(s, [ClaimStep(token, i, now), ReadStep(token)]) == Working(s, token, i, row, row)
  {
    var row := ClaimRow(s.store.deliveries[i], token, now);
    RunTwo(s, ClaimStep(token, i, now), ReadStep(token));
    var claimed := Claim(s, token, i, now);
    assert claimed.workers[token] == Worker(i, None) && claimed.store.deliveries[i] == row;
    assert Load(claimed, token).workers == s.workers[token := Worker(i, Some(row))];
  }

  lemma Relabels(s: System, token: nat, i: nat, row: Delivery, language: string)
    requires i < |s.store.deliveries|
    ensures var to := row.(destination := row.destination.(route := row.destination.route.(language := language)));
            Relabel(Working(s, token, i, row, row), token, language) == Working(s, token, i, to, row)
  {
    var rows := s.store.deliveries;
    var to := row.(destination := row.destination.(route := row.destination.route.(language := language)));
    assert rows[i := row][i := to] == rows[i := to];
  }

  lemma Delivers(s: System, token: nat, i: nat, row: Delivery, read: Delivery, now: int)
    requires i < |s.store.deliveries| && row.claimToken == Some(token) && read.event == row.event
    ensures var rows := s.store.deliveries[i := FinalRow(row, read.attempts, Delivered, now)];
            Finish(Working(s, token, i, row, read), token, Delivered, now)
            == System(Refresh(s.store.(deliveries := rows), {row.event}), s.workers[token := Worker(i, Some(read))])
  {
    var rows, last := s.store.deliveries, FinalRow(row, read.attempts, Delivered, now);
    assert rows[i := row][i := last] == rows[i := last];
  }

  lemma Sends(s: System, token: nat, i: nat, language: string, now: int)
    requires CanClaim(s, token, i, now)
    ensures var rows := s.store.deliveries;
            RunFrom(s, Send(token, i, language, now))
            == System(Refresh(s.store.(deliveries := rows[i := SentRow(rows[i], language, now)]), {rows[i].event}),
                      s.workers[token := Worker(i, Some(ClaimRow(rows[i], token, now)))])
  {
    var rows := s.store.deliveries;
    var row := ClaimRow(rows[i], token, now);
    var to := row.(destination := row.destination.(route := row.destination.route.(language := language)));
    var loaded := Working(s, token, i, row, row);
    ClaimsAndLoads(s, token, i, now);
    RunSplit(s, [ClaimStep(token, i, now), ReadStep(token)],
             [RelabelStep(token, language), FinaliseStep(token, Delivered, now)]);
    RunTwo(loaded, RelabelStep(token, language), FinaliseStep(token, Delivered, now));
    Relabels(s, token, i, row, language);
    Delivers(s, token, i, to, row, now);
    assert FinalRow(to, row.attempts, Delivered, now) == SentRow(rows[i], language, now);
  }
}

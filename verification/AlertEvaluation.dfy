/** What evaluating an occurrence adds: one row for each destination of each rule it matches
    for the first time, and the analyses these ask for. */
module AlertEvaluation {
  import opened Wrappers
  import opened AlertStore
  import opened AlertSystem
  import opened AlertInvariant
  import opened AlertSteps
  import opened AlertHistory
  import opened AlertQueue

  // ------------------------------------------- the row of a destination

  /** Row `i` is the one that evaluation at `now` adds for the candidate of a rule's match. */
  predicate IsRowOf(s: Store, i: nat, sourceKey: string, m: RuleMatch, c: Candidate, now: int) {
    && i < |s.deliveries|
    && var r := s.deliveries[i];
       && r.event < |s.events| && s.events[r.event].rule == m.rule && s.events[r.event].sourceKey == sourceKey
       && s.events[r.event].policy == m.policy
       && r.subscription == Some(c.subscription) && r.phase == Initial
       && r.destination.route == Route(c.channel, c.recipients, c.language, m.policy)
       && r.identity == Identity(sourceKey, r.destination.route, Initial)
       && r.attempts == 0 && r.nextAttemptAt == now
       && r.claimedAt.None? && r.claimToken.None? && r.sentAt.None?
       && (if c.coolingDown then IsSilent(r)
           else if KeyTaken(s.deliveries, i, r.identity) then IsQueuedRow(s.deliveries, i)
           else IsOwnerRow(s, i, sourceKey, m, c))
  }

  /** An earlier row holds the key. */
  predicate KeyTaken(rows: seq<Delivery>, i: nat, id: Identity)
    requires i < |rows|
  {
    exists j :: 0 <= j < i && rows[j].dedupeKey == Some(id)
  }

  /** A suppressed row that waits for nobody. */
  predicate IsSilent(r: Delivery) {
    r.status == Suppressed && r.dedupeKey.None? && r.destination.deduplicatedBy.None? && r.diagnosis.None?
  }

  /** A suppressed row that waits behind an earlier holder of its key. */
  predicate IsQueuedRow(rows: seq<Delivery>, i: nat)
    requires i < |rows|
  {
    var owner := rows[i].destination.deduplicatedBy;
    && rows[i].status == Suppressed && rows[i].dedupeKey.None? && rows[i].diagnosis.None?
    && owner.Some? && owner.value < i && rows[owner.value].dedupeKey == Some(rows[i].identity)
  }

  /** A row that holds its key, with the analysis that its rule asks for. */
  predicate IsOwnerRow(s: Store, i: nat, sourceKey: string, m: RuleMatch, c: Candidate)
    requires i < |s.deliveries|
  {
    var r := s.deliveries[i];
    && r.dedupeKey == Some(r.identity) && r.destination.deduplicatedBy.None?
    && r.status == (if m.policy.DiagnoseFirst? then Diagnosing else Pending)
    && r.diagnosis == (if m.policy.Direct? then None
                       else Some(DiagnosisKey(sourceKey, c.language, m.policy.maxTokens, m.policy.timeout)))
    && (r.diagnosis.Some? ==> r.diagnosis.value in s.diagnoses)
  }

  /** New analyses wait for their claim, with the deadline that their rule allows from `now`
      on; those that were there are left alone. */
  predicate JobsAdded(d: map<DiagnosisKey, Diagnosis>, e: map<DiagnosisKey, Diagnosis>, now: int) {
    && (forall k :: k in d ==> k in e && e[k] == d[k])
    && (forall k :: k in e && k !in d ==> e[k] == Diagnosis(Queued, now + k.timeout, 0))
  }

  /** `t` has more rows and events than `s`, none of the rows skipped. */
  ghost predicate Grown(s: Store, t: Store, now: int) {
    && s.deliveries <= t.deliveries && s.events <= t.events && JobsAdded(s.diagnoses, t.diagnoses, now)
    && forall i :: |s.deliveries| <= i < |t.deliveries| ==> t.deliveries[i].status != Skipped
  }

  lemma GrownTransitive(s: Store, t: Store, u: Store, now: int)
    requires Grown(s, t, now) && Grown(t, u, now)
    ensures Grown(s, u, now)
  {
    assert forall i :: 0 <= i < |t.deliveries| ==> u.deliveries[i] == t.deliveries[i];
  }

  lemma RowOfGrown(s: Store, t: Store, i: nat, sourceKey: string, m: RuleMatch, c: Candidate, now: int)
    requires Grown(s, t, now) && IsRowOf(s, i, sourceKey, m, c, now)
    ensures IsRowOf(t, i, sourceKey, m, c, now)
  {
    assert t.deliveries[i] == s.deliveries[i] && t.events[s.deliveries[i].event] == s.events[s.deliveries[i].event];
    assert forall j :: 0 <= j < |s.deliveries| ==> t.deliveries[j] == s.deliveries[j];
  }

  predicate IsEventOf(events: seq<Event>, event: nat, sourceKey: string, m: RuleMatch) {
    && event < |events| && events[event].rule == m.rule && events[event].sourceKey == sourceKey
    && events[event].policy == m.policy
  }

  lemma CandidateGrows(s: Store, event: nat, sourceKey: string, m: RuleMatch, c: Candidate, now: int)
    requires IsEventOf(s.events, event, sourceKey, m)
    ensures var t := EvaluateCandidate(s, event, sourceKey, m.policy, c, now);
            && Grown(s, t, now) && t.events == s.events && |t.deliveries| == |s.deliveries| + 1
            && IsRowOf(t, |s.deliveries|, sourceKey, m, c, now)
  {
    var t := EvaluateCandidate(s, event, sourceKey, m.policy, c, now);
    var id := CandidateIdentity(sourceKey, m.policy, c);
    var holder := KeyHolder(s.deliveries, id);
    assert forall j :: 0 <= j < |s.deliveries| ==> t.deliveries[j] == s.deliveries[j];
    assert t.deliveries[|s.deliveries|].identity == id;
    if holder.Some? {
      assert t.deliveries[holder.value].dedupeKey == Some(id);
    }
  }

  lemma {:induction false} CandidatesGrow(s: Store, event: nat, sourceKey: string, m: RuleMatch, n: nat, now: int)
    requires n <= |m.candidates|
    requires IsEventOf(s.events, event, sourceKey, m)
    ensures var t := EvaluateCandidates(s, event, sourceKey, m, n, now);
            Grown(s, t, now) && t.events == s.events && |t.deliveries| == |s.deliveries| + n
  {
    if n > 0 {
      CandidatesGrow(s, event, sourceKey, m, n - 1, now);
      var u := EvaluateCandidates(s, event, sourceKey, m, n - 1, now);
      CandidateGrows(u, event, sourceKey, m, m.candidates[n - 1], now);
      GrownTransitive(s, u, EvaluateCandidates(s, event, sourceKey, m, n, now), now);
    }
  }

  /** Candidate `b` adds the `b`-th of the new rows. */
  lemma {:induction false} CandidateRow(s: Store, event: nat, sourceKey: string, m: RuleMatch, n: nat, now: int, b: nat)
    requires b < n <= |m.candidates|
    requires IsEventOf(s.events, event, sourceKey, m)
    ensures IsRowOf(EvaluateCandidates(s, event, sourceKey, m, n, now), |s.deliveries| + b, sourceKey, m,
                    m.candidates[b], now)
    decreases n
  {
    if b < n - 1 {
      CandidateRow(s, event, sourceKey, m, n - 1, now, b);
      NextCandidateKeeps(s, event, sourceKey, m, n, now, |s.deliveries| + b, m.candidates[b]);
    } else {
      CandidatesGrow(s, event, sourceKey, m, b, now);
      RowAt(EvaluateCandidates(s, event, sourceKey, m, b, now), EvaluateCandidates(s, event, sourceKey, m, n, now),
            |s.deliveries| + b, event, sourceKey, m, m.candidates[b], now);
    }
  }

  lemma RowAt(u: Store, t: Store, i: nat, event: nat, sourceKey: string, m: RuleMatch, c: Candidate, now: int)
    requires IsEventOf(u.events, event, sourceKey, m) && i == |u.deliveries|
    requires t == EvaluateCandidate(u, event, sourceKey, m.policy, c, now)
    ensures IsRowOf(t, i, sourceKey, m, c, now)
  {
    CandidateGrows(u, event, sourceKey, m, c, now);
  }

  lemma NextCandidateKeeps(s: Store, event: nat, sourceKey: string, m: RuleMatch, n: nat, now: int,
                           i: nat, c: Candidate)
    requires 0 < n <= |m.candidates| && IsEventOf(s.events, event, sourceKey, m)
    requires IsRowOf(EvaluateCandidates(s, event, sourceKey, m, n - 1, now), i, sourceKey, m, c, now)
    ensures IsRowOf(EvaluateCandidates(s, event, sourceKey, m, n, now), i, sourceKey, m, c, now)
  {
    var u := EvaluateCandidates(s, event, sourceKey, m, n - 1, now);
    var t := EvaluateCandidates(s, event, sourceKey, m, n, now);
    assert Grown(u, t, now) by {
      CandidatesGrow(s, event, sourceKey, m, n - 1, now);
      CandidateGrows(u, event, sourceKey, m, m.candidates[n - 1], now);
    }
    RowOfGrown(u, t, i, sourceKey, m, c, now);
  }

  lemma RefreshedRow(s: Store, e: nat, i: nat, sourceKey: string, m: RuleMatch, c: Candidate, now: int)
    requires IsRowOf(s, i, sourceKey, m, c, now)
    ensures IsRowOf(Refresh(s, {e}), i, sourceKey, m, c, now)
  {
  }

  lemma RuleGrows(s: Store, key: string, running: bool, m: RuleMatch, now: int)
    ensures Grown(s, EvaluateRule(s, key, running, m, now), now)
  {
    var sourceKey := EventKey(key, running, m);
    if !EventExists(s.events, m.rule, sourceKey) {
      var created := s.(events := s.events + [Event(m.rule, sourceKey, m.policy, EventPending)]);
      CandidatesGrow(created, |s.events|, sourceKey, m, |m.candidates|, now);
    }
  }

  lemma RuleRow(s: Store, key: string, running: bool, m: RuleMatch, now: int, b: nat)
    requires b < |m.candidates| && !EventExists(s.events, m.rule, EventKey(key, running, m))
    ensures IsRowOf(EvaluateRule(s, key, running, m, now), |s.deliveries| + b, EventKey(key, running, m), m,
                    m.candidates[b], now)
  {
    var sourceKey := EventKey(key, running, m);
    var created := s.(events := s.events + [Event(m.rule, sourceKey, m.policy, EventPending)]);
    CandidateRow(created, |s.events|, sourceKey, m, |m.candidates|, now, b);
    var t := EvaluateCandidates(created, |s.events|, sourceKey, m, |m.candidates|, now);
    RefreshedRow(t, |s.events|, |s.deliveries| + b, sourceKey, m, m.candidates[b], now);
  }

  lemma {:induction false} RulesGrow(s: Store, key: string, running: bool, matches: seq<RuleMatch>, n: nat, k: nat,
                                     now: int)
    requires n <= k <= |matches|
    ensures Grown(EvaluateRules(s, key, running, matches, n, now), EvaluateRules(s, key, running, matches, k, now),
                  now)
    decreases k
  {
    if n < k {
      RulesGrow(s, key, running, matches, n, k - 1, now);
      RuleGrows(EvaluateRules(s, key, running, matches, k - 1, now), key, running, matches[k - 1], now);
      GrownTransitive(EvaluateRules(s, key, running, matches, n, now),
                      EvaluateRules(s, key, running, matches, k - 1, now),
                      EvaluateRules(s, key, running, matches, k, now), now);
    }
  }

  /** Evaluating other rules creates no event of this one. */
  lemma {:induction false} RuleStaysNew(s: Store, key: string, running: bool, matches: seq<RuleMatch>, n: nat, now: int,
                                        rule: nat, sourceKey: string)
    requires n <= |matches| && !EventExists(s.events, rule, sourceKey)
    requires forall c :: 0 <= c < n ==> matches[c].rule != rule
    ensures !EventExists(EvaluateRules(s, key, running, matches, n, now).events, rule, sourceKey)
  {
    if n > 0 {
      RuleStaysNew(s, key, running, matches, n - 1, now, rule, sourceKey);
      var u := EvaluateRules(s, key, running, matches, n - 1, now);
      OtherRule(u, key, running, matches[n - 1], now, rule, sourceKey);
    }
  }

  lemma OtherRule(s: Store, key: string, running: bool, m: RuleMatch, now: int, rule: nat, sourceKey: string)
    requires !EventExists(s.events, rule, sourceKey) && m.rule != rule
    ensures !EventExists(EvaluateRule(s, key, running, m, now).events, rule, sourceKey)
  {
    var k := EventKey(key, running, m);
    var created := s.(events := s.events + [Event(m.rule, k, m.policy, EventPending)]);
    EvaluateCandidatesAppends(created, |s.events|, k, m, |m.candidates|, now);
  }

  /** The source key and the identity under which a matched candidate is evaluated. */
  function MatchKey(step: Step, a: nat): string
    requires step.EvaluateStep? && a < |step.matches|
  {
    if step.running then step.key + ":" + step.matches[a].trigger else step.key
  }

  function MatchIdentity(step: Step, a: nat, b: nat): Identity
    requires step.EvaluateStep? && a < |step.matches| && b < |step.matches[a].candidates|
  {
    var c := step.matches[a].candidates[b];
    Identity(MatchKey(step, a), Route(c.channel, c.recipients, c.language, step.matches[a].policy), Initial)
  }

  /** The step evaluates rule match `a` for the first time, each rule being matched once. */
  predicate EvaluatesMatch(s: Store, step: Step, a: nat) {
    && step.EvaluateStep? && a < |step.matches|
    && step.key in s.outbox && (step.running || s.outbox[step.key].processedAt.None?)
    && (forall c :: 0 <= c < a ==> step.matches[c].rule != step.matches[a].rule)
    && !EventExists(s.events, step.matches[a].rule, MatchKey(step, a))
  }

  lemma RuleStep(s: Store, key: string, running: bool, matches: seq<RuleMatch>, now: int, a: nat, b: nat)
    returns (i: nat)
    requires a < |matches| && b < |matches[a].candidates|
    requires !EventExists(EvaluateRules(s, key, running, matches, a, now).events, matches[a].rule,
                          EventKey(key, running, matches[a]))
    ensures |s.deliveries| <= i
    ensures IsRowOf(EvaluateRules(s, key, running, matches, a + 1, now), i, EventKey(key, running, matches[a]),
                    matches[a], matches[a].candidates[b], now)
  {
    var u := EvaluateRules(s, key, running, matches, a, now);
    RuleRow(u, key, running, matches[a], now, b);
    RulesGrow(s, key, running, matches, 0, a, now);
    i := |u.deliveries| + b;
  }

  lemma RowOfRules(s: Store, key: string, running: bool, matches: seq<RuleMatch>, n: nat, now: int,
                   i: nat, sourceKey: string, m: RuleMatch, c: Candidate)
    requires n <= |matches| && IsRowOf(EvaluateRules(s, key, running, matches, n, now), i, sourceKey, m, c, now)
    ensures IsRowOf(EvaluateRules(s, key, running, matches, |matches|, now), i, sourceKey, m, c, now)
  {
    RulesGrow(s, key, running, matches, n, |matches|, now);
    RowOfGrown(EvaluateRules(s, key, running, matches, n, now), EvaluateRules(s, key, running, matches, |matches|, now),
               i, sourceKey, m, c, now);
  }

  /** Evaluating a match adds a row for each of its candidates. */
  lemma EvaluationRow(s: Store, step: Step, a: nat, b: nat) returns (i: nat)
    requires EvaluatesMatch(s, step, a) && b < |step.matches[a].candidates|
    ensures var t := EvaluateRules(s, step.key, step.running, step.matches, |step.matches|, step.now);
            && Grown(s, t, step.now) && |s.deliveries| <= i
            && IsRowOf(t, i, MatchKey(step, a), step.matches[a], step.matches[a].candidates[b], step.now)
  {
    var key, running, matches, now := step.key, step.running, step.matches, step.now;
    var sourceKey := MatchKey(step, a);
    assert sourceKey == EventKey(key, running, matches[a]);
    RuleStaysNew(s, key, running, matches, a, now, matches[a].rule, sourceKey);
    i := RuleStep(s, key, running, matches, now, a, b);
    RowOfRules(s, key, running, matches, a + 1, now, i, sourceKey, matches[a], matches[a].candidates[b]);
    assert Grown(s, EvaluateRules(s, key, running, matches, |matches|, now), now) by {
      RulesGrow(s, key, running, matches, 0, |matches|, now);
    }
  }

  lemma EvaluatedStore(s: System, step: Step, t: Store)
    requires step.EvaluateStep? && step.key in s.store.outbox
    requires step.running || s.store.outbox[step.key].processedAt.None?
    requires t == EvaluateRules(s.store, step.key, step.running, step.matches, |step.matches|, step.now)
    ensures Apply(s, step).store.deliveries == t.deliveries && Apply(s, step).store.events == t.events
    ensures Apply(s, step).store.diagnoses == t.diagnoses
  {
  }

  /** Evaluating an occurrence adds, for each destination of a rule it matches for the first
      time, the row described above, and touches no row, event identity or analysis that was
      there. */
  lemma {:induction false} AddsRow(s: System, step: Step, a: nat, b: nat) returns (i: nat)
    requires EvaluatesMatch(s.store, step, a) && b < |step.matches[a].candidates|
    ensures |s.store.deliveries| <= i
    ensures IsRowOf(Apply(s, step).store, i, MatchKey(step, a), step.matches[a], step.matches[a].candidates[b],
                    step.now)
    ensures Grown(s.store, Apply(s, step).store, step.now)
  {
    i := EvaluationRow(s.store, step, a, b);
    var t := EvaluateRules(s.store, step.key, step.running, step.matches, |step.matches|, step.now);
    EvaluatedStore(s, step, t);
    SameTables(s.store, t, Apply(s, step).store, i, MatchKey(step, a), step.matches[a],
               step.matches[a].candidates[b], step.now);
  }

  lemma SameTables(s: Store, t: Store, u: Store, i: nat, sourceKey: string, m: RuleMatch, c: Candidate, now: int)
    requires Grown(s, t, now) && IsRowOf(t, i, sourceKey, m, c, now)
    requires u.deliveries == t.deliveries && u.events == t.events && u.diagnoses == t.diagnoses
    ensures Grown(s, u, now) && IsRowOf(u, i, sourceKey, m, c, now)
  {
  }

  // -------------------------------------------------------- cooling down

  /** A suppressed row that waits for nobody stays as it is. */
  lemma SilentStays(s: System, step: Step, i: nat)
    requires Inv(s) && Feasible(step) && i < |s.store.deliveries|
    requires s.store.deliveries[i].status == Suppressed && s.store.deliveries[i].destination.deduplicatedBy.None?
    ensures i < |Apply(s, step).store.deliveries|
    ensures Apply(s, step).store.deliveries[i].status == Suppressed
    ensures Apply(s, step).store.deliveries[i].destination.deduplicatedBy.None?
  {
    if Skips(s, step) {
      SkipShape(s, step, i);
    } else {
      StepRows(s, step);
    }
  }

  lemma {:induction false} SilentForever(s: System, steps: seq<Step>, i: nat)
    requires Inv(s) && FeasibleRun(steps) && i < |s.store.deliveries|
    requires s.store.deliveries[i].status == Suppressed && s.store.deliveries[i].destination.deduplicatedBy.None?
    ensures i < |RunFrom(s, steps).store.deliveries|
    ensures RunFrom(s, steps).store.deliveries[i].status == Suppressed
    ensures RunFrom(s, steps).store.deliveries[i].destination.deduplicatedBy.None?
  {
    if steps != [] {
      var front := steps[..|steps| - 1];
      SilentForever(s, front, i);
      Reachable(s, front);
      SilentStays(RunFrom(s, front), steps[|steps| - 1], i);
    }
  }

  /** A destination that is cooling down gets a suppressed row without key, pointer or
      analysis, and that row is suppressed for good. */
  lemma {:induction false} CoolingDownIsSilent(s: System, step: Step, a: nat, b: nat, later: seq<Step>)
    returns (i: nat)
    requires Inv(s) && Feasible(step) && FeasibleRun(later)
    requires EvaluatesMatch(s.store, step, a) && b < |step.matches[a].candidates|
    requires step.matches[a].candidates[b].coolingDown
    ensures |s.store.deliveries| <= i < |Apply(s, step).store.deliveries|
    ensures var r := Apply(s, step).store.deliveries[i];
            && r.subscription == Some(step.matches[a].candidates[b].subscription)
            && r.identity == MatchIdentity(step, a, b)
            && r.status == Suppressed && r.dedupeKey.None? && r.diagnosis.None?
            && r.destination.deduplicatedBy.None?
    ensures i < |RunFrom(Apply(s, step), later).store.deliveries|
    ensures RunFrom(Apply(s, step), later).store.deliveries[i].status == Suppressed
  {
    i := AddsRow(s, step, a, b);
    StepInv(s, step);
    SilentForever(Apply(s, step), later, i);
  }

  // ------------------------------------------------------------- outbox

  /** Writing an occurrence leaves it with the payload, to be evaluated unless it was there
      with the same one; nothing else changes. */
  lemma EnqueuesExactly(s: Store, key: string, payload: string)
    ensures var t := Enqueue(s, key, payload);
            && key in t.outbox && t.outbox[key].payload == payload
            && t.outbox[key].processedAt
               == (if key in s.outbox && s.outbox[key].payload == payload then s.outbox[key].processedAt else None)
            && t == s.(outbox := t.outbox) && t.outbox.Keys == s.outbox.Keys + {key}
            && forall k :: k in s.outbox && k != key ==> t.outbox[k] == s.outbox[k]
  {
  }

  /** An evaluation marks the occurrence.  A terminal one that is marked already, or one that
      is not there, changes nothing. */
  lemma {:induction false} EvaluatesOccurrence(s: Store, key: string, running: bool, matches: seq<RuleMatch>, now: int)
    ensures var t := Evaluate(s, key, running, matches, now);
            && (key !in s.outbox || (!running && s.outbox[key].processedAt.Some?) ==> t == s)
            && (key in s.outbox && (running || s.outbox[key].processedAt.None?) ==>
                  t.outbox == s.outbox[key := s.outbox[key].(processedAt := Some(now))])
  {
    EvaluateRulesAppends(s, key, running, matches, |matches|, now);
  }
}

/** Each occurrence is turned into events once: (rule, source key) is unique, and
    evaluating again what is already covered changes no row. */
module AlertOnce {
  import opened AlertStore
  import opened AlertSystem
  import opened AlertHistory

  ghost predicate UniqueEvents(events: seq<Event>) {
    forall a, b :: 0 <= a < b < |events| ==>
      !(events[a].rule == events[b].rule && events[a].sourceKey == events[b].sourceKey)
  }

  predicate SameEvents(a: seq<Event>, b: seq<Event>) {
    |a| == |b| && forall e :: 0 <= e < |a| ==> a[e].rule == b[e].rule && a[e].sourceKey == b[e].sourceKey
  }

  lemma EvaluateRuleEvents(s: Store, key: string, running: bool, m: RuleMatch, now: int)
    requires UniqueEvents(s.events)
    ensures UniqueEvents(EvaluateRule(s, key, running, m, now).events)
    ensures s.events <= EvaluateRule(s, key, running, m, now).events
    ensures EventExists(EvaluateRule(s, key, running, m, now).events, m.rule, EventKey(key, running, m))
  {
    var sourceKey := EventKey(key, running, m);
    if !EventExists(s.events, m.rule, sourceKey) {
      var created := s.(events := s.events + [Event(m.rule, sourceKey, m.policy, EventPending)]);
      EvaluateCandidatesAppends(created, |s.events|, sourceKey, m, |m.candidates|, now);
      var t := EvaluateRule(s, key, running, m, now);
      assert SameEvents(created.events, t.events);
      assert t.events[|s.events|].rule == m.rule && t.events[|s.events|].sourceKey == sourceKey;
    }
  }

  ghost predicate Covered(events: seq<Event>, key: string, running: bool, matches: seq<RuleMatch>, n: nat)
    requires n <= |matches|
  {
    forall a :: 0 <= a < n ==> EventExists(events, matches[a].rule, EventKey(key, running, matches[a]))
  }

  lemma {:induction false} EvaluateRulesEvents(s: Store, key: string, running: bool, matches: seq<RuleMatch>,
                                               n: nat, now: int)
    requires UniqueEvents(s.events) && n <= |matches|
    ensures UniqueEvents(EvaluateRules(s, key, running, matches, n, now).events)
    ensures Covered(EvaluateRules(s, key, running, matches, n, now).events, key, running, matches, n)
  {
    if n > 0 {
      EvaluateRulesEvents(s, key, running, matches, n - 1, now);
      var u := EvaluateRules(s, key, running, matches, n - 1, now);
      EvaluateRuleEvents(u, key, running, matches[n - 1], now);
      var t := EvaluateRule(u, key, running, matches[n - 1], now);
      forall a | 0 <= a < n - 1
        ensures EventExists(t.events, matches[a].rule, EventKey(key, running, matches[a]))
      {
        var e :| 0 <= e < |u.events| && u.events[e].rule == matches[a].rule
          && u.events[e].sourceKey == EventKey(key, running, matches[a]);
        assert t.events[e] == u.events[e];
      }
    }
  }

  lemma {:induction false} CoveredIsNoop(s: Store, key: string, running: bool, matches: seq<RuleMatch>, n: nat,
                                         now: int)
    requires n <= |matches| && Covered(s.events, key, running, matches, n)
    ensures EvaluateRules(s, key, running, matches, n, now) == s
  {
    if n > 0 {
      CoveredIsNoop(s, key, running, matches, n - 1, now);
    }
  }

  /** In every reachable state a rule has at most one event per source key. */
  lemma {:induction false} EventsUnique(steps: seq<Step>)
    ensures UniqueEvents(Run(steps).store.events)
  {
    if steps != [] {
      var front, last := steps[..|steps| - 1], steps[|steps| - 1];
      EventsUnique(front);
      var s := Run(front);
      if last.EvaluateStep? {
        EvaluateRulesEvents(s.store, last.key, last.running, last.matches, |last.matches|, last.now);
      } else {
        OtherStepsKeepEvents(s, last);
      }
    }
  }

  lemma FinaliseKeepsEvents(s: Store, token: nat, i: nat, read: Delivery, outcome: Outcome, now: int)
    ensures SameEvents(s.events, Finalise(s, token, i, read, outcome, now).events)
  {
  }

  lemma OtherStepsKeepEvents(s: System, step: Step)
    requires !step.EvaluateStep?
    ensures SameEvents(s.store.events, Apply(s, step).store.events)
  {
    if step.FinaliseStep? {
      if step.token in s.workers && s.workers[step.token].read.Some? {
        var w := s.workers[step.token];
        FinaliseKeepsEvents(s.store, step.token, w.delivery, w.read.value, step.outcome, step.now);
      }
    } else if step.AdvanceStep? {
      var released := Released(s.store, step.now);
      var originals := Batch(Originals(released, |released.deliveries|));
      assert forall j :: 0 <= j < |originals| ==> originals[j] == Originals(released, |released.deliveries|)[j];
    }
  }

  /** Evaluating the same occurrence a second time adds no event, delivery or diagnosis. */
  lemma EvaluatedOnce(s: Store, key: string, running: bool, matches: seq<RuleMatch>, now: int, later: int)
    requires UniqueEvents(s.events)
    ensures var t := Evaluate(s, key, running, matches, now);
            var u := Evaluate(t, key, running, matches, later);
            u.events == t.events && u.deliveries == t.deliveries && u.diagnoses == t.diagnoses
  {
    EvaluateRulesEvents(s, key, running, matches, |matches|, now);
    var t := Evaluate(s, key, running, matches, now);
    if key in s.outbox && (running || s.outbox[key].processedAt.None?) {
      CoveredIsNoop(t, key, running, matches, |matches|, later);
    }
  }
}

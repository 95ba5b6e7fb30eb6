/** The stored event status against the summary of the event's deliveries. */
module AlertSummary {
  import opened Wrappers
  import opened AlertStore
  import opened AlertSystem
  import opened AlertInvariant
  import opened AlertSteps
  import opened AlertHistory

  function StatusesOf(rows: seq<Delivery>, e: nat): set<Status> {
    set i | 0 <= i < |rows| && rows[i].event == e :: rows[i].status
  }

  lemma HasStatusExactly(rows: seq<Delivery>, e: nat, wanted: set<Status>)
    ensures HasStatus(rows, e, wanted) <==> exists st :: st in wanted && st in StatusesOf(rows, e)
  {
    if HasStatus(rows, e, wanted) {
      var i :| 0 <= i < |rows| && rows[i].event == e && rows[i].status in wanted;
      assert rows[i].status in StatusesOf(rows, e);
    }
  }

  /** What the summary of an event says about its rows' statuses. */
  lemma SummaryExactly(rows: seq<Delivery>, e: nat)
    ensures var statuses := StatusesOf(rows, e);
            var open := Pending in statuses || Sending in statuses || Diagnosing in statuses;
            && (Summary(rows, e) == EventPending <==> open)
            && (Summary(rows, e) == EventSent <==> statuses == {Sent})
            && (Summary(rows, e) == EventPartial <==> !open && Sent in statuses && statuses != {Sent})
            && (Summary(rows, e) == EventFailed <==> !open && Sent !in statuses && Failed in statuses)
            && (Summary(rows, e) == EventSkipped <==> statuses <= {Skipped, Suppressed})
  {
    var statuses := StatusesOf(rows, e);
    HasStatusExactly(rows, e, {Pending, Sending, Diagnosing});
    HasStatusExactly(rows, e, {Sent});
    HasStatusExactly(rows, e, {Failed, Skipped, Suppressed});
    HasStatusExactly(rows, e, {Failed});
    forall st | st in statuses
      ensures st in {Pending, Sending, Diagnosing} || st == Sent || st in {Failed, Skipped, Suppressed}
    {
      assert st.Pending? || st.Diagnosing? || st.Sending? || st.Sent? || st.Failed? || st.Skipped? || st.Suppressed?;
    }
  }

  /** Statuses that the summary cannot tell apart. */
  function Kind(s: Status): nat {
    match s
    case Pending => 0
    case Diagnosing => 0
    case Sending => 0
    case Sent => 1
    case Failed => 2
    case Skipped => 3
    case Suppressed => 4
  }

  predicate IsQuietSupplement(r: Delivery) {
    r.phase == Supplement && r.status == Suppressed
  }

  /** The stored status still says sent although a suppressed duplicate supplement has
      joined the event's sent deliveries. */
  ghost predicate Lagging(rows: seq<Delivery>, event: nat, stored: EventStatus) {
    && stored == EventSent
    && HasStatus(rows, event, {Sent})
    && HasStatus(rows, event, {Suppressed})
    && forall i :: 0 <= i < |rows| && rows[i].event == event ==> rows[i].status == Sent || IsQuietSupplement(rows[i])
  }

  ghost predicate EventAccurate(s: Store, e: nat)
    requires e < |s.events|
  {
    s.events[e].status == Summary(s.deliveries, e) || Lagging(s.deliveries, e, s.events[e].status)
  }

  /** Every event outside `stale` is summarised. */
  ghost predicate Accurate(s: Store, stale: set<nat>) {
    forall e :: 0 <= e < |s.events| && e !in stale ==> EventAccurate(s, e)
  }

  /** The event's rows keep their kinds, and rows that join it are none. */
  ghost predicate Undisturbed(rows: seq<Delivery>, after: seq<Delivery>, event: nat) {
    && |rows| <= |after|
    && (forall i :: 0 <= i < |rows| ==>
          after[i].event == rows[i].event && after[i].phase == rows[i].phase
          && (rows[i].event == event ==> Kind(after[i].status) == Kind(rows[i].status)))
    && (forall i :: |rows| <= i < |after| ==> after[i].event != event)
  }

  lemma HasStatusFrame(rows: seq<Delivery>, after: seq<Delivery>, event: nat, statuses: set<Status>)
    requires Undisturbed(rows, after, event)
    requires forall a, b :: Kind(a) == Kind(b) && a in statuses ==> b in statuses
    ensures HasStatus(rows, event, statuses) <==> HasStatus(after, event, statuses)
  {
    if HasStatus(rows, event, statuses) {
      var i :| 0 <= i < |rows| && rows[i].event == event && rows[i].status in statuses;
      assert after[i].status in statuses;
    }
    if HasStatus(after, event, statuses) {
      var i :| 0 <= i < |after| && after[i].event == event && after[i].status in statuses;
      assert rows[i].status in statuses;
    }
  }

  lemma SummaryFrame(s: Store, t: Store, e: nat)
    requires e < |s.events| && e < |t.events| && t.events[e].status == s.events[e].status
    requires Undisturbed(s.deliveries, t.deliveries, e) && EventAccurate(s, e)
    ensures EventAccurate(t, e)
  {
    HasStatusFrame(s.deliveries, t.deliveries, e, {Pending, Sending, Diagnosing});
    HasStatusFrame(s.deliveries, t.deliveries, e, {Sent});
    HasStatusFrame(s.deliveries, t.deliveries, e, {Failed, Skipped, Suppressed});
    HasStatusFrame(s.deliveries, t.deliveries, e, {Failed});
    HasStatusFrame(s.deliveries, t.deliveries, e, {Suppressed});
  }

  /** Refreshing repairs the touched events; the others must have been left alone. */
  lemma RefreshAccurate(s: Store, t: Store, touched: set<nat>, stale: set<nat>)
    requires |s.events| <= |t.events| && Accurate(s, stale)
    requires forall e :: 0 <= e < |t.events| && e !in touched && e !in stale ==>
               e < |s.events| && t.events[e].status == s.events[e].status
               && Undisturbed(s.deliveries, t.deliveries, e)
    ensures Accurate(Refresh(t, touched), stale - touched)
  {
    forall e | 0 <= e < |t.events| && e !in stale - touched
      ensures EventAccurate(Refresh(t, touched), e)
    {
      if e !in touched {
        assert EventAccurate(s, e);
        SummaryFrame(s, Refresh(t, touched), e);
      }
    }
  }

  // ------------------------------------------------------- step by step

  lemma EvaluateRuleAccurate(s: Store, key: string, running: bool, m: RuleMatch, now: int, stale: set<nat>)
    requires Accurate(s, stale)
    ensures Accurate(EvaluateRule(s, key, running, m, now), stale)
  {
    var sourceKey := EventKey(key, running, m);
    if !EventExists(s.events, m.rule, sourceKey) {
      var e := |s.events|;
      var created := s.(events := s.events + [Event(m.rule, sourceKey, m.policy, EventPending)]);
      var t := EvaluateCandidates(created, e, sourceKey, m, |m.candidates|, now);
      EvaluateCandidatesAppends(created, e, sourceKey, m, |m.candidates|, now);
      forall a | 0 <= a < e
        ensures Undisturbed(s.deliveries, t.deliveries, a)
      {
        AppendedUndisturbed(s.deliveries, t.deliveries, e, a);
      }
      RefreshAccurate(s, t, {e}, stale);
    }
  }

  lemma AppendedUndisturbed(rows: seq<Delivery>, after: seq<Delivery>, event: nat, other: nat)
    requires rows <= after && other != event
    requires forall i :: |rows| <= i < |after| ==> after[i].event == event
    ensures Undisturbed(rows, after, other)
  {
  }

  lemma {:induction false} EvaluateRulesAccurate(s: Store, key: string, running: bool, matches: seq<RuleMatch>,
                                                 n: nat, now: int, stale: set<nat>)
    requires Accurate(s, stale) && n <= |matches|
    ensures Accurate(EvaluateRules(s, key, running, matches, n, now), stale)
  {
    if n > 0 {
      EvaluateRulesAccurate(s, key, running, matches, n - 1, now, stale);
      var u := EvaluateRules(s, key, running, matches, n - 1, now);
      EvaluateRuleAccurate(u, key, running, matches[n - 1], now, stale);
    }
  }

  /** Steps that change neither the stored statuses nor the kind of any row. */
  lemma UndisturbedAccurate(s: Store, t: Store, stale: set<nat>)
    requires Accurate(s, stale) && t.events == s.events
    requires forall e :: 0 <= e < |s.events| ==> Undisturbed(s.deliveries, t.deliveries, e)
    ensures Accurate(t, stale)
  {
    forall e | 0 <= e < |s.events| && e !in stale
      ensures EventAccurate(t, e)
    {
      assert EventAccurate(s, e);
      SummaryFrame(s, t, e);
    }
  }

  lemma RetryAccurate(s: Store, event: nat, now: int, stale: set<nat>)
    requires Accurate(s, stale)
    ensures Accurate(Retry(s, event, now), stale)
  {
    var t := Retry(s, event, now);
    if event < |s.events| && HasStatus(s.deliveries, event, {Failed}) {
      var i :| 0 <= i < |s.deliveries| && s.deliveries[i].event == event && s.deliveries[i].status in {Failed};
      assert t.deliveries[i].event == event && t.deliveries[i].status == Pending;
      forall e | 0 <= e < |t.events| && e !in stale
        ensures EventAccurate(t, e)
      {
        assert EventAccurate(s, e);
        if e != event {
          SummaryFrame(s, t, e);
        }
      }
    }
  }

  /** A skip disturbs only the event of the skipped row and the event of its heir. */
  lemma FinishAccurate(s: System, token: nat, outcome: Outcome, now: int, stale: set<nat>)
    requires Inv(s) && Accurate(s.store, stale)
    ensures Accurate(Finish(s, token, outcome, now).store, stale)
  {
    if Finalising(s, token) {
      var i := s.workers[token].delivery;
      var read := s.workers[token].read.value;
      assert WorkerLease(s.workers[token], s.store.deliveries);
      WrittenAccurate(s.store, token, i, read, outcome, now, stale);
    }
  }

  /** Without a hand-over a finalisation is a write and a refresh. */
  lemma FinaliseWithoutHeir(s: Store, token: nat, i: nat, read: Delivery, outcome: Outcome, now: int)
    requires i < |s.deliveries| && s.deliveries[i].claimToken == Some(token)
    requires var rows := s.deliveries[i := FinalRow(s.deliveries[i], read.attempts, outcome, now)];
             outcome != Declined || read.dedupeKey.None? || Duplicates(rows, i, |rows|) == []
    ensures var rows := s.deliveries[i := FinalRow(s.deliveries[i], read.attempts, outcome, now)];
            Finalise(s, token, i, read, outcome, now) == Refresh(s.(deliveries := rows), {read.event})
  {
  }

  /** With one it is a write, a hand-over and two refreshes. */
  lemma FinaliseWithHeir(s: Store, token: nat, i: nat, read: Delivery, now: int)
    requires i < |s.deliveries| && s.deliveries[i].claimToken == Some(token) && read.dedupeKey.Some?
    requires var rows := s.deliveries[i := FinalRow(s.deliveries[i], read.attempts, Declined, now)];
             Duplicates(rows, i, |rows|) != []
    ensures var rows := s.deliveries[i := FinalRow(s.deliveries[i], read.attempts, Declined, now)];
            var heir := Duplicates(rows, i, |rows|)[0];
            var handed := s.(deliveries := HandOver(rows, i, heir, read, now));
            Finalise(s, token, i, read, Declined, now) == Refresh(handed, {read.event, rows[heir].event})
  {
    var rows := s.deliveries[i := FinalRow(s.deliveries[i], read.attempts, Declined, now)];
    var heir := Duplicates(rows, i, |rows|)[0];
    RefreshTwice(s.(deliveries := HandOver(rows, i, heir, read, now)), rows[heir].event, read.event);
  }

  lemma RowAccurate(s: Store, i: nat, r: Delivery, stale: set<nat>)
    requires Accurate(s, stale) && i < |s.deliveries|
    requires r.event == s.deliveries[i].event && r.phase == s.deliveries[i].phase
    ensures Accurate(Refresh(s.(deliveries := s.deliveries[i := r]), {r.event}), stale)
  {
    var written := s.(deliveries := s.deliveries[i := r]);
    forall e | e != r.event
      ensures Undisturbed(s.deliveries, written.deliveries, e)
    {
      RewrittenUndisturbed(s.deliveries, i, r, e);
    }
    RefreshAccurate(s, written, {r.event}, stale);
  }

  lemma WrittenAccurate(s: Store, token: nat, i: nat, read: Delivery, outcome: Outcome, now: int, stale: set<nat>)
    requires Accurate(s, stale) && i < |s.deliveries| && s.deliveries[i].claimToken == Some(token)
    requires read.event == s.deliveries[i].event
    ensures Accurate(Finalise(s, token, i, read, outcome, now), stale)
  {
    var rows := s.deliveries[i := FinalRow(s.deliveries[i], read.attempts, outcome, now)];
    if outcome == Declined && read.dedupeKey.Some? && Duplicates(rows, i, |rows|) != [] {
      FinaliseWithHeir(s, token, i, read, now);
      HandedAccurate(s, i, read, Duplicates(rows, i, |rows|)[0], now, stale);
    } else {
      FinaliseWithoutHeir(s, token, i, read, outcome, now);
      RowAccurate(s, i, rows[i], stale);
    }
  }

  lemma RewrittenUndisturbed(rows: seq<Delivery>, i: nat, r: Delivery, other: nat)
    requires i < |rows| && r.event == rows[i].event != other && r.phase == rows[i].phase
    ensures Undisturbed(rows, rows[i := r], other)
  {
  }

  lemma HandedAccurate(s: Store, i: nat, read: Delivery, heir: nat, now: int, stale: set<nat>)
    requires Accurate(s, stale) && i < |s.deliveries| && heir < |s.deliveries| && read.event == s.deliveries[i].event
    ensures var rows := s.deliveries[i := FinalRow(s.deliveries[i], read.attempts, Declined, now)];
            var handed := s.(deliveries := HandOver(rows, i, heir, read, now));
            Accurate(Refresh(handed, {read.event, rows[heir].event}), stale)
  {
    var rows := s.deliveries[i := FinalRow(s.deliveries[i], read.attempts, Declined, now)];
    var handed := s.(deliveries := HandOver(rows, i, heir, read, now));
    RefreshAccurate(s, handed, {read.event, rows[heir].event}, stale);
  }

  lemma RefreshTwice(s: Store, a: nat, b: nat)
    ensures Refresh(Refresh(s, {a}), {b}) == Refresh(s, {b, a})
  {
  }

  // ------------------------------------------------------------- advance

  /** Appending one supplement of an event that has a sent row: a pending one marks the
      event as touched, a suppressed one at worst makes it lag. */
  lemma SupplementAccurate(s: Store, i: nat, now: int, e: nat)
    requires i < |s.deliveries| && s.deliveries[i].event < |s.events| && s.deliveries[i].status == Sent
    requires e < |s.events| && EventAccurate(s, e)
    ensures var row := SupplementRow(s, i, now);
            (row.Some? && row.value.status == Pending && row.value.event == e)
            || EventAccurate(AddSupplement(s, i, now), e)
  {
    var row := SupplementRow(s, i, now);
    var t := AddSupplement(s, i, now);
    if row.Some? && row.value.event == e && row.value.status == Suppressed {
      assert t.deliveries == s.deliveries + [row.value];
      assert t.deliveries[|s.deliveries|] == row.value;
      assert t.deliveries[i] == s.deliveries[i];
      AppendSuppressed(s.deliveries, row.value, e);
    } else if row.None? || row.value.event != e {
      SummaryFrame(s, t, e);
    }
  }

  lemma AppendSuppressed(rows: seq<Delivery>, r: Delivery, e: nat)
    requires r.event == e && r.status == Suppressed && r.phase == Supplement
    ensures forall statuses :: HasStatus(rows + [r], e, statuses) <==>
              HasStatus(rows, e, statuses) || Suppressed in statuses
  {
    forall statuses
      ensures HasStatus(rows + [r], e, statuses) <==> HasStatus(rows, e, statuses) || Suppressed in statuses
    {
      var after := rows + [r];
      if HasStatus(rows, e, statuses) {
        var i :| 0 <= i < |rows| && rows[i].event == e && rows[i].status in statuses;
        assert after[i] == rows[i];
      }
      assert after[|rows|] == r;
    }
  }

  lemma {:induction false} SupplementsAccurate(s: Store, originals: seq<nat>, now: int, e: nat)
    requires Unserved(s, originals) && e < |s.events| && EventAccurate(s, e)
    ensures e in SupplementedEvents(s, originals, now) || EventAccurate(AddSupplements(s, originals, now), e)
    decreases |originals|
  {
    if originals != [] {
      SupplementAccurate(s, originals[0], now, e);
      RestUnserved(s, originals, now);
      var t := AddSupplement(s, originals[0], now);
      if EventAccurate(t, e) {
        SupplementsAccurate(t, originals[1..], now, e);
      }
    }
  }

  lemma ReleasedAccurate(s: Store, now: int, e: nat)
    requires e < |s.events| && EventAccurate(s, e)
    requires e !in WaitingEvents(s.deliveries, Released(s, now).diagnoses)
    ensures EventAccurate(Released(s, now), e)
  {
    assert Undisturbed(s.deliveries, Released(s, now).deliveries, e);
    SummaryFrame(s, Released(s, now), e);
  }

  lemma RefreshedAccurate(s: Store, touched: set<nat>, e: nat)
    requires e < |s.events| && (e !in touched ==> EventAccurate(s, e))
    ensures EventAccurate(Refresh(s, touched), e)
  {
    assert Refresh(s, touched).deliveries == s.deliveries;
  }

  lemma AdvanceAccurate(s: System, now: int, stale: set<nat>)
    requires Inv(s) && Accurate(s.store, stale)
    ensures Accurate(Advance(s.store, now), stale)
  {
    var released := Released(s.store, now);
    ReleasedInv(s, now);
    OriginalsUnserved(released);
    var originals := Batch(Originals(released, |released.deliveries|));
    var waiting := WaitingEvents(s.store.deliveries, released.diagnoses);
    var added := AddSupplements(released, originals, now);
    var touched := waiting + SupplementedEvents(released, originals, now);
    forall e | 0 <= e < |s.store.events| && e !in stale
      ensures EventAccurate(Refresh(added, touched), e)
    {
      if e !in touched {
        ReleasedAccurate(s.store, now, e);
        SupplementsAccurate(released, originals, now, e);
      }
      RefreshedAccurate(added, touched, e);
    }
  }

  // ------------------------------------------------------------ runs

  /** Events of the rows that a sweep fails. */
  function Swept(s: Store, now: int): set<nat> {
    set i | 0 <= i < |s.deliveries| && Exhausted(s.deliveries[i], now) :: s.deliveries[i].event
  }

  /** The sweep updates rows in one transaction and refreshes their events in later ones:
      the events whose refresh is still to come. */
  function Stale(steps: seq<Step>): set<nat> {
    if steps == [] then {}
    else
      var front := steps[..|steps| - 1];
      match steps[|steps| - 1]
      case SweepStep(now) => Stale(front) + Swept(Run(front).store, now)
      case RefreshStep(event) => Stale(front) - {event}
      case _ => Stale(front)
  }

  predicate UnderWay(r: Delivery, e: nat) {
    r.event == e && r.status in {Pending, Sending, Diagnosing}
  }

  /** An event that was right before a sweep is wrong until its refresh exactly when rows of
      it were swept and these were all that was still under way. */
  lemma SweepWrongExactly(s: Store, now: int, e: nat)
    requires e < |s.events| && s.events[e].status == Summary(s.deliveries, e)
    ensures Sweep(s, now).events[e].status != Summary(Sweep(s, now).deliveries, e) <==>
              && e in Swept(s, now)
              && forall i :: 0 <= i < |s.deliveries| && UnderWay(s.deliveries[i], e) ==> Exhausted(s.deliveries[i], now)
  {
    var open := {Pending, Sending, Diagnosing};
    var rows, after := s.deliveries, Sweep(s, now).deliveries;
    if e in Swept(s, now) {
      var k :| 0 <= k < |rows| && Exhausted(rows[k], now) && rows[k].event == e;
      assert rows[k].status in open;
      if i :| 0 <= i < |rows| && UnderWay(rows[i], e) && !Exhausted(rows[i], now) {
        assert after[i].status in open;
      }
    } else {
      SweptAlone(s, now, e);
    }
  }

  lemma SweptAlone(s: Store, now: int, e: nat)
    requires e !in Swept(s, now)
    ensures Summary(Sweep(s, now).deliveries, e) == Summary(s.deliveries, e)
  {
    var rows, after := s.deliveries, Sweep(s, now).deliveries;
    HasStatusFrame(rows, after, e, {Pending, Sending, Diagnosing});
    HasStatusFrame(rows, after, e, {Sent});
    HasStatusFrame(rows, after, e, {Failed, Skipped, Suppressed});
    HasStatusFrame(rows, after, e, {Failed});
  }

  lemma SweepAccurate(s: Store, now: int, stale: set<nat>)
    requires Accurate(s, stale)
    ensures Accurate(Sweep(s, now), stale + Swept(s, now))
  {
    forall e | 0 <= e < |s.events| && e !in stale + Swept(s, now)
      ensures EventAccurate(Sweep(s, now), e)
    {
      assert EventAccurate(s, e);
      SummaryFrame(s, Sweep(s, now), e);
    }
  }

  lemma EvaluateAccurate(s: Store, key: string, running: bool, matches: seq<RuleMatch>, now: int, stale: set<nat>)
    requires Accurate(s, stale)
    ensures Accurate(Evaluate(s, key, running, matches, now), stale)
  {
    var t := EvaluateRules(s, key, running, matches, |matches|, now);
    EvaluateRulesAccurate(s, key, running, matches, |matches|, now, stale);
    var u := Evaluate(s, key, running, matches, now);
    if u != s {
      UndisturbedAccurate(t, u, stale);
    }
  }

  /** Steps that leave every event's stored status and row kinds alone. */
  lemma OtherAccurate(s: System, step: Step, stale: set<nat>)
    requires Accurate(s.store, stale)
    requires step.EnqueueStep? || step.ReadStep? || step.StartStep? || step.FinishStep?
             || step.ClaimStep? || step.RelabelStep? || step.DropStep?
    ensures Accurate(Apply(s, step).store, stale)
  {
    UndisturbedAccurate(s.store, Apply(s, step).store, stale);
  }

  lemma StepAccurate(s: System, step: Step, stale: set<nat>)
    requires Inv(s) && Accurate(s.store, stale) && !step.SweepStep? && !step.RefreshStep?
    ensures Accurate(Apply(s, step).store, stale)
  {
    if step.EvaluateStep? {
      EvaluateAccurate(s.store, step.key, step.running, step.matches, step.now, stale);
    } else if step.FinaliseStep? {
      FinishAccurate(s, step.token, step.outcome, step.now, stale);
    } else if step.AdvanceStep? {
      AdvanceAccurate(s, step.now, stale);
    } else if step.RetryStep? {
      RetryAccurate(s.store, step.event, step.now, stale);
    } else {
      OtherAccurate(s, step, stale);
    }
  }

  /** In every reachable state the status of each event that awaits no refresh from a sweep
      is the summary of its deliveries, or lags behind it by a suppressed duplicate
      supplement. */
  lemma {:induction false} StatusIsSummary(steps: seq<Step>)
    requires FeasibleRun(steps)
    ensures Accurate(Run(steps).store, Stale(steps))
  {
    if steps != [] {
      var front, last := steps[..|steps| - 1], steps[|steps| - 1];
      StatusIsSummary(front);
      Reachable(EMPTY, front);
      var s := Run(front);
      if last.SweepStep? {
        SweepAccurate(s.store, last.now, Stale(front));
      } else if last.RefreshStep? {
        RefreshAccurate(s.store, s.store, {last.event}, Stale(front));
      } else {
        StepAccurate(s, last, Stale(front));
      }
    }
  }

  /** The two cases exclude each other: a lagging event is stored as sent but sums up to
      partial, and a refresh repairs it. */
  lemma LaggingIsWrong(s: Store, e: nat)
    requires e < |s.events| && Lagging(s.deliveries, e, s.events[e].status)
    ensures s.events[e].status == EventSent && Summary(s.deliveries, e) == EventPartial
    ensures Refresh(s, {e}).events[e].status == Summary(Refresh(s, {e}).deliveries, e)
  {
    assert Refresh(s, {e}).deliveries == s.deliveries;
  }

  // -------------------------------------------------- exactly when it lags

  /** The events that an advance refreshes. */
  function Touched(s: Store, now: int): set<nat> {
    var released := Released(s, now);
    var all := Originals(released, |released.deliveries|);
    assert forall j :: 0 <= j < |Batch(all)| ==> Batch(all)[j] == all[j] && all[j] in all;
    WaitingEvents(s.deliveries, released.diagnoses) + SupplementedEvents(released, Batch(all), now)
  }

  ghost predicate Joins(rows: seq<Delivery>, after: seq<Delivery>, e: nat) {
    exists k :: |rows| <= k < |after| && after[k].event == e
  }

  /** Rows that join an event without a pending supplement are suppressed, and the event had
      a sent row. */
  ghost predicate JoinedQuietly(rows: seq<Delivery>, after: seq<Delivery>, e: nat) {
    && rows <= after
    && (forall k :: |rows| <= k < |after| && after[k].event == e ==> after[k].status == Suppressed)
    && (Joins(rows, after, e) ==> HasStatus(rows, e, {Sent}))
  }

  lemma QuietNext(rows: seq<Delivery>, middle: seq<Delivery>, after: seq<Delivery>, e: nat)
    requires JoinedQuietly(rows, middle, e) && JoinedQuietly(middle, after, e)
    ensures JoinedQuietly(rows, after, e)
  {
    assert forall k :: 0 <= k < |middle| ==> after[k] == middle[k];
    if k :| |rows| <= k < |after| && after[k].event == e {
      if k < |middle| {
        assert middle[k].event == e;
      } else {
        var i :| 0 <= i < |middle| && middle[i].event == e && middle[i].status in {Sent};
        assert i < |rows| && rows[i] == middle[i];
      }
    }
  }

  lemma {:induction false} SupplementsJoinQuietly(s: Store, originals: seq<nat>, now: int, e: nat)
    requires Unserved(s, originals) && e !in SupplementedEvents(s, originals, now)
    ensures JoinedQuietly(s.deliveries, AddSupplements(s, originals, now).deliveries, e)
    decreases |originals|
  {
    if originals != [] {
      var t := AddSupplement(s, originals[0], now);
      assert s.deliveries[originals[0]].status in {Sent};
      assert JoinedQuietly(s.deliveries, t.deliveries, e);
      RestUnserved(s, originals, now);
      SupplementsJoinQuietly(t, originals[1..], now, e);
      QuietNext(s.deliveries, t.deliveries, AddSupplements(s, originals, now).deliveries, e);
    }
  }

  lemma QuietStatus(rows: seq<Delivery>, after: seq<Delivery>, e: nat, statuses: set<Status>)
    requires JoinedQuietly(rows, after, e)
    ensures HasStatus(after, e, statuses) <==>
              HasStatus(rows, e, statuses) || (Suppressed in statuses && Joins(rows, after, e))
  {
    assert forall k :: 0 <= k < |rows| ==> after[k] == rows[k];
    if Suppressed in statuses && Joins(rows, after, e) {
      var k :| |rows| <= k < |after| && after[k].event == e;
      assert after[k].status in statuses;
    }
    if i :| 0 <= i < |after| && after[i].event == e && after[i].status in statuses {
      if i < |rows| {
        assert rows[i].status in statuses;
      }
    }
  }

  lemma QuietSummary(rows: seq<Delivery>, after: seq<Delivery>, e: nat)
    requires JoinedQuietly(rows, after, e)
    ensures Summary(after, e) != Summary(rows, e) <==> Summary(rows, e) == EventSent && Joins(rows, after, e)
  {
    QuietStatus(rows, after, e, {Pending, Sending, Diagnosing});
    QuietStatus(rows, after, e, {Sent});
    QuietStatus(rows, after, e, {Failed, Skipped, Suppressed});
    QuietStatus(rows, after, e, {Failed});
  }

  lemma ReleasedSummary(s: Store, now: int, e: nat)
    requires e !in WaitingEvents(s.deliveries, Released(s, now).diagnoses)
    ensures Summary(Released(s, now).deliveries, e) == Summary(s.deliveries, e)
  {
    var rows, after := s.deliveries, Released(s, now).deliveries;
    HasStatusFrame(rows, after, e, {Pending, Sending, Diagnosing});
    HasStatusFrame(rows, after, e, {Sent});
    HasStatusFrame(rows, after, e, {Failed, Skipped, Suppressed});
    HasStatusFrame(rows, after, e, {Failed});
  }

  lemma UntouchedByAdvance(s: System, now: int, e: nat)
    requires Inv(s) && e < |s.store.events| && e !in Touched(s.store, now)
    ensures var rows, after := Released(s.store, now).deliveries, Advance(s.store, now).deliveries;
            && JoinedQuietly(rows, after, e)
            && Summary(rows, e) == Summary(s.store.deliveries, e)
            && Advance(s.store, now).events[e] == s.store.events[e]
  {
    var released := Released(s.store, now);
    ReleasedInv(s, now);
    OriginalsUnserved(released);
    SupplementsJoinQuietly(released, Batch(Originals(released, |released.deliveries|)), now, e);
    ReleasedSummary(s.store, now, e);
  }

  /** In terms of the rows that the advance adds. */
  lemma AdvanceLagsByRows(s: System, now: int, e: nat)
    requires Inv(s) && e < |s.store.events|
    requires s.store.events[e].status == Summary(s.store.deliveries, e)
    ensures e < |Advance(s.store, now).events|
    ensures Advance(s.store, now).events[e].status != Summary(Advance(s.store, now).deliveries, e) <==>
              && e !in Touched(s.store, now)
              && s.store.events[e].status == EventSent
              && Joins(s.store.deliveries, Advance(s.store, now).deliveries, e)
  {
    if e !in Touched(s.store, now) {
      UntouchedByAdvance(s, now, e);
      QuietSummary(Released(s.store, now).deliveries, Advance(s.store, now).deliveries, e);
    }
  }

  // ------------------------------------- the same on the state before

  /** The originals that an advance will serve. */
  function Served(s: Store): (b: seq<nat>)
    ensures forall a :: 0 <= a < |b| ==> b[a] < |s.deliveries| && NeedsSupplement(s, b[a])
  {
    var all := Originals(s, |s.deliveries|);
    assert forall a :: 0 <= a < |Batch(all)| ==> Batch(all)[a] == all[a] && all[a] in all;
    Batch(all)
  }

  ghost predicate Serves(s: Store, originals: seq<nat>, a: int, e: nat)
    requires Rooted(s, originals)
  {
    0 <= a < |originals| && s.deliveries[originals[a]].event == e
  }

  function IdentityOf(s: Store, originals: seq<nat>, a: nat): Identity
    requires Rooted(s, originals) && a < |originals|
  {
    SupplementIdentity(s, s.deliveries[originals[a]])
  }

  /** Nobody holds the supplement's key, and no earlier original of the batch will take it. */
  ghost predicate Free(s: Store, originals: seq<nat>, a: nat)
    requires Rooted(s, originals) && a < |originals|
  {
    && KeyHolder(s.deliveries, IdentityOf(s, originals, a)).None?
    && forall c :: 0 <= c < a ==> IdentityOf(s, originals, c) != IdentityOf(s, originals, a)
  }

  /** What serving the first original does to the look-up of another one's key. */
  lemma KeyAfter(s: Store, i: nat, now: int, id: Identity)
    requires i < |s.deliveries| && s.deliveries[i].event < |s.events| && SupplementRow(s, i, now).Some?
    ensures KeyHolder(AddSupplement(s, i, now).deliveries, id).None? <==>
              KeyHolder(s.deliveries, id).None? && id != SupplementIdentity(s, s.deliveries[i])
  {
    var t := AddSupplement(s, i, now);
    var own := SupplementIdentity(s, s.deliveries[i]);
    assert t.deliveries[|s.deliveries|] == SupplementRow(s, i, now).value;
    assert forall k :: 0 <= k < |s.deliveries| ==> t.deliveries[k] == s.deliveries[k];
    if id == own && KeyHolder(s.deliveries, id).Some? {
      assert t.deliveries[KeyHolder(s.deliveries, id).value].dedupeKey == Some(id);
    }
  }

  lemma FreeAfter(s: Store, originals: seq<nat>, now: int, a: nat)
    requires Rooted(s, originals) && a + 1 < |originals| && SupplementRow(s, originals[0], now).Some?
    requires Rooted(AddSupplement(s, originals[0], now), originals[1..])
    ensures Free(AddSupplement(s, originals[0], now), originals[1..], a) <==> Free(s, originals, a + 1)
  {
    var t, rest := AddSupplement(s, originals[0], now), originals[1..];
    assert forall c :: 0 <= c <= a ==> rest[c] == originals[c + 1];
    assert forall c :: 0 <= c <= a ==> IdentityOf(t, rest, c) == IdentityOf(s, originals, c + 1);
    KeyAfter(s, originals[0], now, IdentityOf(t, rest, a));
    assert IdentityOf(s, originals, 0) == SupplementIdentity(s, s.deliveries[originals[0]]);
    if Free(t, rest, a) {
      forall c | 0 <= c < a + 1
        ensures IdentityOf(s, originals, c) != IdentityOf(s, originals, a + 1)
      {
        if c > 0 {
          assert IdentityOf(t, rest, c - 1) != IdentityOf(t, rest, a);
        }
      }
    }
    if Free(s, originals, a + 1) {
      forall c | 0 <= c < a
        ensures IdentityOf(t, rest, c) != IdentityOf(t, rest, a)
      {
        assert IdentityOf(s, originals, c + 1) != IdentityOf(s, originals, a + 1);
      }
    }
  }

  /** An original without a supplement always gets a row: pending if its key is free. */
  lemma AlwaysServed(s: Store, originals: seq<nat>, now: int)
    requires Ownership(s.deliveries) && Unserved(s, originals) && originals != []
    ensures var row := SupplementRow(s, originals[0], now);
            && row.Some? && row.value.event == s.deliveries[originals[0]].event
            && (row.value.status == Pending <==> Free(s, originals, 0))
  {
    var original := s.deliveries[originals[0]];
    var holder := KeyHolder(s.deliveries, SupplementIdentity(s, original));
    assert Unsupplied(s, originals[0]);
    if holder.Some? {
      assert Keyed(s.deliveries, holder.value);
    }
  }

  ghost predicate SomeServed(s: Store, originals: seq<nat>, e: nat)
    requires Rooted(s, originals)
  {
    exists a :: Serves(s, originals, a, e)
  }

  ghost predicate SomeFree(s: Store, originals: seq<nat>, e: nat)
    requires Rooted(s, originals)
  {
    exists a :: Serves(s, originals, a, e) && Free(s, originals, a)
  }

  lemma ServedNext(s: Store, originals: seq<nat>, now: int, e: nat)
    requires Unserved(s, originals) && originals != [] && SupplementRow(s, originals[0], now).Some?
    requires Unserved(AddSupplement(s, originals[0], now), originals[1..])
    ensures var t, rest := AddSupplement(s, originals[0], now), originals[1..];
            && (SomeServed(s, originals, e) <==> Serves(s, originals, 0, e) || SomeServed(t, rest, e))
            && (SomeFree(s, originals, e) <==>
                  (Serves(s, originals, 0, e) && Free(s, originals, 0)) || SomeFree(t, rest, e))
  {
    var t, rest := AddSupplement(s, originals[0], now), originals[1..];
    forall a | 0 <= a < |rest|
      ensures Serves(t, rest, a, e) <==> Serves(s, originals, a + 1, e)
      ensures Free(t, rest, a) <==> Free(s, originals, a + 1)
    {
      assert rest[a] == originals[a + 1];
      FreeAfter(s, originals, now, a);
    }
    if a :| Serves(s, originals, a, e) && a > 0 {
      assert Serves(t, rest, a - 1, e);
    }
    if a :| Serves(s, originals, a, e) && Free(s, originals, a) && a > 0 {
      assert Serves(t, rest, a - 1, e) && Free(t, rest, a - 1);
    }
  }

  lemma {:induction false} ServedExactly(s: System, originals: seq<nat>, now: int, e: nat)
    requires Inv(s) && Unserved(s.store, originals)
    ensures e in SupplementedEvents(s.store, originals, now) <==> SomeFree(s.store, originals, e)
    ensures Joins(s.store.deliveries, AddSupplements(s.store, originals, now).deliveries, e)
            <==> SomeServed(s.store, originals, e)
    decreases |originals|
  {
    if originals != [] {
      var t := AddSupplement(s.store, originals[0], now);
      AlwaysServed(s.store, originals, now);
      RestUnserved(s.store, originals, now);
      AddFirstInv(s, originals, now);
      ServedExactly(s.(store := t), originals[1..], now, e);
      ServedNext(s.store, originals, now, e);
      JoinsNext(s.store.deliveries, t.deliveries, AddSupplements(t, originals[1..], now).deliveries, e);
    }
  }

  lemma AddFirstInv(s: System, originals: seq<nat>, now: int)
    requires Inv(s) && Unserved(s.store, originals) && originals != []
    ensures Inv(s.(store := AddSupplement(s.store, originals[0], now)))
  {
    assert Unsupplied(s.store, originals[0]);
    AddSupplementInv(s, originals[0], now);
  }

  lemma JoinsNext(rows: seq<Delivery>, middle: seq<Delivery>, after: seq<Delivery>, e: nat)
    requires rows <= middle <= after && |middle| == |rows| + 1
    ensures Joins(rows, after, e) <==> middle[|rows|].event == e || Joins(middle, after, e)
  {
    assert after[|rows|] == middle[|rows|];
  }

  lemma {:induction false} OriginalsFrame(s: Store, t: Store, n: nat)
    requires n <= |s.deliveries| && n <= |t.deliveries|
    requires forall i :: 0 <= i < n ==> (NeedsSupplement(s, i) <==> NeedsSupplement(t, i))
    ensures Originals(s, n) == Originals(t, n)
  {
    if n > 0 {
      OriginalsFrame(s, t, n - 1);
    }
  }

  lemma HasSupplementFrame(rows: seq<Delivery>, after: seq<Delivery>, event: nat, subscription: nat)
    requires |rows| == |after|
    requires forall i :: 0 <= i < |rows| ==>
               after[i].phase == rows[i].phase && after[i].event == rows[i].event
               && after[i].subscription == rows[i].subscription
    ensures HasSupplement(rows, event, subscription) <==> HasSupplement(after, event, subscription)
  {
    if HasSupplement(rows, event, subscription) {
      var i :| 0 <= i < |rows| && rows[i].phase == Phase.Supplement && rows[i].event == event
        && rows[i].subscription == Some(subscription);
      assert after[i].phase == Phase.Supplement;
    }
    if HasSupplement(after, event, subscription) {
      var i :| 0 <= i < |after| && after[i].phase == Phase.Supplement && after[i].event == event
        && after[i].subscription == Some(subscription);
      assert rows[i].phase == Phase.Supplement;
    }
  }

  /** Timing out and releasing change neither the originals nor what makes them free. */
  lemma ReleaseKeepsServed(s: Store, now: int)
    ensures Served(Released(s, now)) == Served(s)
  {
    var t := Released(s, now);
    forall i | 0 <= i < |s.deliveries|
      ensures NeedsSupplement(s, i) <==> NeedsSupplement(t, i)
    {
      if s.deliveries[i].subscription.Some? {
        HasSupplementFrame(s.deliveries, t.deliveries, s.deliveries[i].event, s.deliveries[i].subscription.value);
      }
    }
    OriginalsFrame(s, t, |s.deliveries|);
  }

  lemma KeyFrame(rows: seq<Delivery>, after: seq<Delivery>, id: Identity)
    requires |rows| == |after| && forall i :: 0 <= i < |rows| ==> after[i].dedupeKey == rows[i].dedupeKey
    ensures KeyHolder(rows, id).None? <==> KeyHolder(after, id).None?
  {
  }

  lemma ReleaseKeepsFree(s: Store, now: int, originals: seq<nat>, e: nat)
    requires Rooted(s, originals)
    ensures Rooted(Released(s, now), originals)
    ensures SomeServed(Released(s, now), originals, e) <==> SomeServed(s, originals, e)
    ensures SomeFree(Released(s, now), originals, e) <==> SomeFree(s, originals, e)
  {
    var t := Released(s, now);
    forall a | 0 <= a < |originals|
      ensures Serves(t, originals, a, e) <==> Serves(s, originals, a, e)
      ensures IdentityOf(t, originals, a) == IdentityOf(s, originals, a)
    {
    }
    forall a | 0 <= a < |originals|
      ensures Free(t, originals, a) <==> Free(s, originals, a)
    {
      KeyFrame(s.deliveries, t.deliveries, IdentityOf(s, originals, a));
    }
  }

  lemma WaitingIsPending(s: Store, d: map<DiagnosisKey, Diagnosis>, e: nat)
    requires e in WaitingEvents(s.deliveries, d)
    ensures Summary(s.deliveries, e) == EventPending
  {
    var i :| 0 <= i < |s.deliveries| && Waiting(s.deliveries[i], d) && s.deliveries[i].event == e;
    assert s.deliveries[i].status in {Pending, Sending, Diagnosing};
  }

  lemma ServedRooted(s: Store)
    requires Placed(s.deliveries, s.events)
    ensures Rooted(s, Served(s))
  {
  }

  lemma ReleasedServed(s: System, now: int)
    requires Inv(s)
    ensures Rooted(s.store, Served(s.store)) && Served(Released(s.store, now)) == Served(s.store)
    ensures Unserved(Released(s.store, now), Served(Released(s.store, now)))
    ensures Inv(s.(store := Released(s.store, now)))
  {
    ReleasedInv(s, now);
    OriginalsUnserved(Released(s.store, now));
    ServedRooted(s.store);
    ReleaseKeepsServed(s.store, now);
  }

  lemma AdvanceAddsServed(s: Store, now: int, e: nat)
    requires Rooted(Released(s, now), Served(Released(s, now)))
    ensures var released := Released(s, now);
            Joins(s.deliveries, Advance(s, now).deliveries, e)
            <==> Joins(released.deliveries, AddSupplements(released, Served(released), now).deliveries, e)
  {
  }

  /** Which rows join the event and whether it is refreshed, on the state before. */
  lemma AdvanceServes(s: System, now: int, e: nat)
    requires Inv(s)
    ensures Rooted(s.store, Served(s.store)) && Rooted(Released(s.store, now), Served(Released(s.store, now)))
    ensures e in SupplementedEvents(Released(s.store, now), Served(Released(s.store, now)), now)
            <==> SomeFree(s.store, Served(s.store), e)
    ensures Joins(s.store.deliveries, Advance(s.store, now).deliveries, e)
            <==> SomeServed(s.store, Served(s.store), e)
  {
    var released := Released(s.store, now);
    ReleasedServed(s, now);
    ReleaseKeepsFree(s.store, now, Served(s.store), e);
    ServedExactly(s.(store := released), Served(released), now, e);
    AdvanceAddsServed(s.store, now, e);
  }

  /** An advance leaves a status wrong that was right before exactly when the event was
      stored as sent, one of the originals to be served belongs to it, and none of these is
      free to take its supplement's key. */
  lemma AdvanceLagsExactly(s: System, now: int, e: nat)
    requires Inv(s) && e < |s.store.events|
    requires s.store.events[e].status == Summary(s.store.deliveries, e)
    ensures e < |Advance(s.store, now).events| && Rooted(s.store, Served(s.store))
    ensures Advance(s.store, now).events[e].status != Summary(Advance(s.store, now).deliveries, e) <==>
              && s.store.events[e].status == EventSent
              && SomeServed(s.store, Served(s.store), e)
              && !SomeFree(s.store, Served(s.store), e)
  {
    AdvanceLagsByRows(s, now, e);
    AdvanceServes(s, now, e);
    if e in WaitingEvents(s.store.deliveries, Released(s.store, now).diagnoses) {
      WaitingIsPending(s.store, Released(s.store, now).diagnoses, e);
    }
  }
}

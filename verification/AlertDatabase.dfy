/** The alert tables updated in place, as the source does it, proved against the
    transactions of AlertStore. */
module AlertDatabase {
  import opened Wrappers
  import opened AlertStore

  /** `statuses` is the set of statuses of the event's rows. */
  ghost predicate StatusSet(rows: seq<Delivery>, event: nat, statuses: set<Status>) {
    && (forall i :: 0 <= i < |rows| && rows[i].event == event ==> rows[i].status in statuses)
    && (forall st :: st in statuses ==> HasStatus(rows, event, {st}))
  }

  lemma StatusSetDecides(rows: seq<Delivery>, event: nat, statuses: set<Status>, wanted: set<Status>)
    requires StatusSet(rows, event, statuses)
    ensures HasStatus(rows, event, wanted) <==> statuses * wanted != {}
  {
    if statuses * wanted != {} {
      var st :| st in statuses * wanted;
      assert HasStatus(rows, event, {st});
    }
    if HasStatus(rows, event, wanted) {
      var i :| 0 <= i < |rows| && rows[i].event == event && rows[i].status in wanted;
      assert rows[i].status in statuses * wanted;
    }
  }

  class Database {
    var outbox: map<string, Occurrence>
    var events: seq<Event>
    var deliveries: seq<Delivery>
    var diagnoses: map<DiagnosisKey, Diagnosis>

    ghost function Contents(): Store
      reads this
    {
      Store(outbox, events, deliveries, diagnoses)
    }

    constructor ()
      ensures Contents() == Store(map[], [], [], map[])
    {
      outbox, events, deliveries, diagnoses := map[], [], [], map[];
    }

    method EnqueueOccurrence(key: string, payload: string)
      modifies this
      ensures Contents() == Enqueue(old(Contents()), key, payload)
    {
      if key !in outbox {
        outbox := outbox[key := Occurrence(payload, None)];
      } else if outbox[key].payload != payload {
        outbox := outbox[key := outbox[key].(payload := payload)];
        outbox := outbox[key := outbox[key].(processedAt := None)];
      }
    }

    /** Collect the distinct statuses of the event's deliveries, then summarise. */
    method RefreshEventStatus(event: nat)
      modifies this
      ensures Contents() == Refresh(old(Contents()), {event})
    {
      var statuses: set<Status> := {};
      for i := 0 to |deliveries|
        invariant StatusSet(deliveries[..i], event, statuses)
        invariant Contents() == old(Contents())
      {
        if deliveries[i].event == event {
          forall st | st in statuses + {deliveries[i].status}
            ensures HasStatus(deliveries[..i + 1], event, {st})
          {
            assert deliveries[..i + 1][i].status == deliveries[i].status;
            if st in statuses {
              var j :| 0 <= j < i && deliveries[..i][j].event == event && deliveries[..i][j].status in {st};
              assert deliveries[..i + 1][j] == deliveries[..i][j];
            }
          }
          statuses := statuses + {deliveries[i].status};
        } else {
          forall st | st in statuses
            ensures HasStatus(deliveries[..i + 1], event, {st})
          {
            var j :| 0 <= j < i && deliveries[..i][j].event == event && deliveries[..i][j].status in {st};
            assert deliveries[..i + 1][j] == deliveries[..i][j];
          }
        }
      }
      assert deliveries[..|deliveries|] == deliveries;
      var status := Summarise(statuses, event);
      if event < |events| {
        events := events[event := events[event].(status := status)];
      }
    }

    method Summarise(statuses: set<Status>, ghost event: nat) returns (status: EventStatus)
      requires StatusSet(deliveries, event, statuses)
      ensures status == Summary(deliveries, event)
    {
      StatusSetDecides(deliveries, event, statuses, {Pending, Sending, Diagnosing});
      StatusSetDecides(deliveries, event, statuses, {Sent});
      StatusSetDecides(deliveries, event, statuses, {Failed, Skipped, Suppressed});
      StatusSetDecides(deliveries, event, statuses, {Failed});
      if statuses * {Pending, Sending, Diagnosing} != {} {
        status := EventPending;
      } else if statuses == {Sent} {
        assert Sent in statuses * {Sent};
        status := EventSent;
      } else if Sent in statuses {
        assert Sent in statuses * {Sent};
        var other :| other in statuses && other != Sent;
        assert other !in statuses * {Pending, Sending, Diagnosing};
        assert other.Failed? || other.Skipped? || other.Suppressed?;
        assert other in statuses * {Failed, Skipped, Suppressed};
        status := EventPartial;
      } else if Failed in statuses {
        assert Failed in statuses * {Failed};
        status := EventFailed;
      } else {
        status := EventSkipped;
      }
    }

    method EvaluateRuleMatch(key: string, running: bool, m: RuleMatch, now: int)
      modifies this
      ensures Contents() == EvaluateRule(old(Contents()), key, running, m, now)
    {
      var sourceKey := if running then key + ":" + m.trigger else key;
      if EventExists(events, m.rule, sourceKey) {
        return;
      }
      var event := |events|;
      events := events + [Event(m.rule, sourceKey, m.policy, EventPending)];
      ghost var created := Contents();
      for n := 0 to |m.candidates|
        invariant Contents() == EvaluateCandidates(created, event, sourceKey, m, n, now)
      {
        var c := m.candidates[n];
        var id := DeliveryIdentity(sourceKey, Route(c.channel, c.recipients, c.language, m.policy), Initial);
        var row := NewRow(event, Some(c.subscription), id, now);
        if c.coolingDown {
          deliveries := deliveries + [row.(status := Suppressed)];
        } else {
          var original := KeyHolder(deliveries, id);
          if original.None? {
            deliveries := deliveries + [row.(dedupeKey := Some(id))];
            Attach(|deliveries| - 1, m.policy, sourceKey, now);
          } else {
            deliveries := deliveries +
              [row.(status := Suppressed, destination := row.destination.(deduplicatedBy := original))];
          }
        }
      }
      RefreshEventStatus(event);
    }

    /** `attach_diagnosis` on a row that was just created. */
    method Attach(i: nat, policy: Policy, sourceKey: string, now: int)
      requires i < |deliveries| && deliveries[i].status == Pending && deliveries[i].diagnosis.None?
      modifies this
      ensures var r := old(deliveries[i]);
              var k := AttachedKey(policy, sourceKey, r.destination.route.language);
              Contents() == old(Contents()).(
                diagnoses := AttachDiagnosis(old(diagnoses), k, now),
                deliveries := old(deliveries)[i := r.(diagnosis := k,
                  status := if policy.DiagnoseFirst? then Diagnosing else Pending)])
    {
      if policy.Direct? {
        assert deliveries[i := deliveries[i].(diagnosis := None, status := Pending)] == deliveries;
        return;
      }
      var k := DiagnosisKey(sourceKey, deliveries[i].destination.route.language, policy.maxTokens, policy.timeout);
      if k !in diagnoses {
        diagnoses := diagnoses[k := Diagnosis(Queued, now + k.timeout, 0)];
      }
      deliveries := deliveries[i := deliveries[i].(diagnosis := Some(k))];
      if policy.DiagnoseFirst? {
        deliveries := deliveries[i := deliveries[i].(status := Diagnosing)];
      }
    }

    method EvaluateOccurrence(key: string, running: bool, matches: seq<RuleMatch>, now: int)
      modifies this
      ensures Contents() == Evaluate(old(Contents()), key, running, matches, now)
    {
      if key !in outbox || (outbox[key].processedAt.Some? && !running) {
        return;
      }
      var occurrence := outbox[key];
      for n := 0 to |matches|
        invariant Contents() == EvaluateRules(old(Contents()), key, running, matches, n, now)
      {
        EvaluateRuleMatch(key, running, matches[n], now);
      }
      outbox := outbox[key := occurrence.(processedAt := Some(now))];
    }

    /** One conditional update.  Whoever wins it keeps the row for the length of the lease. */
    method ClaimDelivery(i: nat, token: nat, now: int) returns (claimed: bool)
      modifies this
      ensures claimed <==> i < |old(deliveries)| && Claimable(old(deliveries)[i], now)
      ensures Contents() == if claimed
        then old(Contents()).(deliveries := old(deliveries)[i := ClaimRow(old(deliveries)[i], token, now)])
        else old(Contents())
      ensures claimed ==> i < |deliveries| && deliveries[i].claimToken == Some(token)
      ensures claimed ==> forall later :: Claimable(deliveries[i], later) ==> later > now + LEASE_SECONDS
      ensures claimed ==> old(deliveries)[i].attempts < deliveries[i].attempts <= MAX_ATTEMPTS
      ensures claimed ==> old(deliveries)[i].status in {Pending, Sending}
    {
      claimed := i < |deliveries| && Claimable(deliveries[i], now);
      if claimed {
        deliveries := deliveries[i := ClaimRow(deliveries[i], token, now)];
      }
    }

    /** Move a skipped row's key to its oldest duplicate and re-point the others. */
    method PromoteDuplicate(owner: nat, read: Delivery, now: int)
      requires owner < |deliveries| && deliveries[owner].status != Suppressed
      modifies this
      ensures Contents() == Promote(old(Contents()), owner, read, now)
    {
      if read.dedupeKey.None? {
        return;
      }
      var duplicates := Duplicates(deliveries, owner, |deliveries|);
      if duplicates == [] {
        return;
      }
      var heir := duplicates[0];
      ghost var rows := deliveries;
      ghost var goal := HandOver(rows, owner, heir, read, now);
      deliveries := deliveries[owner := deliveries[owner].(dedupeKey := None)];
      var replacement := deliveries[heir];
      deliveries := deliveries[heir := replacement.(
        dedupeKey := read.dedupeKey, diagnosis := read.diagnosis, status := Pending, nextAttemptAt := now,
        destination := replacement.destination.(deduplicatedBy := None))];
      for i := 0 to |deliveries|
        invariant |deliveries| == |rows| && owner < |rows| && heir < |rows|
        invariant outbox == old(outbox) && events == old(events) && diagnoses == old(diagnoses)
        invariant deliveries[owner] == goal[owner] && deliveries[heir] == goal[heir]
        invariant forall j :: 0 <= j < i ==> deliveries[j] == goal[j]
        invariant forall j :: i <= j < |rows| && j != owner && j != heir ==> deliveries[j] == rows[j]
      {
        if IsDuplicate(deliveries[i], owner) {
          deliveries := deliveries[i :=
            deliveries[i].(destination := deliveries[i].destination.(deduplicatedBy := Some(heir)))];
        }
      }
      assert deliveries == goal;
      RefreshEventStatus(deliveries[heir].event);
    }

    /** The compare-and-set on the claim token, with promotion and refresh. */
    method FinaliseDelivery(i: nat, token: nat, read: Delivery, outcome: Outcome, now: int) returns (finalised: bool)
      modifies this
      ensures finalised <==> i < |old(deliveries)| && old(deliveries)[i].claimToken == Some(token)
      ensures Contents() == Finalise(old(Contents()), token, i, read, outcome, now)
    {
      var attempts := read.attempts;
      var status := match outcome
        case Declined => Skipped
        case Delivered => Sent
        case Rejected => if attempts >= MAX_ATTEMPTS then Failed else Pending;
      finalised := i < |deliveries| && deliveries[i].claimToken == Some(token);
      if finalised {
        deliveries := deliveries[i := deliveries[i].(
          status := status, attempts := attempts, claimToken := None,
          sentAt := if status == Sent then Some(now) else None,
          nextAttemptAt := now + Backoff(attempts))];
        if status == Skipped {
          PromoteDuplicate(i, read, now);
        }
        RefreshEventStatus(read.event);
      }
    }

    /** One conditional update; from then on no claim of the diagnosis succeeds. */
    method BeginDiagnosis(k: DiagnosisKey, now: int) returns (claimed: bool)
      modifies this
      ensures forall later :: later >= now ==> StartDiagnosis(Contents(), k, later) == Contents()
      ensures claimed ==> k in diagnoses && diagnoses[k].status == Running && diagnoses[k].deadline > now
      ensures claimed <==> StartDiagnosis(old(Contents()), k, now) != old(Contents())
      ensures Contents() == StartDiagnosis(old(Contents()), k, now)
    {
      claimed := k in diagnoses && diagnoses[k].status == Queued && diagnoses[k].deadline > now;
      if claimed {
        diagnoses := diagnoses[k := diagnoses[k].(status := Running, claims := diagnoses[k].claims + 1)];
        assert diagnoses[k] != old(diagnoses)[k];
      }
    }

    /** A result, or a failure, counts only while the job is running and in time; from then on
        no other result is accepted. */
    method CompleteDiagnosis(k: DiagnosisKey, success: bool, now: int) returns (changed: bool)
      modifies this
      ensures forall later, other :: later >= now ==> FinishDiagnosis(Contents(), k, other, later) == Contents()
      ensures changed ==> k in diagnoses && Final(diagnoses[k].status)
      ensures changed <==> FinishDiagnosis(old(Contents()), k, success, now) != old(Contents())
      ensures Contents() == FinishDiagnosis(old(Contents()), k, success, now)
    {
      changed := k in diagnoses && diagnoses[k].status == Running && diagnoses[k].deadline > now;
      if changed {
        diagnoses := diagnoses[k := diagnoses[k].(status := if success then Completed else Errored)];
        assert diagnoses[k] != old(diagnoses)[k];
      }
    }

    method RefreshEvents(touched: set<nat>)
      modifies this
      ensures Contents() == Refresh(old(Contents()), touched)
    {
      var rest := touched;
      while rest != {}
        invariant rest <= touched
        invariant Contents() == Refresh(old(Contents()), touched - rest)
      {
        var event :| event in rest;
        rest := rest - {event};
        RefreshEventStatus(event);
        assert touched - rest == (touched - (rest + {event})) + {event};
      }
      assert touched - rest == touched;
    }

    /** Insert the supplement of one sent original, or note that it would be a duplicate. */
    method Supplement(i: nat, now: int) returns (created: bool)
      requires i < |deliveries| && deliveries[i].event < |events|
      modifies this
      ensures Contents() == AddSupplement(old(Contents()), i, now)
      ensures created <==> SupplementRow(old(Contents()), i, now).Some?
                           && SupplementRow(old(Contents()), i, now).value.status == Pending
      ensures created ==> SupplementRow(old(Contents()), i, now).value.event == old(deliveries)[i].event
    {
      var original := deliveries[i];
      var id := DeliveryIdentity(events[original.event].sourceKey, original.destination.route, Phase.Supplement);
      var row := NewRow(original.event, original.subscription, id, now).(destination := original.destination);
      var holder := KeyHolder(deliveries, id);
      created := holder.None?;
      if created {
        deliveries := deliveries + [row.(dedupeKey := Some(id), diagnosis := original.diagnosis)];
      } else {
        var supplement := deliveries[holder.value];
        if supplement.event != original.event || supplement.subscription != original.subscription {
          if original.subscription.None?
             || !HasSupplement(deliveries, original.event, original.subscription.value) {
            deliveries := deliveries + [row.(status := Suppressed)];
          }
        }
      }
    }

    method ServeOriginals(originals: seq<nat>, now: int) returns (touched: set<nat>)
      requires Rooted(Contents(), originals)
      modifies this
      ensures Contents() == AddSupplements(old(Contents()), originals, now)
      ensures touched == SupplementedEvents(old(Contents()), originals, now)
    {
      touched := {};
      for n := 0 to |originals|
        invariant Rooted(Contents(), originals[n..])
        invariant AddSupplements(Contents(), originals[n..], now) == AddSupplements(old(Contents()), originals, now)
        invariant touched + SupplementedEvents(Contents(), originals[n..], now)
               == SupplementedEvents(old(Contents()), originals, now)
      {
        ghost var rest := originals[n..];
        assert rest[0] == originals[n] && rest[1..] == originals[n + 1..];
        var event := deliveries[originals[n]].event;
        var created := Supplement(originals[n], now);
        if created {
          touched := touched + {event};
        }
      }
      assert originals[|originals|..] == [];
    }

    method AdvanceDiagnoses(now: int)
      modifies this
      ensures Contents() == Advance(old(Contents()), now)
    {
      diagnoses := ExpireAll(diagnoses, now);
      var touched := WaitingEvents(deliveries, diagnoses);
      deliveries := Release(deliveries, diagnoses, now);
      var all := Originals(Store(outbox, events, deliveries, diagnoses), |deliveries|);
      assert forall j :: 0 <= j < |all| ==> all[j] in all;
      var added := ServeOriginals(Batch(all), now);
      RefreshEvents(touched + added);
    }
  }
}

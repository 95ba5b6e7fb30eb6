/** What one attempt leaves behind and when the next one may start, in figures. */
module AlertRetry {
  import opened Wrappers
  import opened AlertStore
  import opened AlertSystem
  import opened AlertInvariant
  import opened AlertSteps
  import opened AlertHistory
  import opened AlertExamples

  // --------------------------------------------------------------- claims

  /** A new worker can claim a row exactly when fewer than five attempts were made and it is
      pending and due, or its last claim is more than five minutes old. */
  lemma ClaimsDueExactly(s: System, token: nat, i: nat, now: int)
    ensures CanClaim(s, token, i, now) <==>
              && token !in s.workers && i < |s.store.deliveries|
              && var r := s.store.deliveries[i];
                 && r.attempts < 5
                 && ((r.status == Pending && r.nextAttemptAt <= now)
                     || (r.status == Sending && r.claimedAt.Some? && r.claimedAt.value + 300 < now))
  {
  }

  /** A claim uses an attempt and keeps the row, alone, for five minutes; after that another
      worker can claim it, if attempts are left. */
  lemma ClaimHoldsExactly(s: System, token: nat, i: nat, now: int, rival: nat, at: int)
    requires CanClaim(s, token, i, now) && rival !in s.workers && rival != token
    ensures var t := Claim(s, token, i, now);
            && |t.store.deliveries| == |s.store.deliveries|
            && t.store.deliveries[i].attempts == s.store.deliveries[i].attempts + 1 <= 5
            && t.store.deliveries[i].status == Sending && t.store.deliveries[i].claimToken == Some(token)
            && (CanClaim(t, rival, i, at) <==> s.store.deliveries[i].attempts + 1 < 5 && at > now + 300)
            && (forall j :: 0 <= j < |s.store.deliveries| && j != i ==>
                  t.store.deliveries[j] == s.store.deliveries[j])
  {
  }

  // ------------------------------------------------------- finalisations

  const DELAYS: seq<int> := [30, 60, 120, 240, 480, 960]

  lemma BackoffInFigures(a: nat)
    requires a <= 5
    ensures Backoff(a) == DELAYS[a]
  {
    assert Pow2(0) == 1 && Pow2(1) == 2 && Pow2(2) == 4 && Pow2(3) == 8 && Pow2(4) == 16;
  }

  /** What the holder of a row leaves when it finishes: the status its outcome and the
      attempts it has read call for, and the row free for the next one. */
  lemma FinishExactly(s: System, token: nat, outcome: Outcome, now: int)
    requires Inv(s) && Finalising(s, token)
    ensures var i, a := s.workers[token].delivery, s.workers[token].read.value.attempts;
            var rows := Finish(s, token, outcome, now).store.deliveries;
            && a <= 5 && |rows| == |s.store.deliveries|
            && rows[i].attempts == a && rows[i].claimToken.None?
            && rows[i].claimedAt == s.store.deliveries[i].claimedAt
            && rows[i].destination == s.store.deliveries[i].destination
            && rows[i].nextAttemptAt == now + DELAYS[a]
            && (outcome == Delivered ==> rows[i].status == Sent && rows[i].sentAt == Some(now))
            && (outcome == Declined ==> rows[i].status == Skipped && rows[i].sentAt.None?)
            && (outcome == Rejected ==>
                  rows[i].sentAt.None? && rows[i].status == if a < 5 then Pending else Failed)
  {
    var i, read := s.workers[token].delivery, s.workers[token].read.value;
    assert WorkerLease(s.workers[token], s.store.deliveries);
    BackoffInFigures(read.attempts);
    FinaliseShape(s.store, token, i, read, outcome, now);
  }

  /** A rejected delivery is tried again exactly if fewer than five attempts were made, and
      then exactly from 60, 120, 240 or 480 seconds later on (30 after an operator's reset);
      after the fifth attempt it has failed. */
  lemma RejectedRetriesExactly(s: System, token: nat, now: int, rival: nat, at: int)
    requires Inv(s) && Finalising(s, token) && rival !in s.workers
    ensures var i, a := s.workers[token].delivery, s.workers[token].read.value.attempts;
            var t := Finish(s, token, Rejected, now);
            && i < |t.store.deliveries| && a <= 5
            && (t.store.deliveries[i].status == Pending <==> a < 5)
            && (t.store.deliveries[i].status == Failed <==> a == 5)
            && (CanClaim(t, rival, i, at) <==> a < 5 && at >= now + DELAYS[a])
  {
    FinishExactly(s, token, Rejected, now);
  }

  /** From a claim to its rejection: one attempt more, and the delay that goes with it. */
  lemma OneRejection(s: System, token: nat, i: nat, claimed: int, now: int)
    requires Inv(s) && CanClaim(s, token, i, claimed)
    ensures var steps := [ClaimStep(token, i, claimed), ReadStep(token)] + [FinaliseStep(token, Rejected, now)];
            var a := s.store.deliveries[i].attempts + 1;
            var rows := RunFrom(s, steps).store.deliveries;
            && |rows| == |s.store.deliveries| && a <= 5
            && rows[i].attempts == a && rows[i].nextAttemptAt == now + DELAYS[a]
            && rows[i].status == if a < 5 then Pending else Failed
  {
    var first := [ClaimStep(token, i, claimed), ReadStep(token)];
    ClaimsAndLoads(s, token, i, claimed);
    var t := RunFrom(s, first);
    Reachable(s, first);
    RunSplit(s, first, [FinaliseStep(token, Rejected, now)]);
    RunOne(t, FinaliseStep(token, Rejected, now));
    FinishExactly(t, token, Rejected, now);
  }

  /** A row rejected before its fifth attempt can still become sent. */
  lemma RejectedCanBeSent(s: System, token: nat, now: int, rival: nat, language: string)
    requires Inv(s) && Finalising(s, token) && rival !in s.workers
    requires s.workers[token].read.value.attempts < 5
    ensures var i := s.workers[token].delivery;
            var steps := Send(rival, i, language, now + 3600);
            var rows := RunFrom(Finish(s, token, Rejected, now), steps).store.deliveries;
            i < |rows| && rows[i].status == Sent && rows[i].sentAt == Some(now + 3600)
  {
    RejectedRetriesExactly(s, token, now, rival, now + 3600);
    Sends(Finish(s, token, Rejected, now), rival, s.workers[token].delivery, language, now + 3600);
  }

  // ---------------------------------------------- sweep and operator

  /** The sweep fails exactly the rows whose lease ran out on their fifth attempt, that is,
      those that wait for a worker that is not coming and that nobody can claim. */
  lemma SweepsExactly(s: System, i: nat, now: int, token: nat)
    requires Inv(s) && i < |s.store.deliveries| && token !in s.workers
    ensures var r, b := s.store.deliveries[i], Sweep(s.store, now).deliveries[i];
            var stuck := r.status == Sending && r.claimedAt.Some? && r.claimedAt.value + 300 < now
                         && !CanClaim(s, token, i, now);
            && (stuck <==>
                  r.status == Sending && r.claimedAt.Some? && r.claimedAt.value + 300 < now && r.attempts == 5)
            && b == if stuck then r.(status := Failed) else r
  {
    assert RowLease(s.store.deliveries[i], i, s.workers);
  }

  /** An operator's retry makes exactly the failed rows of the event pending, due at once
      and with all attempts before them, and the event pending if there are any. */
  lemma RetriesExactly(s: Store, event: nat, now: int, i: nat)
    requires event < |s.events| && i < |s.deliveries|
    ensures var t := Retry(s, event, now);
            var r := s.deliveries[i];
            && |t.deliveries| == |s.deliveries| && |t.events| == |s.events|
            && t.diagnoses == s.diagnoses && t.outbox == s.outbox
            && (r.event == event && r.status == Failed ==>
                  t.deliveries[i]
                  == r.(status := Pending, attempts := 0, nextAttemptAt := now, retries := r.retries + 1)
                  && t.events[event].status == EventPending
                  && forall at :: Claimable(t.deliveries[i], at) <==> at >= now)
            && (r.event != event || r.status != Failed ==> t.deliveries[i] == r)
            && (forall e :: 0 <= e < |s.events| && e != event ==> t.events[e] == s.events[e])
            && ((forall j :: 0 <= j < |s.deliveries| && s.deliveries[j].event == event ==>
                   s.deliveries[j].status != Failed) ==> t == s)
  {
    if s.deliveries[i].event == event && s.deliveries[i].status == Failed {
      assert s.deliveries[i].status in {Failed};
    }
  }

  /** Deleting a subscription clears exactly its own deliveries' foreign key. */
  lemma DropsExactly(s: Store, subscription: nat, i: nat)
    requires i < |s.deliveries|
    ensures var t := DropSubscription(s, subscription);
            && t == s.(deliveries := t.deliveries) && |t.deliveries| == |s.deliveries|
            && t.deliveries[i].subscription
               == (if s.deliveries[i].subscription == Some(subscription) then None else s.deliveries[i].subscription)
            && t.deliveries[i] == s.deliveries[i].(subscription := t.deliveries[i].subscription)
  {
  }
}

/** Which rows an advance adds, and that it leaves the others alone. */
module AlertSupplements {
  import opened Wrappers
  import opened AlertStore
  import opened AlertSystem
  import opened AlertInvariant
  import opened AlertSteps
  import opened AlertSummary

  /** A sent base row that notifies before it diagnoses, with a completed analysis and no
      supplement yet. */
  ghost predicate IsBase(s: Store, i: int) {
    && 0 <= i < |s.deliveries|
    && var r := s.deliveries[i];
       && r.status == Sent && r.phase == Initial && r.subscription.Some?
       && r.diagnosis.Some? && r.diagnosis.value in s.diagnoses
       && s.diagnoses[r.diagnosis.value].status == Completed
       && r.event < |s.events| && s.events[r.event].policy.NotifyThenDiagnose?
       && forall j :: 0 <= j < |s.deliveries| ==> !IsSupplementOf(s.deliveries[j], r)
  }

  predicate IsSupplementOf(b: Delivery, r: Delivery) {
    b.phase == Phase.Supplement && b.event == r.event && b.subscription == r.subscription
  }

  lemma BaseExactly(s: Store, i: nat)
    requires i < |s.deliveries|
    ensures NeedsSupplement(s, i) <==> IsBase(s, i)
  {
    var r := s.deliveries[i];
    if r.subscription.Some? && HasSupplement(s.deliveries, r.event, r.subscription.value) {
      var j :| 0 <= j < |s.deliveries| && s.deliveries[j].phase == Phase.Supplement
        && s.deliveries[j].event == r.event && s.deliveries[j].subscription == Some(r.subscription.value);
      assert IsSupplementOf(s.deliveries[j], r);
    }
    if j :| 0 <= j < |s.deliveries| && IsSupplementOf(s.deliveries[j], r) && r.subscription.Some? {
      assert HasSupplement(s.deliveries, r.event, r.subscription.value);
    }
  }

  /** Row `k` is the supplement of row `r`, as it was added at `now` under the source key. */
  predicate IsNewSupplement(rows: seq<Delivery>, k: nat, r: Delivery, sourceKey: string, now: int) {
    && k < |rows|
    && IsSupplementOf(rows[k], r) && rows[k].destination == r.destination
    && rows[k].identity == Identity(sourceKey, r.destination.route, Phase.Supplement)
    && rows[k].attempts == 0 && rows[k].nextAttemptAt == now
    && rows[k].claimedAt.None? && rows[k].claimToken.None? && rows[k].sentAt.None?
    && (if exists j :: 0 <= j < k && rows[j].dedupeKey == Some(rows[k].identity)
        then rows[k].status == Suppressed && rows[k].dedupeKey.None? && rows[k].diagnosis.None?
        else rows[k].status == Pending && rows[k].dedupeKey == Some(rows[k].identity)
             && rows[k].diagnosis == r.diagnosis)
  }

  lemma NewSupplementGrown(rows: seq<Delivery>, after: seq<Delivery>, k: nat, r: Delivery, sourceKey: string, now: int)
    requires rows <= after && IsNewSupplement(rows, k, r, sourceKey, now)
    ensures IsNewSupplement(after, k, r, sourceKey, now)
  {
    assert forall j :: 0 <= j < |rows| ==> after[j] == rows[j];
  }

  lemma FirstSupplement(s: Store, originals: seq<nat>, now: int)
    requires Ownership(s.deliveries) && Unserved(s, originals) && originals != []
    ensures var t := AddSupplement(s, originals[0], now);
            var r := s.deliveries[originals[0]];
            && |t.deliveries| == |s.deliveries| + 1
            && IsNewSupplement(t.deliveries, |s.deliveries|, r, s.events[r.event].sourceKey, now)
  {
    AlwaysServed(s, originals, now);
    var t := AddSupplement(s, originals[0], now);
    var id := SupplementIdentity(s, s.deliveries[originals[0]]);
    assert forall j :: 0 <= j < |s.deliveries| ==> t.deliveries[j] == s.deliveries[j];
    assert t.deliveries[|s.deliveries|].identity == id;
    var holder := KeyHolder(s.deliveries, id);
    if holder.Some? {
      assert t.deliveries[holder.value].dedupeKey == Some(id);
    }
  }

  /** Row `i` of the batch's originals, with the source key of its event. */
  ghost predicate Supplemented(rows: seq<Delivery>, k: nat, s: Store, i: nat, now: int) {
    && i < |s.deliveries| && s.deliveries[i].event < |s.events|
    && IsNewSupplement(rows, k, s.deliveries[i], s.events[s.deliveries[i].event].sourceKey, now)
  }

  ghost predicate Serving(s: System, originals: seq<nat>) {
    Inv(s) && Unserved(s.store, originals)
  }

  lemma ServingNext(s: System, originals: seq<nat>, now: int)
    requires Serving(s, originals) && originals != []
    ensures Serving(s.(store := AddSupplement(s.store, originals[0], now)), originals[1..])
    ensures |AddSupplement(s.store, originals[0], now).deliveries| == |s.store.deliveries| + 1
  {
    FirstSupplement(s.store, originals, now);
    RestUnserved(s.store, originals, now);
    AddFirstInv(s, originals, now);
  }

  lemma {:induction false} AddsOneEach(s: System, originals: seq<nat>, now: int)
    requires Serving(s, originals)
    ensures |AddSupplements(s.store, originals, now).deliveries| == |s.store.deliveries| + |originals|
    decreases |originals|
  {
    if originals != [] {
      ServingNext(s, originals, now);
      AddsOneEach(s.(store := AddSupplement(s.store, originals[0], now)), originals[1..], now);
    }
  }

  lemma FirstOfBatch(s: Store, originals: seq<nat>, now: int)
    requires Ownership(s.deliveries) && Unserved(s, originals) && originals != []
    requires Rooted(AddSupplement(s, originals[0], now), originals[1..])
    ensures Supplemented(AddSupplements(s, originals, now).deliveries, |s.deliveries|, s, originals[0], now)
  {
    FirstSupplement(s, originals, now);
    var t := AddSupplement(s, originals[0], now);
    var r := s.deliveries[originals[0]];
    NewSupplementGrown(t.deliveries, AddSupplements(t, originals[1..], now).deliveries, |s.deliveries|, r,
                       s.events[r.event].sourceKey, now);
  }

  lemma SameOriginal(s: Store, t: Store, rows: seq<Delivery>, k: nat, i: nat, now: int)
    requires Supplemented(rows, k, t, i, now) && i < |s.deliveries|
    requires s.deliveries <= t.deliveries && t.events == s.events
    ensures Supplemented(rows, k, s, i, now)
  {
    assert t.deliveries[i] == s.deliveries[i];
  }

  ghost predicate Gets(s: Store, originals: seq<nat>, a: nat, rows: seq<Delivery>, now: int) {
    a < |originals| && Supplemented(rows, |s.deliveries| + a, s, originals[a], now)
  }

  lemma LaterOfBatch(s: Store, t: Store, originals: seq<nat>, rest: seq<nat>, a: nat, rows: seq<Delivery>, now: int)
    requires Rooted(s, originals) && originals != [] && rest == originals[1..]
    requires s.deliveries <= t.deliveries && t.events == s.events && |t.deliveries| == |s.deliveries| + 1
    requires Gets(t, rest, a, rows, now)
    ensures Gets(s, originals, a + 1, rows, now)
  {
    assert rest[a] == originals[a + 1];
    SameOriginal(s, t, rows, |s.deliveries| + a + 1, originals[a + 1], now);
  }

  /** Original `a` gets the `a`-th of the new rows. */
  lemma {:induction false} SupplementOfEach(s: System, originals: seq<nat>, now: int, a: nat)
    requires Serving(s, originals) && a < |originals|
    ensures Gets(s.store, originals, a, AddSupplements(s.store, originals, now).deliveries, now)
    decreases |originals|
  {
    ServingNext(s, originals, now);
    if a == 0 {
      FirstOfBatch(s.store, originals, now);
    } else {
      var t := AddSupplement(s.store, originals[0], now);
      var rest := originals[1..];
      SupplementOfEach(s.(store := t), rest, now, a - 1);
      LaterOfBatch(s.store, t, originals, rest, a - 1, AddSupplements(t, rest, now).deliveries, now);
    }
  }

  /** `t` has the rows of `s` but for those that were waiting. */
  ghost predicate WaitingAside(s: Store, t: Store) {
    && |t.deliveries| == |s.deliveries| && t.events == s.events
    && forall i :: 0 <= i < |s.deliveries| && s.deliveries[i].status != Diagnosing ==>
         t.deliveries[i] == s.deliveries[i]
  }

  lemma SameBase(s: Store, t: Store, rows: seq<Delivery>, k: nat, i: nat, now: int)
    requires WaitingAside(s, t) && i < |s.deliveries| && s.deliveries[i].status != Diagnosing
    requires Supplemented(rows, k, t, i, now)
    ensures Supplemented(rows, k, s, i, now)
  {
  }

  /** Rows that were not waiting are as they were, and each original has got one row. */
  ghost predicate OneRowEach(s: Store, served: seq<nat>, after: seq<Delivery>, now: int) {
    && |after| == |s.deliveries| + |served|
    && (forall i :: 0 <= i < |s.deliveries| && s.deliveries[i].status != Diagnosing ==> after[i] == s.deliveries[i])
    && (forall a :: 0 <= a < |served| ==> Supplemented(after, |s.deliveries| + a, s, served[a], now))
  }

  lemma {:induction false} BatchAdds(s: Store, t: System, served: seq<nat>, now: int)
    requires WaitingAside(s, t.store) && Serving(t, served)
    requires forall a :: 0 <= a < |served| ==> served[a] < |s.deliveries| && s.deliveries[served[a]].status == Sent
    ensures OneRowEach(s, served, AddSupplements(t.store, served, now).deliveries, now)
  {
    var after := AddSupplements(t.store, served, now).deliveries;
    AddsOneEach(t, served, now);
    forall a | 0 <= a < |served|
      ensures Supplemented(after, |s.deliveries| + a, s, served[a], now)
    {
      SupplementOfEach(t, served, now, a);
      SameBase(s, t.store, after, |s.deliveries| + a, served[a], now);
    }
  }

  lemma ServedAreSent(s: Store)
    ensures forall a :: 0 <= a < |Served(s)| ==>
              Served(s)[a] < |s.deliveries| && s.deliveries[Served(s)[a]].status == Sent
  {
    assert forall a :: 0 <= a < |Served(s)| ==> NeedsSupplement(s, Served(s)[a]);
  }

  lemma AdvanceIsServing(s: System, now: int)
    requires Inv(s)
    ensures WaitingAside(s.store, Released(s.store, now))
    ensures Serving(s.(store := Released(s.store, now)), Served(s.store))
    ensures Advance(s.store, now).deliveries == AddSupplements(Released(s.store, now), Served(s.store), now).deliveries
  {
    ReleasedServed(s, now);
  }

  /** An advance leaves every row that was not waiting as it was, and adds one row for each
      original that it serves, in their order. */
  lemma {:induction false} AdvanceAddsExactly(s: System, now: int)
    requires Inv(s)
    ensures OneRowEach(s.store, Served(s.store), Advance(s.store, now).deliveries, now)
  {
    ServedAreSent(s.store);
    AdvanceIsServing(s, now);
    BatchAdds(s.store, s.(store := Released(s.store, now)), Served(s.store), now);
  }

  /** How many base rows come before row `n`. */
  ghost function BasesBefore(s: Store, n: nat): set<int>
    requires n <= |s.deliveries|
  {
    set i | 0 <= i < n && IsBase(s, i)
  }

  /** The `a`-th of these is the base row with `a` base rows before it. */
  ghost predicate Numbered(s: Store, o: seq<nat>, n: nat)
    requires n <= |s.deliveries|
  {
    && |o| == |BasesBefore(s, n)|
    && forall a :: 0 <= a < |o| ==> IsNumber(s, o[a], n, a)
  }

  ghost predicate IsNumber(s: Store, i: nat, n: nat, a: int)
    requires n <= |s.deliveries|
  {
    i < n && IsBase(s, i) && |BasesBefore(s, i)| == a
  }

  lemma BasesNext(s: Store, n: nat)
    requires n < |s.deliveries|
    ensures |BasesBefore(s, n + 1)| == |BasesBefore(s, n)| + if IsBase(s, n) then 1 else 0
  {
    if IsBase(s, n) {
      assert BasesBefore(s, n + 1) == BasesBefore(s, n) + {n};
    } else {
      assert BasesBefore(s, n + 1) == BasesBefore(s, n);
    }
  }

  lemma {:induction false} OriginalsAreBases(s: Store, n: nat)
    requires n <= |s.deliveries|
    ensures Numbered(s, Originals(s, n), n)
  {
    if n == 0 {
      assert BasesBefore(s, 0) == {};
    } else {
      OriginalsAreBases(s, n - 1);
      BaseExactly(s, n - 1);
      BasesNext(s, n - 1);
      assert forall i: nat, a :: IsNumber(s, i, n - 1, a) ==> IsNumber(s, i, n, a);
    }
  }

  /** A row is served exactly if it is one of the first hundred base rows. */
  lemma ServesFirstHundred(s: Store, i: nat)
    requires i < |s.deliveries|
    ensures i in Served(s) <==> IsBase(s, i) && |BasesBefore(s, i)| < 100
    ensures |Served(s)| <= 100 && forall a, b :: 0 <= a < b < |Served(s)| ==> Served(s)[a] < Served(s)[b]
  {
    var n := |s.deliveries|;
    var all := Originals(s, n);
    OriginalsAreBases(s, n);
    BaseExactly(s, i);
    assert i in all <==> NeedsSupplement(s, i);
    if i in Served(s) {
      var a :| 0 <= a < |Served(s)| && Served(s)[a] == i;
      assert IsNumber(s, all[a], n, a);
    }
    if IsBase(s, i) && |BasesBefore(s, i)| < 100 {
      var a :| 0 <= a < |all| && all[a] == i;
      assert IsNumber(s, all[a], n, a);
      assert a < |Served(s)| && Served(s)[a] == i;
    }
  }
}

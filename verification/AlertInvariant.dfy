/** What every step of the alert outbox keeps. */
module AlertInvariant {
  import opened Wrappers
  import opened AlertStore
  import opened AlertSystem

  // ------------------------------------------------------- the invariant

  /** Row `i` holds its own identity's key when it must, and points only at a key holder. */
  predicate Keyed(rows: seq<Delivery>, i: nat)
    requires i < |rows|
  {
    var r := rows[i];
    var d := r.destination.deduplicatedBy;
    && r.identity.phase == r.phase
    && (r.dedupeKey.Some? ==> r.dedupeKey.value == r.identity && r.status != Suppressed)
    && (Active(r.status) ==> r.dedupeKey.Some?)
    && (d.Some? ==> r.status == Suppressed && d.value < |rows| && rows[d.value].dedupeKey == Some(r.identity))
  }

  ghost predicate Ownership(rows: seq<Delivery>) {
    && (forall i :: 0 <= i < |rows| ==> Keyed(rows, i))
    && (forall i, j :: 0 <= i < j < |rows| && rows[i].dedupeKey.Some? ==> rows[i].dedupeKey != rows[j].dedupeKey)
  }

  /** What a worker whose token is still on the row may rely on. */
  predicate Fresh(read: Delivery, r: Delivery) {
    r.attempts <= read.attempts && read.dedupeKey == r.dedupeKey && read.diagnosis == r.diagnosis
  }

  predicate RowLease(r: Delivery, i: nat, workers: map<nat, Worker>) {
    && r.attempts <= MAX_ATTEMPTS
    && r.claims <= MAX_ATTEMPTS * r.retries + r.attempts
    && (r.claimToken.Some? ==>
          && r.status in {Sending, Failed, Pending}
          && r.claimToken.value in workers
          && workers[r.claimToken.value].delivery == i
          && (workers[r.claimToken.value].read.Some? ==> Fresh(workers[r.claimToken.value].read.value, r)))
  }

  predicate WorkerLease(w: Worker, rows: seq<Delivery>) {
    && w.delivery < |rows|
    && rows[w.delivery].status !in {Suppressed, Diagnosing}
    && (w.read.Some? ==>
          && w.read.value.attempts <= MAX_ATTEMPTS
          && w.read.value.event == rows[w.delivery].event
          && w.read.value.destination.deduplicatedBy.None?)
  }

  ghost predicate Leased(rows: seq<Delivery>, workers: map<nat, Worker>) {
    && (forall i :: 0 <= i < |rows| ==> RowLease(rows[i], i, workers))
    && (forall t :: t in workers ==> WorkerLease(workers[t], rows))
  }

  /** The row's diagnosis exists and has reached a final status. */
  predicate Diagnosed(r: Delivery, d: map<DiagnosisKey, Diagnosis>) {
    r.diagnosis.Some? && r.diagnosis.value in d && Final(d[r.diagnosis.value].status)
  }

  predicate Gate(r: Delivery, d: map<DiagnosisKey, Diagnosis>) {
    && (r.status == Diagnosing ==>
          r.phase == Initial && r.identity.route.policy.DiagnoseFirst? && r.diagnosis.Some? && r.diagnosis.value in d)
    && (r.phase == Initial && r.identity.route.policy.DiagnoseFirst? && r.status !in {Suppressed, Diagnosing} ==>
          Diagnosed(r, d))
  }

  predicate JobOk(j: Diagnosis) {
    j.claims <= 1 && (j.status == Queued ==> j.claims == 0)
  }

  ghost predicate Gated(rows: seq<Delivery>, d: map<DiagnosisKey, Diagnosis>) {
    && (forall i :: 0 <= i < |rows| ==> Gate(rows[i], d))
    && (forall k :: k in d ==> JobOk(d[k]))
  }

  predicate SamePlace(a: Delivery, b: Delivery) {
    a.event == b.event && a.subscription == b.subscription && a.phase == b.phase
  }

  ghost predicate HasBase(rows: seq<Delivery>, r: Delivery) {
    exists j :: 0 <= j < |rows| && SamePlace(rows[j], r.(phase := Initial)) && rows[j].status == Sent
  }

  /** Rows belong to existing events, each (event, subscription, phase) occurs once while the
      subscription lasts, and every supplement has a sent base. */
  ghost predicate Placed(rows: seq<Delivery>, events: seq<Event>) {
    && (forall i :: 0 <= i < |rows| ==>
          rows[i].event < |events|
          && (rows[i].phase == Initial ==> rows[i].identity.route.policy == events[rows[i].event].policy))
    && (forall i, j :: 0 <= i < j < |rows| && rows[i].subscription.Some? ==> !SamePlace(rows[i], rows[j]))
    && (forall i :: 0 <= i < |rows| && rows[i].phase == Supplement ==> HasBase(rows, rows[i]))
  }

  ghost predicate StoreInv(s: Store) {
    Ownership(s.deliveries) && Gated(s.deliveries, s.diagnoses) && Placed(s.deliveries, s.events)
  }

  ghost predicate Inv(s: System) {
    StoreInv(s.store) && Leased(s.store.deliveries, s.workers)
  }

  // ------------------------------------- rewriting rows in place

  ghost predicate Progress(d: map<DiagnosisKey, Diagnosis>, e: map<DiagnosisKey, Diagnosis>) {
    && (forall k :: k in d ==> k in e && (Final(d[k].status) ==> e[k].status == d[k].status))
    && (forall k :: k in e ==> JobOk(e[k]))
  }

  /** What an in-place update of one row may do; `e` is the new diagnosis table. */
  predicate Rewrites(a: Delivery, b: Delivery, e: map<DiagnosisKey, Diagnosis>) {
    && b.event == a.event && b.phase == a.phase && b.identity == a.identity
    && b.dedupeKey == a.dedupeKey && b.diagnosis == a.diagnosis
    && b.destination.deduplicatedBy == a.destination.deduplicatedBy
    && (b.status == Suppressed <==> a.status == Suppressed)
    && (a.status in {Sent, Skipped} ==> b.status == a.status)
    && (Active(b.status) ==> Active(a.status))
    && (b.status == Diagnosing ==> a.status == Diagnosing)
    && (a.status == Diagnosing && b.status != Diagnosing ==> Waiting(a, e))
    && b.attempts <= MAX_ATTEMPTS
    && b.claims <= MAX_ATTEMPTS * b.retries + b.attempts
    && (b.claimToken.Some? ==>
          b.claimToken == a.claimToken && b.attempts <= a.attempts && b.status in {Sending, Failed, Pending})
  }

  /** Foreign keys to a subscription are kept or cleared uniformly. */
  ghost predicate UniformSubscriptions(rows: seq<Delivery>, after: seq<Delivery>)
    requires |rows| == |after|
  {
    && (forall i :: 0 <= i < |rows| ==> after[i].subscription in {rows[i].subscription, None})
    && (forall i, j :: 0 <= i < |rows| && 0 <= j < |rows| && rows[i].subscription == rows[j].subscription ==>
          after[i].subscription == after[j].subscription)
  }

  ghost predicate RewritesAll(s: Store, t: Store) {
    && |s.deliveries| == |t.deliveries|
    && |s.events| == |t.events|
    && (forall e :: 0 <= e < |s.events| ==> t.events[e].policy == s.events[e].policy)
    && (forall i :: 0 <= i < |s.deliveries| ==> Rewrites(s.deliveries[i], t.deliveries[i], t.diagnoses))
    && UniformSubscriptions(s.deliveries, t.deliveries)
    && Progress(s.diagnoses, t.diagnoses)
  }

  lemma RewriteOwnership(s: Store, t: Store)
    requires Ownership(s.deliveries) && RewritesAll(s, t)
    ensures Ownership(t.deliveries)
  {
    forall i | 0 <= i < |t.deliveries|
      ensures Keyed(t.deliveries, i)
    {
      assert Keyed(s.deliveries, i) && Rewrites(s.deliveries[i], t.deliveries[i], t.diagnoses);
      var d := s.deliveries[i].destination.deduplicatedBy;
      if d.Some? {
        assert Rewrites(s.deliveries[d.value], t.deliveries[d.value], t.diagnoses);
      }
    }
  }

  lemma RewriteGated(s: Store, t: Store)
    requires Gated(s.deliveries, s.diagnoses) && RewritesAll(s, t)
    ensures Gated(t.deliveries, t.diagnoses)
  {
    forall i | 0 <= i < |t.deliveries|
      ensures Gate(t.deliveries[i], t.diagnoses)
    {
      assert Gate(s.deliveries[i], s.diagnoses) && Rewrites(s.deliveries[i], t.deliveries[i], t.diagnoses);
    }
  }

  lemma RewritePlaced(s: Store, t: Store)
    requires Placed(s.deliveries, s.events) && RewritesAll(s, t)
    ensures Placed(t.deliveries, t.events)
  {
    var rows, after := s.deliveries, t.deliveries;
    forall i, j | 0 <= i < j < |after| && after[i].subscription.Some?
      ensures !SamePlace(after[i], after[j])
    {
      assert Rewrites(rows[i], after[i], t.diagnoses) && Rewrites(rows[j], after[j], t.diagnoses);
    }
    forall i | 0 <= i < |after| && after[i].phase == Supplement
      ensures HasBase(after, after[i])
    {
      assert Rewrites(rows[i], after[i], t.diagnoses) && HasBase(rows, rows[i]);
      var j :| 0 <= j < |rows| && SamePlace(rows[j], rows[i].(phase := Initial)) && rows[j].status == Sent;
      assert Rewrites(rows[j], after[j], t.diagnoses);
      assert SamePlace(after[j], after[i].(phase := Initial)) && after[j].status == Sent;
    }
  }

  lemma RewriteLeased(s: Store, t: Store, workers: map<nat, Worker>)
    requires Leased(s.deliveries, workers) && RewritesAll(s, t)
    ensures Leased(t.deliveries, workers)
  {
    forall i | 0 <= i < |t.deliveries|
      ensures RowLease(t.deliveries[i], i, workers)
    {
      assert RowLease(s.deliveries[i], i, workers) && Rewrites(s.deliveries[i], t.deliveries[i], t.diagnoses);
    }
    forall w | w in workers
      ensures WorkerLease(workers[w], t.deliveries)
    {
      var i := workers[w].delivery;
      assert Rewrites(s.deliveries[i], t.deliveries[i], t.diagnoses);
    }
  }

  lemma RewriteInv(s: System, t: Store)
    requires Inv(s) && RewritesAll(s.store, t)
    ensures Inv(System(t, s.workers))
  {
    RewriteOwnership(s.store, t);
    RewriteGated(s.store, t);
    RewritePlaced(s.store, t);
    RewriteLeased(s.store, t, s.workers);
  }

  /** The usual case: some rows change, subscriptions and diagnoses do not. */
  lemma Untouched(s: System, i: nat)
    requires Inv(s) && i < |s.store.deliveries|
    ensures Rewrites(s.store.deliveries[i], s.store.deliveries[i], s.store.diagnoses)
  {
    assert RowLease(s.store.deliveries[i], i, s.workers);
  }

  // ---------------------------------------------------- appending a row

  /** What a new row must satisfy to be appended. */
  ghost predicate Appendable(s: Store, r: Delivery) {
    var d := r.destination.deduplicatedBy;
    && r.identity.phase == r.phase
    && r.claimToken.None? && r.attempts == 0 && r.claims == 0 && r.retries == 0
    && (r.dedupeKey.Some? ==>
          r.dedupeKey.value == r.identity && r.status != Suppressed && KeyHolder(s.deliveries, r.identity).None?)
    && (Active(r.status) ==> r.dedupeKey.Some?)
    && (d.Some? ==>
          r.status == Suppressed && d.value < |s.deliveries| && s.deliveries[d.value].dedupeKey == Some(r.identity))
    && Gate(r, s.diagnoses)
    && r.event < |s.events|
    && (r.phase == Initial ==> r.identity.route.policy == s.events[r.event].policy)
    && (r.subscription.Some? ==> forall i :: 0 <= i < |s.deliveries| ==> !SamePlace(s.deliveries[i], r))
    && (r.phase == Supplement ==> HasBase(s.deliveries, r))
  }

  lemma AppendOwnership(s: Store, r: Delivery)
    requires Ownership(s.deliveries) && Appendable(s, r)
    ensures Ownership(s.deliveries + [r])
  {
    var rows := s.deliveries;
    var after := rows + [r];
    forall i | 0 <= i < |after|
      ensures Keyed(after, i)
    {
      if i < |rows| {
        assert Keyed(rows, i);
      }
    }
  }

  lemma AppendLeased(s: Store, r: Delivery, workers: map<nat, Worker>)
    requires Leased(s.deliveries, workers) && Appendable(s, r)
    ensures Leased(s.deliveries + [r], workers)
  {
    var rows := s.deliveries;
    var after := rows + [r];
    forall i | 0 <= i < |after|
      ensures RowLease(after[i], i, workers)
    {
      if i < |rows| {
        assert RowLease(rows[i], i, workers);
      }
    }
    forall w | w in workers
      ensures WorkerLease(workers[w], after)
    {
      assert WorkerLease(workers[w], rows);
    }
  }

  lemma AppendGated(s: Store, r: Delivery)
    requires Gated(s.deliveries, s.diagnoses) && Appendable(s, r)
    ensures Gated(s.deliveries + [r], s.diagnoses)
  {
    forall i | 0 <= i < |s.deliveries + [r]|
      ensures Gate((s.deliveries + [r])[i], s.diagnoses)
    {
      if i < |s.deliveries| {
        assert Gate(s.deliveries[i], s.diagnoses);
      }
    }
  }

  lemma AppendPlaced(s: Store, r: Delivery)
    requires Placed(s.deliveries, s.events) && Appendable(s, r)
    ensures Placed(s.deliveries + [r], s.events)
  {
    var rows := s.deliveries;
    var after := rows + [r];
    forall i | 0 <= i < |after| && after[i].phase == Supplement
      ensures HasBase(after, after[i])
    {
      assert HasBase(rows, after[i]);
      var j :| 0 <= j < |rows| && SamePlace(rows[j], after[i].(phase := Initial)) && rows[j].status == Sent;
      assert after[j] == rows[j];
    }
  }

  lemma AppendInv(s: System, r: Delivery)
    requires Inv(s) && Appendable(s.store, r)
    ensures Inv(s.(store := s.store.(deliveries := s.store.deliveries + [r])))
  {
    AppendOwnership(s.store, r);
    AppendLeased(s.store, r, s.workers);
    AppendGated(s.store, r);
    AppendPlaced(s.store, r);
  }

  lemma DiagnosesInv(s: System, d: map<DiagnosisKey, Diagnosis>)
    requires Inv(s) && Progress(s.store.diagnoses, d)
    ensures Inv(s.(store := s.store.(diagnoses := d)))
  {
    forall i | 0 <= i < |s.store.deliveries|
      ensures Rewrites(s.store.deliveries[i], s.store.deliveries[i], d)
    {
      Untouched(s, i);
    }
    RewriteInv(s, s.store.(diagnoses := d));
  }

  /** Rows that stay in place and stay sent. */
  lemma PlacedFrame(rows: seq<Delivery>, after: seq<Delivery>, events: seq<Event>)
    requires Placed(rows, events) && |after| == |rows|
    requires forall i :: 0 <= i < |rows| ==>
               SamePlace(after[i], rows[i]) && after[i].identity == rows[i].identity
               && (rows[i].status == Sent ==> after[i].status == Sent)
    ensures Placed(after, events)
  {
    forall i | 0 <= i < |after| && after[i].phase == Supplement
      ensures HasBase(after, after[i])
    {
      assert HasBase(rows, rows[i]);
      var j :| 0 <= j < |rows| && SamePlace(rows[j], rows[i].(phase := Initial)) && rows[j].status == Sent;
      assert after[j].status == Sent && SamePlace(after[j], after[i].(phase := Initial));
    }
    forall i, j | 0 <= i < j < |after| && after[i].subscription.Some?
      ensures !SamePlace(after[i], after[j])
    {
      assert !SamePlace(rows[i], rows[j]);
    }
  }

  // ------------------------------------------------ handing a key over

  /** The owner's row has just been written as skipped and `heir` is a duplicate of it. */
  ghost predicate CanHandOver(s: System, owner: nat, heir: nat, read: Delivery) {
    && owner < |s.store.deliveries| && heir < |s.store.deliveries|
    && s.store.deliveries[owner].status == Skipped
    && s.store.deliveries[owner].claimToken.None?
    && IsDuplicate(s.store.deliveries[heir], owner)
    && read.dedupeKey == s.store.deliveries[owner].dedupeKey
    && read.diagnosis == s.store.deliveries[owner].diagnosis
  }

  lemma HeirIdentity(s: System, owner: nat, heir: nat, read: Delivery)
    requires Inv(s) && CanHandOver(s, owner, heir, read)
    ensures s.store.deliveries[owner].dedupeKey == Some(s.store.deliveries[owner].identity)
    ensures s.store.deliveries[heir].identity == s.store.deliveries[owner].identity
    ensures s.store.deliveries[heir].dedupeKey.None? && s.store.deliveries[heir].claimToken.None?
  {
    assert Keyed(s.store.deliveries, heir) && Keyed(s.store.deliveries, owner);
    assert RowLease(s.store.deliveries[heir], heir, s.workers);
  }

  lemma HandOverKeyed(rows: seq<Delivery>, owner: nat, heir: nat, read: Delivery, now: int, i: nat)
    requires Ownership(rows) && owner < |rows| && heir < |rows| && i < |rows|
    requires rows[owner].status == Skipped && IsDuplicate(rows[heir], owner)
    requires read.dedupeKey == rows[owner].dedupeKey == Some(rows[heir].identity)
    ensures Keyed(HandOver(rows, owner, heir, read, now), i)
  {
    assert Keyed(rows, i) && Keyed(rows, owner) && Keyed(rows, heir);
    var d := rows[i].destination.deduplicatedBy;
    if d.Some? && i != heir && d.value != owner {
      assert d.value != heir;
    }
  }

  lemma HandOverUnique(rows: seq<Delivery>, owner: nat, heir: nat, read: Delivery, now: int, i: nat, j: nat)
    requires Ownership(rows) && owner < |rows| && heir < |rows| && i < j < |rows|
    requires read.dedupeKey == rows[owner].dedupeKey && rows[owner].dedupeKey.Some?
    requires HandOver(rows, owner, heir, read, now)[i].dedupeKey.Some?
    ensures HandOver(rows, owner, heir, read, now)[i].dedupeKey != HandOver(rows, owner, heir, read, now)[j].dedupeKey
  {
    if i == heir || j == heir {
      var other := if i == heir then j else i;
      assert other == owner || rows[other].dedupeKey != rows[owner].dedupeKey;
    }
  }

  lemma HandOverOwnership(s: System, owner: nat, heir: nat, read: Delivery, now: int)
    requires Inv(s) && CanHandOver(s, owner, heir, read)
    ensures Ownership(HandOver(s.store.deliveries, owner, heir, read, now))
  {
    HeirIdentity(s, owner, heir, read);
    var rows := s.store.deliveries;
    var after := HandOver(rows, owner, heir, read, now);
    forall i | 0 <= i < |after|
      ensures Keyed(after, i)
    {
      HandOverKeyed(rows, owner, heir, read, now, i);
    }
    forall i, j | 0 <= i < j < |after| && after[i].dedupeKey.Some?
      ensures after[i].dedupeKey != after[j].dedupeKey
    {
      HandOverUnique(rows, owner, heir, read, now, i, j);
    }
  }

  lemma HandOverGated(s: System, owner: nat, heir: nat, read: Delivery, now: int)
    requires Inv(s) && CanHandOver(s, owner, heir, read)
    ensures Gated(HandOver(s.store.deliveries, owner, heir, read, now), s.store.diagnoses)
  {
    HeirIdentity(s, owner, heir, read);
    var rows := s.store.deliveries;
    var after := HandOver(rows, owner, heir, read, now);
    assert Keyed(rows, owner) && Keyed(rows, heir) && Gate(rows[owner], s.store.diagnoses);
    forall i | 0 <= i < |after|
      ensures Gate(after[i], s.store.diagnoses)
    {
      assert Gate(rows[i], s.store.diagnoses);
    }
  }

  lemma HandOverLeased(s: System, owner: nat, heir: nat, read: Delivery, now: int)
    requires Inv(s) && CanHandOver(s, owner, heir, read)
    ensures Leased(HandOver(s.store.deliveries, owner, heir, read, now), s.workers)
  {
    HeirIdentity(s, owner, heir, read);
    var rows := s.store.deliveries;
    var after := HandOver(rows, owner, heir, read, now);
    forall i | 0 <= i < |after|
      ensures RowLease(after[i], i, s.workers)
    {
      assert RowLease(rows[i], i, s.workers);
    }
    forall w | w in s.workers
      ensures WorkerLease(s.workers[w], after)
    {
      assert WorkerLease(s.workers[w], rows);
    }
  }

  lemma HandOverPlaced(s: System, owner: nat, heir: nat, read: Delivery, now: int)
    requires Inv(s) && CanHandOver(s, owner, heir, read)
    ensures Placed(HandOver(s.store.deliveries, owner, heir, read, now), s.store.events)
  {
    PlacedFrame(s.store.deliveries, HandOver(s.store.deliveries, owner, heir, read, now), s.store.events);
  }

  lemma HandOverInv(s: System, owner: nat, heir: nat, read: Delivery, now: int)
    requires Inv(s) && CanHandOver(s, owner, heir, read)
    ensures Inv(s.(store := s.store.(deliveries := HandOver(s.store.deliveries, owner, heir, read, now))))
  {
    HandOverOwnership(s, owner, heir, read, now);
    HandOverGated(s, owner, heir, read, now);
    HandOverLeased(s, owner, heir, read, now);
    HandOverPlaced(s, owner, heir, read, now);
  }
}

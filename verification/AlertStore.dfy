/** The alert outbox as a table of rows, and every transaction that changes it.

    Rows live in sequences; a row's index is its primary key and also its place in
    creation order, which is the default order of every query on deliveries.  Each
    function below is one atomic block (or one queryset update) of the source. */
module AlertStore {
  import opened Wrappers

  const MAX_ATTEMPTS: nat := 5
  const LEASE_SECONDS: nat := 300
  const SUPPLEMENT_BATCH: nat := 100

  // ---------------------------------------------------------------- rows

  datatype Phase = Initial | Supplement

  datatype Policy =
    | Direct
    | NotifyThenDiagnose(maxTokens: nat, timeout: nat)
    | DiagnoseFirst(maxTokens: nat, timeout: nat)

  datatype Route = Route(channel: string, recipients: set<string>, language: string, policy: Policy)

  datatype Destination = Destination(route: Route, deduplicatedBy: Option<nat>)

  /** What the dedupe hash is taken over; the hash is treated as injective. */
  datatype Identity = Identity(sourceKey: string, route: Route, phase: Phase)

  datatype Status = Pending | Diagnosing | Sending | Sent | Failed | Skipped | Suppressed

  /** `identity`, `claims` and `retries` are bookkeeping that no transaction reads: the
      identity the row was created under, how often it was claimed, how often an
      operator retried it. */
  datatype Delivery = Delivery(
    event: nat,
    subscription: Option<nat>,
    phase: Phase,
    dedupeKey: Option<Identity>,
    destination: Destination,
    diagnosis: Option<DiagnosisKey>,
    status: Status,
    attempts: nat,
    nextAttemptAt: int,
    claimedAt: Option<int>,
    claimToken: Option<nat>,
    sentAt: Option<int>,
    identity: Identity,
    claims: nat,
    retries: nat)

  datatype EventStatus = EventPending | EventSent | EventPartial | EventFailed | EventSkipped

  datatype Event = Event(rule: nat, sourceKey: string, policy: Policy, status: EventStatus)

  datatype DiagnosisKey = DiagnosisKey(sourceKey: string, language: string, maxTokens: nat, timeout: nat)

  datatype DiagnosisStatus = Queued | Running | Completed | Errored | TimedOut

  datatype Diagnosis = Diagnosis(status: DiagnosisStatus, deadline: int, claims: nat)

  datatype Occurrence = Occurrence(payload: string, processedAt: Option<int>)

  datatype Store = Store(
    outbox: map<string, Occurrence>,
    events: seq<Event>,
    deliveries: seq<Delivery>,
    diagnoses: map<DiagnosisKey, Diagnosis>)

  predicate Active(s: Status) {
    s in {Pending, Diagnosing, Sending, Sent, Failed}
  }

  predicate Final(s: DiagnosisStatus) {
    s in {Completed, Errored, TimedOut}
  }

  function DeliveryIdentity(sourceKey: string, route: Route, phase: Phase): Identity {
    Identity(sourceKey, route, phase)
  }

  // ------------------------------------------------------- event summary

  predicate HasStatus(rows: seq<Delivery>, event: nat, statuses: set<Status>) {
    exists i :: 0 <= i < |rows| && rows[i].event == event && rows[i].status in statuses
  }

  function Summary(rows: seq<Delivery>, event: nat): EventStatus {
    if HasStatus(rows, event, {Pending, Sending, Diagnosing}) then EventPending
    else if HasStatus(rows, event, {Sent}) then
      if HasStatus(rows, event, {Failed, Skipped, Suppressed}) then EventPartial else EventSent
    else if HasStatus(rows, event, {Failed}) then EventFailed
    else EventSkipped
  }

  function Refresh(s: Store, touched: set<nat>): (t: Store)
    ensures |t.events| == |s.events| && t == s.(events := t.events)
  {
    s.(events := seq(|s.events|, e requires 0 <= e < |s.events| =>
      if e in touched then s.events[e].(status := Summary(s.deliveries, e)) else s.events[e]))
  }

  // ---------------------------------------------------------- evaluation

  /** One enabled subscription of a matching rule, with its resolved destination and
      the answer of the cooldown query. */
  datatype Candidate = Candidate(
    subscription: nat, channel: string, recipients: set<string>, language: string, coolingDown: bool)

  /** One rule whose mode, scope and conditions matched; `trigger` is the first matched condition. */
  datatype RuleMatch = RuleMatch(rule: nat, trigger: string, policy: Policy, candidates: seq<Candidate>)

  function Enqueue(s: Store, key: string, payload: string): Store {
    if key in s.outbox && s.outbox[key].payload == payload then s
    else s.(outbox := s.outbox[key := Occurrence(payload, None)])
  }

  /** The lowest row at or after `from` that holds the dedupe key. */
  function KeyHolder(rows: seq<Delivery>, id: Identity, from: nat := 0): (o: Option<nat>)
    requires from <= |rows|
    decreases |rows| - from
    ensures o.Some? ==> from <= o.value < |rows| && rows[o.value].dedupeKey == Some(id)
    ensures o.None? ==> forall i :: from <= i < |rows| ==> rows[i].dedupeKey != Some(id)
  {
    if from == |rows| then None
    else if rows[from].dedupeKey == Some(id) then Some(from)
    else KeyHolder(rows, id, from + 1)
  }

  function AttachedKey(policy: Policy, sourceKey: string, language: string): Option<DiagnosisKey> {
    match policy
    case Direct => None
    case NotifyThenDiagnose(tokens, timeout) => Some(DiagnosisKey(sourceKey, language, tokens, timeout))
    case DiagnoseFirst(tokens, timeout) => Some(DiagnosisKey(sourceKey, language, tokens, timeout))
  }

  /** The diagnosis table after `attach_diagnosis`: an existing analysis is shared. */
  function AttachDiagnosis(d: map<DiagnosisKey, Diagnosis>, key: Option<DiagnosisKey>, now: int)
    : map<DiagnosisKey, Diagnosis>
  {
    if key.None? || key.value in d then d
    else d[key.value := Diagnosis(Queued, now + key.value.timeout, 0)]
  }

  function NewRow(event: nat, subscription: Option<nat>, id: Identity, now: int): Delivery {
    Delivery(event, subscription, id.phase, None, Destination(id.route, None), None, Pending, 0, now,
             None, None, None, id, 0, 0)
  }

  /** The row a non-duplicate candidate ends up with. */
  function OwnerRow(event: nat, subscription: nat, id: Identity, now: int): Delivery {
    NewRow(event, Some(subscription), id, now).(
      dedupeKey := Some(id),
      diagnosis := AttachedKey(id.route.policy, id.sourceKey, id.route.language),
      status := if id.route.policy.DiagnoseFirst? then Diagnosing else Pending)
  }

  function CandidateIdentity(sourceKey: string, policy: Policy, c: Candidate): Identity {
    DeliveryIdentity(sourceKey, Route(c.channel, c.recipients, c.language, policy), Initial)
  }

  function EvaluateCandidate(s: Store, event: nat, sourceKey: string, policy: Policy, c: Candidate, now: int): Store {
    var id := CandidateIdentity(sourceKey, policy, c);
    var row := NewRow(event, Some(c.subscription), id, now);
    var holder := KeyHolder(s.deliveries, id);
    if c.coolingDown then
      s.(deliveries := s.deliveries + [row.(status := Suppressed)])
    else if holder.Some? then
      s.(deliveries := s.deliveries +
        [row.(status := Suppressed, destination := row.destination.(deduplicatedBy := holder))])
    else
      s.(deliveries := s.deliveries + [OwnerRow(event, c.subscription, id, now)],
         diagnoses := AttachDiagnosis(s.diagnoses, AttachedKey(policy, sourceKey, c.language), now))
  }

  /** The first `n` candidates of a rule, in order. */
  function EvaluateCandidates(s: Store, event: nat, sourceKey: string, m: RuleMatch, n: nat, now: int): Store
    requires n <= |m.candidates|
  {
    if n == 0 then s
    else EvaluateCandidate(EvaluateCandidates(s, event, sourceKey, m, n - 1, now),
                           event, sourceKey, m.policy, m.candidates[n - 1], now)
  }

  predicate EventExists(events: seq<Event>, rule: nat, sourceKey: string) {
    exists e :: 0 <= e < |events| && events[e].rule == rule && events[e].sourceKey == sourceKey
  }

  function EventKey(key: string, running: bool, m: RuleMatch): string {
    if running then key + ":" + m.trigger else key
  }

  function EvaluateRule(s: Store, key: string, running: bool, m: RuleMatch, now: int): Store {
    var sourceKey := EventKey(key, running, m);
    if EventExists(s.events, m.rule, sourceKey) then s
    else
      var e := |s.events|;
      var created := s.(events := s.events + [Event(m.rule, sourceKey, m.policy, EventPending)]);
      Refresh(EvaluateCandidates(created, e, sourceKey, m, |m.candidates|, now), {e})
  }

  function EvaluateRules(s: Store, key: string, running: bool, matches: seq<RuleMatch>, n: nat, now: int): Store
    requires n <= |matches|
  {
    if n == 0 then s
    else EvaluateRule(EvaluateRules(s, key, running, matches, n - 1, now), key, running, matches[n - 1], now)
  }

  function Evaluate(s: Store, key: string, running: bool, matches: seq<RuleMatch>, now: int): Store {
    if key !in s.outbox || (s.outbox[key].processedAt.Some? && !running) then s
    else
      var t := EvaluateRules(s, key, running, matches, |matches|, now);
      t.(outbox := t.outbox[key := s.outbox[key].(processedAt := Some(now))])
  }

  // ------------------------------------------------------ claim and send

  predicate Claimable(r: Delivery, now: int) {
    && r.attempts < MAX_ATTEMPTS
    && ((r.status == Pending && r.nextAttemptAt <= now)
        || (r.status == Sending && r.claimedAt.Some? && r.claimedAt.value < now - LEASE_SECONDS))
  }

  function ClaimRow(r: Delivery, token: nat, now: int): Delivery {
    r.(status := Sending, claimedAt := Some(now), claimToken := Some(token),
       attempts := r.attempts + 1, claims := r.claims + 1)
  }

  datatype Outcome = Delivered | Declined | Rejected

  function Pow2(n: nat): nat {
    if n == 0 then 1 else 2 * Pow2(n - 1)
  }

  /** Seconds until the next try; a worker that read zero attempts waits half a minute. */
  function Backoff(attempts: nat): nat {
    if attempts == 0 then 30
    else if 60 * Pow2(attempts - 1) < 3600 then 60 * Pow2(attempts - 1) else 3600
  }

  function OutcomeStatus(outcome: Outcome, attempts: nat): Status {
    match outcome
    case Declined => Skipped
    case Delivered => Sent
    case Rejected => if attempts >= MAX_ATTEMPTS then Failed else Pending
  }

  function FinalRow(r: Delivery, attempts: nat, outcome: Outcome, now: int): Delivery {
    var status := OutcomeStatus(outcome, attempts);
    r.(status := status, attempts := attempts, claimToken := None,
       sentAt := if status == Sent then Some(now) else None,
       nextAttemptAt := now + Backoff(attempts))
  }

  predicate IsDuplicate(r: Delivery, owner: nat) {
    r.status == Suppressed && r.destination.deduplicatedBy == Some(owner)
  }

  /** The suppressed rows among the first `n` that point at `owner`, oldest first. */
  function Duplicates(rows: seq<Delivery>, owner: nat, n: nat): (d: seq<nat>)
    requires n <= |rows|
    ensures forall a :: 0 <= a < |d| ==> d[a] < n && IsDuplicate(rows[d[a]], owner)
  {
    if n == 0 then []
    else Duplicates(rows, owner, n - 1) + if IsDuplicate(rows[n - 1], owner) then [n - 1] else []
  }

  function HandOverRow(r: Delivery, j: nat, owner: nat, heir: nat, read: Delivery, now: int): Delivery {
    if j == owner then r.(dedupeKey := None)
    else if j == heir then
      r.(dedupeKey := read.dedupeKey, diagnosis := read.diagnosis, status := Pending, nextAttemptAt := now,
         destination := r.destination.(deduplicatedBy := None))
    else if IsDuplicate(r, owner) then
      r.(destination := r.destination.(deduplicatedBy := Some(heir)))
    else r
  }

  function HandOver(rows: seq<Delivery>, owner: nat, heir: nat, read: Delivery, now: int): (t: seq<Delivery>)
    ensures |t| == |rows|
    ensures forall j :: 0 <= j < |rows| ==> t[j] == HandOverRow(rows[j], j, owner, heir, read, now)
  {
    seq(|rows|, j requires 0 <= j < |rows| => HandOverRow(rows[j], j, owner, heir, read, now))
  }

  /** `read` is the row as the finishing worker loaded it. */
  function Promote(s: Store, owner: nat, read: Delivery, now: int): Store {
    var duplicates := Duplicates(s.deliveries, owner, |s.deliveries|);
    if read.dedupeKey.None? || duplicates == [] then s
    else
      var heir := duplicates[0];
      Refresh(s.(deliveries := HandOver(s.deliveries, owner, heir, read, now)), {s.deliveries[heir].event})
  }

  /** The finalising transaction of a worker that claimed with `token` and read `read`. */
  function Finalise(s: Store, token: nat, i: nat, read: Delivery, outcome: Outcome, now: int): Store {
    if i >= |s.deliveries| || s.deliveries[i].claimToken != Some(token) then s
    else
      var row := FinalRow(s.deliveries[i], read.attempts, outcome, now);
      var written := s.(deliveries := s.deliveries[i := row]);
      Refresh(if row.status == Skipped then Promote(written, i, read, now) else written, {read.event})
  }

  // ----------------------------------------------------------- diagnoses

  function StartDiagnosis(s: Store, k: DiagnosisKey, now: int): Store {
    if k in s.diagnoses && s.diagnoses[k].status == Queued && s.diagnoses[k].deadline > now then
      s.(diagnoses := s.diagnoses[k := s.diagnoses[k].(status := Running, claims := s.diagnoses[k].claims + 1)])
    else s
  }

  function FinishDiagnosis(s: Store, k: DiagnosisKey, success: bool, now: int): Store {
    if k in s.diagnoses && s.diagnoses[k].status == Running && s.diagnoses[k].deadline > now then
      s.(diagnoses := s.diagnoses[k := s.diagnoses[k].(status := if success then Completed else Errored)])
    else s
  }

  function Expire(d: Diagnosis, now: int): Diagnosis {
    if d.status in {Queued, Running} && d.deadline <= now then d.(status := TimedOut) else d
  }

  function ExpireAll(d: map<DiagnosisKey, Diagnosis>, now: int): (t: map<DiagnosisKey, Diagnosis>)
    ensures t.Keys == d.Keys
    ensures forall k :: k in d ==> t[k] == Expire(d[k], now)
  {
    map k | k in d :: Expire(d[k], now)
  }

  predicate Waiting(r: Delivery, d: map<DiagnosisKey, Diagnosis>) {
    r.status == Diagnosing && r.diagnosis.Some? && r.diagnosis.value in d && Final(d[r.diagnosis.value].status)
  }

  function Release(rows: seq<Delivery>, d: map<DiagnosisKey, Diagnosis>, now: int): (t: seq<Delivery>)
    ensures |t| == |rows|
    ensures forall i :: 0 <= i < |rows| ==>
      t[i] == if Waiting(rows[i], d) then rows[i].(status := Pending, nextAttemptAt := now) else rows[i]
  {
    seq(|rows|, i requires 0 <= i < |rows| =>
      if Waiting(rows[i], d) then rows[i].(status := Pending, nextAttemptAt := now) else rows[i])
  }

  function WaitingEvents(rows: seq<Delivery>, d: map<DiagnosisKey, Diagnosis>): set<nat> {
    set i | 0 <= i < |rows| && Waiting(rows[i], d) :: rows[i].event
  }

  predicate HasSupplement(rows: seq<Delivery>, event: nat, subscription: nat) {
    exists i :: 0 <= i < |rows| && rows[i].phase == Supplement
      && rows[i].event == event && rows[i].subscription == Some(subscription)
  }

  predicate NeedsSupplement(s: Store, i: nat)
    requires i < |s.deliveries|
  {
    var r := s.deliveries[i];
    && r.status == Sent && r.phase == Initial && r.subscription.Some?
    && r.diagnosis.Some? && r.diagnosis.value in s.diagnoses
    && s.diagnoses[r.diagnosis.value].status == Completed
    && r.event < |s.events| && s.events[r.event].policy.NotifyThenDiagnose?
    && !HasSupplement(s.deliveries, r.event, r.subscription.value)
  }

  /** The first `n` rows that need a supplement, oldest first. */
  function Originals(s: Store, n: nat): (d: seq<nat>)
    requires n <= |s.deliveries|
    ensures forall j: nat :: j in d <==> j < n && NeedsSupplement(s, j)
    ensures forall a, b :: 0 <= a < b < |d| ==> d[a] < d[b]
  {
    if n == 0 then []
    else
      var older := Originals(s, n - 1);
      assert forall a :: 0 <= a < |older| ==> older[a] in older;
      older + if NeedsSupplement(s, n - 1) then [n - 1] else []
  }

  function Batch(d: seq<nat>): (b: seq<nat>)
    ensures b <= d
  {
    if |d| <= SUPPLEMENT_BATCH then d else d[..SUPPLEMENT_BATCH]
  }

  function SupplementIdentity(s: Store, original: Delivery): Identity
    requires original.event < |s.events|
  {
    DeliveryIdentity(s.events[original.event].sourceKey, original.destination.route, Supplement)
  }

  /** The row inserted for one original, if any. */
  function SupplementRow(s: Store, i: nat, now: int): Option<Delivery>
    requires i < |s.deliveries| && s.deliveries[i].event < |s.events|
  {
    var original := s.deliveries[i];
    var id := SupplementIdentity(s, original);
    var row := NewRow(original.event, original.subscription, id, now).(destination := original.destination);
    var holder := KeyHolder(s.deliveries, id);
    if holder.None? then Some(row.(dedupeKey := Some(id), diagnosis := original.diagnosis))
    else
      var other := s.deliveries[holder.value];
      if other.event == original.event && other.subscription == original.subscription then None
      else if original.subscription.Some? && HasSupplement(s.deliveries, original.event, original.subscription.value)
      then None
      else Some(row.(status := Suppressed))
  }

  function AddSupplement(s: Store, i: nat, now: int): (t: Store)
    requires i < |s.deliveries| && s.deliveries[i].event < |s.events|
    ensures s.deliveries <= t.deliveries && t == s.(deliveries := t.deliveries)
  {
    var row := SupplementRow(s, i, now);
    if row.None? then s else s.(deliveries := s.deliveries + [row.value])
  }

  /** `originals` names rows of `s` whose events exist. */
  predicate Rooted(s: Store, originals: seq<nat>) {
    forall j :: 0 <= j < |originals| ==>
      originals[j] < |s.deliveries| && s.deliveries[originals[j]].event < |s.events|
  }

  function AddSupplements(s: Store, originals: seq<nat>, now: int): (t: Store)
    requires Rooted(s, originals)
    ensures s.deliveries <= t.deliveries && t == s.(deliveries := t.deliveries)
    decreases |originals|
  {
    if originals == [] then s
    else AddSupplements(AddSupplement(s, originals[0], now), originals[1..], now)
  }

  /** Events that receive a pending supplement. */
  function SupplementedEvents(s: Store, originals: seq<nat>, now: int): set<nat>
    requires Rooted(s, originals)
    decreases |originals|
  {
    if originals == [] then {}
    else
      var row := SupplementRow(s, originals[0], now);
      (if row.Some? && row.value.status == Pending then {row.value.event} else {})
      + SupplementedEvents(AddSupplement(s, originals[0], now), originals[1..], now)
  }

  function Released(s: Store, now: int): Store {
    var d := ExpireAll(s.diagnoses, now);
    s.(diagnoses := d, deliveries := Release(s.deliveries, d, now))
  }

  function Advance(s: Store, now: int): Store {
    var released := Released(s, now);
    var all := Originals(released, |released.deliveries|);
    var originals := Batch(all);
    assert forall j :: 0 <= j < |originals| ==> originals[j] == all[j] && all[j] in all;
    var added := AddSupplements(released, originals, now);
    Refresh(added, WaitingEvents(s.deliveries, released.diagnoses)
                   + SupplementedEvents(released, originals, now))
  }

  // ------------------------------------------- operator and sweep actions

  predicate Exhausted(r: Delivery, now: int) {
    r.status == Sending && r.attempts >= MAX_ATTEMPTS && r.claimedAt.Some? && r.claimedAt.value < now - LEASE_SECONDS
  }

  /** The sweep's bulk update; it leaves the claim token in place. */
  function Sweep(s: Store, now: int): (t: Store)
    ensures |t.deliveries| == |s.deliveries| && t == s.(deliveries := t.deliveries)
    ensures forall i :: 0 <= i < |s.deliveries| ==>
      t.deliveries[i] == if Exhausted(s.deliveries[i], now) then s.deliveries[i].(status := Failed) else s.deliveries[i]
  {
    s.(deliveries := seq(|s.deliveries|, i requires 0 <= i < |s.deliveries| =>
      if Exhausted(s.deliveries[i], now) then s.deliveries[i].(status := Failed) else s.deliveries[i]))
  }

  function RetryRow(r: Delivery, event: nat, now: int): Delivery {
    if r.event == event && r.status == Failed then
      r.(status := Pending, attempts := 0, nextAttemptAt := now, retries := r.retries + 1)
    else r
  }

  function RetryRows(rows: seq<Delivery>, event: nat, now: int): (t: seq<Delivery>)
    ensures |t| == |rows|
    ensures forall i :: 0 <= i < |rows| ==> t[i] == RetryRow(rows[i], event, now)
  {
    seq(|rows|, i requires 0 <= i < |rows| => RetryRow(rows[i], event, now))
  }

  function Retry(s: Store, event: nat, now: int): Store {
    if event < |s.events| && HasStatus(s.deliveries, event, {Failed}) then
      s.(deliveries := RetryRows(s.deliveries, event, now),
         events := s.events[event := s.events[event].(status := EventPending)])
    else s
  }

  function DropRow(r: Delivery, subscription: nat): Delivery {
    if r.subscription == Some(subscription) then r.(subscription := None) else r
  }

  /** Deleting a subscription clears the foreign key of its deliveries. */
  function DropSubscription(s: Store, subscription: nat): (t: Store)
    ensures |t.deliveries| == |s.deliveries| && t == s.(deliveries := t.deliveries)
    ensures forall i :: 0 <= i < |s.deliveries| ==> t.deliveries[i] == DropRow(s.deliveries[i], subscription)
  {
    s.(deliveries := seq(|s.deliveries|, i requires 0 <= i < |s.deliveries| => DropRow(s.deliveries[i], subscription)))
  }
}

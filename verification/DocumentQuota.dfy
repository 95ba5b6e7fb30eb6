/** Per-user quota of temporary documents, kept as expiring slots of a shared cache.

    Cache entries carry the time at which they expire; `add` succeeds on an expired or
    missing key.  One call of an operation is one step; the moments inside it (creation,
    slot reservation) may differ. */
module DocumentQuota {
  import opened Wrappers

  const MAX_PER_USER: nat := 8

  datatype Slot = Slot(user: nat, index: nat)

  datatype Reservation = Reservation(document: nat, expires: int)

  /** Cached metadata; `cachedUntil` is when the cache drops it, `expires` what it says. */
  datatype Document = Document(user: nat, session: nat, slot: nat, expires: int, cachedUntil: int)

  datatype Cache = Cache(slots: map<Slot, Reservation>, documents: map<nat, Document>)

  predicate SlotTaken(c: Cache, s: Slot, now: int) {
    s in c.slots && c.slots[s].expires > now
  }

  /** What `get_document_attachment` returns at `now`: cached, and at least a whole second left. */
  predicate Live(c: Cache, d: nat, now: int) {
    d in c.documents && c.documents[d].cachedUntil > now && c.documents[d].expires - now >= 1
  }

  function Get(c: Cache, d: nat, now: int): (Option<Document>, Cache) {
    if Live(c, d, now) then (Some(c.documents[d]), c)
    else (None, c.(documents := c.documents - {d}))
  }

  /** The lowest free slot at or after `from`. */
  function FreeSlot(c: Cache, user: nat, from: nat, now: int): (r: Option<nat>)
    requires from <= MAX_PER_USER
    decreases MAX_PER_USER - from
    ensures r.Some? ==> from <= r.value < MAX_PER_USER && !SlotTaken(c, Slot(user, r.value), now)
                        && forall i :: from <= i < r.value ==> SlotTaken(c, Slot(user, i), now)
    ensures r.None? ==> forall i :: from <= i < MAX_PER_USER ==> SlotTaken(c, Slot(user, i), now)
  {
    if from == MAX_PER_USER then None
    else if !SlotTaken(c, Slot(user, from), now) then Some(from)
    else FreeSlot(c, user, from + 1, now)
  }

  datatype StoreResult = Stored(slot: nat) | TooMany | Failed

  /** Storing document `d`, created at `created`, its slot reserved at `reserved`.  When
      `saved` is false the storage raised and the handler undid the reservation. */
  function Store(c: Cache, d: nat, user: nat, session: nat, created: int, reserved: int, ttl: nat, saved: bool)
    : (StoreResult, Cache)
  {
    var slot := FreeSlot(c, user, 0, reserved);
    if slot.None? then (TooMany, c)
    else
      var key := Slot(user, slot.value);
      if !saved then (Failed, Cache(c.slots - {key}, c.documents - {d}))
      else
        var document := Document(user, session, slot.value, created + ttl, created + ttl);
        (Stored(slot.value), Cache(c.slots[key := Reservation(d, reserved + ttl)], c.documents[d := document]))
  }

  predicate Deletable(c: Cache, d: nat, session: Option<nat>, user: Option<nat>, now: int) {
    && Live(c, d, now)
    && (session.Some? ==> c.documents[d].session == session.value)
    && (user.Some? ==> c.documents[d].user == user.value)
  }

  function Delete(c: Cache, d: nat, session: Option<nat>, user: Option<nat>, now: int): (bool, Cache) {
    if Deletable(c, d, session, user, now) then
      (true, Cache(c.slots - {Slot(c.documents[d].user, c.documents[d].slot)}, c.documents - {d}))
    else (false, Get(c, d, now).1)
  }

  /** Binding to a run rewrites the metadata of live documents under one longer timeout. */
  function Bind(c: Cache, bound: set<nat>, until: int, now: int): (b: Cache)
    ensures b.slots == c.slots && b.documents.Keys == c.documents.Keys
    ensures forall d :: d in c.documents ==>
              b.documents[d] == if d in bound && Live(c, d, now)
                                then c.documents[d].(cachedUntil := until) else c.documents[d]
  {
    c.(documents := map d | d in c.documents ::
      if d in bound && Live(c, d, now) then c.documents[d].(cachedUntil := until) else c.documents[d])
  }

  // ------------------------------------------------- the cache in place

  class DocumentCache {
    var slots: map<Slot, Reservation>
    var documents: map<nat, Document>
    const ttl: nat

    ghost function Contents(): Cache
      reads this
    {
      Cache(slots, documents)
    }

    constructor (ttl: nat)
      ensures Contents() == Cache(map[], map[]) && this.ttl == ttl
    {
      slots, documents := map[], map[];
      this.ttl := ttl;
    }

    /** `cache.add` on each slot in turn until one succeeds. */
    method ReserveUserQuota(user: nat, d: nat, now: int) returns (slot: Option<nat>)
      modifies this
      ensures slot == FreeSlot(old(Contents()), user, 0, now)
      ensures documents == old(documents)
      ensures slots == if slot.Some?
                       then old(slots)[Slot(user, slot.value) := Reservation(d, now + ttl)]
                       else old(slots)
    {
      var i := 0;
      while i < MAX_PER_USER
        invariant i <= MAX_PER_USER
        invariant slots == old(slots) && documents == old(documents)
        invariant FreeSlot(Contents(), user, i, now) == FreeSlot(Contents(), user, 0, now)
      {
        var key := Slot(user, i);
        if key !in slots || slots[key].expires <= now {
          slots := slots[key := Reservation(d, now + ttl)];
          return Some(i);
        }
        i := i + 1;
      }
      return None;
    }

    /** Frees one slot, so that the user's next reservation succeeds at any time. */
    method ReleaseUserQuota(user: nat, slot: Option<nat>)
      modifies this
      ensures slot.Some? && slot.value < MAX_PER_USER ==> forall now :: FreeSlot(Contents(), user, 0, now).Some?
      ensures forall s, now :: slot.None? || s != Slot(user, slot.value) ==>
                (SlotTaken(Contents(), s, now) <==> SlotTaken(old(Contents()), s, now))
      ensures documents == old(documents)
      ensures slots == if slot.Some? then old(slots) - {Slot(user, slot.value)} else old(slots)
    {
      if slot.Some? {
        slots := slots - {Slot(user, slot.value)};
      }
    }

    method StoreDocument(d: nat, user: nat, session: nat, created: int, reserved: int, saved: bool)
      returns (r: StoreResult)
      modifies this
      ensures (r, Contents()) == Store(old(Contents()), d, user, session, created, reserved, ttl, saved)
    {
      var slot := ReserveUserQuota(user, d, reserved);
      if slot.None? {
        return TooMany;
      }
      if !saved {
        documents := documents - {d};
        ReleaseUserQuota(user, slot);
        assert slots == old(slots) - {Slot(user, slot.value)};
        return Failed;
      }
      documents := documents[d := Document(user, session, slot.value, created + ttl, created + ttl)];
      return Stored(slot.value);
    }

    method DeleteDocument(d: nat, session: Option<nat>, user: Option<nat>, now: int) returns (deleted: bool)
      modifies this
      ensures (deleted, Contents()) == Delete(old(Contents()), d, session, user, now)
      ensures deleted <==>
                && d in old(documents)
                && old(documents)[d].cachedUntil > now && old(documents)[d].expires > now
                && (session.Some? ==> old(documents)[d].session == session.value)
                && (user.Some? ==> old(documents)[d].user == user.value)
      ensures deleted ==> d !in documents && Slot(old(documents)[d].user, old(documents)[d].slot) !in slots
      ensures !deleted ==> slots == old(slots)
    {
      if !Live(Cache(slots, documents), d, now) {
        documents := documents - {d};
        return false;
      }
      var metadata := documents[d];
      if session.Some? && metadata.session != session.value {
        return false;
      }
      if user.Some? && metadata.user != user.value {
        return false;
      }
      documents := documents - {d};
      ReleaseUserQuota(metadata.user, Some(metadata.slot));
      return true;
    }
  }

  // ------------------------------------------------------- all histories

  /** Every document that says it is unexpired holds its own slot, for at least as long. */
  ghost predicate Held(c: Cache, now: int) {
    forall d :: d in c.documents && c.documents[d].expires > now ==>
      var key := Slot(c.documents[d].user, c.documents[d].slot);
      && c.documents[d].slot < MAX_PER_USER
      && key in c.slots
      && c.slots[key].document == d
      && c.slots[key].expires >= c.documents[d].expires
  }

  datatype Step =
    | StoreStep(document: nat, user: nat, session: nat, created: int, reserved: int, saved: bool)
    | DeleteStep(document: nat, ofSession: Option<nat>, ofUser: Option<nat>)
    | GetStep(document: nat)
    | BindStep(bound: set<nat>, until: int)
    | TickStep

  datatype State = State(cache: Cache, now: int, used: set<nat>)

  /** Time does not run backwards, documents get fresh identifiers, and the moments inside
      a store lie between the previous step and its end. */
  predicate Feasible(s: State, step: Step, end: int) {
    && s.now <= end
    && (step.StoreStep? ==> s.now <= step.created <= step.reserved <= end && step.document !in s.used)
  }

  function Apply(s: State, step: Step, end: int, ttl: nat): State {
    match step
    case StoreStep(d, user, session, created, reserved, saved) =>
      State(Store(s.cache, d, user, session, created, reserved, ttl, saved).1, end, s.used + {d})
    case DeleteStep(d, session, user) => State(Delete(s.cache, d, session, user, end).1, end, s.used)
    case GetStep(d) => State(Get(s.cache, d, end).1, end, s.used)
    case BindStep(bound, until) => State(Bind(s.cache, bound, until, end), end, s.used)
    case TickStep => State(s.cache, end, s.used)
  }

  datatype Timed = Timed(step: Step, end: int)

  function Run(history: seq<Timed>, start: int, ttl: nat): State {
    if history == [] then State(Cache(map[], map[]), start, {})
    else
      var last := history[|history| - 1];
      Apply(Run(history[..|history| - 1], start, ttl), last.step, last.end, ttl)
  }

  predicate FeasibleRun(history: seq<Timed>, start: int, ttl: nat) {
    history == [] ||
    (var front, last := history[..|history| - 1], history[|history| - 1];
     FeasibleRun(front, start, ttl) && Feasible(Run(front, start, ttl), last.step, last.end))
  }

  ghost predicate Inv(s: State) {
    Held(s.cache, s.now) && forall d :: d in s.cache.documents ==> d in s.used
  }

  lemma StepInv(s: State, step: Step, end: int, ttl: nat)
    requires Inv(s) && Feasible(s, step, end)
    ensures Inv(Apply(s, step, end, ttl))
  {
    if step.StoreStep? {
      var slot := FreeSlot(s.cache, step.user, 0, step.reserved);
      if slot.Some? {
        // A free slot belongs to no unexpired document.
        assert forall d :: d in s.cache.documents && s.cache.documents[d].expires > end ==>
          Slot(s.cache.documents[d].user, s.cache.documents[d].slot) != Slot(step.user, slot.value);
      }
    }
  }

  lemma {:induction false} Reachable(history: seq<Timed>, start: int, ttl: nat)
    requires FeasibleRun(history, start, ttl)
    ensures Inv(Run(history, start, ttl))
  {
    if history != [] {
      var front, last := history[..|history| - 1], history[|history| - 1];
      Reachable(front, start, ttl);
      StepInv(Run(front, start, ttl), last.step, last.end, ttl);
    }
  }

  function LiveDocuments(s: State, user: nat): set<nat> {
    set d | d in s.cache.documents && s.cache.documents[d].user == user && Live(s.cache, d, s.now)
  }

  lemma {:induction false} Pigeonhole(documents: set<nat>, slotOf: map<nat, nat>, n: nat)
    requires forall d :: d in documents ==> d in slotOf && slotOf[d] < n
    requires forall d, e :: d in documents && e in documents && d != e ==> slotOf[d] != slotOf[e]
    ensures |documents| <= n
  {
    if documents != {} {
      if d :| d in documents && slotOf[d] == n - 1 {
        Pigeonhole(documents - {d}, slotOf, n - 1);
      } else {
        var d :| d in documents;
        Pigeonhole(documents, slotOf, n - 1);
      }
    }
  }

  /** Over any history a user never has more than eight live documents, and each of them
      holds a slot of its own that outlives it. */
  lemma {:induction false} QuotaHolds(history: seq<Timed>, start: int, ttl: nat, user: nat)
    requires FeasibleRun(history, start, ttl)
    ensures var s := Run(history, start, ttl);
            && |LiveDocuments(s, user)| <= 8
            && forall d :: d in LiveDocuments(s, user) ==>
                 var key := Slot(user, s.cache.documents[d].slot);
                 key in s.cache.slots && s.cache.slots[key].document == d
                 && s.cache.slots[key].expires >= s.cache.documents[d].expires
  {
    Reachable(history, start, ttl);
    var s := Run(history, start, ttl);
    var live := LiveDocuments(s, user);
    var slotOf := map d | d in live :: s.cache.documents[d].slot;
    forall d, e | d in live && e in live && d != e
      ensures slotOf[d] != slotOf[e]
    {
      assert Slot(user, s.cache.documents[d].slot) in s.cache.slots;
    }
    Pigeonhole(live, slotOf, MAX_PER_USER);
  }

  /** A deletion or a failed store releases no slot that another live document holds, and
      leaves every other live document live. */
  lemma ReleaseIsOwn(s: State, step: Step, end: int, ttl: nat, other: nat)
    requires Inv(s) && Feasible(s, step, end) && Live(s.cache, other, end)
    requires (step.StoreStep? && !step.saved) || (step.DeleteStep? && step.document != other)
    ensures var t := Apply(s, step, end, ttl);
            var key := Slot(s.cache.documents[other].user, s.cache.documents[other].slot);
            && Live(t.cache, other, end)
            && key in t.cache.slots && t.cache.slots[key] == s.cache.slots[key]
  {
  }

  /** A deletion succeeds exactly when the document can still be looked up and every given
      session and user is its own.  Then the document and its slot are gone and all else
      stays; refused, every slot stays and so does a document that can still be looked up. */
  lemma DeletesOwnExactly(c: Cache, d: nat, session: Option<nat>, user: Option<nat>, now: int)
    ensures var (deleted, after) := Delete(c, d, session, user, now);
            var live := d in c.documents && c.documents[d].cachedUntil > now && c.documents[d].expires > now;
            && (deleted <==>
                  live && (session.Some? ==> c.documents[d].session == session.value)
                       && (user.Some? ==> c.documents[d].user == user.value))
            && (deleted ==>
                  after.slots == c.slots - {Slot(c.documents[d].user, c.documents[d].slot)}
                  && after.documents == c.documents - {d})
            && (!deleted ==> after.slots == c.slots && (live ==> after == c) && (!live ==> d !in after.documents))
            && (forall e :: e in c.documents && e != d ==> e in after.documents && after.documents[e] == c.documents[e])
  {
  }

  /** A stored document can be looked up under its user and session exactly until its
      lifetime is over, and its slot is taken exactly until the reservation is. */
  lemma StoredIsFound(c: Cache, d: nat, user: nat, session: nat, created: int, reserved: int, ttl: nat, at: int)
    ensures var (r, after) := Store(c, d, user, session, created, reserved, ttl, true);
            r.Stored? ==>
              && r.slot < 8 && !SlotTaken(c, Slot(user, r.slot), reserved)
              && (Get(after, d, at).0.Some? <==> at < created + ttl)
              && (Get(after, d, at).0.Some? ==>
                    var found := Get(after, d, at).0.value;
                    found.user == user && found.session == session && found.slot == r.slot)
              && (SlotTaken(after, Slot(user, r.slot), at) <==> at < reserved + ttl)
  {
  }

  /** A store touches nothing but its own document and slot; a failed one leaves neither, the
      slot being the lowest free one. */
  lemma StoreFrame(c: Cache, d: nat, user: nat, session: nat, created: int, reserved: int, ttl: nat, saved: bool)
    ensures var (r, after) := Store(c, d, user, session, created, reserved, ttl, saved);
            && (forall e :: e in c.documents && e != d ==> e in after.documents && after.documents[e] == c.documents[e])
            && (forall e :: e in after.documents && e != d ==> e in c.documents)
            && (forall k, at :: SlotTaken(c, k, reserved) ==> (SlotTaken(after, k, at) <==> SlotTaken(c, k, at)))
            && (r.Failed? ==> d !in after.documents
                              && (forall k, at :: SlotTaken(after, k, at) ==> SlotTaken(c, k, at))
                              && forall i :: 0 <= i < 8 && !SlotTaken(c, Slot(user, i), reserved)
                                             && (forall j :: 0 <= j < i ==> SlotTaken(c, Slot(user, j), reserved))
                                             ==> Slot(user, i) !in after.slots)
            && (r.TooMany? ==> after == c)
            && (r.Stored? ==> saved) && (r.Failed? ==> !saved)
  {
  }

  /** Binding changes only until when the bound live documents are cached: they can be looked
      up until then, but never past their own lifetime. */
  lemma BoundIsFound(c: Cache, bound: set<nat>, until: int, now: int, d: nat, at: int)
    requires d in c.documents && at >= now
    ensures var after := Bind(c, bound, until, now);
            && after.slots == c.slots
            && (d in bound && c.documents[d].cachedUntil > now && c.documents[d].expires > now ==>
                  (Get(after, d, at).0.Some? <==> at < until && at < c.documents[d].expires))
            && (d !in bound ==> (Get(after, d, at).0.Some? <==> Get(c, d, at).0.Some?))
  {
  }

  /** A store is refused exactly when all eight slots are reserved. */
  lemma RefusedWhenFull(c: Cache, d: nat, user: nat, session: nat, created: int, reserved: int, ttl: nat, saved: bool)
    ensures Store(c, d, user, session, created, reserved, ttl, saved).0.TooMany? <==>
              forall i :: 0 <= i < 8 ==> SlotTaken(c, Slot(user, i), reserved)
  {
  }
}

/** Exactly-once properties of the trajectory log. */
module RunTraceTheorems {
  import opened Wrappers
  import opened RunTrace

  /** Sequence numbers are exactly 1..n and event ids are unique. */
  ghost predicate Wellformed(log: seq<Event>) {
    && (forall i :: 0 <= i < |log| ==> log[i].sequence == i + 1)
    && (forall i, j :: 0 <= i < j < |log| ==> log[i].id != log[j].id)
  }

  function Events(batch: seq<Item>): (e: seq<Event>)
    ensures |e| == |batch| && forall i :: 0 <= i < |batch| ==> e[i] == batch[i].event
  {
    seq(|batch|, i requires 0 <= i < |batch| => batch[i].event)
  }

  ghost predicate FreshId(log: seq<Event>, id: nat) {
    forall i :: 0 <= i < |log| ==> log[i].id != id
  }

  /** The first `d` items repeat stored events and the rest continue the log. */
  ghost predicate Fits(log: seq<Event>, batch: seq<Item>, d: nat) {
    && d <= |batch|
    && (forall i :: 0 <= i < d ==>
          1 <= batch[i].event.sequence <= |log| && log[batch[i].event.sequence - 1] == batch[i].event)
    && (forall i :: d <= i < |batch| ==>
          batch[i].event.sequence == |log| + 1 + (i - d) && FreshId(log, batch[i].event.id))
  }

  // ------------------------------------------------- look-ups in the log

  lemma {:induction false} CursorIsLength(log: seq<Event>)
    requires Wellformed(log)
    ensures LastSequence(log) == |log|
  {
    if log != [] {
      CursorIsLength(log[..|log| - 1]);
    }
  }

  lemma {:induction false} ClassifyWellformed(log: seq<Event>, e: Event)
    requires Wellformed(log) && e.sequence >= 1
    ensures Classify(log, e).Duplicate? <==> e.sequence <= |log| && log[e.sequence - 1] == e
    ensures Classify(log, e).New? <==> e.sequence > |log| && FreshId(log, e.id)
  {
    var byId := FindId(log, e.id);
    var bySequence := FindSequence(log, e.sequence);
    if e.sequence <= |log| {
      assert log[e.sequence - 1].sequence == e.sequence;
      if log[e.sequence - 1] == e {
        assert byId.value == e.sequence - 1;
      }
    }
  }

  lemma {:induction false} EventsSnoc(batch: seq<Item>, item: Item)
    ensures Events(batch + [item]) == Events(batch) + [item.event]
  {
  }

  lemma {:induction false} NoneNew(log: seq<Event>, batch: seq<Item>)
    requires forall i :: 0 <= i < |batch| ==> !Classify(log, batch[i].event).New?
    ensures Pending(log, batch) == []
  {
    if batch != [] {
      NoneNew(log, batch[..|batch| - 1]);
    }
  }

  lemma {:induction false} PendingSuffix(log: seq<Event>, batch: seq<Item>, d: nat)
    requires d <= |batch|
    requires forall i :: 0 <= i < d ==> !Classify(log, batch[i].event).New?
    requires forall i :: d <= i < |batch| ==> Classify(log, batch[i].event).New?
    ensures Pending(log, batch) == Events(batch[d..])
  {
    if d == |batch| {
      NoneNew(log, batch);
    } else {
      var front, last := batch[..|batch| - 1], batch[|batch| - 1];
      PendingSuffix(log, front, d);
      assert batch[d..] == front[d..] + [last];
      EventsSnoc(front[d..], last);
    }
  }

  lemma {:induction false} PendingFits(log: seq<Event>, batch: seq<Item>, d: nat)
    requires Wellformed(log) && Fits(log, batch, d)
    ensures !HasClash(log, batch)
    ensures Pending(log, batch) == Events(batch[d..])
  {
    forall i | 0 <= i < |batch|
      ensures Classify(log, batch[i].event) == if i < d then Duplicate else New
    {
      ClassifyWellformed(log, batch[i].event);
    }
    PendingSuffix(log, batch, d);
  }

  lemma {:induction false} MaxIsLast(batch: seq<Item>)
    requires batch != [] && Ordered(batch)
    ensures MaxSequence(batch) == batch[|batch| - 1].event.sequence
  {
    if |batch| > 1 {
      MaxIsLast(batch[..|batch| - 1]);
    }
  }

  // ----------------------------------------------------- exact acceptance

  lemma {:induction false} FitsContinues(log: seq<Event>, batch: seq<Item>, d: nat)
    requires Fits(log, batch, d)
    ensures Continues(|log|, Events(batch[d..]))
  {
  }

  /** The outcome when every check passes. */
  lemma {:induction false} Passes(log: seq<Event>, batch: seq<Item>)
    requires Validate(batch).None? && !HasClash(log, batch) && Continues(LastSequence(log), Pending(log, batch))
    ensures batch != []
    ensures var pending := Pending(log, batch);
            Append(log, batch)
            == Ok((log + pending, Receipt(|pending|, |batch| - |pending|, MaxSequence(batch))))
  {
  }

  lemma {:induction false} FitsIsAccepted(log: seq<Event>, batch: seq<Item>, d: nat)
    requires Wellformed(log) && Validate(batch).None? && Fits(log, batch, d)
    ensures Append(log, batch)
         == Ok((log + Events(batch[d..]), Receipt(|batch| - d, d, batch[|batch| - 1].event.sequence)))
  {
    PendingFits(log, batch, d);
    CursorIsLength(log);
    FitsContinues(log, batch, d);
    Passes(log, batch);
    MaxIsLast(batch);
  }

  /** The same with the new log and the receipt named by the caller. */
  lemma {:induction false} AcceptedAs(log: seq<Event>, batch: seq<Item>, d: nat, after: seq<Event>, receipt: Receipt)
    requires Wellformed(log) && Validate(batch).None? && Fits(log, batch, d)
    requires after == log + Events(batch[d..])
    requires receipt == Receipt(|batch| - d, d, batch[|batch| - 1].event.sequence)
    ensures Append(log, batch) == Ok((after, receipt))
  {
    FitsIsAccepted(log, batch, d);
  }

  /** Where an ordered batch passes the end of the log. */
  lemma {:induction false} SplitPoint(batch: seq<Item>, n: nat) returns (d: nat)
    requires Ordered(batch)
    ensures d <= |batch|
    ensures forall i :: 0 <= i < d ==> batch[i].event.sequence <= n
    ensures forall i :: d <= i < |batch| ==> batch[i].event.sequence > n
  {
    if batch == [] || batch[|batch| - 1].event.sequence <= n {
      d := |batch|;
    } else {
      d := SplitPoint(batch[..|batch| - 1], n);
      assert forall i :: 0 <= i < |batch| - 1 ==> batch[..|batch| - 1][i] == batch[i];
    }
  }

  /** Without a clash the split point separates stored events from new ones. */
  lemma {:induction false} SplitClassifies(log: seq<Event>, batch: seq<Item>) returns (d: nat)
    requires Wellformed(log) && Ordered(batch) && !HasClash(log, batch)
    requires forall i :: 0 <= i < |batch| ==> batch[i].event.sequence >= 1
    ensures d <= |batch|
    ensures forall i :: 0 <= i < d ==>
              batch[i].event.sequence <= |log| && log[batch[i].event.sequence - 1] == batch[i].event
    ensures forall i :: d <= i < |batch| ==> FreshId(log, batch[i].event.id)
    ensures Pending(log, batch) == Events(batch[d..])
  {
    d := SplitPoint(batch, |log|);
    forall i | 0 <= i < |batch|
      ensures i < d ==> Classify(log, batch[i].event).Duplicate? && log[batch[i].event.sequence - 1] == batch[i].event
      ensures i >= d ==> Classify(log, batch[i].event).New? && FreshId(log, batch[i].event.id)
    {
      ClassifyWellformed(log, batch[i].event);
      assert !Classify(log, batch[i].event).Clash?;
    }
    PendingSuffix(log, batch, d);
  }

  lemma {:induction false} AcceptedFits(log: seq<Event>, batch: seq<Item>) returns (d: nat)
    requires Wellformed(log) && Append(log, batch).Ok?
    ensures Fits(log, batch, d)
  {
    d := SplitClassifies(log, batch);
    CursorIsLength(log);
    assert Continues(|log|, Events(batch[d..]));
    forall i | d <= i < |batch|
      ensures batch[i].event.sequence == |log| + 1 + (i - d)
    {
      assert Events(batch[d..])[i - d] == batch[i].event;
    }
  }

  /** A valid batch is accepted exactly when it is a run of stored events followed by the
      continuation of the log; the receipt counts the two parts. */
  lemma {:induction false} AcceptedExactly(log: seq<Event>, batch: seq<Item>)
    requires Wellformed(log) && Validate(batch).None?
    ensures Append(log, batch).Ok? <==> exists d: nat :: Fits(log, batch, d)
    ensures forall d: nat :: Fits(log, batch, d) ==>
              Append(log, batch)
              == Ok((log + Events(batch[d..]), Receipt(|batch| - d, d, batch[|batch| - 1].event.sequence)))
  {
    if Append(log, batch).Ok? {
      var d := AcceptedFits(log, batch);
    }
    forall d: nat | Fits(log, batch, d)
      ensures Append(log, batch)
              == Ok((log + Events(batch[d..]), Receipt(|batch| - d, d, batch[|batch| - 1].event.sequence)))
    {
      FitsIsAccepted(log, batch, d);
    }
  }

  // --------------------------------------------------- exact rejection

  /** The items' numbers are all different, and increase. */
  ghost predicate Increasing(batch: seq<Item>) {
    forall i, j :: 0 <= i < j < |batch| ==> batch[i].event.sequence < batch[j].event.sequence
  }

  ghost predicate RepeatsSequence(batch: seq<Item>) {
    exists i, j :: 0 <= i < j < |batch| && batch[i].event.sequence == batch[j].event.sequence
  }

  ghost predicate RepeatsId(batch: seq<Item>) {
    exists i, j :: 0 <= i < j < |batch| && batch[i].event.id == batch[j].event.id
  }

  /** Every item has a positive number and a payload of at most two mebibytes. */
  ghost predicate WithinLimits(batch: seq<Item>) {
    forall i :: 0 <= i < |batch| ==> batch[i].event.sequence >= 1 && batch[i].bytes <= 2097152
  }

  /** The first item outside its limits has a bad number, or only a big payload. */
  ghost predicate FirstBad(batch: seq<Item>, i: int, badNumber: bool) {
    && 0 <= i < |batch| && WithinLimits(batch[..i])
    && if badNumber then batch[i].event.sequence < 1
       else batch[i].event.sequence >= 1 && batch[i].bytes > 2097152
  }

  /** A batch is valid exactly when it has 1 to 100 events within their limits, at most eight
      mebibytes in all, increasing numbers and different ids. */
  lemma {:induction false} ValidExactly(batch: seq<Item>)
    ensures Validate(batch).None? <==>
              && 1 <= |batch| <= 100 && WithinLimits(batch) && TotalBytes(batch) <= 8388608
              && Increasing(batch) && !RepeatsId(batch)
  {
    if Validate(batch).None? {
      forall i, j | 0 <= i < j < |batch|
        ensures batch[i].event.sequence < batch[j].event.sequence
      {
        assert batch[i].event.sequence != batch[j].event.sequence;
      }
    }
  }

  /** Otherwise the rejection names the first check that fails. */
  lemma {:induction false} InvalidExactly(batch: seq<Item>)
    ensures Validate(batch) == Some(EmptyBatch) <==> batch == []
    ensures Validate(batch) == Some(TooManyEvents) <==> |batch| > 100
    ensures Validate(batch) == Some(BadSequence) ==> |batch| <= 100 && exists i :: FirstBad(batch, i, true)
    ensures Validate(batch) == Some(PayloadTooLarge) ==> |batch| <= 100 && exists i :: FirstBad(batch, i, false)
    ensures Validate(batch) == Some(BatchTooLarge) ==> WithinLimits(batch) && TotalBytes(batch) > 8388608
    ensures Validate(batch) == Some(RepeatedSequence) ==> TotalBytes(batch) <= 8388608 && RepeatsSequence(batch)
    ensures Validate(batch) == Some(RepeatedId) ==> !RepeatsSequence(batch) && RepeatsId(batch)
    ensures Validate(batch) == Some(Unordered) ==>
              !RepeatsSequence(batch) && !RepeatsId(batch) && !Increasing(batch)
    ensures Validate(batch).Some? ==>
              Validate(batch).value !in {WrongNode, Conflict, CursorGap}
  {
    var bad := Malformed(batch);
    if bad.Some? {
      var i :| 0 <= i < |batch| && bad == ItemError(batch[i]) && forall j :: 0 <= j < i ==> ItemError(batch[j]).None?;
      assert FirstBad(batch, i, bad == Some(BadSequence));
    }
  }

  /** The event shares its id or its number with a stored event, but is not stored. */
  ghost predicate Conflicts(log: seq<Event>, e: Event) {
    && (exists k :: 0 <= k < |log| && (log[k].id == e.id || log[k].sequence == e.sequence))
    && e !in log
  }

  lemma {:induction false} ClashExactly(log: seq<Event>, e: Event)
    requires Wellformed(log)
    ensures Classify(log, e).Clash? <==> Conflicts(log, e)
  {
    var byId := FindId(log, e.id);
    var bySequence := FindSequence(log, e.sequence);
    if e in log {
      var k :| 0 <= k < |log| && log[k] == e;
      assert byId == Some(k) && bySequence == Some(k);
    } else if byId.Some? {
      assert log[byId.value] in log;
    }
  }

  /** A valid batch is rejected for a conflict exactly when some event of it conflicts, and
      otherwise for a gap exactly when it is not accepted. */
  lemma {:induction false} RejectedExactly(log: seq<Event>, batch: seq<Item>)
    requires Wellformed(log) && Validate(batch).None?
    ensures Append(log, batch) == Err(Conflict) <==>
              exists i :: 0 <= i < |batch| && Conflicts(log, batch[i].event)
    ensures Append(log, batch) == Err(CursorGap) <==>
              && (forall i :: 0 <= i < |batch| ==> !Conflicts(log, batch[i].event))
              && !(exists d: nat :: Fits(log, batch, d))
    ensures Append(log, batch).Err? ==> Append(log, batch).error in {Conflict, CursorGap}
  {
    AcceptedExactly(log, batch);
    forall i | 0 <= i < |batch|
      ensures Classify(log, batch[i].event).Clash? <==> Conflicts(log, batch[i].event)
    {
      ClashExactly(log, batch[i].event);
    }
    ClashesExactly(log, batch);
  }

  lemma ClashesExactly(log: seq<Event>, batch: seq<Item>)
    requires forall i :: 0 <= i < |batch| ==> (Classify(log, batch[i].event).Clash? <==> Conflicts(log, batch[i].event))
    ensures HasClash(log, batch) <==> exists i :: 0 <= i < |batch| && Conflicts(log, batch[i].event)
  {
  }

  // -------------------------------------------------------- any batches

  /** An accepted batch extends the log and keeps it well formed. */
  lemma {:induction false} AppendExtends(log: seq<Event>, batch: seq<Item>)
    requires Wellformed(log) && Append(log, batch).Ok?
    ensures var (after, receipt) := Append(log, batch).value;
            && log <= after && Wellformed(after)
            && receipt.inserted + receipt.duplicates == |batch|
            && |after| == |log| + receipt.inserted
            && receipt.lastSequence <= |after|
  {
    var d := AcceptedFits(log, batch);
    FitsIsAccepted(log, batch, d);
    var after := log + Events(batch[d..]);
    forall i, j | 0 <= i < j < |after|
      ensures after[i].id != after[j].id
    {
      if j >= |log| {
        assert after[j] == batch[j - |log| + d].event;
        if i >= |log| {
          assert after[i] == batch[i - |log| + d].event;
        }
      }
    }
  }

  /** The log after submitting every batch in turn; rejected ones change nothing. */
  function Submit(log: seq<Event>, batches: seq<seq<Item>>): seq<Event> {
    if batches == [] then log
    else
      var before := Submit(log, batches[..|batches| - 1]);
      var r := Append(before, batches[|batches| - 1]);
      if r.Ok? then r.value.0 else before
  }

  /** Whatever is submitted, the log stays 1..n with unique ids and grows by extension. */
  lemma {:induction false} LogOnlyGrows(log: seq<Event>, batches: seq<seq<Item>>)
    requires Wellformed(log)
    ensures log <= Submit(log, batches) && Wellformed(Submit(log, batches))
  {
    if batches != [] {
      LogOnlyGrows(log, batches[..|batches| - 1]);
      var before := Submit(log, batches[..|batches| - 1]);
      if Append(before, batches[|batches| - 1]).Ok? {
        AppendExtends(before, batches[|batches| - 1]);
      }
    }
  }

  // ------------------------------------------------------ honest sender

  /** Every event of the batch is the stream's event with that number. */
  ghost predicate Honest(stream: seq<Event>, batch: seq<Item>) {
    forall i :: 0 <= i < |batch| ==>
      1 <= batch[i].event.sequence <= |stream| && stream[batch[i].event.sequence - 1] == batch[i].event
  }

  lemma {:induction false} ContinuesStream(stream: seq<Event>, log: seq<Event>, batch: seq<Item>, d: nat)
    requires log <= stream && Honest(stream, batch) && Fits(log, batch, d)
    ensures log + Events(batch[d..]) <= stream
  {
    var tail := Events(batch[d..]);
    var end := |log| + |tail|;
    if tail != [] {
      assert batch[|batch| - 1].event.sequence == end;
    }
    forall j | 0 <= j < |tail|
      ensures tail[j] == stream[|log| + j]
    {
      assert tail[j] == batch[d + j].event && batch[d + j].event.sequence == |log| + j + 1;
    }
    assert tail == stream[|log|..end];
    assert log + tail == stream[..end];
  }

  lemma {:induction false} HonestStep(stream: seq<Event>, log: seq<Event>, batch: seq<Item>)
    requires Wellformed(stream) && log <= stream && Honest(stream, batch) && Append(log, batch).Ok?
    ensures Append(log, batch).value.0 <= stream
  {
    assert Wellformed(log);
    var d := AcceptedFits(log, batch);
    FitsIsAccepted(log, batch, d);
    ContinuesStream(stream, log, batch, d);
  }

  /** Batches of an honest sender may be lost, repeated or reordered in any way: the log
      is always a prefix of the sender's stream. */
  lemma {:induction false} HonestPrefix(stream: seq<Event>, batches: seq<seq<Item>>)
    requires Wellformed(stream)
    requires forall b :: 0 <= b < |batches| ==> Honest(stream, batches[b])
    ensures Submit([], batches) <= stream
  {
    if batches != [] {
      HonestPrefix(stream, batches[..|batches| - 1]);
      var before := Submit([], batches[..|batches| - 1]);
      if Append(before, batches[|batches| - 1]).Ok? {
        HonestStep(stream, before, batches[|batches| - 1]);
      }
    }
  }

  /** The batch carries stream events a+1..b and respects the size limits. */
  ghost predicate Slice(stream: seq<Event>, batch: seq<Item>, a: nat, b: nat) {
    && a < b <= |stream| && |batch| == b - a
    && (forall i :: 0 <= i < |batch| ==> batch[i].event == stream[a + i])
    && |batch| <= MAX_BATCH_EVENTS && TotalBytes(batch) <= MAX_BATCH_BYTES
    && (forall i :: 0 <= i < |batch| ==> batch[i].bytes <= MAX_EVENT_PAYLOAD_BYTES)
  }

  lemma {:induction false} SliceValid(stream: seq<Event>, batch: seq<Item>, a: nat, b: nat)
    requires Wellformed(stream) && Slice(stream, batch, a, b)
    ensures Validate(batch).None?
  {
    forall i | 0 <= i < |batch|
      ensures batch[i].event.sequence == a + i + 1
    {
    }
    assert DistinctSequences(batch) && Ordered(batch);
    forall i, j | 0 <= i < j < |batch|
      ensures batch[i].event.id != batch[j].event.id
    {
      assert stream[a + i].id != stream[a + j].id;
    }
  }

  lemma {:induction false} SliceFits(stream: seq<Event>, log: seq<Event>, batch: seq<Item>, a: nat, b: nat)
    requires Wellformed(stream) && log <= stream && Slice(stream, batch, a, b) && a <= |log|
    ensures Fits(log, batch, if b > |log| then |log| - a else b - a)
  {
    var d := if b > |log| then |log| - a else b - a;
    forall i | d <= i < |batch|
      ensures FreshId(log, batch[i].event.id)
    {
      forall k | 0 <= k < |log|
        ensures log[k].id != batch[i].event.id
      {
        assert stream[k].id != stream[a + i].id;
      }
    }
  }

  lemma {:induction false} SliceExtends(stream: seq<Event>, log: seq<Event>, batch: seq<Item>, a: nat, b: nat)
    requires Wellformed(stream) && log <= stream && Slice(stream, batch, a, b) && a <= |log|
    ensures var d := if b > |log| then |log| - a else b - a;
            log + Events(batch[d..]) == stream[..if b > |log| then b else |log|]
  {
  }

  lemma {:induction false} SliceGap(stream: seq<Event>, log: seq<Event>, batch: seq<Item>, a: nat, b: nat)
    requires Wellformed(stream) && log <= stream && Slice(stream, batch, a, b) && a > |log|
    ensures !Append(log, batch).Ok?
  {
    assert Wellformed(log);
    if Append(log, batch).Ok? {
      var d := AcceptedFits(log, batch);
    }
  }

  lemma {:induction false} SliceTaken(stream: seq<Event>, log: seq<Event>, batch: seq<Item>, a: nat, b: nat)
    requires Wellformed(stream) && log <= stream && Slice(stream, batch, a, b) && a <= |log|
    ensures var end := if b > |log| then b else |log|;
            Append(log, batch) == Ok((stream[..end], Receipt(end - |log|, (b - a) - (end - |log|), b)))
  {
    var d := if b > |log| then |log| - a else b - a;
    var end := if b > |log| then b else |log|;
    SliceValid(stream, batch, a, b);
    SliceFits(stream, log, batch, a, b);
    SliceExtends(stream, log, batch, a, b);
    assert batch[|batch| - 1].event.sequence == b;
    assert Wellformed(log);
    AcceptedAs(log, batch, d, stream[..end], Receipt(end - |log|, (b - a) - (end - |log|), b));
  }

  /** A slice of the stream is accepted exactly when it leaves no gap, and then the log
      holds precisely the longer of what it had and what was sent. */
  lemma {:induction false} SliceAccepted(stream: seq<Event>, log: seq<Event>, batch: seq<Item>, a: nat, b: nat)
    requires Wellformed(stream) && log <= stream && Slice(stream, batch, a, b)
    ensures Append(log, batch).Ok? <==> a <= |log|
    ensures a <= |log| ==>
              var end := if b > |log| then b else |log|;
              Append(log, batch) == Ok((stream[..end], Receipt(end - |log|, (b - a) - (end - |log|), b)))
  {
    if a <= |log| {
      SliceTaken(stream, log, batch, a, b);
    } else {
      SliceGap(stream, log, batch, a, b);
    }
  }

  // ---------------------------------------------- splitting and repeating

  /** The size of a batch is the sum of its payloads' sizes. */
  lemma {:induction false} BytesAdd(a: seq<Item>, b: seq<Item>)
    ensures TotalBytes(a + b) == TotalBytes(a) + TotalBytes(b)
    ensures |a| == 1 ==> TotalBytes(a) == a[0].bytes
  {
    if a == [] {
      assert a + b == b;
    } else {
      assert (a + b)[1..] == a[1..] + b;
      BytesAdd(a[1..], b);
    }
  }

  /** `b` is a stretch of `c`. */
  ghost predicate Within(c: seq<Item>, b: seq<Item>, from: nat) {
    from + |b| <= |c| && forall i :: 0 <= i < |b| ==> b[i] == c[from + i]
  }

  lemma {:induction false} SubbatchOrdered(c: seq<Item>, b: seq<Item>, from: nat)
    requires Within(c, b, from) && DistinctSequences(c) && DistinctIds(c) && Ordered(c)
    ensures DistinctSequences(b) && DistinctIds(b) && Ordered(b)
  {
    forall i, j | 0 <= i < j < |b|
      ensures b[i].event.sequence < b[j].event.sequence && b[i].event.id != b[j].event.id
    {
      assert c[from + i].event.sequence != c[from + j].event.sequence;
    }
  }

  lemma {:induction false} SubbatchFormed(c: seq<Item>, b: seq<Item>, from: nat)
    requires Within(c, b, from) && Malformed(c).None?
    ensures Malformed(b).None?
  {
    forall i | 0 <= i < |b|
      ensures b[i].event.sequence >= 1 && b[i].bytes <= MAX_EVENT_PAYLOAD_BYTES
    {
      assert c[from + i] == b[i];
    }
  }

  lemma {:induction false} SubbatchValid(c: seq<Item>, b: seq<Item>, from: nat)
    requires Validate(c).None? && b != [] && Within(c, b, from) && TotalBytes(b) <= TotalBytes(c)
    ensures Validate(b).None?
  {
    SubbatchOrdered(c, b, from);
    SubbatchFormed(c, b, from);
  }

  lemma {:induction false} PartsWithin(a: seq<Item>, b: seq<Item>)
    ensures Within(a + b, a, 0) && Within(a + b, b, |a|)
  {
  }

  lemma {:induction false} PartsValid(a: seq<Item>, b: seq<Item>)
    requires a != [] && b != [] && Validate(a + b).None?
    ensures Validate(a).None? && Validate(b).None?
  {
    PartsWithin(a, b);
    BytesAdd(a, b);
    SubbatchValid(a + b, a, 0);
    SubbatchValid(a + b, b, |a|);
  }

  lemma {:induction false} SplitFits(log: seq<Event>, a: seq<Item>, b: seq<Item>, d: nat)
    requires Wellformed(log) && a != [] && b != [] && Validate(a + b).None? && Fits(log, a + b, d)
    ensures var da := if d < |a| then d else |a|;
            Fits(log, a, da) && Fits(log + Events(a[da..]), b, d - da)
  {
    var c := a + b;
    var da := if d < |a| then d else |a|;
    var middle := log + Events(a[da..]);
    forall i | 0 <= i < |a|
      ensures a[i] == c[i]
    {
    }
    forall i | d - da <= i < |b|
      ensures b[i].event.sequence == |middle| + 1 + (i - (d - da)) && FreshId(middle, b[i].event.id)
    {
      assert b[i] == c[|a| + i];
      forall k | 0 <= k < |middle|
        ensures middle[k].id != b[i].event.id
      {
        if k >= |log| {
          assert middle[k] == c[k - |log| + da].event;
        }
      }
    }
    forall i | 0 <= i < d - da
      ensures 1 <= b[i].event.sequence <= |middle| && middle[b[i].event.sequence - 1] == b[i].event
    {
      assert b[i] == c[|a| + i];
    }
  }

  /** If the first part ends with new events, the second has no stored one. */
  lemma {:induction false} NoStoredAfterNew(log: seq<Event>, a: seq<Item>, b: seq<Item>, da: nat, db: nat)
    requires b != [] && Ordered(a + b) && DistinctSequences(a + b)
    requires Fits(log, a, da) && Fits(log + Events(a[da..]), b, db) && da < |a|
    ensures db == 0
  {
    var c := a + b;
    assert a[|a| - 1] == c[|a| - 1] && b[0] == c[|a|];
    assert c[|a| - 1].event.sequence < c[|a|].event.sequence;
    assert a[|a| - 1].event.sequence == |log + Events(a[da..])|;
  }

  lemma {:induction false} JoinFits(log: seq<Event>, a: seq<Item>, b: seq<Item>, da: nat, db: nat)
    requires b != [] && Ordered(a + b) && DistinctSequences(a + b)
    requires Fits(log, a, da) && Fits(log + Events(a[da..]), b, db)
    ensures Fits(log, a + b, da + db)
  {
    var c := a + b;
    var middle := log + Events(a[da..]);
    if da < |a| {
      NoStoredAfterNew(log, a, b, da, db);
    } else {
      assert middle == log;
    }
    forall i | da + db <= i < |c|
      ensures c[i].event.sequence == |log| + 1 + (i - (da + db)) && FreshId(log, c[i].event.id)
    {
      if i >= |a| {
        assert c[i] == b[i - |a|];
        FreshIdPrefix(log, Events(a[da..]), c[i].event.id);
      }
    }
  }

  lemma {:induction false} FreshIdPrefix(log: seq<Event>, more: seq<Event>, id: nat)
    requires FreshId(log + more, id)
    ensures FreshId(log, id)
  {
    assert forall k :: 0 <= k < |log| ==> (log + more)[k] == log[k];
  }

  /** The whole's receipt from the receipts of its parts. */
  function Combined(first: Receipt, second: Receipt): Receipt {
    Receipt(first.inserted + second.inserted, first.duplicates + second.duplicates, second.lastSequence)
  }

  lemma {:induction false} JoinedLogs(log: seq<Event>, a: seq<Item>, b: seq<Item>, d: nat)
    requires d <= |a + b|
    ensures var da := if d < |a| then d else |a|;
            log + Events((a + b)[d..]) == log + Events(a[da..]) + Events(b[d - da..])
  {
  }

  lemma {:induction false} FirstPart(log: seq<Event>, a: seq<Item>, b: seq<Item>, d: nat)
    requires Wellformed(log) && a != [] && b != [] && Validate(a + b).None? && Fits(log, a + b, d)
    ensures var da := if d < |a| then d else |a|;
            && Append(log, a) == Ok((log + Events(a[da..]), Receipt(|a| - da, da, a[|a| - 1].event.sequence)))
            && Wellformed(log + Events(a[da..]))
  {
    PartsValid(a, b);
    SplitFits(log, a, b, d);
    FitsIsAccepted(log, a, if d < |a| then d else |a|);
    AppendExtends(log, a);
  }

  lemma {:induction false} SecondPart(log: seq<Event>, a: seq<Item>, b: seq<Item>, da: nat, db: nat)
    requires Validate(b).None? && da <= |a| && (da == |a| || db == 0)
    requires Wellformed(log + Events(a[da..])) && Fits(log + Events(a[da..]), b, db)
    ensures Append(log + Events(a[da..]), b)
         == Ok((log + Events((a + b)[da + db..]), Receipt(|b| - db, db, b[|b| - 1].event.sequence)))
  {
    JoinedLogs(log, a, b, da + db);
    AcceptedAs(log + Events(a[da..]), b, db,
               log + Events((a + b)[da + db..]), Receipt(|b| - db, db, b[|b| - 1].event.sequence));
  }

  lemma {:induction false} SecondAfterFirst(log: seq<Event>, a: seq<Item>, b: seq<Item>, d: nat)
    requires Wellformed(log) && a != [] && b != [] && Validate(a + b).None? && Fits(log, a + b, d)
    ensures var da := if d < |a| then d else |a|;
            Append(log + Events(a[da..]), b)
            == Ok((log + Events((a + b)[d..]), Receipt(|b| - (d - da), d - da, b[|b| - 1].event.sequence)))
  {
    var da := if d < |a| then d else |a|;
    var middle := log + Events(a[da..]);
    assert Validate(b).None? by { PartsValid(a, b); }
    assert Wellformed(middle) by { FirstPart(log, a, b, d); }
    assert Fits(middle, b, d - da) by { SplitFits(log, a, b, d); }
    SecondPart(log, a, b, da, d - da);
  }

  lemma {:induction false} WholeThenParts(log: seq<Event>, a: seq<Item>, b: seq<Item>, d: nat)
    requires Wellformed(log) && a != [] && b != [] && Validate(a + b).None? && Fits(log, a + b, d)
    ensures Append(log, a).Ok? && Append(Append(log, a).value.0, b).Ok?
    ensures Append(Append(log, a).value.0, b).value.0 == log + Events((a + b)[d..])
    ensures Combined(Append(log, a).value.1, Append(Append(log, a).value.0, b).value.1)
         == Receipt(|a + b| - d, d, b[|b| - 1].event.sequence)
  {
    FirstPart(log, a, b, d);
    SecondAfterFirst(log, a, b, d);
  }

  lemma {:induction false} FirstFits(log: seq<Event>, a: seq<Item>) returns (da: nat)
    requires Wellformed(log) && Append(log, a).Ok?
    ensures Fits(log, a, da) && Wellformed(log + Events(a[da..]))
    ensures Append(log, a).value.0 == log + Events(a[da..])
  {
    da := AcceptedFits(log, a);
    FitsIsAccepted(log, a, da);
    AppendExtends(log, a);
  }

  lemma {:induction false} PartsThenWhole(log: seq<Event>, a: seq<Item>, b: seq<Item>)
    requires Wellformed(log) && a != [] && b != [] && Validate(a + b).None?
    requires Append(log, a).Ok? && Append(Append(log, a).value.0, b).Ok?
    ensures Append(log, a + b).Ok?
  {
    var da := FirstFits(log, a);
    var middle := Append(log, a).value.0;
    var db := AcceptedFits(middle, b);
    WholeFits(log, middle, a, b, da, db);
    AcceptedWhole(log, a + b, da + db);
  }

  lemma {:induction false} WholeFits(log: seq<Event>, middle: seq<Event>, a: seq<Item>, b: seq<Item>, da: nat, db: nat)
    requires b != [] && Validate(a + b).None?
    requires Fits(log, a, da) && middle == log + Events(a[da..]) && Fits(middle, b, db)
    ensures Fits(log, a + b, da + db)
  {
    JoinFits(log, a, b, da, db);
  }

  lemma {:induction false} AcceptedWhole(log: seq<Event>, c: seq<Item>, d: nat)
    requires Wellformed(log) && Validate(c).None? && Fits(log, c, d)
    ensures Append(log, c).Ok?
  {
    FitsIsAccepted(log, c, d);
  }

  lemma {:induction false} WholeIsParts(log: seq<Event>, a: seq<Item>, b: seq<Item>)
    requires Wellformed(log) && a != [] && b != [] && Validate(a + b).None? && Append(log, a + b).Ok?
    ensures Append(log, a).Ok? && Append(Append(log, a).value.0, b).Ok?
    ensures var (middle, first) := Append(log, a).value;
            var (after, second) := Append(middle, b).value;
            Append(log, a + b) == Ok((after, Combined(first, second)))
  {
    var d := AcceptedFits(log, a + b);
    assert (a + b)[|a + b| - 1] == b[|b| - 1];
    AcceptedAs(log, a + b, d, log + Events((a + b)[d..]), Receipt(|a + b| - d, d, b[|b| - 1].event.sequence));
    WholeThenParts(log, a, b, d);
  }

  /** Submitting two parts in turn is the same as submitting the whole, whenever the whole
      is a valid batch: same acceptance, same log, counts that add up. */
  lemma {:induction false} SplittingIsInvisible(log: seq<Event>, a: seq<Item>, b: seq<Item>)
    requires Wellformed(log) && a != [] && b != [] && Validate(a + b).None?
    ensures Append(log, a + b).Ok? <==>
              Append(log, a).Ok? && Append(Append(log, a).value.0, b).Ok?
    ensures Append(log, a + b).Ok? ==>
              var (middle, first) := Append(log, a).value;
              var (after, second) := Append(middle, b).value;
              Append(log, a + b) == Ok((after, Combined(first, second)))
  {
    if Append(log, a + b).Ok? {
      WholeIsParts(log, a, b);
    }
    if Append(log, a).Ok? && Append(Append(log, a).value.0, b).Ok? {
      PartsThenWhole(log, a, b);
    }
  }

  /** Once its new part is in the log, a batch that fitted there is stored whole. */
  lemma FitsWhenStored(log: seq<Event>, batch: seq<Item>, d: nat, now: seq<Event>)
    requires Fits(log, batch, d) && log + Events(batch[d..]) <= now
    ensures Fits(now, batch, |batch|)
  {
    forall i | 0 <= i < |batch|
      ensures 1 <= batch[i].event.sequence <= |now| && now[batch[i].event.sequence - 1] == batch[i].event
    {
      var after := log + Events(batch[d..]);
      if i >= d {
        assert after[|log| + (i - d)] == batch[i].event;
      } else {
        assert after[batch[i].event.sequence - 1] == batch[i].event;
      }
    }
  }

  /** An accepted batch can be submitted again, at once or after any later batches: it
      inserts nothing and is counted as duplicates throughout. */
  lemma {:induction false} ResubmitIsNoop(log: seq<Event>, batch: seq<Item>, later: seq<seq<Item>>)
    requires Wellformed(log) && Append(log, batch).Ok?
    ensures var now := Submit(Append(log, batch).value.0, later);
            Append(now, batch) == Ok((now, Receipt(0, |batch|, Append(log, batch).value.1.lastSequence)))
  {
    var d := AcceptedFits(log, batch);
    FitsIsAccepted(log, batch, d);
    AppendExtends(log, batch);
    var after := Append(log, batch).value.0;
    LogOnlyGrows(after, later);
    var now := Submit(after, later);
    FitsWhenStored(log, batch, d, now);
    assert now + Events(batch[|batch|..]) == now;
    AcceptedAs(now, batch, |batch|, now, Receipt(0, |batch|, batch[|batch| - 1].event.sequence));
  }
}

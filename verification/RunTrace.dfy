/** The append-only trajectory log of one run: an at-least-once receiver with a sequence
    cursor, two uniqueness keys, exact-duplicate detection and conflict rejection. */
module RunTrace {
  import opened Wrappers

  const MAX_BATCH_EVENTS: nat := 100
  const MAX_BATCH_BYTES: nat := 8 * 1024 * 1024
  const MAX_EVENT_PAYLOAD_BYTES: nat := 2 * 1024 * 1024

  /** A normalised event; `body` stands for the remaining compared fields. */
  datatype Event = Event(id: nat, sequence: int, body: string)

  /** A submitted event with the encoded size of its payload. */
  datatype Item = Item(event: Event, bytes: nat)

  datatype Rejection =
    | EmptyBatch
    | TooManyEvents
    | BadSequence
    | PayloadTooLarge
    | BatchTooLarge
    | RepeatedSequence
    | RepeatedId
    | Unordered
    | WrongNode
    | Conflict
    | CursorGap

  datatype Receipt = Receipt(inserted: nat, duplicates: nat, lastSequence: int)

  // --------------------------------------------------------- validation

  function TotalBytes(batch: seq<Item>): nat {
    if batch == [] then 0 else batch[0].bytes + TotalBytes(batch[1..])
  }

  predicate DistinctSequences(batch: seq<Item>) {
    forall i, j :: 0 <= i < j < |batch| ==> batch[i].event.sequence != batch[j].event.sequence
  }

  predicate DistinctIds(batch: seq<Item>) {
    forall i, j :: 0 <= i < j < |batch| ==> batch[i].event.id != batch[j].event.id
  }

  predicate Ordered(batch: seq<Item>) {
    forall i, j :: 0 <= i < j < |batch| ==> batch[i].event.sequence <= batch[j].event.sequence
  }

  /** Why an item does not normalise, if it does not. */
  function ItemError(item: Item): Option<Rejection> {
    if item.event.sequence < 1 then Some(BadSequence)
    else if item.bytes > MAX_EVENT_PAYLOAD_BYTES then Some(PayloadTooLarge)
    else None
  }

  /** The first item that does not normalise decides the error. */
  function Malformed(batch: seq<Item>): (r: Option<Rejection>)
    ensures r.None? ==> forall i :: 0 <= i < |batch| ==> ItemError(batch[i]).None?
    ensures r.Some? ==> exists i :: 0 <= i < |batch| && r == ItemError(batch[i])
                                    && forall j :: 0 <= j < i ==> ItemError(batch[j]).None?
  {
    if batch == [] then None
    else
      var first, rest := batch[0], batch[1..];
      assert forall i :: 0 < i < |batch| ==> batch[i] == rest[i - 1];
      if ItemError(first).Some? then ItemError(first)
      else
        var r := Malformed(rest);
        assert r.Some? ==> exists i :: 0 < i < |batch| && r == ItemError(batch[i])
                                       && forall j :: 0 <= j < i ==> ItemError(batch[j]).None? by {
          if r.Some? {
            var i :| 0 <= i < |rest| && r == ItemError(rest[i])
                     && forall j :: 0 <= j < i ==> ItemError(rest[j]).None?;
            assert r == ItemError(batch[i + 1]);
          }
        }
        r
  }

  /** The checks made before the stored log is consulted, in their order. */
  function Validate(batch: seq<Item>): Option<Rejection> {
    if batch == [] then Some(EmptyBatch)
    else if |batch| > MAX_BATCH_EVENTS then Some(TooManyEvents)
    else if Malformed(batch).Some? then Malformed(batch)
    else if TotalBytes(batch) > MAX_BATCH_BYTES then Some(BatchTooLarge)
    else if !DistinctSequences(batch) then Some(RepeatedSequence)
    else if !DistinctIds(batch) then Some(RepeatedId)
    else if !Ordered(batch) then Some(Unordered)
    else None
  }

  // ------------------------------------------------------------- append

  /** The stored row with this event id, searching from the end as the last entry of a
      dictionary built over the rows wins. */
  function FindId(log: seq<Event>, id: nat): (r: Option<nat>)
    ensures r.Some? ==> r.value < |log| && log[r.value].id == id
    ensures r.None? ==> forall i :: 0 <= i < |log| ==> log[i].id != id
  {
    if log == [] then None
    else if log[|log| - 1].id == id then Some(|log| - 1)
    else FindId(log[..|log| - 1], id)
  }

  function FindSequence(log: seq<Event>, sequence: int): (r: Option<nat>)
    ensures r.Some? ==> r.value < |log| && log[r.value].sequence == sequence
    ensures r.None? ==> forall i :: 0 <= i < |log| ==> log[i].sequence != sequence
  {
    if log == [] then None
    else if log[|log| - 1].sequence == sequence then Some(|log| - 1)
    else FindSequence(log[..|log| - 1], sequence)
  }

  function LastSequence(log: seq<Event>): int {
    if log == [] then 0
    else
      var rest := LastSequence(log[..|log| - 1]);
      if log[|log| - 1].sequence > rest then log[|log| - 1].sequence else rest
  }

  datatype Class = Duplicate | New | Clash

  function Classify(log: seq<Event>, e: Event): Class {
    var byId := FindId(log, e.id);
    var bySequence := FindSequence(log, e.sequence);
    if byId.None? && bySequence.None? then New
    else if byId.Some? && byId == bySequence && log[byId.value] == e then Duplicate
    else Clash
  }

  predicate HasClash(log: seq<Event>, batch: seq<Item>) {
    exists i :: 0 <= i < |batch| && Classify(log, batch[i].event).Clash?
  }

  /** The events of the batch that the log does not hold, in order. */
  function Pending(log: seq<Event>, batch: seq<Item>): (p: seq<Event>)
    ensures |p| <= |batch|
  {
    if batch == [] then []
    else
      Pending(log, batch[..|batch| - 1]) +
      if Classify(log, batch[|batch| - 1].event).New? then [batch[|batch| - 1].event] else []
  }

  predicate Continues(cursor: int, pending: seq<Event>) {
    forall i :: 0 <= i < |pending| ==> pending[i].sequence == cursor + 1 + i
  }

  function MaxSequence(batch: seq<Item>): int
    requires batch != []
  {
    var last := batch[|batch| - 1].event.sequence;
    if |batch| == 1 then last
    else
      var rest := MaxSequence(batch[..|batch| - 1]);
      if last > rest then last else rest
  }

  /** The outcome of submitting a batch; the new log and the receipt when it is accepted. */
  function Append(log: seq<Event>, batch: seq<Item>): Result<(seq<Event>, Receipt), Rejection> {
    var invalid := Validate(batch);
    if invalid.Some? then Err(invalid.value)
    else if HasClash(log, batch) then Err(Conflict)
    else
      var pending := Pending(log, batch);
      if !Continues(LastSequence(log), pending) then Err(CursorGap)
      else Ok((log + pending,
               Receipt(|pending|, |batch| - |pending|, MaxSequence(batch))))
  }

  // -------------------------------------------------- in-place receiver

  class Trace {
    var log: seq<Event>
    const node: nat

    constructor (node: nat)
      ensures log == [] && this.node == node
    {
      log := [];
      this.node := node;
    }

    /** Validate and append one at-least-once batch; a rejected batch changes nothing. */
    method AppendEvents(sender: nat, batch: seq<Item>) returns (r: Result<Receipt, Rejection>)
      modifies this
      ensures var spec := Append(old(log), batch);
              if Validate(batch).Some? then r == Err(Validate(batch).value) && log == old(log)
              else if sender != node then r == Err(WrongNode) && log == old(log)
              else if spec.Ok? then r == Ok(spec.value.1) && log == spec.value.0
              else r == Err(spec.error) && log == old(log)
    {
      var invalid := Validate(batch);
      if invalid.Some? {
        return Err(invalid.value);
      }
      if sender != node {
        return Err(WrongNode);
      }
      var cursor := LastSequence(log);
      var duplicateCount := 0;
      var pending := [];
      for i := 0 to |batch|
        invariant log == old(log)
        invariant pending == Pending(log, batch[..i])
        invariant |pending| + duplicateCount == i
        invariant forall j :: 0 <= j < i ==> !Classify(log, batch[j].event).Clash?
      {
        assert batch[..i + 1][..i] == batch[..i];
        var item := batch[i].event;
        var byId := FindId(log, item.id);
        var bySequence := FindSequence(log, item.sequence);
        if byId.Some? || bySequence.Some? {
          if byId.None? || bySequence.None? || byId != bySequence || log[byId.value] != item {
            assert Classify(log, item).Clash?;
            return Err(Conflict);
          }
          duplicateCount := duplicateCount + 1;
        } else {
          pending := pending + [item];
        }
      }
      assert batch[..|batch|] == batch;
      if !Continues(cursor, pending) {
        return Err(CursorGap);
      }
      log := log + pending;
      return Ok(Receipt(|pending|, duplicateCount, MaxSequence(batch)));
    }
  }
}

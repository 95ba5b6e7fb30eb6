/** Suppressed duplicates form a first-in first-out queue behind the key holder: a skip
    promotes the oldest one, moves the rest up by one place and strands nobody. */
module AlertQueue {
  import opened Wrappers
  import opened AlertStore
  import opened AlertSystem
  import opened AlertInvariant
  import opened AlertSteps
  import opened AlertHistory

  lemma {:induction false} DuplicatesFrame(rows: seq<Delivery>, after: seq<Delivery>, o: nat, n: nat)
    requires n <= |rows| && n <= |after|
    requires forall j :: 0 <= j < n ==> (IsDuplicate(rows[j], o) <==> IsDuplicate(after[j], o))
    ensures Duplicates(rows, o, n) == Duplicates(after, o, n)
  {
    if n > 0 {
      DuplicatesFrame(rows, after, o, n - 1);
    }
  }

  /** The list starts with the oldest duplicate, and is empty only if there is none. */
  lemma {:induction false} DuplicatesFirst(rows: seq<Delivery>, o: nat, n: nat)
    requires n <= |rows|
    ensures forall k :: 0 <= k < n && IsDuplicate(rows[k], o) ==>
              Duplicates(rows, o, n) != [] && Duplicates(rows, o, n)[0] <= k
  {
    if n > 0 {
      DuplicatesFirst(rows, o, n - 1);
    }
  }

  lemma {:induction false} NoDuplicates(rows: seq<Delivery>, o: nat, n: nat)
    requires n <= |rows|
    requires forall j :: 0 <= j < n ==> !IsDuplicate(rows[j], o)
    ensures Duplicates(rows, o, n) == []
  {
    if n > 0 {
      NoDuplicates(rows, o, n - 1);
    }
  }

  /** Dropping the first of the duplicates drops it from the list. */
  lemma {:induction false} DuplicatesShift(rows: seq<Delivery>, after: seq<Delivery>, owner: nat, heir: nat, n: nat)
    requires heir < n <= |rows| && n <= |after|
    requires IsDuplicate(rows[heir], owner)
    requires forall j :: 0 <= j < heir ==> !IsDuplicate(rows[j], owner)
    requires forall j :: 0 <= j < n ==> (IsDuplicate(after[j], heir) <==> IsDuplicate(rows[j], owner) && j != heir)
    ensures Duplicates(rows, owner, n) == [heir] + Duplicates(after, heir, n)
  {
    if n == heir + 1 {
      NoDuplicates(rows, owner, heir);
      NoDuplicates(after, heir, n);
    } else {
      DuplicatesShift(rows, after, owner, heir, n - 1);
    }
  }

  /** Row `j` waits behind an owner. */
  predicate Queued(rows: seq<Delivery>, j: nat) {
    j < |rows| && rows[j].status == Suppressed && rows[j].destination.deduplicatedBy.Some?
  }

  function Owner(rows: seq<Delivery>, j: nat): nat
    requires Queued(rows, j)
  {
    rows[j].destination.deduplicatedBy.value
  }

  /** How many older duplicates of the same owner stand before row `j`. */
  function Ahead(rows: seq<Delivery>, j: nat): nat
    requires Queued(rows, j)
  {
    |Duplicates(rows, Owner(rows, j), j)|
  }

  /** The step skips the owner that row `j` points at. */
  predicate SkipsOwner(s: System, step: Step, j: nat) {
    Queued(s.store.deliveries, j) && Skips(s, step) && s.workers[step.token].delivery == Owner(s.store.deliveries, j)
  }

  /** How a skip of row `i` changes row `j`, `d` being the duplicates of `i`. */
  predicate SkipRow(r: Delivery, b: Delivery, j: nat, i: nat, d: seq<nat>, now: int) {
    if j == i then
      b.status == Skipped && b.dedupeKey == if d == [] then r.dedupeKey else None
    else if d == [] then b == r
    else if j == d[0] then
      b.status == Pending && b.dedupeKey == Some(r.identity) && b.identity == r.identity
      && b.destination.deduplicatedBy.None? && b.nextAttemptAt == now
    else if IsDuplicate(r, i) then
      b == r.(destination := r.destination.(deduplicatedBy := Some(d[0])))
    else b == r
  }

  lemma SkippedRows(rows: seq<Delivery>, i: nat, read: Delivery, now: int, j: nat)
    requires i < |rows| && j < |rows|
    requires rows[i].status != Suppressed && read.dedupeKey == rows[i].dedupeKey == Some(rows[i].identity)
    requires forall k :: 0 <= k < |rows| && IsDuplicate(rows[k], i) ==> rows[k].identity == rows[i].identity
    ensures var after := FinalRows(rows, i, read, Declined, now);
            |after| == |rows| && SkipRow(rows[j], after[j], j, i, Duplicates(rows, i, |rows|), now)
  {
    var written := rows[i := FinalRow(rows[i], read.attempts, Declined, now)];
    DuplicatesFrame(rows, written, i, |rows|);
  }

  lemma DuplicatesShareIdentity(rows: seq<Delivery>, i: nat)
    requires Ownership(rows) && i < |rows| && rows[i].dedupeKey == Some(rows[i].identity)
    ensures forall k :: 0 <= k < |rows| && IsDuplicate(rows[k], i) ==> rows[k].identity == rows[i].identity
  {
    forall k | 0 <= k < |rows| && IsDuplicate(rows[k], i)
      ensures rows[k].identity == rows[i].identity
    {
      assert Keyed(rows, k);
    }
  }

  /** Whoever finalises a row read its key, and the row is an owner. */
  lemma FinaliserOwns(s: System, token: nat)
    requires Ownership(s.store.deliveries) && Leased(s.store.deliveries, s.workers) && Finalising(s, token)
    ensures var r := s.store.deliveries[s.workers[token].delivery];
            r.status != Suppressed && s.workers[token].read.value.dedupeKey == r.dedupeKey == Some(r.identity)
  {
    var i := s.workers[token].delivery;
    assert RowLease(s.store.deliveries[i], i, s.workers) && Keyed(s.store.deliveries, i);
  }

  lemma SkipShape(s: System, step: Step, j: nat)
    requires Inv(s) && Skips(s, step) && j < |s.store.deliveries|
    ensures var i := s.workers[step.token].delivery;
            var rows, after := s.store.deliveries, Apply(s, step).store.deliveries;
            && |after| == |rows|
            && rows[i].status != Suppressed
            && rows[i].dedupeKey == Some(rows[i].identity)
            && SkipRow(rows[j], after[j], j, i, Duplicates(rows, i, |rows|), step.now)
  {
    var i := s.workers[step.token].delivery;
    var read := s.workers[step.token].read.value;
    var rows := s.store.deliveries;
    FinaliserOwns(s, step.token);
    DuplicatesShareIdentity(rows, i);
    FinaliseShape(s.store, step.token, i, read, Declined, step.now);
    assert Apply(s, step).store.deliveries == FinalRows(rows, i, read, Declined, step.now);
    SkippedRows(rows, i, read, step.now, j);
  }

  /** After a skip nobody points at the skipped row any more: its key has gone to the
      oldest duplicate, which is due at once, or stays with it if there is none. */
  lemma {:induction false} NobodyStranded(s: System, step: Step)
    requires Inv(s) && Skips(s, step)
    ensures var i := s.workers[step.token].delivery;
            var rows, after := s.store.deliveries, Apply(s, step).store.deliveries;
            var d := Duplicates(rows, i, |rows|);
            && |after| == |rows|
            && after[i].status == Skipped
            && Duplicates(after, i, |after|) == []
            && KeyHolder(after, rows[i].identity) == Some(if d == [] then i else d[0])
            && (d != [] ==> after[d[0]].status == Pending && after[d[0]].nextAttemptAt == step.now)
  {
    var i := s.workers[step.token].delivery;
    var rows, after := s.store.deliveries, Apply(s, step).store.deliveries;
    var d := Duplicates(rows, i, |rows|);
    SkipShape(s, step, i);
    DuplicatesFirst(rows, i, |rows|);
    forall j | 0 <= j < |after|
      ensures !IsDuplicate(after[j], i)
    {
      SkipShape(s, step, j);
    }
    NoDuplicates(after, i, |after|);
    var h := if d == [] then i else d[0];
    SkipShape(s, step, h);
    assert Keyed(rows, h);
    StepInv(s, step);
    UniqueHolder(after, h, rows[i].identity);
  }

  lemma {:induction false} SkipMovesUp(s: System, step: Step, j: nat)
    requires Inv(s) && SkipsOwner(s, step, j)
    ensures j < |Apply(s, step).store.deliveries|
    ensures var rows, after := s.store.deliveries, Apply(s, step).store.deliveries;
            if Ahead(rows, j) == 0
            then after[j].status == Pending && after[j].dedupeKey == Some(after[j].identity)
            else Queued(after, j) && Ahead(after, j) == Ahead(rows, j) - 1
  {
    var rows, after := s.store.deliveries, Apply(s, step).store.deliveries;
    var i := Owner(rows, j);
    DuplicatesFirst(rows, i, |rows|);
    var heir := Duplicates(rows, i, |rows|)[0];
    SkipShape(s, step, j);
    if j == heir {
      NoDuplicates(rows, i, j);
    } else {
      forall k | 0 <= k < j
        ensures IsDuplicate(after[k], heir) <==> IsDuplicate(rows[k], i) && k != heir
      {
        SkipShape(s, step, k);
        NotBehindDuplicate(rows, k, heir);
      }
      DuplicatesShift(rows, after, i, heir, j);
    }
  }

  /** Nobody waits behind a suppressed row. */
  lemma NotBehindDuplicate(rows: seq<Delivery>, k: nat, heir: nat)
    requires Ownership(rows) && k < |rows| && heir < |rows| && rows[heir].status == Suppressed
    ensures !IsDuplicate(rows[k], heir)
  {
    assert Keyed(rows, k) && Keyed(rows, heir);
  }

  lemma OthersStay(s: System, step: Step, j: nat)
    requires Inv(s) && Feasible(step) && Queued(s.store.deliveries, j) && !SkipsOwner(s, step, j)
    ensures Queued(Apply(s, step).store.deliveries, j)
    ensures Owner(Apply(s, step).store.deliveries, j) == Owner(s.store.deliveries, j)
    ensures Ahead(Apply(s, step).store.deliveries, j) == Ahead(s.store.deliveries, j)
  {
    var rows, after := s.store.deliveries, Apply(s, step).store.deliveries;
    var o := Owner(rows, j);
    assert Keyed(rows, j) && Keyed(rows, o);
    if Skips(s, step) {
      forall k | 0 <= k <= j
        ensures k < |after| && (IsDuplicate(after[k], o) <==> IsDuplicate(rows[k], o))
      {
        SkipShape(s, step, k);
      }
      SkipShape(s, step, j);
    } else {
      StepRows(s, step);
    }
    DuplicatesFrame(rows, after, o, j);
  }

  /** How often the owner in front of row `j` is skipped during the run. */
  function Turns(s: System, steps: seq<Step>, j: nat): nat {
    if steps == [] then 0
    else
      var front := steps[..|steps| - 1];
      Turns(s, front, j) + if SkipsOwner(RunFrom(s, front), steps[|steps| - 1], j) then 1 else 0
  }

  /** A waiting duplicate is reached after exactly as many skips as there are rows in
      front of it, itself included: no one is lost and no one is overtaken. */
  lemma {:induction false} TriedInTurn(s: System, steps: seq<Step>, j: nat)
    requires Inv(s) && FeasibleRun(steps) && Queued(s.store.deliveries, j)
    ensures var t := RunFrom(s, steps);
            && j < |t.store.deliveries|
            && (t.store.deliveries[j].status == Suppressed <==> Turns(s, steps, j) <= Ahead(s.store.deliveries, j))
            && (t.store.deliveries[j].status == Suppressed ==>
                  Queued(t.store.deliveries, j)
                  && Ahead(t.store.deliveries, j) == Ahead(s.store.deliveries, j) - Turns(s, steps, j))
  {
    if steps != [] {
      var front, last := steps[..|steps| - 1], steps[|steps| - 1];
      TriedInTurn(s, front, j);
      Reachable(s, front);
      var u := RunFrom(s, front);
      if SkipsOwner(u, last, j) {
        SkipMovesUp(u, last, j);
      } else if Queued(u.store.deliveries, j) {
        OthersStay(u, last, j);
      } else {
        StepEffect(u, last);
        assert Follows(u.store.deliveries[j], Apply(u, last).store.deliveries[j]);
      }
    }
  }
}

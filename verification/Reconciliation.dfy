/** Round-robin re-checking of runs: the least recently checked ones go first, and a
    checked run moves to the back. */
module Reconciliation {

  /** The query's order: by last check, then by primary key. */
  predicate Earlier(checked: map<nat, int>, a: nat, b: nat)
    requires a in checked && b in checked
  {
    checked[a] < checked[b] || (checked[a] == checked[b] && a < b)
  }

  /** `q` is the ordered listing of all eligible runs. */
  ghost predicate Lists(q: seq<nat>, checked: map<nat, int>) {
    && (forall r :: r in q <==> r in checked)
    && (forall i, j :: 0 <= i < j < |q| ==> Earlier(checked, q[i], q[j]))
  }

  function Batch(q: seq<nat>, limit: nat): seq<nat> {
    if |q| <= limit then q else q[..limit]
  }

  /** The listing after the picked runs have moved to the back. */
  function Rotate(q: seq<nat>, limit: nat): seq<nat> {
    q[|Batch(q, limit)|..] + Batch(q, limit)
  }

  /** The clock readings of one round: later than every earlier check, and advancing. */
  ghost predicate Advancing(checked: map<nat, int>, times: seq<int>, n: nat) {
    && |times| >= n
    && (forall r, k :: r in checked && 0 <= k < n ==> checked[r] < times[k])
    && (forall i, j :: 0 <= i < j < n ==> times[i] < times[j])
  }

  /** The check times after the first `n` picked runs were touched. */
  function Touched(checked: map<nat, int>, picked: seq<nat>, times: seq<int>, n: nat): map<nat, int>
    requires n <= |picked| && n <= |times|
  {
    if n == 0 then checked else Touched(checked, picked, times, n - 1)[picked[n - 1] := times[n - 1]]
  }

  lemma {:induction false} TouchedAt(checked: map<nat, int>, picked: seq<nat>, times: seq<int>, n: nat)
    requires n <= |picked| && n <= |times|
    requires forall i, j :: 0 <= i < j < |picked| ==> picked[i] != picked[j]
    requires forall i :: 0 <= i < |picked| ==> picked[i] in checked
    ensures Touched(checked, picked, times, n).Keys == checked.Keys
    ensures forall i :: 0 <= i < n ==> Touched(checked, picked, times, n)[picked[i]] == times[i]
    ensures forall r :: r in checked && r !in picked[..n] ==> Touched(checked, picked, times, n)[r] == checked[r]
  {
    if n > 0 {
      TouchedAt(checked, picked, times, n - 1);
      assert picked[..n] == picked[..n - 1] + [picked[n - 1]];
    }
  }

  class Reconciler {
    var checked: map<nat, int>

    constructor (initial: map<nat, int>)
      ensures checked == initial
    {
      checked := initial;
    }

    /** One sweep over the oldest `limit` runs; `q` is what the ordered query returns. */
    method Round(q: seq<nat>, limit: nat, times: seq<int>) returns (picked: seq<nat>)
      requires Lists(q, checked) && Advancing(checked, times, |Batch(q, limit)|)
      modifies this
      ensures picked == Batch(q, limit)
      ensures checked == Touched(old(checked), picked, times, |picked|)
      ensures Lists(Rotate(q, limit), checked)
    {
      picked := Batch(q, limit);
      for i := 0 to |picked|
        invariant checked == Touched(old(checked), picked, times, i)
      {
        checked := checked[picked[i] := times[i]];
      }
      RoundRotates(q, old(checked), limit, times);
    }
  }

  lemma ListDistinct(q: seq<nat>, checked: map<nat, int>)
    requires Lists(q, checked)
    ensures forall i, j :: 0 <= i < j < |q| ==> q[i] != q[j]
  {
    forall i, j | 0 <= i < j < |q|
      ensures q[i] != q[j]
    {
      assert Earlier(checked, q[i], q[j]);
    }
  }

  /** After a round the picked runs carry their new times and the others their old ones. */
  lemma AfterRound(q: seq<nat>, checked: map<nat, int>, limit: nat, times: seq<int>)
    requires Lists(q, checked) && Advancing(checked, times, |Batch(q, limit)|)
    ensures var n := |Batch(q, limit)|;
            var after := Touched(checked, Batch(q, limit), times, n);
            && after.Keys == checked.Keys
            && (forall k :: 0 <= k < n ==> q[k] in after && after[q[k]] == times[k])
            && (forall k :: n <= k < |q| ==> q[k] in after && after[q[k]] == checked[q[k]])
  {
    ListDistinct(q, checked);
    var picked := Batch(q, limit);
    assert picked[..|picked|] == picked;
    assert forall k :: 0 <= k < |picked| ==> picked[k] == q[k];
    assert forall k :: 0 <= k < |q| ==> q[k] in q;
    TouchedAt(checked, picked, times, |picked|);
  }

  /** What the rotated listing holds at position `i`, and when that run was checked. */
  lemma RotatedEntry(q: seq<nat>, checked: map<nat, int>, limit: nat, times: seq<int>, i: nat)
    requires Lists(q, checked) && Advancing(checked, times, |Batch(q, limit)|) && i < |q|
    ensures var n := |Batch(q, limit)|;
            var after := Touched(checked, Batch(q, limit), times, n);
            var back := |q| - n;
            && |Rotate(q, limit)| == |q|
            && (if i < back
                then Rotate(q, limit)[i] == q[n + i] && q[n + i] in after && after[q[n + i]] == checked[q[n + i]]
                else Rotate(q, limit)[i] == q[i - back] && q[i - back] in after
                     && after[q[i - back]] == times[i - back])
  {
    AfterRound(q, checked, limit, times);
  }

  lemma RotatedKeys(q: seq<nat>, checked: map<nat, int>, limit: nat, times: seq<int>)
    requires Lists(q, checked) && Advancing(checked, times, |Batch(q, limit)|)
    ensures forall r :: r in Rotate(q, limit) <==> r in Touched(checked, Batch(q, limit), times, |Batch(q, limit)|)
  {
    AfterRound(q, checked, limit, times);
    assert q == Batch(q, limit) + q[|Batch(q, limit)|..];
  }

  /** Touching the first runs of the listing rotates it. */
  lemma RoundRotates(q: seq<nat>, checked: map<nat, int>, limit: nat, times: seq<int>)
    requires Lists(q, checked) && Advancing(checked, times, |Batch(q, limit)|)
    ensures var picked := Batch(q, limit);
            Lists(Rotate(q, limit), Touched(checked, picked, times, |picked|))
  {
    var n := |Batch(q, limit)|;
    RotatedKeys(q, checked, limit, times);
    forall i, j | 0 <= i < j < |q|
      ensures Rotate(q, limit)[i] in Touched(checked, Batch(q, limit), times, n)
      ensures Rotate(q, limit)[j] in Touched(checked, Batch(q, limit), times, n)
      ensures Earlier(Touched(checked, Batch(q, limit), times, n), Rotate(q, limit)[i], Rotate(q, limit)[j])
    {
      RotatedEntry(q, checked, limit, times, i);
      RotatedEntry(q, checked, limit, times, j);
      if j < |q| - n {
        assert Earlier(checked, q[n + i], q[n + j]);
      } else if i < |q| - n {
        assert q[n + i] in q;
      }
    }
  }

  /** The head of a listing is the earliest run. */
  lemma HeadIsEarliest(q: seq<nat>, checked: map<nat, int>)
    requires q != [] && Lists(q, checked)
    ensures q[0] in checked
    ensures forall r :: r in checked && r != q[0] ==> Earlier(checked, q[0], r)
  {
    assert q[0] in q;
    forall r | r in checked && r != q[0]
      ensures Earlier(checked, q[0], r)
    {
      assert r in q;
      var i :| 0 <= i < |q| && q[i] == r;
    }
  }

  /** A state has one ordered listing. */
  lemma {:induction false} ListingUnique(p: seq<nat>, q: seq<nat>, checked: map<nat, int>)
    requires Lists(p, checked) && Lists(q, checked)
    ensures p == q
    decreases |p|
  {
    ListSize(p, checked);
    ListSize(q, checked);
    if p != [] {
      HeadIsEarliest(p, checked);
      HeadIsEarliest(q, checked);
      ListTail(p, checked);
      ListTail(q, checked);
      ListingUnique(p[1..], q[1..], checked - {p[0]});
      assert p == [p[0]] + p[1..] && q == [q[0]] + q[1..];
    }
  }

  lemma ListTail(q: seq<nat>, checked: map<nat, int>)
    requires q != [] && Lists(q, checked)
    ensures Lists(q[1..], checked - {q[0]})
  {
    ListDistinct(q, checked);
    forall r
      ensures r in q[1..] <==> r in checked && r != q[0]
    {
      assert q == [q[0]] + q[1..];
    }
    forall i, j | 0 <= i < j < |q[1..]|
      ensures Earlier(checked - {q[0]}, q[1..][i], q[1..][j])
    {
      assert Earlier(checked, q[i + 1], q[j + 1]);
    }
  }

  // ------------------------------------------------------------ fairness

  /** `states` and `queues` record consecutive rounds with limit `limit`: each queue is the
      query's answer in its state, and the next state is what that round leaves. */
  ghost predicate Rounds(states: seq<map<nat, int>>, queues: seq<seq<nat>>, limit: nat) {
    && |states| == |queues| + 1
    && (forall w :: 0 <= w < |queues| ==> Lists(queues[w], states[w]))
    && (forall w :: 0 <= w < |queues| ==> RoundTaken(states[w], states[w + 1], queues[w], limit))
  }

  ghost predicate RoundTaken(before: map<nat, int>, after: map<nat, int>, q: seq<nat>, limit: nat) {
    exists times: seq<int> ::
      Advancing(before, times, |Batch(q, limit)|)
      && after == Touched(before, Batch(q, limit), times, |Batch(q, limit)|)
  }

  lemma NextQueue(before: map<nat, int>, after: map<nat, int>, q: seq<nat>, next: seq<nat>, limit: nat)
    requires Lists(q, before) && Lists(next, after) && RoundTaken(before, after, q, limit)
    ensures next == Rotate(q, limit)
  {
    var times: seq<int> :| Advancing(before, times, |Batch(q, limit)|)
      && after == Touched(before, Batch(q, limit), times, |Batch(q, limit)|);
    RoundRotates(q, before, limit, times);
    ListingUnique(next, Rotate(q, limit), after);
  }

  /** A position within the limit is picked; any other moves up by the limit. */
  lemma PickedOrMoved(q: seq<nat>, limit: nat, at: nat)
    requires at < |q|
    ensures at < limit ==> q[at] in Batch(q, limit)
    ensures at >= limit ==> |Rotate(q, limit)| == |q| && Rotate(q, limit)[at - limit] == q[at]
  {
    if at < limit {
      assert Batch(q, limit)[at] == q[at];
    }
  }

  function Times(w: nat, limit: nat): nat {
    if w == 0 then 0 else Times(w - 1, limit) + limit
  }

  lemma {:induction false} TimesIsProduct(w: nat, limit: nat)
    ensures Times(w, limit) == w * limit
  {
    if w > 0 {
      TimesIsProduct(w - 1, limit);
      assert w * limit == (w - 1) * limit + limit;
    }
  }

  ghost predicate Rotations(queues: seq<seq<nat>>, limit: nat) {
    forall v, w :: 0 <= v && w == v + 1 && w < |queues| ==> queues[w] == Rotate(queues[v], limit)
  }

  lemma RoundsRotate(states: seq<map<nat, int>>, queues: seq<seq<nat>>, limit: nat)
    requires Rounds(states, queues, limit)
    ensures Rotations(queues, limit)
  {
    forall v, w | 0 <= v && w == v + 1 && w < |queues|
      ensures queues[w] == Rotate(queues[v], limit)
    {
      assert RoundTaken(states[v], states[v + 1], queues[v], limit);
      NextQueue(states[v], states[v + 1], queues[v], queues[v + 1], limit);
    }
  }

  /** A run that has not been picked for `w` rounds has moved up `w` times the limit. */
  lemma {:induction false} MovesUp(queues: seq<seq<nat>>, limit: nat, p: nat, w: nat)
    requires Rotations(queues, limit) && w < |queues| && p < |queues[0]|
    requires forall v :: 0 <= v < w ==> queues[0][p] !in Batch(queues[v], limit)
    ensures Times(w, limit) <= p && |queues[w]| == |queues[0]| && queues[w][p - Times(w, limit)] == queues[0][p]
  {
    if w > 0 {
      var v := w - 1;
      MovesUp(queues, limit, p, v);
      assert queues[w] == Rotate(queues[v], limit);
      PickedOrMoved(queues[v], limit, p - Times(v, limit));
    }
  }

  /** Every run is picked within any `rounds` consecutive rounds, as soon as `rounds` times
      the limit covers the eligible runs. */
  lemma EveryRunIsReached(states: seq<map<nat, int>>, queues: seq<seq<nat>>, limit: nat, r: nat)
    requires Rounds(states, queues, limit) && queues != [] && r in states[0]
    requires |states[0]| <= |queues| * limit
    ensures exists w :: 0 <= w < |queues| && r in Batch(queues[w], limit)
  {
    assert Lists(queues[0], states[0]) && r in queues[0];
    ListSize(queues[0], states[0]);
    var p :| 0 <= p < |queues[0]| && queues[0][p] == r;
    var last := |queues| - 1;
    if forall v :: 0 <= v < last ==> r !in Batch(queues[v], limit) {
      RoundsRotate(states, queues, limit);
      MovesUp(queues, limit, p, last);
      TimesIsProduct(|queues|, limit);
      PickedOrMoved(queues[last], limit, p - Times(last, limit));
    }
  }

  lemma {:induction false} ListSize(q: seq<nat>, checked: map<nat, int>)
    requires Lists(q, checked)
    ensures |q| == |checked|
    decreases |q|
  {
    if q == [] {
      assert checked.Keys == {};
    } else {
      assert q[0] in q;
      ListTail(q, checked);
      ListSize(q[1..], checked - {q[0]});
      assert checked.Keys == (checked - {q[0]}).Keys + {q[0]};
    }
  }

  /** The bound is tight: with one round less than needed the last run is still waiting. */
  lemma BoundIsTight(states: seq<map<nat, int>>, queues: seq<seq<nat>>, limit: nat)
    requires Rounds(states, queues, limit) && queues != [] && |queues[0]| > |queues| * limit
    ensures var r := queues[0][|queues[0]| - 1];
            forall w :: 0 <= w < |queues| ==> r !in Batch(queues[w], limit)
  {
    TimesIsProduct(|queues|, limit);
    forall w | 0 <= w < |queues|
      ensures queues[0][|queues[0]| - 1] !in Batch(queues[w], limit)
    {
      StillWaiting(states, queues, limit, w);
    }
  }

  lemma {:induction false} StillWaiting(states: seq<map<nat, int>>, queues: seq<seq<nat>>, limit: nat, w: nat)
    requires Rounds(states, queues, limit) && w < |queues| && |queues[0]| > Times(|queues|, limit)
    ensures forall v :: 0 <= v <= w ==> queues[0][|queues[0]| - 1] !in Batch(queues[v], limit)
  {
    if w > 0 {
      StillWaiting(states, queues, limit, w - 1);
    }
    var p := |queues[0]| - 1;
    RoundsRotate(states, queues, limit);
    MovesUp(queues, limit, p, w);
    TimesGrow(w + 1, |queues|, limit);
    BehindLimit(queues[w], states[w], limit, p - Times(w, limit));
  }

  lemma BehindLimit(q: seq<nat>, checked: map<nat, int>, limit: nat, at: nat)
    requires Lists(q, checked) && limit <= at < |q|
    ensures q[at] !in Batch(q, limit)
  {
    ListDistinct(q, checked);
  }

  lemma {:induction false} TimesGrow(a: nat, b: nat, limit: nat)
    requires a <= b
    ensures Times(a, limit) <= Times(b, limit)
    decreases b
  {
    if a < b {
      TimesGrow(a, b - 1, limit);
    }
  }
}

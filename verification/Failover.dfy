/** Metered model failover: replay on another model is allowed only before any output. */
module Failover {
  import opened Wrappers

  const MAX_FALLBACKS: nat := 3

  /** A parsed model identifier. */
  type Model = nat

  // --------------------------------------------------- fallback selection

  /** `None` stands for a configured entry that is not a UUID. */
  predicate Accepts(primary: Model, chosen: seq<Model>, value: Option<Model>) {
    value.Some? && value.value != primary && value.value !in chosen
  }

  function Candidates(primary: Model, configured: seq<Option<Model>>): seq<Model> {
    if configured == [] then []
    else
      var chosen := Candidates(primary, configured[..|configured| - 1]);
      var value := configured[|configured| - 1];
      if Accepts(primary, chosen, value) then chosen + [value.value] else chosen
  }

  function Available(candidates: seq<Model>, available: set<Model>): seq<Model> {
    if candidates == [] then []
    else
      Available(candidates[..|candidates| - 1], available) +
      if candidates[|candidates| - 1] in available then [candidates[|candidates| - 1]] else []
  }

  function Limited<T>(configured: seq<T>): seq<T> {
    if |configured| <= MAX_FALLBACKS then configured else configured[..MAX_FALLBACKS]
  }

  /** The primary's own list, in order: parsed, distinct, different from the primary, and
      available to the caller.  A primary that cannot be resolved has no fallbacks. */
  function Fallbacks(primary: Option<Model>, configured: seq<Option<Model>>, available: set<Model>): seq<Model> {
    if primary.None? then [] else Available(Candidates(primary.value, Limited(configured)), available)
  }

  method FallbackModelRefs(primary: Option<Model>, configured: seq<Option<Model>>, available: set<Model>)
    returns (refs: seq<Model>)
    ensures refs == Fallbacks(primary, configured, available)
  {
    if primary.None? {
      return [];
    }
    var limited := Limited(configured);
    var candidates := [];
    for i := 0 to |limited|
      invariant candidates == Candidates(primary.value, limited[..i])
    {
      assert limited[..i + 1][..i] == limited[..i];
      if limited[i].Some? && limited[i].value != primary.value && limited[i].value !in candidates {
        candidates := candidates + [limited[i].value];
      }
    }
    assert limited[..|limited|] == limited;
    refs := [];
    for i := 0 to |candidates|
      invariant refs == Available(candidates[..i], available)
    {
      assert candidates[..i + 1][..i] == candidates[..i];
      if candidates[i] in available {
        refs := refs + [candidates[i]];
      }
    }
    assert candidates[..|candidates|] == candidates;
  }

  ghost predicate Distinct(s: seq<Model>) {
    forall i, j :: 0 <= i < j < |s| ==> s[i] != s[j]
  }

  /** `a` appears in the list before any occurrence of `b`. */
  ghost predicate Before(configured: seq<Option<Model>>, a: Model, b: Model) {
    exists i :: 0 <= i < |configured| && configured[i] == Some(a)
      && forall j :: 0 <= j <= i ==> configured[j] != Some(b)
  }

  /** Later choices first appear later in the configured list. */
  ghost predicate InOrder(configured: seq<Option<Model>>, chosen: seq<Model>) {
    forall a, b :: 0 <= a < b < |chosen| ==> Before(configured, chosen[a], chosen[b])
  }

  lemma {:induction false} CandidatesSound(primary: Model, configured: seq<Option<Model>>)
    ensures var c := Candidates(primary, configured);
            && |c| <= |configured| && Distinct(c) && InOrder(configured, c)
            && forall m :: m in c <==> m != primary && Some(m) in configured
  {
    if configured != [] {
      var front, value := configured[..|configured| - 1], configured[|configured| - 1];
      assert configured == front + [value];
      CandidatesSound(primary, front);
      var c := Candidates(primary, configured);
      forall a, b | 0 <= a < b < |c|
        ensures Before(configured, c[a], c[b])
      {
        var d := Candidates(primary, front);
        if b < |d| {
          assert Before(front, d[a], d[b]);
          var i :| 0 <= i < |front| && front[i] == Some(d[a]) && forall j :: 0 <= j <= i ==> front[j] != Some(d[b]);
          assert configured[i] == Some(c[a]);
        } else {
          assert d[a] in d && Some(d[a]) in front;
          var i :| 0 <= i < |front| && front[i] == Some(d[a]);
          assert configured[i] == Some(c[a]) && Some(c[b]) !in front;
          assert forall j :: 0 <= j <= i ==> front[j] in front && configured[j] == front[j];
        }
      }
    }
  }

  lemma {:induction false} AvailableSound(candidates: seq<Model>, available: set<Model>, configured: seq<Option<Model>>)
    requires Distinct(candidates) && InOrder(configured, candidates)
    ensures var a := Available(candidates, available);
            && |a| <= |candidates| && Distinct(a) && InOrder(configured, a)
            && forall m :: m in a <==> m in candidates && m in available
  {
    if candidates != [] {
      var front, last := candidates[..|candidates| - 1], candidates[|candidates| - 1];
      assert candidates == front + [last];
      AvailableSound(front, available, configured);
      var a := Available(front, available);
      forall i | 0 <= i < |a|
        ensures Before(configured, a[i], last)
      {
        assert a[i] in a;
        var k :| 0 <= k < |front| && front[k] == a[i];
        assert candidates[k] == a[i];
      }
    }
  }

  /** At most three fallbacks, pairwise distinct and different from the primary; a model is
      chosen exactly when it is among the first three entries, not the primary, and available;
      the order is the configured one. */
  lemma FallbacksSound(primary: Option<Model>, configured: seq<Option<Model>>, available: set<Model>)
    ensures var f := Fallbacks(primary, configured, available);
            var heads := if |configured| <= 3 then configured else configured[..3];
            && |f| <= 3 && Distinct(f) && InOrder(heads, f)
            && forall m :: m in f <==>
                 primary.Some? && m != primary.value && Some(m) in heads && m in available
  {
    if primary.Some? {
      CandidatesSound(primary.value, Limited(configured));
      AvailableSound(Candidates(primary.value, Limited(configured)), available, Limited(configured));
    }
  }

  // -------------------------------------------------------- one attempt

  /** What a stream or call returns at its end. */
  datatype Terminal = Opaque | Reply(toolCalls: bool, finish: Finish)

  datatype Finish = NoReason | Stop | Other

  datatype End = Returned(terminal: Terminal) | Raised(retryable: bool, error: string)

  /** Everything one model call produces: the chunks it yields and how it ends. */
  datatype Outcome = Outcome(chunks: seq<string>, end: End)

  predicate EmptyStreamResult(emitted: bool, terminal: Terminal) {
    !emitted && terminal.Reply? && !terminal.toolCalls && terminal.finish in {NoReason, Stop}
  }

  /** The attempt's result stands even if another model is left. */
  predicate Settles(stream: bool, o: Outcome) {
    match o.end
    case Returned(terminal) => !stream || !EmptyStreamResult(o.chunks != [], terminal)
    case Raised(retryable, _) => (stream && o.chunks != []) || !retryable
  }

  datatype Code = ModelUnavailable | ModelStreamError

  datatype Retry = Retry(code: Code, attempt: nat)

  /** What the caller observes: chunks, the retry callbacks, the models called and the end. */
  datatype Report = Report(chunks: seq<string>, retries: seq<Retry>, called: seq<Model>, end: End)

  // ----------------------------------------------- the simple specification

  /** The first attempt that settles, else the last one. */
  function FirstSettled(stream: bool, attempts: seq<Outcome>): (i: nat)
    requires attempts != []
    ensures i < |attempts|
    ensures forall j :: 0 <= j < i ==> !Settles(stream, attempts[j])
    ensures i < |attempts| - 1 ==> Settles(stream, attempts[i])
  {
    if |attempts| == 1 || Settles(stream, attempts[0]) then 0 else 1 + FirstSettled(stream, attempts[1..])
  }

  function RetryCode(o: Outcome): Code {
    if o.end.Returned? then ModelStreamError else ModelUnavailable
  }

  function Outcomes(models: seq<Model>, call: (Model, nat) -> Outcome): (o: seq<Outcome>)
    ensures |o| == |models| && forall i :: 0 <= i < |models| ==> o[i] == call(models[i], i)
  {
    seq(|models|, i requires 0 <= i < |models| => call(models[i], i))
  }

  /** A caller sees the settled attempt alone, after one callback per failed attempt. */
  ghost predicate Refines(stream: bool, models: seq<Model>, call: (Model, nat) -> Outcome, r: Report)
    requires models != []
  {
    var attempts := Outcomes(models, call);
    var i := FirstSettled(stream, attempts);
    && r.called == models[..i + 1]
    && r.chunks == (if stream then attempts[i].chunks else [])
    && r.end == attempts[i].end
    && |r.retries| == i
    && forall k :: 0 <= k < i ==> r.retries[k] == Retry(RetryCode(attempts[k]), k + 1)
  }

  // -------------------------------------------------------- the generator

  /** The attempt loop.  `fallbacks` is what the lazily resolved list will hold; `call` is
      what each model does on each attempt. */
  method TrackedAttempts(stream: bool, primary: Model, fallbacks: seq<Model>, call: (Model, nat) -> Outcome)
    returns (r: Report)
    ensures Refines(stream, [primary] + fallbacks, call, r)
  {
    ghost var models := [primary] + fallbacks;
    ghost var attempts := Outcomes(models, call);
    var selected, attempt := primary, 0;
    var yielded: seq<string>, retries: seq<Retry>, called: seq<Model> := [], [], [];
    while true
      invariant attempt <= |fallbacks| && selected == models[attempt]
      invariant called == models[..attempt]
      invariant yielded == []
      invariant |retries| == attempt
      invariant forall k :: 0 <= k < attempt ==> retries[k] == Retry(RetryCode(attempts[k]), k + 1)
      invariant forall k :: 0 <= k < attempt ==> !Settles(stream, attempts[k])
      decreases |fallbacks| - attempt
    {
      called := called + [selected];
      var result := call(selected, attempt);
      var emitted := false;
      if stream {
        for c := 0 to |result.chunks|
          invariant yielded == result.chunks[..c] && emitted == (c > 0)
        {
          yielded := yielded + [result.chunks[c]];
          emitted := true;
        }
        assert result.chunks[..|result.chunks|] == result.chunks;
      }
      var retry := match result.end
        case Returned(terminal) => stream && EmptyStreamResult(emitted, terminal)
        case Raised(retryable, _) => !(emitted || !retryable);
      assert retry <==> !Settles(stream, attempts[attempt]);
      if !retry || attempt == |fallbacks| {
        FirstIs(stream, attempts, attempt);
        return Report(yielded, retries, called, result.end);
      }
      selected := fallbacks[attempt];
      attempt := attempt + 1;
      retries := retries + [Retry(if result.end.Returned? then ModelStreamError else ModelUnavailable, attempt)];
    }
  }

  lemma {:induction false} FirstIs(stream: bool, attempts: seq<Outcome>, i: nat)
    requires i < |attempts|
    requires forall j :: 0 <= j < i ==> !Settles(stream, attempts[j])
    requires i < |attempts| - 1 ==> Settles(stream, attempts[i])
    ensures FirstSettled(stream, attempts) == i
  {
    var f := FirstSettled(stream, attempts);
  }

  // -------------------------------------------------- what it guarantees

  /** The next model is called exactly after an attempt that raised a retryable error before
      any chunk was emitted, or a stream that emitted nothing and ended in a reply without
      tool calls whose finish reason is none or stop. */
  lemma MovesOnExactly(stream: bool, models: seq<Model>, call: (Model, nat) -> Outcome, r: Report, k: nat)
    requires models != [] && Refines(stream, models, call, r) && k + 1 < |models|
    ensures 1 <= |r.called| <= |models| && r.called == models[..|r.called|]
    ensures k + 1 < |r.called| <==>
              && k < |r.called|
              && match call(models[k], k).end
                 case Raised(retryable, _) => retryable && (!stream || call(models[k], k).chunks == [])
                 case Returned(terminal) =>
                   stream && call(models[k], k).chunks == [] && terminal.Reply? && !terminal.toolCalls
                   && (terminal.finish == NoReason || terminal.finish == Stop)
  {
    var attempts := Outcomes(models, call);
    var i := FirstSettled(stream, attempts);
    assert |r.called| == i + 1;
    assert attempts[k] == call(models[k], k);
  }

  lemma CalledDistinct(models: seq<Model>, called: seq<Model>)
    requires Distinct(models) && called <= models
    ensures Distinct(called)
  {
  }

  /** With the selected fallbacks: at most four pairwise distinct models are called, output
      comes from the last one alone, earlier ones yielded nothing, and the callback counts
      1, 2, 3 without gaps. */
  lemma FailoverGuarantees(stream: bool, primary: Model, configured: seq<Option<Model>>, available: set<Model>,
                           call: (Model, nat) -> Outcome, r: Report)
    requires Refines(stream, [primary] + Fallbacks(Some(primary), configured, available), call, r)
    ensures 1 <= |r.called| <= 4 && Distinct(r.called) && r.called[0] == primary
    ensures |r.retries| == |r.called| - 1
    ensures forall k :: 0 <= k < |r.retries| ==>
              r.retries[k].attempt == k + 1
              && (r.retries[k].code == ModelStreamError <==> call(r.called[k], k).end.Returned?)
    ensures var last := call(r.called[|r.called| - 1], |r.called| - 1);
            r.end == last.end && r.chunks == if stream then last.chunks else []
    ensures stream ==> forall k :: 0 <= k < |r.called| - 1 ==> call(r.called[k], k).chunks == []
  {
    FallbacksSound(Some(primary), configured, available);
    var models := [primary] + Fallbacks(Some(primary), configured, available);
    var attempts := Outcomes(models, call);
    var i := FirstSettled(stream, attempts);
    forall a, b | 0 <= a < b < |models|
      ensures models[a] != models[b]
    {
      assert models[b] in Fallbacks(Some(primary), configured, available);
    }
    CalledDistinct(models, r.called);
    forall k | 0 <= k < |r.called| - 1
      ensures stream ==> call(r.called[k], k).chunks == []
    {
      assert !Settles(stream, attempts[k]);
    }
  }
}

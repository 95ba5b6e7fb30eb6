/** The public activity history of one step: a left fold that keeps an activity's
    attributes once shown and adds a summary after a completed business activity. */
module ActivityFold {
  import opened Wrappers

  datatype Kind =
    | CheckingAuthentication | Authenticating | CheckingTool | ReadingOrderCommands
    | QueryOrders | GetOrderDetail | QueryingData
    | CountResults | GroupResults | AnalyzingResults
    | SummarizingResults

  /** Kinds derived from an observed tool event. */
  type ToolKind = k: Kind | k != SummarizingResults witness QueryingData

  datatype Stage = OrderQuery | Preparation | ResultAnalysis | DataQuery

  datatype Status = InProgress | Completed | Failed

  /** An absent attribute is the empty string. */
  datatype Payload = Payload(
    id: string, kind: Kind, stage: Stage, status: Status, startDate: string, endDate: string, orderRef: string)

  datatype Event = Activity(payload: Payload) | Plain(text: string)

  /** A tool event of general chat; identifier and arguments are already reduced to their
      safe forms, with "" for none. */
  datatype ToolCall = ToolCall(
    suffix: string, id: string, kind: Option<ToolKind>, startDate: string, endDate: string, orderRef: string)

  /** One runtime event: `answered` if it reports the end of a general-chat run with a
      non-empty answer, the allowlisted user event it is, the tool call it reports, and
      what it is shown as otherwise. */
  datatype Item = Item(answered: bool, public: Option<string>, tool: Option<ToolCall>, other: Option<string>)

  const SUMMARY_ID: string := "summarize-results"

  predicate Business(k: Kind) {
    k in {AnalyzingResults, CountResults, GetOrderDetail, GroupResults, QueryOrders, QueryingData}
  }

  function ToolStatus(suffix: string): Option<Status> {
    if suffix == "done" then Some(Completed)
    else if suffix == "failed" || suffix == "timeout" then Some(Failed)
    else if suffix == "invoke" || suffix == "start" then Some(InProgress)
    else None
  }

  function StageOf(k: Kind): Stage {
    match k
    case GetOrderDetail => OrderQuery
    case QueryOrders => OrderQuery
    case Authenticating => Preparation
    case CheckingAuthentication => Preparation
    case CheckingTool => Preparation
    case ReadingOrderCommands => Preparation
    case AnalyzingResults => ResultAnalysis
    case CountResults => ResultAnalysis
    case GroupResults => ResultAnalysis
    case _ => DataQuery
  }

  function SanitizeTool(t: ToolCall): Option<Payload> {
    var status := ToolStatus(t.suffix);
    if status.None? || t.id == "" || t.kind.None? then None
    else
      var k := t.kind.value;
      var dated := k == QueryOrders && status.value == InProgress;
      Some(Payload(t.id, k, StageOf(k), status.value,
                   if dated then t.startDate else "",
                   if dated then t.endDate else "",
                   if k in {QueryOrders, GetOrderDetail} then t.orderRef else ""))
  }

  function Sanitize(item: Item): Option<Event> {
    if item.public.Some? then Some(Plain(item.public.value))
    else if item.tool.Some? && SanitizeTool(item.tool.value).Some? then
      Some(Activity(SanitizeTool(item.tool.value).value))
    else if item.other.Some? then Some(Plain(item.other.value))
    else None
  }

  function SummaryEvent(status: Status, orderRef: string): Event {
    Activity(Payload(SUMMARY_ID, SummarizingResults, ResultAnalysis, status, "", "", orderRef))
  }

  function Or(a: string, b: string): string {
    if a != "" then a else b
  }

  /** Attributes already shown for the activity win over new ones. */
  function Stick(previous: Payload, p: Payload): Payload {
    p.(kind := previous.kind, stage := previous.stage,
       startDate := Or(previous.startDate, p.startDate),
       endDate := Or(previous.endDate, p.endDate),
       orderRef := Or(previous.orderRef, p.orderRef))
  }

  datatype Progress = Progress(
    events: seq<Event>, byId: map<string, Payload>, hasResult: bool, context: string)

  function Record(s: Progress, p: Payload): Progress {
    var q := if p.id in s.byId then Stick(s.byId[p.id], p) else p;
    var done := q.status == Completed && Business(q.kind);
    Progress(s.events + [Activity(q)], s.byId[q.id := q],
             s.hasResult || done, if done then q.orderRef else s.context)
  }

  function Step(s: Progress, item: Item): Progress {
    if item.answered && s.hasResult then s.(events := s.events + [SummaryEvent(Completed, s.context)])
    else
      var e := Sanitize(item);
      if e.None? then s
      else if e.value.Activity? then Record(s, e.value.payload)
      else s.(events := s.events + [e.value])
  }

  function Fold(items: seq<Item>): Progress {
    if items == [] then Progress([], map[], false, "")
    else Step(Fold(items[..|items| - 1]), items[|items| - 1])
  }

  /** The loop over the persisted runtime events. */
  method PublicStepDetail(items: seq<Item>) returns (events: seq<Event>)
    ensures events == Fold(items).events
  {
    events := [];
    var byId: map<string, Payload> := map[];
    var hasResult, context := false, "";
    for i := 0 to |items|
      invariant Fold(items[..i]) == Progress(events, byId, hasResult, context)
    {
      assert items[..i + 1][..i] == items[..i];
      var item := items[i];
      if item.answered && hasResult {
        events := events + [SummaryEvent(Completed, context)];
        continue;
      }
      var event := Sanitize(item);
      if event.None? {
        continue;
      }
      if event.value.Activity? {
        var payload := event.value.payload;
        if payload.id in byId {
          payload := Stick(byId[payload.id], payload);
        }
        byId := byId[payload.id := payload];
        if payload.status == Completed && Business(payload.kind) {
          hasResult := true;
          context := payload.orderRef;
        }
        events := events + [Activity(payload)];
      } else {
        events := events + [event.value];
      }
    }
    assert items[..|items|] == items;
  }

  // ---------------------------------------------------------- properties

  /** Showing more of a run never changes what was shown before. */
  lemma {:induction false} PrefixStable(items: seq<Item>, k: nat)
    requires k <= |items|
    ensures Fold(items[..k]).events <= Fold(items).events
    decreases |items|
  {
    if k == |items| {
      assert items[..k] == items;
    } else {
      var front := items[..|items| - 1];
      assert front[..k] == items[..k];
      PrefixStable(front, k);
    }
  }

  predicate IsSummary(e: Event) {
    e.Activity? && e.payload.kind == SummarizingResults
  }

  predicate IsTool(e: Event) {
    e.Activity? && e.payload.kind != SummarizingResults
  }

  predicate IsResult(e: Event) {
    e.Activity? && e.payload.status == Completed && Business(e.payload.kind)
  }

  /** What `a` shows, `b` shows too. */
  predicate Agrees(a: Payload, b: Payload) {
    && a.kind == b.kind && a.stage == b.stage
    && (a.startDate != "" ==> b.startDate == a.startDate)
    && (a.endDate != "" ==> b.endDate == a.endDate)
    && (a.orderRef != "" ==> b.orderRef == a.orderRef)
  }

  predicate SameTool(a: Event, b: Event) {
    IsTool(a) && IsTool(b) && a.payload.id == b.payload.id
  }

  /** Every tool activity shown so far agrees with what is remembered for its id. */
  ghost predicate Remembered(s: Progress) {
    && (forall i :: 0 <= i < |s.events| && IsTool(s.events[i]) ==>
          s.events[i].payload.id in s.byId && Agrees(s.events[i].payload, s.byId[s.events[i].payload.id]))
    && (forall i, j :: 0 <= i < j < |s.events| && SameTool(s.events[i], s.events[j]) ==>
          Agrees(s.events[i].payload, s.events[j].payload))
    && (forall id :: id in s.byId ==> s.byId[id].kind != SummarizingResults)
  }

  lemma RecordRemembers(s: Progress, p: Payload)
    requires Remembered(s) && p.kind != SummarizingResults
    ensures Remembered(Record(s, p))
  {
  }

  lemma {:induction false} FoldRemembers(items: seq<Item>)
    ensures Remembered(Fold(items))
  {
    if items != [] {
      var front, item := items[..|items| - 1], items[|items| - 1];
      FoldRemembers(front);
      var s := Fold(front);
      var e := Sanitize(item);
      if !(item.answered && s.hasResult) && e.Some? && e.value.Activity? {
        RecordRemembers(s, e.value.payload);
      }
    }
  }

  /** Once an activity has shown a kind, stage, date or order, every later event of the
      same activity shows the same. */
  lemma AttributesStick(items: seq<Item>, i: nat, j: nat)
    requires i < j < |Fold(items).events|
    requires IsTool(Fold(items).events[i]) && IsTool(Fold(items).events[j])
    requires Fold(items).events[i].payload.id == Fold(items).events[j].payload.id
    ensures Agrees(Fold(items).events[i].payload, Fold(items).events[j].payload)
  {
    FoldRemembers(items);
  }

  /** `i` is the last result shown before position `n`. */
  ghost predicate LastResult(events: seq<Event>, i: nat, n: nat) {
    && i < n <= |events| && IsResult(events[i])
    && forall k :: i < k < n ==> !IsResult(events[k])
  }

  ghost predicate Justified(s: Progress) {
    && (s.hasResult <==> exists i :: 0 <= i < |s.events| && IsResult(s.events[i]))
    && (forall i: nat :: LastResult(s.events, i, |s.events|) ==> s.context == s.events[i].payload.orderRef)
    && (forall j :: 0 <= j < |s.events| && IsSummary(s.events[j]) ==>
          exists i: nat :: LastResult(s.events, i, j) && s.events[j].payload.orderRef == s.events[i].payload.orderRef)
  }

  lemma LastResultExists(events: seq<Event>, i: nat, n: nat) returns (l: nat)
    requires i < n <= |events| && IsResult(events[i])
    ensures LastResult(events, l, n)
    decreases n - i
  {
    if k :| i < k < n && IsResult(events[k]) {
      l := LastResultExists(events, k, n);
    } else {
      l := i;
    }
  }

  /** `t` is `s` with one more event. */
  predicate Extends(s: Progress, t: Progress) {
    && |t.events| == |s.events| + 1 && t.events[..|s.events|] == s.events
    && var e := t.events[|s.events|];
       t.hasResult == (s.hasResult || IsResult(e))
       && t.context == (if IsResult(e) then e.payload.orderRef else s.context)
  }

  lemma ExtendResult(s: Progress, t: Progress)
    requires Justified(s) && Extends(s, t)
    ensures t.hasResult <==> exists i :: 0 <= i < |t.events| && IsResult(t.events[i])
  {
    if s.hasResult {
      var i :| 0 <= i < |s.events| && IsResult(s.events[i]);
      assert t.events[..|s.events|][i] == t.events[i];
    }
    if i :| 0 <= i < |t.events| && IsResult(t.events[i]) {
      if i < |s.events| {
        assert t.events[..|s.events|][i] == s.events[i];
      }
    }
  }

  /** The last result before a position in the old part is the same as before. */
  lemma LastResultFrame(s: Progress, t: Progress, i: nat, n: nat)
    requires Extends(s, t) && n <= |s.events|
    ensures LastResult(s.events, i, n) <==> LastResult(t.events, i, n)
  {
    assert forall k :: 0 <= k < |s.events| ==> t.events[..|s.events|][k] == t.events[k];
  }

  lemma ExtendContext(s: Progress, t: Progress, i: nat)
    requires Justified(s) && Extends(s, t) && LastResult(t.events, i, |t.events|)
    ensures t.context == t.events[i].payload.orderRef
  {
    var n := |s.events|;
    if i < n {
      assert LastResult(t.events, i, n);
      LastResultFrame(s, t, i, n);
      assert t.events[..n][i] == t.events[i];
    }
  }

  lemma ExtendSummary(s: Progress, t: Progress, j: nat)
    requires Justified(s) && Extends(s, t) && j < |s.events| && IsSummary(t.events[j])
    ensures exists i: nat :: LastResult(t.events, i, j) && t.events[j].payload.orderRef == t.events[i].payload.orderRef
  {
    assert t.events[..|s.events|][j] == t.events[j];
    var i: nat :| LastResult(s.events, i, j) && s.events[j].payload.orderRef == s.events[i].payload.orderRef;
    LastResultFrame(s, t, i, j);
    assert t.events[..|s.events|][i] == t.events[i];
  }

  /** Appending keeps the justifications; a new summary must bring its own. */
  lemma AppendJustified(s: Progress, t: Progress, l: nat)
    requires Justified(s) && Extends(s, t)
    requires IsSummary(t.events[|s.events|]) ==>
               && LastResult(s.events, l, |s.events|)
               && t.events[|s.events|].payload.orderRef == s.events[l].payload.orderRef
    ensures Justified(t)
  {
    var n := |s.events|;
    ExtendResult(s, t);
    forall i: nat | LastResult(t.events, i, |t.events|)
      ensures t.context == t.events[i].payload.orderRef
    {
      ExtendContext(s, t, i);
    }
    forall j | 0 <= j < |t.events| && IsSummary(t.events[j])
      ensures exists i: nat ::
                LastResult(t.events, i, j) && t.events[j].payload.orderRef == t.events[i].payload.orderRef
    {
      if j < n {
        ExtendSummary(s, t, j);
      } else {
        LastResultFrame(s, t, l, n);
        assert t.events[..n][l] == t.events[l];
      }
    }
  }

  lemma StepJustified(s: Progress, item: Item)
    requires Justified(s) && Remembered(s)
    ensures Justified(Step(s, item))
  {
    var t := Step(s, item);
    if t != s {
      assert t.events[..|s.events|] == s.events;
      var l := 0;
      if item.answered && s.hasResult {
        var i :| 0 <= i < |s.events| && IsResult(s.events[i]);
        l := LastResultExists(s.events, i, |s.events|);
      }
      AppendJustified(s, t, l);
    }
  }

  lemma {:induction false} FoldJustified(items: seq<Item>)
    ensures Justified(Fold(items))
  {
    if items != [] {
      FoldJustified(items[..|items| - 1]);
      FoldRemembers(items[..|items| - 1]);
      StepJustified(Fold(items[..|items| - 1]), items[|items| - 1]);
    }
  }

  /** A summary is shown only after a completed business activity, and carries the order of
      the latest one before it. */
  lemma SummaryIsJustified(items: seq<Item>, j: nat)
    requires j < |Fold(items).events| && IsSummary(Fold(items).events[j])
    ensures exists i: nat ::
              LastResult(Fold(items).events, i, j)
              && Fold(items).events[j].payload.orderRef == Fold(items).events[i].payload.orderRef
  {
    FoldJustified(items);
  }

  /** A summary carries nothing but a completed status and an order. */
  lemma {:induction false} SummaryShape(items: seq<Item>)
    ensures forall j :: 0 <= j < |Fold(items).events| && IsSummary(Fold(items).events[j]) ==>
              Fold(items).events[j] == SummaryEvent(Completed, Fold(items).events[j].payload.orderRef)
  {
    if items != [] {
      SummaryShape(items[..|items| - 1]);
      FoldRemembers(items[..|items| - 1]);
    }
  }

  lemma LastResultUnique(events: seq<Event>, a: nat, b: nat, n: nat)
    requires LastResult(events, a, n) && LastResult(events, b, n)
    ensures a == b
  {
  }

  /** A later summary shows what an earlier one did exactly when the earlier one named no
      order, or the last results before the two name the same order. */
  lemma SummariesAgreeExactly(items: seq<Item>, i: nat, j: nat, a: nat, b: nat)
    requires i < j < |Fold(items).events| && IsSummary(Fold(items).events[i]) && IsSummary(Fold(items).events[j])
    requires LastResult(Fold(items).events, a, i) && LastResult(Fold(items).events, b, j)
    ensures var e := Fold(items).events;
            Agrees(e[i].payload, e[j].payload) <==> e[a].payload.orderRef in {"", e[b].payload.orderRef}
  {
    var e := Fold(items).events;
    SummaryShape(items);
    SummaryIsJustified(items, i);
    SummaryIsJustified(items, j);
    var c: nat :| LastResult(e, c, i) && e[i].payload.orderRef == e[c].payload.orderRef;
    var d: nat :| LastResult(e, d, j) && e[j].payload.orderRef == e[d].payload.orderRef;
    LastResultUnique(e, a, c, i);
    LastResultUnique(e, b, d, j);
  }

  /** A run whose two summaries do not agree. */
  lemma SummariesChange()
    ensures exists items: seq<Item> ::
              var e := Fold(items).events;
              |e| == 4 && IsSummary(e[1]) && IsSummary(e[3]) && e[1].payload.id == e[3].payload.id
              && e[1].payload.orderRef == "A" && e[3].payload.orderRef == "B"
  {
    var answered := Item(true, None, None, None);
    var first := Item(false, None, Some(ToolCall("done", "x", Some(QueryOrders), "", "", "A")), None);
    var second := Item(false, None, Some(ToolCall("done", "y", Some(QueryOrders), "", "", "B")), None);
    var items := [first, answered, second, answered];
    assert items[..3] == [first, answered, second] && [first, answered, second][..2] == [first, answered];
    assert [first, answered][..1] == [first] && [first][..0] == [];
    assert Fold([first]) == Step(Fold([]), first);
    assert Fold([first, answered]) == Step(Fold([first]), answered);
    assert Fold([first, answered, second]) == Step(Fold([first, answered]), second);
    assert Fold(items) == Step(Fold([first, answered, second]), answered);
  }

  // ------------------------------------------ closed form on the input

  /** The event that ends a run reports no tool call. */
  predicate Consistent(items: seq<Item>) {
    forall k :: 0 <= k < |items| && items[k].answered ==> items[k].tool.None?
  }

  /** The tool call that an item shows. */
  function CallOf(item: Item): Option<Payload> {
    if item.public.None? && item.tool.Some? then SanitizeTool(item.tool.value) else None
  }

  /** A tool event shows an activity exactly when its name ends in a known suffix and it has
      an identifier and a kind; the suffix decides the status, the kind the stage.  Dates are
      shown while orders are being queried, an order for queries and details of orders. */
  lemma ToolCallExactly(t: ToolCall)
    ensures SanitizeTool(t).Some? <==>
              t.suffix in {"done", "failed", "timeout", "invoke", "start"} && t.id != "" && t.kind.Some?
    ensures SanitizeTool(t).Some? ==>
              var p := SanitizeTool(t).value;
              && p.id == t.id && p.kind == t.kind.value
              && (p.status == Completed <==> t.suffix == "done")
              && (p.status == Failed <==> t.suffix in {"failed", "timeout"})
              && (p.stage == OrderQuery <==> p.kind in {GetOrderDetail, QueryOrders})
              && (p.stage == Preparation <==>
                    p.kind in {Authenticating, CheckingAuthentication, CheckingTool, ReadingOrderCommands})
              && (p.stage == ResultAnalysis <==> p.kind in {AnalyzingResults, CountResults, GroupResults})
              && (if p.kind == QueryOrders && t.suffix in {"invoke", "start"}
                  then p.startDate == t.startDate && p.endDate == t.endDate
                  else p.startDate == "" && p.endDate == "")
              && p.orderRef == if p.kind in {QueryOrders, GetOrderDetail} then t.orderRef else ""
  {
  }

  /** An item that reports no tool call and ends no run is shown as its allowlisted or other
      form, if it has one; a tool call is shown unless the item is allowlisted. */
  lemma {:induction false} OtherShownExactly(items: seq<Item>, k: nat)
    requires k < |items| && !items[k].answered
    ensures items[k].public.Some? ==>
              Fold(items[..k + 1]).events == Fold(items[..k]).events + [Plain(items[k].public.value)]
    ensures items[k].public.None? && items[k].tool.None? ==>
              Fold(items[..k + 1]).events
              == Fold(items[..k]).events + if items[k].other.Some? then [Plain(items[k].other.value)] else []
    ensures CallOf(items[k]).Some? <==>
              items[k].public.None? && items[k].tool.Some? && SanitizeTool(items[k].tool.value).Some?
  {
    assert items[..k + 1][..k] == items[..k];
  }

  /** The calls of one activity, in order. */
  function Calls(items: seq<Item>, id: string): (c: seq<Payload>)
    ensures forall i :: 0 <= i < |c| ==> c[i].id == id
  {
    if items == [] then []
    else
      var call := CallOf(items[|items| - 1]);
      Calls(items[..|items| - 1], id) + if call.Some? && call.value.id == id then [call.value] else []
  }

  /** The first value that is not empty, if any. */
  function FirstOf(values: seq<string>): (v: string)
    ensures v == "" <==> forall i :: 0 <= i < |values| ==> values[i] == ""
    ensures v != "" ==> exists i :: 0 <= i < |values| && values[i] == v && forall j :: 0 <= j < i ==> values[j] == ""
  {
    if values == [] then ""
    else
      var front, last := values[..|values| - 1], values[|values| - 1];
      var v := FirstOf(front);
      assert v != "" ==> exists i ::
          0 <= i < |values| && values[i] == v && forall j :: 0 <= j < i ==> values[j] == "" by {
        if v != "" {
          var i :| 0 <= i < |front| && front[i] == v && forall j :: 0 <= j < i ==> front[j] == "";
          assert values[i] == v;
        }
      }
      assert forall i :: 0 <= i < |front| ==> values[i] == front[i];
      Or(v, last)
  }

  function Starts(calls: seq<Payload>): (v: seq<string>)
    ensures |v| == |calls|
  {
    seq(|calls|, i requires 0 <= i < |calls| => calls[i].startDate)
  }

  function Ends(calls: seq<Payload>): (v: seq<string>)
    ensures |v| == |calls|
  {
    seq(|calls|, i requires 0 <= i < |calls| => calls[i].endDate)
  }

  function Orders(calls: seq<Payload>): (v: seq<string>)
    ensures |v| == |calls|
  {
    seq(|calls|, i requires 0 <= i < |calls| => calls[i].orderRef)
  }

  /** What an activity with these calls shows: the kind and stage of its first call, the
      status of its last, and for each date and the order the first value that was known. */
  function Shown(calls: seq<Payload>): Payload
    requires calls != []
  {
    Payload(calls[0].id, calls[0].kind, calls[0].stage, calls[|calls| - 1].status,
            FirstOf(Starts(calls)), FirstOf(Ends(calls)), FirstOf(Orders(calls)))
  }

  lemma {:induction false} FirstOfNext(values: seq<string>, v: string)
    ensures FirstOf(values + [v]) == Or(FirstOf(values), v)
  {
    assert (values + [v])[..|values|] == values;
  }

  /** One more call changes what is shown as the fold does it. */
  lemma {:induction false} ShownNext(calls: seq<Payload>, p: Payload)
    requires calls != [] && calls[0].id == p.id
    ensures Shown(calls + [p]) == Stick(Shown(calls), p)
    ensures Shown([p]) == p
  {
    assert Starts(calls + [p]) == Starts(calls) + [p.startDate];
    assert Ends(calls + [p]) == Ends(calls) + [p.endDate];
    assert Orders(calls + [p]) == Orders(calls) + [p.orderRef];
    FirstOfNext(Starts(calls), p.startDate);
    FirstOfNext(Ends(calls), p.endDate);
    FirstOfNext(Orders(calls), p.orderRef);
    ShownFirst(p);
  }

  lemma {:induction false} ShownFirst(p: Payload)
    ensures Shown([p]) == p
  {
    assert Starts([p]) == [] + [p.startDate] && Ends([p]) == [] + [p.endDate] && Orders([p]) == [] + [p.orderRef];
    FirstOfNext([], p.startDate);
    FirstOfNext([], p.endDate);
    FirstOfNext([], p.orderRef);
  }

  /** The fold remembers, for every activity, what its calls so far show. */
  ghost predicate RemembersCalls(s: Progress, items: seq<Item>) {
    && (forall id :: id in s.byId <==> Calls(items, id) != [])
    && (forall id :: id in s.byId ==> s.byId[id] == Shown(Calls(items, id)))
  }

  /** Only tool calls change what the fold remembers. */
  lemma StepByCall(s: Progress, item: Item)
    requires item.answered ==> item.tool.None?
    ensures CallOf(item).Some? ==> Step(s, item) == Record(s, CallOf(item).value)
    ensures CallOf(item).None? ==>
              var t := Step(s, item);
              t.byId == s.byId && t.hasResult == s.hasResult && t.context == s.context
  {
  }

  lemma {:induction false} RecordRemembersCall(s: Progress, front: seq<Item>, items: seq<Item>, p: Payload)
    requires RemembersCalls(s, front)
    requires forall id :: Calls(items, id) == Calls(front, id) + if p.id == id then [p] else []
    ensures RemembersCalls(Record(s, p), items)
  {
    RecordShows(s, front, items, p);
    forall id | id != p.id
      ensures Calls(items, id) == Calls(front, id)
    {
      assert Calls(front, id) + [] == Calls(front, id);
    }
  }

  lemma {:induction false} RecordShows(s: Progress, front: seq<Item>, items: seq<Item>, p: Payload)
    requires RemembersCalls(s, front) && Calls(items, p.id) == Calls(front, p.id) + [p]
    ensures p.id in Record(s, p).byId && Record(s, p).byId[p.id] == Shown(Calls(items, p.id))
  {
    ShownFirst(p);
    if p.id in s.byId {
      ShownNext(Calls(front, p.id), p);
    } else {
      assert Calls(items, p.id) == [p];
    }
  }

  lemma {:induction false} FoldRemembersCalls(items: seq<Item>)
    requires Consistent(items)
    ensures RemembersCalls(Fold(items), items)
  {
    if items != [] {
      var front, item := items[..|items| - 1], items[|items| - 1];
      FoldRemembersCalls(front);
      StepByCall(Fold(front), item);
      if CallOf(item).Some? {
        RecordRemembersCall(Fold(front), front, items, CallOf(item).value);
      } else {
        assert forall id :: Calls(items, id) == Calls(front, id);
      }
    }
  }

  /** The event shown for a tool call is what the activity's calls up to it show. */
  lemma {:induction false} CallShownExactly(items: seq<Item>, k: nat)
    requires Consistent(items) && k < |items| && CallOf(items[k]).Some?
    ensures var calls := Calls(items[..k + 1], CallOf(items[k]).value.id);
            calls != [] && Fold(items[..k + 1]).events == Fold(items[..k]).events + [Activity(Shown(calls))]
  {
    assert items[..k + 1][..k] == items[..k];
    FoldRemembersCalls(items[..k]);
    FoldRemembersCalls(items[..k + 1]);
  }

  /** Item `k` completes a business activity. */
  predicate CompletesAt(items: seq<Item>, k: int) {
    && 0 <= k < |items| && CallOf(items[k]).Some?
    && var calls := Calls(items[..k + 1], CallOf(items[k]).value.id);
       calls != [] && Shown(calls).status == Completed
       && Shown(calls).kind !in {CheckingAuthentication, Authenticating, CheckingTool, ReadingOrderCommands}
  }

  /** The order that item `k`'s activity shows there. */
  function OrderAt(items: seq<Item>, k: nat): string
    requires CompletesAt(items, k)
  {
    FirstOf(Orders(Calls(items[..k + 1], CallOf(items[k]).value.id)))
  }

  /** For each item, the order shown if the item completes a business activity. */
  function Completions(items: seq<Item>): (c: seq<Option<string>>)
    ensures |c| == |items|
    ensures forall k :: 0 <= k < |items| ==>
              c[k] == if CompletesAt(items, k) then Some(OrderAt(items, k)) else None
  {
    seq(|items|, k requires 0 <= k < |items| => if CompletesAt(items, k) then Some(OrderAt(items, k)) else None)
  }

  lemma CompletionsNext(items: seq<Item>)
    requires items != []
    ensures Completions(items)
         == Completions(items[..|items| - 1]) + [Completions(items)[|items| - 1]]
  {
    var n := |items| - 1;
    forall k | 0 <= k < n
      ensures Completions(items)[k] == Completions(items[..n])[k]
    {
      assert items[..n][..k + 1] == items[..k + 1];
    }
  }

  /** The last known value. */
  function LastOf(c: seq<Option<string>>): Option<string> {
    if c == [] then None
    else if c[|c| - 1].Some? then c[|c| - 1]
    else LastOf(c[..|c| - 1])
  }

  lemma {:induction false} LastOfExactly(c: seq<Option<string>>, v: string)
    ensures LastOf(c) == Some(v) <==>
              exists k :: 0 <= k < |c| && c[k] == Some(v) && forall j :: k < j < |c| ==> c[j].None?
  {
    if c != [] && c[|c| - 1].None? {
      var front := c[..|c| - 1];
      LastOfExactly(front, v);
      if k :| 0 <= k < |front| && front[k] == Some(v) && forall j :: k < j < |front| ==> front[j].None? {
        assert c[k] == Some(v);
      }
      if k :| 0 <= k < |c| && c[k] == Some(v) && forall j :: k < j < |c| ==> c[j].None? {
        assert front[k] == Some(v);
        assert forall j :: k < j < |front| ==> front[j] == c[j];
      }
    }
  }

  /** Whether the fold knows a result, and the order it has in mind. */
  lemma {:induction false} FoldKnowsResult(items: seq<Item>)
    requires Consistent(items)
    ensures var last := LastOf(Completions(items));
            && (Fold(items).hasResult <==> last.Some?)
            && (last.Some? ==> Fold(items).context == last.value)
  {
    if items != [] {
      var n := |items| - 1;
      FoldKnowsResult(items[..n]);
      LastStep(items);
      CompletionsNext(items);
      assert Completions(items)[..n] == Completions(items[..n]);
    }
  }

  lemma BusinessExactly(k: Kind)
    requires k != SummarizingResults
    ensures Business(k) <==>
              k !in {CheckingAuthentication, Authenticating, CheckingTool, ReadingOrderCommands}
  {
  }

  lemma {:induction false} CallKinds(items: seq<Item>, id: string)
    ensures forall i :: 0 <= i < |Calls(items, id)| ==> Calls(items, id)[i].kind != SummarizingResults
  {
    if items != [] {
      CallKinds(items[..|items| - 1], id);
    }
  }

  /** Recording a call makes a result known exactly when what is then shown is one. */
  lemma RecordResult(s: Progress, p: Payload, q: Payload)
    requires p.id in Record(s, p).byId && Record(s, p).byId[p.id] == q && q.kind != SummarizingResults
    ensures var t := Record(s, p);
            if q.status == Completed
               && q.kind !in {CheckingAuthentication, Authenticating, CheckingTool, ReadingOrderCommands}
            then t.hasResult && t.context == q.orderRef
            else t.hasResult == s.hasResult && t.context == s.context
  {
    BusinessExactly(q.kind);
  }

  /** The last item makes a result known exactly when it completes an activity. */
  lemma {:induction false} LastStep(items: seq<Item>)
    requires items != [] && Consistent(items)
    ensures var n := |items| - 1;
            var s, t := Fold(items[..n]), Fold(items);
            if CompletesAt(items, n) then t.hasResult && t.context == OrderAt(items, n)
            else t.hasResult == s.hasResult && t.context == s.context
  {
    var n := |items| - 1;
    assert items[..n + 1] == items;
    FoldRemembersCalls(items);
    StepByCall(Fold(items[..n]), items[n]);
    if CallOf(items[n]).Some? {
      var p := CallOf(items[n]).value;
      CallKinds(items, p.id);
      RecordResult(Fold(items[..n]), p, Shown(Calls(items, p.id)));
    }
  }

  /** The end of an answered run shows a summary exactly when a business activity has been
      completed before, and then with the order that the last one showed; otherwise it is
      shown as any other item. */
  lemma {:induction false} SummaryShownExactly(items: seq<Item>, k: nat)
    requires Consistent(items) && k < |items| && items[k].answered
    ensures var before, after := Fold(items[..k]).events, Fold(items[..k + 1]).events;
            match LastOf(Completions(items[..k]))
            case Some(order) =>
              after == before + [Activity(Payload("summarize-results", SummarizingResults, ResultAnalysis, Completed,
                                                  "", "", order))]
            case None => after == before || exists text :: after == before + [Plain(text)]
  {
    assert items[..k + 1][..k] == items[..k];
    FoldKnowsResult(items[..k]);
  }
}

/** Chat progress: matching tool results to tool starts (apps/sessions/views.py, _events_to_progress). */
module ToolProgress {
  import opened Basics

  datatype Kind = Thinking | ToolCallStarted | ToolResult | OtherKind

  /** An event's detail; an absent string field and an empty one are both falsy, so both are "". */
  datatype Detail = Detail(
    id: string, toolCallId: string, name: string,
    arguments: Option<string>, result: Option<string>,
    reasoning: string, innerReasoning: string)

  datatype Event = Event(id: string, kind: Kind, caption: Option<string>, detail: Detail, createdAt: int)

  /** One entry of the progress list. An entry invented for an unmatched result has no arguments. */
  datatype Call = Call(name: string, arguments: Option<string>, completed: bool, result: Option<string>)

  datatype Progress = Progress(
    caption: string, active: bool, toolCalls: seq<Call>, toolCallsCount: nat, reasoning: string, createdAt: Option<int>)

  const EMPTY_OBJECT := "{}"
  const DEFAULT_LABEL := "Assistant is working..."
  const COMPLETE_LABEL := "Analysis complete"

  function ToolKey(d: Detail): string {
    if d.id != "" then d.id else if d.toolCallId != "" then d.toolCallId else d.name
  }

  function StartedCall(d: Detail): Call {
    Call(d.name, Some(d.arguments.GetOr(EMPTY_OBJECT)), false, None)
  }

  function Complete(c: Call, d: Detail): Call {
    c.(completed := true, result := Some(d.result.GetOr(EMPTY_OBJECT)))
  }

  // ---------------------------------------------------------------------------------------------
  // The scan as a state machine: queues hold positions in the list of calls.

  datatype State = State(calls: seq<Call>, pending: map<string, seq<nat>>, reasoning: string, caption: string) {
    predicate Valid() {
      forall k | k in pending ::
        pending[k] != [] && forall i | 0 <= i < |pending[k]| :: pending[k][i] < |calls|
    }

    function Queue(k: string): seq<nat> {
      if k != "" && k in pending then pending[k] else []
    }
  }

  const INITIAL := State([], map[], "", DEFAULT_LABEL)

  function FirstStarted(calls: seq<Call>): (i: nat)
    ensures i <= |calls|
    ensures i < |calls| ==> !calls[i].completed
    ensures forall j | 0 <= j < i :: calls[j].completed
  {
    if calls == [] || !calls[0].completed then 0 else 1 + FirstStarted(calls[1..])
  }

  function Think(s: State, ev: Event): State {
    s.(caption := ev.caption.GetOr(s.caption),
       reasoning := if ev.detail.reasoning != "" then ev.detail.reasoning
                    else if ev.detail.innerReasoning != "" then ev.detail.innerReasoning
                    else s.reasoning)
  }

  function Start(s: State, d: Detail): State {
    var k := ToolKey(d);
    s.(calls := s.calls + [StartedCall(d)],
       pending := if k == "" then s.pending else s.pending[k := s.Queue(k) + [|s.calls|]])
  }

  function CompleteAt(calls: seq<Call>, i: nat, d: Detail): seq<Call>
    requires i <= |calls|
  {
    if i < |calls| then calls[i := Complete(calls[i], d)]
    else calls + [Complete(Call(d.name, None, false, None), d)]
  }

  function Finish(s: State, d: Detail): State
    requires s.Valid()
  {
    var k := ToolKey(d);
    var queue := s.Queue(k);
    if queue == [] then s.(calls := CompleteAt(s.calls, FirstStarted(s.calls), d))
    else s.(calls := CompleteAt(s.calls, queue[0], d),
            pending := if |queue| > 1 then s.pending[k := queue[1..]] else s.pending - {k})
  }

  function Step(s: State, ev: Event): (s': State)
    requires s.Valid()
    ensures s'.Valid()
  {
    match ev.kind
    case Thinking => Think(s, ev)
    case ToolCallStarted => Start(s, ev.detail)
    case ToolResult => Finish(s, ev.detail)
    case OtherKind => s
  }

  function Run(events: seq<Event>): (s: State)
    ensures s.Valid()
  {
    if events == [] then INITIAL else Step(Run(events[..|events|-1]), events[|events|-1])
  }

  function ProgressOf(events: seq<Event>, active: bool): Option<Progress> {
    var s := Run(events);
    if s.reasoning == "" && s.calls == [] && s.caption == DEFAULT_LABEL then None
    else Some(Progress(if active then s.caption else COMPLETE_LABEL, active, s.calls, |s.calls|, s.reasoning,
                       if events == [] then None else Some(events[|events|-1].createdAt)))
  }

  // ---------------------------------------------------------------------------------------------
  // The code itself: queue entries are references to the very objects in the list of calls.

  class ToolCall {
    const name: string
    const arguments: Option<string>
    var completed: bool
    var result: Option<string>

    constructor (name: string, arguments: Option<string>)
      ensures Value() == Call(name, arguments, false, None)
    {
      this.name, this.arguments := name, arguments;
      completed, result := false, None;
    }

    function Value(): Call
      reads this
    {
      Call(name, arguments, completed, result)
    }
  }

  ghost predicate Distinct(calls: seq<ToolCall>) {
    forall i, j | 0 <= i < j < |calls| :: calls[i] != calls[j]
  }

  ghost predicate ValuesAre(calls: seq<ToolCall>, values: seq<Call>)
    reads calls
  {
    |calls| == |values| && forall i | 0 <= i < |calls| :: calls[i].Value() == values[i]
  }

  /** A queue of references names the objects at the given positions of the list. */
  ghost predicate QueueIs(calls: seq<ToolCall>, queue: seq<ToolCall>, positions: seq<nat>) {
    && |queue| == |positions|
    && forall i | 0 <= i < |queue| :: positions[i] < |calls| && queue[i] == calls[positions[i]]
  }

  ghost predicate QueuesAre(calls: seq<ToolCall>, byKey: map<string, seq<ToolCall>>, pending: map<string, seq<nat>>) {
    && byKey.Keys == pending.Keys
    && forall k | k in byKey :: QueueIs(calls, byKey[k], pending[k])
  }

  method EventsToProgress(events: seq<Event>, active: bool) returns (progress: Option<Progress>)
    ensures progress == ProgressOf(events, active)
  {
    var toolCalls: seq<ToolCall>, byKey: map<string, seq<ToolCall>> := [], map[];
    var reasoning, latestLabel := "", DEFAULT_LABEL;
    ghost var s := INITIAL;
    var n := 0;
    while n < |events|
      invariant n <= |events| && s == Run(events[..n])
      invariant forall i | 0 <= i < |toolCalls| :: fresh(toolCalls[i])
      invariant Distinct(toolCalls) && ValuesAre(toolCalls, s.calls) && QueuesAre(toolCalls, byKey, s.pending)
      invariant reasoning == s.reasoning && latestLabel == s.caption
    {
      var ev := events[n];
      RunNext(events, n);
      if ev.kind == Thinking {
        latestLabel := ev.caption.GetOr(latestLabel);
        if ev.detail.reasoning != "" {
          reasoning := ev.detail.reasoning;
        } else if ev.detail.innerReasoning != "" {
          reasoning := ev.detail.innerReasoning;
        }
      } else {
        toolCalls, byKey := ScanToolEvent(toolCalls, byKey, ev, s);
      }
      s := Step(s, ev);
      n := n + 1;
    }
    assert events[..n] == events;
    if reasoning == "" && |toolCalls| == 0 && latestLabel == DEFAULT_LABEL {
      return None;
    }
    var calls := Values(toolCalls, s.calls);
    progress := Some(Progress(if active then latestLabel else COMPLETE_LABEL, active, calls, |toolCalls|, reasoning,
                              if |events| > 0 then Some(events[|events|-1].createdAt) else None));
  }

  lemma RunNext(events: seq<Event>, n: nat)
    requires n < |events|
    ensures Run(events[..n+1]) == Step(Run(events[..n]), events[n])
  {
    assert events[..n+1][..n] == events[..n] && events[..n+1][n] == events[n];
  }

  method Values(toolCalls: seq<ToolCall>, ghost values: seq<Call>) returns (calls: seq<Call>)
    requires ValuesAre(toolCalls, values)
    ensures calls == values
  {
    calls := seq(|toolCalls|, i requires 0 <= i < |toolCalls| reads toolCalls => toolCalls[i].Value());
  }

  /** The body of the scan for the kinds that touch the list of calls. */
  method ScanToolEvent(toolCalls: seq<ToolCall>, byKey: map<string, seq<ToolCall>>, ev: Event, ghost s: State)
    returns (toolCalls': seq<ToolCall>, byKey': map<string, seq<ToolCall>>)
    requires s.Valid() && Distinct(toolCalls) && ev.kind != Thinking
    requires ValuesAre(toolCalls, s.calls) && QueuesAre(toolCalls, byKey, s.pending)
    modifies toolCalls
    ensures Distinct(toolCalls') && toolCalls <= toolCalls'
    ensures forall i | |toolCalls| <= i < |toolCalls'| :: fresh(toolCalls'[i])
    ensures ValuesAre(toolCalls', Step(s, ev).calls) && QueuesAre(toolCalls', byKey', Step(s, ev).pending)
  {
    match ev.kind {
      case ToolCallStarted =>
        toolCalls', byKey' := StartCall(toolCalls, byKey, ev.detail, s);
      case ToolResult =>
        toolCalls', byKey' := FinishCall(toolCalls, byKey, ev.detail, s);
      case OtherKind =>
        toolCalls', byKey' := toolCalls, byKey;
    }
  }

  /** The tool-start branch of the scan. */
  method StartCall(toolCalls: seq<ToolCall>, byKey: map<string, seq<ToolCall>>, d: Detail, ghost s: State)
    returns (toolCalls': seq<ToolCall>, byKey': map<string, seq<ToolCall>>)
    requires s.Valid() && Distinct(toolCalls)
    requires ValuesAre(toolCalls, s.calls) && QueuesAre(toolCalls, byKey, s.pending)
    ensures Distinct(toolCalls') && |toolCalls'| == |toolCalls| + 1 && toolCalls <= toolCalls'
    ensures fresh(toolCalls'[|toolCalls|])
    ensures ValuesAre(toolCalls', Start(s, d).calls) && QueuesAre(toolCalls', byKey', Start(s, d).pending)
  {
    var call := new ToolCall(d.name, Some(d.arguments.GetOr(EMPTY_OBJECT)));
    var key := ToolKey(d);
    toolCalls', byKey' := toolCalls + [call], byKey;
    if key != "" {
      byKey' := byKey[key := (if key in byKey then byKey[key] else []) + [call]];
    }
  }

  /** The tool-result branch of the scan. */
  method FinishCall(toolCalls: seq<ToolCall>, byKey: map<string, seq<ToolCall>>, d: Detail, ghost s: State)
    returns (toolCalls': seq<ToolCall>, byKey': map<string, seq<ToolCall>>)
    requires s.Valid() && Distinct(toolCalls)
    requires ValuesAre(toolCalls, s.calls) && QueuesAre(toolCalls, byKey, s.pending)
    modifies toolCalls
    ensures Distinct(toolCalls') && toolCalls <= toolCalls'
    ensures forall i | |toolCalls| <= i < |toolCalls'| :: fresh(toolCalls'[i])
    ensures ValuesAre(toolCalls', Finish(s, d).calls) && QueuesAre(toolCalls', byKey', Finish(s, d).pending)
  {
    var toolCall: ToolCall?;
    ghost var at: nat, values := 0, s.calls;
    toolCall, byKey', at := PopPending(toolCalls, byKey, ToolKey(d), s);
    toolCalls' := toolCalls;
    if toolCall == null {
      toolCall, toolCalls', at, values := StartedOrNew(toolCalls, d, s.calls);
      QueuesExtend(toolCalls, toolCalls', byKey, s.pending);
    }
    CompleteCall(toolCalls', toolCall, d, at, values);
  }

  lemma QueuesExtend(calls: seq<ToolCall>, calls': seq<ToolCall>, byKey: map<string, seq<ToolCall>>,
                     pending: map<string, seq<nat>>)
    requires QueuesAre(calls, byKey, pending) && calls <= calls'
    ensures QueuesAre(calls', byKey, pending)
  {
    forall k | k in byKey
      ensures QueueIs(calls', byKey[k], pending[k])
    {
      assert QueueIs(calls, byKey[k], pending[k]);
    }
  }

  method PopPending(toolCalls: seq<ToolCall>, byKey: map<string, seq<ToolCall>>, key: string, ghost s: State)
    returns (toolCall: ToolCall?, byKey': map<string, seq<ToolCall>>, ghost at: nat)
    requires s.Valid() && |toolCalls| == |s.calls| && QueuesAre(toolCalls, byKey, s.pending)
    ensures var queue := s.Queue(key);
            if queue == [] then toolCall == null && byKey' == byKey
            else && at == queue[0] < |toolCalls| && toolCall == toolCalls[queue[0]]
                 && QueuesAre(toolCalls, byKey',
                              if |queue| > 1 then s.pending[key := queue[1..]] else s.pending - {key})
  {
    var pending := if key != "" && key in byKey then byKey[key] else [];
    toolCall, byKey', at := null, byKey, 0;
    if |pending| > 0 {
      assert QueueIs(toolCalls, byKey[key], s.pending[key]);
      toolCall, pending, at := pending[0], pending[1..], s.pending[key][0];
    }
    if |pending| > 0 {
      byKey' := byKey[key := pending];
    } else if key != "" && key in byKey {
      byKey' := byKey - {key};
    }
  }

  /** The first entry still started, or a new entry at the end of the list. */
  method StartedOrNew(toolCalls: seq<ToolCall>, d: Detail, ghost values: seq<Call>)
    returns (toolCall: ToolCall, toolCalls': seq<ToolCall>, ghost at: nat, ghost values': seq<Call>)
    requires Distinct(toolCalls) && ValuesAre(toolCalls, values)
    ensures Distinct(toolCalls') && ValuesAre(toolCalls', values') && at < |toolCalls'| && toolCall == toolCalls'[at]
    ensures at == FirstStarted(values)
    ensures if at < |values| then toolCalls' == toolCalls && values' == values
            else fresh(toolCall) && toolCalls' == toolCalls + [toolCall]
                 && values' == values + [Call(d.name, None, false, None)]
  {
    var i := 0;
    while i < |toolCalls| && toolCalls[i].completed
      invariant i <= |toolCalls| && forall j | 0 <= j < i :: values[j].completed
    {
      i := i + 1;
    }
    at := i;
    if i < |toolCalls| {
      return toolCalls[i], toolCalls, at, values;
    }
    toolCall := new ToolCall(d.name, None);
    toolCalls', values' := toolCalls + [toolCall], values + [Call(d.name, None, false, None)];
  }

  method CompleteCall(ghost toolCalls: seq<ToolCall>, toolCall: ToolCall, d: Detail, ghost at: nat,
                      ghost values: seq<Call>)
    requires Distinct(toolCalls) && ValuesAre(toolCalls, values) && at < |toolCalls| && toolCalls[at] == toolCall
    modifies toolCall
    ensures ValuesAre(toolCalls, values[at := Complete(values[at], d)])
  {
    toolCall.completed := true;
    toolCall.result := Some(d.result.GetOr(EMPTY_OBJECT));
  }
}

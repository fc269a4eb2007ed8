/** What a progress box tells its reader, in terms of the events alone (apps/sessions/views.py, _events_to_progress). */
module ProgressLaws {
  import opened Basics
  import opened ToolProgress
  import opened ToolMatching

  predicate ToolEvent(ev: Event) {
    ev.kind == ToolCallStarted || ev.kind == ToolResult
  }

  predicate Captioned(ev: Event) {
    ev.kind == Thinking && ev.caption.Some?
  }

  predicate Reasoned(ev: Event) {
    ev.kind == Thinking && (ev.detail.reasoning != "" || ev.detail.innerReasoning != "")
  }

  ghost predicate Never(events: seq<Event>, has: Event -> bool) {
    forall i | 0 <= i < |events| :: !has(events[i])
  }

  ghost predicate IsLast(events: seq<Event>, has: Event -> bool, i: int) {
    0 <= i < |events| && has(events[i]) && forall j | i < j < |events| :: !has(events[j])
  }

  /** The caption is that of the last thinking event with one, and the waiting text before there is any. */
  lemma {:induction false} CaptionIsLast(events: seq<Event>)
    ensures Never(events, Captioned) ==> LastCaption(events) == "Assistant is working..."
    ensures forall i | IsLast(events, Captioned, i) :: LastCaption(events) == events[i].caption.value
  {
    if events != [] {
      CaptionIsLast(Init(events));
      forall i | IsLast(events, Captioned, i) && i < |events| - 1 ensures IsLast(Init(events), Captioned, i) {
      }
    }
  }

  /** The reasoning is that of the last thinking event with one; the event's own goes before the nested one. */
  lemma {:induction false} ReasoningIsLast(events: seq<Event>)
    ensures LastThought(events) == "" <==> Never(events, Reasoned)
    ensures forall i | IsLast(events, Reasoned, i) ::
              LastThought(events) == if events[i].detail.reasoning != "" then events[i].detail.reasoning
                                     else events[i].detail.innerReasoning
  {
    if events != [] {
      ReasoningIsLast(Init(events));
      assert Thought(Last(events)) != "" <==> Reasoned(Last(events));
      forall i | IsLast(events, Reasoned, i) && i < |events| - 1 ensures IsLast(Init(events), Reasoned, i) {
      }
      if Never(events, Reasoned) {
        assert Never(Init(events), Reasoned);
      }
    }
  }

  lemma {:induction false} CallsCome(events: seq<Event>)
    ensures Run(events).calls == [] <==> Never(events, ToolEvent)
  {
    if events != [] {
      CallsCome(Init(events));
      if Never(events, ToolEvent) {
        assert Never(Init(events), ToolEvent);
      }
    }
  }

  /**
   * A box is missing exactly when there was no tool event, no reasoning, and no caption but the waiting text. Otherwise
   * it shows the last caption while the turn is running, "Analysis complete" when it is over, the last reasoning, all
   * calls with their number, and the time of the last event.
   */
  lemma ProgressExactly(events: seq<Event>, active: bool)
    ensures ProgressOf(events, active).None?
       <==> Never(events, ToolEvent) && Never(events, Reasoned)
            && forall i | IsLast(events, Captioned, i) :: events[i].caption == Some("Assistant is working...")
    ensures ProgressOf(events, active).Some? ==>
              var p := ProgressOf(events, active).value;
              && p.active == active
              && (!active ==> p.caption == "Analysis complete")
              && (active && Never(events, Captioned) ==> p.caption == "Assistant is working...")
              && (forall i | active && IsLast(events, Captioned, i) :: Some(p.caption) == events[i].caption)
              && (Never(events, Reasoned) ==> p.reasoning == "")
              && (forall i | IsLast(events, Reasoned, i) ::
                    p.reasoning == if events[i].detail.reasoning != "" then events[i].detail.reasoning
                                   else events[i].detail.innerReasoning)
              && p.toolCalls == Run(events).calls && p.toolCallsCount == |p.toolCalls|
              && p.createdAt == (if events == [] then None else Some(events[|events|-1].createdAt))
  {
    ShowsLastThought(events);
    CaptionIsLast(events);
    ReasoningIsLast(events);
    CallsCome(events);
    if !Never(events, Captioned) {
      var i := LastOf(events, Captioned);
    }
  }

  lemma {:induction false} LastOf(events: seq<Event>, has: Event -> bool) returns (i: int)
    requires !Never(events, has)
    ensures IsLast(events, has, i)
  {
    if has(Last(events)) {
      i := |events| - 1;
    } else {
      assert !Never(Init(events), has) by {
        var j :| 0 <= j < |events| && has(events[j]);
        assert has(Init(events)[j]);
      }
      i := LastOf(Init(events), has);
      forall j | i < j < |events| ensures !has(events[j]) {
        assert j < |events| - 1 ==> !has(Init(events)[j]);
      }
    }
  }

  // ---------------------------------------------------------------------------------------------
  // Which call a result names, and what a call shows.

  /** The first of id, tool_call_id and name that is given. */
  ghost predicate IsKey(d: Detail, k: string) {
    var ids := [d.id, d.toolCallId, d.name];
    k != "" && exists i :: 0 <= i < 3 && ids[i] == k && forall j | 0 <= j < i :: ids[j] == ""
  }

  lemma KeyExactly(d: Detail, k: string)
    ensures k != "" ==> (ToolKey(d) == k <==> IsKey(d, k))
    ensures ToolKey(d) == "" <==> d.id == d.toolCallId == d.name == ""
  {
    var ids := [d.id, d.toolCallId, d.name];
    if d.id != "" {
      assert ids[0] == ToolKey(d);
    } else if d.toolCallId != "" {
      assert ids[1] == ToolKey(d) && ids[0] == "";
    } else {
      assert ids[2] == ToolKey(d) && ids[0] == ids[1] == "";
    }
  }

  /** Of two calls running, a result completes the one it names, with its own result or an empty object. */
  lemma ResultFindsItsStart(a: Event, b: Event, c: Event, ka: string, kb: string)
    requires a.kind == b.kind == ToolCallStarted && c.kind == ToolResult
    requires IsKey(a.detail, ka) && IsKey(b.detail, kb) && IsKey(c.detail, kb) && ka != kb
    ensures Run([a, b, c]).calls
         == [Call(a.detail.name, Some(a.detail.arguments.GetOr("{}")), false, None),
             Call(b.detail.name, Some(b.detail.arguments.GetOr("{}")), true, Some(c.detail.result.GetOr("{}")))]
  {
    KeyExactly(a.detail, ka);
    KeyExactly(b.detail, kb);
    KeyExactly(c.detail, kb);
    RunSnoc([], a, [a]);
    RunSnoc([a], b, [a, b]);
    RunSnoc([a, b], c, [a, b, c]);
    assert Run([a, b]).Queue(kb) == [1];
  }

  /** A result without any call to complete invents one, which has no arguments. */
  lemma LoneResult(c: Event)
    requires c.kind == ToolResult
    ensures Run([c]).calls == [Call(c.detail.name, None, true, Some(c.detail.result.GetOr("{}")))]
  {
    RunSnoc([], c, [c]);
  }

  /** On a well-keyed trace each call shows its start and, once that is answered, the result that answers it. */
  lemma CallsShown(events: seq<Event>, j: nat)
    requires WellKeyed(events) && j < |Starts(events)|
    ensures var d := Starts(events)[j];
            var results := Results(events, ToolKey(d));
            var rank := |WithKey(Starts(events)[..j], ToolKey(d))|;
            var answered := ToolKey(d) != "" && rank < |results|;
            && |Run(events).calls| == |Starts(events)|
            && Run(events).calls[j].name == d.name
            && Run(events).calls[j].arguments == Some(d.arguments.GetOr("{}"))
            && Run(events).calls[j].completed == answered
            && Run(events).calls[j].result == if answered then Some(results[rank].result.GetOr("{}")) else None
  {
    WellKeyedMatching(events);
  }
}

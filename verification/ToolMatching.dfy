/** What the progress scan promises: first-in-first-out matching on well-keyed traces, and counts on all traces. */
module ToolMatching {
  import opened Basics
  import opened ToolProgress

  // ---------------------------------------------------------------------------------------------
  // A reference definition of the matching, which mentions no queue.

  function Last<T>(s: seq<T>): T
    requires s != []
  {
    s[|s|-1]
  }

  function Init<T>(s: seq<T>): seq<T>
    requires s != []
  {
    s[..|s|-1]
  }

  /** The details of the starts, in order. */
  function Starts(events: seq<Event>): seq<Detail> {
    if events == [] then []
    else if Last(events).kind == ToolCallStarted then Starts(Init(events)) + [Last(events).detail]
    else Starts(Init(events))
  }

  /** The details of the results with key `k`, in order. */
  function Results(events: seq<Event>, k: string): seq<Detail> {
    if events == [] then []
    else if Last(events).kind == ToolResult && ToolKey(Last(events).detail) == k then
      Results(Init(events), k) + [Last(events).detail]
    else Results(Init(events), k)
  }

  function ResultCount(events: seq<Event>): nat {
    if events == [] then 0 else ResultCount(Init(events)) + if Last(events).kind == ToolResult then 1 else 0
  }

  /** The positions among the starts of those with key `k`, in order. */
  function WithKey(starts: seq<Detail>, k: string): seq<nat> {
    if starts == [] then []
    else if ToolKey(Last(starts)) == k then WithKey(Init(starts), k) + [|starts|-1]
    else WithKey(Init(starts), k)
  }

  /** The j-th start is the i-th of its key; it is answered by the i-th result of that key, if there is one. */
  function Answered(starts: seq<Detail>, j: nat, results: seq<Detail>): Call
    requires j < |starts|
  {
    var rank := |WithKey(starts[..j], ToolKey(starts[j]))|;
    if ToolKey(starts[j]) != "" && rank < |results| then Complete(StartedCall(starts[j]), results[rank])
    else StartedCall(starts[j])
  }

  function Matched(events: seq<Event>): seq<Call> {
    var starts := Starts(events);
    seq(|starts|, j requires 0 <= j < |starts| => Answered(starts, j, Results(events, ToolKey(starts[j]))))
  }

  /** Every result has a key, and at that point more starts than results with that key. */
  ghost predicate WellKeyed(events: seq<Event>) {
    forall p | 0 <= p < |events| && events[p].kind == ToolResult :: Answers(events[..p], ToolKey(events[p].detail))
  }

  predicate Answers(before: seq<Event>, k: string) {
    k != "" && |Results(before, k)| < |WithKey(Starts(before), k)|
  }

  function CompletedCount(calls: seq<Call>): nat {
    if calls == [] then 0 else CompletedCount(Init(calls)) + if Last(calls).completed then 1 else 0
  }

  // ---------------------------------------------------------------------------------------------
  // Positions and ranks.

  lemma {:induction false} WithKeyBounds(starts: seq<Detail>, k: string)
    ensures forall i | 0 <= i < |WithKey(starts, k)| ::
              WithKey(starts, k)[i] < |starts| && ToolKey(starts[WithKey(starts, k)[i]]) == k
              && |WithKey(starts[..WithKey(starts, k)[i]], k)| == i
  {
    if starts != [] {
      WithKeyBounds(Init(starts), k);
      var before := WithKey(Init(starts), k);
      forall i | 0 <= i < |WithKey(starts, k)|
        ensures WithKey(starts, k)[i] < |starts| && ToolKey(starts[WithKey(starts, k)[i]]) == k
                && |WithKey(starts[..WithKey(starts, k)[i]], k)| == i
      {
        if i < |before| {
          assert Init(starts)[..before[i]] == starts[..before[i]];
        }
      }
    }
  }

  lemma {:induction false} RankIsPosition(starts: seq<Detail>, j: nat)
    requires j < |starts|
    ensures var k := ToolKey(starts[j]);
            var rank := |WithKey(starts[..j], k)|;
            rank < |WithKey(starts, k)| && WithKey(starts, k)[rank] == j
  {
    if j < |starts| - 1 {
      RankIsPosition(Init(starts), j);
      assert Init(starts)[..j] == starts[..j];
    }
  }

  // ---------------------------------------------------------------------------------------------
  // Well-keyed traces.

  ghost predicate HoldsUnanswered(s: State, events: seq<Event>, k: string) {
    var positions, answered := WithKey(Starts(events), k), |Results(events, k)|;
    answered <= |positions| && s.Queue(k) == positions[answered..]
  }

  ghost predicate QueuesHoldUnanswered(s: State, events: seq<Event>) {
    forall k | k != "" :: HoldsUnanswered(s, events, k)
  }

  /** How one more event extends the starts and the results of a key. */
  lemma Snoc(before: seq<Event>, ev: Event, k: string)
    ensures Starts(before + [ev])
         == if ev.kind == ToolCallStarted then Starts(before) + [ev.detail] else Starts(before)
    ensures Results(before + [ev], k)
         == if ev.kind == ToolResult && ToolKey(ev.detail) == k then Results(before, k) + [ev.detail]
           else Results(before, k)
  {
    assert Init(before + [ev]) == before;
  }

  lemma StartQueue(s: State, before: seq<Event>, ev: Event, k: string)
    requires s.Valid() && ev.kind == ToolCallStarted && k != ""
    requires |s.calls| == |Starts(before)| && HoldsUnanswered(s, before, k)
    ensures HoldsUnanswered(Start(s, ev.detail), before + [ev], k)
  {
    var positions, answered := WithKey(Starts(before), k), |Results(before, k)|;
    Snoc(before, ev, k);
    QueueAfterStart(s, ev.detail, k);
    WithKeySnoc(Starts(before), ev.detail, k);
    DropSnoc(positions, |s.calls|, answered);
  }

  lemma QueueAfterStart(s: State, d: Detail, k: string)
    requires s.Valid() && k != ""
    ensures Start(s, d).Queue(k) == if ToolKey(d) == k then s.Queue(k) + [|s.calls|] else s.Queue(k)
  {
  }

  lemma WithKeySnoc(starts: seq<Detail>, d: Detail, k: string)
    ensures WithKey(starts + [d], k) == if ToolKey(d) == k then WithKey(starts, k) + [|starts|] else WithKey(starts, k)
  {
    assert Init(starts + [d]) == starts;
  }

  lemma DropSnoc(positions: seq<nat>, position: nat, n: nat)
    requires n <= |positions|
    ensures (positions + [position])[n..] == positions[n..] + [position]
  {
  }

  lemma StartCalls(before: seq<Event>, ev: Event)
    requires ev.kind == ToolCallStarted
    requires |Results(before, ToolKey(ev.detail))| <= |WithKey(Starts(before), ToolKey(ev.detail))| ||
             ToolKey(ev.detail) == ""
    ensures Matched(before + [ev]) == Matched(before) + [StartedCall(ev.detail)]
  {
    var events, starts := before + [ev], Starts(before);
    Snoc(before, ev, "");
    forall j | 0 <= j <= |starts|
      ensures Matched(events)[j] == (Matched(before) + [StartedCall(ev.detail)])[j]
    {
      Snoc(before, ev, ToolKey((starts + [ev.detail])[j]));
      if j < |starts| {
        AnsweredBefore(starts, ev.detail, j, Results(before, ToolKey(starts[j])));
      } else {
        NotYetAnswered(starts, ev.detail, Results(before, ToolKey(ev.detail)));
      }
    }
  }

  lemma AnsweredBefore(starts: seq<Detail>, d: Detail, j: nat, results: seq<Detail>)
    requires j < |starts|
    ensures Answered(starts + [d], j, results) == Answered(starts, j, results)
  {
    assert (starts + [d])[..j] == starts[..j];
  }

  lemma NotYetAnswered(starts: seq<Detail>, d: Detail, results: seq<Detail>)
    requires |results| <= |WithKey(starts, ToolKey(d))| || ToolKey(d) == ""
    ensures Answered(starts + [d], |starts|, results) == StartedCall(d)
  {
    assert (starts + [d])[..|starts|] == starts;
  }

  lemma FinishQueue(s: State, before: seq<Event>, ev: Event, k: string)
    requires s.Valid() && ev.kind == ToolResult && Answers(before, ToolKey(ev.detail)) && k != ""
    requires HoldsUnanswered(s, before, k) && HoldsUnanswered(s, before, ToolKey(ev.detail))
    ensures HoldsUnanswered(Finish(s, ev.detail), before + [ev], k)
  {
    Snoc(before, ev, k);
  }

  /** The next result with key `k` changes the matching only at the first unanswered start of that key. */
  lemma FinishCalls(before: seq<Event>, ev: Event, at: nat)
    requires ev.kind == ToolResult && Answers(before, ToolKey(ev.detail))
    requires at == WithKey(Starts(before), ToolKey(ev.detail))[|Results(before, ToolKey(ev.detail))|]
    ensures at < |Matched(before)| && !Matched(before)[at].completed
    ensures Matched(before + [ev]) == Matched(before)[at := Complete(Matched(before)[at], ev.detail)]
  {
    var starts := Starts(before);
    Snoc(before, ev, "");
    WithKeyBounds(starts, ToolKey(ev.detail));
    forall j | 0 <= j < |starts|
      ensures Matched(before + [ev])[j]
           == if j == at then Complete(Matched(before)[j], ev.detail) else Matched(before)[j]
    {
      FinishCall(before, ev, j);
    }
  }

  lemma FinishCall(before: seq<Event>, ev: Event, j: nat)
    requires ev.kind == ToolResult && j < |Starts(before)| && Answers(before, ToolKey(ev.detail))
    ensures var at := WithKey(Starts(before), ToolKey(ev.detail))[|Results(before, ToolKey(ev.detail))|];
            Matched(before + [ev])[j]
              == if j == at then Complete(StartedCall(Starts(before)[j]), ev.detail) else Matched(before)[j]
  {
    var starts, k := Starts(before), ToolKey(ev.detail);
    Snoc(before, ev, ToolKey(starts[j]));
    if ToolKey(starts[j]) == k {
      NextRank(starts, j, |Results(before, k)|);
      AnsweredNext(starts, j, Results(before, k), ev.detail);
    } else {
      WithKeyBounds(starts, k);
    }
  }

  /** The rank of a start says where it is among the starts of its key. */
  lemma NextRank(starts: seq<Detail>, j: nat, i: nat)
    requires j < |starts| && i < |WithKey(starts, ToolKey(starts[j]))|
    ensures |WithKey(starts[..j], ToolKey(starts[j]))| == i <==> WithKey(starts, ToolKey(starts[j]))[i] == j
  {
    WithKeyBounds(starts, ToolKey(starts[j]));
    RankIsPosition(starts, j);
  }

  /** One more result answers the start of its rank. */
  lemma AnsweredNext(starts: seq<Detail>, j: nat, results: seq<Detail>, d: Detail)
    requires j < |starts|
    ensures Answered(starts, j, results + [d])
         == if ToolKey(starts[j]) != "" && |WithKey(starts[..j], ToolKey(starts[j]))| == |results|
            then Complete(StartedCall(starts[j]), d) else Answered(starts, j, results)
  {
  }

  lemma {:induction false} CompletingCounts(calls: seq<Call>, at: nat, d: Detail)
    requires at < |calls|
    ensures CompletedCount(calls[at := Complete(calls[at], d)])
         == CompletedCount(calls) + if calls[at].completed then 0 else 1
  {
    var calls' := calls[at := Complete(calls[at], d)];
    if at == |calls| - 1 {
      assert Init(calls') == Init(calls);
    } else {
      assert Init(calls') == Init(calls)[at := Complete(calls[at], d)];
      CompletingCounts(Init(calls), at, d);
    }
  }

  /** On a well-keyed trace the i-th result of a key completes the i-th start of that key, and nothing else happens. */
  lemma {:induction false} WellKeyedMatching(events: seq<Event>)
    requires WellKeyed(events)
    ensures Run(events).calls == Matched(events)
    ensures QueuesHoldUnanswered(Run(events), events)
    ensures CompletedCount(Run(events).calls) == ResultCount(events)
  {
    if events != [] {
      var before, ev := Init(events), Last(events);
      assert before + [ev] == events;
      WellKeyedPrefix(events, |before|);
      assert Answers(events[..|before|], ToolKey(ev.detail)) || ev.kind != ToolResult;
      WellKeyedMatching(before);
      MatchingStep(Run(before), before, ev);
    }
  }

  lemma MatchingStep(s: State, before: seq<Event>, ev: Event)
    requires s.Valid() && s.calls == Matched(before) && QueuesHoldUnanswered(s, before)
    requires ev.kind == ToolResult ==> Answers(before, ToolKey(ev.detail))
    ensures Step(s, ev).calls == Matched(before + [ev])
    ensures QueuesHoldUnanswered(Step(s, ev), before + [ev])
    ensures CompletedCount(Step(s, ev).calls) == CompletedCount(s.calls) + if ev.kind == ToolResult then 1 else 0
  {
    match ev.kind {
      case ToolCallStarted => StartStep(s, before, ev);
      case ToolResult => FinishStep(s, before, ev);
      case _ =>
        forall k | k != "" ensures HoldsUnanswered(Step(s, ev), before + [ev], k) {
          Snoc(before, ev, k);
          assert HoldsUnanswered(s, before, k);
        }
        OtherCalls(before, ev);
    }
  }

  lemma StartStep(s: State, before: seq<Event>, ev: Event)
    requires s.Valid() && s.calls == Matched(before) && QueuesHoldUnanswered(s, before) && ev.kind == ToolCallStarted
    ensures Start(s, ev.detail).calls == Matched(before + [ev])
    ensures QueuesHoldUnanswered(Start(s, ev.detail), before + [ev])
    ensures CompletedCount(Start(s, ev.detail).calls) == CompletedCount(s.calls)
  {
    assert ToolKey(ev.detail) != "" ==> HoldsUnanswered(s, before, ToolKey(ev.detail));
    StartCalls(before, ev);
    assert Init(s.calls + [StartedCall(ev.detail)]) == s.calls;
    forall k | k != "" ensures HoldsUnanswered(Start(s, ev.detail), before + [ev], k) {
      StartQueue(s, before, ev, k);
    }
  }

  lemma FinishStep(s: State, before: seq<Event>, ev: Event)
    requires s.Valid() && s.calls == Matched(before) && QueuesHoldUnanswered(s, before)
    requires ev.kind == ToolResult && Answers(before, ToolKey(ev.detail))
    ensures Finish(s, ev.detail).calls == Matched(before + [ev])
    ensures QueuesHoldUnanswered(Finish(s, ev.detail), before + [ev])
    ensures CompletedCount(Finish(s, ev.detail).calls) == CompletedCount(s.calls) + 1
  {
    assert HoldsUnanswered(s, before, ToolKey(ev.detail));
    var at := s.Queue(ToolKey(ev.detail))[0];
    FinishCalls(before, ev, at);
    CompletingCounts(s.calls, at, ev.detail);
    forall k | k != "" ensures HoldsUnanswered(Finish(s, ev.detail), before + [ev], k) {
      FinishQueue(s, before, ev, k);
    }
  }

  lemma OtherCalls(before: seq<Event>, ev: Event)
    requires ev.kind == Thinking || ev.kind == OtherKind
    ensures Matched(before + [ev]) == Matched(before)
  {
    Snoc(before, ev, "");
    forall j | 0 <= j < |Starts(before)| ensures Matched(before + [ev])[j] == Matched(before)[j] {
      Snoc(before, ev, ToolKey(Starts(before)[j]));
    }
  }

  /** An unanswerable result is visible at once: it completes a call of another start, or invents a call. */
  lemma UnanswerableResult(s: State, before: seq<Event>, ev: Event)
    requires s.Valid() && ev.kind == ToolResult && !Answers(before, ToolKey(ev.detail))
    requires s.calls == Matched(before) && QueuesHoldUnanswered(s, before)
    ensures Finish(s, ev.detail).calls != Matched(before + [ev])
  {
    var events, d, k := before + [ev], ev.detail, ToolKey(ev.detail);
    var starts, at := Starts(before), FirstStarted(s.calls);
    Snoc(before, ev, k);
    assert k != "" ==> HoldsUnanswered(s, before, k);
    assert s.Queue(k) == [];
    if at < |s.calls| {
      Snoc(before, ev, ToolKey(starts[at]));
      RankIsPosition(starts, at);
      assert !Matched(events)[at].completed;
      assert Finish(s, d).calls[at].completed;
    } else {
      assert |Finish(s, d).calls| > |Matched(events)|;
    }
  }

  ghost predicate MatchedAfter(events: seq<Event>, n: nat)
    requires n <= |events|
  {
    Run(events[..n]).calls == Matched(events[..n])
  }

  /** The scan shows the reference matching after every event exactly on the well-keyed traces. */
  lemma MatchingExactlyWhenWellKeyed(events: seq<Event>)
    ensures WellKeyed(events) <==> forall n | 0 <= n <= |events| :: MatchedAfter(events, n)
  {
    if WellKeyed(events) {
      forall n | 0 <= n <= |events| ensures MatchedAfter(events, n) {
        WellKeyedPrefix(events, n);
        WellKeyedMatching(events[..n]);
      }
    } else {
      var p := FirstUnanswerable(events);
      MismatchAfter(events, p);
    }
  }

  lemma MismatchAfter(events: seq<Event>, p: nat)
    requires p < |events| && WellKeyed(events[..p])
    requires events[p].kind == ToolResult && !Answers(events[..p], ToolKey(events[p].detail))
    ensures !MatchedAfter(events, p + 1)
  {
    WellKeyedMatching(events[..p]);
    RunNext(events, p);
    UnanswerableResult(Run(events[..p]), events[..p], events[p]);
    assert events[..p] + [events[p]] == events[..p+1];
  }

  lemma WellKeyedPrefix(events: seq<Event>, n: nat)
    requires n <= |events|
    requires forall p | 0 <= p < n && events[p].kind == ToolResult :: Answers(events[..p], ToolKey(events[p].detail))
    ensures WellKeyed(events[..n])
  {
    forall p | 0 <= p < n && events[p].kind == ToolResult
      ensures Answers(events[..n][..p], ToolKey(events[p].detail))
    {
      assert events[..n][..p] == events[..p];
    }
  }

  lemma FirstUnanswerable(events: seq<Event>) returns (p: nat)
    requires !WellKeyed(events)
    ensures p < |events| && events[p].kind == ToolResult && WellKeyed(events[..p])
    ensures !Answers(events[..p], ToolKey(events[p].detail))
  {
    p := 0;
    while events[p].kind != ToolResult || Answers(events[..p], ToolKey(events[p].detail))
      invariant p < |events|
      invariant forall q | 0 <= q < p && events[q].kind == ToolResult :: Answers(events[..q], ToolKey(events[q].detail))
      decreases |events| - p
    {
      p := p + 1;
      if p == |events| {
        assert WellKeyed(events);
      }
    }
    WellKeyedPrefix(events, p);
  }

  // ---------------------------------------------------------------------------------------------
  // All traces.

  /** Results never complete more than one call each, and never invent more than one call each. */
  lemma {:induction false} CountsOnEveryTrace(events: seq<Event>)
    ensures CompletedCount(Run(events).calls) <= ResultCount(events)
    ensures |Starts(events)| <= |Run(events).calls| <= |Starts(events)| + ResultCount(events)
  {
    if events != [] {
      var before, ev := Init(events), Last(events);
      CountsOnEveryTrace(before);
      var s := Run(before);
      match ev.kind {
        case ToolCallStarted =>
          assert Init(s.calls + [StartedCall(ev.detail)]) == s.calls;
        case ToolResult =>
          var queue := s.Queue(ToolKey(ev.detail));
          var at := if queue == [] then FirstStarted(s.calls) else queue[0];
          if at < |s.calls| {
            CompletingCounts(s.calls, at, ev.detail);
          } else {
            assert Init(Run(events).calls) == s.calls;
          }
        case _ =>
      }
    }
  }

  function Thought(ev: Event): string {
    if ev.kind != Thinking then ""
    else if ev.detail.reasoning != "" then ev.detail.reasoning else ev.detail.innerReasoning
  }

  function CaptionOf(ev: Event): Option<string> {
    if ev.kind == Thinking then ev.caption else None
  }

  lemma ThinkStep(s: State, ev: Event)
    requires s.Valid()
    ensures Step(s, ev).reasoning == if Thought(ev) != "" then Thought(ev) else s.reasoning
    ensures Step(s, ev).caption == CaptionOf(ev).GetOr(s.caption)
  {
  }

  /** The text of the last thinking event that had one. */
  function LastThought(events: seq<Event>): string {
    if events == [] then ""
    else if Thought(Last(events)) != "" then Thought(Last(events)) else LastThought(Init(events))
  }

  /** The caption of the last thinking event that had one, or the one shown before there is any. */
  function LastCaption(events: seq<Event>): string {
    if events == [] then DEFAULT_LABEL
    else if CaptionOf(Last(events)).Some? then CaptionOf(Last(events)).value
    else LastCaption(Init(events))
  }

  /** Tool events never touch what is shown of the thinking. */
  lemma {:induction false} ShowsLastThought(events: seq<Event>)
    ensures Run(events).reasoning == LastThought(events) && Run(events).caption == LastCaption(events)
  {
    if events != [] {
      ShowsLastThought(Init(events));
      ThinkStep(Run(Init(events)), Last(events));
    }
  }

  /**
   * A result without a key completes the first start but leaves it queued, so the next result with its key
   * completes it again: two starts and two results, yet one call completed.
   */
  lemma OneCallCompletedTwice(a: Event, b: Event, c: Event, d: Event)
    requires a.kind == b.kind == ToolCallStarted && c.kind == d.kind == ToolResult
    requires ToolKey(c.detail) == "" && ToolKey(d.detail) == ToolKey(a.detail) != "" &&
             ToolKey(b.detail) != ToolKey(a.detail)
    ensures Run([a, b, c]).calls[..1] == [Complete(StartedCall(a.detail), c.detail)]
    ensures Run([a, b, c, d]).calls
         == [Complete(Complete(StartedCall(a.detail), c.detail), d.detail), StartedCall(b.detail)]
    ensures ResultCount([a, b, c, d]) == 2 && CompletedCount(Run([a, b, c, d]).calls) == 1
  {
    TwoStarts(a, b);
    RunSnoc([a, b], c, [a, b, c]);
    RunSnoc([a, b, c], d, [a, b, c, d]);
    CompletesAgain(Run([a, b]), a.detail, b.detail, c.detail, d.detail);
  }

  lemma CompletesAgain(s: State, a: Detail, b: Detail, c: Detail, d: Detail)
    requires s.Valid() && s.calls == [StartedCall(a), StartedCall(b)] && s.Queue(ToolKey(a)) == [0]
    requires ToolKey(c) == "" && ToolKey(d) == ToolKey(a) != ""
    ensures Finish(s, c).Valid() && Finish(s, c).calls[..1] == [Complete(StartedCall(a), c)]
    ensures Finish(Finish(s, c), d).calls == [Complete(Complete(StartedCall(a), c), d), StartedCall(b)]
    ensures CompletedCount(Finish(Finish(s, c), d).calls) == 1
  {
    assert FirstStarted(s.calls) == 0;
    var done := Complete(Complete(StartedCall(a), c), d);
    assert Finish(Finish(s, c), d).calls == [done, StartedCall(b)];
    assert Init([done, StartedCall(b)]) == [done] && Init([done]) == [];
    assert CompletedCount([done]) == 1;
  }

  lemma TwoStarts(a: Event, b: Event)
    requires a.kind == b.kind == ToolCallStarted && ToolKey(a.detail) != "" && ToolKey(b.detail) != ToolKey(a.detail)
    ensures Run([a, b]).calls == [StartedCall(a.detail), StartedCall(b.detail)]
    ensures Run([a, b]).Queue(ToolKey(a.detail)) == [0] && ResultCount([a, b]) == 0
  {
    RunSnoc([], a, [a]);
    RunSnoc([a], b, [a, b]);
  }

  lemma RunSnoc(before: seq<Event>, ev: Event, events: seq<Event>)
    requires events == before + [ev]
    ensures Run(events) == Step(Run(before), ev)
    ensures ResultCount(events) == ResultCount(before) + if ev.kind == ToolResult then 1 else 0
  {
    assert Init(events) == before;
  }
}

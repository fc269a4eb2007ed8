/** What a rebuilt timeline shows, in terms of the stored messages and events alone (apps/sessions/views.py). */
module TimelineReading {
  import opened Basics
  import opened Sorting
  import opened Text
  import opened ToolProgress
  import opened ChatTimeline
  import opened TimelineLaws

  // ---------------------------------------------------------------------------------------------
  // Rows.

  /** Tool messages, assistant messages that call tools, and blank messages are not shown. */
  predicate IsKept(m: Message) {
    && m.role != Tool && (m.role == Assistant ==> m.toolCalls == [])
    && exists i :: 0 <= i < |m.content| && !IsSpace(m.content[i])
  }

  predicate ShowsMessage(r: Row, m: Message) {
    && r.MessageRow? && r.id == m.id && r.role == m.role && r.content == m.content && r.references == m.references
    && r.createdAt == m.createdAt && r.inputTokens == m.inputTokens && r.outputTokens == m.outputTokens
    && r.cost == m.cost && r.modelName == m.modelName
  }

  predicate IsOther(e: Event) {
    e.kind != Thinking && e.kind != ToolCallStarted && e.kind != ToolResult
  }

  predicate ShowsEvent(r: Row, e: Event) {
    && r.EventRow? && r.id == e.id && r.kind == e.kind && r.detail == e.detail && r.createdAt == e.createdAt
    && r.caption == if e.caption.Some? then e.caption.value else ""
  }

  lemma BlankExactly(m: Message)
    ensures Shown(m) <==> IsKept(m)
  {
  }

  lemma {:induction false} ShownAre(messages: seq<Message>) returns (ms: seq<nat>)
    ensures Selects(ms, messages, IsKept) && |ShownMessages(messages)| == |ms|
    ensures forall j | 0 <= j < |ms| :: ms[j] < |messages| && ShowsMessage(ShownMessages(messages)[j], messages[ms[j]])
  {
    ms := [];
    if messages != [] {
      var n := |messages| - 1;
      var before := ShownAre(messages[..n]);
      SelectsSnoc(before, messages, IsKept);
      ms := if IsKept(messages[n]) then before + [n] else before;
      ShownNext(messages, before);
    }
  }

  lemma ShownNext(messages: seq<Message>, ms: seq<nat>)
    requires messages != [] && |ShownMessages(messages[..|messages|-1])| == |ms|
    requires var n := |messages| - 1;
             forall j | 0 <= j < |ms| :: ms[j] < n && ShowsMessage(ShownMessages(messages[..n])[j], messages[ms[j]])
    ensures var n := |messages| - 1;
            var all := if IsKept(messages[n]) then ms + [n] else ms;
            && |ShownMessages(messages)| == |all|
            && forall j | 0 <= j < |all| ::
                 all[j] < |messages| && ShowsMessage(ShownMessages(messages)[j], messages[all[j]])
  {
    BlankExactly(messages[|messages|-1]);
  }

  lemma {:induction false} OthersAre(events: seq<Event>) returns (es: seq<nat>)
    ensures Selects(es, events, IsOther) && |OtherEvents(events)| == |es|
    ensures forall j | 0 <= j < |es| :: es[j] < |events| && ShowsEvent(OtherEvents(events)[j], events[es[j]])
  {
    es := [];
    if events != [] {
      var n := |events| - 1;
      var before := OthersAre(events[..n]);
      SelectsSnoc(before, events, IsOther);
      es := if IsOther(events[n]) then before + [n] else before;
      OtherNext(events, before);
    }
  }

  lemma OtherNext(events: seq<Event>, es: seq<nat>)
    requires events != [] && |OtherEvents(events[..|events|-1])| == |es|
    requires var n := |events| - 1;
             forall j | 0 <= j < |es| :: es[j] < n && ShowsEvent(OtherEvents(events[..n])[j], events[es[j]])
    ensures var n := |events| - 1;
            var all := if IsOther(events[n]) then es + [n] else es;
            && |OtherEvents(events)| == |all|
            && forall j | 0 <= j < |all| :: all[j] < |events| && ShowsEvent(OtherEvents(events)[j], events[all[j]])
  {
  }

  function RowsAt(rows: seq<Row>, time: int): seq<Row> {
    if rows == [] then []
    else if rows[0].createdAt == time then [rows[0]] + RowsAt(rows[1..], time) else RowsAt(rows[1..], time)
  }

  lemma {:induction false} RowsAtSnoc(rows: seq<Row>, r: Row, time: int)
    ensures RowsAt(rows + [r], time) == if r.createdAt == time then RowsAt(rows, time) + [r] else RowsAt(rows, time)
  {
    if rows != [] {
      assert (rows + [r])[1..] == rows[1..] + [r];
      RowsAtSnoc(rows[1..], r, time);
    }
  }

  lemma {:induction false} LikeIsAt(rows: seq<Row>, t: Row)
    ensures Like(rows, RowBefore, t) == RowsAt(rows, t.createdAt)
  {
    if rows != [] {
      LikeIsAt(rows[..|rows|-1], t);
      RowsAtSnoc(rows[..|rows|-1], rows[|rows|-1], t.createdAt);
      assert rows == rows[..|rows|-1] + [rows[|rows|-1]];
    }
  }

  /**
   * Without its boxes the timeline is: the kept messages and then the events that are no activity, each with its own
   * fields, ordered by time and among equal times in this order.
   */
  lemma EntriesExactly(messages: seq<Message>, events: seq<Event>, live: Option<Progress>)
    returns (ms: seq<nat>, es: seq<nat>, kept: seq<Row>)
    ensures Selects(ms, messages, IsKept) && Selects(es, events, IsOther) && |kept| == |ms| + |es|
    ensures forall j | 0 <= j < |ms| :: ms[j] < |messages| && ShowsMessage(kept[j], messages[ms[j]])
    ensures forall j | 0 <= j < |es| :: es[j] < |events| && ShowsEvent(kept[|ms| + j], events[es[j]])
    ensures var rows := RowsOf(Timeline(messages, events, live));
            && multiset(rows) == multiset(kept)
            && (forall i, j | 0 <= i < j < |rows| :: rows[i].createdAt <= rows[j].createdAt)
            && forall time: int :: RowsAt(rows, time) == RowsAt(kept, time)
  {
    ms := ShownAre(messages);
    es := OthersAre(events);
    kept := ShownMessages(messages) + OtherEvents(events);
    RowOrder();
    SortIsStableSort(kept, RowBefore);
    TimelineRows(messages, events, live);
    var rows := RowsOf(Timeline(messages, events, live));
    forall i, j | 0 <= i < j < |rows| ensures rows[i].createdAt <= rows[j].createdAt {
      assert RowBefore(rows[i], rows[j]);
    }
    forall time: int ensures RowsAt(rows, time) == RowsAt(kept, time) {
      var t := MessageRow("", User, "", [], time, 0, 0, 0.0, "");
      LikeIsAt(rows, t);
      LikeIsAt(kept, t);
    }
  }

  /** A message has an entry exactly when it is kept, an event when it is no activity, and there is no other entry. */
  lemma EntryExactly(messages: seq<Message>, events: seq<Event>, live: Option<Progress>)
    ensures forall r :: r in RowsOf(Timeline(messages, events, live)) <==>
                          (exists m :: m in messages && IsKept(m) && ShowsMessage(r, m))
                          || exists e :: e in events && IsOther(e) && ShowsEvent(r, e)
  {
    var ms, es, kept := EntriesExactly(messages, events, live);
    var rows := RowsOf(Timeline(messages, events, live));
    forall r ensures r in rows <==> r in kept {
      assert r in multiset(rows) <==> r in multiset(kept);
    }
    KeptAreShown(messages, events, ms, es, kept);
    ShownAreKept(messages, events, ms, es, kept);
  }

  ghost predicate AreKept(messages: seq<Message>, events: seq<Event>, ms: seq<nat>, es: seq<nat>, kept: seq<Row>) {
    && Selects(ms, messages, IsKept) && Selects(es, events, IsOther) && |kept| == |ms| + |es|
    && (forall j | 0 <= j < |ms| :: ms[j] < |messages| && ShowsMessage(kept[j], messages[ms[j]]))
    && (forall j | 0 <= j < |es| :: es[j] < |events| && ShowsEvent(kept[|ms| + j], events[es[j]]))
  }

  lemma KeptAreShown(messages: seq<Message>, events: seq<Event>, ms: seq<nat>, es: seq<nat>, kept: seq<Row>)
    requires AreKept(messages, events, ms, es, kept)
    ensures forall r | r in kept :: (exists m :: m in messages && IsKept(m) && ShowsMessage(r, m))
                                    || exists e :: e in events && IsOther(e) && ShowsEvent(r, e)
  {
    forall r | r in kept
      ensures (exists m :: m in messages && IsKept(m) && ShowsMessage(r, m))
              || exists e :: e in events && IsOther(e) && ShowsEvent(r, e)
    {
      var j :| 0 <= j < |kept| && kept[j] == r;
      if j < |ms| {
        assert ms[j] in ms && messages[ms[j]] in messages && ShowsMessage(r, messages[ms[j]]);
      } else {
        assert es[j-|ms|] in es && kept[|ms| + (j - |ms|)] == r;
        assert events[es[j-|ms|]] in events && ShowsEvent(r, events[es[j-|ms|]]);
      }
    }
  }

  lemma ShownAreKept(messages: seq<Message>, events: seq<Event>, ms: seq<nat>, es: seq<nat>, kept: seq<Row>)
    requires AreKept(messages, events, ms, es, kept)
    ensures forall r, m | m in messages && IsKept(m) && ShowsMessage(r, m) :: r in kept
    ensures forall r, e | e in events && IsOther(e) && ShowsEvent(r, e) :: r in kept
  {
    forall r, m | m in messages && IsKept(m) && ShowsMessage(r, m) ensures r in kept {
      var i :| 0 <= i < |messages| && messages[i] == m;
      assert i in ms;
      var j :| 0 <= j < |ms| && ms[j] == i;
      assert kept[j] == r;
    }
    forall r, e | e in events && IsOther(e) && ShowsEvent(r, e) ensures r in kept {
      var i :| 0 <= i < |events| && events[i] == e;
      assert i in es;
      var j :| 0 <= j < |es| && es[j] == i;
      assert kept[|ms| + j] == r;
    }
  }

  // ---------------------------------------------------------------------------------------------
  // Boxes.

  function EventsAt(events: seq<Event>, time: int): seq<Event> {
    if events == [] then []
    else
      var rest, e := EventsAt(events[..|events|-1], time), events[|events|-1];
      if e.createdAt == time then rest + [e] else rest
  }

  /** The thinking and tool events of one instant, in their stored order. */
  function ActivityAt(events: seq<Event>, time: int): seq<Event> {
    if events == [] then []
    else
      var rest, e := ActivityAt(events[..|events|-1], time), events[|events|-1];
      if !IsOther(e) && e.createdAt == time then rest + [e] else rest
  }

  /** The turn is the thinking and tool events from `from` on and before `until`, by time, in their stored order. */
  ghost predicate IsTurn(turn: seq<Event>, events: seq<Event>, from: int, until: Option<int>) {
    && (forall i, j | 0 <= i < j < |turn| :: turn[i].createdAt <= turn[j].createdAt)
    && (forall time: int ::
          EventsAt(turn, time)
          == if from <= time && (until.Some? ==> time < until.value) then ActivityAt(events, time) else [])
  }

  lemma {:induction false} LikeIsEventsAt(s: seq<Event>, t: Event)
    ensures Like(s, EventBefore, t) == EventsAt(s, t.createdAt)
  {
    if s != [] {
      LikeIsEventsAt(s[..|s|-1], t);
    }
  }

  lemma {:induction false} ActivityIsAt(events: seq<Event>, time: int)
    ensures EventsAt(ActivityEvents(events), time) == ActivityAt(events, time)
  {
    if events != [] {
      ActivityIsAt(events[..|events|-1], time);
    }
  }

  lemma {:induction false} WithinAt(s: seq<Event>, from: int, until: Option<int>, time: int)
    ensures EventsAt(Within(s, from, until), time)
         == if from <= time && (until.Some? ==> time < until.value) then EventsAt(s, time) else []
  {
    if s != [] {
      WithinAt(s[..|s|-1], from, until, time);
    }
  }

  lemma {:induction false} WithinSorted(s: seq<Event>, from: int, until: Option<int>)
    requires Sorted(s, EventBefore)
    ensures Sorted(Within(s, from, until), EventBefore)
    ensures forall e :: e in Within(s, from, until) ==> e in s
  {
    if s != [] {
      WithinSorted(s[..|s|-1], from, until);
      assert s == s[..|s|-1] + [s[|s|-1]];
      var rest := Within(s[..|s|-1], from, until);
      forall i | 0 <= i < |rest| ensures EventBefore(rest[i], s[|s|-1]) {
        assert rest[i] in s[..|s|-1];
      }
    }
  }

  lemma WithinIsTurn(events: seq<Event>, from: int, until: Option<int>)
    ensures IsTurn(Within(Activity(events), from, until), events, from, until)
  {
    var acts, turn := Activity(events), Within(Activity(events), from, until);
    EventOrder();
    SortIsStableSort(ActivityEvents(events), EventBefore);
    WithinSorted(acts, from, until);
    forall i, j | 0 <= i < j < |turn| ensures turn[i].createdAt <= turn[j].createdAt {
      assert EventBefore(turn[i], turn[j]);
    }
    forall time: int
      ensures EventsAt(turn, time)
           == if from <= time && (until.Some? ==> time < until.value) then ActivityAt(events, time) else []
    {
      WithinAt(acts, from, until, time);
      ActivityIsAt(events, time);
      var t := Event("", OtherKind, None, Detail("", "", "", None, None, "", ""), time);
      LikeIsEventsAt(acts, t);
      LikeIsEventsAt(ActivityEvents(events), t);
    }
  }

  predicate FromUser(r: Row) {
    r.MessageRow? && r.role == User
  }

  /** The time of the next user message after row `i`, if there is one. */
  ghost predicate IsNextTime(rows: seq<Row>, i: nat, until: Option<int>) {
    if until.None? then NoneFromUser(rows, i + 1, |rows|)
    else exists j :: i < j < |rows| && FromUser(rows[j]) && rows[j].createdAt == until.value
                     && NoneFromUser(rows, i + 1, j)
  }

  ghost predicate NoneFromUser(rows: seq<Row>, lo: nat, hi: nat)
    requires hi <= |rows|
  {
    forall h | lo <= h < hi :: !FromUser(rows[h])
  }

  lemma WeavePrefix(rows: seq<Row>, boxes: seq<Option<Item>>, i: nat)
    requires OnlyBoxes(rows, boxes) && i <= |rows|
    ensures Pos(boxes, 0, i) <= |Weave(rows, boxes, 0)|
    ensures RowsOf(Weave(rows, boxes, 0)[..Pos(boxes, 0, i)]) == rows[..i]
  {
    var items, p := Weave(rows, boxes, 0), Pos(boxes, 0, i);
    WeaveSplit(rows, boxes, 0, i);
    RowsOfWeave(rows, boxes, 0);
    RowsOfWeave(rows, boxes, i);
    RowsOfConcat(items[..p], items[p..]);
    assert items == items[..p] + items[p..];
    assert rows == rows[..i] + rows[i..];
    assert rows[0..] == rows;
    assert RowsOf(items[..p]) == rows[..|rows| - |rows[i..]|];
  }

  /**
   * After the user message that is row `i`: the live box if there is one and no user message follows; else the finished
   * progress of the events up to the next user message, under the message's id, if they show any; else no box.
   */
  lemma TurnBoxExactly(messages: seq<Message>, events: seq<Event>, live: Option<Progress>, i: nat)
    returns (p: nat, until: Option<int>, turn: seq<Event>)
    requires var rows := RowsOf(Timeline(messages, events, live)); i < |rows| && FromUser(rows[i])
    ensures var items := Timeline(messages, events, live);
            var rows := RowsOf(items);
            && p < |items| && items[p] == Entry(rows[i]) && RowsOf(items[..p]) == rows[..i]
            && IsNextTime(rows, i, until) && IsTurn(turn, events, rows[i].createdAt, until)
            && var box := if live.Some? && until.None? then Some(Box("progress", live.value))
                          else match ProgressOf(turn, false)
                               case Some(progress) => Some(Box("progress-" + rows[i].id, progress))
                               case None => None;
               if box.Some? then p + 1 < |items| && items[p+1] == box.value
               else p + 1 == |items| || items[p+1].Entry?
  {
    var items, rows := Timeline(messages, events, live), Rows(messages, events);
    TimelineRows(messages, events, live);
    var boxes := Boxes(rows, Activity(events), live);
    until := TurnEnd(rows, i);
    turn := Window(rows, Activity(events), i);
    WithinIsTurn(events, rows[i].createdAt, until);
    p := Pos(boxes, 0, i);
    WeavePrefix(rows, boxes, i);
    UserItemAt(rows, boxes, i);
    BoxNext(rows, boxes, i);
    assert items[..p] == Weave(rows, boxes, 0)[..p];
    if boxes[i].None? && i + 1 == |rows| {
      WeaveSplit(rows, boxes, 0, i);
      assert Weave(rows, boxes, 0)[p..] == [Entry(rows[i])];
      assert NextUser(rows, 0) <= i;
    }
  }

  /** And every box is such a box, or the live box at the end of a timeline without user messages. */
  lemma BoxesElsewhere(messages: seq<Message>, events: seq<Event>, live: Option<Progress>, p: nat)
    requires p < |Timeline(messages, events, live)| && Timeline(messages, events, live)[p].Box?
    ensures var items := Timeline(messages, events, live);
            || (p > 0 && items[p-1].Entry? && FromUser(items[p-1].row))
            || (live.Some? && p == |items| - 1 && items[p] == Box("progress", live.value)
                && forall r | r in RowsOf(items) :: !FromUser(r))
  {
    EveryBoxFollowsItsRow(messages, events, live, p);
    TimelineRows(messages, events, live);
  }
}

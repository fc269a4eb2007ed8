/** Rebuilding a chat timeline from stored messages and agent events (apps/sessions/views.py, _build_chat_items). */
module ChatTimeline {
  import opened Basics
  import opened Sorting
  import opened ToolProgress
  import Text

  datatype Role = User | Assistant | System | Tool

  datatype Message = Message(
    id: string, role: Role, content: string, toolCalls: seq<string>, references: seq<string>, createdAt: int,
    inputTokens: nat, outputTokens: nat, cost: real, modelName: string)

  /** What a message or a remaining event becomes. */
  datatype Row =
    | MessageRow(id: string, role: Role, content: string, references: seq<string>, createdAt: int,
                 inputTokens: nat, outputTokens: nat, cost: real, modelName: string)
    | EventRow(id: string, kind: Kind, caption: string, detail: Detail, createdAt: int)

  datatype Item = Entry(row: Row) | Box(id: string, progress: Progress)

  // ---------------------------------------------------------------------------------------------
  // Rows.

  predicate Blank(s: string) {
    forall i | 0 <= i < |s| :: Text.IsSpace(s[i])
  }

  predicate Shown(m: Message) {
    m.role != Tool && !(m.role == Assistant && m.toolCalls != []) && !Blank(m.content)
  }

  function RowOf(m: Message): Row {
    MessageRow(m.id, m.role, m.content, m.references, m.createdAt, m.inputTokens, m.outputTokens, m.cost, m.modelName)
  }

  predicate IsActivity(e: Event) {
    e.kind == Thinking || e.kind == ToolCallStarted || e.kind == ToolResult
  }

  function ShownMessages(messages: seq<Message>): seq<Row> {
    if messages == [] then []
    else
      var rest, m := ShownMessages(messages[..|messages|-1]), messages[|messages|-1];
      if Shown(m) then rest + [RowOf(m)] else rest
  }

  function OtherEvents(events: seq<Event>): seq<Row> {
    if events == [] then []
    else
      var rest, e := OtherEvents(events[..|events|-1]), events[|events|-1];
      if IsActivity(e) then rest else rest + [EventRow(e.id, e.kind, e.caption.GetOr(""), e.detail, e.createdAt)]
  }

  function ActivityEvents(events: seq<Event>): seq<Event> {
    if events == [] then []
    else
      var rest, e := ActivityEvents(events[..|events|-1]), events[|events|-1];
      if IsActivity(e) then rest + [e] else rest
  }

  predicate RowBefore(a: Row, b: Row) {
    a.createdAt <= b.createdAt
  }

  predicate EventBefore(a: Event, b: Event) {
    a.createdAt <= b.createdAt
  }

  function Rows(messages: seq<Message>, events: seq<Event>): seq<Row> {
    Sort(ShownMessages(messages) + OtherEvents(events), RowBefore)
  }

  function Activity(events: seq<Event>): seq<Event> {
    Sort(ActivityEvents(events), EventBefore)
  }

  predicate IsUser(r: Row) {
    r.MessageRow? && r.role == User
  }

  // ---------------------------------------------------------------------------------------------
  // The timeline, read from left to right: each row, then the box that belongs to it.

  function NextUser(rows: seq<Row>, i: nat): (j: nat)
    requires i <= |rows|
    ensures i <= j <= |rows|
    ensures j < |rows| ==> IsUser(rows[j])
    ensures forall h | i <= h < j :: !IsUser(rows[h])
    decreases |rows| - i
  {
    if i == |rows| || IsUser(rows[i]) then i else NextUser(rows, i + 1)
  }

  /** Events from `from` on, and before `until` if there is an end. */
  function Within(activity: seq<Event>, from: int, until: Option<int>): seq<Event> {
    if activity == [] then []
    else
      var rest, e := Within(activity[..|activity|-1], from, until), activity[|activity|-1];
      if from <= e.createdAt && (until.None? || e.createdAt < until.value) then rest + [e] else rest
  }

  function TurnEnd(rows: seq<Row>, i: nat): Option<int>
    requires i < |rows|
  {
    var j := NextUser(rows, i + 1);
    if j < |rows| then Some(rows[j].createdAt) else None
  }

  function Window(rows: seq<Row>, activity: seq<Event>, i: nat): seq<Event>
    requires i < |rows|
  {
    Within(activity, rows[i].createdAt, TurnEnd(rows, i))
  }

  function HistoricalBox(rows: seq<Row>, activity: seq<Event>, i: nat): Option<Item>
    requires i < |rows|
  {
    var progress := ProgressOf(Window(rows, activity, i), false);
    if progress.Some? then Some(Box("progress-" + rows[i].id, progress.value)) else None
  }

  function LiveBox(live: Progress): Item {
    Box("progress", live)
  }

  /** The box of a finished turn: the last turn is left to the live box when there is one. */
  function FinishedBox(rows: seq<Row>, activity: seq<Event>, live: Option<Progress>, i: nat): (box: Option<Item>)
    requires i < |rows|
    ensures box.Some? ==> box.value.Box? && IsUser(rows[i])
  {
    if IsUser(rows[i]) && (live.None? || NextUser(rows, i + 1) < |rows|) then HistoricalBox(rows, activity, i) else None
  }

  /** The box of row `i`: nothing but for user messages, whose last one gets the live box when there is one. */
  function BoxAfter(rows: seq<Row>, activity: seq<Event>, live: Option<Progress>, i: nat): (box: Option<Item>)
    requires i < |rows|
    ensures box.Some? ==> box.value.Box? && IsUser(rows[i])
  {
    if IsUser(rows[i]) && live.Some? && NextUser(rows, i + 1) == |rows| then Some(LiveBox(live.value))
    else FinishedBox(rows, activity, live, i)
  }

  function Boxes(rows: seq<Row>, activity: seq<Event>, live: Option<Progress>): (boxes: seq<Option<Item>>)
    ensures |boxes| == |rows|
    ensures forall i | 0 <= i < |rows| :: boxes[i] == BoxAfter(rows, activity, live, i)
  {
    seq(|rows|, i requires 0 <= i < |rows| => BoxAfter(rows, activity, live, i))
  }

  function Single<T>(o: Option<T>): seq<T> {
    if o.Some? then [o.value] else []
  }

  function Weave(rows: seq<Row>, boxes: seq<Option<Item>>, lo: nat): seq<Item>
    requires |boxes| == |rows| && lo <= |rows|
    decreases |rows| - lo
  {
    if lo == |rows| then [] else [Entry(rows[lo])] + Single(boxes[lo]) + Weave(rows, boxes, lo + 1)
  }

  function Timeline(messages: seq<Message>, events: seq<Event>, live: Option<Progress>): seq<Item> {
    var rows := Rows(messages, events);
    Weave(rows, Boxes(rows, Activity(events), live), 0)
    + if live.Some? && NextUser(rows, 0) == |rows| then [LiveBox(live.value)] else []
  }

  // ---------------------------------------------------------------------------------------------
  // The code: collect and sort, find the turns, insert from the last turn back, then place the live box.

  function Entries(rows: seq<Row>): (items: seq<Item>)
    ensures |items| == |rows| && forall i | 0 <= i < |rows| :: items[i] == Entry(rows[i])
  {
    seq(|rows|, i requires 0 <= i < |rows| => Entry(rows[i]))
  }

  method BuildChatItems(messages: seq<Message>, events: seq<Event>, live: Option<Progress>) returns (items: seq<Item>)
    ensures items == Timeline(messages, events, live)
  {
    var rows := CollectRows(messages, events);
    rows := Sort(rows, RowBefore);
    var activity := CollectActivity(events);
    activity := Sort(activity, EventBefore);
    var users := FindUsers(rows);
    var insertions := FindInsertions(rows, activity, users, live);
    items := InsertAll(rows, insertions, FinishedBoxes(rows, activity, live));
    if live.Some? {
      LiveFillsLastTurn(rows, activity, live.value);
      items := InsertLive(items, live.value, rows, FinishedBoxes(rows, activity, live), Boxes(rows, activity, live));
    } else {
      assert FinishedBoxes(rows, activity, live) == Boxes(rows, activity, live);
    }
  }

  method CollectRows(messages: seq<Message>, events: seq<Event>) returns (rows: seq<Row>)
    ensures rows == ShownMessages(messages) + OtherEvents(events)
  {
    rows := [];
    for n := 0 to |messages|
      invariant rows == ShownMessages(messages[..n])
    {
      var m := messages[n];
      assert messages[..n+1][..n] == messages[..n];
      if m.role == Tool || (m.role == Assistant && m.toolCalls != []) || Blank(m.content) {
        continue;
      }
      rows := rows + [RowOf(m)];
    }
    assert messages[..|messages|] == messages;
    for n := 0 to |events|
      invariant rows == ShownMessages(messages) + OtherEvents(events[..n])
    {
      var e := events[n];
      assert events[..n+1][..n] == events[..n];
      if IsActivity(e) {
        continue;
      }
      rows := rows + [EventRow(e.id, e.kind, e.caption.GetOr(""), e.detail, e.createdAt)];
    }
    assert events[..|events|] == events;
  }

  method CollectActivity(events: seq<Event>) returns (activity: seq<Event>)
    ensures activity == ActivityEvents(events)
  {
    activity := [];
    for n := 0 to |events|
      invariant activity == ActivityEvents(events[..n])
    {
      assert events[..n+1][..n] == events[..n];
      if IsActivity(events[n]) {
        activity := activity + [events[n]];
      }
    }
    assert events[..|events|] == events;
  }

  /** `users` lists the positions below `hi` of the user rows. */
  ghost predicate UserPositions(rows: seq<Row>, users: seq<nat>, hi: nat)
    requires hi <= |rows|
  {
    && (forall k | 0 <= k < |users| :: users[k] < hi && IsUser(rows[users[k]]))
    && (forall k, k' | 0 <= k < k' < |users| :: users[k] < users[k'])
    && (forall i | 0 <= i < hi && IsUser(rows[i]) :: i in users)
  }

  method FindUsers(rows: seq<Row>) returns (users: seq<nat>)
    ensures UserPositions(rows, users, |rows|)
  {
    users := [];
    for n := 0 to |rows|
      invariant UserPositions(rows, users, n)
    {
      if IsUser(rows[n]) {
        users := users + [n];
      }
    }
  }

  lemma NextPosition(rows: seq<Row>, users: seq<nat>, k: nat)
    requires UserPositions(rows, users, |rows|) && k < |users|
    ensures NextUser(rows, users[k] + 1) == if k + 1 < |users| then users[k+1] else |rows|
  {
    var j := NextUser(rows, users[k] + 1);
    assert k + 1 < |users| ==> j <= users[k+1];
    if j < |rows| {
      var k' :| 0 <= k' < |users| && users[k'] == j;
      assert k < k';
    }
  }

  function FinishedBoxes(rows: seq<Row>, activity: seq<Event>, live: Option<Progress>): (boxes: seq<Option<Item>>)
    ensures |boxes| == |rows|
    ensures forall i | 0 <= i < |rows| :: boxes[i] == FinishedBox(rows, activity, live, i)
    ensures forall i | 0 <= i < |rows| :: boxes[i].Some? ==> boxes[i].value.Box?
  {
    seq(|rows|, i requires 0 <= i < |rows| => FinishedBox(rows, activity, live, i))
  }

  ghost predicate InsertionsAre(insertions: seq<(nat, Item)>, boxes: seq<Option<Item>>, hi: nat)
    requires hi <= |boxes|
  {
    && (forall k | 0 <= k < |insertions| :: insertions[k].0 < hi && boxes[insertions[k].0] == Some(insertions[k].1))
    && (forall k, k' | 0 <= k < k' < |insertions| :: insertions[k].0 < insertions[k'].0)
    && (forall i | 0 <= i < hi && boxes[i].Some? :: exists k | 0 <= k < |insertions| :: insertions[k].0 == i)
  }

  method FindInsertions(rows: seq<Row>, activity: seq<Event>, users: seq<nat>, live: Option<Progress>)
    returns (insertions: seq<(nat, Item)>)
    requires UserPositions(rows, users, |rows|)
    ensures InsertionsAre(insertions, FinishedBoxes(rows, activity, live), |rows|)
  {
    insertions := [];
    ghost var boxes := FinishedBoxes(rows, activity, live);
    if users != [] {
      NoUserBefore(rows, users);
    }
    for k := 0 to |users|
      invariant InsertionsAre(insertions, boxes, if k < |users| then users[k] else |rows|)
    {
      NextPosition(rows, users, k);
      ghost var before := insertions;
      var until := if k + 1 < |users| then Some(rows[users[k+1]].createdAt) else None;
      if until.Some? || live.None? {
        var box := TurnBox(rows, activity, users[k], until);
        if box.Some? {
          insertions := insertions + [(users[k], box.value)];
        }
      }
      ExtendInsertions(before, insertions, boxes, users[k], if k + 1 < |users| then users[k+1] else |rows|);
    }
  }

  method TurnBox(rows: seq<Row>, activity: seq<Event>, i: nat, until: Option<int>) returns (box: Option<Item>)
    requires i < |rows| && until == TurnEnd(rows, i)
    ensures box == HistoricalBox(rows, activity, i)
  {
    box := None;
    var group := Within(activity, rows[i].createdAt, until);
    if group != [] {
      var progress := EventsToProgress(group, false);
      if progress.Some? {
        box := Some(Box("progress-" + rows[i].id, progress.value));
      }
    }
  }

  lemma NoUserBefore(rows: seq<Row>, users: seq<nat>)
    requires UserPositions(rows, users, |rows|) && users != []
    ensures forall i | 0 <= i < users[0] :: !IsUser(rows[i])
  {
    forall i | 0 <= i < users[0] ensures !IsUser(rows[i]) {
      assert IsUser(rows[i]) ==> i in users;
    }
  }

  lemma ExtendInsertions(before: seq<(nat, Item)>, after: seq<(nat, Item)>, boxes: seq<Option<Item>>, i: nat, hi: nat)
    requires i < hi <= |boxes| && InsertionsAre(before, boxes, i)
    requires forall j | i < j < hi :: boxes[j].None?
    requires after == if boxes[i].Some? then before + [(i, boxes[i].value)] else before
    ensures InsertionsAre(after, boxes, hi)
  {
    forall j | 0 <= j < hi && boxes[j].Some? ensures exists k | 0 <= k < |after| :: after[k].0 == j {
      if j == i {
        assert after[|before|].0 == i;
      } else {
        var k :| 0 <= k < |before| && before[k].0 == j;
        assert after[k].0 == j;
      }
    }
  }

  lemma {:induction false} WeaveGap(rows: seq<Row>, boxes: seq<Option<Item>>, lo: nat, hi: nat)
    requires |boxes| == |rows| && lo <= hi <= |rows|
    requires forall i | lo <= i < hi :: boxes[i].None?
    ensures Weave(rows, boxes, lo) == Entries(rows[lo..hi]) + Weave(rows, boxes, hi)
    decreases hi - lo
  {
    if lo < hi {
      WeaveGap(rows, boxes, lo + 1, hi);
      EntriesCons(rows, lo, hi);
      WeaveNoBox(rows, boxes, lo);
      ConsConcat(Entry(rows[lo]), Entries(rows[lo+1..hi]), Weave(rows, boxes, hi));
    }
  }

  lemma EntriesCons(rows: seq<Row>, lo: nat, hi: nat)
    requires lo < hi <= |rows|
    ensures Entries(rows[lo..hi]) == [Entry(rows[lo])] + Entries(rows[lo+1..hi])
  {
  }

  lemma WeaveNoBox(rows: seq<Row>, boxes: seq<Option<Item>>, lo: nat)
    requires |boxes| == |rows| && lo < |rows| && boxes[lo].None?
    ensures Weave(rows, boxes, lo) == [Entry(rows[lo])] + Weave(rows, boxes, lo + 1)
  {
    assert Single(boxes[lo]) == [];
  }

  lemma ConsConcat(item: Item, a: seq<Item>, b: seq<Item>)
    ensures [item] + (a + b) == ([item] + a) + b
  {
  }

  /** Inserting from the last turn back leaves every earlier index valid. */
  method InsertAll(rows: seq<Row>, insertions: seq<(nat, Item)>, ghost boxes: seq<Option<Item>>)
    returns (items: seq<Item>)
    requires |boxes| == |rows| && InsertionsAre(insertions, boxes, |rows|)
    ensures items == Weave(rows, boxes, 0)
  {
    items := Entries(rows);
    var k := |insertions|;
    ghost var hi: nat := |rows|;
    while k > 0
      invariant 0 <= k <= |insertions| && hi == (if k < |insertions| then insertions[k].0 else |rows|)
      invariant items == Entries(rows[..hi]) + Weave(rows, boxes, hi)
    {
      k := k - 1;
      var (at, box) := insertions[k];
      NoBoxBetween(insertions, boxes, k, hi);
      InsertOne(rows, boxes, at, hi);
      items := items[..at+1] + [box] + items[at+1..];
      hi := at;
    }
    NoBoxBeforeFirst(insertions, boxes);
    WeaveGap(rows, boxes, 0, hi);
  }

  lemma InsertOne(rows: seq<Row>, boxes: seq<Option<Item>>, at: nat, hi: nat)
    requires |boxes| == |rows| && at < hi <= |rows| && boxes[at].Some?
    requires forall i | at < i < hi :: boxes[i].None?
    ensures var items := Entries(rows[..hi]) + Weave(rows, boxes, hi);
            items[..at+1] + [boxes[at].value] + items[at+1..] == Entries(rows[..at]) + Weave(rows, boxes, at)
  {
    WeaveGap(rows, boxes, at + 1, hi);
    var head, tail := Entries(rows[..at]) + [Entry(rows[at])], Entries(rows[at+1..hi]);
    assert Entries(rows[..hi]) == head + tail;
    assert (head + tail + Weave(rows, boxes, hi))[..at+1] == head;
    assert (head + tail + Weave(rows, boxes, hi))[at+1..] == tail + Weave(rows, boxes, hi);
  }

  lemma NoBoxBeforeFirst(insertions: seq<(nat, Item)>, boxes: seq<Option<Item>>)
    requires InsertionsAre(insertions, boxes, |boxes|)
    ensures forall i | 0 <= i < (if insertions == [] then |boxes| else insertions[0].0) :: boxes[i].None?
  {
    forall i | 0 <= i < (if insertions == [] then |boxes| else insertions[0].0) ensures boxes[i].None? {
      forall j | 0 <= j < |insertions| ensures insertions[j].0 != i {
        assert 0 < j ==> insertions[0].0 < insertions[j].0;
      }
    }
  }

  lemma NoBoxBetween(insertions: seq<(nat, Item)>, boxes: seq<Option<Item>>, k: nat, hi: nat)
    requires InsertionsAre(insertions, boxes, |boxes|) && k < |insertions|
    requires hi == if k + 1 < |insertions| then insertions[k+1].0 else |boxes|
    ensures forall i | insertions[k].0 < i < hi :: boxes[i].None?
  {
    forall i | insertions[k].0 < i < hi ensures boxes[i].None? {
      forall j | 0 <= j < |insertions| ensures insertions[j].0 != i {
        assert j < k ==> insertions[j].0 < insertions[k].0;
        assert k + 1 < j ==> insertions[k+1].0 < insertions[j].0;
      }
    }
  }

  // ---------------------------------------------------------------------------------------------
  // Positions in the woven list.

  /** The position of row `i` in the list woven from row `lo` on. */
  function Pos(boxes: seq<Option<Item>>, lo: nat, i: nat): nat
    requires lo <= i <= |boxes|
    decreases i - lo
  {
    if lo == i then 0 else 1 + |Single(boxes[lo])| + Pos(boxes, lo + 1, i)
  }

  lemma {:induction false} WeaveSplit(rows: seq<Row>, boxes: seq<Option<Item>>, lo: nat, i: nat)
    requires |boxes| == |rows| && lo <= i <= |rows|
    ensures Pos(boxes, lo, i) <= |Weave(rows, boxes, lo)|
    ensures Weave(rows, boxes, lo)[Pos(boxes, lo, i)..] == Weave(rows, boxes, i)
    decreases i - lo
  {
    if lo < i {
      WeaveSplit(rows, boxes, lo + 1, i);
      var head := [Entry(rows[lo])] + Single(boxes[lo]);
      assert Weave(rows, boxes, lo) == head + Weave(rows, boxes, lo + 1);
      assert Weave(rows, boxes, lo)[|head|..] == Weave(rows, boxes, lo + 1);
    }
  }

  predicate IsUserItem(item: Item) {
    item.Entry? && IsUser(item.row)
  }

  lemma {:induction false} WeaveUsers(rows: seq<Row>, boxes: seq<Option<Item>>, lo: nat)
    requires |boxes| == |rows| && lo <= |rows| && NextUser(rows, lo) == |rows|
    requires forall i | 0 <= i < |boxes| :: boxes[i].Some? ==> boxes[i].value.Box?
    ensures forall item <- Weave(rows, boxes, lo) :: !IsUserItem(item)
    decreases |rows| - lo
  {
    if lo < |rows| {
      WeaveUsers(rows, boxes, lo + 1);
    }
  }

  /** Changing only earlier boxes or none leaves the rest of the list as it is. */
  lemma {:induction false} WeaveSame(rows: seq<Row>, boxes: seq<Option<Item>>, boxes': seq<Option<Item>>, lo: nat)
    requires |boxes| == |boxes'| == |rows| && lo <= |rows|
    requires boxes[lo..] == boxes'[lo..]
    ensures Weave(rows, boxes, lo) == Weave(rows, boxes', lo)
    decreases |rows| - lo
  {
    if lo < |rows| {
      assert boxes[lo] == boxes[lo..][0] && boxes'[lo] == boxes'[lo..][0];
      assert boxes[lo+1..] == boxes[lo..][1..] && boxes'[lo+1..] == boxes'[lo..][1..];
      WeaveSame(rows, boxes, boxes', lo + 1);
    }
  }

  /** Filling the empty box of row `i` inserts the item right after that row. */
  lemma {:induction false} WeaveFill(rows: seq<Row>, boxes: seq<Option<Item>>, lo: nat, i: nat, box: Item)
    requires |boxes| == |rows| && lo <= i < |rows| && boxes[i].None?
    ensures var woven, at := Weave(rows, boxes, lo), Pos(boxes, lo, i);
            at < |woven| && Weave(rows, boxes[i := Some(box)], lo) == woven[..at+1] + [box] + woven[at+1..]
    decreases i - lo
  {
    var boxes' := boxes[i := Some(box)];
    if lo == i {
      WeaveSame(rows, boxes, boxes', i + 1);
    } else {
      WeaveFill(rows, boxes, lo + 1, i, box);
      var head := [Entry(rows[lo])] + Single(boxes[lo]);
      var rest, at := Weave(rows, boxes, lo + 1), Pos(boxes, lo + 1, i);
      assert Weave(rows, boxes, lo) == head + rest;
      CutAfter(head, rest, at + 1);
    }
  }

  lemma CutAfter<T>(head: seq<T>, rest: seq<T>, at: nat)
    requires at <= |rest|
    ensures (head + rest)[..|head|+at] == head + rest[..at] && (head + rest)[|head|+at..] == rest[at..]
  {
  }

  /** The last user row, if there is one. */
  lemma {:induction false} LastUser(rows: seq<Row>, lo: nat) returns (last: Option<nat>)
    requires lo <= |rows|
    ensures last.None? <==> NextUser(rows, lo) == |rows|
    ensures last.Some? ==>
              lo <= last.value < |rows| && IsUser(rows[last.value]) && NextUser(rows, last.value + 1) == |rows|
    decreases |rows| - lo
  {
    var i := NextUser(rows, lo);
    if i == |rows| {
      return None;
    }
    last := LastUser(rows, i + 1);
    if last.None? {
      last := Some(i);
    }
  }

  predicate IsLastTurn(rows: seq<Row>, i: nat)
    requires i < |rows|
  {
    IsUser(rows[i]) && NextUser(rows, i + 1) == |rows|
  }

  /** `after` is `before` with the empty box of the last turn filled. */
  ghost predicate LastTurnFilled(rows: seq<Row>, before: seq<Option<Item>>, after: seq<Option<Item>>, box: Item) {
    && |rows| == |before| == |after|
    && (forall i | 0 <= i < |rows| :: before[i].Some? ==> before[i].value.Box?)
    && forall i | 0 <= i < |rows| ::
         if IsLastTurn(rows, i) then before[i].None? && after[i] == Some(box) else after[i] == before[i]
  }

  lemma LiveFillsLastTurn(rows: seq<Row>, activity: seq<Event>, live: Progress)
    ensures LastTurnFilled(rows, FinishedBoxes(rows, activity, Some(live)), Boxes(rows, activity, Some(live)),
                           LiveBox(live))
  {
  }

  method InsertLive(items: seq<Item>, live: Progress, ghost rows: seq<Row>, ghost before: seq<Option<Item>>,
                    ghost after: seq<Option<Item>>)
    returns (items': seq<Item>)
    requires LastTurnFilled(rows, before, after, LiveBox(live)) && items == Weave(rows, before, 0)
    ensures items' == Weave(rows, after, 0) + if NextUser(rows, 0) == |rows| then [LiveBox(live)] else []
  {
    var last := FindLastUser(items);
    ghost var user := LastUser(rows, 0);
    if last.Some? {
      FillLastTurn(rows, before, after, user, last, LiveBox(live));
      items' := items[..last.value+1] + [LiveBox(live)] + items[last.value+1..];
    } else {
      FillLastTurn(rows, before, after, user, last, LiveBox(live));
      items' := items + [LiveBox(live)];
    }
  }

  ghost predicate IsLastUserItem(items: seq<Item>, last: Option<nat>) {
    && (last.Some? ==> last.value < |items| && IsUserItem(items[last.value]))
    && forall k | (if last.Some? then last.value + 1 else 0) <= k < |items| :: !IsUserItem(items[k])
  }

  method FindLastUser(items: seq<Item>) returns (last: Option<nat>)
    ensures IsLastUserItem(items, last)
  {
    last := None;
    for n := 0 to |items|
      invariant last.Some? ==> last.value < n && IsUserItem(items[last.value])
      invariant forall k | (if last.Some? then last.value + 1 else 0) <= k < n :: !IsUserItem(items[k])
    {
      if IsUserItem(items[n]) {
        last := Some(n);
      }
    }
  }

  lemma FillLastTurn(rows: seq<Row>, before: seq<Option<Item>>, after: seq<Option<Item>>, user: Option<nat>,
                     last: Option<nat>, box: Item)
    requires LastTurnFilled(rows, before, after, box) && IsLastUserItem(Weave(rows, before, 0), last)
    requires user.None? ==> NextUser(rows, 0) == |rows|
    requires user.Some? ==> user.value < |rows| && IsLastTurn(rows, user.value)
    ensures last.Some? <==> user.Some?
    ensures var items := Weave(rows, before, 0);
            Weave(rows, after, 0) == if last.Some? then items[..last.value+1] + [box] + items[last.value+1..] else items
  {
    if user.None? {
      assert after == before;
      WeaveUsers(rows, before, 0);
    } else {
      assert after == before[user.value := Some(box)] by {
        forall i | 0 <= i < |rows| && i != user.value ensures !IsLastTurn(rows, i) {
          OneLastTurn(rows, user.value, i);
        }
      }
      UserItemAt(rows, before, user.value);
      LastUserItem(rows, before, user.value, last.value);
      WeaveFill(rows, before, 0, user.value, box);
    }
  }

  lemma OneLastTurn(rows: seq<Row>, i: nat, j: nat)
    requires i < |rows| && j < |rows| && IsLastTurn(rows, i)
    ensures IsLastTurn(rows, j) <==> j == i
  {
  }

  lemma UserItemAt(rows: seq<Row>, boxes: seq<Option<Item>>, i: nat)
    requires |boxes| == |rows| && i < |rows|
    ensures Pos(boxes, 0, i) < |Weave(rows, boxes, 0)| && Weave(rows, boxes, 0)[Pos(boxes, 0, i)] == Entry(rows[i])
  {
    WeaveSplit(rows, boxes, 0, i);
    assert Weave(rows, boxes, 0)[Pos(boxes, 0, i)] == Weave(rows, boxes, 0)[Pos(boxes, 0, i)..][0];
  }

  lemma LastUserItem(rows: seq<Row>, boxes: seq<Option<Item>>, user: nat, last: nat)
    requires |boxes| == |rows| && user < |rows| && IsUser(rows[user]) && NextUser(rows, user + 1) == |rows|
    requires forall i | 0 <= i < |boxes| :: boxes[i].Some? ==> boxes[i].value.Box?
    requires last < |Weave(rows, boxes, 0)| && IsUserItem(Weave(rows, boxes, 0)[last])
    requires forall k | last < k < |Weave(rows, boxes, 0)| :: !IsUserItem(Weave(rows, boxes, 0)[k])
    ensures last == Pos(boxes, 0, user)
  {
    var items, at := Weave(rows, boxes, 0), Pos(boxes, 0, user);
    WeaveSplit(rows, boxes, 0, user);
    WeaveUsers(rows, boxes, user + 1);
    var tail := items[at..];
    assert tail == [Entry(rows[user])] + Single(boxes[user]) + Weave(rows, boxes, user + 1);
    assert items[at] == tail[0];
  }
}

/** What a rebuilt timeline promises its reader. */
module TimelineLaws {
  import opened Basics
  import opened Sorting
  import opened ToolProgress
  import opened ChatTimeline

  function RowsOf(items: seq<Item>): seq<Row> {
    if items == [] then []
    else if items[0].Entry? then [items[0].row] + RowsOf(items[1..])
    else RowsOf(items[1..])
  }

  ghost predicate OnlyBoxes(rows: seq<Row>, boxes: seq<Option<Item>>) {
    |boxes| == |rows| && forall i | 0 <= i < |boxes| :: boxes[i].Some? ==> boxes[i].value.Box?
  }

  lemma {:induction false} RowsOfConcat(a: seq<Item>, b: seq<Item>)
    ensures RowsOf(a + b) == RowsOf(a) + RowsOf(b)
  {
    if a == [] {
      assert a + b == b;
    } else {
      assert (a + b)[1..] == a[1..] + b;
      RowsOfConcat(a[1..], b);
    }
  }

  lemma {:induction false} RowsOfWeave(rows: seq<Row>, boxes: seq<Option<Item>>, lo: nat)
    requires OnlyBoxes(rows, boxes) && lo <= |rows|
    ensures RowsOf(Weave(rows, boxes, lo)) == rows[lo..]
    decreases |rows| - lo
  {
    if lo < |rows| {
      RowsOfWeave(rows, boxes, lo + 1);
      RowsOfConcat([Entry(rows[lo])] + Single(boxes[lo]), Weave(rows, boxes, lo + 1));
      RowsOfConcat([Entry(rows[lo])], Single(boxes[lo]));
      assert RowsOf(Single(boxes[lo])) == [];
    }
  }

  lemma RowOrder()
    ensures TotalPreorder(RowBefore)
  {
  }

  lemma EventOrder()
    ensures TotalPreorder(EventBefore)
  {
  }

  /**
   * Deleting the boxes leaves the one sequence that is sorted by time and keeps, among equal times, the order
   * in which messages and then events were stored.
   */
  lemma DeletingBoxesLeavesStableOrder(messages: seq<Message>, events: seq<Event>, live: Option<Progress>,
                                       rows: seq<Row>)
    ensures rows == RowsOf(Timeline(messages, events, live))
       <==> IsStableSort(rows, ShownMessages(messages) + OtherEvents(events), RowBefore)
  {
    RowOrder();
    SortExactly(rows, ShownMessages(messages) + OtherEvents(events), RowBefore);
    TimelineRows(messages, events, live);
  }

  lemma TimelineRows(messages: seq<Message>, events: seq<Event>, live: Option<Progress>)
    ensures RowsOf(Timeline(messages, events, live)) == Rows(messages, events)
  {
    var rows := Rows(messages, events);
    var boxes := Boxes(rows, Activity(events), live);
    var tail := if live.Some? && NextUser(rows, 0) == |rows| then [LiveBox(live.value)] else [];
    RowsOfWeave(rows, boxes, 0);
    RowsOfConcat(Weave(rows, boxes, 0), tail);
    assert RowsOf(tail) == [];
  }

  // ---------------------------------------------------------------------------------------------
  // Where boxes are.

  /** Every position of a woven list is a row's, or a box's right after its row. */
  lemma {:induction false} WeavePosition(rows: seq<Row>, boxes: seq<Option<Item>>, lo: nat, p: nat) returns (i: nat)
    requires OnlyBoxes(rows, boxes) && lo <= |rows| && p < |Weave(rows, boxes, lo)|
    ensures lo <= i < |rows|
    ensures if Weave(rows, boxes, lo)[p].Entry? then p == Pos(boxes, lo, i) &&
            Weave(rows, boxes, lo)[p] == Entry(rows[i])
            else p == Pos(boxes, lo, i) + 1 && boxes[i] == Some(Weave(rows, boxes, lo)[p])
    decreases |rows| - lo
  {
    var head := [Entry(rows[lo])] + Single(boxes[lo]);
    if p < |head| {
      i := lo;
    } else {
      i := WeavePosition(rows, boxes, lo + 1, p - |head|);
    }
  }

  lemma PosStep(boxes: seq<Option<Item>>, lo: nat, i: nat)
    requires lo <= i < |boxes|
    ensures Pos(boxes, lo, i + 1) == Pos(boxes, lo, i) + 1 + |Single(boxes[i])|
    decreases i - lo
  {
    if lo < i {
      PosStep(boxes, lo + 1, i);
    }
  }

  /** A box stands directly after its user message; only a live box without any user message ends the list. */
  lemma EveryBoxFollowsItsRow(messages: seq<Message>, events: seq<Event>, live: Option<Progress>, p: nat)
    requires p < |Timeline(messages, events, live)| && Timeline(messages, events, live)[p].Box?
    ensures var items, rows := Timeline(messages, events, live), Rows(messages, events);
            || (exists i :: 0 <= i < |rows| && p > 0 && items[p-1] == Entry(rows[i]) && IsUser(rows[i])
                            && BoxAfter(rows, Activity(events), live, i) == Some(items[p]))
            || (live.Some? && NextUser(rows, 0) == |rows| && p == |items| - 1 && items[p] == LiveBox(live.value))
  {
    var rows := Rows(messages, events);
    var boxes := Boxes(rows, Activity(events), live);
    if p < |Weave(rows, boxes, 0)| {
      var i := WeavePosition(rows, boxes, 0, p);
      UserItemAt(rows, boxes, i);
      assert BoxAfter(rows, Activity(events), live, i) == Some(Timeline(messages, events, live)[p]);
    }
  }

  /** Every row keeps its place in time, and the box it is due comes right after it. */
  lemma EveryRowGetsItsBox(messages: seq<Message>, events: seq<Event>, live: Option<Progress>, i: nat) returns (p: nat)
    requires i < |Rows(messages, events)|
    ensures var items, rows := Timeline(messages, events, live), Rows(messages, events);
            var box := BoxAfter(rows, Activity(events), live, i);
            && p < |items| && items[p] == Entry(rows[i])
            && (box.Some? ==> p + 1 < |items| && items[p+1] == box.value)
            && (box.None? && i + 1 < |rows| ==> p + 1 < |items| && items[p+1] == Entry(rows[i+1]))
  {
    var rows := Rows(messages, events);
    var boxes := Boxes(rows, Activity(events), live);
    p := Pos(boxes, 0, i);
    UserItemAt(rows, boxes, i);
    BoxNext(rows, boxes, i);
  }

  lemma BoxNext(rows: seq<Row>, boxes: seq<Option<Item>>, i: nat)
    requires |boxes| == |rows| && i < |rows|
    ensures var items, p := Weave(rows, boxes, 0), Pos(boxes, 0, i);
            && (boxes[i].Some? ==> p + 1 < |items| && items[p+1] == boxes[i].value)
            && (boxes[i].None? && i + 1 < |rows| ==> p + 1 < |items| && items[p+1] == Entry(rows[i+1]))
  {
    var items, p := Weave(rows, boxes, 0), Pos(boxes, 0, i);
    WeaveSplit(rows, boxes, 0, i);
    assert items[p..] == [Entry(rows[i])] + Single(boxes[i]) + Weave(rows, boxes, i + 1);
    if boxes[i].Some? {
      assert items[p+1] == items[p..][1];
    } else if i + 1 < |rows| {
      assert items[p+1] == items[p..][1];
    }
  }

  /** The live box directly follows the last user message, or ends the list when there is none. */
  lemma LiveBoxPlace(messages: seq<Message>, events: seq<Event>, live: Progress) returns (p: nat)
    ensures var items := Timeline(messages, events, Some(live));
            && p < |items| && items[p] == LiveBox(live)
            && (forall q | p < q < |items| :: !IsUserItem(items[q]))
            && ((p > 0 && IsUserItem(items[p-1])) ||
                (p == |items| - 1 && forall q | 0 <= q < |items| :: !IsUserItem(items[q])))
  {
    var rows := Rows(messages, events);
    p := LivePlace(rows, Boxes(rows, Activity(events), Some(live)), live);
  }

  lemma LivePlace(rows: seq<Row>, boxes: seq<Option<Item>>, live: Progress) returns (p: nat)
    requires OnlyBoxes(rows, boxes)
    requires forall i | 0 <= i < |rows| && IsLastTurn(rows, i) :: boxes[i] == Some(LiveBox(live))
    ensures var items := Weave(rows, boxes, 0) + if NextUser(rows, 0) == |rows| then [LiveBox(live)] else [];
            && p < |items| && items[p] == LiveBox(live)
            && (forall q | p < q < |items| :: !IsUserItem(items[q]))
            && ((p > 0 && IsUserItem(items[p-1])) ||
                (p == |items| - 1 && forall q | 0 <= q < |items| :: !IsUserItem(items[q])))
  {
    var user := LastUser(rows, 0);
    if user.None? {
      WeaveUsers(rows, boxes, 0);
      p := |Weave(rows, boxes, 0)|;
    } else {
      p := Pos(boxes, 0, user.value) + 1;
      assert IsLastTurn(rows, user.value);
      LiveBoxAfter(rows, boxes, user.value);
    }
  }

  lemma LiveBoxAfter(rows: seq<Row>, boxes: seq<Option<Item>>, user: nat)
    requires OnlyBoxes(rows, boxes) && user < |rows| && IsUser(rows[user]) && NextUser(rows, user + 1) == |rows| &&
             boxes[user].Some?
    ensures var items, p := Weave(rows, boxes, 0), Pos(boxes, 0, user) + 1;
            && p < |items| && items[p] == boxes[user].value && IsUserItem(items[p-1])
            && forall q | p < q < |items| :: !IsUserItem(items[q])
  {
    UserItemAt(rows, boxes, user);
    BoxNext(rows, boxes, user);
    NoUserLater(rows, boxes, user);
  }

  lemma NoUserLater(rows: seq<Row>, boxes: seq<Option<Item>>, user: nat)
    requires OnlyBoxes(rows, boxes) && user < |rows| && NextUser(rows, user + 1) == |rows|
    ensures forall q | Pos(boxes, 0, user) < q < |Weave(rows, boxes, 0)| :: !IsUserItem(Weave(rows, boxes, 0)[q])
  {
    var items, p := Weave(rows, boxes, 0), Pos(boxes, 0, user);
    WeaveSplit(rows, boxes, 0, user);
    WeaveUsers(rows, boxes, user + 1);
    var tail := Single(boxes[user]) + Weave(rows, boxes, user + 1);
    assert items[p..] == [Entry(rows[user])] + tail;
    forall q | p < q < |items| ensures !IsUserItem(items[q]) {
      assert items[q] == items[p..][q - p] == tail[q - p - 1];
    }
  }

  // ---------------------------------------------------------------------------------------------
  // Turns.

  /** The windows of the user rows from `lo` on, one after the other. */
  function WindowsFrom(rows: seq<Row>, activity: seq<Event>, lo: nat): seq<Event>
    requires lo <= |rows|
    decreases |rows| - lo
  {
    var i := NextUser(rows, lo);
    if i == |rows| then [] else Window(rows, activity, i) + WindowsFrom(rows, activity, i + 1)
  }

  lemma {:induction false} SplitWindow(activity: seq<Event>, from: int, until: int)
    requires Sorted(activity, EventBefore) && from <= until
    ensures Within(activity, from, None) == Within(activity, from, Some(until)) + Within(activity, until, None)
    ensures activity != [] && activity[|activity|-1].createdAt < until ==> Within(activity, until, None) == []
  {
    if activity != [] {
      SplitWindow(activity[..|activity|-1], from, until);
    }
  }

  lemma {:induction false} WindowsFromFirst(rows: seq<Row>, activity: seq<Event>, lo: nat)
    requires lo <= |rows| && Sorted(rows, RowBefore) && Sorted(activity, EventBefore)
    ensures var i := NextUser(rows, lo);
            WindowsFrom(rows, activity, lo) == if i == |rows| then [] else Within(activity, rows[i].createdAt, None)
    decreases |rows| - lo
  {
    var i := NextUser(rows, lo);
    if i < |rows| {
      WindowsFromFirst(rows, activity, i + 1);
      var j := NextUser(rows, i + 1);
      if j < |rows| {
        assert RowBefore(rows[i], rows[j]);
        SplitWindow(activity, rows[i].createdAt, rows[j].createdAt);
      }
    }
  }

  /**
   * The windows, put end to end, are exactly the thinking and tool events from the first user message on, in order:
   * each such event is in one window, ties or not, and earlier events are in none.
   */
  lemma WindowsPartitionActivity(messages: seq<Message>, events: seq<Event>)
    ensures var rows, activity := Rows(messages, events), Activity(events);
            var first := NextUser(rows, 0);
            WindowsFrom(rows, activity, 0)
              == if first == |rows| then [] else Within(activity, rows[first].createdAt, None)
  {
    RowOrder();
    EventOrder();
    SortIsStableSort(ShownMessages(messages) + OtherEvents(events), RowBefore);
    SortIsStableSort(ActivityEvents(events), EventBefore);
    WindowsFromFirst(Rows(messages, events), Activity(events), 0);
  }
}

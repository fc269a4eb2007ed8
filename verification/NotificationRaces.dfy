/**
 * Dispatches of one check that overlap: looking for recent logs and creating the log are steps of their own
 * (services/checks/actions.py).
 */
module NotificationRaces {
  import opened Basics
  import opened Notifications

  /** A look that has been taken; `sight` is how many logs there were, `clear` that a log may still come of it. */
  datatype Look = Look(check: string, action: Action, time: int, sight: nat, clear: bool)

  datatype Event =
    | LookAt(check: string, action: Action, due: bool, time: int)
    | Make(look: nat, time: int)
    | Mark(log: nat, status: DeliveryStatus)

  /** `sights[k]` is how many logs the dispatcher of the k-th log had seen. */
  datatype Race = Race(history: History, looks: seq<Look>, sights: seq<nat>)

  const START := Race(History([], [], []), [], [])

  function Step(r: Race, ev: Event): Race {
    match ev
    case LookAt(check, a, due, time) =>
      r.(looks := r.looks + [Look(check, a, time, |r.history.logs|,
                                  due && !IsSuppressed(r.history.logs, check, a, time))])
    case Make(k, time) =>
      if k < |r.looks| && r.looks[k].clear then
        var look := r.looks[k];
        Race(Added(r.history, look, time), r.looks[k := look.(clear := false)], r.sights + [look.sight])
      else r
    case Mark(k, status) => r.(history := Apply(r.history, SetStatus(k, status)))
  }

  function Added(h: History, look: Look, time: int): History {
    History(h.logs + [NewLog(look.check, look.action, time)], h.made + [look.action], h.everFailed + [false])
  }

  function Run(events: seq<Event>): Race {
    if events == [] then START else Step(Run(events[..|events|-1]), events[|events|-1])
  }

  /** No log is made before its look. */
  ghost predicate MakesAfterLook(events: seq<Event>) {
    forall i | 0 <= i < |events| :: MadeInTime(Run(events[..i]), events[i])
  }

  predicate MadeInTime(r: Race, ev: Event) {
    ev.Make? && ev.look < |r.looks| ==> r.looks[ev.look].time <= ev.time
  }

  ghost predicate WellFormed(h: History) {
    && |h.made| == |h.everFailed| == |h.logs|
    && forall k | 0 <= k < |h.logs| :: !h.everFailed[k] ==> h.logs[k].status != DeliveryFailed
  }

  /** What a clear look still knows: every log it saw of its key that never failed is older than the cooldown. */
  ghost predicate Knows(h: History, look: Look)
    requires WellFormed(h)
  {
    look.sight <= |h.logs| &&
    (look.clear ==>
       forall i | 0 <= i < look.sight && !h.everFailed[i] &&
                  SameKey(h.logs[i], NewLog(look.check, look.action, look.time)) ::
         h.logs[i].createdAt + CooldownOf(look.action) < look.time)
  }

  /** A log is more than its cooldown after every log of its key that its dispatcher saw and that never failed. */
  ghost predicate SpacedAsSeen(h: History, sights: seq<nat>)
    requires WellFormed(h)
  {
    && |sights| == |h.logs| && (forall j | 0 <= j < |sights| :: sights[j] <= j)
    && forall i, j | 0 <= i < j < |h.logs| && i < sights[j] && SameKey(h.logs[i], h.logs[j]) && !h.everFailed[i] ::
         h.logs[j].createdAt > h.logs[i].createdAt + CooldownOf(h.made[j])
  }

  ghost predicate Holds(r: Race) {
    && WellFormed(r.history) && SpacedAsSeen(r.history, r.sights)
    && forall k | 0 <= k < |r.looks| :: Knows(r.history, r.looks[k])
  }

  lemma LookKnows(h: History, check: string, a: Action, due: bool, time: int)
    requires WellFormed(h)
    ensures Knows(h, Look(check, a, time, |h.logs|, due && !IsSuppressed(h.logs, check, a, time)))
  {
    if due && !IsSuppressed(h.logs, check, a, time) {
      forall i | 0 <= i < |h.logs| && SameKey(h.logs[i], NewLog(check, a, time)) && !h.everFailed[i]
        ensures h.logs[i].createdAt + CooldownOf(a) < time
      {
        assert h.logs[i] in h.logs;
      }
    }
  }

  lemma AddedHolds(h: History, sights: seq<nat>, look: Look, time: int)
    requires WellFormed(h) && SpacedAsSeen(h, sights) && Knows(h, look) && look.clear && look.time <= time
    ensures WellFormed(Added(h, look, time)) && SpacedAsSeen(Added(h, look, time), sights + [look.sight])
  {
  }

  lemma MarkHolds(h: History, sights: seq<nat>, k: nat, status: DeliveryStatus)
    requires WellFormed(h) && SpacedAsSeen(h, sights)
    ensures var h' := Apply(h, SetStatus(k, status)); WellFormed(h') && SpacedAsSeen(h', sights)
  {
  }

  lemma StepHolds(r: Race, ev: Event)
    requires Holds(r) && MadeInTime(r, ev)
    ensures Holds(Step(r, ev))
  {
    match ev {
      case LookAt(check, a, due, time) => LookKnows(r.history, check, a, due, time);
      case Make(k, time) =>
        if k < |r.looks| && r.looks[k].clear {
          AddedHolds(r.history, r.sights, r.looks[k], time);
          forall n | 0 <= n < |r.looks| ensures Knows(Added(r.history, r.looks[k], time), r.looks[n]) {
            assert Knows(r.history, r.looks[n]);
          }
        }
      case Mark(k, status) =>
        MarkHolds(r.history, r.sights, k, status);
        forall n | 0 <= n < |r.looks| ensures Knows(Apply(r.history, SetStatus(k, status)), r.looks[n]) {
          assert Knows(r.history, r.looks[n]);
        }
    }
  }

  /** In every interleaving the cooldown holds between a log and the logs its dispatcher saw. */
  lemma {:induction false} SpacedAsSeenInEveryRun(events: seq<Event>)
    requires MakesAfterLook(events)
    ensures Holds(Run(events))
  {
    if events != [] {
      var n := |events| - 1;
      forall i | 0 <= i < n ensures MadeInTime(Run(events[..n][..i]), events[..n][i]) {
        assert events[..n][..i] == events[..i] && MadeInTime(Run(events[..i]), events[i]);
      }
      SpacedAsSeenInEveryRun(events[..n]);
      assert MadeInTime(Run(events[..n]), events[n]);
      StepHolds(Run(events[..n]), events[n]);
    }
  }

  /** And only between those: two looks before either log is made let both notifications out at one instant. */
  lemma OverlapNotifiesTwice(check: string, a: Action, time: int)
    ensures var h := Run([LookAt(check, a, true, time), LookAt(check, a, true, time), Make(0, time),
                          Make(1, time)]).history;
            h.logs == [NewLog(check, a, time), NewLog(check, a, time)] && h.everFailed == [false, false]
  {
    var look := LookAt(check, a, true, time);
    RunSnoc([], look, [look]);
    RunSnoc([look], look, [look, look]);
    RunSnoc([look, look], Make(0, time), [look, look, Make(0, time)]);
    RunSnoc([look, look, Make(0, time)], Make(1, time), [look, look, Make(0, time), Make(1, time)]);
  }

  lemma RunSnoc(before: seq<Event>, ev: Event, events: seq<Event>)
    requires events == before + [ev]
    ensures Run(events) == Step(Run(before), ev)
  {
    assert events[..|events|-1] == before;
  }

  // ---------------------------------------------------------------------------------------------
  // When the cooldown holds between all logs, read off the schedule.

  /** The positions of the looks among the events. */
  function LookTimes(events: seq<Event>): seq<nat> {
    if events == [] then []
    else
      var n, rest := |events| - 1, LookTimes(events[..|events|-1]);
      if events[n].LookAt? then rest + [n] else rest
  }

  /** A Make that takes effect, and the look it comes from, by their positions among the events. */
  datatype Made = Made(at: nat, look: nat)

  predicate MakesLog(r: Race, ev: Event) {
    ev.Make? && ev.look < |r.looks| && r.looks[ev.look].clear
  }

  /** The k-th of these makes the k-th log. */
  ghost function Makes(events: seq<Event>): seq<Made> {
    if events == [] then []
    else
      var n, rest := |events| - 1, Makes(events[..|events|-1]);
      LooksCounted(events[..n]);
      if MakesLog(Run(events[..n]), events[n]) then rest + [Made(n, LookTimes(events[..n])[events[n].look])] else rest
  }

  lemma {:induction false} LooksCounted(events: seq<Event>)
    ensures |Run(events).looks| == |LookTimes(events)|
  {
    if events != [] {
      LooksCounted(events[..|events|-1]);
    }
  }

  /** After `t` the n-th log is marked as failed. */
  predicate FailedAfter(events: seq<Event>, t: nat, n: nat) {
    |events| > t + 1 && (FailedAfter(events[..|events|-1], t, n) || events[|events|-1] == Mark(n, DeliveryFailed))
  }

  predicate SameKeyLooks(a: Event, b: Event) {
    && a.LookAt? && b.LookAt? && a.check == b.check && TypeOf(a.action) == TypeOf(b.action)
    && DedupKey(a.check, TypeOf(a.action), ConditionOf(a.action))
         == DedupKey(b.check, TypeOf(b.action), ConditionOf(b.action))
  }

  /** The i-th log is made between the look and the making of the j-th, which has the same key. */
  ghost predicate Between(events: seq<Event>, i: nat, j: nat) {
    var makes := Makes(events);
    && i < j < |makes| && makes[j].look < makes[i].at
    && makes[i].look < |events| && makes[j].look < |events| &&
       SameKeyLooks(events[makes[i].look], events[makes[j].look])
  }

  /** It never fails, and the j-th is made within its own cooldown. */
  ghost predicate TooSoon(events: seq<Event>, i: nat, j: nat) {
    var makes := Makes(events);
    && Between(events, i, j) && !FailedAfter(events, makes[i].at, i)
    && makes[i].at < |events| && makes[j].at < |events| && events[makes[i].at].Make? && events[makes[j].at].Make?
    && events[makes[j].look].LookAt?
    && events[makes[j].at].time <= events[makes[i].at].time + CooldownOf(events[makes[j].look].action)
  }

  // The record that the state keeps of the events.

  lemma {:induction false} MakesInside(events: seq<Event>)
    ensures forall i | 0 <= i < |Makes(events)| :: Makes(events)[i].at < |events|
  {
    if events != [] {
      MakesSnoc(events);
      MakesInside(events[..|events|-1]);
    }
  }

  lemma {:induction false} MakesPrefix(events: seq<Event>, l: nat)
    requires l <= |events|
    ensures Makes(events[..l]) <= Makes(events)
    ensures forall i | 0 <= i < |Makes(events)| ::
              Makes(events)[i].at < |events| && (i < |Makes(events[..l])| <==> Makes(events)[i].at < l)
  {
    MakesInside(events);
    if l == |events| {
      assert events[..l] == events;
    } else {
      MakesSnoc(events);
      MakesPrefix(events[..|events|-1], l);
      assert events[..|events|-1][..l] == events[..l];
    }
  }

  lemma MakesSnoc(events: seq<Event>)
    requires events != []
    ensures var n, rest := |events| - 1, Makes(events[..|events|-1]);
            Makes(events) == rest ||
            (|Makes(events)| == |rest| + 1 && rest <= Makes(events) && Makes(events)[|rest|].at == n)
  {
  }

  ghost predicate LookIs(events: seq<Event>, r: Race, k: nat)
    requires k < |r.looks|
  {
    var times := LookTimes(events);
    && k < |times| && times[k] < |events|
    && LookRecorded(events[times[k]], r.looks[k], |Makes(events[..times[k]])|)
  }

  predicate LookRecorded(ev: Event, look: Look, sight: nat) {
    ev.LookAt? && look.check == ev.check && look.action == ev.action && look.time == ev.time && look.sight == sight
  }

  predicate LogRecorded(look: Event, make: Event, log: Log, action: Action) {
    && look.LookAt? && make.Make? && action == look.action
    && log.(status := Pending) == NewLog(look.check, look.action, make.time)
  }

  ghost predicate LogIs(events: seq<Event>, r: Race, n: nat)
    requires n < |r.history.logs| == |r.history.made| == |r.history.everFailed| == |r.sights|
  {
    var makes := Makes(events);
    && n < |makes| && makes[n].look < makes[n].at < |events|
    && LogRecorded(events[makes[n].look], events[makes[n].at], r.history.logs[n], r.history.made[n])
    && r.sights[n] == |Makes(events[..makes[n].look])|
    && (r.history.everFailed[n] <==> FailedAfter(events, makes[n].at, n))
  }

  ghost predicate Recorded(events: seq<Event>, r: Race) {
    && |Makes(events)| == |r.history.logs| == |r.history.made| == |r.history.everFailed| == |r.sights|
    && |LookTimes(events)| == |r.looks|
    && (forall k | 0 <= k < |r.looks| :: LookIs(events, r, k))
    && (forall n | 0 <= n < |r.history.logs| :: LogIs(events, r, n))
  }

  lemma {:induction false} RecordedInEveryRun(events: seq<Event>)
    ensures Recorded(events, Run(events))
  {
    if events != [] {
      var n := |events| - 1;
      RecordedInEveryRun(events[..n]);
      var r := Run(events[..n]);
      forall k | 0 <= k < |Run(events).looks| ensures LookIs(events, Run(events), k) {
        LookStep(events, r, k);
      }
      forall k | 0 <= k < |Run(events).history.logs| ensures LogIs(events, Run(events), k) {
        if k < |r.history.logs| {
          LogStep(events, r, k);
        } else {
          NewLogStep(events, r);
        }
      }
    }
  }

  lemma LookStep(events: seq<Event>, r: Race, k: nat)
    requires events != [] && r == Run(events[..|events|-1]) && Recorded(events[..|events|-1], r)
    requires k < |Step(r, events[|events|-1]).looks|
    ensures LookIs(events, Step(r, events[|events|-1]), k)
  {
    var n := |events| - 1;
    if k < |r.looks| {
      assert LookIs(events[..n], r, k);
      var time := LookTimes(events[..n])[k];
      assert events[..n][..time] == events[..time];
    }
  }

  lemma LogStep(events: seq<Event>, r: Race, k: nat)
    requires events != [] && r == Run(events[..|events|-1]) && Recorded(events[..|events|-1], r) && k < |r.history.logs|
    ensures k < |Step(r, events[|events|-1]).history.logs|
    ensures Sized(Step(r, events[|events|-1])) && LogIs(events, Step(r, events[|events|-1]), k)
  {
    var n := |events| - 1;
    assert LogIs(events[..n], r, k);
    var made := Makes(events[..n])[k];
    assert Makes(events)[k] == made;
    assert events[..n][..made.look] == events[..made.look];
  }

  predicate Sized(r: Race) {
    |r.history.logs| == |r.history.made| == |r.history.everFailed| == |r.sights|
  }

  lemma NewLogStep(events: seq<Event>, r: Race)
    requires events != [] && r == Run(events[..|events|-1]) && Recorded(events[..|events|-1], r)
    requires MakesLog(r, events[|events|-1])
    ensures Sized(Step(r, events[|events|-1]))
    ensures |Step(r, events[|events|-1]).history.logs| == |r.history.logs| + 1
    ensures LogIs(events, Step(r, events[|events|-1]), |r.history.logs|)
  {
    var n := |events| - 1;
    assert LookIs(events[..n], r, events[n].look);
    var time := LookTimes(events[..n])[events[n].look];
    assert events[..n][..time] == events[..time];
  }

  /** Two logs of one key, the first of which never fails, break the cooldown. */
  ghost predicate TooClose(h: History, i: nat, j: nat) {
    && i < j < |h.logs| == |h.made| == |h.everFailed|
    && SameKey(h.logs[i], h.logs[j]) && !h.everFailed[i]
    && h.logs[j].createdAt <= h.logs[i].createdAt + CooldownOf(h.made[j])
  }

  lemma NoneTooClose(h: History)
    requires WellFormed(h)
    ensures Spaced(h) <==> forall i, j :: !TooClose(h, i, j)
  {
    if forall i, j :: !TooClose(h, i, j) {
      forall i, j | 0 <= i < j < |h.logs| && SameKey(h.logs[i], h.logs[j]) && !h.everFailed[i]
        ensures h.logs[j].createdAt > h.logs[i].createdAt + CooldownOf(h.made[j])
      {
        assert !TooClose(h, i, j);
      }
    }
  }

  /** For two logs of one key, being unseen and too close is being too soon in the schedule. */
  lemma PairExactly(events: seq<Event>, i: nat, j: nat)
    requires MakesAfterLook(events) && i < j < |Run(events).history.logs|
    ensures Holds(Run(events))
    ensures TooClose(Run(events).history, i, j) <==> TooSoon(events, i, j)
  {
    RecordedInEveryRun(events);
    SpacedAsSeenInEveryRun(events);
    var r := Run(events);
    assert LogIs(events, r, i) && LogIs(events, r, j);
    MakesPrefix(events, Makes(events)[j].look);
    assert i < r.sights[j] <==> Makes(events)[i].at < Makes(events)[j].look;
    NotItsLook(events, i, j);
  }

  lemma NotItsLook(events: seq<Event>, i: nat, j: nat)
    requires i < |Run(events).history.logs| && j < |Run(events).history.logs| && Recorded(events, Run(events))
    ensures Makes(events)[i].at != Makes(events)[j].look
  {
    assert LogIs(events, Run(events), i) && LogIs(events, Run(events), j);
  }

  /**
   * Overlapping or not, all logs keep the cooldown exactly when no log that never fails is made between the look and
   * the making of a later one of its key, within the later one's cooldown.
   */
  lemma SpacedExactly(events: seq<Event>)
    requires MakesAfterLook(events)
    ensures Spaced(Run(events).history) <==> forall i, j :: !TooSoon(events, i, j)
  {
    RecordedInEveryRun(events);
    SpacedAsSeenInEveryRun(events);
    NoneTooClose(Run(events).history);
    forall i: nat, j: nat ensures TooSoon(events, i, j) <==> TooClose(Run(events).history, i, j) {
      if i < j < |Run(events).history.logs| {
        PairExactly(events, i, j);
      }
    }
  }

  /** In particular it holds when no other log of the key is made between a look and its own log. */
  lemma UndisturbedIsSpaced(events: seq<Event>)
    requires MakesAfterLook(events) && forall i, j :: !Between(events, i, j)
    ensures Spaced(Run(events).history)
  {
    SpacedExactly(events);
    forall i, j ensures !TooSoon(events, i, j) {
      assert !Between(events, i, j);
    }
  }
}

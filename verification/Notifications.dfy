/** Dispatching check notifications under a cooldown (services/checks/actions.py). */
module Notifications {
  import opened Basics

  datatype HealthState = Healthy | Degraded | Critical | Unknown

  datatype Severity = Info | Warning | Severe

  datatype ExecutionStatus = Completed | Failed | Cancelled | OtherStatus

  function HealthValue(h: HealthState): string {
    match h
    case Healthy => "healthy"
    case Degraded => "degraded"
    case Critical => "critical"
    case Unknown => "unknown"
  }

  /** An action's settings; None where the key is missing. A threshold that cannot be read is Some(None). */
  datatype Action = Action(
    actionType: Option<string>, condition: Option<string>, cooldownSeconds: Option<int>,
    fromState: Option<string>, toState: Option<string>, threshold: Option<Option<Severity>>, target: string)

  datatype DeliveryStatus = Pending | Sent | DeliveryFailed | Suppressed

  datatype Log = Log(check: string, actionType: string, dedupKey: string, createdAt: int, status: DeliveryStatus,
                     target: string)

  const DEFAULT_COOLDOWN_SECONDS := 300

  function TypeOf(a: Action): string {
    a.actionType.GetOr("webhook")
  }

  function ConditionOf(a: Action): string {
    a.condition.GetOr("on_completion")
  }

  function CooldownOf(a: Action): int {
    a.cooldownSeconds.GetOr(DEFAULT_COOLDOWN_SECONDS)
  }

  /** The text that is hashed; the hash is taken to be injective. */
  function DedupKey(check: string, actionType: string, condition: string): string {
    check + ":" + actionType + ":" + condition
  }

  predicate ShouldDispatch(a: Action, status: ExecutionStatus, findings: seq<Option<Severity>>,
                           previous: HealthState, current: HealthState)
  {
    var condition := ConditionOf(a);
    if condition == "on_completion" then status == Completed
    else if condition == "on_failure" then status == Failed || status == Cancelled
    else if condition == "on_recovery" then (previous == Critical || previous == Degraded) && current == Healthy
    else if condition == "on_health_transition" then
      (a.fromState == None || a.fromState == Some(HealthValue(previous)))
      && (a.toState == None || a.toState == Some(HealthValue(current))) && previous != current
    else if condition == "on_severity_threshold" then
      var threshold := a.threshold.GetOr(Some(Severe));
      exists f | f in findings :: f == threshold || (threshold == Some(Warning) && f == Some(Severe))
    else condition == "periodic_reminder"
  }

  predicate Recent(l: Log, check: string, actionType: string, key: string, since: int) {
    l.check == check && l.actionType == actionType && l.dedupKey == key && l.createdAt >= since &&
    l.status != DeliveryFailed
  }

  predicate IsSuppressed(logs: seq<Log>, check: string, a: Action, now: int) {
    exists l | l in logs :: Recent(l, check, TypeOf(a), DedupKey(check, TypeOf(a), ConditionOf(a)), now - CooldownOf(a))
  }

  function NewLog(check: string, a: Action, now: int): Log {
    Log(check, TypeOf(a), DedupKey(check, TypeOf(a), ConditionOf(a)), now, Pending, a.target)
  }

  // ---------------------------------------------------------------------------------------------
  // One dispatch.

  /** The two clock readings of one action: when it looks for recent logs and when its log is made. */
  datatype Reading = Reading(look: int, make: int)

  function DispatchOne(logs: seq<Log>, check: string, a: Action, due: bool, r: Reading): seq<Log> {
    if due && !IsSuppressed(logs, check, a, r.look) then logs + [NewLog(check, a, r.make)] else logs
  }

  class ActionDispatcher {
    var logs: seq<Log>

    constructor ()
      ensures logs == []
    {
      logs := [];
    }

    method Dispatch(check: string, actions: seq<Action>, status: ExecutionStatus, findings: seq<Option<Severity>>,
                    previous: HealthState, current: HealthState, readings: seq<Reading>)
      returns (dispatched: seq<Log>)
      requires |readings| == |actions|
      modifies this
      ensures logs == DispatchAll(old(logs), check, Due(actions, status, findings, previous, current), readings)
      ensures logs == old(logs) + dispatched
    {
      dispatched := [];
      ghost var due := Due(actions, status, findings, previous, current);
      for n := 0 to |actions|
        invariant logs == DispatchAll(old(logs), check, due[..n], readings[..n])
        invariant logs == old(logs) + dispatched
      {
        assert due[..n+1][..n] == due[..n] && readings[..n+1][..n] == readings[..n];
        var a := actions[n];
        if !ShouldDispatch(a, status, findings, previous, current) {
          continue;
        }
        if IsSuppressed(logs, check, a, readings[n].look) {
          continue;
        }
        var log := NewLog(check, a, readings[n].make);
        logs := logs + [log];
        dispatched := dispatched + [log];
      }
      assert due[..|actions|] == due && readings[..|actions|] == readings;
    }
  }

  /** Each action with its condition decided. */
  function Due(actions: seq<Action>, status: ExecutionStatus, findings: seq<Option<Severity>>,
               previous: HealthState, current: HealthState): (due: seq<(Action, bool)>)
    ensures |due| == |actions|
    ensures forall i | 0 <= i < |actions| ::
              due[i] == (actions[i], ShouldDispatch(actions[i], status, findings, previous, current))
  {
    seq(|actions|,
        i requires 0 <= i < |actions| => (actions[i], ShouldDispatch(actions[i], status, findings, previous, current)))
  }

  function DispatchAll(logs: seq<Log>, check: string, due: seq<(Action, bool)>, readings: seq<Reading>): seq<Log>
    requires |readings| == |due|
  {
    if due == [] then logs
    else
      var n := |due| - 1;
      DispatchOne(DispatchAll(logs, check, due[..n], readings[..n]), check, due[n].0, due[n].1, readings[n])
  }

  // ---------------------------------------------------------------------------------------------
  // Runs: single actions of any dispatches, and changes of a log's delivery status.

  datatype Event =
    | Try(check: string, action: Action, due: bool, reading: Reading)
    | SetStatus(log: nat, status: DeliveryStatus)

  /** The logs, and for each the action that made it and whether it was ever marked as failed. */
  datatype History = History(logs: seq<Log>, made: seq<Action>, everFailed: seq<bool>)

  function Apply(h: History, ev: Event): History {
    match ev
    case Try(check, a, due, r) =>
      if due && !IsSuppressed(h.logs, check, a, r.look) then
        History(h.logs + [NewLog(check, a, r.make)], h.made + [a], h.everFailed + [false])
      else h
    case SetStatus(k, status) =>
      if k < |h.logs| && k < |h.everFailed| then
        h.(logs := h.logs[k := h.logs[k].(status := status)],
           everFailed := h.everFailed[k := h.everFailed[k] || status == DeliveryFailed])
      else h
  }

  function Run(events: seq<Event>): History {
    if events == [] then History([], [], []) else Apply(Run(events[..|events|-1]), events[|events|-1])
  }

  /** A log is made no earlier than the look before it. */
  ghost predicate LooksFirst(events: seq<Event>) {
    forall i | 0 <= i < |events| && events[i].Try? :: events[i].reading.look <= events[i].reading.make
  }

  predicate SameKey(a: Log, b: Log) {
    a.check == b.check && a.actionType == b.actionType && a.dedupKey == b.dedupKey
  }

  /** A later log of the same key is more than its own cooldown after every earlier one that never failed. */
  ghost predicate Spaced(h: History) {
    && |h.made| == |h.everFailed| == |h.logs|
    && (forall k | 0 <= k < |h.logs| :: !h.everFailed[k] ==> h.logs[k].status != DeliveryFailed)
    && (forall i, j | 0 <= i < j < |h.logs| && SameKey(h.logs[i], h.logs[j]) && !h.everFailed[i] ::
          h.logs[j].createdAt > h.logs[i].createdAt + CooldownOf(h.made[j]))
  }

  lemma ApplyKeepsSpaced(h: History, ev: Event)
    requires Spaced(h) && (ev.Try? ==> ev.reading.look <= ev.reading.make)
    ensures Spaced(Apply(h, ev))
  {
    if ev.Try? && ev.due && !IsSuppressed(h.logs, ev.check, ev.action, ev.reading.look) {
      var log := NewLog(ev.check, ev.action, ev.reading.make);
      forall i | 0 <= i < |h.logs| && SameKey(h.logs[i], log) && !h.everFailed[i]
        ensures log.createdAt > h.logs[i].createdAt + CooldownOf(ev.action)
      {
        assert h.logs[i] in h.logs;
      }
    }
  }

  /** Over every run, logs of one key that never fail are more than the cooldown apart. */
  lemma {:induction false} SpacedInEveryRun(events: seq<Event>)
    requires LooksFirst(events)
    ensures Spaced(Run(events))
  {
    if events != [] {
      SpacedInEveryRun(events[..|events|-1]);
      ApplyKeepsSpaced(Run(events[..|events|-1]), events[|events|-1]);
    }
  }

  /** For one check and one type the key tells the conditions apart. */
  lemma KeyTellsCondition(check: string, actionType: string, a: string, b: string)
    ensures DedupKey(check, actionType, a) == DedupKey(check, actionType, b) <==> a == b
  {
    var prefix := check + ":" + actionType + ":";
    assert DedupKey(check, actionType, a)[|prefix|..] == a;
    assert DedupKey(check, actionType, b)[|prefix|..] == b;
  }

  /** A dispatch of the code is a run of single tries. */
  function Tries(check: string, due: seq<(Action, bool)>, readings: seq<Reading>): seq<Event>
    requires |readings| == |due|
  {
    if due == [] then []
    else
      var n := |due| - 1;
      Tries(check, due[..n], readings[..n]) + [Try(check, due[n].0, due[n].1, readings[n])]
  }

  lemma {:induction false} DispatchIsRun(events: seq<Event>, check: string, due: seq<(Action, bool)>,
                                         readings: seq<Reading>)
    requires |readings| == |due|
    ensures Run(events + Tries(check, due, readings)).logs == DispatchAll(Run(events).logs, check, due, readings)
  {
    if due == [] {
      assert events + [] == events;
    } else {
      var n := |due| - 1;
      var before := events + Tries(check, due[..n], readings[..n]);
      DispatchIsRun(events, check, due[..n], readings[..n]);
      var all := events + Tries(check, due, readings);
      assert all == before + [Try(check, due[n].0, due[n].1, readings[n])];
      assert all[..|all|-1] == before;
    }
  }

  // ---------------------------------------------------------------------------------------------
  // How many notifications a window of time can hold.

  /** A log of the key that never failed, made between `from` and `until`. */
  predicate InWindow(h: History, k: nat, like: Log, from: int, until: int)
    requires |h.everFailed| == |h.logs| && k < |h.logs|
  {
    SameKey(h.logs[k], like) && !h.everFailed[k] && from <= h.logs[k].createdAt <= until
  }

  function CountInWindow(h: History, n: nat, like: Log, from: int, until: int): nat
    requires |h.everFailed| == |h.logs| && n <= |h.logs|
  {
    if n == 0 then 0
    else CountInWindow(h, n - 1, like, from, until) + if InWindow(h, n - 1, like, from, until) then 1 else 0
  }

  ghost predicate CooldownAtLeast(h: History, like: Log, c: nat) {
    |h.made| == |h.logs| && forall k | 0 <= k < |h.logs| && SameKey(h.logs[k], like) :: CooldownOf(h.made[k]) >= c
  }

  /** The last log counted lies a cooldown later for each log counted before it. */
  lemma {:induction false} CountSpreads(h: History, n: nat, like: Log, from: int, until: int, c: nat)
    returns (last: nat)
    requires Spaced(h) && CooldownAtLeast(h, like, c) && n <= |h.logs|
    requires CountInWindow(h, n, like, from, until) > 0
    ensures last < n && InWindow(h, last, like, from, until)
    ensures h.logs[last].createdAt >= from + (CountInWindow(h, n, like, from, until) - 1) * c
  {
    if InWindow(h, n - 1, like, from, until) {
      last := n - 1;
      var before := CountInWindow(h, n - 1, like, from, until);
      if before > 0 {
        var previous := CountSpreads(h, n - 1, like, from, until, c);
        assert SameKey(h.logs[previous], h.logs[last]);
        OneMore(from, before, c);
      }
    } else {
      last := CountSpreads(h, n - 1, like, from, until, c);
    }
  }

  lemma OneMore(from: int, n: nat, c: nat)
    ensures from + (n - 1) * c + c == from + n * c
  {
  }

  /** A window of length `w` holds at most floor(w / c) + 1 logs of a key that never fail. */
  lemma WindowBound(events: seq<Event>, like: Log, from: int, w: nat, c: nat)
    requires LooksFirst(events) && c > 0 && CooldownAtLeast(Run(events), like, c)
    ensures |Run(events).everFailed| == |Run(events).logs|
    ensures CountInWindow(Run(events), |Run(events).logs|, like, from, from + w) <= w / c + 1
  {
    SpacedInEveryRun(events);
    var h := Run(events);
    var count := CountInWindow(h, |h.logs|, like, from, from + w);
    if count > 0 {
      var last := CountSpreads(h, |h.logs|, like, from, from + w, c);
      QuotientBound(count - 1, c, w);
    }
  }

  lemma QuotientBound(n: nat, c: nat, w: nat)
    requires c > 0 && n * c <= w
    ensures n <= w / c
  {
    BelowNextMultiple(w, c);
    if w / c + 1 <= n {
      Monotone(w / c + 1, n, c);
      assert false;
    }
  }

  lemma BelowNextMultiple(w: nat, c: nat)
    requires c > 0
    ensures w < (w / c + 1) * c
  {
    var q, r := w / c, w % c;
    assert w == q * c + r;
    assert (q + 1) * c == q * c + c;
  }

  lemma {:induction false} Monotone(a: nat, b: nat, c: nat)
    requires a <= b
    ensures a * c <= b * c
    decreases b - a
  {
    if a < b {
      Monotone(a + 1, b, c);
      assert (a + 1) * c == a * c + c;
    }
  }

  // ---------------------------------------------------------------------------------------------
  // One reading for a whole dispatch.

  /** With one clock reading and no negative cooldown, a dispatch makes at most one log of each key. */
  lemma {:induction false} OneLogPerKey(logs: seq<Log>, check: string, due: seq<(Action, bool)>,
                                        readings: seq<Reading>, now: int)
    requires |readings| == |due|
    requires forall i | 0 <= i < |due| :: readings[i] == Reading(now, now) && CooldownOf(due[i].0) >= 0
    ensures var after := DispatchAll(logs, check, due, readings);
            && logs <= after
            && (forall i | |logs| <= i < |after| :: after[i].createdAt == now && after[i].status == Pending)
            && (forall i, j | |logs| <= i < j < |after| :: !SameKey(after[i], after[j]))
  {
    if due != [] {
      var n := |due| - 1;
      OneLogPerKey(logs, check, due[..n], readings[..n], now);
      var before, a := DispatchAll(logs, check, due[..n], readings[..n]), due[n].0;
      if due[n].1 && !IsSuppressed(before, check, a, now) {
        forall i | |logs| <= i < |before| ensures !SameKey(before[i], NewLog(check, a, now)) {
          assert before[i] in before;
          assert !Recent(before[i], check, TypeOf(a), DedupKey(check, TypeOf(a), ConditionOf(a)), now - CooldownOf(a));
        }
      }
    }
  }
}

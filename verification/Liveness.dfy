/**
 * The staleness sweep (services/grpc_server/main.py) and the status writes it races with
 * (services/grpc_server/servicer.py).
 */
module Liveness {
  import opened Basics

  /** Times are seconds; an agent that was never seen has no time. */
  datatype Agent = Agent(status: Status, lastSeen: Option<int>)

  const STALE_THRESHOLD_SECONDS := 60

  predicate Stale(a: Agent, now: int) {
    a.status == Online && a.lastSeen.Some? && a.lastSeen.value < now - STALE_THRESHOLD_SECONDS
  }

  function Swept(agents: map<string, Agent>, now: int): map<string, Agent> {
    map id | id in agents :: if Stale(agents[id], now) then agents[id].(status := Offline) else agents[id]
  }

  function AllOffline(agents: map<string, Agent>): map<string, Agent> {
    map id | id in agents :: if agents[id].status == Online then agents[id].(status := Offline) else agents[id]
  }

  function Written(agents: map<string, Agent>, id: string, status: Status, now: int): map<string, Agent> {
    if id in agents then agents[id := Agent(status, Some(now))] else agents
  }

  // ---------------------------------------------------------------------------------------------
  // Timed runs.

  datatype Event = Sweep(time: int) | Touch(time: int, id: string, status: Status)

  function Step(agents: map<string, Agent>, ev: Event): map<string, Agent> {
    match ev
    case Sweep(t) => Swept(agents, t)
    case Touch(t, id, status) => Written(agents, id, status, t)
  }

  /** The service starts by putting every agent offline. */
  function Run(agents: map<string, Agent>, events: seq<Event>): map<string, Agent> {
    if events == [] then AllOffline(agents) else Step(Run(agents, events[..|events|-1]), events[|events|-1])
  }

  ghost predicate Ordered(events: seq<Event>) {
    forall i, j | 0 <= i < j < |events| :: events[i].time <= events[j].time
  }

  predicate Touches(ev: Event, id: string) {
    ev.Touch? && ev.id == id
  }

  /** The last event that touches the agent. */
  function LastTouch(events: seq<Event>, id: string): (j: Option<nat>)
    ensures j.Some? ==> j.value < |events| && Touches(events[j.value], id)
    ensures forall i | (if j.Some? then j.value + 1 else 0) <= i < |events| :: !Touches(events[i], id)
  {
    if events == [] then None
    else if Touches(events[|events|-1], id) then Some(|events| - 1)
    else LastTouch(events[..|events|-1], id)
  }

  ghost predicate NoSweepBeyond(events: seq<Event>, from: nat, limit: int) {
    forall i | from <= i < |events| && events[i].Sweep? :: events[i].time <= limit
  }

  /**
   * An agent is online exactly when its last touch put it online and no later sweep came more than the threshold
   * after it; otherwise it is offline or has the other status it was given. It was last seen at its last touch.
   */
  lemma {:induction false} OnlineExactly(agents: map<string, Agent>, events: seq<Event>, id: string)
    requires id in agents
    ensures id in Run(agents, events)
    ensures var a, last := Run(agents, events)[id], LastTouch(events, id);
            && (last.None? ==>
                  a.lastSeen == agents[id].lastSeen
                  && a.status == if agents[id].status == Online then Offline else agents[id].status)
            && (last.Some? ==>
                  && a.lastSeen == Some(events[last.value].time)
                  && a.status == if events[last.value].status == Online
                                    && !NoSweepBeyond(events, last.value + 1, events[last.value].time + 60)
                                 then Offline else events[last.value].status)
  {
    if events != [] {
      var init, ev := events[..|events|-1], events[|events|-1];
      OnlineExactly(agents, init, id);
      var last := LastTouch(events, id);
      if last.Some? && !Touches(ev, id) {
        var limit := events[last.value].time + 60;
        NoSweepSnoc(events, last.value + 1, limit);
      }
    }
  }

  lemma NoSweepSnoc(events: seq<Event>, from: nat, limit: int)
    requires from < |events|
    ensures var init, ev := events[..|events|-1], events[|events|-1];
            NoSweepBeyond(events, from, limit) <==> NoSweepBeyond(init, from, limit) && (ev.Sweep? ==> ev.time <= limit)
  {
    assert forall i | 0 <= i < |events| - 1 :: events[..|events|-1][i] == events[i];
  }

  /** Sweeps come at most `period` seconds apart, from the start until `now`. */
  ghost predicate SweepsEvery(events: seq<Event>, period: nat, now: int) {
    forall x: int | 0 <= x && x + period <= now :: SweepWithin(events, x, period)
  }

  ghost predicate SweepWithin(events: seq<Event>, after: int, period: nat) {
    exists i :: 0 <= i < |events| && events[i].Sweep? && after < events[i].time <= after + period
  }

  /** An agent last seen at L is not online any more once threshold and period have passed since L. */
  lemma SilentAgentGoesOffline(agents: map<string, Agent>, events: seq<Event>, id: string, period: nat, now: int)
    requires id in agents && Ordered(events) && SweepsEvery(events, period, now)
    requires forall i | 0 <= i < |events| :: 0 <= events[i].time <= now
    requires LastTouch(events, id).Some?
    requires now >= events[LastTouch(events, id).value].time + 60 + period
    ensures id in Run(agents, events) && Run(agents, events)[id].status != Online
  {
    OnlineExactly(agents, events, id);
    var last := LastTouch(events, id).value;
    var limit := events[last].time + 60;
    assert SweepWithin(events, limit, period);
    var i :| 0 <= i < |events| && events[i].Sweep? && limit < events[i].time <= limit + period;
    assert last < i;
  }

  /** An agent whose last touch put it online, with a touch within the threshold before every sweep, is online. */
  lemma RefreshedAgentStaysOnline(agents: map<string, Agent>, events: seq<Event>, id: string)
    requires id in agents && Ordered(events)
    requires LastTouch(events, id).Some? && events[LastTouch(events, id).value].status == Online
    requires forall i | 0 <= i < |events| && events[i].Sweep? && TouchedBefore(events, id, i) ::
               RefreshedAt(events, id, i)
    ensures id in Run(agents, events) && Run(agents, events)[id].status == Online
  {
    OnlineExactly(agents, events, id);
    var last := LastTouch(events, id).value;
    forall i | last + 1 <= i < |events| && events[i].Sweep?
      ensures events[i].time <= events[last].time + 60
    {
      assert Touches(events[last], id) && TouchedBefore(events, id, i);
      LastIsRecent(events, id, i);
    }
  }

  lemma LastIsRecent(events: seq<Event>, id: string, i: nat)
    requires Ordered(events) && LastTouch(events, id).Some? && i < |events| && RefreshedAt(events, id, i)
    ensures events[i].time - 60 <= events[LastTouch(events, id).value].time
  {
    var last := LastTouch(events, id).value;
    var j :| 0 <= j < i && Touches(events[j], id) && events[i].time - 60 <= events[j].time;
    assert j <= last;
    assert events[j].time <= events[last].time;
  }

  ghost predicate RefreshedAt(events: seq<Event>, id: string, i: nat)
    requires i < |events|
  {
    exists j :: 0 <= j < i && Touches(events[j], id) && events[i].time - 60 <= events[j].time
  }

  ghost predicate TouchedBefore(events: seq<Event>, id: string, i: nat)
    requires i <= |events|
  {
    exists j :: 0 <= j < i && Touches(events[j], id)
  }

  // ---------------------------------------------------------------------------------------------
  // The code.

  class AgentTable {
    var agents: map<string, Agent>
    ghost var initial: map<string, Agent>
    ghost var events: seq<Event>

    /** The table is what the sweeps and touches since the start have made of it. */
    ghost predicate Valid()
      reads this
    {
      agents == Run(initial, events)
    }

    constructor (agents: map<string, Agent>)
      ensures this.agents == agents
    {
      this.agents, initial, events := agents, agents, [];
    }

    /** The service starts: nobody is online, and nothing but the status changes. */
    method MarkAllOnlineOffline()
      modifies this
      ensures Valid() && initial == old(agents) && events == []
      ensures agents.Keys == old(agents).Keys
      ensures forall id | id in agents ::
                agents[id] == if old(agents)[id].status == Online then Agent(Offline, old(agents)[id].lastSeen)
                              else old(agents)[id]
    {
      initial, events := agents, [];
      agents := map id | id in agents ::
        if agents[id].status == Online then agents[id].(status := Offline) else agents[id];
    }

    /** A sweep: no stale agent stays online, the others are left alone, and the count says how many rows changed. */
    method MarkStaleOffline(now: int) returns (count: nat)
      requires Valid()
      modifies this
      ensures Valid() && initial == old(initial) && events == old(events) + [Sweep(now)]
      ensures agents.Keys == old(agents).Keys
      ensures forall id | id in agents ::
                !Stale(agents[id], now) && agents[id].lastSeen == old(agents)[id].lastSeen
                && (agents[id] == old(agents)[id] || (Stale(old(agents)[id], now) && agents[id].status == Offline))
      ensures count == |set id | id in agents && agents[id] != old(agents)[id]|
    {
      var stale := set id | id in agents && Stale(agents[id], now);
      count := |stale|;
      agents := map id | id in agents :: if Stale(agents[id], now) then agents[id].(status := Offline) else agents[id];
      assert stale == set id | id in agents && agents[id] != old(agents)[id];
      RunSnoc(initial, events, Sweep(now));
      events := events + [Sweep(now)];
    }

    /** A heartbeat, a registration or the end of a stream: one known agent is seen, with a new status. */
    method UpdateStatus(id: string, status: Status, now: int)
      requires Valid()
      modifies this
      ensures Valid() && initial == old(initial) && events == old(events) + [Touch(now, id, status)]
      ensures agents.Keys == old(agents).Keys
      ensures id in agents ==> agents[id].status == status && agents[id].lastSeen == Some(now)
      ensures forall other | other in agents && other != id :: agents[other] == old(agents)[other]
    {
      if id in agents {
        agents := agents[id := Agent(status, Some(now))];
      }
      RunSnoc(initial, events, Touch(now, id, status));
      events := events + [Touch(now, id, status)];
    }
  }

  lemma RunSnoc(agents: map<string, Agent>, events: seq<Event>, ev: Event)
    ensures Run(agents, events + [ev]) == Step(Run(agents, events), ev)
  {
    assert (events + [ev])[..|events|] == events;
  }
}

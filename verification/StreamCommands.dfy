/** Commands and their replies on one agent stream (services/grpc_server/servicer.py, MarvinStream). */
module StreamCommands {
  import opened Basics

  datatype Command = Command(id: string, body: string)

  type Reply = string

  // ---------------------------------------------------------------------------------------------
  // The stream as a state machine.

  datatype Outcome = Returned(reply: Reply) | TimedOut(time: nat)

  /** One call of send_command: its future, when it was made, and how it ended. */
  datatype Call = Call(id: string, at: nat, future: Option<Reply>, outcome: Option<Outcome>)

  datatype State = State(queue: seq<Command>, futures: map<string, nat>, calls: seq<Call>,
                         taken: seq<Command>, time: nat)

  datatype Event =
    | Send(command: Command)           // send_command up to its wait
    | Push(command: Command)           // a command put on the queue that nobody waits for
    | Take                             // the handler takes the next command, if there is one
    | Response(id: string, reply: Reply)
    | Resume(call: nat)                // the wait of a resolved future ends
    | Timeout(call: nat)               // the wait of an unresolved future ends

  const START := State([], map[], [], [], 0)

  predicate Waits(s: State, k: nat) {
    k < |s.calls| && s.calls[k].outcome.None?
  }

  function Finish(s: State, k: nat, outcome: Outcome): State
    requires k < |s.calls|
  {
    s.(calls := s.calls[k := s.calls[k].(outcome := Some(outcome))], futures := s.futures - {s.calls[k].id})
  }

  function Effect(s: State, ev: Event): State {
    match ev
    case Send(c) =>
      s.(queue := s.queue + [c], futures := s.futures[c.id := |s.calls|],
         calls := s.calls + [Call(c.id, s.time, None, None)])
    case Push(c) => s.(queue := s.queue + [c])
    case Take => if s.queue == [] then s else s.(queue := s.queue[1..], taken := s.taken + [s.queue[0]])
    case Response(id, reply) =>
      if id in s.futures && s.futures[id] < |s.calls| && s.calls[s.futures[id]].future.None? then
        s.(calls := s.calls[s.futures[id] := s.calls[s.futures[id]].(future := Some(reply))])
      else s
    case Resume(k) =>
      if Waits(s, k) && s.calls[k].future.Some? then Finish(s, k, Returned(s.calls[k].future.value)) else s
    case Timeout(k) => if Waits(s, k) && s.calls[k].future.None? then Finish(s, k, TimedOut(s.time)) else s
  }

  function Step(s: State, ev: Event): State {
    Effect(s, ev).(time := s.time + 1)
  }

  function Run(events: seq<Event>): State {
    if events == [] then START else Step(Run(events[..|events|-1]), events[|events|-1])
  }

  // ---------------------------------------------------------------------------------------------
  // The code: futures are objects, looked up by command id.

  class Future {
    var reply: Option<Reply>

    constructor ()
      ensures reply.None?
    {
      reply := None;
    }
  }

  class MarvinStream {
    const agentId: string
    var connected: bool
    var commandQueue: seq<Command>
    var responseFutures: map<string, Future>
    ghost var created: seq<Future>

    /** The stream is in state `s`; the k-th future made is that of the k-th call. */
    ghost predicate Shows(s: State)
      reads this, created
    {
      && commandQueue == s.queue
      && |created| == |s.calls|
      && (forall i, j | 0 <= i < j < |created| :: created[i] != created[j])
      && (forall k | 0 <= k < |created| :: created[k].reply == s.calls[k].future)
      && responseFutures.Keys == s.futures.Keys
      && (forall id | id in responseFutures ::
            s.futures[id] < |created| && responseFutures[id] == created[s.futures[id]])
    }

    constructor (agentId: string)
      ensures this.agentId == agentId && !connected && Shows(START)
    {
      this.agentId, connected := agentId, false;
      commandQueue, responseFutures, created := [], map[], [];
    }

    method BeginSend(command: Command, ghost s: State) returns (future: Future)
      requires Shows(s)
      modifies this`commandQueue, this`responseFutures, this`created
      ensures Shows(Step(s, Send(command))) && created == old(created) + [future] && fresh(future)
    {
      future := new Future();
      responseFutures := responseFutures[command.id := future];
      commandQueue := commandQueue + [command];
      created := created + [future];
    }

    /** The wait ended, with the future's reply or with a time-out if it has none. */
    method EndSend(commandId: string, future: Future, ghost s: State, ghost k: nat) returns (result: Option<Reply>)
      requires Shows(s) && Waits(s, k) && future == created[k] && commandId == s.calls[k].id
      modifies this`responseFutures
      ensures result == s.calls[k].future && created == old(created)
      ensures Shows(Step(s, if result.Some? then Resume(k) else Timeout(k)))
    {
      result := future.reply;
      responseFutures := responseFutures - {commandId};
    }

    method NextCommand(ghost s: State) returns (command: Option<Command>)
      requires Shows(s)
      modifies this`commandQueue
      ensures Shows(Step(s, Take)) && created == old(created)
      ensures command == if s.queue == [] then None else Some(s.queue[0])
    {
      command := None;
      if commandQueue != [] {
        command := Some(commandQueue[0]);
        commandQueue := commandQueue[1..];
      }
    }

    method HandleResponse(commandId: string, reply: Reply, ghost s: State)
      requires Shows(s)
      modifies created
      ensures Shows(Step(s, Response(commandId, reply)))
    {
      if commandId in responseFutures {
        var future := responseFutures[commandId];
        if future.reply.None? {
          future.reply := Some(reply);
        }
      }
    }
  }

  // ---------------------------------------------------------------------------------------------
  // Delivery.

  function Enqueued(events: seq<Event>): seq<Command> {
    if events == [] then []
    else
      var rest, ev := Enqueued(events[..|events|-1]), events[|events|-1];
      if ev.Send? || ev.Push? then rest + [ev.command] else rest
  }

  /** Commands leave the stream in the order they were put in, each at most once, and none is lost. */
  lemma {:induction false} DeliveryInOrder(events: seq<Event>)
    ensures Run(events).taken + Run(events).queue == Enqueued(events)
  {
    if events != [] {
      DeliveryInOrder(events[..|events|-1]);
    }
  }

  // ---------------------------------------------------------------------------------------------
  // Replies. The reference: the first response with the id after the call.

  function FirstReply(events: seq<Event>, id: string, from: nat): Option<Reply> {
    if |events| <= from then None
    else
      var before, ev := FirstReply(events[..|events|-1], id, from), events[|events|-1];
      if before.Some? then before
      else if ev.Response? && ev.id == id then Some(ev.reply) else None
  }

  ghost predicate UniqueIds(events: seq<Event>) {
    forall i, j | 0 <= i < j < |events| && events[i].Send? && events[j].Send? ::
      events[i].command.id != events[j].command.id
  }

  /** What a call looks like after `events`, from the events alone. */
  ghost predicate CallIs(s: State, events: seq<Event>, k: nat)
    requires k < |s.calls|
  {
    var c := s.calls[k];
    && c.at < |events| && events[c.at].Send? && events[c.at].command.id == c.id
    && if c.outcome.None? then
         c.id in s.futures && s.futures[c.id] == k && c.future == FirstReply(events, c.id, c.at + 1)
       else c.id !in s.futures && EndedRightly(c, c.outcome.value, events)
  }

  /** A returned call has the first reply to it; a timed-out one had none until then. */
  ghost predicate EndedRightly(c: Call, outcome: Outcome, events: seq<Event>) {
    if outcome.Returned? then c.future == FirstReply(events, c.id, c.at + 1) == Some(outcome.reply)
    else c.at < outcome.time < |events| && c.future == FirstReply(events[..outcome.time], c.id, c.at + 1) == None
  }

  ghost predicate CallsAre(s: State, events: seq<Event>) {
    && s.time == |events|
    && (forall k | 0 <= k < |s.calls| :: CallIs(s, events, k))
    && (forall id | id in s.futures ::
          s.futures[id] < |s.calls| && s.calls[s.futures[id]].id == id && s.calls[s.futures[id]].outcome.None?)
  }

  lemma FirstReplySnoc(events: seq<Event>, ev: Event, id: string, from: nat)
    requires from <= |events|
    ensures FirstReply(events + [ev], id, from)
         == if FirstReply(events, id, from).Some? then FirstReply(events, id, from)
            else if ev.Response? && ev.id == id then Some(ev.reply) else None
  {
    assert (events + [ev])[..|events|] == events;
  }

  /** An ended call is left alone. */
  lemma EndedCallStep(s: State, events: seq<Event>, ev: Event, k: nat)
    requires CallsAre(s, events) && UniqueIds(events + [ev]) && k < |s.calls| && s.calls[k].outcome.Some?
    ensures CallIs(Step(s, ev), events + [ev], k)
  {
    var all, c := events + [ev], s.calls[k];
    assert CallIs(s, events, k);
    assert all[c.at] == events[c.at] && all[|events|] == ev;
    FirstReplySnoc(events, ev, c.id, c.at + 1);
    if c.outcome.value.TimedOut? {
      assert all[..c.outcome.value.time] == events[..c.outcome.value.time];
    }
  }

  lemma OpenCallStep(s: State, events: seq<Event>, ev: Event, k: nat)
    requires CallsAre(s, events) && UniqueIds(events + [ev]) && k < |s.calls| && s.calls[k].outcome.None?
    ensures CallIs(Step(s, ev), events + [ev], k)
  {
    var all, c := events + [ev], s.calls[k];
    assert CallIs(s, events, k);
    assert all[c.at] == events[c.at] && all[|events|] == ev && all[..|events|] == events;
    FirstReplySnoc(events, ev, c.id, c.at + 1);
    match ev {
      case Resume(j) => assert j < |s.calls| ==> CallIs(s, events, j);
      case Timeout(j) => assert j < |s.calls| ==> CallIs(s, events, j);
      case _ =>
    }
  }

  lemma {:induction false} RepliesInEveryRun(events: seq<Event>)
    requires UniqueIds(events)
    ensures CallsAre(Run(events), events)
  {
    if events != [] {
      var init, ev := events[..|events|-1], events[|events|-1];
      assert init + [ev] == events;
      RepliesInEveryRun(init);
      var s := Run(init);
      forall k | 0 <= k < |s.calls| ensures CallIs(Step(s, ev), events, k) {
        if s.calls[k].outcome.Some? { EndedCallStep(s, init, ev, k); } else { OpenCallStep(s, init, ev, k); }
      }
      NewCall(s, init, ev);
    }
  }

  lemma NewCall(s: State, events: seq<Event>, ev: Event)
    requires CallsAre(s, events)
    ensures var s' := Step(s, ev);
            && (ev.Send? ==> |s'.calls| == |s.calls| + 1 && CallIs(s', events + [ev], |s.calls|))
            && (!ev.Send? ==> |s'.calls| == |s.calls|)
    ensures var s' := Step(s, ev);
            forall id | id in s'.futures ::
              s'.futures[id] < |s'.calls| && s'.calls[s'.futures[id]].id == id && s'.calls[s'.futures[id]].outcome.None?
  {
    match ev {
      case Resume(k) => assert k < |s.calls| ==> CallIs(s, events, k);
      case Timeout(k) => assert k < |s.calls| ==> CallIs(s, events, k);
      case _ =>
    }
  }

  /**
   * A call that returned got the first response with its id after it was made; one that timed out got none until
   * then; and the id of an ended call is no longer looked up.
   */
  lemma EveryCallGetsItsFirstReply(events: seq<Event>, k: nat)
    requires UniqueIds(events) && k < |Run(events).calls| && Run(events).calls[k].outcome.Some?
    ensures var s := Run(events);
            s.calls[k].id !in s.futures && EndedRightly(s.calls[k], s.calls[k].outcome.value, events)
  {
    RepliesInEveryRun(events);
    assert CallIs(Run(events), events, k);
  }

  /** A future once resolved keeps its reply, and an ended call its outcome. */
  lemma {:induction false} ResolvedOnce(events: seq<Event>, n: nat, k: nat)
    requires n <= |events| && k < |Run(events[..n]).calls|
    ensures k < |Run(events).calls|
    ensures var before, after := Run(events[..n]).calls[k], Run(events).calls[k];
            && (before.future.Some? ==> after.future == before.future)
            && (before.outcome.Some? ==> after.outcome == before.outcome)
  {
    if n == |events| {
      assert events[..n] == events;
    } else {
      assert events[..|events|-1][..n] == events[..n];
      ResolvedOnce(events[..|events|-1], n, k);
    }
  }

  /** A result nobody waits for, or waits for no longer, changes nothing. */
  lemma LateResultsChangeNothing(events: seq<Event>, id: string, reply: Reply)
    requires UniqueIds(events)
    requires forall k | 0 <= k < |Run(events).calls| && Run(events).calls[k].id == id ::
               Run(events).calls[k].outcome.Some? || Run(events).calls[k].future.Some?
    ensures Effect(Run(events), Response(id, reply)) == Run(events)
  {
    RepliesInEveryRun(events);
  }

  /** Ids must be unique: the first of two calls with one id takes the entry of the second away when it times out. */
  lemma RepeatedIdLosesReply(c: Command, reply: Reply)
    ensures var s := Run([Send(c), Send(c), Timeout(0), Response(c.id, reply)]);
            |s.calls| == 2 && Waits(s, 1) && s.calls[1].future.None?
  {
    RunSnoc([], Send(c), [Send(c)]);
    RunSnoc([Send(c)], Send(c), [Send(c), Send(c)]);
    RunSnoc([Send(c), Send(c)], Timeout(0), [Send(c), Send(c), Timeout(0)]);
    RunSnoc([Send(c), Send(c), Timeout(0)], Response(c.id, reply),
            [Send(c), Send(c), Timeout(0), Response(c.id, reply)]);
  }

  lemma RunSnoc(before: seq<Event>, ev: Event, events: seq<Event>)
    requires events == before + [ev]
    ensures Run(events) == Step(Run(before), ev)
  {
    assert events[..|events|-1] == before;
  }
}

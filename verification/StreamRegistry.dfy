/** The registry of live agent streams under interleaved Connect handlers (services/grpc_server/servicer.py). */
module StreamRegistry {
  import opened Basics
  import StreamCommands

  // ---------------------------------------------------------------------------------------------
  // The two critical sections.

  function Registered<S>(registry: map<string, S>, agent: string, stream: S): map<string, S> {
    registry[agent := stream]
  }

  /** Only the handler whose stream is still the current one removes it; an empty agent id counts as none. */
  function Cleaned<S(==)>(registry: map<string, S>, agent: string, stream: S): map<string, S> {
    if agent != "" && agent in registry && registry[agent] == stream then registry - {agent} else registry
  }

  // ---------------------------------------------------------------------------------------------
  // Handlers as interleaved steps. Streams are numbered as they are created.

  /** A handler ends by its cleanup, or by an error before it. */
  datatype Phase = Reading | Publishing | Closing | Finished | Failed

  datatype Handler = Handler(agentId: Option<string>, stream: Option<nat>, phase: Phase)

  /**
   * `latest` is the stream of an agent's most recent publication and `owner` the connection of a stream;
   * the code keeps neither.
   */
  datatype State = State(
    registry: map<string, nat>, handlers: map<nat, Handler>, streams: nat,
    latest: map<string, nat>, owner: map<nat, nat>)

  datatype Event =
    | Open(conn: nat)                    // a connection arrives
    | Accept(conn: nat, agent: string)   // a register message with a valid key: a stream is created
    | Refuse(conn: nat, agent: string)   // a register message with an invalid key: the handler will end
    | Publish(conn: nat)                 // the first critical section
    | Finish(conn: nat)                  // end of messages or cancellation, then the second critical section
    | Abort(conn: nat)                   // the end of a handler whose reader failed: awaiting it skips the cleanup

  const START := State(map[], map[], 0, map[], map[])

  predicate Enabled(s: State, ev: Event) {
    match ev
    case Open(c) => c !in s.handlers
    case Accept(c, _) => c in s.handlers && s.handlers[c].phase == Reading
    case Refuse(c, _) => c in s.handlers && s.handlers[c].phase == Reading
    case Publish(c) =>
      c in s.handlers && s.handlers[c].phase == Publishing && s.handlers[c].agentId.Some? && s.handlers[c].stream.Some?
    case Finish(c) => c in s.handlers && !Ended(s.handlers[c])
    case Abort(c) => c in s.handlers && !Ended(s.handlers[c])
  }

  predicate Ended(h: Handler) {
    h.phase == Finished || h.phase == Failed
  }

  function Step(s: State, ev: Event): State
    requires Enabled(s, ev)
  {
    match ev
    case Open(c) => s.(handlers := s.handlers[c := Handler(None, None, Reading)])
    case Accept(c, a) =>
      s.(handlers := s.handlers[c := Handler(Some(a), Some(s.streams), Publishing)],
         streams := s.streams + 1, owner := s.owner[s.streams := c])
    case Refuse(c, a) => s.(handlers := s.handlers[c := s.handlers[c].(agentId := Some(a), phase := Closing)])
    case Publish(c) =>
      var h := s.handlers[c];
      s.(registry := Registered(s.registry, h.agentId.value, h.stream.value),
         latest := s.latest[h.agentId.value := h.stream.value],
         handlers := s.handlers[c := h.(phase := Reading)])
    case Finish(c) =>
      var h := s.handlers[c];
      s.(registry := if h.agentId.Some? && h.stream.Some? then Cleaned(s.registry, h.agentId.value, h.stream.value)
                     else s.registry,
         handlers := s.handlers[c := h.(phase := Finished)])
    case Abort(c) => s.(handlers := s.handlers[c := s.handlers[c].(phase := Failed)])
  }

  /** Any sequence of events; one that is not enabled does not happen. */
  function Run(events: seq<Event>): State {
    if events == [] then START
    else
      var s := Run(events[..|events|-1]);
      if Enabled(s, events[|events|-1]) then Step(s, events[|events|-1]) else s
  }

  // ---------------------------------------------------------------------------------------------
  // What holds in every run.

  ghost predicate OwnersKnown(s: State) {
    && (forall n: nat :: n in s.owner <==> n < s.streams)
    && (forall n | n in s.owner :: s.owner[n] in s.handlers)
    && (forall c | c in s.handlers && s.handlers[c].stream.Some? ::
          s.handlers[c].stream.value in s.owner && s.owner[s.handlers[c].stream.value] == c)
    && (forall a | a in s.latest :: s.latest[a] in s.owner)
  }

  /** The handler ended holding just this agent, which has a name, and this stream, so it took its entry away. */
  ghost predicate TookAway(s: State, a: string, n: nat)
    requires OwnersKnown(s) && n in s.owner
  {
    a != "" && s.handlers[s.owner[n]] == Handler(Some(a), Some(n), Finished)
  }

  /** An agent is mapped to its most recently published stream, unless the handler of that stream took it away. */
  ghost predicate RegistryIsLatest(s: State)
    requires OwnersKnown(s)
  {
    forall a :: (a in s.registry <==> a in s.latest && !TookAway(s, a, s.latest[a]))
                && (a in s.registry ==> s.registry[a] == s.latest[a])
  }

  lemma StepKeepsOwners(s: State, ev: Event)
    requires OwnersKnown(s) && Enabled(s, ev)
    ensures OwnersKnown(Step(s, ev))
  {
  }

  lemma StepKeepsRegistry(s: State, ev: Event)
    requires OwnersKnown(s) && RegistryIsLatest(s) && Enabled(s, ev)
    ensures OwnersKnown(Step(s, ev)) && RegistryIsLatest(Step(s, ev))
  {
    StepKeepsOwners(s, ev);
    var s' := Step(s, ev);
    forall a ensures (a in s'.registry <==> a in s'.latest && !TookAway(s', a, s'.latest[a]))
                     && (a in s'.registry ==> s'.registry[a] == s'.latest[a])
    {
      assert a in s.registry <==> a in s.latest && !TookAway(s, a, s.latest[a]);
    }
  }

  lemma {:induction false} RegistryInEveryRun(events: seq<Event>)
    ensures OwnersKnown(Run(events)) && RegistryIsLatest(Run(events))
  {
    if events != [] {
      RegistryInEveryRun(events[..|events|-1]);
      if Enabled(Run(events[..|events|-1]), events[|events|-1]) {
        StepKeepsRegistry(Run(events[..|events|-1]), events[|events|-1]);
      }
    }
  }

  /** A superseded handler's cleanup changes nothing in the registry. */
  lemma SupersededCleanupIsHarmless(events: seq<Event>, c: nat)
    requires var s := Run(events);
             Enabled(s, Finish(c)) && s.handlers[c].agentId.Some? && s.handlers[c].stream.Some?
             && s.handlers[c].agentId.value in s.latest &&
                s.latest[s.handlers[c].agentId.value] != s.handlers[c].stream.value
    ensures Step(Run(events), Finish(c)).registry == Run(events).registry
  {
    RegistryInEveryRun(events);
  }

  // ---------------------------------------------------------------------------------------------
  // The code.

  class MarvinServicer {
    var marvins: map<string, StreamCommands.MarvinStream>
    ghost var created: seq<StreamCommands.MarvinStream>

    /** The servicer is in state `s`; the n-th stream made is stream n. */
    ghost predicate Shows(s: State)
      reads this
    {
      && |created| == s.streams
      && (forall i, j | 0 <= i < j < |created| :: created[i] != created[j])
      && marvins.Keys == s.registry.Keys
      && (forall a | a in marvins :: s.registry[a] < |created| && marvins[a] == created[s.registry[a]])
    }

    /** What a handler holds in its local variables. */
    ghost predicate Holds(s: State, conn: nat, agentId: Option<string>, stream: StreamCommands.MarvinStream?)
      reads this
    {
      && conn in s.handlers && s.handlers[conn].agentId == agentId
      && (s.handlers[conn].stream.None? <==> stream == null)
      && (stream != null ==>
            s.handlers[conn].stream.value < |created| && stream == created[s.handlers[conn].stream.value])
    }

    /** What a lookup finds. */
    ghost function Found(agentId: string): Option<StreamCommands.MarvinStream>
      reads this
    {
      if agentId in marvins then Some(marvins[agentId]) else None
    }

    constructor ()
      ensures Shows(START)
    {
      marvins, created := map[], [];
    }

    /** A valid register message makes a new stream, which nobody finds yet. */
    method Accept(agentId: string, ghost s: State, ghost conn: nat) returns (stream: StreamCommands.MarvinStream)
      requires Shows(s) && Enabled(s, Event.Accept(conn, agentId))
      modifies this`created
      ensures fresh(stream) && created == old(created) + [stream]
      ensures stream.agentId == agentId && !stream.connected && stream.Shows(StreamCommands.START)
      ensures Shows(Step(s, Event.Accept(conn, agentId)))
      ensures Holds(Step(s, Event.Accept(conn, agentId)), conn, Some(agentId), stream)
    {
      stream := new StreamCommands.MarvinStream(agentId);
      created := created + [stream];
    }

    /** The handler's stream is found from now on, also when another one was; no other lookup changes. */
    method Publish(agentId: string, stream: StreamCommands.MarvinStream, ghost s: State, ghost conn: nat)
      requires Shows(s) && Enabled(s, Event.Publish(conn)) && Holds(s, conn, Some(agentId), stream)
      modifies this`marvins, stream`connected
      ensures Shows(Step(s, Event.Publish(conn))) && stream.connected
      ensures Found(agentId) == Some(stream) && forall other | other != agentId :: Found(other) == old(Found(other))
    {
      marvins := marvins[agentId := stream];
      stream.connected := true;
    }

    /** The end of a handler, whatever it has got to: only its own stream is found no more. */
    method CleanUp(agentId: Option<string>, stream: StreamCommands.MarvinStream?, ghost s: State, ghost conn: nat)
      requires Shows(s) && Enabled(s, Finish(conn)) && Holds(s, conn, agentId, stream)
      modifies this`marvins, stream
      ensures Shows(Step(s, Finish(conn)))
      ensures forall a :: Found(a) != old(Found(a)) ==> stream != null && old(Found(a)) == Some(stream)
      ensures agentId.GetOr("") != "" && stream != null ==> Found(agentId.value) != Some(stream)
      ensures stream != null ==> (stream.connected <==> old(stream.connected) && agentId.GetOr("") == "")
    {
      if agentId.Some? && agentId.value != "" && stream != null {
        stream.connected := false;
        if agentId.value in marvins && marvins[agentId.value] == stream {
          marvins := marvins - {agentId.value};
        }
      }
    }

    /** Whoever looks an agent up gets its most recently published stream, unless that stream's handler took it away. */
    method GetMarvinStream(agentId: string, ghost s: State) returns (stream: Option<StreamCommands.MarvinStream>)
      requires Shows(s) && OwnersKnown(s) && RegistryIsLatest(s)
      ensures stream == Found(agentId)
      ensures stream.Some? <==> agentId in s.latest && !TookAway(s, agentId, s.latest[agentId])
      ensures stream.Some? ==> s.latest[agentId] < |created| && stream.value == created[s.latest[agentId]]
    {
      stream := if agentId in marvins then Some(marvins[agentId]) else None;
    }
  }

  // ---------------------------------------------------------------------------------------------
  // The registry read off the events.

  predicate Publishes(s: State, ev: Event, a: string) {
    ev.Publish? && Enabled(s, ev) && s.handlers[ev.conn].agentId == Some(a)
  }

  /** The last time the agent was published. */
  ghost function LastPublish(events: seq<Event>, a: string): (t: Option<nat>)
    ensures t.Some? ==> t.value < |events|
  {
    if events == [] then None
    else
      var n := |events| - 1;
      if Publishes(Run(events[..n]), events[n], a) then Some(n) else LastPublish(events[..n], a)
  }

  /** After `t` some event of the kind takes place. */
  ghost predicate SomeAfter(events: seq<Event>, t: nat, p: Event -> bool) {
    |events| > t + 1
    && (SomeAfter(events[..|events|-1], t, p)
        || (Enabled(Run(events[..|events|-1]), events[|events|-1]) && p(events[|events|-1])))
  }

  /** A register message after which the connection no longer holds the agent and the stream it published. */
  function ResetsOf(c: nat, a: string): Event -> bool {
    (ev: Event) => ev.conn == c && (ev.Accept? || (ev.Refuse? && ev.agent != a))
  }

  function Is(ev: Event): Event -> bool {
    (ev': Event) => ev' == ev
  }

  /** How the connection that published the agent last has fared since. */
  ghost predicate Trail(s: State, a: string, c: nat, reset: bool, finished: bool, aborted: bool) {
    && a in s.latest && s.latest[a] in s.owner && s.owner[s.latest[a]] == c && c in s.handlers
    && (reset <==> s.handlers[c].agentId != Some(a) || s.handlers[c].stream != Some(s.latest[a]))
    && (finished <==> s.handlers[c].phase == Finished)
    && (aborted <==> s.handlers[c].phase == Failed)
    && (reset ==> s.handlers[c].stream != Some(s.latest[a]) || s.handlers[c].phase == Closing || Ended(s.handlers[c]))
  }

  lemma TrailStep(s: State, ev: Event, a: string, c: nat, reset: bool, finished: bool, aborted: bool)
    requires OwnersKnown(s) && Enabled(s, ev) && !Publishes(s, ev, a) && Trail(s, a, c, reset, finished, aborted)
    ensures Trail(Step(s, ev), a, c, reset || ResetsOf(c, a)(ev), finished || ev == Finish(c),
                  aborted || ev == Abort(c))
  {
  }

  lemma TrailStarts(s: State, ev: Event, a: string)
    requires OwnersKnown(s) && Publishes(s, ev, a)
    ensures Trail(Step(s, ev), a, ev.conn, false, false, false)
  {
  }

  ghost predicate TrailIs(events: seq<Event>, a: string) {
    var s, t := Run(events), LastPublish(events, a);
    if t.None? then a !in s.latest
    else
      var c := events[t.value].conn;
      Trail(s, a, c, SomeAfter(events, t.value, ResetsOf(c, a)), SomeAfter(events, t.value, Is(Finish(c))),
            SomeAfter(events, t.value, Is(Abort(c))))
  }

  lemma {:induction false} TrailInEveryRun(events: seq<Event>, a: string)
    ensures TrailIs(events, a)
  {
    if events != [] {
      var n := |events| - 1;
      TrailInEveryRun(events[..n], a);
      RegistryInEveryRun(events[..n]);
      TrailSnoc(events, a);
    }
  }

  lemma TrailSnoc(events: seq<Event>, a: string)
    requires events != [] && OwnersKnown(Run(events[..|events|-1])) && TrailIs(events[..|events|-1], a)
    ensures TrailIs(events, a)
  {
    var n, ev := |events| - 1, events[|events|-1];
    var s, t := Run(events[..n]), LastPublish(events[..n], a);
    if Publishes(s, ev, a) {
      TrailStarts(s, ev, a);
    } else if t.Some? {
      var c := events[t.value].conn;
      if Enabled(s, ev) {
        TrailStep(s, ev, a, c, SomeAfter(events[..n], t.value, ResetsOf(c, a)),
                  SomeAfter(events[..n], t.value, Is(Finish(c))), SomeAfter(events[..n], t.value, Is(Abort(c))));
      }
    }
  }

  /**
   * At any time an agent has an entry exactly when it was published and it has no name, or the connection that
   * published it last has not finished since, or has since sent a register message that was accepted, or refused
   * under another agent id.
   */
  lemma RegistryExactly(events: seq<Event>, a: string)
    ensures a in Run(events).registry <==>
              LastPublish(events, a).Some? &&
              var t := LastPublish(events, a).value;
              var c := events[t].conn;
              a == "" || !SomeAfter(events, t, Is(Finish(c))) || SomeAfter(events, t, ResetsOf(c, a))
  {
    RegistryInEveryRun(events);
    TrailInEveryRun(events, a);
  }

  /** Once every handler has ended, what is left are the agents without a name, those reset, and those aborted. */
  lemma LeftoverExactly(events: seq<Event>, a: string)
    requires forall c | c in Run(events).handlers :: Ended(Run(events).handlers[c])
    ensures a in Run(events).registry <==>
              LastPublish(events, a).Some? &&
              var t := LastPublish(events, a).value;
              var c := events[t].conn;
              a == "" || SomeAfter(events, t, ResetsOf(c, a)) || SomeAfter(events, t, Is(Abort(c)))
  {
    RegistryInEveryRun(events);
    TrailInEveryRun(events, a);
  }

  // ---------------------------------------------------------------------------------------------
  // One register message per connection.

  predicate IsRegister(ev: Event, c: nat) {
    (ev.Accept? || ev.Refuse?) && ev.conn == c
  }

  /** No connection sends a second register message. */
  ghost predicate RegistersOnce(events: seq<Event>) {
    forall i, j | 0 <= i < j < |events| && (events[i].Accept? || events[i].Refuse?) ::
      !IsRegister(events[j], events[i].conn)
  }

  /** A published stream still is its handler's, and a handler that knows an agent has seen its register message. */
  ghost predicate Faithful(s: State, events: seq<Event>)
    requires OwnersKnown(s)
  {
    HoldsLatest(s) && StreamsNamed(s) && AgentsRegistered(s, events)
  }

  ghost predicate HoldsLatest(s: State)
    requires OwnersKnown(s)
  {
    forall a | a in s.latest :: s.handlers[s.owner[s.latest[a]]].agentId == Some(a)
                                && s.handlers[s.owner[s.latest[a]]].stream == Some(s.latest[a])
  }

  ghost predicate StreamsNamed(s: State) {
    forall c | c in s.handlers && s.handlers[c].stream.Some? :: s.handlers[c].agentId.Some?
  }

  ghost predicate AgentsRegistered(s: State, events: seq<Event>) {
    forall c | c in s.handlers && s.handlers[c].agentId.Some? ::
      exists i :: 0 <= i < |events| && IsRegister(events[i], c)
  }

  lemma {:induction false} FaithfulInEveryRun(events: seq<Event>)
    requires RegistersOnce(events)
    ensures OwnersKnown(Run(events)) && Faithful(Run(events), events)
  {
    if events != [] {
      var init, ev := events[..|events|-1], events[|events|-1];
      assert events == init + [ev];
      FaithfulInEveryRun(init);
      if Enabled(Run(init), ev) {
        FaithfulStep(Run(init), init, ev);
      } else {
        StillRegistered(Run(init), init, ev);
      }
    }
  }

  lemma FaithfulStep(s: State, before: seq<Event>, ev: Event)
    requires OwnersKnown(s) && Enabled(s, ev) && Faithful(s, before) && RegistersOnce(before + [ev])
    ensures OwnersKnown(Step(s, ev)) && Faithful(Step(s, ev), before + [ev])
  {
    StepKeepsOwners(s, ev);
    StillRegistered(s, before, ev);
    RegisteredAfter(s, before, ev);
    if ev.Accept? || ev.Refuse? {
      NotRegistered(s, before, ev);
    }
    LatestAfter(s, ev);
  }

  lemma LatestAfter(s: State, ev: Event)
    requires OwnersKnown(s) && Enabled(s, ev) && HoldsLatest(s) && StreamsNamed(s)
    requires ev.Accept? || ev.Refuse? ==> s.handlers[ev.conn].agentId.None?
    ensures OwnersKnown(Step(s, ev)) && HoldsLatest(Step(s, ev)) && StreamsNamed(Step(s, ev))
  {
    StepKeepsOwners(s, ev);
  }

  lemma RegisteredAfter(s: State, before: seq<Event>, ev: Event)
    requires OwnersKnown(s) && Enabled(s, ev) && AgentsRegistered(s, before + [ev])
    ensures AgentsRegistered(Step(s, ev), before + [ev])
  {
    var s', events := Step(s, ev), before + [ev];
    forall c | c in s'.handlers && s'.handlers[c].agentId.Some?
      ensures exists i :: 0 <= i < |events| && IsRegister(events[i], c)
    {
      if !(c in s.handlers && s.handlers[c].agentId.Some?) {
        assert IsRegister(events[|before|], c);
      }
    }
  }

  lemma StillRegistered(s: State, before: seq<Event>, ev: Event)
    requires OwnersKnown(s) && Faithful(s, before)
    ensures Faithful(s, before + [ev])
  {
    forall c | c in s.handlers && s.handlers[c].agentId.Some?
      ensures exists i :: 0 <= i < |before + [ev]| && IsRegister((before + [ev])[i], c)
    {
      var i :| 0 <= i < |before| && IsRegister(before[i], c);
      assert IsRegister((before + [ev])[i], c);
    }
  }

  /** A handler that now sees a register message knew no agent before. */
  lemma NotRegistered(s: State, before: seq<Event>, ev: Event)
    requires OwnersKnown(s) && Enabled(s, ev) && Faithful(s, before) && RegistersOnce(before + [ev])
    requires ev.Accept? || ev.Refuse?
    ensures s.handlers[ev.conn].agentId.None?
  {
    var events := before + [ev];
    assert IsRegister(events[|before|], ev.conn);
    forall i | 0 <= i < |before| ensures !IsRegister(before[i], ev.conn) {
      assert events[i] == before[i];
    }
  }

  /**
   * With one register message per connection, the registry maps an agent to a stream exactly when that stream is the
   * agent's most recently published one and its handler has not cleaned up, or the agent has no name.
   */
  lemma RegistryIsLiveLatest(events: seq<Event>, a: string, n: nat)
    requires RegistersOnce(events)
    ensures var s := Run(events);
            (a in s.registry && s.registry[a] == n) <==>
              (a in s.latest && s.latest[a] == n && n in s.owner && s.owner[n] in s.handlers
               && (s.handlers[s.owner[n]].phase != Finished || a == ""))
  {
    RegistryInEveryRun(events);
    FaithfulInEveryRun(events);
  }

  /**
   * So without aborted handlers no entry remains once all have ended, except that of an agent without a name, which
   * stays for ever.
   */
  lemma EmptyWhenAllFinished(events: seq<Event>)
    requires RegistersOnce(events) && NoAborts(events)
    requires forall c | c in Run(events).handlers :: Ended(Run(events).handlers[c])
    ensures Run(events).registry == if "" in Run(events).latest then map["" := Run(events).latest[""]] else map[]
  {
    var s := Run(events);
    RegistryInEveryRun(events);
    FaithfulInEveryRun(events);
    NoneFails(events);
    forall a ensures a in s.registry <==> a == "" && a in s.latest {
      assert a in s.latest ==> (a in s.registry <==> !TookAway(s, a, s.latest[a]));
    }
  }

  ghost predicate NoAborts(events: seq<Event>) {
    forall i | 0 <= i < |events| :: !events[i].Abort?
  }

  lemma {:induction false} NoneFails(events: seq<Event>)
    requires NoAborts(events)
    ensures forall c | c in Run(events).handlers :: Run(events).handlers[c].phase != Failed
  {
    if events != [] {
      NoneFails(events[..|events|-1]);
    }
  }

  /** An aborted handler leaves its agent's entry behind. */
  lemma AbortLeaks(c: nat, a: string)
    ensures var s := Run([Open(c), Accept(c, a), Publish(c), Abort(c)]);
            s.registry == map[a := 0] && s.handlers == map[c := Handler(Some(a), Some(0), Failed)]
  {
    RunSnoc([], Open(c), [Open(c)]);
    RunSnoc([Open(c)], Accept(c, a), [Open(c), Accept(c, a)]);
    RunSnoc([Open(c), Accept(c, a)], Publish(c), [Open(c), Accept(c, a), Publish(c)]);
    RunSnoc([Open(c), Accept(c, a), Publish(c)], Abort(c), [Open(c), Accept(c, a), Publish(c), Abort(c)]);
  }

  /** Without that rule an entry can stay for ever: one connection registering as two agents leaves the first. */
  lemma SecondRegistrationLeaks(c: nat, a: string, b: string)
    requires a != b && b != ""
    ensures var s := Run([Open(c), Accept(c, a), Publish(c), Accept(c, b), Publish(c), Finish(c)]);
            s.registry == map[a := 0] && s.handlers == map[c := Handler(Some(b), Some(1), Finished)]
  {
    var s1 := Step(START, Open(c));
    var s2 := Step(s1, Accept(c, a));
    var s3 := Step(s2, Publish(c));
    var s4 := Step(s3, Accept(c, b));
    var s5 := Step(s4, Publish(c));
    RunSnoc([], Open(c), [Open(c)]);
    RunSnoc([Open(c)], Accept(c, a), [Open(c), Accept(c, a)]);
    RunSnoc([Open(c), Accept(c, a)], Publish(c), [Open(c), Accept(c, a), Publish(c)]);
    RunSnoc([Open(c), Accept(c, a), Publish(c)], Accept(c, b), [Open(c), Accept(c, a), Publish(c), Accept(c, b)]);
    RunSnoc([Open(c), Accept(c, a), Publish(c), Accept(c, b)], Publish(c),
            [Open(c), Accept(c, a), Publish(c), Accept(c, b), Publish(c)]);
    RunSnoc([Open(c), Accept(c, a), Publish(c), Accept(c, b), Publish(c)], Finish(c),
            [Open(c), Accept(c, a), Publish(c), Accept(c, b), Publish(c), Finish(c)]);
  }

  lemma RunSnoc(before: seq<Event>, ev: Event, events: seq<Event>)
    requires events == before + [ev]
    ensures Run(events) == if Enabled(Run(before), ev) then Step(Run(before), ev) else Run(before)
  {
    assert events[..|events|-1] == before;
  }
}

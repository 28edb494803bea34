/** The analytics reducer: it joins facts about connections, threads and turns,
    which arrive in any order, into events. */
module TurnAnalytics {
  import opened Common

  // ----- data -----

  datatype Mode = NewThread | Resumed | Forked

  datatype ThreadMeta = ThreadMeta(source: Option<string>, mode: Mode, subagent: Option<string>, parent: Option<string>)

  datatype Thread = Thread(connection: Option<nat>, metadata: Option<ThreadMeta>)

  datatype Pending =
    | TurnStart(thread: string, images: nat)
    | TurnSteer(thread: string, expectedTurn: string, images: nat, createdAt: nat)

  datatype Status = Completed | Failed | Interrupted | InProgress

  datatype Completion = Completion(status: Option<Status>, error: Option<string>, completedAt: nat,
      duration: Option<nat>)

  /** What is known about a turn so far. */
  datatype Turn = Turn(
    connection: Option<nat>,
    thread: Option<string>,
    images: Option<nat>,
    config: Option<string>,
    startedAt: Option<nat>,
    usage: Option<string>,
    completed: Option<Completion>,
    steers: nat)

  const NEW_TURN := Turn(None, None, None, None, None, None, None, 0)

  type RequestKey = (nat, RequestId)

  datatype State = State(
    requests: map<RequestKey, Pending>,
    turns: map<string, Turn>,
    connections: map<nat, string>,
    threads: map<string, Thread>)

  const INITIAL := State(map[], map[], map[], map[])

  datatype UserInput = Text | Image | LocalImage | OtherInput

  /** Where a session comes from: a sub-agent has a name and may know its parent. */
  datatype SessionSource = SubAgent(name: string, parent: Option<string>) | OtherSource

  datatype Fact =
    | Initialize(connection: nat, client: string)
    | TurnStartRequest(connection: nat, request: RequestId, thread: string, input: seq<UserInput>)
    | TurnSteerRequest(connection: nat, request: RequestId, thread: string, expectedTurn: string,
        input: seq<UserInput>, now: nat)
    | ThreadResponse(connection: nat, thread: string, session: SessionSource, source: Option<string>, mode: Mode)
    | TurnStartResponse(connection: nat, request: RequestId, turn: string)
    | TurnSteerResponse(connection: nat, request: RequestId, turn: string)
    | ErrorResponse(connection: nat, request: RequestId, reason: Option<string>)
    | TurnStarted(turn: string, at: Option<int>)
    | TurnCompleted(turn: string, status: Status, error: Option<string>, at: Option<int>, duration: Option<int>)
    | SubAgentStarted(thread: string, explicitParent: Option<string>, name: string, sourceParent: Option<string>)
    | Compaction(thread: string)
    | GuardianReview(thread: string)
    | ResolvedConfig(turn: string, thread: string, images: nat, config: string)
    | TokenUsage(turn: string, thread: string, usage: string)
    | Standalone(events: seq<string>)
    | Ignored

  datatype Event =
    | ThreadInitialized(thread: string, client: string, meta: ThreadMeta)
    | SubAgentInitialized(thread: string, name: string, parent: Option<string>)
    | TurnEvent(turn: string, thread: string, client: string, meta: ThreadMeta, images: nat, config: string,
                startedAt: Option<nat>, usage: Option<string>, completed: Completion, steers: nat)
    | SteerEvent(thread: string, expectedTurn: string, acceptedTurn: Option<string>, client: string, meta: ThreadMeta,
                 images: nat, reason: Option<string>, createdAt: nat)
    | CompactionEvent(thread: string, client: string, meta: ThreadMeta)
    | GuardianEvent(thread: string, client: string)
    | StandaloneEvent(body: string)

  datatype Output = Output(state: State, events: seq<Event>)

  // ----- pure helpers -----

  function ImageCount(input: seq<UserInput>): nat {
    if input == [] then 0
    else ImageCount(input[..|input| - 1]) + if input[|input| - 1].Image? || input[|input| - 1].LocalImage? then 1 else 0
  }

  /** A timestamp or duration, if it is not negative. */
  function Unsigned(n: Option<int>): Option<nat> {
    if n.Some? && n.value >= 0 then Some(n.value) else None
  }

  function AnalyticsStatus(status: Status): Option<Status> {
    if status.InProgress? then None else Some(status)
  }

  function CompletionOf(f: Fact): Completion
    requires f.TurnCompleted?
  {
    Completion(AnalyticsStatus(f.status), f.error, if Unsigned(f.at).Some? then Unsigned(f.at).value else 0,
        Unsigned(f.duration))
  }

  function MetaOf(session: SessionSource, source: Option<string>, mode: Mode): ThreadMeta {
    match session
    case SubAgent(name, parent) => ThreadMeta(source, mode, Some(name), parent)
    case OtherSource => ThreadMeta(source, mode, None, None)
  }

  function TurnOf(s: State, turn: string): Turn {
    if turn in s.turns then s.turns[turn] else NEW_TURN
  }

  function MetadataOf(s: State, thread: string): Option<ThreadMeta> {
    if thread in s.threads then s.threads[thread].metadata else None
  }

  function ClientOf(s: State, connection: nat): Option<string> {
    if connection in s.connections then Some(s.connections[connection]) else None
  }

  /** The client of the connection a thread is on. */
  function ThreadClient(s: State, thread: string): Option<string> {
    if thread in s.threads && s.threads[thread].connection.Some? then ClientOf(s, s.threads[thread].connection.value)
        else None
  }

  // ----- emitting -----

  predicate Complete(turn: Turn) {
    turn.thread.Some? && turn.images.Some? && turn.config.Some? && turn.completed.Some? && turn.connection.Some?
  }

  /** The event of a complete turn whose connection and thread are known. */
  function TurnEventOf(s: State, id: string): Option<Event> {
    var turn := TurnOf(s, id);
    if !Complete(turn) then None
    else
      var client, meta := ClientOf(s, turn.connection.value), MetadataOf(s, turn.thread.value);
      if client.None? || meta.None? then None
      else Some(TurnEvent(id, turn.thread.value, client.value, meta.value, turn.images.value, turn.config.value,
                          turn.startedAt, turn.usage, turn.completed.value, turn.steers))
  }

  /** A turn that can be reported is reported and forgotten. */
  function MaybeEmit(s: State, id: string): Output {
    var event := TurnEventOf(s, id);
    if event.None? then Output(s, []) else Output(s.(turns := s.turns - {id}), [event.value])
  }

  function UpdateTurn(s: State, id: string, turn: Turn): State {
    s.(turns := s.turns[id := turn])
  }

  function SteerOutput(s: State, connection: nat, p: Pending, accepted: Option<string>, reason: Option<string>): Output
    requires p.TurnSteer?
  {
    var client, meta := ClientOf(s, connection), MetadataOf(s, p.thread);
    if client.None? || meta.None? then Output(s, [])
    else Output(s, [SteerEvent(p.thread, p.expectedTurn, accepted, client.value, meta.value, p.images, reason,
        p.createdAt)])
  }

  // ----- ingesting -----

  function OnTurnStartResponse(s: State, key: RequestKey, id: string): Output {
    if key !in s.requests then Output(s, [])
    else
      var rest := s.(requests := s.requests - {key});
      match s.requests[key]
      case TurnStart(thread, images) =>
        MaybeEmit(UpdateTurn(rest, id,
            TurnOf(s, id).(connection := Some(key.0), thread := Some(thread), images := Some(images))), id)
      case TurnSteer(_, _, _, _) => Output(rest, [])
  }

  function OnTurnSteerResponse(s: State, key: RequestKey, id: string): Output {
    if key !in s.requests then Output(s, [])
    else
      var rest := s.(requests := s.requests - {key});
      match s.requests[key]
      case TurnStart(_, _) => Output(rest, [])
      case TurnSteer(_, _, _, _) =>
        var counted := if id in s.turns then UpdateTurn(rest, id, s.turns[id].(steers := s.turns[id].steers + 1))
            else rest;
        SteerOutput(counted, key.0, s.requests[key], Some(id), None)
  }

  function OnErrorResponse(s: State, key: RequestKey, reason: Option<string>): Output {
    if key !in s.requests then Output(s, [])
    else
      var rest := s.(requests := s.requests - {key});
      if s.requests[key].TurnSteer? then SteerOutput(rest, key.0, s.requests[key], None, reason) else Output(rest, [])
  }

  function OnThreadResponse(s: State, connection: nat, thread: string, meta: ThreadMeta): Output {
    if connection !in s.connections then Output(s, [])
    else Output(s.(threads := s.threads[thread := Thread(Some(connection), Some(meta))]),
                [ThreadInitialized(thread, s.connections[connection], meta)])
  }

  /** A sub-agent thread keeps what is known about it, and otherwise inherits its
      parent's connection. */
  function OnSubAgentStarted(s: State, f: Fact): Output
    requires f.SubAgentStarted?
  {
    var parent := if f.explicitParent.Some? then f.explicitParent else f.sourceParent;
    var inherited := if parent.Some? && parent.value in s.threads then s.threads[parent.value].connection else None;
    var thread := if f.thread in s.threads then s.threads[f.thread] else Thread(None, None);
    var meta := ThreadMeta(Some("subagent"), NewThread, Some(f.name), parent);
    var known := Thread(if thread.connection.Some? then thread.connection else inherited,
                        if thread.metadata.Some? then thread.metadata else Some(meta));
    Output(s.(threads := s.threads[f.thread := known]), [SubAgentInitialized(f.thread, f.name, parent)])
  }

  function Ingest(s: State, f: Fact): Output {
    match f
    case Initialize(connection, client) => Output(s.(connections := s.connections[connection := client]), [])
    case TurnStartRequest(connection, request, thread, input) =>
      Output(s.(requests := s.requests[(connection, request) := TurnStart(thread, ImageCount(input))]), [])
    case TurnSteerRequest(connection, request, thread, expected, input, now) =>
      Output(s.(requests := s.requests[(connection, request) := TurnSteer(thread, expected, ImageCount(input), now)]),
          [])
    case ThreadResponse(connection, thread, session, source, mode) =>
      OnThreadResponse(s, connection, thread, MetaOf(session, source, mode))
    case TurnStartResponse(connection, request, turn) => OnTurnStartResponse(s, (connection, request), turn)
    case TurnSteerResponse(connection, request, turn) => OnTurnSteerResponse(s, (connection, request), turn)
    case ErrorResponse(connection, request, reason) => OnErrorResponse(s, (connection, request), reason)
    case TurnStarted(turn, at) => Output(UpdateTurn(s, turn, TurnOf(s, turn).(startedAt := Unsigned(at))), [])
    case TurnCompleted(turn, _, _, _, _) =>
      MaybeEmit(UpdateTurn(s, turn, TurnOf(s, turn).(completed := Some(CompletionOf(f)))), turn)
    case SubAgentStarted(_, _, _, _) => OnSubAgentStarted(s, f)
    case Compaction(thread) =>
      var client, meta := ThreadClient(s, thread), MetadataOf(s, thread);
      Output(s, if client.Some? && meta.Some? then [CompactionEvent(thread, client.value, meta.value)] else [])
    case GuardianReview(thread) =>
      var client := ThreadClient(s, thread);
      Output(s, if client.Some? then [GuardianEvent(thread, client.value)] else [])
    case ResolvedConfig(turn, thread, images, config) =>
      MaybeEmit(UpdateTurn(s, turn,
          TurnOf(s, turn).(thread := Some(thread), images := Some(images), config := Some(config))), turn)
    case TokenUsage(turn, thread, usage) =>
      MaybeEmit(UpdateTurn(s, turn, TurnOf(s, turn).(thread := Some(thread), usage := Some(usage))), turn)
    case Standalone(events) => Output(s, seq(|events|, i requires 0 <= i < |events| => StandaloneEvent(events[i])))
    case Ignored => Output(s, [])
  }

  /** The state and all events after a sequence of facts. */
  function Run(s: State, facts: seq<Fact>): Output
    decreases |facts|
  {
    if facts == [] then Output(s, [])
    else
      var first := Ingest(s, facts[0]);
      var rest := Run(first.state, facts[1..]);
      Output(rest.state, first.events + rest.events)
  }

  lemma RunFirst(s: State, f: Fact, rest: seq<Fact>)
    ensures var first := Ingest(s, f);
            Run(s, [f] + rest) == Output(Run(first.state, rest).state, first.events + Run(first.state, rest).events)
  {
    assert ([f] + rest)[1..] == rest;
  }

  lemma {:induction false} RunConcat(s: State, a: seq<Fact>, b: seq<Fact>)
    ensures var first := Run(s, a);
            var rest := Run(first.state, b);
            Run(s, a + b) == Output(rest.state, first.events + rest.events)
    decreases |a|
  {
    if a == [] {
      assert a + b == b;
    } else {
      var first := Ingest(s, a[0]);
      assert a == [a[0]] + a[1..] && a + b == [a[0]] + (a[1..] + b);
      RunFirst(s, a[0], a[1..]);
      RunFirst(s, a[0], a[1..] + b);
      RunConcat(first.state, a[1..], b);
      var middle := Run(first.state, a[1..]);
      var last := Run(middle.state, b);
      assert first.events + (middle.events + last.events) == (first.events + middle.events) + last.events;
    }
  }

  lemma RunOneMore(s: State, facts: seq<Fact>, i: nat)
    requires i < |facts|
    ensures var before := Run(s, facts[..i]);
            var step := Ingest(before.state, facts[i]);
            Run(s, facts[..i + 1]) == Output(step.state, before.events + step.events)
  {
    assert facts[..i + 1] == facts[..i] + [facts[i]];
    RunConcat(s, facts[..i], [facts[i]]);
    RunFirst(Run(s, facts[..i]).state, facts[i], []);
    assert [facts[i]] + [] == [facts[i]];
  }

  /** The outcomes after each number of facts. */
  ghost predicate Trace(s: State, facts: seq<Fact>, runs: seq<Output>) {
    && |runs| == |facts| + 1 && runs[0] == Output(s, [])
    && (forall i | 0 <= i < |facts| ::
          runs[i + 1] == Output(Ingest(runs[i].state, facts[i]).state,
                                runs[i].events + Ingest(runs[i].state, facts[i]).events))
  }

  lemma RunTrace(s: State, facts: seq<Fact>) returns (runs: seq<Output>)
    ensures Trace(s, facts, runs) && forall i | 0 <= i <= |facts| :: runs[i] == Run(s, facts[..i])
  {
    runs := seq(|facts| + 1, i requires 0 <= i <= |facts| => Run(s, facts[..i]));
    forall i | 0 <= i < |facts|
      ensures runs[i + 1] == Output(Ingest(runs[i].state, facts[i]).state,
                                    runs[i].events + Ingest(runs[i].state, facts[i]).events)
    {
      RunOneMore(s, facts, i);
    }
  }

  // ----- context -----

  /** Every known thread has metadata, and its connection, if any, is registered. */
  ghost predicate Contextual(s: State) {
    forall t | t in s.threads ::
      s.threads[t].metadata.Some? && (s.threads[t].connection.Some? ==> s.threads[t].connection.value in s.connections)
  }

  lemma IngestContextual(s: State, f: Fact)
    requires Contextual(s)
    ensures Contextual(Ingest(s, f).state)
  {
  }

  lemma {:induction false} RunContextual(s: State, facts: seq<Fact>)
    requires Contextual(s)
    ensures Contextual(Run(s, facts).state)
    decreases |facts|
  {
    if facts != [] {
      IngestContextual(s, facts[0]);
      RunContextual(Ingest(s, facts[0]).state, facts[1..]);
    }
  }
}

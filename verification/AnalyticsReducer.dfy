/** The reducer as an object that updates its maps and appends to an output list. */
module AnalyticsReducer {
  import opened Common
  import opened TurnAnalytics

  class Reducer {
    var requests: map<RequestKey, Pending>
    var turns: map<string, Turn>
    var connections: map<nat, string>
    var threads: map<string, Thread>
    var out: seq<Event>

    function View(): State
      reads this
    {
      State(requests, turns, connections, threads)
    }

    constructor ()
      ensures View() == INITIAL && out == []
    {
      requests, turns, connections, threads, out := map[], map[], map[], map[], [];
    }

    /** This is the reducer after it took in a fact and pushed the events it led to. */
    ghost predicate Took(before: State, pushed: seq<Event>, f: Fact)
      reads this
    {
      var o := Ingest(before, f);
      View() == o.state && out == pushed + o.events
    }

    method IngestFact(f: Fact)
      modifies this
      ensures Took(old(View()), old(out), f)
    {
      match f {
        case Initialize(connection, client) => IngestInitialize(connection, client);
        case TurnStartRequest(_, _, _, _) => IngestRequest(f);
        case TurnSteerRequest(_, _, _, _, _, _) => IngestRequest(f);
        case ThreadResponse(connection, thread, session, source, mode) =>
          EmitThreadInitialized(connection, thread, MetaOf(session, source, mode));
        case TurnStartResponse(connection, request, turn) => IngestTurnStartResponse((connection, request), turn);
        case TurnSteerResponse(connection, request, turn) => IngestTurnSteerResponse((connection, request), turn);
        case ErrorResponse(connection, request, reason) => IngestErrorResponse((connection, request), reason);
        case TurnStarted(turn, at) => IngestTurnStarted(turn, at);
        case TurnCompleted(_, _, _, _, _) => IngestTurnCompleted(f);
        case SubAgentStarted(_, _, _, _) => IngestSubAgentStarted(f);
        case Compaction(thread) => IngestCompaction(thread);
        case GuardianReview(thread) => IngestGuardianReview(thread);
        case ResolvedConfig(_, _, _, _) => IngestTurnResolvedConfig(f);
        case TokenUsage(_, _, _) => IngestTurnTokenUsage(f);
        case Standalone(events) => PushStandalone(events);
        case Ignored =>
      }
    }

    method IngestInitialize(connection: nat, client: string)
      modifies this`connections
      ensures Took(old(View()), old(out), Initialize(connection, client))
    {
      connections := connections[connection := client];
    }

    method IngestRequest(f: Fact)
      requires f.TurnStartRequest? || f.TurnSteerRequest?
      modifies this`requests
      ensures Took(old(View()), old(out), f)
    {
      var images := CountImages(f.input);
      var pending := if f.TurnStartRequest? then TurnStart(f.thread, images)
          else TurnSteer(f.thread, f.expectedTurn, images, f.now);
      requests := requests[(f.connection, f.request) := pending];
    }

    method IngestTurnStarted(turn: string, at: Option<int>)
      modifies this`turns
      ensures Took(old(View()), old(out), TurnStarted(turn, at))
    {
      EnsureTurn(turn);
      turns := turns[turn := turns[turn].(startedAt := Unsigned(at))];
    }

    method IngestTurnCompleted(f: Fact)
      requires f.TurnCompleted?
      modifies this`turns, this`out
      ensures Took(old(View()), old(out), f)
    {
      EnsureTurn(f.turn);
      var updated := turns[f.turn].(completed := Some(CompletionOf(f)));
      assert turns[f.turn := updated] == old(turns)[f.turn := updated];
      UpdateTurnAndEmit(f.turn, updated);
    }

    method IngestTurnResolvedConfig(f: Fact)
      requires f.ResolvedConfig?
      modifies this`turns, this`out
      ensures Took(old(View()), old(out), f)
    {
      EnsureTurn(f.turn);
      var updated := turns[f.turn].(thread := Some(f.thread), images := Some(f.images), config := Some(f.config));
      assert turns[f.turn := updated] == old(turns)[f.turn := updated];
      UpdateTurnAndEmit(f.turn, updated);
    }

    method IngestTurnTokenUsage(f: Fact)
      requires f.TokenUsage?
      modifies this`turns, this`out
      ensures Took(old(View()), old(out), f)
    {
      EnsureTurn(f.turn);
      var updated := turns[f.turn].(thread := Some(f.thread), usage := Some(f.usage));
      assert turns[f.turn := updated] == old(turns)[f.turn := updated];
      UpdateTurnAndEmit(f.turn, updated);
    }

    method IngestCompaction(thread: string)
      modifies this`out
      ensures Took(old(View()), old(out), Compaction(thread))
    {
      var client, meta := ThreadClient(View(), thread), MetadataOf(View(), thread);
      if client.Some? && meta.Some? {
        out := out + [CompactionEvent(thread, client.value, meta.value)];
      }
    }

    method IngestGuardianReview(thread: string)
      modifies this`out
      ensures Took(old(View()), old(out), GuardianReview(thread))
    {
      var client := ThreadClient(View(), thread);
      if client.Some? {
        out := out + [GuardianEvent(thread, client.value)];
      }
    }

    method PushStandalone(events: seq<string>)
      modifies this`out
      ensures Took(old(View()), old(out), Standalone(events))
    {
      ghost var all := Ingest(View(), Standalone(events)).events;
      for i := 0 to |events|
        invariant out == old(out) + all[..i]
      {
        out := out + [StandaloneEvent(events[i])];
        assert all[..i + 1] == all[..i] + [all[i]];
      }
      assert all[..|events|] == all;
    }

    /** A turn is known from its first fact on. */
    method EnsureTurn(turn: string)
      modifies this`turns
      ensures turn in turns && turns == old(turns)[turn := TurnOf(old(View()), turn)]
    {
      if turn !in turns {
        turns := turns[turn := NEW_TURN];
      } else {
        assert turns == turns[turn := turns[turn]];
      }
    }

    method UpdateTurnAndEmit(id: string, turn: Turn)
      modifies this`turns, this`out
      ensures var o := MaybeEmit(UpdateTurn(old(View()), id, turn), id); View() == o.state && out == old(out) + o.events
    {
      turns := turns[id := turn];
      MaybeEmitTurnEvent(id);
    }

    method MaybeEmitTurnEvent(id: string)
      modifies this`turns, this`out
      ensures var o := MaybeEmit(old(View()), id); View() == o.state && out == old(out) + o.events
    {
      if id !in turns {
        return;
      }
      var turn := turns[id];
      if turn.thread.None? || turn.images.None? || turn.config.None? || turn.completed.None? {
        return;
      }
      if turn.connection.None? {
        return;
      }
      if turn.connection.value !in connections {
        return;
      }
      if turn.thread.value !in threads || threads[turn.thread.value].metadata.None? {
        return;
      }
      out := out + [TurnEvent(id, turn.thread.value, connections[turn.connection.value],
                              threads[turn.thread.value].metadata.value, turn.images.value, turn.config.value,
                              turn.startedAt, turn.usage, turn.completed.value, turn.steers)];
      turns := turns - {id};
    }

    method IngestTurnStartResponse(key: RequestKey, turn: string)
      modifies this`requests, this`turns, this`out
      ensures var o := OnTurnStartResponse(old(View()), key, turn); View() == o.state && out == old(out) + o.events
    {
      if key !in requests {
        return;
      }
      var pending := requests[key];
      requests := requests - {key};
      if !pending.TurnStart? {
        return;
      }
      EnsureTurn(turn);
      var updated := turns[turn].(connection := Some(key.0), thread := Some(pending.thread),
          images := Some(pending.images));
      assert turns[turn := updated] == old(turns)[turn := updated];
      UpdateTurnAndEmit(turn, updated);
    }

    method EmitTurnSteerEvent(connection: nat, p: Pending, accepted: Option<string>, reason: Option<string>)
      requires p.TurnSteer?
      modifies this`out
      ensures var o := SteerOutput(old(View()), connection, p, accepted, reason);
              View() == o.state && out == old(out) + o.events
    {
      if connection !in connections {
        return;
      }
      if p.thread !in threads || threads[p.thread].metadata.None? {
        return;
      }
      out := out + [SteerEvent(p.thread, p.expectedTurn, accepted, connections[connection],
                               threads[p.thread].metadata.value, p.images, reason, p.createdAt)];
    }

    method IngestTurnSteerResponse(key: RequestKey, turn: string)
      modifies this`requests, this`turns, this`out
      ensures var o := OnTurnSteerResponse(old(View()), key, turn); View() == o.state && out == old(out) + o.events
    {
      if key !in requests {
        return;
      }
      var pending := requests[key];
      requests := requests - {key};
      if !pending.TurnSteer? {
        return;
      }
      if turn in turns {
        turns := turns[turn := turns[turn].(steers := turns[turn].steers + 1)];
      }
      EmitTurnSteerEvent(key.0, pending, Some(turn), None);
    }

    method IngestErrorResponse(key: RequestKey, reason: Option<string>)
      modifies this`requests, this`out
      ensures var o := OnErrorResponse(old(View()), key, reason); View() == o.state && out == old(out) + o.events
    {
      if key !in requests {
        return;
      }
      var pending := requests[key];
      requests := requests - {key};
      if pending.TurnSteer? {
        EmitTurnSteerEvent(key.0, pending, None, reason);
      }
    }

    method EmitThreadInitialized(connection: nat, thread: string, meta: ThreadMeta)
      modifies this`threads, this`out
      ensures var o := OnThreadResponse(old(View()), connection, thread, meta);
              View() == o.state && out == old(out) + o.events
    {
      if connection !in connections {
        return;
      }
      threads := threads[thread := Thread(Some(connection), Some(meta))];
      out := out + [ThreadInitialized(thread, connections[connection], meta)];
    }

    method IngestSubAgentStarted(f: Fact)
      requires f.SubAgentStarted?
      modifies this`threads, this`out
      ensures var o := OnSubAgentStarted(old(View()), f); View() == o.state && out == old(out) + o.events
    {
      var parent := if f.explicitParent.Some? then f.explicitParent else f.sourceParent;
      var parentConnection := None;
      if parent.Some? && parent.value in threads {
        parentConnection := threads[parent.value].connection;
      }
      var thread := if f.thread in threads then threads[f.thread] else Thread(None, None);
      if thread.metadata.None? {
        thread := thread.(metadata := Some(ThreadMeta(Some("subagent"), NewThread, Some(f.name), parent)));
      }
      if thread.connection.None? {
        thread := thread.(connection := parentConnection);
      }
      threads := threads[f.thread := thread];
      out := out + [SubAgentInitialized(f.thread, f.name, parent)];
    }
  }

  /** Feeds a new reducer a run of facts; whatever holds of every run holds of the
      reducer and of the events it pushed. */
  method IngestAll(facts: seq<Fact>) returns (reducer: Reducer)
    ensures Output(reducer.View(), reducer.out) == Run(INITIAL, facts)
  {
    reducer := new Reducer();
    ghost var runs := RunTrace(INITIAL, facts);
    for i := 0 to |facts|
      invariant Output(reducer.View(), reducer.out) == runs[i]
    {
      reducer.IngestFact(facts[i]);
    }
    assert facts[..|facts|] == facts;
  }

  method CountImages(input: seq<UserInput>) returns (n: nat)
    ensures n == ImageCount(input)
  {
    n := 0;
    for i := 0 to |input|
      invariant n == ImageCount(input[..i])
    {
      assert input[..i + 1][..i] == input[..i];
      if input[i].Image? || input[i].LocalImage? {
        n := n + 1;
      }
    }
    assert input[..|input|] == input;
  }
}

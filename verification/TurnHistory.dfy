/** What the reducer reports about steers and threads, told from the facts: which request
    a response answers, and what its event says. */
module TurnHistory {
  import opened Common
  import opened TurnAnalytics
  import opened TurnLaws

  // ----- requests -----

  predicate Asks(f: Fact, key: RequestKey) {
    (f.TurnStartRequest? || f.TurnSteerRequest?) && (f.connection, f.request) == key
  }

  predicate Answers(f: Fact, key: RequestKey) {
    (f.TurnStartResponse? || f.TurnSteerResponse? || f.ErrorResponse?) && (f.connection, f.request) == key
  }

  /** The request at a position is neither answered nor replaced by what follows. */
  ghost predicate Pends(facts: seq<Fact>, i: nat, key: RequestKey) {
    && i < |facts| && Asks(facts[i], key)
    && forall j | i < j < |facts| :: !Asks(facts[j], key) && !Answers(facts[j], key)
  }

  /** How many of the inputs are images, remote or local. */
  function Images(input: seq<UserInput>): nat {
    multiset(input)[Image] + multiset(input)[LocalImage]
  }

  lemma {:induction false} ImagesCounted(input: seq<UserInput>)
    ensures ImageCount(input) == Images(input)
  {
    if input != [] {
      var n := |input| - 1;
      assert input == input[..n] + [input[n]];
      ImagesCounted(input[..n]);
    }
  }

  /** What is kept of a request until it is answered. */
  function Kept(f: Fact): Pending
    requires f.TurnStartRequest? || f.TurnSteerRequest?
  {
    if f.TurnStartRequest? then TurnStart(f.thread, Images(f.input))
    else TurnSteer(f.thread, f.expectedTurn, Images(f.input), f.now)
  }

  lemma RequestStep(s: State, f: Fact, key: RequestKey)
    ensures var after := Ingest(s, f).state.requests;
            if Asks(f, key) then key in after && after[key] == Kept(f)
            else if Answers(f, key) then key !in after
            else (key in after <==> key in s.requests) && (key in after ==> after[key] == s.requests[key])
  {
    IngestRequests(s, f);
    if f.TurnStartRequest? || f.TurnSteerRequest? {
      ImagesCounted(f.input);
    }
  }

  /** The pending requests are exactly those asked and neither answered nor replaced
      since, as they were asked. */
  lemma {:induction false} PendingByHistory(facts: seq<Fact>, key: RequestKey)
    ensures var requests := Run(INITIAL, facts).state.requests;
            && (key in requests <==> exists i: nat :: Pends(facts, i, key))
            && (forall i: nat | Pends(facts, i, key) :: key in requests && requests[key] == Kept(facts[i]))
  {
    if facts != [] {
      var n := |facts| - 1;
      var init, last := facts[..n], facts[n];
      PendingByHistory(init, key);
      RunOneMore(INITIAL, facts, n);
      assert facts[..n + 1] == facts;
      RequestStep(Run(INITIAL, init).state, last, key);
      forall i: nat ensures Pends(facts, i, key) <==>
                            (i == n && Asks(last, key)) ||
                            (i < n && Pends(init, i, key) && !Asks(last, key) && !Answers(last, key))
      {
        PendsOneMore(facts, i, key);
      }
      if Asks(last, key) {
        assert Pends(facts, n, key);
      } else if !Answers(last, key) {
        if i: nat :| Pends(init, i, key) {
          assert Pends(facts, i, key);
        }
      }
    }
  }

  lemma PendsOneMore(facts: seq<Fact>, i: nat, key: RequestKey)
    requires facts != []
    ensures var n := |facts| - 1;
            Pends(facts, i, key) <==>
            (i == n && Asks(facts[n], key)) ||
            (i < n && Pends(facts[..n], i, key) && !Asks(facts[n], key) && !Answers(facts[n], key))
  {
  }

  // ----- connections -----

  /** The client that the last initialization of a connection names. */
  ghost predicate Registered(facts: seq<Fact>, connection: nat, client: string) {
    exists i: nat | i < |facts| ::
      && facts[i] == Initialize(connection, client)
      && forall j | i < j < |facts| :: !(facts[j].Initialize? && facts[j].connection == connection)
  }

  lemma ConnectionStep(s: State, f: Fact, connection: nat)
    ensures ClientOf(Ingest(s, f).state, connection) ==
            if f.Initialize? && f.connection == connection then Some(f.client) else ClientOf(s, connection)
  {
  }

  lemma RegisteredOneMore(facts: seq<Fact>, connection: nat, client: string)
    requires facts != []
    ensures var init, last := facts[..|facts| - 1], facts[|facts| - 1];
            Registered(facts, connection, client) <==>
            if last.Initialize? && last.connection == connection then last.client == client
            else Registered(init, connection, client)
  {
    var n := |facts| - 1;
    var init, last := facts[..n], facts[n];
    if Registered(init, connection, client) && !(last.Initialize? && last.connection == connection) {
      var i: nat :| i < |init| && init[i] == Initialize(connection, client) &&
                    forall j | i < j < |init| :: !(init[j].Initialize? && init[j].connection == connection);
      assert facts[i] == Initialize(connection, client);
    }
    if last == Initialize(connection, client) {
      assert facts[n] == Initialize(connection, client);
    }
    if Registered(facts, connection, client) && !(last.Initialize? && last.connection == connection) {
      var i: nat :| i < |facts| && facts[i] == Initialize(connection, client) &&
                    forall j | i < j < |facts| :: !(facts[j].Initialize? && facts[j].connection == connection);
      assert init[i] == Initialize(connection, client);
    }
  }

  lemma {:induction false} RegisteredByHistory(facts: seq<Fact>, connection: nat, client: string)
    ensures ClientOf(Run(INITIAL, facts).state, connection) == Some(client) <==> Registered(facts, connection, client)
  {
    if facts != [] {
      var n := |facts| - 1;
      RegisteredByHistory(facts[..n], connection, client);
      RunOneMore(INITIAL, facts, n);
      assert facts[..n + 1] == facts;
      ConnectionStep(Run(INITIAL, facts[..n]).state, facts[n], connection);
      RegisteredOneMore(facts, connection, client);
    }
  }

  // ----- steer events -----

  /** What is reported about a steer request: accepted for a turn by a response, rejected
      for a reason by an error. */
  function SteerFor(ask: Fact, f: Fact, client: string, meta: ThreadMeta): Event
    requires ask.TurnSteerRequest? && (f.TurnSteerResponse? || f.ErrorResponse?)
  {
    SteerEvent(ask.thread, ask.expectedTurn, if f.ErrorResponse? then None else Some(f.turn), client, meta,
               Images(ask.input), if f.ErrorResponse? then f.reason else None, ask.now)
  }

  /** Over every run, the response or error that answers a pending steer request on a
      registered connection, for a thread with metadata, gives exactly its event. */
  lemma SteerReported(facts: seq<Fact>, i: nat, f: Fact, client: string)
    requires f.TurnSteerResponse? || f.ErrorResponse?
    requires Pends(facts, i, (f.connection, f.request)) && facts[i].TurnSteerRequest?
    requires Registered(facts, f.connection, client)
    ensures var s := Run(INITIAL, facts).state;
            var meta := MetadataOf(s, facts[i].thread);
            Ingest(s, f).events == if meta.Some? then [SteerFor(facts[i], f, client, meta.value)] else []
  {
    var key := (f.connection, f.request);
    PendingByHistory(facts, key);
    RegisteredByHistory(facts, f.connection, client);
    ImagesCounted(facts[i].input);
    SteerOutcome(Run(INITIAL, facts).state, f, Kept(facts[i]), client);
  }

  lemma SteerOutcome(s: State, f: Fact, p: Pending, client: string)
    requires f.TurnSteerResponse? || f.ErrorResponse?
    requires p.TurnSteer? && (f.connection, f.request) in s.requests && s.requests[(f.connection, f.request)] == p
    requires ClientOf(s, f.connection) == Some(client)
    ensures var meta := MetadataOf(s, p.thread);
            Ingest(s, f).events ==
              if meta.None? then []
              else [SteerEvent(p.thread, p.expectedTurn, if f.ErrorResponse? then None else Some(f.turn), client,
                               meta.value, p.images, if f.ErrorResponse? then f.reason else None, p.createdAt)]
  {
  }

  // ----- threads -----

  /** The metadata that a response about a thread gives: a sub-agent's name and parent
      come from its session. */
  function MetaFor(f: Fact): ThreadMeta
    requires f.ThreadResponse?
  {
    ThreadMeta(f.source, f.mode,
               if f.session.SubAgent? then Some(f.session.name) else None,
               if f.session.SubAgent? then f.session.parent else None)
  }

  /** The parent of a sub-agent: the one it is given, or else the one its source knows. */
  function ParentFor(f: Fact): Option<string>
    requires f.SubAgentStarted?
  {
    match f.explicitParent
    case Some(parent) => Some(parent)
    case None => f.sourceParent
  }

  function SubAgentMeta(f: Fact): ThreadMeta
    requires f.SubAgentStarted?
  {
    ThreadMeta(Some("subagent"), NewThread, Some(f.name), ParentFor(f))
  }

  /** The fact at a position is a response about the thread on a registered connection. */
  ghost predicate Announces(facts: seq<Fact>, i: nat, thread: string) {
    && i < |facts| && facts[i].ThreadResponse? && facts[i].thread == thread
    && exists client :: Registered(facts[..i], facts[i].connection, client)
  }

  predicate StartsSubAgent(f: Fact, thread: string) {
    f.SubAgentStarted? && f.thread == thread
  }

  /** What one fact does to one thread. */
  lemma ThreadStep(s: State, f: Fact, thread: string)
    ensures var after := Ingest(s, f).state.threads;
            if f.ThreadResponse? && f.thread == thread && ClientOf(s, f.connection).Some? then
              thread in after && after[thread] == Thread(Some(f.connection), Some(MetaFor(f)))
            else if StartsSubAgent(f, thread) then
              && thread in after
              && after[thread].metadata ==
                   (if MetadataOf(s, thread).Some? then MetadataOf(s, thread) else Some(SubAgentMeta(f)))
              && after[thread].connection ==
                   (if OnConnection(s, thread).Some? then OnConnection(s, thread)
                    else if ParentFor(f).Some? then OnConnection(s, ParentFor(f).value) else None)
            else (thread in after <==> thread in s.threads) && (thread in after ==> after[thread] == s.threads[thread])
  {
  }

  /** The connection that a thread is on. */
  function OnConnection(s: State, thread: string): Option<nat> {
    if thread in s.threads then s.threads[thread].connection else None
  }

  lemma AnnouncesIff(facts: seq<Fact>, n: nat, thread: string)
    requires n < |facts|
    ensures Announces(facts, n, thread) <==>
            && facts[n].ThreadResponse? && facts[n].thread == thread
            && ClientOf(Run(INITIAL, facts[..n]).state, facts[n].connection).Some?
  {
    if facts[n].ThreadResponse? {
      var client := ClientOf(Run(INITIAL, facts[..n]).state, facts[n].connection);
      forall c ensures client == Some(c) <==> Registered(facts[..n], facts[n].connection, c) {
        RegisteredByHistory(facts[..n], facts[n].connection, c);
      }
    }
  }

  lemma AnnouncesBefore(facts: seq<Fact>, n: nat, i: nat, thread: string)
    requires i < n <= |facts|
    ensures Announces(facts[..n], i, thread) <==> Announces(facts, i, thread)
  {
    assert facts[..n][..i] == facts[..i] && facts[..n][i] == facts[i];
  }

  /** A thread is as the last response about it on a registered connection says. */
  lemma {:induction false} ThreadAnnounced(facts: seq<Fact>, i: nat, thread: string)
    requires Announces(facts, i, thread) && forall j: nat | i < j :: !Announces(facts, j, thread)
    ensures var s := Run(INITIAL, facts).state;
            thread in s.threads && s.threads[thread] == Thread(Some(facts[i].connection), Some(MetaFor(facts[i])))
  {
    var n := |facts| - 1;
    RunOneMore(INITIAL, facts, n);
    assert facts[..n + 1] == facts;
    AnnouncesIff(facts, n, thread);
    ThreadStep(Run(INITIAL, facts[..n]).state, facts[n], thread);
    if i < n {
      AnnouncesBefore(facts, n, i, thread);
      forall j: nat | i < j ensures !Announces(facts[..n], j, thread) {
        if j < n {
          AnnouncesBefore(facts, n, j, thread);
        }
      }
      ThreadAnnounced(facts[..n], i, thread);
    }
  }

  ghost predicate Unannounced(facts: seq<Fact>, thread: string) {
    forall j: nat :: !Announces(facts, j, thread)
  }

  lemma UnannouncedBefore(facts: seq<Fact>, n: nat, thread: string)
    requires n < |facts| && Unannounced(facts, thread)
    ensures Unannounced(facts[..n], thread)
    ensures !(facts[n].ThreadResponse? && facts[n].thread == thread &&
              ClientOf(Run(INITIAL, facts[..n]).state, facts[n].connection).Some?)
  {
    AnnouncesIff(facts, n, thread);
    forall j: nat ensures !Announces(facts[..n], j, thread) {
      if j < n {
        AnnouncesBefore(facts, n, j, thread);
      }
    }
  }

  /** A thread about which there was no such response and that was never started as a
      sub-agent is not known. */
  lemma {:induction false} ThreadUnknown(facts: seq<Fact>, thread: string)
    requires Unannounced(facts, thread) && forall i | 0 <= i < |facts| :: !StartsSubAgent(facts[i], thread)
    ensures thread !in Run(INITIAL, facts).state.threads
  {
    if facts != [] {
      var n := |facts| - 1;
      RunOneMore(INITIAL, facts, n);
      assert facts[..n + 1] == facts;
      UnannouncedBefore(facts, n, thread);
      ThreadUnknown(facts[..n], thread);
      ThreadStep(Run(INITIAL, facts[..n]).state, facts[n], thread);
    }
  }

  /** A thread about which there was no such response has the metadata of its first start
      as a sub-agent. */
  lemma {:induction false} ThreadStarted(facts: seq<Fact>, i: nat, thread: string)
    requires Unannounced(facts, thread) && i < |facts| && StartsSubAgent(facts[i], thread)
    requires forall j | 0 <= j < i :: !StartsSubAgent(facts[j], thread)
    ensures MetadataOf(Run(INITIAL, facts).state, thread) == Some(SubAgentMeta(facts[i]))
  {
    var n := |facts| - 1;
    RunOneMore(INITIAL, facts, n);
    assert facts[..n + 1] == facts;
    UnannouncedBefore(facts, n, thread);
    ThreadStep(Run(INITIAL, facts[..n]).state, facts[n], thread);
    if i == n {
      ThreadUnknown(facts[..n], thread);
    } else {
      ThreadStarted(facts[..n], i, thread);
    }
  }

  /** What is reported about threads: a response on a registered connection names the
      client and the metadata, and a sub-agent is reported with its parent. */
  lemma ThreadReported(facts: seq<Fact>, f: Fact)
    requires f.ThreadResponse? || f.SubAgentStarted?
    ensures var events := Ingest(Run(INITIAL, facts).state, f).events;
            && (f.SubAgentStarted? ==> events == [SubAgentInitialized(f.thread, f.name, ParentFor(f))])
            && (f.ThreadResponse? ==> forall client | Registered(facts, f.connection, client) ::
                  events == [ThreadInitialized(f.thread, client, MetaFor(f))])
            && (f.ThreadResponse? && (forall client :: !Registered(facts, f.connection, client)) ==> events == [])
  {
    if f.ThreadResponse? {
      forall client ensures ClientOf(Run(INITIAL, facts).state, f.connection) == Some(client) <==>
                            Registered(facts, f.connection, client)
      {
        RegisteredByHistory(facts, f.connection, client);
      }
      var known := ClientOf(Run(INITIAL, facts).state, f.connection);
      assert known.Some? ==> Registered(facts, f.connection, known.value);
    }
  }
}

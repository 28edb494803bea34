/** What the analytics reducer promises over whole runs: no fact about a turn is
    spent twice, and steers are counted once. */
module TurnLaws {
  import opened Common
  import opened TurnAnalytics

  function Bit(b: bool): nat {
    if b then 1 else 0
  }

  // ----- the events of one turn -----

  predicate IsTurnEventFor(e: Event, id: string) {
    e.TurnEvent? && e.turn == id
  }

  function TurnEvents(events: seq<Event>, id: string): seq<Event> {
    if events == [] then []
    else
      var last := events[|events| - 1];
      TurnEvents(events[..|events| - 1], id) + if IsTurnEventFor(last, id) then [last] else []
  }

  lemma {:induction false} TurnEventsConcat(a: seq<Event>, b: seq<Event>, id: string)
    ensures TurnEvents(a + b, id) == TurnEvents(a, id) + TurnEvents(b, id)
    decreases |b|
  {
    if b == [] {
      assert a + b == a;
    } else {
      assert (a + b)[..|a + b| - 1] == a + b[..|b| - 1];
      TurnEventsConcat(a, b[..|b| - 1], id);
    }
  }

  lemma {:induction false} NoTurnEvents(events: seq<Event>, id: string)
    requires forall i | 0 <= i < |events| :: !IsTurnEventFor(events[i], id)
    ensures TurnEvents(events, id) == []
  {
    if events != [] {
      NoTurnEvents(events[..|events| - 1], id);
    }
  }

  predicate Matches(s: State, f: Fact, steer: bool) {
    (f.TurnStartResponse? || f.TurnSteerResponse?) &&
    (f.connection, f.request) in s.requests && s.requests[(f.connection, f.request)].TurnSteer? == steer
  }

  /** The fact can make the turn reportable. */
  predicate Completes(s: State, f: Fact, id: string) {
    match f
    case TurnStartResponse(_, _, turn) => turn == id && Matches(s, f, false)
    case TurnCompleted(turn, _, _, _, _) => turn == id
    case ResolvedConfig(turn, _, _, _) => turn == id
    case TokenUsage(turn, _, _) => turn == id
    case _ => false
  }

  /** A steer of the turn was accepted while the turn was known. */
  predicate Steers(s: State, f: Fact, id: string) {
    f.TurnSteerResponse? && f.turn == id && Matches(s, f, true) && id in s.turns
  }

  /** What the fact says about the turn, added to what was known. */
  function Patched(s: State, f: Fact, id: string): Turn {
    var turn := TurnOf(s, id);
    if Steers(s, f, id) then turn.(steers := turn.steers + 1)
    else if f.TurnStarted? && f.turn == id then turn.(startedAt := Unsigned(f.at))
    else if !Completes(s, f, id) then turn
    else
      match f
      case TurnStartResponse(connection, request, _) =>
        var p := s.requests[(connection, request)];
        turn.(connection := Some(connection), thread := Some(p.thread), images := Some(p.images))
      case TurnCompleted(_, _, _, _, _) => turn.(completed := Some(CompletionOf(f)))
      case ResolvedConfig(_, thread, images, config) => turn.(thread := Some(thread), images := Some(images),
          config := Some(config))
      case TokenUsage(_, thread, usage) => turn.(thread := Some(thread), usage := Some(usage))
      case _ => turn
  }

  /** The event the fact makes the turn give, if any. */
  function Report(s: State, f: Fact, id: string): Option<Event> {
    if Completes(s, f, id) then TurnEventOf(UpdateTurn(s, id, Patched(s, f, id)), id) else None
  }

  lemma EmitTurn(s: State, turn: string, id: string)
    ensures var o := MaybeEmit(s, turn);
            var event := TurnEventOf(s, turn);
            && TurnEvents(o.events, id) == (if turn == id && event.Some? then [event.value] else [])
            && TurnOf(o.state, id) == (if turn == id && event.Some? then NEW_TURN else TurnOf(s, id))
            && (turn == id && event.Some? ==> id !in o.state.turns)
            && (turn != id ==> (id in o.state.turns <==> id in s.turns))
  {
    var o := MaybeEmit(s, turn);
    if o.events != [] {
      assert o.events[..0] == [];
      assert TurnEvents(o.events[..0], id) == [];
    }
  }

  /** What an output leaves of a turn: it reported it and forgot it, or knows this much. */
  predicate Leaves(o: Output, id: string, report: Option<Event>, turn: Turn) {
    if report.Some? then TurnEvents(o.events, id) == [report.value] && id !in o.state.turns
    else TurnEvents(o.events, id) == [] && TurnOf(o.state, id) == turn
  }

  /** A fact about a turn updates that turn and then reports it if possible. */
  predicate Reporting(s: State, f: Fact) {
    f.TurnCompleted? || f.ResolvedConfig? || f.TokenUsage? || (f.TurnStartResponse? && Matches(s, f, false))
  }

  lemma IngestReporting(s: State, f: Fact)
    requires Reporting(s, f)
    ensures var rest := if f.TurnStartResponse? then s.(requests := s.requests - {(f.connection, f.request)}) else s;
            Ingest(s, f) == MaybeEmit(UpdateTurn(rest, f.turn, Patched(s, f, f.turn)), f.turn)
  {
  }

  lemma IngestQuiet(s: State, f: Fact, id: string)
    requires !Reporting(s, f)
    ensures var o := Ingest(s, f);
            TurnOf(o.state, id) == Patched(s, f, id) && forall i | 0 <= i < |o.events| ::
                !IsTurnEventFor(o.events[i], id)
  {
  }

  lemma ReportAt(s: State, f: Fact, rest: State, id: string)
    requires Reporting(s, f) && f.turn == id
    requires rest.turns == s.turns && rest.connections == s.connections && rest.threads == s.threads
    ensures Report(s, f, id) == TurnEventOf(UpdateTurn(rest, id, Patched(s, f, id)), id)
  {
  }

  /** Everything ingesting a fact does to one turn. */
  lemma IngestTurn(s: State, f: Fact, id: string)
    ensures Leaves(Ingest(s, f), id, Report(s, f, id), Patched(s, f, id))
  {
    if Reporting(s, f) {
      var rest := if f.TurnStartResponse? then s.(requests := s.requests - {(f.connection, f.request)}) else s;
      IngestReporting(s, f);
      EmitTurn(UpdateTurn(rest, f.turn, Patched(s, f, f.turn)), f.turn, id);
      ReportAt(s, f, rest, f.turn);
    } else {
      IngestQuiet(s, f, id);
      NoTurnEvents(Ingest(s, f).events, id);
    }
  }

  // ----- conservation -----

  datatype Part = CompletionPart | ConfigPart | StartPart

  predicate Has(turn: Turn, part: Part) {
    match part
    case CompletionPart => turn.completed.Some?
    case ConfigPart => turn.config.Some?
    case StartPart => turn.connection.Some?
  }

  /** The fact brings the part for the turn. */
  predicate Brings(s: State, f: Fact, id: string, part: Part) {
    match part
    case CompletionPart => f.TurnCompleted? && f.turn == id
    case ConfigPart => f.ResolvedConfig? && f.turn == id
    case StartPart => f.TurnStartResponse? && f.turn == id && Matches(s, f, false)
  }

  lemma StepConserves(s: State, f: Fact, id: string, part: Part)
    ensures var o := Ingest(s, f);
            |TurnEvents(o.events, id)| + Bit(Has(TurnOf(o.state, id), part)) +
                Bit(Brings(s, f, id, part) && Has(TurnOf(s, id), part))
            == Bit(Has(TurnOf(s, id), part)) + Bit(Brings(s, f, id, part))
  {
    IngestTurn(s, f, id);
  }

  /** How often a run brings the part, and how often it replaces one already held. */
  function Brought(s: State, facts: seq<Fact>, id: string, part: Part): nat
    decreases |facts|
  {
    if facts == [] then 0
    else Bit(Brings(s, facts[0], id, part)) + Brought(Ingest(s, facts[0]).state, facts[1..], id, part)
  }

  function Replaced(s: State, facts: seq<Fact>, id: string, part: Part): nat
    decreases |facts|
  {
    if facts == [] then 0
    else Bit(Brings(s, facts[0], id, part) && Has(TurnOf(s, id), part))
         + Replaced(Ingest(s, facts[0]).state, facts[1..], id, part)
  }

  /** Over every run and for every turn, each completion, resolved config and matched
      start response is spent on one event, still held, or replaced by a later one. */
  lemma {:induction false} TurnConservation(s: State, facts: seq<Fact>, id: string, part: Part)
    ensures var o := Run(s, facts);
            |TurnEvents(o.events, id)| + Bit(Has(TurnOf(o.state, id), part)) + Replaced(s, facts, id, part)
            == Bit(Has(TurnOf(s, id), part)) + Brought(s, facts, id, part)
    decreases |facts|
  {
    if facts != [] {
      var first := Ingest(s, facts[0]);
      StepConserves(s, facts[0], id, part);
      TurnConservation(first.state, facts[1..], id, part);
      TurnEventsConcat(first.events, Run(first.state, facts[1..]).events, id);
    }
  }

  // ----- steers -----

  function SteerSum(events: seq<Event>): nat {
    if events == [] then 0
    else
      var last := events[|events| - 1];
      SteerSum(events[..|events| - 1]) + if last.TurnEvent? then last.steers else 0
  }

  lemma {:induction false} SteerSumConcat(a: seq<Event>, b: seq<Event>)
    ensures SteerSum(a + b) == SteerSum(a) + SteerSum(b)
    decreases |b|
  {
    if b == [] {
      assert a + b == a;
    } else {
      assert (a + b)[..|a + b| - 1] == a + b[..|b| - 1];
      SteerSumConcat(a, b[..|b| - 1]);
    }
  }

  function Accepted(s: State, facts: seq<Fact>, id: string): nat
    decreases |facts|
  {
    if facts == [] then 0 else Bit(Steers(s, facts[0], id)) + Accepted(Ingest(s, facts[0]).state, facts[1..], id)
  }

  lemma ReportSteers(s: State, f: Fact, id: string)
    ensures Patched(s, f, id).steers == TurnOf(s, id).steers + Bit(Steers(s, f, id))
    ensures var report := Report(s, f, id);
            report.Some? ==> report.value.TurnEvent? && report.value.steers == Patched(s, f, id).steers
  {
  }

  lemma SteerSumOne(e: Event)
    ensures SteerSum([e]) == if e.TurnEvent? then e.steers else 0
  {
    assert [e][..0] == [];
  }

  lemma StepSteers(s: State, f: Fact, id: string)
    ensures var o := Ingest(s, f);
            SteerSum(TurnEvents(o.events, id)) + TurnOf(o.state, id).steers ==
                TurnOf(s, id).steers + Bit(Steers(s, f, id))
  {
    var o, report := Ingest(s, f), Report(s, f, id);
    IngestTurn(s, f, id);
    ReportSteers(s, f, id);
    if report.Some? {
      SteerSumOne(report.value);
    }
  }

  /** The steers reported for a turn and those still counted are exactly the accepted
      steers that named the turn while it was known. */
  lemma {:induction false} SteerAccounting(s: State, facts: seq<Fact>, id: string)
    ensures var o := Run(s, facts);
            SteerSum(TurnEvents(o.events, id)) + TurnOf(o.state, id).steers ==
                TurnOf(s, id).steers + Accepted(s, facts, id)
    decreases |facts|
  {
    if facts != [] {
      var first := Ingest(s, facts[0]);
      var rest := Run(first.state, facts[1..]);
      StepSteers(s, facts[0], id);
      SteerAccounting(first.state, facts[1..], id);
      TurnEventsConcat(first.events, rest.events, id);
      SteerSumConcat(TurnEvents(first.events, id), TurnEvents(rest.events, id));
    }
  }

  function SteerEvents(events: seq<Event>): nat {
    if events == [] then 0 else SteerEvents(events[..|events| - 1]) + Bit(events[|events| - 1].SteerEvent?)
  }

  lemma {:induction false} SteerEventsConcat(a: seq<Event>, b: seq<Event>)
    ensures SteerEvents(a + b) == SteerEvents(a) + SteerEvents(b)
    decreases |b|
  {
    if b == [] {
      assert a + b == a;
    } else {
      assert (a + b)[..|a + b| - 1] == a + b[..|b| - 1];
      SteerEventsConcat(a, b[..|b| - 1]);
    }
  }

  lemma {:induction false} NoSteerEvents(events: seq<Event>)
    requires forall i | 0 <= i < |events| :: !events[i].SteerEvent?
    ensures SteerEvents(events) == 0
  {
    if events != [] {
      NoSteerEvents(events[..|events| - 1]);
    }
  }

  function WaitingSteers(requests: map<RequestKey, Pending>): set<RequestKey> {
    set k | k in requests && requests[k].TurnSteer?
  }

  /** The request a fact takes off the pending requests, if it is there. */
  function Takes(f: Fact): Option<RequestKey> {
    if f.TurnStartResponse? || f.TurnSteerResponse? || f.ErrorResponse? then Some((f.connection, f.request)) else None
  }

  /** What a fact does to the pending requests. */
  predicate RequestsMove(before: map<RequestKey, Pending>, after: map<RequestKey, Pending>, f: Fact) {
    if Takes(f).Some? then after == before - {Takes(f).value}
    else if f.TurnSteerRequest? then
      after == before[(f.connection, f.request) := TurnSteer(f.thread, f.expectedTurn, ImageCount(f.input), f.now)]
    else if f.TurnStartRequest? then
      after == before[(f.connection, f.request) := TurnStart(f.thread, ImageCount(f.input))]
    else after == before
  }

  lemma IngestRequests(s: State, f: Fact)
    ensures RequestsMove(s.requests, Ingest(s, f).state.requests, f)
  {
    if Takes(f).Some? && Takes(f).value !in s.requests {
      assert s.requests - {Takes(f).value} == s.requests;
    }
  }

  /** The fact takes a waiting steer off the pending requests. */
  predicate TakesSteer(s: State, f: Fact) {
    Takes(f).Some? && Takes(f).value in s.requests && s.requests[Takes(f).value].TurnSteer?
  }

  /** The fact puts another request in the place of a waiting steer. */
  predicate ReplacesSteer(s: State, f: Fact) {
    (f.TurnStartRequest? || f.TurnSteerRequest?) && (f.connection, f.request) in s.requests &&
    s.requests[(f.connection, f.request)].TurnSteer?
  }

  /** The fact answers a waiting steer whose connection is registered and whose thread has
      metadata. */
  predicate ReportsSteer(s: State, f: Fact) {
    && TakesSteer(s, f) && !f.TurnStartResponse? && f.connection in s.connections
    && var thread := s.requests[Takes(f).value].thread;
    && thread in s.threads && s.threads[thread].metadata.Some?
  }

  lemma WaitingMove(s: State, after: map<RequestKey, Pending>, f: Fact)
    requires RequestsMove(s.requests, after, f)
    ensures |WaitingSteers(after)| + Bit(TakesSteer(s, f)) + Bit(ReplacesSteer(s, f)) ==
            |WaitingSteers(s.requests)| + Bit(f.TurnSteerRequest?)
  {
    if Takes(f).Some? {
      WaitingLeft(s.requests, Takes(f).value);
    } else if f.TurnSteerRequest? || f.TurnStartRequest? {
      WaitingAdded(s.requests, (f.connection, f.request), after[(f.connection, f.request)]);
    }
  }

  lemma WaitingLeft(requests: map<RequestKey, Pending>, key: RequestKey)
    ensures |WaitingSteers(requests - {key})| + Bit(key in WaitingSteers(requests)) == |WaitingSteers(requests)|
  {
    assert WaitingSteers(requests - {key}) == WaitingSteers(requests) - {key};
    WithoutKey(WaitingSteers(requests), key);
  }

  lemma WaitingAdded(requests: map<RequestKey, Pending>, key: RequestKey, p: Pending)
    ensures |WaitingSteers(requests[key := p])| + Bit(key in WaitingSteers(requests)) ==
            |WaitingSteers(requests)| + Bit(p.TurnSteer?)
  {
    var waiting := WaitingSteers(requests);
    assert WaitingSteers(requests[key := p]) == if p.TurnSteer? then waiting + {key} else waiting - {key};
    WithKey(waiting, key);
    WithoutKey(waiting, key);
  }

  lemma WithoutKey(keys: set<RequestKey>, key: RequestKey)
    ensures |keys - {key}| + Bit(key in keys) == |keys|
  {
    assert key !in keys ==> keys - {key} == keys;
  }

  lemma WithKey(keys: set<RequestKey>, key: RequestKey)
    ensures |keys + {key}| + Bit(key in keys) == |keys| + 1
  {
    assert key in keys ==> keys + {key} == keys;
  }

  /** A fact gives one steer event if it answers such a steer, and none otherwise. */
  lemma IngestSteerEvents(s: State, f: Fact)
    ensures SteerEvents(Ingest(s, f).events) == Bit(ReportsSteer(s, f))
  {
    var events := Ingest(s, f).events;
    if ReportsSteer(s, f) {
      assert |events| == 1 && events[..0] == [];
      assert SteerEvents([]) == 0;
    } else {
      NoSteerEvents(events);
    }
  }

  /** How many waiting steers a fact loses without an event. */
  function LosesSteers(s: State, f: Fact): nat {
    Bit(TakesSteer(s, f) && !ReportsSteer(s, f)) + Bit(ReplacesSteer(s, f))
  }

  lemma StepSteerRequests(s: State, f: Fact)
    ensures var o := Ingest(s, f);
            SteerEvents(o.events) + |WaitingSteers(o.state.requests)| + LosesSteers(s, f) ==
              |WaitingSteers(s.requests)| + Bit(f.TurnSteerRequest?)
  {
    IngestRequests(s, f);
    IngestSteerEvents(s, f);
    WaitingMove(s, Ingest(s, f).state.requests, f);
  }

  function SteerRequests(facts: seq<Fact>): nat {
    if facts == [] then 0 else Bit(facts[0].TurnSteerRequest?) + SteerRequests(facts[1..])
  }

  function LostSteers(s: State, facts: seq<Fact>): nat
    decreases |facts|
  {
    if facts == [] then 0 else LosesSteers(s, facts[0]) + LostSteers(Ingest(s, facts[0]).state, facts[1..])
  }

  /** Every steer request gives one steer event, still waits, or was lost: replaced by
      another request, answered as something else, or answered without a registered
      connection or metadata of its thread. */
  lemma {:induction false} SteerRequestsSpentOnce(s: State, facts: seq<Fact>)
    ensures var o := Run(s, facts);
            SteerEvents(o.events) + |WaitingSteers(o.state.requests)| + LostSteers(s, facts) ==
              |WaitingSteers(s.requests)| + SteerRequests(facts)
    decreases |facts|
  {
    if facts != [] {
      var first := Ingest(s, facts[0]);
      StepSteerRequests(s, facts[0]);
      SteerRequestsSpentOnce(first.state, facts[1..]);
      SteerEventsConcat(first.events, Run(first.state, facts[1..]).events);
    }
  }

  /** In every reachable state a thread-scoped event is dropped only for want of a
      connection on the thread: never because that connection or the thread's
      metadata is missing. Otherwise it names the client and the metadata. */
  lemma DropsOnlyWithoutConnection(facts: seq<Fact>, thread: string)
    ensures var s := Run(INITIAL, facts).state;
            var connected := thread in s.threads && s.threads[thread].connection.Some?;
            if connected then
              var client := ClientOf(s, s.threads[thread].connection.value);
              && client.Some? && MetadataOf(s, thread).Some?
              && Ingest(s, GuardianReview(thread)).events == [GuardianEvent(thread, client.value)]
              && Ingest(s, Compaction(thread)).events ==
                   [CompactionEvent(thread, client.value, MetadataOf(s, thread).value)]
            else Ingest(s, GuardianReview(thread)).events == [] == Ingest(s, Compaction(thread)).events
  {
    RunContextual(INITIAL, facts);
  }
}

/** The join of the three facts that make up a turn event: whatever their order and
    whatever else is reported meanwhile, there is exactly one event, and the last of
    the three gives it. */
module TurnJoin {
  import opened Common
  import opened TurnAnalytics
  import opened TurnLaws

  // ----- the facts of a turn -----

  /** What the three facts say, agreeing on the thread and the image count. */
  datatype Join = Join(
    turn: string,
    connection: nat,
    request: RequestId,
    thread: string,
    images: nat,
    config: string,
    status: Status,
    error: Option<string>,
    at: Option<int>,
    duration: Option<int>)

  datatype Core = StartCore | ConfigCore | CompletionCore

  const ALL := {StartCore, ConfigCore, CompletionCore}

  function CoreFact(j: Join, c: Core): Fact {
    match c
    case StartCore => TurnStartResponse(j.connection, j.request, j.turn)
    case ConfigCore => ResolvedConfig(j.turn, j.thread, j.images, j.config)
    case CompletionCore => TurnCompleted(j.turn, j.status, j.error, j.at, j.duration)
  }

  /** The fact is none of the three and leaves alone the connection, the pending
      request and the thread that they need. It may report token usage, the start or
      an accepted steer of the turn itself. */
  predicate Aside(s: State, j: Join, f: Fact) {
    var key := (j.connection, j.request);
    match f
    case Initialize(connection, _) => connection != j.connection
    case TurnStartRequest(connection, request, _, _) => (connection, request) != key
    case TurnSteerRequest(connection, request, _, _, _, _) => (connection, request) != key
    case TurnStartResponse(connection, request, turn) =>
      (connection, request) != key && (turn == j.turn ==> !Matches(s, f, false))
    case TurnSteerResponse(connection, request, _) => (connection, request) != key
    case ErrorResponse(connection, request, _) => (connection, request) != key
    case ThreadResponse(_, thread, _, _, _) => thread != j.thread
    case TurnCompleted(turn, _, _, _, _) => turn != j.turn
    case ResolvedConfig(turn, _, _, _) => turn != j.turn
    case TokenUsage(turn, thread, _) => turn == j.turn ==> thread == j.thread
    case _ => true
  }

  function NotNegative(n: Option<int>): Option<nat> {
    match n
    case Some(value) => if value < 0 then None else Some(value)
    case None => None
  }

  /** How the turn ended: its status unless it is in progress, its error, when, with 0 for
      an unknown or negative time, and how long it took. */
  function Ending(j: Join): Completion {
    var at := NotNegative(j.at);
    Completion(if j.status == InProgress then None else Some(j.status), j.error,
               if at == None then 0 else at.value, NotNegative(j.duration))
  }

  /** When the turn started, as the last fact about it says. */
  function LastStarted(facts: seq<Fact>, id: string): Option<nat> {
    if facts == [] then None
    else
      var f := facts[|facts| - 1];
      if f.TurnStarted? && f.turn == id then NotNegative(f.at) else LastStarted(facts[..|facts| - 1], id)
  }

  /** The token usage of the turn, as the last fact about it says. */
  function LastUsage(facts: seq<Fact>, id: string): Option<string> {
    if facts == [] then None
    else
      var f := facts[|facts| - 1];
      if f.TokenUsage? && f.turn == id then Some(f.usage) else LastUsage(facts[..|facts| - 1], id)
  }

  /** What is known about the turn, but for its steers. */
  function TurnFor(j: Join, seen: set<Core>, facts: seq<Fact>): Turn {
    var usage := LastUsage(facts, j.turn);
    Turn(if StartCore in seen then Some(j.connection) else None,
         if StartCore in seen || ConfigCore in seen || usage.Some? then Some(j.thread) else None,
         if StartCore in seen || ConfigCore in seen then Some(j.images) else None,
         if ConfigCore in seen then Some(j.config) else None,
         LastStarted(facts, j.turn),
         usage,
         if CompletionCore in seen then Some(Ending(j)) else None,
         0)
  }

  /** The event of the turn, with the usage, start time and steers reported before. */
  function Expected(j: Join, client: string, meta: ThreadMeta, before: seq<Fact>, steers: nat): Event {
    TurnEvent(j.turn, j.thread, client, meta, j.images, j.config, LastStarted(before, j.turn),
              LastUsage(before, j.turn), Ending(j), steers)
  }

  // ----- one step -----

  /** The connection, the thread and the pending request that the turn needs are known. */
  predicate Ready(s: State, j: Join, client: string, meta: ThreadMeta, started: bool) {
    var key := (j.connection, j.request);
    && ClientOf(s, j.connection) == Some(client) && MetadataOf(s, j.thread) == Some(meta)
    && (!started ==> key in s.requests && s.requests[key] == TurnStart(j.thread, j.images))
  }

  /** The state after some facts, among them those of the turn that were `seen`. */
  predicate Awaiting(s: State, j: Join, client: string, meta: ThreadMeta, seen: set<Core>, facts: seq<Fact>) {
    Ready(s, j, client, meta, StartCore in seen) && TurnOf(s, j.turn).(steers := 0) == TurnFor(j, seen, facts)
  }

  lemma AsideReady(s: State, j: Join, client: string, meta: ThreadMeta, started: bool, f: Fact)
    requires Ready(s, j, client, meta, started) && Aside(s, j, f)
    ensures Ready(Ingest(s, f).state, j, client, meta, started)
  {
  }

  lemma CoreReady(s: State, j: Join, client: string, meta: ThreadMeta, started: bool, c: Core)
    requires Ready(s, j, client, meta, started)
    ensures Ready(Ingest(s, CoreFact(j, c)).state, j, client, meta, started || c == StartCore)
  {
  }

  lemma AppendFact(facts: seq<Fact>, f: Fact, id: string)
    ensures LastStarted(facts + [f], id) ==
            if f.TurnStarted? && f.turn == id then NotNegative(f.at) else LastStarted(facts, id)
    ensures LastUsage(facts + [f], id) == if f.TokenUsage? && f.turn == id then Some(f.usage) else LastUsage(facts, id)
  {
    assert (facts + [f])[..|facts|] == facts;
  }

  lemma AsidePatched(s: State, j: Join, client: string, meta: ThreadMeta, seen: set<Core>, facts: seq<Fact>, f: Fact)
    requires Awaiting(s, j, client, meta, seen, facts) && Aside(s, j, f)
    ensures Patched(s, f, j.turn).(steers := 0) == TurnFor(j, seen, facts + [f])
  {
    AppendFact(facts, f, j.turn);
  }

  lemma Incomplete(j: Join, seen: set<Core>, facts: seq<Fact>, turn: Turn)
    requires turn.(steers := 0) == TurnFor(j, seen, facts) && !(ALL <= seen)
    ensures !Complete(turn)
  {
    assert !Complete(turn.(steers := 0));
  }

  /** A fact that does not complete a turn gives no event for it. */
  lemma QuietStep(s: State, f: Fact, id: string)
    requires !Complete(Patched(s, f, id))
    ensures TurnEvents(Ingest(s, f).events, id) == [] && TurnOf(Ingest(s, f).state, id) == Patched(s, f, id)
  {
    IngestTurn(s, f, id);
  }

  /** Any other fact leaves the turn waiting for the same of the three. */
  lemma AsideStep(s: State, j: Join, client: string, meta: ThreadMeta, seen: set<Core>, facts: seq<Fact>, f: Fact)
    requires Awaiting(s, j, client, meta, seen, facts) && Aside(s, j, f) && !(ALL <= seen)
    ensures TurnEvents(Ingest(s, f).events, j.turn) == []
    ensures Awaiting(Ingest(s, f).state, j, client, meta, seen, facts + [f])
  {
    AsidePatched(s, j, client, meta, seen, facts, f);
    Incomplete(j, seen, facts + [f], Patched(s, f, j.turn));
    QuietStep(s, f, j.turn);
    AsideReady(s, j, client, meta, StartCore in seen, f);
  }

  lemma CorePatched(s: State, j: Join, client: string, meta: ThreadMeta, seen: set<Core>, facts: seq<Fact>, c: Core)
    requires Awaiting(s, j, client, meta, seen, facts) && c !in seen
    ensures Patched(s, CoreFact(j, c), j.turn).(steers := 0) == TurnFor(j, seen + {c}, facts + [CoreFact(j, c)])
    ensures Patched(s, CoreFact(j, c), j.turn).steers == TurnOf(s, j.turn).steers
    ensures Completes(s, CoreFact(j, c), j.turn)
  {
    AppendFact(facts, CoreFact(j, c), j.turn);
  }

  /** Each of the three but the last only adds to what is known. */
  lemma CoreStep(s: State, j: Join, client: string, meta: ThreadMeta, seen: set<Core>, facts: seq<Fact>, c: Core)
    requires Awaiting(s, j, client, meta, seen, facts) && c !in seen && !(ALL <= seen + {c})
    ensures TurnEvents(Ingest(s, CoreFact(j, c)).events, j.turn) == []
    ensures Awaiting(Ingest(s, CoreFact(j, c)).state, j, client, meta, seen + {c}, facts + [CoreFact(j, c)])
  {
    var f := CoreFact(j, c);
    CorePatched(s, j, client, meta, seen, facts, c);
    Incomplete(j, seen + {c}, facts + [f], Patched(s, f, j.turn));
    QuietStep(s, f, j.turn);
    CoreReady(s, j, client, meta, StartCore in seen, c);
  }

  lemma LastReport(s: State, j: Join, client: string, meta: ThreadMeta, seen: set<Core>, facts: seq<Fact>, turn: Turn)
    requires Ready(s, j, client, meta, true) && ALL <= seen && turn.(steers := 0) == TurnFor(j, seen, facts)
    ensures TurnEventOf(UpdateTurn(s, j.turn, turn), j.turn) == Some(Expected(j, client, meta, facts, turn.steers))
  {
  }

  /** The last of the three gives the event and forgets the turn. */
  lemma LastStep(s: State, j: Join, client: string, meta: ThreadMeta, seen: set<Core>, facts: seq<Fact>, c: Core)
    requires Awaiting(s, j, client, meta, seen, facts) && c !in seen && ALL <= seen + {c}
    ensures var o := Ingest(s, CoreFact(j, c));
            && TurnEvents(o.events, j.turn) == [Expected(j, client, meta, facts, TurnOf(s, j.turn).steers)]
            && j.turn !in o.state.turns
  {
    var f := CoreFact(j, c);
    IngestTurn(s, f, j.turn);
    CorePatched(s, j, client, meta, seen, facts, c);
    AppendFact(facts, f, j.turn);
    LastReport(s, j, client, meta, seen + {c}, facts + [f], Patched(s, f, j.turn));
  }

  // ----- runs -----

  /** A run in which each of the three comes once, at the given positions, and which
      does not resolve the configuration of the turn again after the last of them. */
  datatype Positions = Positions(start: nat, config: nat, completion: nat) {
    function Last(): nat {
      if start >= config && start >= completion then start
      else if config >= completion then config else completion
    }

    function Of(c: Core): nat {
      match c
      case StartCore => start
      case ConfigCore => config
      case CompletionCore => completion
    }

    function Before(i: nat): set<Core> {
      set c | c in ALL && Of(c) < i
    }
  }

  ghost predicate Placed(j: Join, facts: seq<Fact>, p: Positions) {
    && p.start != p.config && p.config != p.completion && p.completion != p.start
    && p.start < |facts| && p.config < |facts| && p.completion < |facts|
    && (forall c :: facts[p.Of(c)] == CoreFact(j, c))
  }

  ghost predicate Joins(s: State, j: Join, facts: seq<Fact>, p: Positions) {
    && Placed(j, facts, p)
    && (forall i: nat | i < p.Last() && i != p.start && i != p.config && i != p.completion ::
          Aside(Run(s, facts[..i]).state, j, facts[i]))
    && (forall i: nat | p.Last() < i < |facts| :: !(facts[i].ResolvedConfig? && facts[i].turn == j.turn))
  }

  lemma BeforeMore(p: Positions, i: nat)
    requires p.start != p.config && p.config != p.completion && p.completion != p.start
    ensures forall c :: p.Of(c) == i ==> p.Before(i + 1) == p.Before(i) + {c} && c !in p.Before(i)
    ensures (forall c :: p.Of(c) != i) ==> p.Before(i + 1) == p.Before(i)
    ensures ALL <= p.Before(i) <==> p.Last() < i
  {
    assert p.Of(StartCore) == p.start && p.Of(ConfigCore) == p.config && p.Of(CompletionCore) == p.completion;
    assert ALL <= p.Before(i) <==> p.start < i && p.config < i && p.completion < i;
  }

  lemma StepBeforeLast(s: State, j: Join, client: string, meta: ThreadMeta, read: seq<Fact>, f: Fact, p: Positions)
    requires p.start != p.config && p.config != p.completion && p.completion != p.start && |read| < p.Last()
    requires Awaiting(s, j, client, meta, p.Before(|read|), read)
    requires forall c :: p.Of(c) == |read| ==> f == CoreFact(j, c)
    requires (forall c :: p.Of(c) != |read|) ==> Aside(s, j, f)
    ensures TurnEvents(Ingest(s, f).events, j.turn) == []
    ensures Awaiting(Ingest(s, f).state, j, client, meta, p.Before(|read| + 1), read + [f])
  {
    BeforeMore(p, |read|);
    BeforeMore(p, |read| + 1);
    if exists c :: p.Of(c) == |read| {
      var c :| p.Of(c) == |read|;
      CoreStep(s, j, client, meta, p.Before(|read|), read, c);
    } else {
      AsideStep(s, j, client, meta, p.Before(|read|), read, f);
    }
  }

  lemma OneMoreRead(before: Output, j: Join, client: string, meta: ThreadMeta, read: seq<Fact>, f: Fact, p: Positions)
    requires p.start != p.config && p.config != p.completion && p.completion != p.start && |read| < p.Last()
    requires TurnEvents(before.events, j.turn) == [] && Awaiting(before.state, j, client, meta, p.Before(|read|), read)
    requires forall c :: p.Of(c) == |read| ==> f == CoreFact(j, c)
    requires (forall c :: p.Of(c) != |read|) ==> Aside(before.state, j, f)
    ensures var step := Ingest(before.state, f);
            && TurnEvents(before.events + step.events, j.turn) == []
            && Awaiting(step.state, j, client, meta, p.Before(|read| + 1), read + [f])
  {
    StepBeforeLast(before.state, j, client, meta, read, f, p);
    TurnEventsConcat(before.events, Ingest(before.state, f).events, j.turn);
  }

  lemma NothingRead(s: State, j: Join, client: string, meta: ThreadMeta, p: Positions)
    requires Ready(s, j, client, meta, false) && j.turn !in s.turns
    ensures Awaiting(s, j, client, meta, p.Before(0), [])
  {
    assert p.Before(0) == {};
  }

  /** Up to the last of the three there is no event. */
  lemma {:induction false} BeforeLast(s: State, j: Join, client: string, meta: ThreadMeta, facts: seq<Fact>,
                                      runs: seq<Output>, p: Positions, i: nat)
    requires Ready(s, j, client, meta, false) && j.turn !in s.turns && Trace(s, facts, runs)
    requires Placed(j, facts, p) && i <= p.Last()
    requires forall i: nat | i < p.Last() && i != p.start && i != p.config && i != p.completion ::
               Aside(runs[i].state, j, facts[i])
    ensures TurnEvents(runs[i].events, j.turn) == []
    ensures Awaiting(runs[i].state, j, client, meta, p.Before(i), facts[..i])
  {
    if i == 0 {
      NothingRead(s, j, client, meta, p);
      assert facts[..0] == [];
    } else {
      var n := i - 1;
      BeforeLast(s, j, client, meta, facts, runs, p, n);
      assert facts[..i] == facts[..n] + [facts[n]];
      assert p.Of(StartCore) == p.start && p.Of(ConfigCore) == p.config && p.Of(CompletionCore) == p.completion;
      OneMoreRead(runs[n], j, client, meta, facts[..n], facts[n], p);
    }
  }

  /** A turn without configuration gives no event until it is resolved. */
  lemma {:induction false} AfterLast(s: State, id: string, facts: seq<Fact>)
    requires TurnOf(s, id).config.None?
    requires forall i | 0 <= i < |facts| :: !(facts[i].ResolvedConfig? && facts[i].turn == id)
    ensures TurnEvents(Run(s, facts).events, id) == []
    decreases |facts|
  {
    if facts != [] {
      var first := Ingest(s, facts[0]);
      LateStep(s, id, facts[0]);
      AfterLast(first.state, id, facts[1..]);
      TurnEventsConcat(first.events, Run(first.state, facts[1..]).events, id);
    }
  }

  lemma LateStep(s: State, id: string, f: Fact)
    requires TurnOf(s, id).config.None? && !(f.ResolvedConfig? && f.turn == id)
    ensures TurnEvents(Ingest(s, f).events, id) == [] && TurnOf(Ingest(s, f).state, id).config.None?
  {
    IngestTurn(s, f, id);
    assert Patched(s, f, id).config.None?;
  }

  /** The last of the three, where it comes. */
  lemma AtLast(s: State, j: Join, client: string, meta: ThreadMeta, facts: seq<Fact>, p: Positions)
    requires Ready(s, j, client, meta, false) && j.turn !in s.turns && Joins(s, j, facts, p)
    ensures var k := p.Last();
            var step := Ingest(Run(s, facts[..k]).state, facts[k]);
            && TurnEvents(Run(s, facts[..k]).events, j.turn) == []
            && TurnEvents(step.events, j.turn) ==
                 [Expected(j, client, meta, facts[..k], Accepted(s, facts[..k], j.turn))]
            && j.turn !in step.state.turns
  {
    var k := p.Last();
    var before := Run(s, facts[..k]);
    var runs := RunTrace(s, facts);
    BeforeLast(s, j, client, meta, facts, runs, p, k);
    SteerAccounting(s, facts[..k], j.turn);
    assert TurnOf(before.state, j.turn).steers == Accepted(s, facts[..k], j.turn);
    BeforeMore(p, k);
    BeforeMore(p, k + 1);
    var c: Core :| p.Of(c) == k;
    LastStep(before.state, j, client, meta, p.Before(k), facts[..k], c);
  }

  /** Whatever the order of the three and whatever comes between and after them, the
      turn gives exactly one event. The last of the three gives it, with the usage,
      start time and accepted steers reported by then. */
  lemma OneTurnEvent(s: State, j: Join, client: string, meta: ThreadMeta, facts: seq<Fact>, p: Positions)
    requires Ready(s, j, client, meta, false) && j.turn !in s.turns && Joins(s, j, facts, p)
    ensures var k := p.Last();
            var event := Expected(j, client, meta, facts[..k], Accepted(s, facts[..k], j.turn));
            && TurnEvents(Run(s, facts).events, j.turn) == [event]
            && TurnEvents(Run(s, facts[..k]).events, j.turn) == []
            && TurnEvents(Ingest(Run(s, facts[..k]).state, facts[k]).events, j.turn) == [event]
  {
    var k := p.Last();
    AtLast(s, j, client, meta, facts, p);
    SplitRun(s, facts, k, j.turn);
    AfterLast(Ingest(Run(s, facts[..k]).state, facts[k]).state, j.turn, facts[k + 1..]);
  }

  /** The turn events of a run are those before a fact, of the fact and after it. */
  lemma SplitRun(s: State, facts: seq<Fact>, k: nat, id: string)
    requires k < |facts|
    ensures var before := Run(s, facts[..k]);
            var step := Ingest(before.state, facts[k]);
            TurnEvents(Run(s, facts).events, id) ==
              TurnEvents(before.events, id) + TurnEvents(step.events, id) +
              TurnEvents(Run(step.state, facts[k + 1..]).events, id)
  {
    var before := Run(s, facts[..k]);
    var step := Ingest(before.state, facts[k]);
    RunOneMore(s, facts, k);
    assert facts == facts[..k + 1] + facts[k + 1..];
    RunConcat(s, facts[..k + 1], facts[k + 1..]);
    TurnEventsConcat(before.events, step.events, id);
    TurnEventsConcat(before.events + step.events, Run(step.state, facts[k + 1..]).events, id);
  }

  /** The order does not show in the event: it is the same in any two such runs that
      report the same usage, start time and number of steers before the last of the
      three. */
  lemma OrderIndependence(s: State, facts: seq<Fact>, p: Positions, t: State, others: seq<Fact>, q: Positions,
                          j: Join, client: string, meta: ThreadMeta)
    requires Ready(s, j, client, meta, false) && j.turn !in s.turns && Joins(s, j, facts, p)
    requires Ready(t, j, client, meta, false) && j.turn !in t.turns && Joins(t, j, others, q)
    requires LastUsage(facts[..p.Last()], j.turn) == LastUsage(others[..q.Last()], j.turn)
    requires LastStarted(facts[..p.Last()], j.turn) == LastStarted(others[..q.Last()], j.turn)
    requires Accepted(s, facts[..p.Last()], j.turn) == Accepted(t, others[..q.Last()], j.turn)
    ensures TurnEvents(Run(s, facts).events, j.turn) == TurnEvents(Run(t, others).events, j.turn)
    ensures |TurnEvents(Run(s, facts).events, j.turn)| == 1
  {
    OneTurnEvent(s, j, client, meta, facts, p);
    OneTurnEvent(t, j, client, meta, others, q);
  }
}

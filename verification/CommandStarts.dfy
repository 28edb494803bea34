/** Which starts are refused and why, what becomes of the others, and how they end. */
module CommandStarts {
  import opened Common
  import opened CommandSessions

  /** Streaming needs a client's process id. On Windows there is no streaming and no cap
      of one's own; elsewhere the command must not be empty. */
  predicate Acceptable(r: Request) {
    && (r.streaming ==> r.process.Some?)
    && (if r.windows then !r.streaming && !r.customCap else !r.emptyCommand)
  }

  /** The first thing that is wrong with a start decides its error, and a start without a
      process id uses up a generated one unless it asks for streaming. */
  lemma Refused(t: Table, r: Request)
    requires !Acceptable(r)
    ensures var e := Enter(t, r);
            && e.result.Err?
            && e.table == t.(generated := e.table.generated)
            && e.table.generated == (if r.process.None? && !r.streaming then t.generated + 1 else t.generated)
            && (e.result.error == NeedsProcessId <==> r.process.None? && r.streaming)
            && (e.result.error == StreamingOnWindows <==> r.windows && r.streaming && r.process.Some?)
            && (e.result.error == CapOnWindows <==> r.windows && !r.streaming)
            && (e.result.error == EmptyCommand <==> !r.windows && (r.streaming ==> r.process.Some?))
  {
  }

  /** The process id of a start: the client's, or the next value of the counter. */
  function ProcessFor(t: Table, r: Request): ProcessId {
    match r.process
    case Some(name) => Client(name)
    case None => Generated(ToI64(t.generated + 1))
  }

  /** The counter counts from one, and comes round after 2^64 values. */
  lemma CounterValues(n: nat)
    ensures n < 0x8000_0000_0000_0000 ==> ToI64(n) == n
    ensures ToI64(n + I64_SPAN) == ToI64(n)
    ensures -0x8000_0000_0000_0000 <= ToI64(n) < 0x8000_0000_0000_0000
  {
  }

  /** An acceptable start adds one run under its key; only on Windows without a client's
      id is it under way at once, without an entry. */
  lemma Accepted(t: Table, r: Request)
    requires Acceptable(r)
    ensures var e, id := Enter(t, r), |t.runs|;
            && e.result == Ok(id) && |e.table.runs| == id + 1 && e.table.runs[..id] == t.runs
            && e.table == t.(runs := e.table.runs, generated := e.table.generated)
            && e.table.generated == t.generated + (if r.process.None? then 1 else 0)
            && var run := e.table.runs[id];
            && run.key == Key(r.connection, ProcessFor(t, r)) && run.windows == r.windows
            && run.phase == (if r.windows && r.process.None? then Running else Entering)
            && !run.registered && !run.evicted && !run.told && run.inbox == [] && run.read == 0
  {
  }

  /** No entry has the next generated id. */
  lemma NextIsFree(t: Table, connection: nat)
    requires Owned(t) && t.generated < I64_SPAN
    ensures Key(connection, Generated(ToI64(t.generated + 1))) !in t.sessions
  {
    var key := Key(connection, Generated(ToI64(t.generated + 1)));
    if key in t.sessions {
      var run := t.runs[t.sessions[key]];
      ToI64Injective(run.serial + 1, t.generated + 1);
    }
  }

  /** A start that gets the lock registers its key and is spawned, or is under way on
      Windows, if the key is free, as generated ones always are; otherwise it ends and
      the entries stay as they are. */
  lemma Inserting(t: Table, id: RunId)
    requires In(t, id, Phase.Entering) && Owned(t)
    ensures var u, run := OnStep(t, Inserts(id)), t.runs[id];
            && |u.runs| == |t.runs| && u == t.(sessions := u.sessions, runs := u.runs)
            && (forall i | 0 <= i < |t.runs| && i != id :: u.runs[i] == t.runs[i])
            && (if run.key in t.sessions then u.sessions == t.sessions && u.runs[id] == run.(phase := Over)
                else
                  && u.sessions == t.sessions[run.key := id]
                  && u.runs[id] == run.(registered := true, phase := if run.windows then Running else Spawning))
  {
  }

  /** From the request to the running command: with a free key, as every generated one is. */
  lemma StartRuns(t: Table, r: Request)
    requires Acceptable(r) && !r.windows && Owned(t) && t.generated < I64_SPAN
    requires r.process.Some? ==> Key(r.connection, Client(r.process.value)) !in t.sessions
    ensures var id, key := |t.runs|, Key(r.connection, ProcessFor(t, r));
            var u := OnStep(OnStep(OnStep(t, Enters(r)), Inserts(id)), SpawnOk(id));
            && key in u.sessions && u.sessions[key] == id
            && |u.runs| == id + 1 && u.runs[id].key == key && u.runs[id].phase == Running && u.runs[id].registered
  {
    NextIsFree(t, r.connection);
    Accepted(t, r);
    EnterOwned(t, r);
    Inserting(Enter(t, r).table, |t.runs|);
  }

  // ----- ends -----

  lemma Removing(t: Table, id: RunId)
    requires id < |t.runs|
    ensures var u, key := Remove(t, id), t.runs[id].key;
            && |u.runs| == |t.runs| && u.runs[id] == t.runs[id].(phase := Over)
            && u.sessions == t.sessions - {key} && u == t.(runs := u.runs, sessions := u.sessions)
            && (key in t.sessions && t.sessions[key] == id ==>
                  forall i | 0 <= i < |t.runs| && i != id :: u.runs[i] == t.runs[i])
  {
  }

  /** A command that ends on its own is over and has no entry any more; while it had its
      entry, nothing else changes. */
  lemma Ending(t: Table, id: RunId)
    requires Owned(t) && In(t, id, Running)
    ensures var u := OnStep(OnStep(t, ProcessEnds(id)), CleanUp(id));
            && |u.runs| == |t.runs| && u.runs[id] == t.runs[id].(phase := Over)
            && u.sessions == t.sessions - {t.runs[id].key} && u == t.(runs := u.runs, sessions := u.sessions)
            && (Holds(t.runs[id]) ==> forall i | 0 <= i < |t.runs| && i != id :: u.runs[i] == t.runs[i])
  {
    Removing(WithRun(t, id, t.runs[id].(phase := Done)), id);
  }

  /** So is one that cannot be spawned. */
  lemma Failing(t: Table, id: RunId)
    requires Owned(t) && In(t, id, Spawning)
    ensures var u := OnStep(t, SpawnFails(id));
            && |u.runs| == |t.runs| && u.runs[id] == t.runs[id].(phase := Over)
            && u.sessions == t.sessions - {t.runs[id].key} && u == t.(runs := u.runs, sessions := u.sessions)
            && (Holds(t.runs[id]) ==> forall i | 0 <= i < |t.runs| && i != id :: u.runs[i] == t.runs[i])
  {
    Removing(t, id);
  }

  // ----- closing a connection tells each command once -----

  /** The run has as many Terminates of a closing connection as it was told: one or none. */
  ghost predicate Counts(run: Run, owed: bool) {
    && multiset(run.inbox)[FromClose] == (if run.told then 1 else 0)
    && (run.told || owed ==> run.evicted) && !(run.told && owed)
  }

  ghost predicate ToldOnce(t: Table) {
    (forall id | id in t.owed :: id < |t.runs|) && forall id | 0 <= id < |t.runs| :: Counts(t.runs[id], id in t.owed)
  }

  lemma SameCounts(t: Table, u: Table)
    requires ToldOnce(t) && u.owed == t.owed && |t.runs| <= |u.runs|
    requires forall i | 0 <= i < |t.runs| ::
               && u.runs[i].inbox == t.runs[i].inbox && u.runs[i].told == t.runs[i].told
               && (t.runs[i].evicted ==> u.runs[i].evicted)
    requires forall i | |t.runs| <= i < |u.runs| :: u.runs[i].inbox == [] && !u.runs[i].told
    ensures ToldOnce(u)
  {
    forall id | 0 <= id < |u.runs| ensures Counts(u.runs[id], id in u.owed) {
      if id < |t.runs| {
        assert Counts(t.runs[id], id in t.owed);
      }
    }
  }

  lemma CloseCounts(t: Table, connection: nat)
    requires ToldOnce(t) && Entries(t)
    ensures ToldOnce(CloseConnection(t, connection))
  {
    var u := CloseConnection(t, connection);
    forall id | 0 <= id < |u.runs| ensures Counts(u.runs[id], id in u.owed) {
      assert Counts(t.runs[id], id in t.owed);
    }
  }

  lemma TerminateCounts(t: Table, id: RunId)
    requires ToldOnce(t) && id < |t.runs|
    ensures ToldOnce(SendTerminate(t, id))
  {
    var u := SendTerminate(t, id);
    forall i | 0 <= i < |u.runs| ensures Counts(u.runs[i], i in u.owed) {
      assert Counts(t.runs[i], i in t.owed);
    }
  }

  /** A Terminate stays owed only while a listening run has no room for it; otherwise it is
      in the mailbox, or there is nobody left to tell. */
  lemma Paying(t: Table, id: RunId)
    requires ToldOnce(t) && id in t.owed
    ensures var u, run := OnStep(t, PassTerminate(id)), t.runs[id];
            && |u.runs| == |t.runs| && u.owed - {id} == t.owed - {id}
            && (id in u.owed <==> Listening(run) && Full(run))
            && (u.runs[id].told <==> Listening(run) && !Full(run))
            && (u.runs[id].told <==> FromClose in u.runs[id].inbox)
  {
    assert Counts(t.runs[id], true);
    TerminateCounts(t, id);
    var u := OnStep(t, PassTerminate(id));
    assert Counts(u.runs[id], id in u.owed);
    assert FromClose in u.runs[id].inbox <==> FromClose in multiset(u.runs[id].inbox);
  }

  lemma SendCounts(t: Table, c: ControlId)
    requires ToldOnce(t) && c < |t.controls| && t.controls[c].found < |t.runs|
    ensures ToldOnce(SendControl(t, c))
  {
    var u, found := SendControl(t, c), t.controls[c].found;
    forall i | 0 <= i < |u.runs| ensures Counts(u.runs[i], i in u.owed) {
      assert Counts(t.runs[i], i in t.owed);
      assert multiset(Post(t.runs[found], FromControl(c)).inbox)[FromClose] == multiset(t.runs[found].inbox)[FromClose];
    }
  }

  lemma EnterCounts(t: Table, r: Request)
    requires ToldOnce(t)
    ensures ToldOnce(Enter(t, r).table)
  {
    EnterCases(t, r);
    SameCounts(t, Enter(t, r).table);
  }

  lemma RemoveCounts(t: Table, id: RunId)
    requires ToldOnce(t) && id < |t.runs|
    ensures ToldOnce(Remove(t, id))
  {
    RemoveRuns(t, id);
    SameCounts(t, Remove(t, id));
  }

  lemma OneCounts(t: Table, id: RunId, run: Run)
    requires ToldOnce(t) && id < |t.runs|
    requires run.inbox == t.runs[id].inbox && run.told == t.runs[id].told && run.evicted == t.runs[id].evicted
    ensures ToldOnce(WithRun(t, id, run))
  {
    SameCounts(t, WithRun(t, id, run));
  }

  lemma PhaseCounts(t: Table, step: Step)
    requires ToldOnce(t) && (step.Inserts? || step.SpawnOk? || step.ProcessEnds? || step.Receive? || step.LooksUp?)
    ensures ToldOnce(OnStep(t, step))
  {
    match step
    case Inserts(id) => if In(t, id, Phase.Entering) { SameCounts(t, Insert(t, id)); }
    case SpawnOk(id) => if id < |t.runs| { OneCounts(t, id, t.runs[id].(phase := Running)); }
    case ProcessEnds(id) => if id < |t.runs| { OneCounts(t, id, t.runs[id].(phase := Done)); }
    case Receive(id) => if id < |t.runs| { OneCounts(t, id, t.runs[id].(read := t.runs[id].read + 1)); }
    case LooksUp(key, control) =>
  }

  lemma StepCounts(t: Table, step: Step)
    requires ToldOnce(t) && Entries(t)
    ensures ToldOnce(OnStep(t, step))
  {
    match step
    case Closes(connection) => CloseCounts(t, connection);
    case PassTerminate(id) => if id < |t.runs| { TerminateCounts(t, id); }
    case Sends(c) => if c < |t.controls| && t.controls[c].found < |t.runs| { SendCounts(t, c); }
    case Enters(request) => EnterCounts(t, request);
    case SpawnFails(id) => if id < |t.runs| { RemoveCounts(t, id); }
    case CleanUp(id) => if id < |t.runs| { RemoveCounts(t, id); }
    case _ => PhaseCounts(t, step);
  }

  /** In every interleaving no command is told to terminate more than once for the close
      of its connection, and none that did not lose its entry is told at all. */
  lemma {:induction false} NeverToldTwice(steps: seq<Step>)
    requires After(steps).generated <= I64_SPAN
    ensures ToldOnce(After(steps))
  {
    if steps != [] {
      var n := |steps| - 1;
      GeneratedGrows(After(steps[..n]), steps[n]);
      NeverToldTwice(steps[..n]);
      AfterOwned(steps[..n]);
      StepCounts(After(steps[..n]), steps[n]);
    }
  }
}

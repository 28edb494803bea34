/** Controls on their way to running commands, and two interleavings that go wrong. */
module CommandControls {
  import opened Common
  import opened CommandSessions

  // ----- every control reaches the run found for it, once, or nobody -----

  /** Each control was found a run with its key. */
  ghost predicate Addressed(t: Table) {
    forall c | 0 <= c < |t.controls| ::
      && t.controls[c].found < |t.runs| && t.runs[t.controls[c].found].key == t.controls[c].key
      && !t.runs[t.controls[c].found].windows
  }

  /** The mail of a run is from controls that were found this run and queued, each once,
      or from a closing connection; its mailbox never exceeds its capacity. */
  ghost predicate MailOf(t: Table, id: RunId)
    requires id < |t.runs|
  {
    var run := t.runs[id];
    && run.read <= |run.inbox| <= run.read + MAILBOX_CAPACITY
    && (forall i | 0 <= i < |run.inbox| && run.inbox[i].FromControl? ::
          run.inbox[i].id < |t.controls| && t.controls[run.inbox[i].id].found == id
          && t.controls[run.inbox[i].id].fate.Queued?)
    && (forall i, j | 0 <= i < j < |run.inbox| && run.inbox[i].FromControl? :: run.inbox[i] != run.inbox[j])
  }

  /** Every control that was queued is in the inbox of the run found for it. */
  ghost predicate Arrived(t: Table) {
    forall c | 0 <= c < |t.controls| && t.controls[c].fate.Queued? ::
      t.controls[c].found < |t.runs| && FromControl(c) in t.runs[t.controls[c].found].inbox
  }

  ghost predicate Mailed(t: Table) {
    Addressed(t) && Arrived(t) && forall id | 0 <= id < |t.runs| :: MailOf(t, id)
  }

  /** No mail moves, and nobody's identity changes. */
  ghost predicate SameMail(t: Table, u: Table) {
    && u.controls == t.controls && |t.runs| <= |u.runs|
    && (forall i | 0 <= i < |t.runs| ::
          && u.runs[i].key == t.runs[i].key && u.runs[i].windows == t.runs[i].windows
          && u.runs[i].inbox == t.runs[i].inbox && u.runs[i].read == t.runs[i].read)
    && (forall i | |t.runs| <= i < |u.runs| :: u.runs[i].inbox == [] && u.runs[i].read == 0)
  }

  lemma SameMailKeeps(t: Table, u: Table)
    requires Mailed(t) && SameMail(t, u)
    ensures Mailed(u)
  {
    forall id | 0 <= id < |u.runs| ensures MailOf(u, id) {
      if id < |t.runs| {
        assert MailOf(t, id);
      }
    }
  }

  lemma EnterSame(t: Table, r: Request)
    ensures SameMail(t, Enter(t, r).table)
  {
    EnterCases(t, r);
  }

  lemma RemoveSame(t: Table, id: RunId)
    requires id < |t.runs|
    ensures SameMail(t, Remove(t, id))
  {
    RemoveRuns(t, id);
  }

  lemma CloseSame(t: Table, connection: nat)
    ensures SameMail(t, CloseConnection(t, connection))
  {
  }

  lemma OtherSteps(t: Table, step: Step)
    requires !step.PassTerminate? && !step.LooksUp? && !step.Sends? && !step.Receive?
    ensures SameMail(t, OnStep(t, step))
  {
    match step
    case Enters(request) => EnterSame(t, request);
    case SpawnFails(id) => if id < |t.runs| { RemoveSame(t, id); }
    case CleanUp(id) => if id < |t.runs| { RemoveSame(t, id); }
    case Closes(connection) => CloseSame(t, connection);
    case _ =>
  }

  lemma ReceiveKeeps(t: Table, id: RunId)
    requires Mailed(t) && id < |t.runs| && t.runs[id].read < |t.runs[id].inbox|
    ensures Mailed(WithRun(t, id, t.runs[id].(read := t.runs[id].read + 1)))
  {
    var u := WithRun(t, id, t.runs[id].(read := t.runs[id].read + 1));
    forall i | 0 <= i < |u.runs| ensures MailOf(u, i) {
      assert MailOf(t, i);
    }
  }

  lemma TerminateKeeps(t: Table, id: RunId)
    requires Mailed(t) && id < |t.runs|
    ensures Mailed(SendTerminate(t, id))
  {
    var u := SendTerminate(t, id);
    forall i | 0 <= i < |u.runs| ensures MailOf(u, i) {
      assert MailOf(t, i);
    }
    forall c | 0 <= c < |u.controls| && u.controls[c].fate.Queued?
      ensures FromControl(c) in u.runs[u.controls[c].found].inbox
    {
      assert FromControl(c) in t.runs[t.controls[c].found].inbox;
    }
  }

  lemma LookUpKeeps(t: Table, key: Key, control: Control)
    requires Mailed(t) && Entries(t)
    ensures Pointed(t) && Mailed(LookUp(t, key, control).table)
  {
    var u := LookUp(t, key, control).table;
    assert forall c | 0 <= c < |t.controls| :: u.controls[c] == t.controls[c];
    forall i | 0 <= i < |u.runs| ensures MailOf(u, i) {
      assert MailOf(t, i);
    }
  }

  /** Sending one control, when there is room. */
  lemma QueueKeeps(t: Table, c: ControlId)
    requires Mailed(t) && c < |t.controls| && t.controls[c].fate.Waiting? && !Full(t.runs[t.controls[c].found])
    ensures var id := t.controls[c].found;
            Mailed(WithFate(WithRun(t, id, Post(t.runs[id], FromControl(c))), c, Queued))
  {
    var id := t.controls[c].found;
    var u := WithFate(WithRun(t, id, Post(t.runs[id], FromControl(c))), c, Queued);
    assert MailOf(t, id);
    assert FromControl(c) !in t.runs[id].inbox;
    forall i | 0 <= i < |u.runs| ensures MailOf(u, i) {
      assert MailOf(t, i);
    }
    forall d | 0 <= d < |u.controls| && u.controls[d].fate.Queued?
      ensures FromControl(d) in u.runs[u.controls[d].found].inbox
    {
      assert u.runs[id].inbox[|t.runs[id].inbox|] == FromControl(c);
      assert d != c ==> FromControl(d) in t.runs[t.controls[d].found].inbox;
    }
  }

  lemma FailKeeps(t: Table, c: ControlId)
    requires Mailed(t) && c < |t.controls| && t.controls[c].fate.Waiting?
    ensures Mailed(WithFate(t, c, Failed))
  {
    var u := WithFate(t, c, Failed);
    forall i | 0 <= i < |u.runs| ensures MailOf(u, i) {
      assert MailOf(t, i);
    }
  }

  lemma StepMailed(t: Table, step: Step)
    requires Mailed(t) && Entries(t)
    ensures Mailed(OnStep(t, step))
  {
    match step
    case PassTerminate(id) => if id < |t.runs| { TerminateKeeps(t, id); }
    case LooksUp(key, control) => LookUpKeeps(t, key, control);
    case Sends(c) =>
      if c < |t.controls| && t.controls[c].fate.Waiting? {
        FailKeeps(t, c);
        if !Full(t.runs[t.controls[c].found]) {
          QueueKeeps(t, c);
        }
      }
    case Receive(id) => if id < |t.runs| && t.runs[id].read < |t.runs[id].inbox| { ReceiveKeeps(t, id); }
    case _ =>
      OtherSteps(t, step);
      SameMailKeeps(t, OnStep(t, step));
  }

  /** In every interleaving a control is queued at most once, only in the mailbox of
      the run that was found under its key, and no run has mail from anyone else. */
  lemma {:induction false} ControlsReachTheirRun(steps: seq<Step>)
    requires After(steps).generated <= I64_SPAN
    ensures Mailed(After(steps))
  {
    if steps != [] {
      var n := |steps| - 1;
      GeneratedGrows(After(steps[..n]), steps[n]);
      ControlsReachTheirRun(steps[..n]);
      AfterOwned(steps[..n]);
      StepMailed(After(steps[..n]), steps[n]);
    }
  }

  // ----- what becomes of one control -----

  /** A step does nothing to a control but send it: it waits while the mailbox of its
      run is full, fails when that run has stopped listening, and is queued otherwise,
      whatever has become of the table. */
  lemma ControlStep(t: Table, step: Step, c: ControlId)
    requires Addressed(t) && c < |t.controls|
    ensures var p, run, u := t.controls[c], t.runs[t.controls[c].found], OnStep(t, step);
            && c < |u.controls|
            && u.controls[c] ==
                 if step != Sends(c) || !p.fate.Waiting? then p
                 else if !Listening(run) then p.(fate := Failed)
                 else if Full(run) then p
                 else p.(fate := Queued)
  {
  }

  /** The run a control was found stays the same to the end. */
  lemma {:induction false} FoundStays(steps: seq<Step>, n: nat, c: ControlId)
    requires After(steps).generated <= I64_SPAN && n <= |steps| && c < |After(steps[..n]).controls|
    ensures c < |After(steps).controls|
    ensures var was, now := After(steps[..n]).controls[c], After(steps).controls[c];
            now == was.(fate := now.fate) && (!was.fate.Waiting? ==> now == was)
  {
    if n == |steps| {
      assert steps[..n] == steps;
    } else {
      var m := |steps| - 1;
      assert steps[..m][..n] == steps[..n];
      GeneratedGrows(After(steps[..m]), steps[m]);
      FoundStays(steps[..m], n, c);
      ControlsReachTheirRun(steps[..m]);
      ControlStep(After(steps[..m]), steps[m], c);
    }
  }

  /** What looking up a key finds. */
  ghost predicate FindsOwner(t: Table, key: Key, control: Control)
    requires Pointed(t)
  {
    var r := LookUp(t, key, control);
    && (r.result == Err(NoActiveCommand) <==>
          !exists id :: 0 <= id < |t.runs| && Holds(t.runs[id]) && t.runs[id].key == key)
    && (forall id | 0 <= id < |t.runs| && Holds(t.runs[id]) && t.runs[id].key == key ::
          && (forall other | 0 <= other < |t.runs| && other != id && Live(t.runs[other]) :: t.runs[other].key != key)
          && (if t.runs[id].windows then r == Found(t, Err(UnsupportedOnWindows))
              else
                && r.result == Ok(|t.controls|)
                && r.table.controls == t.controls + [Passing(key, id, control, Waiting)]))
  }

  /** In every interleaving in which nothing registers on a closed connection, a
      control finds a command exactly when some run holds the key, and then it finds
      the only live run with that key. */
  lemma LookUpFindsOwner(steps: seq<Step>, key: Key, control: Control)
    requires Disciplined(steps) && After(steps).generated <= I64_SPAN
    ensures Pointed(After(steps)) && FindsOwner(After(steps), key, control)
  {
    SessionOwnership(steps);
    var t := After(steps);
    if key in t.sessions {
      assert Holds(t.runs[t.sessions[key]]) && t.runs[t.sessions[key]].key == key;
    }
    forall i, j | 0 <= i < |t.runs| && 0 <= j < |t.runs| && i != j && Live(t.runs[i]) && Live(t.runs[j])
      ensures t.runs[i].key != t.runs[j].key
    {
      assert i < j || j < i;
    }
  }

  // ----- what goes wrong when something registers on a closed connection -----

  /** A request that only a duplicate id can make fail. */
  predicate Plain(r: Request) {
    r.process.Some? && !r.windows && !r.emptyCommand
  }

  /** The run of such a request. */
  function RunFor(r: Request, serial: nat): Run
    requires Plain(r)
  {
    Run(Key(r.connection, Client(r.process.value)), false, false, serial, Entering, [], 0, false, false)
  }

  lemma PlainEnters(t: Table, r: Request)
    requires Plain(r)
    ensures OnStep(t, Enters(r)) == t.(runs := t.runs + [RunFor(r, t.generated)])
  {
  }

  lemma PlainInserts(t: Table, id: RunId)
    requires In(t, id, Entering) && t.runs[id].key !in t.sessions && !t.runs[id].windows
    ensures OnStep(t, Inserts(id)) == t.(runs := t.runs[id := t.runs[id].(registered := true, phase := Spawning)],
                                         sessions := t.sessions[t.runs[id].key := id])
  {
  }

  /** A start that has begun when its connection closes, and gets the lock after it,
      leaves an entry on the closed connection, and nobody tells its run to terminate. */
  lemma StartInFlightSurvives(r: Request)
    requires Plain(r)
    ensures var t := After([Enters(r), Closes(r.connection), Inserts(0)]);
            && KeyFor(EMPTY, r) in t.sessions && r.connection in t.closed
            && |t.runs| == 1 && Listening(t.runs[0]) && Untold(t, 0, r.connection)
  {
    var steps := [Enters(r), Closes(r.connection), Inserts(0)];
    assert steps[..0] == [] && steps[..3] == steps;
    AfterOneMore(steps, 0);
    AfterOneMore(steps, 1);
    AfterOneMore(steps, 2);
    PlainEnters(EMPTY, r);
    var t := EMPTY.(runs := [RunFor(r, 0)]);
    CloseNothing(t, r.connection);
    PlainInserts(t.(closed := {r.connection}), 0);
  }

  /** Every entry is that of a run with its key. */
  ghost predicate Keyed(t: Table) {
    forall k | k in t.sessions :: t.sessions[k] < |t.runs| && t.runs[t.sessions[k]].key == k
  }

  /** A run of the connection that nobody has told to terminate, or will tell now. */
  ghost predicate Untold(t: Table, id: RunId, connection: nat) {
    Keyed(t) && id < |t.runs| && t.runs[id].key.connection == connection && !t.runs[id].told && id !in t.owed
  }

  lemma CloseUntold(t: Table, id: RunId, connection: nat, other: nat)
    requires Untold(t, id, connection) && other != connection
    ensures Untold(CloseConnection(t, other), id, connection)
  {
    assert forall k | k in OnConnection(t, other) :: t.sessions[k] != id;
  }

  lemma RemoveUntold(t: Table, id: RunId, connection: nat, ended: RunId)
    requires Untold(t, id, connection) && ended < |t.runs|
    ensures Untold(Remove(t, ended), id, connection)
  {
  }

  lemma EnterUntold(t: Table, id: RunId, connection: nat, r: Request)
    requires Untold(t, id, connection)
    ensures Untold(Enter(t, r).table, id, connection)
  {
  }

  /** A change of one run that neither moves it nor tells it anything. */
  lemma OneUntold(t: Table, id: RunId, connection: nat, other: RunId, run: Run)
    requires Untold(t, id, connection) && other < |t.runs|
    requires run.key == t.runs[other].key && run.told == t.runs[other].told
    ensures Untold(WithRun(t, other, run), id, connection)
  {
  }

  lemma InsertUntold(t: Table, id: RunId, connection: nat, other: RunId)
    requires Untold(t, id, connection) && other < |t.runs|
    ensures Untold(Insert(t, other), id, connection)
  {
  }

  lemma TerminateUntold(t: Table, id: RunId, connection: nat, other: RunId)
    requires Untold(t, id, connection) && other < |t.runs|
    ensures Untold(SendTerminate(t, other), id, connection)
  {
  }

  lemma SendUntold(t: Table, id: RunId, connection: nat, c: ControlId)
    requires Untold(t, id, connection) && c < |t.controls| && t.controls[c].found < |t.runs|
    ensures Untold(SendControl(t, c), id, connection)
  {
    var found := t.controls[c].found;
    OneUntold(t, id, connection, found, Post(t.runs[found], FromControl(c)));
  }

  lemma OtherUntold(t: Table, id: RunId, connection: nat, step: Step)
    requires Untold(t, id, connection)
    requires step.SpawnOk? || step.ProcessEnds? || step.LooksUp? || step.Receive?
    ensures Untold(OnStep(t, step), id, connection)
  {
    match step
    case SpawnOk(other) =>
      if In(t, other, Spawning) { OneUntold(t, id, connection, other, t.runs[other].(phase := Running)); }
    case ProcessEnds(other) =>
      if In(t, other, Running) { OneUntold(t, id, connection, other, t.runs[other].(phase := Done)); }
    case LooksUp(key, control) =>
    case Receive(other) =>
      if other < |t.runs| { OneUntold(t, id, connection, other, t.runs[other].(read := t.runs[other].read + 1)); }
  }

  /** Only a close of its connection makes anyone tell such a run to terminate. */
  lemma StepUntold(t: Table, id: RunId, connection: nat, step: Step)
    requires Untold(t, id, connection) && step != Closes(connection)
    ensures Untold(OnStep(t, step), id, connection)
  {
    match step
    case Enters(request) => EnterUntold(t, id, connection, request);
    case SpawnFails(ended) => if ended < |t.runs| { RemoveUntold(t, id, connection, ended); }
    case CleanUp(ended) => if ended < |t.runs| { RemoveUntold(t, id, connection, ended); }
    case Closes(other) => CloseUntold(t, id, connection, other);
    case Inserts(other) => if In(t, other, Entering) { InsertUntold(t, id, connection, other); }
    case PassTerminate(other) => if other < |t.runs| { TerminateUntold(t, id, connection, other); }
    case Sends(c) =>
      if c < |t.controls| && t.controls[c].found < |t.runs| { SendUntold(t, id, connection, c); }
    case _ => OtherUntold(t, id, connection, step);
  }

  /** However things go on without another close of the connection, no close ever tells
      the run that such a start leaves behind to terminate. */
  lemma {:induction false} StartInFlightNeverTold(r: Request, more: seq<Step>)
    requires Plain(r) && Closes(r.connection) !in more
    ensures var t := After([Enters(r), Closes(r.connection), Inserts(0)] + more);
            Untold(t, 0, r.connection)
    decreases |more|
  {
    var steps := [Enters(r), Closes(r.connection), Inserts(0)];
    if more == [] {
      assert steps + more == steps;
      StartInFlightSurvives(r);
    } else {
      var n := |more| - 1;
      assert (steps + more)[..|steps + more| - 1] == steps + more[..n];
      StartInFlightNeverTold(r, more[..n]);
      StepUntold(After(steps + more[..n]), 0, r.connection, more[n]);
    }
  }

  lemma CloseNothing(t: Table, connection: nat)
    requires t.sessions == map[]
    ensures CloseConnection(t, connection) == t.(closed := t.closed + {connection})
  {
    assert OnConnection(t, connection) == {};
    assert Evict(t.runs, {}) == t.runs;
  }

  lemma CloseOne(t: Table, connection: nat, key: Key)
    requires t.sessions == map[key := 0] && |t.runs| == 1 && key.connection == connection && !t.runs[0].windows
    ensures CloseConnection(t, connection) ==
            t.(sessions := map[], closed := t.closed + {connection}, owed := t.owed + {0},
               runs := [t.runs[0].(evicted := true)])
  {
    assert OnConnection(t, connection) == {key};
    assert (set k | k in {key} :: t.sessions[k]) == {0};
    assert t.sessions - {key} == map[];
  }

  /** Starting the same process id again after a close lets the first run's clean-up
      take away the second run's entry. */
  lemma RestartAfterCloseSteals(r: Request)
    requires Plain(r)
    ensures var t := After([Enters(r), Inserts(0), SpawnOk(0), Closes(r.connection),
                            Enters(r), Inserts(1), ProcessEnds(0)]);
            |t.runs| == 2 && Live(t.runs[0]) && Live(t.runs[1]) && Steals(t, 0)
  {
    var steps := [Enters(r), Inserts(0), SpawnOk(0), Closes(r.connection), Enters(r), Inserts(1), ProcessEnds(0)];
    assert steps[..0] == [] && steps[..7] == steps;
    forall n: nat | n < 7 ensures After(steps[..n + 1]) == OnStep(After(steps[..n]), steps[n]) {
      AfterOneMore(steps, n);
    }
    var run, key := RunFor(r, 0), Key(r.connection, Client(r.process.value));
    FirstRuns(r, After(steps[..1]), After(steps[..2]), After(steps[..3]), After(steps[..4]));
    SecondEnters(r, After(steps[..4]), After(steps[..5]), After(steps[..6]), After(steps[..7]));
  }

  /** The table after the first run was started and its connection closed. */
  function Abandoned(r: Request): Table
    requires Plain(r)
  {
    EMPTY.(runs := [RunFor(r, 0).(registered := true, phase := Running, evicted := true)],
           owed := {0}, closed := {r.connection})
  }

  lemma FirstRuns(r: Request, t1: Table, t2: Table, t3: Table, t4: Table)
    requires Plain(r) && t1 == OnStep(EMPTY, Enters(r)) && t2 == OnStep(t1, Inserts(0))
    requires t3 == OnStep(t2, SpawnOk(0)) && t4 == OnStep(t3, Closes(r.connection))
    ensures t4 == Abandoned(r)
  {
    PlainEnters(EMPTY, r);
    PlainInserts(t1, 0);
    assert t3.runs == [RunFor(r, 0).(registered := true, phase := Running)];
    CloseOne(t3, r.connection, RunFor(r, 0).key);
  }

  lemma SecondEnters(r: Request, t4: Table, t5: Table, t6: Table, t7: Table)
    requires Plain(r) && t4 == Abandoned(r)
    requires t5 == OnStep(t4, Enters(r)) && t6 == OnStep(t5, Inserts(1)) && t7 == OnStep(t6, ProcessEnds(0))
    ensures |t7.runs| == 2 && Live(t7.runs[0]) && Live(t7.runs[1]) && Steals(t7, 0)
  {
    PlainEnters(t4, r);
    PlainInserts(t5, 1);
  }
}

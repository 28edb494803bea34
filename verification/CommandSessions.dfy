/** The table of running commands. Starting a command, passing it a control and
    closing a connection each take several sections under the table's lock, and the
    sections of all tasks interleave; every section is one step. */
module CommandSessions {
  import opened Common

  datatype ProcessId = Generated(int) | Client(name: string)

  datatype Key = Key(connection: nat, process: ProcessId)

  /** A 64-bit signed counter value after `n` increments from zero. */
  function ToI64(n: nat): int {
    (n + 0x8000_0000_0000_0000) % 0x1_0000_0000_0000_0000 - 0x8000_0000_0000_0000
  }

  const I64_SPAN: nat := 0x1_0000_0000_0000_0000

  /** The counter gives different ids until it has gone all the way round. */
  lemma ToI64Injective(m: nat, n: nat)
    requires 1 <= m <= I64_SPAN && 1 <= n <= I64_SPAN && ToI64(m) == ToI64(n)
    ensures m == n
  {
  }

  datatype Control = Write | Resize | Terminate

  /** Where a run is: it has its id and waits for the lock, is being spawned, runs, is
      done but still to clean up, or is over. */
  datatype Phase = Entering | Spawning | Running | Done | Over

  type RunId = nat

  type ControlId = nat

  /** What can be in a run's mailbox: a control of a client, or the Terminate of a
      closing connection. */
  datatype Mail = FromControl(id: ControlId) | FromClose

  /** `inbox` is all the mail a run was ever sent; it has received the first `read`. */
  datatype Run = Run(
    key: Key,
    windows: bool,
    registered: bool,
    serial: nat,
    phase: Phase,
    inbox: seq<Mail>,
    read: nat,
    evicted: bool,
    told: bool)

  datatype Fate = Waiting | Queued | Failed

  /** A control on its way to the run that was found under the key. */
  datatype Passing = Passing(key: Key, found: RunId, control: Control, fate: Fate)

  /** `sessions` maps a key to the run that registered it; `owed` are the runs a
      closing connection has yet to send Terminate to, and `closed` the connections
      that were closed. */
  datatype Table = Table(
    sessions: map<Key, RunId>,
    runs: seq<Run>,
    generated: nat,
    owed: set<RunId>,
    closed: set<nat>,
    controls: seq<Passing>)

  const EMPTY := Table(map[], [], 0, {}, {}, [])

  const MAILBOX_CAPACITY := 32

  predicate Live(run: Run) {
    run.phase.Spawning? || run.phase.Running? || run.phase.Done?
  }

  /** The run's control receiver is there. */
  predicate Listening(run: Run) {
    !run.windows && (run.phase.Spawning? || run.phase.Running?)
  }

  predicate Full(run: Run) {
    |run.inbox| >= run.read + MAILBOX_CAPACITY
  }

  // ----- starting -----

  datatype Request = Request(
    connection: nat,
    process: Option<string>,
    streaming: bool,
    windows: bool,
    customCap: bool,
    emptyCommand: bool)

  datatype StartError = NeedsProcessId | StreamingOnWindows | CapOnWindows | EmptyCommand | DuplicateProcess

  datatype Entered = Entered(table: Table, result: Result<RunId, StartError>)

  function Counted(t: Table, r: Request): Table {
    if r.process.None? then t.(generated := t.generated + 1) else t
  }

  function KeyFor(t: Table, r: Request): Key {
    Key(r.connection, if r.process.None? then Generated(ToI64(t.generated + 1)) else Client(r.process.value))
  }

  function AddRun(t: Table, key: Key, windows: bool, serial: nat, phase: Phase): Entered {
    Entered(t.(runs := t.runs + [Run(key, windows, false, serial, phase, [], 0, false, false)]), Ok(|t.runs|))
  }

  /** A start up to the point where it waits for the lock. An id is used up even if
      the start fails later. On Windows a command without a client's id is started
      without being entered in the table. */
  function Enter(t: Table, r: Request): Entered {
    if r.process.None? && r.streaming then Entered(t, Err(NeedsProcessId))
    else
      var counted, key := Counted(t, r), KeyFor(t, r);
      if r.windows then
        if r.streaming then Entered(counted, Err(StreamingOnWindows))
        else if r.customCap then Entered(counted, Err(CapOnWindows))
        else AddRun(counted, key, true, t.generated, if r.process.None? then Running else Entering)
      else if r.emptyCommand then Entered(counted, Err(EmptyCommand))
      else AddRun(counted, key, false, t.generated, Entering)
  }

  function WithRun(t: Table, id: RunId, run: Run): Table
    requires id < |t.runs|
  {
    t.(runs := t.runs[id := run])
  }

  /** The start has the lock: it registers its key, or finds it taken and fails. */
  function Insert(t: Table, id: RunId): Table
    requires id < |t.runs|
  {
    var run := t.runs[id];
    if run.key in t.sessions then WithRun(t, id, run.(phase := Over))
    else
      WithRun(t, id, run.(registered := true, phase := if run.windows then Running else Spawning))
      .(sessions := t.sessions[run.key := id])
  }

  // ----- ending and closing -----

  /** The runs once the entries of `losers` are gone from the table. */
  function Evict(runs: seq<Run>, losers: set<RunId>): (r: seq<Run>)
    ensures |r| == |runs|
    ensures forall i | 0 <= i < |runs| :: r[i] == if i in losers then runs[i].(evicted := true) else runs[i]
  {
    seq(|runs|, i requires 0 <= i < |runs| => if i in losers then runs[i].(evicted := true) else runs[i])
  }

  /** A run ends by removing whatever is registered under its key. */
  function Remove(t: Table, id: RunId): Table
    requires id < |t.runs|
  {
    var key := t.runs[id].key;
    var loser := if key in t.sessions && t.sessions[key] != id then {t.sessions[key]} else {};
    t.(runs := Evict(t.runs, loser)[id := t.runs[id].(phase := Over)], sessions := t.sessions - {key})
  }

  function OnConnection(t: Table, connection: nat): set<Key> {
    set k | k in t.sessions && k.connection == connection
  }

  /** The locked part of closing a connection: its entries go, and the runs they
      belong to are owed a Terminate. */
  function CloseConnection(t: Table, connection: nat): Table {
    var gone := OnConnection(t, connection);
    var hit := set k | k in gone :: t.sessions[k];
    t.(sessions := t.sessions - gone,
       closed := t.closed + {connection},
       owed := t.owed + (set id | id in hit && id < |t.runs| && !t.runs[id].windows),
       runs := Evict(t.runs, hit))
  }

  function Post(run: Run, mail: Mail): Run {
    run.(inbox := run.inbox + [mail])
  }

  /** The rest of closing a connection, one send at a time. A full mailbox makes the
      sender wait; a receiver that is gone makes the send fail, which is ignored. */
  function SendTerminate(t: Table, id: RunId): Table
    requires id < |t.runs|
  {
    var run := t.runs[id];
    if id !in t.owed then t
    else if !Listening(run) then t.(owed := t.owed - {id})
    else if Full(run) then t
    else WithRun(t, id, Post(run, FromClose).(told := true)).(owed := t.owed - {id})
  }

  // ----- controls -----

  datatype ControlError = NoActiveCommand | UnsupportedOnWindows

  datatype Found = Found(table: Table, result: Result<ControlId, ControlError>)

  /** Every entry names a run. */
  predicate Pointed(t: Table) {
    forall k | k in t.sessions :: t.sessions[k] < |t.runs|
  }

  /** The locked part of passing a control on: the session under the key is looked up
      and its sender copied. */
  function LookUp(t: Table, key: Key, control: Control): Found
    requires Pointed(t)
  {
    if key !in t.sessions then Found(t, Err(NoActiveCommand))
    else if t.runs[t.sessions[key]].windows then Found(t, Err(UnsupportedOnWindows))
    else Found(t.(controls := t.controls + [Passing(key, t.sessions[key], control, Waiting)]), Ok(|t.controls|))
  }

  function WithFate(t: Table, c: ControlId, fate: Fate): Table
    requires c < |t.controls|
  {
    t.(controls := t.controls[c := t.controls[c].(fate := fate)])
  }

  /** An attempt to send a control with the copied sender, whatever has become of the
      table since. A full mailbox makes it wait. */
  function SendControl(t: Table, c: ControlId): Table
    requires c < |t.controls| && t.controls[c].found < |t.runs|
  {
    var p := t.controls[c];
    var run := t.runs[p.found];
    if !p.fate.Waiting? then t
    else if !Listening(run) then WithFate(t, c, Failed)
    else if Full(run) then t
    else WithFate(WithRun(t, p.found, Post(run, FromControl(c))), c, Queued)
  }

  // ----- interleavings -----

  datatype Step =
    | Enters(request: Request)
    | Inserts(id: RunId)
    | SpawnOk(id: RunId)
    | SpawnFails(id: RunId)
    | ProcessEnds(id: RunId)
    | CleanUp(id: RunId)
    | Closes(connection: nat)
    | PassTerminate(id: RunId)
    | LooksUp(key: Key, control: Control)
    | Sends(c: ControlId)
    | Receive(id: RunId)

  predicate In(t: Table, id: RunId, phase: Phase) {
    id < |t.runs| && t.runs[id].phase == phase
  }

  function OnStep(t: Table, step: Step): Table {
    match step
    case Enters(request) => Enter(t, request).table
    case Inserts(id) => if In(t, id, Entering) then Insert(t, id) else t
    case SpawnOk(id) => if In(t, id, Spawning) then WithRun(t, id, t.runs[id].(phase := Running)) else t
    case SpawnFails(id) => if In(t, id, Spawning) then Remove(t, id) else t
    case ProcessEnds(id) => if In(t, id, Running) then WithRun(t, id, t.runs[id].(phase := Done)) else t
    case CleanUp(id) => if In(t, id, Done) then Remove(t, id) else t
    case Closes(connection) => CloseConnection(t, connection)
    case PassTerminate(id) => if id < |t.runs| then SendTerminate(t, id) else t
    case LooksUp(key, control) => if Pointed(t) then LookUp(t, key, control).table else t
    case Sends(c) => if c < |t.controls| && t.controls[c].found < |t.runs| then SendControl(t, c) else t
    case Receive(id) =>
      if In(t, id, Running) && t.runs[id].read < |t.runs[id].inbox|
      then WithRun(t, id, t.runs[id].(read := t.runs[id].read + 1)) else t
  }

  function After(steps: seq<Step>): Table {
    if steps == [] then EMPTY else OnStep(After(steps[..|steps| - 1]), steps[|steps| - 1])
  }

  lemma AfterOneMore(steps: seq<Step>, n: nat)
    requires n < |steps|
    ensures After(steps[..n + 1]) == OnStep(After(steps[..n]), steps[n])
  {
    assert steps[..n + 1][..n] == steps[..n];
  }

  // ----- ownership -----

  /** The step removes an entry that another run registered. */
  ghost predicate Steals(t: Table, id: RunId)
    requires id < |t.runs|
  {
    t.runs[id].key in t.sessions && t.sessions[t.runs[id].key] != id
  }

  /** Every entry points at a live run with that key that has not lost it. */
  ghost predicate Entries(t: Table) {
    forall k | k in t.sessions ::
      t.sessions[k] < |t.runs| && Holds(t.runs[t.sessions[k]]) && t.runs[t.sessions[k]].key == k
  }

  predicate Holds(run: Run) {
    Live(run) && run.registered && !run.evicted
  }

  /** Every live run that registered and was not evicted still has its entry. */
  ghost predicate Holders(t: Table) {
    forall id | 0 <= id < |t.runs| && Holds(t.runs[id]) ::
      t.runs[id].key in t.sessions && t.sessions[t.runs[id].key] == id
  }

  /** Generated ids come from the counter, one for each run; only runs with such ids
      are live without having registered. */
  ghost predicate Serials(t: Table) {
    && (forall id | 0 <= id < |t.runs| :: t.runs[id].key.process.Generated? ==>
          t.runs[id].serial < t.generated && t.runs[id].key.process == Generated(ToI64(t.runs[id].serial + 1)))
    && (forall i, j | 0 <= i < j < |t.runs| :: t.runs[i].key.process.Generated? && t.runs[j].key.process.Generated? ==>
          t.runs[i].serial != t.runs[j].serial)
    && (forall id | 0 <= id < |t.runs| && Live(t.runs[id]) ::
          t.runs[id].registered || t.runs[id].key.process.Generated?)
  }

  /** Runs lose entries only after a close on their connection, and only registered ones do. */
  ghost predicate Causes(t: Table) {
    forall id | 0 <= id < |t.runs| && t.runs[id].evicted ::
      t.runs[id].registered && t.runs[id].key.connection in t.closed
  }

  /** Runs that have not got the lock yet have registered nothing. */
  ghost predicate Unregistered(t: Table) {
    forall id | 0 <= id < |t.runs| && t.runs[id].phase.Entering? :: !t.runs[id].registered
  }

  ghost predicate Owned(t: Table) {
    Entries(t) && Holders(t) && Serials(t) && Causes(t) && Unregistered(t)
  }

  lemma AddSerials(t: Table, key: Key, windows: bool, serial: nat, phase: Phase)
    requires Serials(t) && Causes(t) && Unregistered(t) && (phase.Entering? || key.process.Generated?)
    requires key.process.Generated? ==> serial < t.generated && key.process == Generated(ToI64(serial + 1))
    requires key.process.Generated? ==>
               forall i | 0 <= i < |t.runs| && t.runs[i].key.process.Generated? :: t.runs[i].serial != serial
    ensures var u := AddRun(t, key, windows, serial, phase).table; Serials(u) && Causes(u) && Unregistered(u)
  {
    AddedSerial(t, key, windows, serial, phase);
    AddCauses(t, key, windows, serial, phase);
    var u := AddRun(t, key, windows, serial, phase).table;
    assert forall i | 0 <= i < |t.runs| :: u.runs[i] == t.runs[i];
  }

  lemma AddCauses(t: Table, key: Key, windows: bool, serial: nat, phase: Phase)
    requires Causes(t) && Unregistered(t) && (phase.Entering? || key.process.Generated?)
    ensures var u := AddRun(t, key, windows, serial, phase).table; Causes(u) && Unregistered(u)
  {
    var u := AddRun(t, key, windows, serial, phase).table;
    assert forall i | 0 <= i < |t.runs| :: u.runs[i] == t.runs[i];
  }

  lemma AddEntries(t: Table, key: Key, windows: bool, serial: nat, phase: Phase)
    requires Entries(t) && Holders(t)
    ensures var u := AddRun(t, key, windows, serial, phase).table; Entries(u) && Holders(u)
  {
    var u := AddRun(t, key, windows, serial, phase).table;
    assert forall i | 0 <= i < |t.runs| :: u.runs[i] == t.runs[i];
  }

  lemma AddedSerial(t: Table, key: Key, windows: bool, serial: nat, phase: Phase)
    requires Serials(t)
    requires key.process.Generated? ==>
               forall i | 0 <= i < |t.runs| && t.runs[i].key.process.Generated? :: t.runs[i].serial != serial
    ensures var u := AddRun(t, key, windows, serial, phase).table;
            forall i, j | 0 <= i < j < |u.runs| ::
              u.runs[i].key.process.Generated? && u.runs[j].key.process.Generated? ==>
                u.runs[i].serial != u.runs[j].serial
  {
    var u := AddRun(t, key, windows, serial, phase).table;
    assert forall i | 0 <= i < |t.runs| :: u.runs[i] == t.runs[i];
  }

  /** Entering leaves the table alone, uses up an id, or adds a run that has registered nothing. */
  lemma EnterCases(t: Table, r: Request)
    ensures var u := Enter(t, r).table;
            || u == t || u == Counted(t, r)
            || u == AddRun(Counted(t, r), KeyFor(t, r), r.windows, t.generated, Entering).table
            || (r.process.None? && u == AddRun(Counted(t, r), KeyFor(t, r), true, t.generated, Running).table)
  {
  }

  lemma CountOwned(t: Table, r: Request)
    requires Owned(t)
    ensures Owned(Counted(t, r))
  {
  }

  lemma EnterOwned(t: Table, r: Request)
    requires Owned(t)
    ensures Owned(Enter(t, r).table)
  {
    var counted := Counted(t, r);
    EnterCases(t, r);
    CountOwned(t, r);
    AddEntries(counted, KeyFor(t, r), r.windows, t.generated, Entering);
    AddSerials(counted, KeyFor(t, r), r.windows, t.generated, Entering);
    if r.process.None? {
      AddEntries(counted, KeyFor(t, r), true, t.generated, Running);
      AddSerials(counted, KeyFor(t, r), true, t.generated, Running);
    }
  }

  lemma InsertEntries(t: Table, id: RunId)
    requires Owned(t) && In(t, id, Entering)
    ensures Entries(Insert(t, id)) && Holders(Insert(t, id))
  {
    var u, key := Insert(t, id), t.runs[id].key;
    forall k | k in t.sessions ensures t.sessions[k] != id && u.runs[t.sessions[k]] == t.runs[t.sessions[k]] {
      assert Holds(t.runs[t.sessions[k]]);
    }
    forall i | 0 <= i < |t.runs| && i != id && Holds(u.runs[i]) ensures key !in t.sessions ==> u.runs[i].key != key {
      assert Holds(t.runs[i]);
    }
  }

  lemma InsertSerials(t: Table, id: RunId)
    requires Serials(t) && Causes(t) && Unregistered(t) && In(t, id, Entering)
    ensures Serials(Insert(t, id)) && Causes(Insert(t, id)) && Unregistered(Insert(t, id))
  {
    var u := Insert(t, id);
    assert forall i | 0 <= i < |t.runs| && i != id :: u.runs[i] == t.runs[i];
    assert u.runs[id].key == t.runs[id].key && u.runs[id].serial == t.runs[id].serial;
  }

  lemma InsertOwned(t: Table, id: RunId)
    requires Owned(t) && In(t, id, Entering)
    ensures Owned(Insert(t, id))
  {
    InsertEntries(t, id);
    InsertSerials(t, id);
  }

  /** Changes that keep every run's identity keep the bookkeeping of ids. */
  lemma SameIdentities(t: Table, u: Table)
    requires Serials(t) && |u.runs| == |t.runs| && u.generated == t.generated
    requires forall i | 0 <= i < |t.runs| ::
               && u.runs[i].key == t.runs[i].key && u.runs[i].serial == t.runs[i].serial
               && u.runs[i].registered == t.runs[i].registered && (Live(u.runs[i]) ==> Live(t.runs[i]))
               && (u.runs[i].phase.Entering? ==> t.runs[i].phase.Entering?)
    requires Unregistered(t)
    ensures Serials(u) && Unregistered(u)
  {
  }

  /** Which run changes when `id` ends: itself, and the run it robs. */
  ghost predicate RemovedFrom(t: Table, u: Table, id: RunId)
    requires id < |t.runs|
  {
    var key := t.runs[id].key;
    && |u.runs| == |t.runs| && u == t.(runs := u.runs, sessions := t.sessions - {key})
    && (forall i | 0 <= i < |t.runs| && i != id ::
          u.runs[i] == if key in t.sessions && t.sessions[key] == i then t.runs[i].(evicted := true) else t.runs[i])
    && u.runs[id] == t.runs[id].(phase := Over)
  }

  lemma RemoveRuns(t: Table, id: RunId)
    requires id < |t.runs|
    ensures RemovedFrom(t, Remove(t, id), id)
  {
  }

  lemma RemovedOwned(t: Table, u: Table, id: RunId)
    requires Owned(t) && id < |t.runs| && RemovedFrom(t, u, id)
    requires Steals(t, id) ==> t.runs[id].key.connection in t.closed
    ensures Owned(u)
  {
    SameIdentities(t, u);
    assert Entries(u) by {
      forall k | k in u.sessions ensures u.runs[u.sessions[k]] == t.runs[t.sessions[k]] {
        assert k in t.sessions && t.runs[t.sessions[k]].key == k;
      }
    }
    assert Holders(u) by {
      forall i | 0 <= i < |u.runs| && Holds(u.runs[i])
        ensures u.runs[i].key in u.sessions && u.sessions[u.runs[i].key] == i
      {
        assert u.runs[i] == t.runs[i];
      }
    }
  }

  /** Ending a run keeps the books, even when it takes away another run's entry. */
  lemma RemoveOwned(t: Table, id: RunId)
    requires Owned(t) && id < |t.runs| && Live(t.runs[id]) && t.generated <= I64_SPAN
    ensures Owned(Remove(t, id))
  {
    StealsIff(t, id);
    RemoveRuns(t, id);
    RemovedOwned(t, Remove(t, id), id);
  }

  /** The table and who is who in it are as before; what changes is how far runs
      and controls have got. */
  ghost predicate Progressed(t: Table, u: Table) {
    && u == t.(runs := u.runs, owed := u.owed, controls := u.controls) && |u.runs| == |t.runs|
    && (forall i | 0 <= i < |t.runs| :: RunProgressed(t.runs[i], u.runs[i]))
    && (forall i | 0 <= i < |t.runs| && i in t.owed && i !in u.owed :: u.runs[i].told || !Listening(u.runs[i]))
  }

  predicate RunProgressed(was: Run, now: Run) {
    && now == was.(phase := now.phase, inbox := now.inbox, read := now.read, told := now.told)
    && Live(now) == Live(was) && (Listening(now) ==> Listening(was)) && (was.told ==> now.told)
    && (now.phase.Entering? ==> was.phase.Entering?)
  }

  lemma OneProgressed(t: Table, id: RunId, run: Run)
    requires id < |t.runs| && RunProgressed(t.runs[id], run)
    ensures Progressed(t, WithRun(t, id, run))
  {
  }

  lemma SendProgresses(t: Table, c: ControlId)
    requires c < |t.controls| && t.controls[c].found < |t.runs|
    ensures Progressed(t, SendControl(t, c))
  {
    var id := t.controls[c].found;
    OneProgressed(t, id, Post(t.runs[id], FromControl(c)));
  }

  predicate Progressing(t: Table, step: Step) {
    match step
    case SpawnOk(_) => true
    case ProcessEnds(_) => true
    case PassTerminate(_) => true
    case LooksUp(_, _) => true
    case Sends(_) => true
    case Receive(_) => true
    case Inserts(id) => id < |t.runs| ==> t.runs[id].key in t.sessions
    case _ => false
  }

  lemma TerminateProgresses(t: Table, id: RunId)
    requires id < |t.runs|
    ensures Progressed(t, SendTerminate(t, id))
  {
    OneProgressed(t, id, Post(t.runs[id], FromClose).(told := true));
  }

  lemma StepProgresses(t: Table, step: Step)
    requires Progressing(t, step)
    ensures Progressed(t, OnStep(t, step))
  {
    match step
    case SpawnOk(id) => if In(t, id, Spawning) { OneProgressed(t, id, t.runs[id].(phase := Running)); }
    case ProcessEnds(id) => if In(t, id, Running) { OneProgressed(t, id, t.runs[id].(phase := Done)); }
    case PassTerminate(id) =>
      if id < |t.runs| { TerminateProgresses(t, id); }
    case LooksUp(key, control) =>
    case Sends(c) => if c < |t.controls| && t.controls[c].found < |t.runs| { SendProgresses(t, c); }
    case Receive(id) =>
      if id < |t.runs| { OneProgressed(t, id, t.runs[id].(read := t.runs[id].read + 1)); }
    case Inserts(id) => if In(t, id, Entering) { OneProgressed(t, id, t.runs[id].(phase := Over)); }
  }

  lemma ProgressOwned(t: Table, u: Table)
    requires Owned(t) && Progressed(t, u)
    ensures Owned(u)
  {
    SameIdentities(t, u);
    assert forall i | 0 <= i < |t.runs| :: Holds(u.runs[i]) <==> Holds(t.runs[i]);
  }

  lemma CloseOwned(t: Table, connection: nat)
    requires Owned(t)
    ensures Owned(CloseConnection(t, connection))
    ensures forall k | k in CloseConnection(t, connection).sessions :: k.connection != connection
  {
    var u := CloseConnection(t, connection);
    var hit := set k | k in OnConnection(t, connection) :: t.sessions[k];
    forall i | i in hit ensures i < |t.runs| && t.runs[i].registered && t.runs[i].key in OnConnection(t, connection) {
      var k :| k in OnConnection(t, connection) && t.sessions[k] == i;
      assert k in t.sessions;
    }
    SameIdentities(t, u);
    assert Entries(u) by {
      forall k | k in u.sessions ensures u.sessions[k] !in hit {
        assert k in t.sessions && t.runs[t.sessions[k]].key == k;
      }
    }
    assert Holders(u) by {
      assert forall k | k in OnConnection(t, connection) :: t.sessions[k] in hit;
      forall id | 0 <= id < |u.runs| && Holds(u.runs[id]) ensures t.runs[id].key !in OnConnection(t, connection) {
        assert Holds(t.runs[id]);
      }
    }
  }

  /** A run's clean-up takes away another run's entry exactly when the run lost its
      own entry before and its key has been registered again. Runs that never
      registered cannot do it. */
  lemma StealsIff(t: Table, id: RunId)
    requires Owned(t) && id < |t.runs| && Live(t.runs[id]) && t.generated <= I64_SPAN
    ensures Steals(t, id) <==> t.runs[id].evicted && t.runs[id].key in t.sessions
    ensures t.runs[id].evicted ==> t.runs[id].key.connection in t.closed
  {
    var run := t.runs[id];
    if run.key in t.sessions && run.key.process.Generated? {
      assert Holds(t.runs[t.sessions[run.key]]);
      GeneratedUnique(t, id, t.sessions[run.key]);
    }
  }

  /** Until the counter wraps, no two runs share a generated id. */
  lemma GeneratedUnique(t: Table, i: RunId, j: RunId)
    requires Serials(t) && t.generated <= I64_SPAN && i < |t.runs| && j < |t.runs|
    requires t.runs[i].key == t.runs[j].key && t.runs[i].key.process.Generated?
    ensures i == j
  {
    ToI64Injective(t.runs[i].serial + 1, t.runs[j].serial + 1);
  }

  // ----- every interleaving -----

  lemma StepOwned(t: Table, step: Step)
    requires Owned(t) && t.generated <= I64_SPAN
    ensures Owned(OnStep(t, step))
  {
    match step
    case Enters(request) => EnterOwned(t, request);
    case Inserts(id) => if In(t, id, Entering) { InsertOwned(t, id); }
    case SpawnFails(id) => if In(t, id, Spawning) { RemoveOwned(t, id); }
    case CleanUp(id) => if In(t, id, Done) { RemoveOwned(t, id); }
    case Closes(connection) => CloseOwned(t, connection);
    case _ =>
      StepProgresses(t, step);
      ProgressOwned(t, OnStep(t, step));
  }

  lemma GeneratedGrows(t: Table, step: Step)
    ensures t.generated <= OnStep(t, step).generated
    ensures t.closed <= OnStep(t, step).closed
  {
  }

  lemma {:induction false} AfterOwned(steps: seq<Step>)
    requires After(steps).generated <= I64_SPAN
    ensures Owned(After(steps))
  {
    if steps != [] {
      var t := After(steps[..|steps| - 1]);
      GeneratedGrows(t, steps[|steps| - 1]);
      AfterOwned(steps[..|steps| - 1]);
      StepOwned(t, steps[|steps| - 1]);
    }
  }

  /** In every interleaving, a run that ends takes away another run's entry exactly
      when it had lost its own and its key was registered again since; in particular
      it never happens on a connection that was not closed. */
  lemma RemovalsHitTheirOwn(steps: seq<Step>, id: RunId)
    requires var t := After(steps); t.generated <= I64_SPAN && id < |t.runs| && Live(t.runs[id])
    ensures var t := After(steps);
            && (Steals(t, id) <==> t.runs[id].evicted && t.runs[id].key in t.sessions)
            && (Steals(t, id) ==> t.runs[id].key.connection in t.closed)
  {
    AfterOwned(steps);
    StealsIff(After(steps), id);
  }

  // ----- interleavings in which nothing registers on a closed connection -----

  /** The step does not register a key of a closed connection. */
  predicate Allowed(t: Table, step: Step) {
    step.Inserts? && In(t, step.id, Entering) && t.runs[step.id].key !in t.sessions ==>
      t.runs[step.id].key.connection !in t.closed
  }

  ghost predicate Disciplined(steps: seq<Step>) {
    forall n: nat | n < |steps| :: Allowed(After(steps[..n]), steps[n])
  }

  ghost predicate ClosedEmpty(t: Table) {
    forall k | k in t.sessions :: k.connection !in t.closed
  }

  /** Closed connections have no entries, and no two live runs share a key. */
  ghost predicate Exclusive(t: Table) {
    && ClosedEmpty(t)
    && (forall i, j | 0 <= i < j < |t.runs| && Live(t.runs[i]) && Live(t.runs[j]) :: t.runs[i].key != t.runs[j].key)
  }

  /** Every command run that a close evicted is owed a Terminate, was sent one, or no
      longer listens. */
  ghost predicate Notified(t: Table) {
    forall id | 0 <= id < |t.runs| && t.runs[id].evicted && Listening(t.runs[id]) :: id in t.owed || t.runs[id].told
  }

  /** Changing runs in place, without reviving any. */
  lemma ExclusiveKept(t: Table, u: Table)
    requires Exclusive(t) && |u.runs| == |t.runs| && u.closed == t.closed && u.sessions.Keys <= t.sessions.Keys
    requires forall i | 0 <= i < |t.runs| :: u.runs[i].key == t.runs[i].key && (Live(u.runs[i]) ==> Live(t.runs[i]))
    ensures Exclusive(u)
  {
  }

  /** A run under a generated id shares its key with no other run. */
  lemma EnterExclusive(t: Table, r: Request)
    requires Owned(t) && Exclusive(t) && Enter(t, r).table.generated <= I64_SPAN
    ensures Exclusive(Enter(t, r).table)
  {
    var u, n := Enter(t, r).table, |t.runs|;
    EnterOwned(t, r);
    if |u.runs| > n {
      forall i | 0 <= i < n ensures u.runs[i] == t.runs[i] && (Live(u.runs[n]) ==> u.runs[n].key != u.runs[i].key) {
        if Live(u.runs[n]) && u.runs[n].key == u.runs[i].key {
          GeneratedUnique(u, n, i);
        }
      }
    }
  }

  /** A key that can be registered is not the key of a live run. */
  lemma FreshKey(t: Table, id: RunId, i: RunId)
    requires Owned(t) && t.generated <= I64_SPAN && In(t, id, Entering) && i < |t.runs| && Live(t.runs[i])
    requires t.runs[id].key !in t.sessions && t.runs[id].key.connection !in t.closed
    ensures t.runs[i].key != t.runs[id].key
  {
    var run, key := t.runs[i], t.runs[id].key;
    assert run.registered && run.key == key ==> Holds(run);
    if !run.registered && run.key == key {
      GeneratedUnique(t, i, id);
    }
  }

  lemma InsertExclusive(t: Table, id: RunId)
    requires Owned(t) && Exclusive(t) && t.generated <= I64_SPAN && In(t, id, Entering) && Allowed(t, Inserts(id))
    ensures Exclusive(Insert(t, id))
  {
    var u := Insert(t, id);
    if t.runs[id].key !in t.sessions {
      forall i | 0 <= i < |t.runs| && i != id
        ensures u.runs[i] == t.runs[i] && (Live(t.runs[i]) ==> u.runs[id].key != t.runs[i].key)
      {
        if Live(t.runs[i]) {
          FreshKey(t, id, i);
        }
      }
    }
  }

  lemma RemoveExclusive(t: Table, id: RunId)
    requires Exclusive(t) && id < |t.runs|
    ensures Exclusive(Remove(t, id))
  {
    RemoveRuns(t, id);
    ExclusiveKept(t, Remove(t, id));
  }

  lemma CloseExclusive(t: Table, connection: nat)
    requires Owned(t) && Exclusive(t)
    ensures Exclusive(CloseConnection(t, connection))
  {
    CloseOwned(t, connection);
    ExclusiveKept(t, CloseConnection(t, connection).(closed := t.closed));
  }

  lemma ProgressExclusive(t: Table, u: Table)
    requires Exclusive(t) && Progressed(t, u)
    ensures Exclusive(u)
  {
    ExclusiveKept(t, u);
  }

  lemma StepExclusive(t: Table, step: Step)
    requires Owned(t) && Exclusive(t) && Allowed(t, step) && OnStep(t, step).generated <= I64_SPAN
    ensures Exclusive(OnStep(t, step))
  {
    GeneratedGrows(t, step);
    match step
    case Enters(request) => EnterExclusive(t, request);
    case Inserts(id) => if In(t, id, Entering) { InsertExclusive(t, id); }
    case SpawnFails(id) => if id < |t.runs| { RemoveExclusive(t, id); }
    case CleanUp(id) => if id < |t.runs| { RemoveExclusive(t, id); }
    case Closes(connection) => CloseExclusive(t, connection);
    case _ => OtherExclusive(t, step);
  }

  lemma OtherExclusive(t: Table, step: Step)
    requires !(step.Enters? || step.Inserts? || step.SpawnFails? || step.CleanUp? || step.Closes?) && Exclusive(t)
    ensures Exclusive(OnStep(t, step))
  {
    StepProgresses(t, step);
    ProgressExclusive(t, OnStep(t, step));
  }

  /** On such interleavings nobody is robbed. */
  lemma NeverSteals(t: Table, id: RunId)
    requires Owned(t) && Exclusive(t) && id < |t.runs| && Live(t.runs[id]) && t.generated <= I64_SPAN
    ensures !Steals(t, id)
  {
    StealsIff(t, id);
  }

  lemma RemoveNotified(t: Table, id: RunId)
    requires Owned(t) && Exclusive(t) && Notified(t) && t.generated <= I64_SPAN && id < |t.runs| && Live(t.runs[id])
    ensures Notified(Remove(t, id))
  {
    NeverSteals(t, id);
    RemoveRuns(t, id);
  }

  lemma EnterNotified(t: Table, r: Request)
    requires Notified(t)
    ensures Notified(Enter(t, r).table)
  {
    var u := Enter(t, r).table;
    assert forall i | 0 <= i < |t.runs| :: u.runs[i] == t.runs[i];
  }

  lemma InsertNotified(t: Table, id: RunId)
    requires Notified(t) && Owned(t) && In(t, id, Entering)
    ensures Notified(Insert(t, id))
  {
  }

  lemma ProgressNotified(t: Table, u: Table)
    requires Notified(t) && Progressed(t, u)
    ensures Notified(u)
  {
    forall i | 0 <= i < |u.runs| && u.runs[i].evicted && Listening(u.runs[i]) ensures i in u.owed || u.runs[i].told {
      assert RunProgressed(t.runs[i], u.runs[i]);
    }
  }

  lemma CloseNotified(t: Table, connection: nat)
    requires Owned(t) && Notified(t)
    ensures Notified(CloseConnection(t, connection))
  {
  }

  lemma StepNotified(t: Table, step: Step)
    requires Owned(t) && Exclusive(t) && Notified(t) && t.generated <= I64_SPAN
    ensures Notified(OnStep(t, step))
  {
    match step
    case Enters(request) => EnterNotified(t, request);
    case Inserts(id) => if In(t, id, Entering) { InsertNotified(t, id); }
    case SpawnFails(id) => if id < |t.runs| && Live(t.runs[id]) { RemoveNotified(t, id); }
    case CleanUp(id) => if id < |t.runs| && Live(t.runs[id]) { RemoveNotified(t, id); }
    case Closes(connection) => CloseNotified(t, connection);
    case _ =>
      StepProgresses(t, step);
      ProgressNotified(t, OnStep(t, step));
  }

  lemma DisciplinedPrefix(steps: seq<Step>, n: nat)
    requires Disciplined(steps) && n <= |steps|
    ensures Disciplined(steps[..n])
  {
    forall i: nat | i < n ensures Allowed(After(steps[..n][..i]), steps[..n][i]) {
      assert steps[..n][..i] == steps[..i];
    }
  }

  /** In every interleaving in which nothing registers on a closed connection: no two
      live runs share a key, no run ever takes away another's entry, closed
      connections have no entries, and evicted runs are notified. */
  lemma {:induction false} SessionOwnership(steps: seq<Step>)
    requires Disciplined(steps) && After(steps).generated <= I64_SPAN
    ensures var t := After(steps);
            && Owned(t) && Exclusive(t) && Notified(t)
            && (forall id | 0 <= id < |t.runs| && Live(t.runs[id]) :: !Steals(t, id))
  {
    if steps != [] {
      var n := |steps| - 1;
      var t, step := After(steps[..n]), steps[n];
      GeneratedGrows(t, step);
      DisciplinedPrefix(steps, n);
      SessionOwnership(steps[..n]);
      StepOwned(t, step);
      StepExclusive(t, step);
      StepNotified(t, step);
    }
    var t := After(steps);
    forall id | 0 <= id < |t.runs| && Live(t.runs[id]) ensures !Steals(t, id) {
      NeverSteals(t, id);
    }
  }

  lemma {:induction false} GeneratedAfter(steps: seq<Step>, n: nat)
    requires n <= |steps|
    ensures After(steps[..n]).generated <= After(steps).generated
  {
    if n == |steps| {
      assert steps[..n] == steps;
    } else {
      var m := |steps| - 1;
      assert steps[..m][..n] == steps[..n];
      GeneratedAfter(steps[..m], n);
      GeneratedGrows(After(steps[..m]), steps[m]);
    }
  }

  /** Closed connections never have entries if and only if nothing registers on one. */
  lemma ClosedStayEmpty(steps: seq<Step>)
    requires After(steps).generated <= I64_SPAN
    ensures (forall n: nat | n <= |steps| :: ClosedEmpty(After(steps[..n]))) <==> Disciplined(steps)
  {
    if Disciplined(steps) {
      forall n: nat | n <= |steps| ensures ClosedEmpty(After(steps[..n])) {
        DisciplinedPrefix(steps, n);
        GeneratedAfter(steps, n);
        SessionOwnership(steps[..n]);
      }
    }
    if forall n: nat | n <= |steps| :: ClosedEmpty(After(steps[..n])) {
      forall n: nat | n < |steps| ensures Allowed(After(steps[..n]), steps[n]) {
        AfterOneMore(steps, n);
        assert ClosedEmpty(After(steps[..n + 1]));
        RegistersIn(After(steps[..n]), steps[n]);
      }
    }
  }

  lemma RegistersIn(t: Table, step: Step)
    requires ClosedEmpty(OnStep(t, step))
    ensures Allowed(t, step)
  {
    if step.Inserts? && In(t, step.id, Entering) && t.runs[step.id].key !in t.sessions {
      assert t.runs[step.id].key in OnStep(t, step).sessions;
    }
  }

  /** Once a close has sent all it owes, every run it evicted was told to terminate or
      had stopped listening. */
  lemma ClosedRunsTold(steps: seq<Step>, id: RunId)
    requires Disciplined(steps) && After(steps).generated <= I64_SPAN
    requires id < |After(steps).runs| && After(steps).owed == {} && After(steps).runs[id].evicted
    ensures After(steps).runs[id].told || !Listening(After(steps).runs[id])
  {
    SessionOwnership(steps);
  }
}

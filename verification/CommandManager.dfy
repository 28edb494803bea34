/** The manager of running commands as an object, driven through any interleaving of
    the sections of its methods and tasks. */
module CommandManager {
  import opened Common
  import opened CommandSessions

  /** The manager's table and counter, and the history of its runs. */
  class CommandExecManager {
    var sessions: map<Key, RunId>
    var nextGenerated: nat
    var runs: seq<Run>
    var owed: set<RunId>
    var closed: set<nat>
    var controls: seq<Passing>

    function View(): Table
      reads this
    {
      Table(sessions, runs, nextGenerated, owed, closed, controls)
    }

    constructor ()
      ensures View() == EMPTY
    {
      sessions, nextGenerated, runs, owed, closed, controls := map[], 0, [], {}, {}, [];
    }

    /** The first section of a start: draws an id and checks the request. */
    method EnterStart(r: Request) returns (result: Result<RunId, StartError>)
      modifies this`nextGenerated, this`runs
      ensures Entered(View(), result) == Enter(old(View()), r)
    {
      if r.process.None? && r.streaming {
        return Err(NeedsProcessId);
      }
      var serial := nextGenerated;
      var process;
      if r.process.None? {
        process := Generated(ToI64(serial + 1));
        nextGenerated := nextGenerated + 1;
      } else {
        process := Client(r.process.value);
      }
      var key := Key(r.connection, process);
      if r.windows {
        if r.streaming {
          return Err(StreamingOnWindows);
        }
        if r.customCap {
          return Err(CapOnWindows);
        }
      } else if r.emptyCommand {
        return Err(EmptyCommand);
      }
      var phase := if r.windows && process.Generated? then Running else Entering;
      runs := runs + [Run(key, r.windows, false, serial, phase, [], 0, false, false)];
      return Ok(|runs| - 1);
    }

    /** The second section, under the lock: registers the key unless it is taken. */
    method InsertSession(id: RunId) returns (result: Result<RunId, StartError>)
      requires id < |runs|
      modifies this`sessions, this`runs
      ensures View() == Insert(old(View()), id)
      ensures result == if runs[id].key in old(sessions) then Err(DuplicateProcess) else Ok(id)
    {
      if runs[id].key in sessions {
        runs := runs[id := runs[id].(phase := Over)];
        return Err(DuplicateProcess);
      }
      sessions := sessions[runs[id].key := id];
      runs := runs[id := runs[id].(registered := true, phase := if runs[id].windows then Running else Spawning)];
      return Ok(id);
    }

    /** The last thing a run does, and what a failed spawn does. */
    method FinishRun(id: RunId)
      requires id < |runs|
      modifies this`sessions, this`runs
      ensures View() == Remove(old(View()), id)
    {
      var key := runs[id].key;
      var losers := if key in sessions && sessions[key] != id then {sessions[key]} else {};
      sessions := sessions - {key};
      runs := Evict(runs, losers)[id := runs[id].(phase := Over)];
    }

    /** Takes the entries of the connection off the table one by one and keeps the
        senders of those that can be told to terminate. */
    method ConnectionClosed(connection: nat)
      modifies this`sessions, this`runs, this`owed, this`closed
      ensures View() == CloseConnection(old(View()), connection)
    {
      var processIds := set k | k in sessions && k.connection == connection;
      var before := sessions;
      var left := processIds;
      var found: set<RunId> := {};
      while left != {}
        invariant left <= processIds <= before.Keys
        invariant sessions == before - (processIds - left)
        invariant found == set k | k in processIds - left :: before[k]
        invariant View() == old(View()).(sessions := sessions)
        decreases left
      {
        var k :| k in left;
        found := found + {sessions[k]};
        sessions := sessions - {k};
        left := left - {k};
      }
      assert processIds - left == OnConnection(old(View()), connection);
      owed := owed + set id | id in found && id < |runs| && !runs[id].windows;
      closed := closed + {connection};
      runs := Evict(runs, found);
    }

    /** One attempt to send a Terminate that a closed connection owes. */
    method PayTerminate(id: RunId)
      requires id < |runs|
      modifies this`runs, this`owed
      ensures View() == SendTerminate(old(View()), id)
    {
      if id in owed {
        if !Listening(runs[id]) {
          owed := owed - {id};
        } else if !Full(runs[id]) {
          owed := owed - {id};
          runs := runs[id := runs[id].(inbox := runs[id].inbox + [FromClose], told := true)];
        }
      }
    }

    /** The section of passing a control on that holds the lock. */
    method FindSession(key: Key, control: Control) returns (result: Result<ControlId, ControlError>)
      requires Pointed(View())
      modifies this`controls
      ensures Found(View(), result) == LookUp(old(View()), key, control)
    {
      if key !in sessions {
        return Err(NoActiveCommand);
      }
      if runs[sessions[key]].windows {
        return Err(UnsupportedOnWindows);
      }
      controls := controls + [Passing(key, sessions[key], control, Waiting)];
      return Ok(|controls| - 1);
    }

    /** One attempt to send a control. */
    method TrySend(c: ControlId)
      requires c < |controls| && controls[c].found < |runs|
      modifies this`runs, this`controls
      ensures View() == SendControl(old(View()), c)
    {
      var id := controls[c].found;
      if controls[c].fate.Waiting? {
        if !Listening(runs[id]) {
          controls := controls[c := controls[c].(fate := Failed)];
        } else if !Full(runs[id]) {
          runs := runs[id := runs[id].(inbox := runs[id].inbox + [FromControl(c)])];
          controls := controls[c := controls[c].(fate := Queued)];
        }
      }
    }

    /** Takes one step. Steps that are not possible now do nothing. */
    method Take(step: Step)
      modifies this
      ensures View() == OnStep(old(View()), step)
    {
      match step {
        case Enters(request) => var _ := EnterStart(request);
        case Inserts(id) =>
          if In(View(), id, Entering) {
            var _ := InsertSession(id);
          }
        case SpawnOk(id) =>
          if In(View(), id, Spawning) {
            runs := runs[id := runs[id].(phase := Running)];
          }
        case SpawnFails(id) =>
          if In(View(), id, Spawning) {
            FinishRun(id);
          }
        case ProcessEnds(id) =>
          if In(View(), id, Running) {
            runs := runs[id := runs[id].(phase := Done)];
          }
        case CleanUp(id) =>
          if In(View(), id, Done) {
            FinishRun(id);
          }
        case Closes(connection) => ConnectionClosed(connection);
        case PassTerminate(id) =>
          if id < |runs| {
            PayTerminate(id);
          }
        case LooksUp(key, control) =>
          if Pointed(View()) {
            var _ := FindSession(key, control);
          }
        case Sends(c) =>
          if c < |controls| && controls[c].found < |runs| {
            TrySend(c);
          }
        case Receive(id) =>
          if In(View(), id, Running) && runs[id].read < |runs[id].inbox| {
            runs := runs[id := runs[id].(read := runs[id].read + 1)];
          }
      }
    }
  }

  /** Drives a new manager through an interleaving; whatever holds of every
      interleaving holds of the manager. */
  method Drive(steps: seq<Step>) returns (manager: CommandExecManager)
    ensures manager.View() == After(steps)
  {
    manager := new CommandExecManager();
    assert steps[..0] == [];
    for i := 0 to |steps|
      invariant manager.View() == After(steps[..i])
    {
      AfterOneMore(steps, i);
      manager.Take(steps[i]);
    }
    assert steps[..|steps|] == steps;
  }
}

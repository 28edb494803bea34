/** What the remote worker answers, told from the commands and messages it met alone:
    who is waiting, what ends the worker, and what each caller hears. */
module RemoteAnswers {
  import opened Common
  import opened RemoteWorker

  // ----- what the history says -----

  /** A request with the id is written. */
  predicate Writes(step: Step, id: RequestId) {
    step == TakeCommand(Request(id), true)
  }

  /** A response or an error for the id is read. */
  predicate Settles(step: Step, id: RequestId) {
    step.TakeMessage? && (step.message.Response? || step.message.ErrorResponse?) && step.message.id == id
  }

  /** A request with the id was written and has not been settled since. */
  ghost predicate Outstanding(steps: seq<Step>, id: RequestId) {
    exists i: nat | i < |steps| ::
      Writes(steps[i], id) && forall j | i < j < |steps| :: !Settles(steps[j], id)
  }

  /** A command ends the worker when it shuts it down, or is a new request that cannot be
      written. */
  function EndOfCommand(command: Command, outstanding: bool, ok: bool): Option<ErrorKind> {
    match command
    case Shutdown => Some(BrokenPipe)
    case Request(_) => if ok || outstanding then None else Some(BrokenPipe)
    case _ => None
  }

  /** A message ends the worker when it cannot be passed on or refused, cannot be read, or
      closes the connection. */
  function EndOfMessage(message: Incoming, left: bool, ok: bool): Option<ErrorKind> {
    match message
    case Notification(Some(_)) => if left then Some(BrokenPipe) else None
    case ServerCall(_, Some(_)) => if left then Some(BrokenPipe) else None
    case ServerCall(_, None) => if ok then None else Some(BrokenPipe)
    case InvalidJson => Some(InvalidData)
    case TransportError => Some(InvalidData)
    case Close => Some(ConnectionAborted)
    case EndOfStream => Some(UnexpectedEof)
    case _ => None
  }

  /** The step after the given ones ends the worker, for this reason. */
  ghost function EndsWith(steps: seq<Step>, step: Step): Option<ErrorKind> {
    match step
    case TakeCommand(command, ok) =>
      EndOfCommand(command, command.Request? && Outstanding(steps, command.id), ok)
    case TakeMessage(message, ok) => EndOfMessage(message, ConsumerLeaves in steps, ok)
    case CommandsClosed => Some(BrokenPipe)
    case ConsumerLeaves => None
  }

  /** None of the steps ends the worker. */
  ghost predicate Alive(steps: seq<Step>) {
    forall i: nat | i < |steps| :: EndsWith(steps[..i], steps[i]).None?
  }

  /** How many commands were taken. */
  function Taken(steps: seq<Step>): nat {
    if steps == [] then 0
    else Taken(steps[..|steps| - 1]) + if steps[|steps| - 1].TakeCommand? then 1 else 0
  }

  /** Such an end is announced to the consumer. */
  predicate Announced(step: Step) {
    || (step.TakeCommand? && step.command.Request?)
    || (step.TakeMessage? && !step.message.Notification? && !(step.message.ServerCall? && step.message.known.Some?))
  }

  function MessagesOf(steps: seq<Step>): seq<Incoming> {
    if steps == [] then []
    else
      var last := steps[|steps| - 1];
      MessagesOf(steps[..|steps| - 1]) + if last.TakeMessage? then [last.message] else []
  }

  // ----- the state of a worker that has not ended -----

  /** What the history says is what the worker holds. */
  ghost predicate Shows(w: Worker, steps: seq<Step>) {
    && w.exited.None? && Accounted(w)
    && (forall id :: id in w.pending <==> Outstanding(steps, id))
    && (w.listening <==> ConsumerLeaves !in steps)
    && |w.dequeued| == Taken(steps) && w.received == MessagesOf(steps)
  }

  lemma OutstandingOneMore(steps: seq<Step>, step: Step, id: RequestId)
    ensures Outstanding(steps + [step], id) <==> Writes(step, id) || (Outstanding(steps, id) && !Settles(step, id))
  {
    var more, n := steps + [step], |steps|;
    if Outstanding(more, id) {
      var i: nat :| i < |more| && Writes(more[i], id) && forall j | i < j < |more| :: !Settles(more[j], id);
      if i < n {
        assert !Settles(more[n], id);
        assert forall j | i < j < n :: steps[j] == more[j];
      }
    }
    if Writes(step, id) {
      assert Writes(more[n], id);
    } else if Outstanding(steps, id) && !Settles(step, id) {
      var i: nat :| i < n && Writes(steps[i], id) && forall j | i < j < n :: !Settles(steps[j], id);
      assert Writes(more[i], id) && forall j | i < j < |more| :: !Settles(more[j], id);
    }
  }

  lemma AliveOneMore(steps: seq<Step>, step: Step)
    ensures Alive(steps + [step]) <==> Alive(steps) && EndsWith(steps, step).None?
  {
    var more := steps + [step];
    assert more[..|steps|] == steps && more[|steps|] == step;
    assert forall i: nat | i < |steps| :: more[..i] == steps[..i] && more[i] == steps[i];
  }

  lemma LastOf(steps: seq<Step>, step: Step)
    ensures Taken(steps + [step]) == Taken(steps) + if step.TakeCommand? then 1 else 0
    ensures MessagesOf(steps + [step]) == MessagesOf(steps) + if step.TakeMessage? then [step.message] else []
  {
    assert (steps + [step])[..|steps|] == steps;
  }

  /** What a command does to the worker. */
  lemma CommandStep(w: Worker, command: Command, ok: bool)
    requires w.exited.None?
    ensures var r := OnCommand(w, command, ok);
            var end := EndOfCommand(command, command.Request? && command.id in w.pending, ok);
            && r.exited == end && r.listening == w.listening && r.received == w.received
            && |r.dequeued| == |w.dequeued| + 1
            && (end.None? ==> r.events == w.events)
            && (end.None? ==> r.pending == if command.Request? && command.id !in w.pending
                                           then w.pending[command.id := |w.dequeued|] else w.pending)
            && (end.Some? ==> r.events == w.events + Notice(w, command.Request?, end.value))
  {
  }

  /** The announcement of an end, if there is one and somebody listens. */
  function Notice(w: Worker, announced: bool, kind: ErrorKind): seq<Event> {
    if announced && w.listening then [Disconnected(kind)] else []
  }

  /** What a message does to the worker. */
  lemma MessageStep(w: Worker, message: Incoming, ok: bool)
    requires w.exited.None?
    ensures var r, end := OnIncoming(w, message, ok), EndOfMessage(message, !w.listening, ok);
            && r.exited == end && r.listening == w.listening && r.received == w.received + [message]
            && r.dequeued == w.dequeued
            && (end.None? ==> r.pending == if message.Response? || message.ErrorResponse?
                                           then w.pending - {message.id} else w.pending)
            && (end.Some? ==> r.events == w.events + Notice(w, Announced(TakeMessage(message, ok)), end.value))
  {
  }

  /** A step that does not end the worker. */
  lemma StepShows(w: Worker, steps: seq<Step>, step: Step)
    requires Shows(w, steps) && EndsWith(steps, step).None?
    ensures Shows(OnStep(w, step), steps + [step])
  {
    StepAccounted(w, step);
    LastOf(steps, step);
    var r := OnStep(w, step);
    forall id ensures id in r.pending <==> Outstanding(steps + [step], id) {
      OutstandingOneMore(steps, step, id);
      StepPending(w, steps, step, id);
    }
    StepBooks(w, steps, step);
  }

  lemma StepPending(w: Worker, steps: seq<Step>, step: Step, id: RequestId)
    requires Shows(w, steps) && EndsWith(steps, step).None?
    ensures id in OnStep(w, step).pending <==> Writes(step, id) || (id in w.pending && !Settles(step, id))
  {
    match step
    case TakeCommand(command, ok) => CommandStep(w, command, ok);
    case TakeMessage(message, ok) => MessageStep(w, message, ok);
    case ConsumerLeaves =>
  }

  lemma StepBooks(w: Worker, steps: seq<Step>, step: Step)
    requires Shows(w, steps) && EndsWith(steps, step).None?
    ensures var r := OnStep(w, step);
            && r.exited.None? && (r.listening <==> w.listening && !step.ConsumerLeaves?)
            && |r.dequeued| == |w.dequeued| + (if step.TakeCommand? then 1 else 0)
            && r.received == w.received + (if step.TakeMessage? then [step.message] else [])
  {
    match step
    case TakeCommand(command, ok) => CommandStep(w, command, ok);
    case TakeMessage(message, ok) => MessageStep(w, message, ok);
    case ConsumerLeaves =>
  }

  /** A step that ends the worker ends it for that reason, and announces it if it should. */
  lemma StepEnds(w: Worker, steps: seq<Step>, step: Step)
    requires Shows(w, steps) && EndsWith(steps, step).Some?
    ensures var r := OnStep(w, step);
            && r.exited == EndsWith(steps, step)
            && r.events == w.events + Notice(w, Announced(step), r.exited.value)
            && r.received == w.received + (if step.TakeMessage? then [step.message] else [])
  {
    match step
    case TakeCommand(command, ok) => CommandStep(w, command, ok);
    case TakeMessage(message, ok) => MessageStep(w, message, ok);
    case CommandsClosed =>
  }

  lemma {:induction false} RunShows(steps: seq<Step>)
    requires Alive(steps)
    ensures Shows(Run(steps), steps)
  {
    if steps == [] {
      assert forall id :: !Outstanding([], id);
    } else {
      var n := |steps| - 1;
      var init, last := steps[..n], steps[n];
      assert steps == init + [last];
      AliveOneMore(init, last);
      RunShows(init);
      RunFromOneMore(START, init, last);
      StepShows(Run(init), init, last);
    }
  }

  // ----- how the worker ends -----

  lemma {:induction false} Ended(w: Worker, steps: seq<Step>)
    requires w.exited.Some?
    ensures RunFrom(w, steps) == w
    decreases |steps|
  {
    if steps != [] {
      Ended(w, steps[1..]);
    }
  }

  lemma {:induction false} RunFromConcat(w: Worker, a: seq<Step>, b: seq<Step>)
    ensures RunFrom(w, a + b) == RunFrom(RunFrom(w, a), b)
    decreases |a|
  {
    if a == [] {
      assert a + b == b;
    } else {
      assert (a + b)[1..] == a[1..] + b;
      RunFromConcat(OnStep(w, a[0]), a[1..], b);
    }
  }

  /** A run is what comes before a step, the step, and what comes after it. */
  lemma RunAt(steps: seq<Step>, i: nat)
    requires i < |steps|
    ensures Run(steps[..i + 1]) == OnStep(Run(steps[..i]), steps[i])
    ensures Run(steps) == RunFrom(Run(steps[..i + 1]), steps[i + 1..])
  {
    assert steps[..i + 1] == steps[..i] + [steps[i]];
    RunFromOneMore(START, steps[..i], steps[i]);
    assert steps == steps[..i + 1] + steps[i + 1..];
    RunFromConcat(START, steps[..i + 1], steps[i + 1..]);
  }

  /** The worker ends with the first step that the history says ends it, for the reason
      of that step, and the consumer hears all events and then, if the end is one to be
      announced, the notice. */
  lemma EndsForReason(steps: seq<Step>, i: nat)
    requires i < |steps| && Alive(steps[..i]) && EndsWith(steps[..i], steps[i]).Some?
    ensures var w, kind := Run(steps), EndsWith(steps[..i], steps[i]).value;
            && w.exited == Some(kind) && w.received == MessagesOf(steps[..i + 1])
            && (ConsumerLeaves !in steps[..i] ==>
                  w.events == Stream(w.received) + if Announced(steps[i]) then [Disconnected(kind)] else [])
  {
    var before := Run(steps[..i]);
    RunShows(steps[..i]);
    StepEnds(before, steps[..i], steps[i]);
    RunAt(steps, i);
    Ended(Run(steps[..i + 1]), steps[i + 1..]);
    assert steps[..i + 1] == steps[..i] + [steps[i]];
    LastOf(steps[..i], steps[i]);
    if ConsumerLeaves !in steps[..i] {
      RunFaithful(START, steps[..i]);
      EndingMessage(before.received, steps, i);
    }
  }

  /** A message that ends a worker somebody listens to is no event. */
  lemma EndingMessage(received: seq<Incoming>, steps: seq<Step>, i: nat)
    requires i < |steps| && EndsWith(steps[..i], steps[i]).Some? && ConsumerLeaves !in steps[..i]
    ensures steps[i].TakeMessage? ==> Stream(received + [steps[i].message]) == Stream(received)
  {
    if steps[i].TakeMessage? {
      var all := received + [steps[i].message];
      assert all[..|all| - 1] == received && EventsOf(steps[i].message) == [];
      assert Stream(received) + [] == Stream(received);
    }
  }

  // ----- what callers hear -----

  /** The answer to a command that is answered at once: a request whose id is outstanding,
      a request that cannot be written, and every other command. */
  function AtOnce(command: Command, outstanding: bool, ok: bool): Answer {
    if command.Request? then (if outstanding then IoError(InvalidInput) else IoError(Other))
    else if ok then Done else IoError(Other)
  }

  lemma CommandAnswers(w: Worker, command: Command, ok: bool)
    requires Accounted(w) && w.exited.None?
    requires command.Request? && ok ==> command.id in w.pending
    ensures var r := OnCommand(w, command, ok);
            && SentTo(r.sent, |w.dequeued|) == [AtOnce(command, command.Request? && command.id in w.pending, ok)]
            && !Waits(r.pending, |w.dequeued|) && |r.dequeued| == |w.dequeued| + 1
  {
    var taken, sender := w.(dequeued := w.dequeued + [command]), |w.dequeued|;
    var answered := Send(taken, sender, AtOnce(command, command.Request? && command.id in w.pending, ok));
    assert SentTo(w.sent, sender) == [] && !Waits(w.pending, sender);
    ExitKeeps(answered, BrokenPipe, sender);
    ExitKeeps(Deliver(answered, Disconnected(BrokenPipe)), BrokenPipe, sender);
  }

  /** Over every run, a command other than a new request that is written has exactly its
      own answer: the result of its write or close, a duplicate refused, a failed write. */
  lemma AnsweredAtOnce(steps: seq<Step>, i: nat)
    requires i < |steps| && Alive(steps[..i]) && steps[i].TakeCommand?
    requires var command := steps[i].command;
             command.Request? && steps[i].ok ==> Outstanding(steps[..i], command.id)
    ensures var command := steps[i].command;
            SentTo(Run(steps).sent, Taken(steps[..i])) ==
              [AtOnce(command, command.Request? && Outstanding(steps[..i], command.id), steps[i].ok)]
  {
    var w := Run(steps[..i]);
    RunShows(steps[..i]);
    CommandAnswers(w, steps[i].command, steps[i].ok);
    StepAccounted(w, steps[i]);
    RunAt(steps, i);
    AnswerStaysForever(OnStep(w, steps[i]), steps[i + 1..], |w.dequeued|);
  }

  /** A new request with the id is written at a position, and nothing up to another
      position settles it or ends the worker. */
  ghost predicate Awaits(steps: seq<Step>, i: nat, j: nat, id: RequestId) {
    && i < j <= |steps| && Alive(steps[..j]) && Writes(steps[i], id) && !Outstanding(steps[..i], id)
    && forall k | i < k < j :: !Settles(steps[k], id)
  }

  /** Until then its caller waits. */
  lemma {:induction false} StillWaits(steps: seq<Step>, i: nat, j: nat, id: RequestId)
    requires Awaits(steps, i, j, id)
    ensures var w, sender := Run(steps[..j]), Taken(steps[..i]);
            w.exited.None? && Accounted(w) && id in w.pending && w.pending[id] == sender && SentTo(w.sent, sender) == []
    decreases j
  {
    var n := j - 1;
    RunAt(steps, n);
    assert steps[..j] == steps[..n] + [steps[n]];
    AliveOneMore(steps[..n], steps[n]);
    RunShows(steps[..n]);
    RunShows(steps[..j]);
    if n == i {
      CommandStep(Run(steps[..n]), steps[n].command, true);
      assert Waits(Run(steps[..j]).pending, Taken(steps[..i]));
    } else {
      StillWaits(steps, i, n, id);
      WaitStep(Run(steps[..n]), steps[n], id);
    }
  }

  /** The answer that a step brings a caller waiting for an id. */
  ghost function Brings(steps: seq<Step>, step: Step, id: RequestId): Option<Answer> {
    if Settles(step, id) then
      Some(if step.message.Response? then Result(step.message.result) else ServerError(step.message.error))
    else
      var end := EndsWith(steps, step);
      if end.Some? then Some(IoError(end.value)) else None
  }

  /** Over every run, the caller of a new request that is written hears nothing until the
      first response or error for its id or the end of the worker, and then exactly
      that. */
  lemma AnsweredLater(steps: seq<Step>, i: nat, j: nat, id: RequestId)
    requires Awaits(steps, i, j, id)
    ensures j == |steps| ==> SentTo(Run(steps).sent, Taken(steps[..i])) == []
    ensures j < |steps| && Brings(steps[..j], steps[j], id).Some? ==>
              SentTo(Run(steps).sent, Taken(steps[..i])) == [Brings(steps[..j], steps[j], id).value]
  {
    StillWaits(steps, i, j, id);
    var w, sender := Run(steps[..j]), Taken(steps[..i]);
    if j == |steps| {
      assert steps[..j] == steps;
    } else if Brings(steps[..j], steps[j], id).Some? {
      RunShows(steps[..j]);
      WaitStep(w, steps[j], id);
      BringsAnswer(w, steps[..j], steps[j], id);
      StepAccounted(w, steps[j]);
      RunAt(steps, j);
      AnswerStaysForever(OnStep(w, steps[j]), steps[j + 1..], sender);
    }
  }

  lemma BringsAnswer(w: Worker, steps: seq<Step>, step: Step, id: RequestId)
    requires Shows(w, steps) && Brings(steps, step, id).Some?
    ensures var answer := AnswerIn(step, id);
            if answer.Some? then Brings(steps, step, id) == answer
            else OnStep(w, step).exited.Some? &&
                 Brings(steps, step, id) == Some(IoError(OnStep(w, step).exited.value))
  {
    if AnswerIn(step, id).None? {
      StepEnds(w, steps, step);
    }
  }
}

/** The worker behind a remote client: it routes responses to the callers that
    wait for them, passes server events on, and answers every caller when it exits. */
module RemoteWorker {
  import opened Common

  /** What the caller side sends to the worker. Every command carries a one-shot
      sender for its answer; senders are numbered in the order of dequeuing. */
  datatype Command =
    | Request(id: RequestId)
    | Notify
    | ResolveServerRequest(id: RequestId)
    | RejectServerRequest(id: RequestId)
    | Shutdown

  datatype Event =
    | ServerNotification(body: string)
    | ServerRequest(id: RequestId, body: string)
    | Disconnected(cause: ErrorKind)

  datatype ErrorKind = InvalidInput | BrokenPipe | InvalidData | ConnectionAborted | UnexpectedEof | Other

  /** One item of the websocket stream. Notifications and server requests that do
      not decode have no event. */
  datatype Incoming =
    | Response(id: RequestId, result: string)
    | ErrorResponse(id: RequestId, error: string)
    | Notification(event: Option<string>)
    | ServerCall(id: RequestId, known: Option<string>)
    | InvalidJson
    | NotText
    | Close
    | TransportError
    | EndOfStream

  datatype Answer =
    | Result(result: string)
    | ServerError(error: string)
    | Done
    | IoError(kind: ErrorKind)

  type Sender = nat

  /** The worker, with the history that its promises are about. */
  datatype Worker = Worker(
    pending: map<RequestId, Sender>,
    exited: Option<ErrorKind>,
    listening: bool,
    dequeued: seq<Command>,
    received: seq<Incoming>,
    sent: map<Sender, seq<Answer>>,
    events: seq<Event>,
    refused: seq<RequestId>)

  const START := Worker(map[], None, true, [], [], map[], [], [])

  // ----- effects -----

  function SentTo(sent: map<Sender, seq<Answer>>, sender: Sender): seq<Answer> {
    if sender in sent then sent[sender] else []
  }

  function Send(w: Worker, sender: Sender, answer: Answer): Worker {
    w.(sent := w.sent[sender := SentTo(w.sent, sender) + [answer]])
  }

  /** Delivery succeeds while the consumer listens. */
  function Deliver(w: Worker, event: Event): Worker {
    if w.listening then w.(events := w.events + [event]) else w
  }

  /** Leaving the loop answers every waiting caller with the exit error. */
  function Exit(w: Worker, kind: ErrorKind): Worker {
    w.(exited := Some(kind), pending := map[],
       sent := map s | s in w.sent.Keys + w.pending.Values ::
                 SentTo(w.sent, s) + (if s in w.pending.Values then [IoError(kind)] else []))
  }

  function Disconnect(w: Worker, kind: ErrorKind): Worker {
    Exit(Deliver(w, Disconnected(kind)), kind)
  }

  // ----- steps -----

  /** `ok` says whether the websocket write or close succeeds. */
  function OnCommand(w: Worker, command: Command, ok: bool): Worker {
    var sender := |w.dequeued|;
    var taken := w.(dequeued := w.dequeued + [command]);
    match command
    case Request(id) =>
      if id in w.pending then Send(taken, sender, IoError(InvalidInput))
      else if ok then taken.(pending := w.pending[id := sender])
      else Disconnect(Send(taken, sender, IoError(Other)), BrokenPipe)
    case Shutdown => Exit(Send(taken, sender, if ok then Done else IoError(Other)), BrokenPipe)
    case _ => Send(taken, sender, if ok then Done else IoError(Other))
  }

  function Settle(w: Worker, id: RequestId, answer: Answer): Worker {
    if id in w.pending then Send(w, w.pending[id], answer).(pending := w.pending - {id}) else w
  }

  function OnIncoming(w: Worker, message: Incoming, ok: bool): Worker {
    var taken := w.(received := w.received + [message]);
    match message
    case Response(id, result) => Settle(taken, id, Result(result))
    case ErrorResponse(id, error) => Settle(taken, id, ServerError(error))
    case Notification(event) =>
      if event.None? then taken
      else if w.listening then Deliver(taken, ServerNotification(event.value))
      else Exit(taken, BrokenPipe)
    case ServerCall(id, known) =>
      if known.Some? then
        if w.listening then Deliver(taken, ServerRequest(id, known.value)) else Exit(taken, BrokenPipe)
      else if ok then taken.(refused := taken.refused + [id])
      else Disconnect(taken, BrokenPipe)
    case InvalidJson => Disconnect(taken, InvalidData)
    case NotText => taken
    case Close => Disconnect(taken, ConnectionAborted)
    case TransportError => Disconnect(taken, InvalidData)
    case EndOfStream => Disconnect(taken, UnexpectedEof)
  }

  /** Whichever of the two sources is ready next, or the consumer going away. */
  datatype Step =
    | TakeCommand(command: Command, ok: bool)
    | CommandsClosed
    | TakeMessage(message: Incoming, ok: bool)
    | ConsumerLeaves

  function OnStep(w: Worker, step: Step): Worker {
    if w.exited.Some? then w
    else
      match step
      case TakeCommand(command, ok) => OnCommand(w, command, ok)
      case CommandsClosed => Exit(w, BrokenPipe)
      case TakeMessage(message, ok) => OnIncoming(w, message, ok)
      case ConsumerLeaves => w.(listening := false)
  }

  function RunFrom(w: Worker, steps: seq<Step>): Worker
    decreases |steps|
  {
    if steps == [] then w else RunFrom(OnStep(w, steps[0]), steps[1..])
  }

  /** Any interleaving of commands, messages and the consumer leaving. */
  function Run(steps: seq<Step>): Worker {
    RunFrom(START, steps)
  }

  // ----- exactly one answer -----

  ghost predicate Waits(pending: map<RequestId, Sender>, sender: Sender) {
    exists id :: id in pending && pending[id] == sender
  }

  /** Every dequeued command has been answered once or waits, never both, and waits
      under the id it was sent with. */
  ghost predicate Accounted(w: Worker) {
    && (forall s | s in w.sent :: s < |w.dequeued|)
    && (forall id | id in w.pending :: w.pending[id] < |w.dequeued| && w.dequeued[w.pending[id]] == Request(id))
    && (forall s | 0 <= s < |w.dequeued| :: |SentTo(w.sent, s)| == if Waits(w.pending, s) then 0 else 1)
    && (w.exited.Some? ==> w.pending == map[])
  }

  lemma SendAccounted(w: Worker, sender: Sender, answer: Answer)
    requires forall s | s in w.sent :: s < |w.dequeued|
    requires sender < |w.dequeued|
    ensures var r := Send(w, sender, answer);
            && (forall s | s in r.sent :: s < |w.dequeued|)
            && (forall s :: SentTo(r.sent, s) == if s == sender then SentTo(w.sent, s) + [answer]
                else SentTo(w.sent, s))
  {
  }

  lemma ExitAccounted(w: Worker, kind: ErrorKind)
    requires Accounted(w)
    ensures Accounted(Exit(w, kind))
    ensures forall s :: SentTo(Exit(w, kind).sent, s) == if Waits(w.pending, s) then [IoError(kind)]
            else SentTo(w.sent, s)
  {
    var r := Exit(w, kind);
    forall s ensures SentTo(r.sent, s) == if Waits(w.pending, s) then [IoError(kind)] else SentTo(w.sent, s) {
      assert s in w.pending.Values <==> Waits(w.pending, s);
      if Waits(w.pending, s) {
        assert SentTo(w.sent, s) == [];
      }
    }
  }

  /** Answering a command as it is dequeued. */
  lemma AnswerNewAccounted(w: Worker, command: Command, answer: Answer)
    requires Accounted(w) && w.exited.None?
    ensures Accounted(Send(w.(dequeued := w.dequeued + [command]), |w.dequeued|, answer))
  {
    var taken := w.(dequeued := w.dequeued + [command]);
    assert !Waits(w.pending, |w.dequeued|);
    assert SentTo(taken.sent, |w.dequeued|) == [];
    SendAccounted(taken, |w.dequeued|, answer);
  }

  lemma CommandAccounted(w: Worker, command: Command, ok: bool)
    requires Accounted(w) && w.exited.None?
    ensures Accounted(OnCommand(w, command, ok))
  {
    var sender := |w.dequeued|;
    var taken := w.(dequeued := w.dequeued + [command]);
    if command.Request? && command.id !in w.pending && ok {
      var r := OnCommand(w, command, ok);
      forall s ensures Waits(r.pending, s) <==> Waits(w.pending, s) || s == sender {
        if Waits(w.pending, s) {
          var id :| id in w.pending && w.pending[id] == s;
          assert id in r.pending && r.pending[id] == s;
        }
        assert r.pending[command.id] == sender;
      }
    } else {
      var answer := if command.Request? then (if command.id in w.pending then IoError(InvalidInput) else IoError(Other))
                    else if ok then Done else IoError(Other);
      var answered := Send(taken, sender, answer);
      AnswerNewAccounted(w, command, answer);
      ExitAccounted(answered, BrokenPipe);
      DisconnectAccounted(answered, BrokenPipe);
    }
  }

  lemma SettleAccounted(w: Worker, id: RequestId, answer: Answer)
    requires Accounted(w) && w.exited.None?
    ensures Accounted(Settle(w, id, answer))
    ensures id in w.pending ==> SentTo(Settle(w, id, answer).sent, w.pending[id]) == [answer]
    ensures forall s | !(id in w.pending && s == w.pending[id]) ::
              SentTo(Settle(w, id, answer).sent, s) == SentTo(w.sent, s)
  {
    if id in w.pending {
      var sender := w.pending[id];
      assert Waits(w.pending, sender);
      SendAccounted(w, sender, answer);
      var r := Settle(w, id, answer);
      forall s ensures Waits(r.pending, s) <==> Waits(w.pending, s) && s != sender {
        if Waits(w.pending, s) && s != sender {
          var other :| other in w.pending && w.pending[other] == s;
          assert other in r.pending;
        }
        if Waits(r.pending, s) {
          var other :| other in r.pending && r.pending[other] == s;
          assert w.dequeued[w.pending[other]] == Request(other);
        }
      }
    }
  }

  lemma IncomingAccounted(w: Worker, message: Incoming, ok: bool)
    requires Accounted(w) && w.exited.None?
    ensures Accounted(OnIncoming(w, message, ok))
  {
    var taken := w.(received := w.received + [message]);
    assert Accounted(taken);
    match message
    case Response(id, result) => SettleAccounted(taken, id, Result(result));
    case ErrorResponse(id, error) => SettleAccounted(taken, id, ServerError(error));
    case Notification(_) => ExitAccounted(taken, BrokenPipe);
    case ServerCall(_, _) => ExitAccounted(taken, BrokenPipe); DisconnectAccounted(taken, BrokenPipe);
    case InvalidJson => DisconnectAccounted(taken, InvalidData);
    case NotText =>
    case Close => DisconnectAccounted(taken, ConnectionAborted);
    case TransportError => DisconnectAccounted(taken, InvalidData);
    case EndOfStream => DisconnectAccounted(taken, UnexpectedEof);
  }

  lemma DisconnectAccounted(w: Worker, kind: ErrorKind)
    requires Accounted(w)
    ensures Accounted(Disconnect(w, kind))
  {
    var told := Deliver(w, Disconnected(kind));
    assert Accounted(told);
    ExitAccounted(told, kind);
  }

  lemma StepAccounted(w: Worker, step: Step)
    requires Accounted(w)
    ensures Accounted(OnStep(w, step))
  {
    if w.exited.None? {
      match step
      case TakeCommand(command, ok) => CommandAccounted(w, command, ok);
      case CommandsClosed => ExitAccounted(w, BrokenPipe);
      case TakeMessage(message, ok) => IncomingAccounted(w, message, ok);
      case ConsumerLeaves =>
    }
  }

  lemma {:induction false} RunAccounted(w: Worker, steps: seq<Step>)
    requires Accounted(w)
    ensures Accounted(RunFrom(w, steps))
    decreases |steps|
  {
    if steps != [] {
      StepAccounted(w, steps[0]);
      RunAccounted(OnStep(w, steps[0]), steps[1..]);
    }
  }

  /** Over every run, each dequeued command has at most one answer, and exactly one
      once the worker has exited for whatever reason. */
  lemma ExactlyOneAnswer(steps: seq<Step>, sender: Sender)
    requires sender < |Run(steps).dequeued|
    ensures |SentTo(Run(steps).sent, sender)| <= 1
    ensures |SentTo(Run(steps).sent, sender)| == 0 <==> Waits(Run(steps).pending, sender)
    ensures Run(steps).exited.Some? ==> |SentTo(Run(steps).sent, sender)| == 1
  {
    RunAccounted(START, steps);
  }

  /** A duplicate id is refused at once and the original caller keeps waiting. */
  lemma DuplicateRefused(w: Worker, id: RequestId, ok: bool)
    requires Accounted(w) && w.exited.None? && id in w.pending
    ensures var r := OnCommand(w, Request(id), ok);
            && SentTo(r.sent, |w.dequeued|) == [IoError(InvalidInput)]
            && r.pending == w.pending && r.exited.None? && r.events == w.events
            && SentTo(r.sent, w.pending[id]) == []
  {
    assert Waits(w.pending, w.pending[id]);
    assert SentTo(w.sent, |w.dequeued|) == [];
  }

  // ----- which answer -----

  lemma ExitKeeps(w: Worker, kind: ErrorKind, sender: Sender)
    ensures !Waits(Exit(w, kind).pending, sender)
    ensures SentTo(Exit(w, kind).sent, sender) ==
              SentTo(w.sent, sender) + if Waits(w.pending, sender) then [IoError(kind)] else []
  {
    assert sender in w.pending.Values <==> Waits(w.pending, sender);
  }

  /** A command touches no sender but its own, except by making the worker exit. */
  lemma CommandKeeps(w: Worker, command: Command, ok: bool, sender: Sender)
    requires Accounted(w) && w.exited.None? && sender < |w.dequeued|
    ensures var r := OnCommand(w, command, ok);
            if r.exited.Some? then !Waits(r.pending, sender) && SentTo(r.sent, sender) ==
                SentTo(w.sent, sender) + if Waits(w.pending, sender) then [IoError(r.exited.value)] else []
            else
              && SentTo(r.sent, sender) == SentTo(w.sent, sender)
              && (Waits(r.pending, sender) ==> Waits(w.pending, sender))
  {
    var taken := w.(dequeued := w.dequeued + [command]);
    var answered := Send(taken, |w.dequeued|, if ok then Done else IoError(Other));
    var failed := Send(taken, |w.dequeued|, IoError(Other));
    ExitKeeps(answered, BrokenPipe, sender);
    ExitKeeps(Deliver(failed, Disconnected(BrokenPipe)), BrokenPipe, sender);
  }

  /** A message touches no sender but the one it answers, except by making the worker exit. */
  lemma IncomingKeeps(w: Worker, message: Incoming, ok: bool, sender: Sender)
    requires Accounted(w) && w.exited.None?
    ensures var r := OnIncoming(w, message, ok);
            if r.exited.Some? then !Waits(r.pending, sender) && SentTo(r.sent, sender) ==
                SentTo(w.sent, sender) + if Waits(w.pending, sender) then [IoError(r.exited.value)] else []
            else if message.Response? then
              r == Settle(w.(received := w.received + [message]), message.id, Result(message.result))
            else if message.ErrorResponse? then
              r == Settle(w.(received := w.received + [message]), message.id, ServerError(message.error))
            else r.sent == w.sent && r.pending == w.pending
  {
    var taken := w.(received := w.received + [message]);
    var r := OnIncoming(w, message, ok);
    if r.exited.Some? {
      ExitKeeps(taken, r.exited.value, sender);
      ExitKeeps(Deliver(taken, Disconnected(r.exited.value)), r.exited.value, sender);
    }
  }

  lemma SettleKeeps(w: Worker, id: RequestId, answer: Answer, sender: Sender)
    requires !Waits(w.pending, sender)
    ensures var r := Settle(w, id, answer);
            SentTo(r.sent, sender) == SentTo(w.sent, sender) && !Waits(r.pending, sender)
  {
  }

  /** A sender that has its answer is not written to again. */
  lemma AnswerStays(w: Worker, step: Step, sender: Sender)
    requires Accounted(w) && sender < |w.dequeued| && !Waits(w.pending, sender)
    ensures SentTo(OnStep(w, step).sent, sender) == SentTo(w.sent, sender)
    ensures !Waits(OnStep(w, step).pending, sender)
  {
    if w.exited.None? {
      match step
      case TakeCommand(command, ok) => CommandKeeps(w, command, ok, sender);
      case CommandsClosed => ExitKeeps(w, BrokenPipe, sender);
      case TakeMessage(message, ok) =>
        IncomingKeeps(w, message, ok, sender);
        if message.Response? {
          SettleKeeps(w.(received := w.received + [message]), message.id, Result(message.result), sender);
        } else if message.ErrorResponse? {
          SettleKeeps(w.(received := w.received + [message]), message.id, ServerError(message.error), sender);
        }
      case ConsumerLeaves =>
    }
  }

  lemma {:induction false} AnswerStaysForever(w: Worker, steps: seq<Step>, sender: Sender)
    requires Accounted(w) && sender < |w.dequeued| && !Waits(w.pending, sender)
    ensures SentTo(RunFrom(w, steps).sent, sender) == SentTo(w.sent, sender)
    decreases |steps|
  {
    if steps != [] {
      StepAccounted(w, steps[0]);
      AnswerStays(w, steps[0], sender);
      AnswerStaysForever(OnStep(w, steps[0]), steps[1..], sender);
    }
  }

  /** The answer a message carries for a request id. */
  function AnswerIn(step: Step, id: RequestId): Option<Answer> {
    match step
    case TakeMessage(Response(i, result), _) => if i == id then Some(Result(result)) else None
    case TakeMessage(ErrorResponse(i, error), _) => if i == id then Some(ServerError(error)) else None
    case _ => None
  }

  /** What a caller that waits for `id` should be told: the first message for that
      id, or else the reason the worker exits. */
  function FirstAnswer(w: Worker, steps: seq<Step>, id: RequestId): Option<Answer>
    decreases |steps|
  {
    if steps == [] then None
    else if AnswerIn(steps[0], id).Some? then AnswerIn(steps[0], id)
    else
      var next := OnStep(w, steps[0]);
      if next.exited.Some? then Some(IoError(next.exited.value)) else FirstAnswer(next, steps[1..], id)
  }

  /** One step for a caller that waits: told the answer, told the exit, or still waiting. */
  lemma WaitStep(w: Worker, step: Step, id: RequestId)
    requires Accounted(w) && w.exited.None? && id in w.pending
    ensures var next, sender, answer := OnStep(w, step), w.pending[id], AnswerIn(step, id);
            && (answer.Some? ==>
                  SentTo(next.sent, sender) == [answer.value] && !Waits(next.pending, sender) && next.exited.None?)
            && (answer.None? && next.exited.Some? ==>
                  SentTo(next.sent, sender) == [IoError(next.exited.value)] && !Waits(next.pending, sender))
            && (answer.None? && next.exited.None? ==>
                  id in next.pending && next.pending[id] == sender && SentTo(next.sent, sender) == [])
  {
    var sender := w.pending[id];
    assert Waits(w.pending, sender);
    assert SentTo(w.sent, sender) == [];
    match step
    case TakeCommand(command, ok) => CommandKeeps(w, command, ok, sender);
    case CommandsClosed => ExitKeeps(w, BrokenPipe, sender);
    case TakeMessage(message, ok) =>
      var taken := w.(received := w.received + [message]);
      assert Accounted(taken);
      IncomingKeeps(w, message, ok, sender);
      if message.Response? {
        SettleAccounted(taken, message.id, Result(message.result));
        SettleOthers(taken, message.id, Result(message.result), id);
      } else if message.ErrorResponse? {
        SettleAccounted(taken, message.id, ServerError(message.error));
        SettleOthers(taken, message.id, ServerError(message.error), id);
      }
    case ConsumerLeaves =>
  }

  /** A response reaches only the caller registered under its id. */
  lemma SettleOthers(w: Worker, id: RequestId, answer: Answer, other: RequestId)
    requires Accounted(w) && other in w.pending
    ensures var r := Settle(w, id, answer);
            if id == other then !Waits(r.pending, w.pending[other])
            else other in r.pending && r.pending[other] == w.pending[other]
                 && SentTo(r.sent, w.pending[other]) == SentTo(w.sent, w.pending[other])
  {
    var r := Settle(w, id, answer);
    if id == other {
      forall i | i in r.pending ensures r.pending[i] != w.pending[other] {
        assert w.dequeued[w.pending[i]] == Request(i);
      }
    } else if id in w.pending {
      assert w.dequeued[w.pending[id]] == Request(id) && w.dequeued[w.pending[other]] == Request(other);
    }
  }

  /** Over every run, a waiting caller receives exactly the first answer meant for it. */
  lemma {:induction false} ReceivesFirstAnswer(w: Worker, steps: seq<Step>, id: RequestId)
    requires Accounted(w) && w.exited.None? && id in w.pending
    ensures var answer := FirstAnswer(w, steps, id);
            SentTo(RunFrom(w, steps).sent, w.pending[id]) == if answer.Some? then [answer.value] else []
    decreases |steps|
  {
    var sender := w.pending[id];
    assert Waits(w.pending, sender);
    if steps != [] {
      var next := OnStep(w, steps[0]);
      StepAccounted(w, steps[0]);
      WaitStep(w, steps[0], id);
      if AnswerIn(steps[0], id).None? && next.exited.None? {
        ReceivesFirstAnswer(next, steps[1..], id);
      } else {
        AnswerStaysForever(next, steps[1..], sender);
      }
    }
  }

  // ----- the event stream -----

  /** The events a message stands for. */
  function EventsOf(message: Incoming): seq<Event> {
    match message
    case Notification(Some(body)) => [ServerNotification(body)]
    case ServerCall(id, Some(body)) => [ServerRequest(id, body)]
    case _ => []
  }

  function Stream(messages: seq<Incoming>): seq<Event> {
    if messages == [] then [] else Stream(messages[..|messages| - 1]) + EventsOf(messages[|messages| - 1])
  }

  /** While the consumer listens, exactly the events of the messages so far have
      been passed on, and after an exit at most one disconnect notice follows them. */
  ghost predicate InOrder(w: Worker) {
    w.listening ==>
      || w.events == Stream(w.received)
      || (w.exited.Some? && w.events == Stream(w.received) + [Disconnected(w.exited.value)])
  }

  /** `InOrder`, with nothing yet said about a disconnect before the exit. */
  ghost predicate Faithful(w: Worker) {
    InOrder(w) && (w.exited.None? && w.listening ==> w.events == Stream(w.received))
  }

  lemma CommandFaithful(w: Worker, command: Command, ok: bool)
    requires Faithful(w) && w.exited.None?
    ensures Faithful(OnCommand(w, command, ok))
  {
  }

  lemma IncomingFaithful(w: Worker, message: Incoming, ok: bool)
    requires Faithful(w) && w.exited.None?
    ensures Faithful(OnIncoming(w, message, ok))
  {
    var received := w.received + [message];
    assert received[..|received| - 1] == w.received;
    assert Stream(received) == Stream(w.received) + EventsOf(message);
    if EventsOf(message) == [] {
      assert Stream(received) == Stream(w.received);
    }
  }

  lemma StepFaithful(w: Worker, step: Step)
    requires Faithful(w)
    ensures Faithful(OnStep(w, step))
  {
    if w.exited.None? {
      match step
      case TakeCommand(command, ok) => CommandFaithful(w, command, ok);
      case TakeMessage(message, ok) => IncomingFaithful(w, message, ok);
      case _ =>
    }
  }

  lemma {:induction false} RunFaithful(w: Worker, steps: seq<Step>)
    requires Faithful(w)
    ensures Faithful(RunFrom(w, steps))
    decreases |steps|
  {
    if steps != [] {
      StepFaithful(w, steps[0]);
      RunFaithful(OnStep(w, steps[0]), steps[1..]);
    }
  }

  lemma {:induction false} StreamHasNoDisconnect(messages: seq<Incoming>)
    ensures forall i | 0 <= i < |Stream(messages)| :: !Stream(messages)[i].Disconnected?
  {
    if messages != [] {
      StreamHasNoDisconnect(messages[..|messages| - 1]);
    }
  }

  lemma {:induction false} StreamConcat(a: seq<Incoming>, b: seq<Incoming>)
    ensures Stream(a + b) == Stream(a) + Stream(b)
    decreases |b|
  {
    if b == [] {
      assert a + b == a;
    } else {
      assert (a + b)[..|a + b| - 1] == a + b[..|b| - 1];
      StreamConcat(a, b[..|b| - 1]);
    }
  }

  /** In a run whose consumer never leaves, nothing is lost, duplicated or
      reordered, and a disconnect notice can only be the very last event. */
  lemma OrderedStream(steps: seq<Step>)
    requires Run(steps).listening
    ensures var w := Run(steps);
            && Stream(w.received) <= w.events
            && (forall i | 0 <= i < |w.events| :: w.events[i].Disconnected? ==> i == |w.events| - 1 && w.exited.Some?)
            && |w.events| <= |Stream(w.received)| + 1
            && (w.exited.None? ==> w.events == Stream(w.received))
  {
    RunFaithful(START, steps);
    StreamHasNoDisconnect(Run(steps).received);
  }

  // ----- unknown requests of the server -----

  /** The requests of the server that the client does not know. */
  function Unknown(messages: seq<Incoming>): seq<RequestId> {
    if messages == [] then []
    else
      var last := messages[|messages| - 1];
      Unknown(messages[..|messages| - 1]) + if IsUnknown(last) then [last.id] else []
  }

  predicate IsUnknown(message: Incoming) {
    message.ServerCall? && message.known.None?
  }

  lemma UnknownAppend(messages: seq<Incoming>, message: Incoming)
    ensures Unknown(messages + [message]) == if IsUnknown(message) then Unknown(messages) + [message.id]
            else Unknown(messages)
  {
    assert (messages + [message])[..|messages|] == messages;
  }

  lemma IncomingRefused(w: Worker, message: Incoming, ok: bool)
    ensures var r := OnIncoming(w, message, ok);
            && r.received == w.received + [message]
            && r.refused == (if IsUnknown(message) && ok then w.refused + [message.id] else w.refused)
            && (IsUnknown(message) && !ok ==> r.exited == Some(BrokenPipe))
  {
  }

  lemma CommandRefused(w: Worker, command: Command, ok: bool)
    ensures OnCommand(w, command, ok).received == w.received && OnCommand(w, command, ok).refused == w.refused
  {
  }

  /** The step reads an unknown request and fails to write its refusal. */
  predicate FailsToRefuse(w: Worker, step: Step) {
    w.exited.None? && step.TakeMessage? && IsUnknown(step.message) && !step.ok
  }

  ghost predicate RefusalFailed(steps: seq<Step>) {
    exists i: nat | i < |steps| :: FailsToRefuse(Run(steps[..i]), steps[i])
  }

  /** Every unknown request was refused, in order, but for one whose refusal failed. */
  ghost predicate Refusing(w: Worker, failed: bool) {
    if failed then w.exited == Some(BrokenPipe) && exists id :: w.refused + [id] == Unknown(w.received)
    else w.refused == Unknown(w.received)
  }

  lemma StepRefusing(w: Worker, step: Step, failed: bool)
    requires Refusing(w, failed)
    ensures Refusing(OnStep(w, step), failed || FailsToRefuse(w, step))
  {
    if w.exited.None? {
      match step
      case TakeMessage(message, ok) =>
        UnknownAppend(w.received, message);
        IncomingRefused(w, message, ok);
      case TakeCommand(command, ok) => CommandRefused(w, command, ok);
      case _ =>
    }
  }

  lemma {:induction false} RunFromOneMore(w: Worker, steps: seq<Step>, step: Step)
    ensures RunFrom(w, steps + [step]) == OnStep(RunFrom(w, steps), step)
    decreases |steps|
  {
    if steps == [] {
      assert steps + [step] == [step] && [step][1..] == [];
    } else {
      assert (steps + [step])[1..] == steps[1..] + [step];
      RunFromOneMore(OnStep(w, steps[0]), steps[1..], step);
    }
  }

  lemma RefusalFailedOneMore(steps: seq<Step>, n: nat)
    requires |steps| == n + 1
    ensures RefusalFailed(steps) <==> RefusalFailed(steps[..n]) || FailsToRefuse(Run(steps[..n]), steps[n])
  {
    assert forall i: nat | i < n :: steps[..n][..i] == steps[..i] && steps[..n][i] == steps[i];
  }

  lemma {:induction false} RunRefusing(steps: seq<Step>)
    ensures Refusing(Run(steps), RefusalFailed(steps))
  {
    if steps != [] {
      var n := |steps| - 1;
      RunRefusing(steps[..n]);
      RefusalFailedOneMore(steps, n);
      assert steps == steps[..n] + [steps[n]];
      RunFromOneMore(START, steps[..n], steps[n]);
      StepRefusing(Run(steps[..n]), steps[n], RefusalFailed(steps[..n]));
    }
  }

  /** Over every run, the refusals sent are exactly the unknown requests read, in
      order and once each, if and only if no refusal failed to be written; when one
      did, it alone is missing, it was the last, and the worker has exited. */
  lemma UnknownRefusedOnce(steps: seq<Step>)
    ensures var w := Run(steps);
            && (w.refused == Unknown(w.received) <==> !RefusalFailed(steps))
            && (RefusalFailed(steps) ==>
                  w.exited == Some(BrokenPipe) && exists id :: w.refused + [id] == Unknown(w.received))
  {
    RunRefusing(steps);
  }
}

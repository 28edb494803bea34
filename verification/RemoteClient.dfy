/** The worker loop and the handshake as procedures. */
module RemoteClient {
  import opened Common
  import opened RemoteWorker

  class WorkerLoop {
    var pendingRequests: map<RequestId, Sender>
    var workerExitError: Option<ErrorKind>
    var exited: Option<ErrorKind>
    var listening: bool
    var dequeued: seq<Command>
    var received: seq<Incoming>
    var sent: map<Sender, seq<Answer>>
    var events: seq<Event>
    var refused: seq<RequestId>

    function View(): Worker
      reads this
    {
      Worker(pendingRequests, exited, listening, dequeued, received, sent, events, refused)
    }

    function ExitKind(): ErrorKind
      reads this
    {
      if workerExitError.Some? then workerExitError.value else BrokenPipe
    }

    constructor ()
      ensures View() == START && workerExitError == None
    {
      pendingRequests, workerExitError, exited, listening := map[], None, None, true;
      dequeued, received, sent, events, refused := [], [], map[], [], [];
    }

    method Answer(sender: Sender, answer: Answer)
      modifies this`sent
      ensures sent == Send(old(View()), sender, answer).sent
    {
      sent := sent[sender := SentTo(sent, sender) + [answer]];
    }

    method DeliverEvent(event: Event) returns (ok: bool)
      modifies this`events
      ensures ok == listening
      ensures View() == Deliver(old(View()), event)
    {
      if listening {
        events := events + [event];
      }
      ok := listening;
    }

    /** Handles one command and says whether the loop is left. */
    method HandleCommand(command: Command, ok: bool) returns (leave: bool)
      requires Separate(pendingRequests) && exited.None? && workerExitError.None?
      modifies this
      ensures if leave then Exit(View(), ExitKind()) == OnCommand(old(View()), command, ok)
              else View() == OnCommand(old(View()), command, ok) && workerExitError.None?
      ensures exited.None? && (leave ==> Separate(pendingRequests))
    {
      var sender := |dequeued|;
      dequeued := dequeued + [command];
      leave := false;
      match command {
        case Request(id) =>
          if id in pendingRequests {
            Answer(sender, IoError(InvalidInput));
            return;
          }
          ghost var before := pendingRequests;
          pendingRequests := pendingRequests[id := sender];
          if !ok {
            pendingRequests := pendingRequests - {id};
            assert pendingRequests == before;
            Answer(sender, IoError(Other));
            var _ := DeliverEvent(Disconnected(BrokenPipe));
            workerExitError := Some(BrokenPipe);
            leave := true;
          }
        case Shutdown =>
          Answer(sender, if ok then Done else IoError(Other));
          leave := true;
        case _ =>
          Answer(sender, if ok then Done else IoError(Other));
      }
    }

    method Lose(kind: ErrorKind)
      modifies this`events, this`workerExitError
      ensures View() == Deliver(old(View()), Disconnected(kind))
      ensures workerExitError == Some(kind)
    {
      var _ := DeliverEvent(Disconnected(kind));
      workerExitError := Some(kind);
    }

    /** Handles one message and says whether the loop is left. */
    method HandleMessage(message: Incoming, ok: bool) returns (leave: bool)
      requires Separate(pendingRequests) && exited.None? && workerExitError.None?
      modifies this
      ensures if leave then Exit(View(), ExitKind()) == OnIncoming(old(View()), message, ok)
              else View() == OnIncoming(old(View()), message, ok) && workerExitError.None?
      ensures exited.None? && (leave ==> Separate(pendingRequests))
    {
      received := received + [message];
      leave := false;
      match message {
        case Response(id, result) =>
          if id in pendingRequests {
            var sender := pendingRequests[id];
            pendingRequests := pendingRequests - {id};
            Answer(sender, Result(result));
          }
        case ErrorResponse(id, error) =>
          if id in pendingRequests {
            var sender := pendingRequests[id];
            pendingRequests := pendingRequests - {id};
            Answer(sender, ServerError(error));
          }
        case Notification(event) =>
          if event.Some? {
            var delivered := DeliverEvent(ServerNotification(event.value));
            leave := !delivered;
          }
        case ServerCall(id, known) =>
          if known.Some? {
            var delivered := DeliverEvent(ServerRequest(id, known.value));
            leave := !delivered;
          } else if ok {
            refused := refused + [id];
          } else {
            Lose(BrokenPipe);
            leave := true;
          }
        case InvalidJson =>
          Lose(InvalidData);
          leave := true;
        case NotText =>
        case Close =>
          Lose(ConnectionAborted);
          leave := true;
        case TransportError =>
          Lose(InvalidData);
          leave := true;
        case EndOfStream =>
          Lose(UnexpectedEof);
          leave := true;
      }
    }

    ghost predicate Sound()
      reads this
    {
      Accounted(View()) && (exited.None? ==> workerExitError.None?)
    }

    /** One round of the loop, with the drain when it is left. */
    method Advance(step: Step)
      requires Sound()
      modifies this
      ensures Sound() && View() == OnStep(old(View()), step)
    {
      StepAccounted(View(), step);
      if exited.Some? {
        return;
      }
      AccountedSeparate(View());
      var leave := false;
      match step {
        case TakeCommand(command, ok) => leave := HandleCommand(command, ok);
        case CommandsClosed => leave := true;
        case TakeMessage(message, ok) => leave := HandleMessage(message, ok);
        case ConsumerLeaves => listening := false;
      }
      if leave {
        Drain();
      }
    }

    /** Answers whoever still waits. */
    method Drain()
      requires Separate(pendingRequests) && exited.None?
      modifies this
      ensures View() == Exit(old(View()), old(ExitKind()))
    {
      var kind := ExitKind();
      sent := TellAll(View(), pendingRequests, sent, kind);
      pendingRequests := map[];
      exited := Some(kind);
    }
  }

  /** Sends everyone in `pending` the error, in no particular order. */
  method TellAll(ghost w: Worker, pending: map<RequestId, Sender>, before: map<Sender, seq<Answer>>, kind: ErrorKind)
    returns (sent: map<Sender, seq<Answer>>)
    requires Separate(pending) && w.pending == pending && w.sent == before
    ensures sent == Exit(w, kind).sent
  {
    sent := before;
    var rest := pending;
    while rest != map[]
      invariant Draining(w, rest, sent, kind)
      decreases |rest|
    {
      var id :| id in rest;
      DrainStep(w, rest, sent, kind, id);
      sent := sent[rest[id] := SentTo(sent, rest[id]) + [IoError(kind)]];
      assert |rest - {id}| < |rest| by { assert rest == (rest - {id})[id := rest[id]]; }
      rest := rest - {id};
    }
    DrainEnd(w, sent, kind);
  }

  /** No two requests have the same caller waiting. */
  ghost predicate Separate(pending: map<RequestId, Sender>) {
    forall i, j | i in pending && j in pending && pending[i] == pending[j] :: i == j
  }

  lemma AccountedSeparate(w: Worker)
    requires Accounted(w)
    ensures Separate(w.pending)
  {
    forall i, j | i in w.pending && j in w.pending && w.pending[i] == w.pending[j] ensures i == j {
      assert w.dequeued[w.pending[i]] == Request(i) && w.dequeued[w.pending[j]] == Request(j);
    }
  }

  /** The callers not in `rest` have been told, the others have not. */
  ghost predicate Draining(w: Worker, rest: map<RequestId, Sender>, sent: map<Sender, seq<Answer>>, kind: ErrorKind) {
    && (forall id | id in rest :: id in w.pending && rest[id] == w.pending[id])
    && (forall s :: s in sent <==> s in w.sent || (Waits(w.pending, s) && !Waits(rest, s)))
    && (forall s | s in sent :: sent[s] ==
          SentTo(w.sent, s) + if Waits(w.pending, s) && !Waits(rest, s) then [IoError(kind)] else [])
  }

  lemma DrainStep(w: Worker, rest: map<RequestId, Sender>, sent: map<Sender, seq<Answer>>, kind: ErrorKind,
                  id: RequestId)
    requires Separate(w.pending) && id in rest && Draining(w, rest, sent, kind)
    ensures Draining(w, rest - {id}, sent[rest[id] := SentTo(sent, rest[id]) + [IoError(kind)]], kind)
  {
    var sender, fewer := rest[id], rest - {id};
    assert Waits(rest, sender) && Waits(w.pending, sender);
    forall s ensures Waits(fewer, s) <==> Waits(rest, s) && s != sender {
      if Waits(rest, s) && s != sender {
        var i :| i in rest && rest[i] == s;
        assert i in fewer;
      }
      if Waits(fewer, s) {
        var i :| i in fewer && fewer[i] == s;
        assert i in w.pending && id in w.pending;
      }
    }
  }

  lemma DrainEnd(w: Worker, sent: map<Sender, seq<Answer>>, kind: ErrorKind)
    requires Draining(w, map[], sent, kind)
    ensures sent == Exit(w, kind).sent
  {
    forall s ensures s in w.pending.Values <==> Waits(w.pending, s) && !Waits(map[], s) {
    }
  }

  // ----- running the loop -----

  /** Serves the two sources until a command or message ends the loop, then
      answers everyone who still waits. */
  method Serve(steps: seq<Step>) returns (worker: WorkerLoop)
    ensures worker.View() == Run(steps)
  {
    worker := new WorkerLoop();
    var i := 0;
    while i < |steps| && worker.exited.None?
      invariant 0 <= i <= |steps| && worker.Sound()
      invariant RunFrom(worker.View(), steps[i..]) == Run(steps)
    {
      assert steps[i..][0] == steps[i] && steps[i..][1..] == steps[i + 1..];
      worker.Advance(steps[i]);
      i := i + 1;
    }
    if worker.exited.Some? {
      ExitedStays(worker.View(), steps[i..]);
    }
  }

  lemma {:induction false} ExitedStays(w: Worker, steps: seq<Step>)
    requires w.exited.Some?
    ensures RunFrom(w, steps) == w
    decreases |steps|
  {
    if steps != [] {
      ExitedStays(w, steps[1..]);
    }
  }

  // ----- the handshake -----

  const INITIALIZE := StringId("initialize")

  /** A stream item, and whether the write it may call for succeeds. */
  datatype Frame = Frame(message: Incoming, ok: bool)

  datatype HandshakeError =
    | WriteFailed
    | InvalidReply
    | Rejected
    | ClosedEarly
    | TransportFailed
    | EndedEarly
    | TimedOut

  datatype Handshake = Handshake(events: seq<Event>, refused: seq<RequestId>, consumed: nat)

  function Messages(frames: seq<Frame>): seq<Incoming> {
    seq(|frames|, i requires 0 <= i < |frames| => frames[i].message)
  }

  predicate IsReply(frame: Frame) {
    frame.message.Response? && frame.message.id == INITIALIZE
  }

  /** The handshake reads on after this item. */
  predicate Passes(frame: Frame) {
    match frame.message
    case Response(id, _) => id != INITIALIZE
    case ErrorResponse(id, _) => id != INITIALIZE
    case Notification(_) => true
    case ServerCall(_, known) => known.Some? || frame.ok
    case NotText => true
    case _ => false
  }

  /** Item `n` is the first that does not let the handshake go on. */
  ghost predicate StopsAt(frames: seq<Frame>, n: nat) {
    n < |frames| && !Passes(frames[n]) && forall k | 0 <= k < n :: Passes(frames[k])
  }

  /** What the item that ends the handshake means for it. */
  function Verdict(frame: Frame, reached: Handshake, ackOk: bool): Result<Handshake, HandshakeError> {
    match frame.message
    case Response(_, _) => if ackOk then Ok(reached) else Err(WriteFailed)
    case ErrorResponse(_, _) => Err(Rejected)
    case InvalidJson => Err(InvalidReply)
    case Close => Err(ClosedEarly)
    case TransportError => Err(TransportFailed)
    case EndOfStream => Err(EndedEarly)
    case _ => Err(WriteFailed)
  }

  function ReadOn(h: Handshake, message: Incoming): Handshake {
    Handshake(h.events + EventsOf(message), if IsUnknown(message) then h.refused + [message.id] else h.refused,
        h.consumed + 1)
  }

  /** The first item that does not let the handshake go on decides; running out of
      items stands for the timeout. */
  function Concluded(frames: seq<Frame>, h: Handshake, ackOk: bool): Result<Handshake, HandshakeError>
    requires h.consumed <= |frames|
    decreases |frames| - h.consumed
  {
    if h.consumed == |frames| then Err(TimedOut)
    else
      var frame := frames[h.consumed];
      var next := ReadOn(h, frame.message);
      if Passes(frame) then Concluded(frames, next, ackOk) else Verdict(frame, next, ackOk)
  }

  const NOTHING_READ := Handshake([], [], 0)

  /** Waits for the reply to `initialize`, keeps the events that arrive before it and
      refuses unknown requests. */
  method InitializeConnection(frames: seq<Frame>, requestOk: bool, ackOk: bool)
    returns (r: Result<Handshake, HandshakeError>)
    ensures r == if requestOk then Concluded(frames, NOTHING_READ, ackOk) else Err(WriteFailed)
  {
    if !requestOk {
      return Err(WriteFailed);
    }
    var pendingEvents: seq<Event> := [];
    var refused: seq<RequestId> := [];
    var i := 0;
    while i < |frames|
      invariant 0 <= i <= |frames|
      invariant Concluded(frames, NOTHING_READ, ackOk) == Concluded(frames, Handshake(pendingEvents, refused, i), ackOk)
    {
      var frame := frames[i];
      assert pendingEvents + [] == pendingEvents;
      match frame.message {
        case Response(id, _) =>
          if id == INITIALIZE {
            if !ackOk {
              return Err(WriteFailed);
            }
            return Ok(Handshake(pendingEvents, refused, i + 1));
          }
        case ErrorResponse(id, _) =>
          if id == INITIALIZE {
            return Err(Rejected);
          }
        case Notification(event) =>
          if event.Some? {
            pendingEvents := pendingEvents + [ServerNotification(event.value)];
          }
        case ServerCall(id, known) =>
          if known.Some? {
            pendingEvents := pendingEvents + [ServerRequest(id, known.value)];
          } else if frame.ok {
            refused := refused + [id];
          } else {
            return Err(WriteFailed);
          }
        case NotText =>
        case InvalidJson => return Err(InvalidReply);
        case Close => return Err(ClosedEarly);
        case TransportError => return Err(TransportFailed);
        case EndOfStream => return Err(EndedEarly);
      }
      i := i + 1;
    }
    return Err(TimedOut);
  }

  /** The events and refusals are those of everything read so far. */
  ghost predicate ReadSoFar(frames: seq<Frame>, h: Handshake) {
    && h.consumed <= |frames|
    && h.events == Stream(Messages(frames)[..h.consumed]) && h.refused == Unknown(Messages(frames)[..h.consumed])
  }

  lemma ReadOnKeeps(frames: seq<Frame>, h: Handshake)
    requires ReadSoFar(frames, h) && h.consumed < |frames|
    ensures ReadSoFar(frames, ReadOn(h, frames[h.consumed].message))
  {
    var i, before := h.consumed, Messages(frames)[..h.consumed];
    assert Messages(frames)[..i + 1] == before + [frames[i].message];
    assert (before + [frames[i].message])[..i] == before;
    UnknownAppend(before, frames[i].message);
  }

  /** The handshake succeeds exactly when the reply comes before anything that ends
      it, and then holds the events and refusals of everything read. */
  lemma {:induction false} HandshakeSucceeds(frames: seq<Frame>, h: Handshake, ackOk: bool)
    requires ReadSoFar(frames, h) && forall k | 0 <= k < h.consumed :: Passes(frames[k])
    ensures var r := Concluded(frames, h, ackOk);
            && (r.Ok? <==> ackOk && exists n: nat :: StopsAt(frames, n) && IsReply(frames[n]))
            && (r.Ok? ==> r.value.consumed > 0 && ReadSoFar(frames, r.value) && StopsAt(frames, r.value.consumed - 1))
    decreases |frames| - h.consumed
  {
    if h.consumed < |frames| {
      var i := h.consumed;
      ReadOnKeeps(frames, h);
      if Passes(frames[i]) {
        HandshakeSucceeds(frames, ReadOn(h, frames[i].message), ackOk);
      } else {
        assert StopsAt(frames, i);
        assert forall n: nat :: StopsAt(frames, n) ==> n == i;
      }
    }
  }

  /** The item neither answers `initialize` nor ends or spoils the stream, and is no
      unknown request whose refusal cannot be written. */
  predicate Harmless(frame: Frame) {
    && !((frame.message.Response? || frame.message.ErrorResponse?) && frame.message.id == StringId("initialize"))
    && !frame.message.InvalidJson? && !frame.message.Close? && !frame.message.TransportError?
    && !frame.message.EndOfStream?
    && (frame.message.ServerCall? && frame.message.known.None? ==> frame.ok)
  }

  lemma HarmlessIff(frame: Frame)
    ensures Harmless(frame) <==> Passes(frame)
  {
  }

  /** The first item that is not harmless decides the handshake, by its kind; without one
      the time runs out. */
  lemma {:induction false} HandshakeDecided(frames: seq<Frame>, h: Handshake, n: nat, ackOk: bool)
    requires h.consumed <= n <= |frames| && forall k | h.consumed <= k < n :: Harmless(frames[k])
    ensures n == |frames| ==> Concluded(frames, h, ackOk) == Err(TimedOut)
    ensures n < |frames| && !Harmless(frames[n]) ==>
              var r, message := Concluded(frames, h, ackOk), frames[n].message;
              && (r.Ok? <==> message.Response? && ackOk)
              && (r == Err(WriteFailed) <==> (message.Response? && !ackOk) || message.ServerCall?)
              && (r == Err(Rejected) <==> message.ErrorResponse?)
              && (r == Err(InvalidReply) <==> message.InvalidJson?)
              && (r == Err(ClosedEarly) <==> message.Close?)
              && (r == Err(TransportFailed) <==> message.TransportError?)
              && (r == Err(EndedEarly) <==> message.EndOfStream?)
    decreases n - h.consumed
  {
    if h.consumed < n {
      HarmlessIff(frames[h.consumed]);
      HandshakeDecided(frames, ReadOn(h, frames[h.consumed].message), n, ackOk);
    } else if n < |frames| {
      HarmlessIff(frames[n]);
    }
  }
}

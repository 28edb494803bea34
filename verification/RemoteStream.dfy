/** The events a remote client yields to its caller: those kept by the handshake,
    then those the worker sends, while the worker runs on its own. */
module RemoteStream {
  import opened Common
  import opened RemoteWorker
  import opened RemoteClient

  // ----- a session -----

  /** What asking for the next event gives: an event, the end, or nothing yet. */
  datatype Poll = Ready(event: Option<Event>) | Pending

  /** A connected client. Of the events its worker ever sent, the first `taken` have
      left the channel; `yielded` is everything the caller was given. */
  datatype Session = Session(pending: seq<Event>, worker: Worker, taken: nat, yielded: seq<Event>, ended: bool)

  function Connected(handshake: Handshake): Session {
    Session(handshake.events, START, 0, [], false)
  }

  predicate Consistent(x: Session) {
    x.taken <= |x.worker.events|
  }

  function Undelivered(x: Session): seq<Event>
    requires Consistent(x)
  {
    x.pending + x.worker.events[x.taken..]
  }

  /** The oldest event; the end only when the worker is gone and everything was taken;
      otherwise the caller waits. */
  function Asked(x: Session): (r: (Session, Poll))
    requires Consistent(x)
    ensures r.1 == Ready(None) <==> x.worker.exited.Some? && Undelivered(x) == []
    ensures r.1 == Pending <==> x.worker.exited.None? && Undelivered(x) == []
    ensures r.0.ended <==> x.ended || r.1 == Ready(None)
  {
    if x.pending != [] then
      (x.(pending := x.pending[1..], yielded := x.yielded + [x.pending[0]]), Ready(Some(x.pending[0])))
    else if x.taken < |x.worker.events| then
      var event := x.worker.events[x.taken];
      (x.(taken := x.taken + 1, yielded := x.yielded + [event]), Ready(Some(event)))
    else if x.worker.exited.Some? then (x.(ended := true), Ready(None))
    else (x, Pending)
  }

  /** The worker takes a step, or the caller asks for the next event. */
  datatype Move = Work(step: Step) | Ask

  /** Once the consumer has left there is nobody to ask. */
  function OnMove(x: Session, move: Move): Session {
    match move
    case Work(step) => x.(worker := OnStep(x.worker, step))
    case Ask => if Consistent(x) && x.worker.listening then Asked(x).0 else x
  }

  function SessionAfter(handshake: Handshake, moves: seq<Move>): Session {
    if moves == [] then Connected(handshake)
    else OnMove(SessionAfter(handshake, moves[..|moves| - 1]), moves[|moves| - 1])
  }

  function StepsOf(moves: seq<Move>): seq<Step> {
    if moves == [] then []
    else
      var last := moves[|moves| - 1];
      StepsOf(moves[..|moves| - 1]) + if last.Work? then [last.step] else []
  }

  // ----- one stream -----

  lemma CommandEventsGrow(w: Worker, command: Command, ok: bool)
    ensures w.events <= OnCommand(w, command, ok).events
  {
  }

  lemma MessageEventsGrow(w: Worker, message: Incoming, ok: bool)
    ensures w.events <= OnIncoming(w, message, ok).events
  {
  }

  lemma EventsGrow(w: Worker, step: Step)
    ensures w.events <= OnStep(w, step).events
  {
    match step
    case TakeCommand(command, ok) => CommandEventsGrow(w, command, ok);
    case TakeMessage(message, ok) => MessageEventsGrow(w, message, ok);
    case _ =>
  }

  /** What more events add to a channel. */
  lemma ChannelGrows(before: seq<Event>, after: seq<Event>, taken: nat)
    requires before <= after && taken <= |before|
    ensures after == before + after[|before|..] && after[taken..] == before[taken..] + after[|before|..]
  {
  }

  /** Nothing is lost or duplicated between the worker and the caller, and the end is
      seen only when there is nothing left to come. */
  ghost predicate Streaming(x: Session, handshake: Handshake) {
    && Consistent(x)
    && x.yielded + Undelivered(x) == handshake.events + x.worker.events
    && (x.ended ==> x.worker.exited.Some? && Undelivered(x) == [])
  }

  /** Adding the same to the ends of both sides. */
  lemma BothGrow(a: seq<Event>, b: seq<Event>, c: seq<Event>, d: seq<Event>, more: seq<Event>)
    requires a + b == c + d
    ensures a + (b + more) == c + (d + more)
  {
    assert a + (b + more) == (a + b) + more && (c + d) + more == c + (d + more);
  }

  lemma UndeliveredGrows(x: Session, w: Worker, more: seq<Event>)
    requires Consistent(x) && x.worker.events <= w.events && more == w.events[|x.worker.events|..]
    ensures Consistent(x.(worker := w)) && Undelivered(x.(worker := w)) == Undelivered(x) + more
  {
    ChannelGrows(x.worker.events, w.events, x.taken);
    assert x.pending + (x.worker.events[x.taken..] + more) == (x.pending + x.worker.events[x.taken..]) + more;
  }

  lemma WorkStreams(x: Session, handshake: Handshake, w: Worker)
    requires Streaming(x, handshake) && x.worker.events <= w.events && (x.worker.exited.Some? ==> w == x.worker)
    ensures Streaming(x.(worker := w), handshake)
  {
    var more := w.events[|x.worker.events|..];
    UndeliveredGrows(x, w, more);
    BothGrow(x.yielded, Undelivered(x), handshake.events, x.worker.events, more);
    assert w.events == x.worker.events + more;
  }

  lemma AskStreams(x: Session, handshake: Handshake)
    requires Streaming(x, handshake)
    ensures Streaming(Asked(x).0, handshake)
    ensures Asked(x).1 == if Undelivered(x) != [] then Ready(Some(Undelivered(x)[0]))
                          else if x.worker.exited.Some? then Ready(None) else Pending
  {
    var y := Asked(x).0;
    if Undelivered(x) != [] {
      var first := Undelivered(x)[0];
      assert Undelivered(x) == [first] + Undelivered(y);
      assert x.yielded + ([first] + Undelivered(y)) == (x.yielded + [first]) + Undelivered(y);
    }
  }

  lemma {:induction false} SessionStreams(handshake: Handshake, moves: seq<Move>)
    ensures Streaming(SessionAfter(handshake, moves), handshake)
  {
    if moves != [] {
      var n := |moves| - 1;
      var x := SessionAfter(handshake, moves[..n]);
      SessionStreams(handshake, moves[..n]);
      match moves[n]
      case Work(step) =>
        EventsGrow(x.worker, step);
        WorkStreams(x, handshake, OnStep(x.worker, step));
      case Ask => AskStreams(x, handshake);
    }
  }

  /** Asking does not disturb the worker. */
  lemma {:induction false} SessionWorker(handshake: Handshake, moves: seq<Move>)
    ensures SessionAfter(handshake, moves).worker == Run(StepsOf(moves))
  {
    if moves != [] {
      var n := |moves| - 1;
      SessionWorker(handshake, moves[..n]);
      if moves[n].Work? {
        RunFromOneMore(START, StepsOf(moves[..n]), moves[n].step);
      } else {
        assert StepsOf(moves) == StepsOf(moves[..n]);
      }
    }
  }

  /** What the caller has been given and will still be given is the events of
      everything read, before and after the handshake, in wire order. */
  ghost predicate InWireOrder(all: seq<Event>, read: seq<Event>, exited: bool) {
    && read <= all && |all| <= |read| + 1 && (!exited ==> all == read)
    && (forall i | 0 <= i < |all| && all[i].Disconnected? :: i == |all| - 1 && exited)
  }

  lemma HandshakeThenWorker(frames: seq<Frame>, handshake: Handshake, steps: seq<Step>)
    requires ReadSoFar(frames, handshake) && Run(steps).listening
    ensures var w := Run(steps);
            InWireOrder(handshake.events + w.events, Stream(Messages(frames)[..handshake.consumed] + w.received),
                        w.exited.Some?)
  {
    var before := Messages(frames)[..handshake.consumed];
    StreamConcat(before, Run(steps).received);
    StreamHasNoDisconnect(before);
    OrderedStream(steps);
  }

  /** Over every interleaving of the worker and a caller that stays: what `next_event`
      has yielded, followed by what it has yet to yield, is exactly the events of the
      wire in order, those of the handshake first, and a disconnect notice only at the
      very end. It yields the end only after the worker is gone and everything before
      was yielded. */
  lemma OneOrderedStream(frames: seq<Frame>, ackOk: bool, moves: seq<Move>)
    requires Concluded(frames, NOTHING_READ, ackOk).Ok?
    requires Run(StepsOf(moves)).listening
    ensures var handshake := Concluded(frames, NOTHING_READ, ackOk).value;
            var x, w := SessionAfter(handshake, moves), Run(StepsOf(moves));
            && handshake.consumed <= |frames| && Consistent(x) && x.worker == w
            && InWireOrder(x.yielded + Undelivered(x), Stream(Messages(frames)[..handshake.consumed] + w.received),
                           w.exited.Some?)
            && (x.ended ==> w.exited.Some? && Undelivered(x) == [])
  {
    var handshake := Concluded(frames, NOTHING_READ, ackOk).value;
    assert ReadSoFar(frames, NOTHING_READ) by {
      assert Messages(frames)[..0] == [];
    }
    HandshakeSucceeds(frames, NOTHING_READ, ackOk);
    HandshakeThenWorker(frames, handshake, StepsOf(moves));
    SessionStreams(handshake, moves);
    SessionWorker(handshake, moves);
  }

  // ----- the client and its worker -----

  class Client {
    var pendingEvents: seq<Event>
    var channel: seq<Event>
    var workerGone: bool

    constructor (handshake: Handshake)
      ensures pendingEvents == handshake.events && channel == [] && !workerGone
    {
      pendingEvents, channel, workerGone := handshake.events, [], false;
    }

    /** This client has what a session has yet to yield. */
    ghost predicate Shows(x: Session)
      reads this
    {
      && Consistent(x) && pendingEvents == x.pending && channel == x.worker.events[x.taken..]
      && workerGone == x.worker.exited.Some?
    }

    /** One poll of `next_event`. */
    method NextEvent(ghost x: Session) returns (poll: Poll)
      requires Shows(x)
      modifies this`pendingEvents, this`channel
      ensures poll == Asked(x).1 && Shows(Asked(x).0)
    {
      if pendingEvents != [] {
        poll := Ready(Some(pendingEvents[0]));
        pendingEvents := pendingEvents[1..];
      } else if channel != [] {
        poll := Ready(Some(channel[0]));
        channel := channel[1..];
      } else if workerGone {
        poll := Ready(None);
      } else {
        poll := Pending;
      }
    }
  }

  /** Lets a worker and a caller take turns, and returns what the caller was given and
      whether it saw the end. */
  method Converse(handshake: Handshake, moves: seq<Move>) returns (yielded: seq<Event>, ended: bool)
    ensures yielded == SessionAfter(handshake, moves).yielded && ended == SessionAfter(handshake, moves).ended
  {
    var worker := new WorkerLoop();
    var client := new Client(handshake);
    yielded, ended := [], false;
    ghost var x := Connected(handshake);
    assert moves[..0] == [];
    for i := 0 to |moves|
      invariant worker.Sound() && x == SessionAfter(handshake, moves[..i]) && Streaming(x, handshake)
      invariant worker.View() == x.worker && client.Shows(x) && yielded == x.yielded && ended == x.ended
    {
      assert moves[..i + 1][..i] == moves[..i];
      match moves[i] {
        case Work(step) =>
          var sent := |worker.events|;
          ghost var w := OnStep(x.worker, step);
          EventsGrow(x.worker, step);
          WorkStreams(x, handshake, w);
          ChannelGrows(x.worker.events, w.events, x.taken);
          worker.Advance(step);
          client.channel := client.channel + worker.events[sent..];
          client.workerGone := worker.exited.Some?;
          x := x.(worker := w);
        case Ask =>
          if worker.listening {
            AskStreams(x, handshake);
            var poll := client.NextEvent(x);
            if poll.Ready? {
              if poll.event.Some? {
                yielded := yielded + [poll.event.value];
              } else {
                ended := true;
              }
            }
            x := Asked(x).0;
          }
      }
    }
    assert moves[..|moves|] == moves;
  }
}

/** Forwarding in-process server events into the bounded queue of a consumer that
    may lag: some notifications must get through, the rest is dropped and counted. */
module EventForwarder {

  const USIZE_MAX: nat := 0xFFFF_FFFF_FFFF_FFFF

  datatype NotificationKind =
    | TurnCompleted
    | ItemCompleted
    | AgentMessageDelta
    | PlanDelta
    | ReasoningSummaryTextDelta
    | ReasoningTextDelta
    | OtherNotification

  datatype Event =
    | Notification(kind: NotificationKind, body: string)
    | Request(id: int)
    | AuthRefresh(id: int)
    | Lagged(skipped: nat)

  /** Transcript and completion notifications are lossless. */
  predicate RequiresDelivery(e: Event) {
    e.Notification? && !e.kind.OtherNotification?
  }

  predicate IsRequest(e: Event) {
    e.Request? || e.AuthRefresh?
  }

  /** What is put on the queue: a lag marker of the forwarder's own, or an event it
      was given. The consumer sees a marker as `Lagged`. */
  datatype Item = Marker(skipped: nat) | Passed(event: Event)

  /** What the consumer does before a queue operation: it takes some items, and it
      may drop its end. */
  datatype Move = Move(takes: nat, leaves: bool)

  datatype Fate = Delivered | Dropped

  /** The queue, the counter, and the history: everything enqueued, everything
      taken off, requests rejected, and the events handled with their fates. */
  datatype Line = Line(
    queue: seq<Item>,
    open: bool,
    skipped: nat,
    enabled: bool,
    sent: seq<Item>,
    taken: seq<Item>,
    rejected: seq<Event>,
    refreshes: seq<Event>,
    handled: seq<Event>,
    fates: seq<Fate>)

  const EMPTY := Line([], true, 0, true, [], [], [], [], [], [])

  datatype Sending = SendOk | SendFull | SendClosed

  // ----- the queue -----

  function Take(l: Line, n: nat): Line {
    var k := if n <= |l.queue| then n else |l.queue|;
    l.(queue := l.queue[k..], taken := l.taken + l.queue[..k])
  }

  function Consume(l: Line, m: Move): Line {
    Take(l, m.takes).(open := l.open && !m.leaves)
  }

  function Enqueue(l: Line, item: Item): Line {
    l.(queue := l.queue + [item], sent := l.sent + [item])
  }

  datatype Attempt = Attempt(line: Line, sending: Sending)

  /** Sends only if there is room right now. */
  function TrySend(l: Line, capacity: nat, item: Item, m: Move): Attempt {
    var c := Consume(l, m);
    if !c.open then Attempt(c, SendClosed)
    else if |c.queue| >= capacity then Attempt(c, SendFull)
    else Attempt(Enqueue(c, item), SendOk)
  }

  /** Waits for room: the consumer takes at least as many items as it takes to make some. */
  function SendWaiting(l: Line, capacity: nat, item: Item, m: Move): Attempt
    requires capacity >= 1
  {
    var c := Consume(l, m);
    if !c.open then Attempt(c, SendClosed)
    else
      var room := if |c.queue| < capacity then c else Take(c, |c.queue| - capacity + 1);
      Attempt(Enqueue(room, item), SendOk)
  }

  /** Lossless events wait for room, the others do not. */
  function SendFor(e: Event, l: Line, capacity: nat, item: Item, m: Move): Attempt
    requires capacity >= 1
  {
    if RequiresDelivery(e) then SendWaiting(l, capacity, item, m) else TrySend(l, capacity, item, m)
  }

  /** What a send does once the consumer has had its turn. */
  lemma SendCases(e: Event, l: Line, capacity: nat, item: Item, m: Move, c: Line)
    requires capacity >= 1 && c == Consume(l, m)
    ensures SendFor(e, l, capacity, item, m) ==
            if !c.open then Attempt(c, SendClosed)
            else if |c.queue| < capacity then Attempt(Enqueue(c, item), SendOk)
            else if RequiresDelivery(e) then Attempt(Enqueue(Take(c, |c.queue| - capacity + 1), item), SendOk)
            else Attempt(c, SendFull)
  {
  }

  // ----- forwarding -----

  datatype Outcome = Continue(fate: Fate) | DisableStream

  datatype Forwarded = Forwarded(line: Line, outcome: Outcome)

  function SaturatingIncrement(n: nat): (r: nat)
    ensures n <= USIZE_MAX ==> n <= r <= USIZE_MAX
  {
    if n < USIZE_MAX then n + 1 else n
  }

  /** Counts a dropped event, and rejects it if somebody waits for its answer. */
  function Drop(l: Line, e: Event): Line {
    l.(skipped := SaturatingIncrement(l.skipped), rejected := l.rejected + if IsRequest(e) then [e] else [])
  }

  /** What an attempt to send the event itself means. */
  function Conclude(attempt: Attempt, e: Event): Forwarded {
    match attempt.sending
    case SendOk => Forwarded(attempt.line, Continue(Delivered))
    case SendFull => Forwarded(Drop(attempt.line, e), Continue(Dropped))
    case SendClosed => Forwarded(attempt.line, DisableStream)
  }

  /** Flushes a pending lag marker first, then the event. */
  function Forward(l: Line, capacity: nat, e: Event, first: Move, second: Move): Forwarded
    requires capacity >= 1
  {
    if l.skipped == 0 then Conclude(SendFor(e, l, capacity, Passed(e), second), e)
    else
      var flush := SendFor(e, l, capacity, Marker(l.skipped), first);
      match flush.sending
      case SendOk => Conclude(SendFor(e, flush.line.(skipped := 0), capacity, Passed(e), second), e)
      case SendFull => Forwarded(Drop(flush.line, e), Continue(Dropped))
      case SendClosed => Forwarded(flush.line, DisableStream)
  }

  /** A handled event goes into the history; a closed consumer ends the stream. */
  function Record(f: Forwarded, e: Event): Line {
    match f.outcome
    case Continue(fate) => f.line.(handled := f.line.handled + [e], fates := f.line.fates + [fate])
    case DisableStream => f.line.(enabled := false)
  }

  datatype Input = Input(event: Event, first: Move, second: Move)

  /** The event branch of the worker loop. */
  function OnEvent(l: Line, capacity: nat, i: Input): Line
    requires capacity >= 1
  {
    if !l.enabled then l
    else if i.event.AuthRefresh? then l.(refreshes := l.refreshes + [i.event])
    else
      Record(Forward(l, capacity, i.event, i.first, i.second), i.event)
  }

  function Run(capacity: nat, inputs: seq<Input>): Line
    requires capacity >= 1
  {
    if inputs == [] then EMPTY else OnEvent(Run(capacity, inputs[..|inputs| - 1]), capacity, inputs[|inputs| - 1])
  }

  // ----- accounting -----

  function Weight(item: Item): nat {
    if item.Marker? then item.skipped else 1
  }

  /** How many events the items account for. */
  function Position(items: seq<Item>): nat {
    if items == [] then 0 else Position(items[..|items| - 1]) + Weight(items[|items| - 1])
  }

  lemma PositionAppend(items: seq<Item>, item: Item)
    ensures Position(items + [item]) == Position(items) + Weight(item)
  {
    assert (items + [item])[..|items|] == items;
  }

  /** Every event on the queue sits at the position its markers and predecessors add up to. */
  ghost predicate Aligned(items: seq<Item>, handled: seq<Event>) {
    forall j | 0 <= j < |items| && items[j].Passed? ::
      Position(items[..j]) < |handled| && handled[Position(items[..j])] == items[j].event
  }

  lemma AlignedAppendMarker(items: seq<Item>, handled: seq<Event>, n: nat)
    requires Aligned(items, handled)
    ensures Aligned(items + [Marker(n)], handled)
  {
    forall j | 0 <= j < |items| ensures (items + [Marker(n)])[..j] == items[..j] {
    }
  }

  lemma AlignedAppendEvent(items: seq<Item>, handled: seq<Event>, e: Event)
    requires Aligned(items, handled) && Position(items) == |handled|
    ensures Aligned(items + [Passed(e)], handled + [e])
  {
    forall j | 0 <= j <= |items| ensures (items + [Passed(e)])[..j] == items[..j] {
    }
    assert items[..|items|] == items;
  }

  lemma AlignedMore(items: seq<Item>, handled: seq<Event>, e: Event)
    requires Aligned(items, handled)
    ensures Aligned(items, handled + [e])
  {
  }

  /** The delivered events among the handled ones, in order. */
  function Those(events: seq<Event>, fates: seq<Fate>, fate: Fate): seq<Event>
    requires |events| == |fates|
  {
    if events == [] then []
    else
      var n := |events| - 1;
      Those(events[..n], fates[..n], fate) + if fates[n] == fate then [events[n]] else []
  }

  function EventsIn(items: seq<Item>): seq<Event> {
    if items == [] then []
    else
      var last := items[|items| - 1];
      EventsIn(items[..|items| - 1]) + if last.Passed? then [last.event] else []
  }

  function Requests(events: seq<Event>): seq<Event> {
    if events == [] then []
    else
      var last := events[|events| - 1];
      Requests(events[..|events| - 1]) + if IsRequest(last) then [last] else []
  }

  /** The queue is bounded and holds exactly what was sent and not yet taken. */
  ghost predicate Bounded(l: Line, capacity: nat) {
    |l.queue| <= capacity && l.taken + l.queue == l.sent
  }

  /** Each handled event was delivered or dropped: delivered ones are on the queue's
      history in order, dropped requests were rejected in order, lossless events are
      never dropped. */
  ghost predicate Sorted(l: Line) {
    SortedHistory(l.sent, l.rejected, l.handled, l.fates)
  }

  ghost predicate SortedHistory(sent: seq<Item>, rejected: seq<Event>, handled: seq<Event>, fates: seq<Fate>) {
    && |fates| == |handled|
    && EventsIn(sent) == Those(handled, fates, Delivered)
    && rejected == Requests(Those(handled, fates, Dropped))
    && (forall i | 0 <= i < |handled| && RequiresDelivery(handled[i]) :: fates[i] == Delivered)
  }

  /** Nothing that was handled is missing from the count. */
  ghost predicate Counted(l: Line) {
    |l.handled| <= USIZE_MAX ==> CountedHistory(l.sent, l.skipped, l.handled)
  }

  ghost predicate CountedHistory(sent: seq<Item>, skipped: nat, handled: seq<Event>) {
    Position(sent) + skipped == |handled| && Aligned(sent, handled)
  }

  // ----- what one call does -----

  lemma TakeBounded(l: Line, n: nat)
    ensures Take(l, n).taken + Take(l, n).queue == l.taken + l.queue
    ensures |Take(l, n).queue| <= |l.queue|
  {
  }

  /** What an attempt to send may change. */
  ghost predicate Attempted(l: Line, capacity: nat, e: Event, item: Item, a: Attempt) {
    && a.line.sent == (if a.sending.SendOk? then l.sent + [item] else l.sent)
    && OnlyQueue(l, a.line)
    && (RequiresDelivery(e) ==> !a.sending.SendFull?)
    && (Bounded(l, capacity) ==> Bounded(a.line, capacity))
  }

  lemma ConsumeBounded(l: Line, m: Move, capacity: nat)
    requires Bounded(l, capacity)
    ensures Bounded(Consume(l, m), capacity)
  {
    TakeBounded(l, m.takes);
  }

  lemma EnqueueBounded(l: Line, item: Item, capacity: nat)
    requires Bounded(l, capacity) && |l.queue| < capacity
    ensures Bounded(Enqueue(l, item), capacity)
  {
    assert l.taken + (l.queue + [item]) == (l.taken + l.queue) + [item];
  }

  lemma SendBounded(e: Event, l: Line, capacity: nat, item: Item, m: Move)
    requires capacity >= 1 && Bounded(l, capacity)
    ensures Bounded(SendFor(e, l, capacity, item, m).line, capacity)
  {
    var c := Consume(l, m);
    ConsumeBounded(l, m, capacity);
    if |c.queue| < capacity {
      EnqueueBounded(c, item, capacity);
    } else {
      var n := |c.queue| - capacity + 1;
      TakeBounded(c, n);
      EnqueueBounded(Take(c, n), item, capacity);
    }
  }

  lemma SendAttempted(e: Event, l: Line, capacity: nat, item: Item, m: Move)
    requires capacity >= 1
    ensures Attempted(l, capacity, e, item, SendFor(e, l, capacity, item, m))
  {
    if Bounded(l, capacity) {
      SendBounded(e, l, capacity, item, m);
    }
  }

  /** The marker that a call may flush. */
  function Flushed(l: Line): seq<Item> {
    if l.skipped > 0 then [Marker(l.skipped)] else []
  }

  /** What a call adds to the history, by outcome. */
  ghost predicate Effect(l: Line, capacity: nat, e: Event, f: Forwarded) {
    var r := f.line;
    && (Bounded(l, capacity) ==> Bounded(r, capacity))
    && r == r.(enabled := l.enabled, refreshes := l.refreshes, handled := l.handled, fates := l.fates)
    && match f.outcome
       case Continue(Delivered) => r.sent == l.sent + Flushed(l) + [Passed(e)] && r.skipped == 0
           && r.rejected == l.rejected
       case Continue(Dropped) =>
         && !RequiresDelivery(e) && r.rejected == l.rejected + (if IsRequest(e) then [e] else [])
         && ((r.sent == l.sent && r.skipped == SaturatingIncrement(l.skipped))
             || (r.sent == l.sent + Flushed(l) && r.skipped == 1))
       case DisableStream =>
         && r.rejected == l.rejected
         && ((r.sent == l.sent && r.skipped == l.skipped) || (r.sent == l.sent + Flushed(l) && r.skipped == 0))
  }

  lemma ConcludeEffect(l: Line, capacity: nat, e: Event, flushed: Line, a: Attempt)
    requires flushed.sent == l.sent + Flushed(l) && flushed.skipped == 0
    requires flushed == flushed.(enabled := l.enabled, rejected := l.rejected, refreshes := l.refreshes,
                                 handled := l.handled, fates := l.fates)
    requires Bounded(l, capacity) ==> Bounded(flushed, capacity)
    requires Attempted(flushed, capacity, e, Passed(e), a)
    ensures Effect(l, capacity, e, Conclude(a, e))
  {
  }

  lemma ForwardEffect(l: Line, capacity: nat, e: Event, first: Move, second: Move)
    requires capacity >= 1
    ensures Effect(l, capacity, e, Forward(l, capacity, e, first, second))
  {
    if l.skipped == 0 {
      SendAttempted(e, l, capacity, Passed(e), second);
      assert l.sent + Flushed(l) == l.sent;
      ConcludeEffect(l, capacity, e, l, SendFor(e, l, capacity, Passed(e), second));
    } else {
      var flush := SendFor(e, l, capacity, Marker(l.skipped), first);
      SendAttempted(e, l, capacity, Marker(l.skipped), first);
      FlushEffect(l, capacity, e, flush, second);
    }
  }

  lemma FlushEffect(l: Line, capacity: nat, e: Event, flush: Attempt, second: Move)
    requires capacity >= 1 && l.skipped > 0 && Attempted(l, capacity, e, Marker(l.skipped), flush)
    ensures Effect(l, capacity, e,
                   match flush.sending
                   case SendOk => Conclude(SendFor(e, flush.line.(skipped := 0), capacity, Passed(e), second), e)
                   case SendFull => Forwarded(Drop(flush.line, e), Continue(Dropped))
                   case SendClosed => Forwarded(flush.line, DisableStream))
  {
    if flush.sending.SendOk? {
      var flushed := flush.line.(skipped := 0);
      SendAttempted(e, flushed, capacity, Passed(e), second);
      ConcludeEffect(l, capacity, e, flushed, SendFor(e, flushed, capacity, Passed(e), second));
    }
  }

  // ----- over every run -----

  lemma CountFlushed(l: Line)
    requires CountedHistory(l.sent, l.skipped, l.handled)
    ensures CountedHistory(l.sent + Flushed(l), 0, l.handled)
  {
    if l.skipped > 0 {
      PositionAppend(l.sent, Marker(l.skipped));
      AlignedAppendMarker(l.sent, l.handled, l.skipped);
    } else {
      assert l.sent + Flushed(l) == l.sent;
    }
  }

  lemma CountDelivered(sent: seq<Item>, handled: seq<Event>, e: Event)
    requires CountedHistory(sent, 0, handled)
    ensures CountedHistory(sent + [Passed(e)], 0, handled + [e])
  {
    PositionAppend(sent, Passed(e));
    AlignedAppendEvent(sent, handled, e);
  }

  lemma CountDropped(sent: seq<Item>, skipped: nat, handled: seq<Event>, e: Event)
    requires CountedHistory(sent, skipped, handled) && |handled| < USIZE_MAX
    ensures CountedHistory(sent, SaturatingIncrement(skipped), handled + [e])
  {
    AlignedMore(sent, handled, e);
  }

  lemma EffectCounted(l: Line, capacity: nat, e: Event, f: Forwarded)
    requires Counted(l) && Effect(l, capacity, e, f)
    ensures Counted(Record(f, e))
  {
    var handled := Record(f, e).handled;
    if |handled| <= USIZE_MAX {
      var flushed := l.sent + Flushed(l);
      CountFlushed(l);
      if f.outcome.Continue? {
        assert handled == l.handled + [e];
        if f.outcome.fate.Delivered? {
          CountDelivered(flushed, l.handled, e);
        } else {
          CountDropped(l.sent, l.skipped, l.handled, e);
          CountDropped(flushed, 0, l.handled, e);
        }
      }
    }
  }

  lemma EventsInFlushed(l: Line, e: Event)
    ensures EventsIn(l.sent + Flushed(l)) == EventsIn(l.sent)
    ensures EventsIn(l.sent + Flushed(l) + [Passed(e)]) == EventsIn(l.sent) + [e]
  {
    var flushed := l.sent + Flushed(l);
    assert l.skipped > 0 ==> flushed[..|flushed| - 1] == l.sent;
    assert l.skipped == 0 ==> flushed == l.sent;
    assert (flushed + [Passed(e)])[..|flushed|] == flushed;
  }

  lemma ThoseAppend(events: seq<Event>, fates: seq<Fate>, e: Event, fate: Fate, wanted: Fate)
    requires |events| == |fates|
    ensures fate == wanted ==> Those(events + [e], fates + [fate], wanted) == Those(events, fates, wanted) + [e]
    ensures fate != wanted ==> Those(events + [e], fates + [fate], wanted) == Those(events, fates, wanted)
  {
    var n := |events|;
    assert (events + [e])[..n] == events && (fates + [fate])[..n] == fates;
  }

  lemma RequestsAppend(events: seq<Event>, e: Event)
    ensures Requests(events + [e]) == Requests(events) + if IsRequest(e) then [e] else []
  {
    assert (events + [e])[..|events|] == events;
  }

  lemma SortDelivered(sent: seq<Item>, rejected: seq<Event>, handled: seq<Event>, fates: seq<Fate>, e: Event,
                      sentNow: seq<Item>)
    requires SortedHistory(sent, rejected, handled, fates) && EventsIn(sentNow) == EventsIn(sent) + [e]
    ensures SortedHistory(sentNow, rejected, handled + [e], fates + [Delivered])
  {
    ThoseAppend(handled, fates, e, Delivered, Delivered);
    ThoseAppend(handled, fates, e, Delivered, Dropped);
  }

  lemma SortDropped(sent: seq<Item>, rejected: seq<Event>, handled: seq<Event>, fates: seq<Fate>, e: Event)
    requires SortedHistory(sent, rejected, handled, fates) && !RequiresDelivery(e)
    ensures SortedHistory(sent, rejected + (if IsRequest(e) then [e] else []), handled + [e], fates + [Dropped])
  {
    ThoseAppend(handled, fates, e, Dropped, Delivered);
    ThoseAppend(handled, fates, e, Dropped, Dropped);
    RequestsAppend(Those(handled, fates, Dropped), e);
  }

  lemma EffectSorted(l: Line, capacity: nat, e: Event, f: Forwarded)
    requires Sorted(l) && Effect(l, capacity, e, f)
    ensures Sorted(Record(f, e))
  {
    EventsInFlushed(l, e);
    if f.outcome == Continue(Delivered) {
      SortDelivered(l.sent, l.rejected, l.handled, l.fates, e, f.line.sent);
    } else if f.outcome == Continue(Dropped) {
      SortDropped(l.sent, l.rejected, l.handled, l.fates, e);
    }
  }

  ghost predicate Invariant(l: Line, capacity: nat) {
    Bounded(l, capacity) && Sorted(l) && Counted(l)
  }

  lemma {:induction false} RunInvariant(capacity: nat, inputs: seq<Input>)
    requires capacity >= 1
    ensures Invariant(Run(capacity, inputs), capacity)
  {
    if inputs != [] {
      var n := |inputs| - 1;
      RunInvariant(capacity, inputs[..n]);
      var l, i := Run(capacity, inputs[..n]), inputs[n];
      if l.enabled && !i.event.AuthRefresh? {
        var f := Forward(l, capacity, i.event, i.first, i.second);
        ForwardEffect(l, capacity, i.event, i.first, i.second);
        EffectCounted(l, capacity, i.event, f);
        EffectSorted(l, capacity, i.event, f);
      }
    }
  }

  // ----- what the consumer can rely on -----

  /** Prefix-exact lag: in every run of at most `USIZE_MAX` events, the items before
      a delivered event add up to exactly the events that came before it, and at
      the end delivered, marked and still unreported events add up to all events.
      The queue never exceeds its capacity and loses nothing it accepted. */
  lemma LagAccounting(capacity: nat, inputs: seq<Input>)
    requires capacity >= 1 && |inputs| <= USIZE_MAX
    ensures var l := Run(capacity, inputs);
            && Position(l.sent) + l.skipped == |l.handled|
            && (forall j | 0 <= j < |l.sent| && l.sent[j].Passed? ::
                  Position(l.sent[..j]) < |l.handled| && l.handled[Position(l.sent[..j])] == l.sent[j].event)
            && l.taken + l.queue == l.sent && |l.queue| <= capacity
  {
    RunInvariant(capacity, inputs);
    HandledCount(capacity, inputs);
  }

  lemma {:induction false} HandledCount(capacity: nat, inputs: seq<Input>)
    requires capacity >= 1
    ensures |Run(capacity, inputs).handled| <= |inputs|
  {
    if inputs != [] {
      var n := |inputs| - 1;
      HandledCount(capacity, inputs[..n]);
      var l, i := Run(capacity, inputs[..n]), inputs[n];
      if l.enabled && !i.event.AuthRefresh? {
        ForwardEffect(l, capacity, i.event, i.first, i.second);
      }
    }
  }

  /** The events among the inputs that are forwarded. */
  function Forwardable(inputs: seq<Input>): seq<Event> {
    if inputs == [] then []
    else
      var last := inputs[|inputs| - 1].event;
      Forwardable(inputs[..|inputs| - 1]) + if last.AuthRefresh? then [] else [last]
  }

  function Refreshes(inputs: seq<Input>): seq<Event> {
    if inputs == [] then []
    else
      var last := inputs[|inputs| - 1].event;
      Refreshes(inputs[..|inputs| - 1]) + if last.AuthRefresh? then [last] else []
  }

  /** What has been handled so far is the inputs in order, without the refresh requests:
      all of them while the stream is enabled, and those before the one that met the
      closed consumer once it is not. */
  lemma {:induction false} HandledAll(capacity: nat, inputs: seq<Input>)
    requires capacity >= 1
    ensures var l := Run(capacity, inputs);
            && l.handled <= Forwardable(inputs) && l.refreshes <= Refreshes(inputs)
            && (l.enabled ==> l.handled == Forwardable(inputs) && l.refreshes == Refreshes(inputs))
            && (!l.enabled ==> !l.open && |l.handled| < |Forwardable(inputs)|)
  {
    if inputs != [] {
      var n := |inputs| - 1;
      var l, i := Run(capacity, inputs[..n]), inputs[n];
      HandledAll(capacity, inputs[..n]);
      if !i.event.AuthRefresh? && l.enabled {
        ForwardEffect(l, capacity, i.event, i.first, i.second);
        ForwardCloses(l, capacity, i.event, i.first, i.second);
      }
    }
  }

  /** The stream ends only where the consumer has left. */
  lemma ForwardCloses(l: Line, capacity: nat, e: Event, first: Move, second: Move)
    requires capacity >= 1
    ensures var f := Forward(l, capacity, e, first, second); f.outcome.DisableStream? ==> !f.line.open
  {
    SendCloses(e, l, capacity, Marker(l.skipped), first);
    SendCloses(e, l, capacity, Passed(e), second);
    var flushed := SendFor(e, l, capacity, Marker(l.skipped), first).line;
    SendCloses(e, flushed.(skipped := 0), capacity, Passed(e), second);
  }

  lemma SendCloses(e: Event, l: Line, capacity: nat, item: Item, m: Move)
    requires capacity >= 1
    ensures var a := SendFor(e, l, capacity, item, m); a.sending.SendClosed? ==> !a.line.open
  {
    SendCases(e, l, capacity, item, m, Consume(l, m));
  }

  /** Over every run, the events put on the queue are exactly the handled inputs that
      were delivered, in order, every lossless one is among them, every dropped request
      was rejected once in order, and refresh requests were answered without being
      forwarded. While the stream is enabled that is all inputs. Once it is not, the
      event that met the closed consumer, and whatever came after it, is neither
      delivered nor rejected, even if it is a request. */
  lemma NothingLost(capacity: nat, inputs: seq<Input>)
    requires capacity >= 1
    ensures var l := Run(capacity, inputs);
            && l.handled <= Forwardable(inputs) && l.refreshes <= Refreshes(inputs)
            && (l.enabled ==> l.handled == Forwardable(inputs) && l.refreshes == Refreshes(inputs))
            && (!l.enabled ==> !l.open && |l.handled| < |Forwardable(inputs)|)
            && |l.fates| == |l.handled|
            && EventsIn(l.sent) == Those(l.handled, l.fates, Delivered)
            && l.rejected == Requests(Those(l.handled, l.fates, Dropped))
            && (forall i | 0 <= i < |l.handled| && RequiresDelivery(l.handled[i]) :: l.fates[i] == Delivered)
  {
    RunInvariant(capacity, inputs);
    HandledAll(capacity, inputs);
  }

  /** A request that meets a consumer that has left is abandoned. */
  lemma RequestAbandoned(capacity: nat, id: int, takes: nat)
    requires capacity >= 1
    ensures var l := Run(capacity, [Input(Request(id), Move(takes, true), Move(takes, true))]);
            !l.enabled && l.sent == [] && l.rejected == [] && l.handled == []
  {
    var input := Input(Request(id), Move(takes, true), Move(takes, true));
    assert [input][..0] == [] && Run(capacity, []) == EMPTY;
  }

  // ----- the procedure -----

  /** The lines differ in their queue only. */
  predicate OnlyQueue(l: Line, r: Line) {
    r == r.(skipped := l.skipped, enabled := l.enabled, rejected := l.rejected,
            refreshes := l.refreshes, handled := l.handled, fates := l.fates)
  }

  /** Taking is taking one by one. */
  lemma TakeMore(l: Line, n: nat)
    requires n < |l.queue|
    ensures Take(l, n + 1) ==
            Take(l, n).(queue := Take(l, n).queue[1..], taken := Take(l, n).taken + [Take(l, n).queue[0]])
  {
    assert l.queue[..n + 1] == l.queue[..n] + [l.queue[n]];
    assert l.taken + (l.queue[..n] + [l.queue[n]]) == (l.taken + l.queue[..n]) + [l.queue[n]];
  }

  /** The event side of the in-process client's worker. */
  class EventPump {
    const capacity: nat
    var queue: seq<Item>
    var open: bool
    var sent: seq<Item>
    var taken: seq<Item>
    var skippedEvents: nat
    var eventStreamEnabled: bool
    var rejected: seq<Event>
    var refreshes: seq<Event>
    var handled: seq<Event>
    var fates: seq<Fate>

    function View(): Line
      reads this
    {
      Line(queue, open, skippedEvents, eventStreamEnabled, sent, taken, rejected, refreshes, handled, fates)
    }

    constructor (requested: nat)
      ensures View() == EMPTY && capacity == if requested >= 1 then requested else 1
    {
      capacity := if requested >= 1 then requested else 1;
      queue, open, sent, taken := [], true, [], [];
      skippedEvents, eventStreamEnabled := 0, true;
      rejected, refreshes, handled, fates := [], [], [], [];
    }

    /** The consumer receives items, up to `n` or until the queue is empty. */
    method Receive(n: nat)
      modifies this`queue, this`taken
      ensures View() == Take(old(View()), n)
    {
      var i := 0;
      assert Take(View(), 0) == View() by {
        assert taken + [] == taken;
      }
      while i < n && queue != []
        invariant i <= n && i <= |old(queue)|
        invariant View() == Take(old(View()), i)
        decreases n - i
      {
        TakeMore(old(View()), i);
        queue, taken := queue[1..], taken + [queue[0]];
        i := i + 1;
      }
    }

    /** One operation on the queue, on behalf of event `e`, after what the consumer
        does in the meantime. */
    method Offer(e: Event, item: Item, m: Move) returns (sending: Sending)
      requires capacity >= 1
      modifies this`queue, this`open, this`sent, this`taken
      ensures Attempt(View(), sending) == SendFor(e, old(View()), capacity, item, m)
    {
      Receive(m.takes);
      open := open && !m.leaves;
      ghost var c := Consume(old(View()), m);
      assert View() == c;
      SendCases(e, old(View()), capacity, item, m, c);
      if !open {
        return SendClosed;
      }
      if |queue| >= capacity {
        if !RequiresDelivery(e) {
          return SendFull;
        }
        Receive(|queue| - capacity + 1);
        assert View() == Take(c, |c.queue| - capacity + 1);
      }
      ghost var room := View();
      queue, sent := queue + [item], sent + [item];
      assert View() == Enqueue(room, item);
      return SendOk;
    }

    method Skip(e: Event)
      modifies this`skippedEvents, this`rejected
      ensures View() == Drop(old(View()), e)
    {
      skippedEvents := SaturatingIncrement(skippedEvents);
      if IsRequest(e) {
        rejected := rejected + [e];
      }
    }

    method ForwardInProcessEvent(e: Event, first: Move, second: Move) returns (outcome: Outcome)
      requires capacity >= 1
      modifies this
      ensures Forwarded(View(), outcome) == Forward(old(View()), capacity, e, first, second)
    {
      if skippedEvents > 0 {
        var flush := Offer(e, Marker(skippedEvents), first);
        match flush {
          case SendOk => skippedEvents := 0;
          case SendFull =>
            Skip(e);
            return Continue(Dropped);
          case SendClosed => return DisableStream;
        }
      }
      var sending := Offer(e, Passed(e), second);
      match sending {
        case SendOk => return Continue(Delivered);
        case SendFull =>
          Skip(e);
          return Continue(Dropped);
        case SendClosed => return DisableStream;
      }
    }

    method HandleEvent(i: Input)
      requires capacity >= 1
      modifies this
      ensures View() == OnEvent(old(View()), capacity, i)
    {
      if !eventStreamEnabled {
        return;
      }
      if i.event.AuthRefresh? {
        refreshes := refreshes + [i.event];
        return;
      }
      var outcome := ForwardInProcessEvent(i.event, i.first, i.second);
      match outcome {
        case Continue(fate) => handled, fates := handled + [i.event], fates + [fate];
        case DisableStream => eventStreamEnabled := false;
      }
    }
  }

  /** Feeds a new pump a run of events; whatever holds of every run holds of the pump. */
  method Pump(requested: nat, inputs: seq<Input>) returns (pump: EventPump)
    ensures pump.capacity == if requested >= 1 then requested else 1
    ensures pump.View() == Run(pump.capacity, inputs)
  {
    pump := new EventPump(requested);
    assert inputs[..0] == [];
    for i := 0 to |inputs|
      invariant pump.View() == Run(pump.capacity, inputs[..i])
    {
      assert inputs[..i + 1][..i] == inputs[..i];
      pump.HandleEvent(inputs[i]);
    }
    assert inputs[..|inputs|] == inputs;
  }
}

/** What becomes of each forwarded event, said of the events themselves: which kinds are
    lossless, which requests are rejected, and who waits for room. */
module EventFates {
  import opened EventForwarder

  /** Completed turns and items and the four kinds of deltas are lossless. */
  predicate Lossless(e: Event) {
    && e.Notification?
    && (|| e.kind.TurnCompleted? || e.kind.ItemCompleted? || e.kind.AgentMessageDelta?
        || e.kind.PlanDelta? || e.kind.ReasoningSummaryTextDelta? || e.kind.ReasoningTextDelta?)
  }

  lemma LosslessIff(e: Event)
    ensures Lossless(e) <==> RequiresDelivery(e)
  {
  }

  /** How often the event was handled and met the fate. */
  function Fated(handled: seq<Event>, fates: seq<Fate>, e: Event, fate: Fate): nat
    requires |handled| == |fates|
  {
    if handled == [] then 0
    else
      var n := |handled| - 1;
      Fated(handled[..n], fates[..n], e, fate) + if handled[n] == e && fates[n] == fate then 1 else 0
  }

  lemma {:induction false} ThoseCount(handled: seq<Event>, fates: seq<Fate>, e: Event, fate: Fate)
    requires |handled| == |fates|
    ensures multiset(Those(handled, fates, fate))[e] == Fated(handled, fates, e, fate)
  {
    if handled != [] {
      var n := |handled| - 1;
      ThoseCount(handled[..n], fates[..n], e, fate);
    }
  }

  lemma {:induction false} RequestsCount(events: seq<Event>, e: Event)
    ensures multiset(Requests(events))[e] == if e.Request? || e.AuthRefresh? then multiset(events)[e] else 0
  {
    if events != [] {
      var n := |events| - 1;
      RequestsCount(events[..n], e);
      assert events == events[..n] + [events[n]];
    }
  }

  lemma {:induction false} EventsCount(items: seq<Item>, e: Event)
    ensures multiset(EventsIn(items))[e] == multiset(items)[Passed(e)]
  {
    if items != [] {
      var n := |items| - 1;
      EventsCount(items[..n], e);
      assert items == items[..n] + [items[n]];
    }
  }

  lemma {:induction false} NoRefreshForwarded(inputs: seq<Input>)
    ensures forall e | e in Forwardable(inputs) :: !e.AuthRefresh?
  {
    if inputs != [] {
      NoRefreshForwarded(inputs[..|inputs| - 1]);
    }
  }

  lemma {:induction false} ThoseHandled(handled: seq<Event>, fates: seq<Fate>, fate: Fate)
    requires |handled| == |fates|
    ensures forall e | e in Those(handled, fates, fate) :: e in handled
  {
    if handled != [] {
      var n := |handled| - 1;
      ThoseHandled(handled[..n], fates[..n], fate);
      assert handled == handled[..n] + [handled[n]];
    }
  }

  /** Over every run, each event is on the history of the queue as often as it was
      handled and delivered, each request is rejected as often as it was handled and
      dropped, nothing else is rejected, and lossless events are always delivered. */
  lemma EachFate(capacity: nat, inputs: seq<Input>, e: Event)
    requires capacity >= 1
    ensures var l := Run(capacity, inputs);
            && |l.fates| == |l.handled|
            && multiset(l.sent)[Passed(e)] == Fated(l.handled, l.fates, e, Delivered)
            && multiset(l.rejected)[e] == (if e.Request? then Fated(l.handled, l.fates, e, Dropped) else 0)
            && (forall i | 0 <= i < |l.handled| && Lossless(l.handled[i]) :: l.fates[i] == Delivered)
  {
    var l := Run(capacity, inputs);
    NothingLost(capacity, inputs);
    EventsCount(l.sent, e);
    ThoseCount(l.handled, l.fates, e, Delivered);
    ThoseCount(l.handled, l.fates, e, Dropped);
    RequestsCount(Those(l.handled, l.fates, Dropped), e);
    if e.AuthRefresh? {
      NoRefreshForwarded(inputs);
      ThoseHandled(l.handled, l.fates, Dropped);
      assert forall h | h in l.handled :: h in Forwardable(inputs);
      assert e !in Those(l.handled, l.fates, Dropped);
    }
    forall i | 0 <= i < |l.handled| && Lossless(l.handled[i]) ensures l.fates[i] == Delivered {
      LosslessIff(l.handled[i]);
    }
  }

  lemma {:induction false} FatedOnce(handled: seq<Event>, fates: seq<Fate>, i: nat, fate: Fate)
    requires |handled| == |fates| && i < |handled|
    requires forall j | 0 <= j < |handled| && j != i :: handled[j] != handled[i]
    ensures Fated(handled, fates, handled[i], fate) == if fates[i] == fate then 1 else 0
  {
    var n := |handled| - 1;
    if i == n {
      FatedNever(handled[..n], fates[..n], handled[i], fate);
    } else {
      FatedOnce(handled[..n], fates[..n], i, fate);
    }
  }

  lemma {:induction false} FatedNever(handled: seq<Event>, fates: seq<Fate>, e: Event, fate: Fate)
    requires |handled| == |fates| && forall j | 0 <= j < |handled| :: handled[j] != e
    ensures Fated(handled, fates, e, fate) == 0
  {
    if handled != [] {
      var n := |handled| - 1;
      FatedNever(handled[..n], fates[..n], e, fate);
    }
  }

  /** A request that comes once is rejected exactly once if it was dropped, and on the
      history of the queue exactly once if it was delivered. */
  lemma RequestOnce(capacity: nat, inputs: seq<Input>, i: nat)
    requires capacity >= 1 && i < |Run(capacity, inputs).handled|
    requires var handled := Run(capacity, inputs).handled;
             handled[i].Request? && forall j | 0 <= j < |handled| && j != i :: handled[j] != handled[i]
    ensures var l := Run(capacity, inputs);
            && |l.fates| == |l.handled|
            && multiset(l.rejected)[l.handled[i]] == (if l.fates[i] == Dropped then 1 else 0)
            && multiset(l.sent)[Passed(l.handled[i])] == (if l.fates[i] == Delivered then 1 else 0)
  {
    var l := Run(capacity, inputs);
    EachFate(capacity, inputs, l.handled[i]);
    FatedOnce(l.handled, l.fates, i, Dropped);
    FatedOnce(l.handled, l.fates, i, Delivered);
  }

  // ----- who waits -----

  const IDLE := Move(0, false)

  lemma IdleConsumer(l: Line)
    requires l.open
    ensures Consume(l, IDLE) == l
  {
    assert l.queue[0..] == l.queue && l.taken + l.queue[..0] == l.taken;
  }

  /** On a full queue and with an idle consumer, lossless events wait until it has taken
      enough, and everything else is dropped at once; a dropped request is rejected. */
  lemma FullQueue(l: Line, capacity: nat, e: Event)
    requires capacity >= 1 && l.open && |l.queue| == capacity
    ensures var f := Forward(l, capacity, e, IDLE, IDLE);
            if Lossless(e) then
              f.outcome == Continue(Delivered) && |f.line.queue| == capacity && f.line.queue[capacity - 1] == Passed(e)
            else
              && f.outcome == Continue(Dropped)
              && f.line == l.(skipped := f.line.skipped, rejected := f.line.rejected)
              && f.line.skipped == SaturatingIncrement(l.skipped)
              && f.line.rejected == l.rejected + (if e.Request? || e.AuthRefresh? then [e] else [])
  {
    LosslessIff(e);
    IdleConsumer(l);
    SendCases(e, l, capacity, Marker(l.skipped), IDLE, l);
    SendCases(e, l, capacity, Passed(e), IDLE, l);
    if Lossless(e) && l.skipped > 0 {
      var flushed := SendFor(e, l, capacity, Marker(l.skipped), IDLE).line.(skipped := 0);
      IdleConsumer(flushed);
      SendCases(e, flushed, capacity, Passed(e), IDLE, flushed);
    }
  }

  /** With room for a pending marker and the event, both are put on the queue. */
  lemma RoomDelivers(l: Line, capacity: nat, e: Event)
    requires capacity >= 1 && l.open && |l.queue| + (if l.skipped > 0 then 2 else 1) <= capacity
    ensures var f := Forward(l, capacity, e, IDLE, IDLE);
            && f.outcome == Continue(Delivered) && f.line.skipped == 0 && f.line.rejected == l.rejected
            && f.line.queue == l.queue + (if l.skipped > 0 then [Marker(l.skipped)] else []) + [Passed(e)]
  {
    IdleConsumer(l);
    SendCases(e, l, capacity, Marker(l.skipped), IDLE, l);
    SendCases(e, l, capacity, Passed(e), IDLE, l);
    if l.skipped > 0 {
      var flushed := Enqueue(l, Marker(l.skipped)).(skipped := 0);
      IdleConsumer(flushed);
      SendCases(e, flushed, capacity, Passed(e), IDLE, flushed);
    }
  }
}

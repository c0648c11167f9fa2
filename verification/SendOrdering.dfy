/** Ordered sending: numbering of tasks, the two lanes, and the select loop that feeds them. */
module SendOrdering {
  import opened Basics
  import opened Lanes

  /** The numbering of tasks per lane. */
  class MessageSender {
    var textSeq: nat
    var mediaSeq: nat

    constructor ()
      ensures textSeq == 0 && mediaSeq == 0
    {
      textSeq, mediaSeq := 0, 0;
    }

    /** decorate; `keepOrdered` says whether a media task is small enough to stay ordered. */
    method Decorate(isMedia: bool, keepOrdered: bool) returns (order: Option<SendOrder>)
      modifies this
      ensures textSeq == old(textSeq) + (if isMedia then 0 else 1)
      ensures mediaSeq == old(mediaSeq) + (if isMedia && keepOrdered then 1 else 0)
      ensures isMedia && !keepOrdered ==> order == None
      ensures !isMedia ==> order == Some(SendOrder(SEND_ORDER_LANE_TEXT, true, textSeq))
      ensures isMedia && keepOrdered ==> order == Some(SendOrder(SEND_ORDER_LANE_MEDIA, true, mediaSeq))
    {
      var ordered := true;
      var lane := SEND_ORDER_LANE_TEXT;
      if isMedia {
        lane := SEND_ORDER_LANE_MEDIA;
        ordered := keepOrdered;
      }
      order := None;
      if ordered {
        var seqNo;
        if lane == SEND_ORDER_LANE_TEXT {
          textSeq := textSeq + 1;
          seqNo := textSeq;
        } else {
          mediaSeq := mediaSeq + 1;
          seqNo := mediaSeq;
        }
        order := Some(SendOrder(lane, true, seqNo));
      }
    }
  }

  class LaneState {
    const laneType: int
    var expected: int
    var pending: map<int, Message>
    var hasTimer: bool
    var active: bool

    constructor (laneType: int)
      ensures Valid() && View() == NEW_LANE && this.laneType == laneType
    {
      this.laneType := laneType;
      expected, pending, hasTimer, active := 1, map[], false, false;
    }

    function View(): Lane
      reads this
    {
      Lane(expected, pending, active)
    }

    /** A running timer exists; between events the expected number is missing and later ones are buffered. */
    ghost predicate Valid()
      reads this
    {
      && (active ==> hasTimer)
      && (active <==> pending != map[])
      && forall k | k in pending :: k > expected
    }

    method StopTimer()
      requires active ==> hasTimer
      modifies this`active
      ensures !active
    {
      if !hasTimer {
        return;
      }
      active := false;
    }

    method StartTimer()
      modifies this`active, this`hasTimer
      ensures active && (old(active) ==> hasTimer == old(hasTimer)) && (!old(active) ==> hasTimer)
    {
      if active {
        return;
      }
      hasTimer := true;
      active := true;
    }

    predicate HasGap()
      reads this
    {
      |pending| != 0 && expected !in pending
    }
  }

  /** The writer of a connection; `sent` is what it has put on the wire. */
  class Writer {
    const textLane: LaneState
    const mediaLane: LaneState
    var sent: seq<Message>

    constructor ()
      ensures Valid() && sent == [] && fresh(textLane) && fresh(mediaLane)
      ensures textLane.View() == NEW_LANE && mediaLane.View() == NEW_LANE
    {
      textLane := new LaneState(SEND_ORDER_LANE_TEXT);
      mediaLane := new LaneState(SEND_ORDER_LANE_MEDIA);
      sent := [];
    }

    ghost predicate Valid()
      reads this, textLane, mediaLane
    {
      textLane != mediaLane && textLane.Valid() && mediaLane.Valid()
    }

    method DispatchMessage(message: Message)
      modifies this
      ensures sent == old(sent) + [message]
    {
      sent := sent + [message];
    }

    method FlushLane(lane: LaneState) returns (flushed: bool)
      requires lane.active ==> lane.hasTimer
      modifies this, lane
      ensures var r := Flush(old(lane.View())); lane.View() == r.0 && sent == old(sent) + r.1
      ensures lane.active ==> lane.hasTimer
      ensures flushed <==> sent != old(sent) || lane.pending == map[]
    {
      hide Flush, RunOf, RestOf;
      flushed := false;
      while lane.expected in lane.pending
        invariant lane.active ==> lane.hasTimer
        invariant Flush(old(lane.View())).0 == Flush(lane.View()).0
        invariant old(sent) + Flush(old(lane.View())).1 == sent + Flush(lane.View()).1
        invariant flushed <==> sent != old(sent)
        invariant |sent| >= |old(sent)|
        decreases |lane.pending|
      {
        var msg := lane.pending[lane.expected];
        flushed := true;
        FlushStep(lane.View(), false, sent);
        lane.pending := lane.pending - {lane.expected};
        lane.StopTimer();
        DispatchMessage(msg);
        lane.expected := lane.expected + 1;
      }
      FlushEnds(lane.View());
      if lane.HasGap() {
        lane.StartTimer();
      } else {
        lane.StopTimer();
        flushed := true;
      }
    }

    method HandleLaneTimeout(lane: LaneState)
      requires lane.Valid() && lane.active
      modifies this, lane
      ensures lane.Valid()
      ensures var r := TimeOut(old(lane.View())); lane.View() == r.0 && sent == old(sent) + r.1
      ensures |sent| > |old(sent)|
    {
      hide Flush;
      ghost var was := lane.View();
      ghost var first := SkipTo(was);
      lane.StopTimer();
      lane.expected := lane.expected + 1;
      FlushAt(was, lane.View(), first);
      var flushed := FlushLane(lane);
      while !flushed
        invariant lane.active ==> lane.hasTimer
        invariant flushed ==> lane.View() == TimeOut(was).0 && sent == old(sent) + TimeOut(was).1
        invariant !flushed ==> lane.View() == was.(expected := lane.expected) && lane.expected < first && sent == old(sent)
        decreases if flushed then 0 else 1 + first - lane.expected
      {
        lane.expected := lane.expected + 1;
        FlushAt(was, lane.View(), first);
        flushed := FlushLane(lane);
      }
      TimeoutSends(was);
    }

    static function LaneByType(laneType: int, textLane: LaneState, mediaLane: LaneState): Option<LaneState> {
      if laneType == SEND_ORDER_LANE_TEXT then Some(textLane)
      else if laneType == SEND_ORDER_LANE_MEDIA then Some(mediaLane)
      else None
    }

    method ProcessIncomingMessage(message: Message)
      requires Valid()
      modifies this, textLane, mediaLane
      ensures Valid()
      ensures Pump(textLane.View(), mediaLane.View(), sent)
              == PumpStep(Pump(old(textLane.View()), old(mediaLane.View()), old(sent)), Send(message))
      ensures message.order.None? || !message.order.value.ordered || !(1 <= message.order.value.lane <= 2) ==>
                sent == old(sent) + [message] && unchanged(textLane) && unchanged(mediaLane)
      ensures message.order.Some? && message.order.value.ordered && message.order.value.lane == 1 ==>
                (textLane.View(), sent) == (Arrive(old(textLane.View()), message).0,
                                            old(sent) + Arrive(old(textLane.View()), message).1)
                && unchanged(mediaLane)
      ensures message.order.Some? && message.order.value.ordered && message.order.value.lane == 2 ==>
                (mediaLane.View(), sent) == (Arrive(old(mediaLane.View()), message).0,
                                             old(sent) + Arrive(old(mediaLane.View()), message).1)
                && unchanged(textLane)
    {
      if message.order.None? || !message.order.value.ordered {
        DispatchMessage(message);
        return;
      }
      var order := message.order.value;
      var found := LaneByType(order.lane, textLane, mediaLane);
      if found.None? {
        DispatchMessage(message);
        return;
      }
      Accept(found.value, message);
    }

    /** The ordered branch: late messages at once, the expected one with the run behind it, others into the buffer. */
    method Accept(lane: LaneState, message: Message)
      requires lane.Valid() && message.order.Some?
      modifies this, lane
      ensures lane.Valid()
      ensures var r := Arrive(old(lane.View()), message); lane.View() == r.0 && sent == old(sent) + r.1
    {
      var seqNo := message.order.value.seqNo;
      if seqNo < lane.expected {
        DispatchMessage(message);
      } else if seqNo == lane.expected {
        AcceptExpected(lane, message);
      } else {
        AcceptEarly(lane, message);
      }
    }

    method AcceptExpected(lane: LaneState, message: Message)
      requires lane.Valid() && message.order.Some? && message.Number() == lane.expected
      modifies this, lane
      ensures lane.Valid()
      ensures var r := Arrive(old(lane.View()), message); lane.View() == r.0 && sent == old(sent) + r.1
    {
      hide Flush;
      ghost var next := lane.View().(expected := lane.expected + 1);
      FlushForgetsTimer(next, false);
      FlushKeepsLater(next);
      lane.StopTimer();
      DispatchMessage(message);
      lane.expected := lane.expected + 1;
      assert lane.View() == next.(active := false);
      var _ := FlushLane(lane);
    }

    method AcceptEarly(lane: LaneState, message: Message)
      requires lane.Valid() && message.order.Some? && message.Number() > lane.expected
      modifies lane
      ensures lane.Valid()
      ensures Arrive(old(lane.View()), message) == (lane.View(), [])
    {
      var seqNo := message.order.value.seqNo;
      lane.pending := lane.pending[seqNo := message];
      assert seqNo in lane.pending;
      if lane.HasGap() {
        lane.StartTimer();
      }
    }

    /** The select loop, for any schedule of channel receives and timer firings. */
    method WritePump(events: seq<PumpEvent>)
      requires Valid() && textLane.View() == NEW_LANE && mediaLane.View() == NEW_LANE && sent == []
      modifies this, textLane, mediaLane
      ensures Valid()
      ensures Pump(textLane.View(), mediaLane.View(), sent) == RunPump(events)
    {
      for i := 0 to |events|
        invariant Valid()
        invariant Pump(textLane.View(), mediaLane.View(), sent) == RunPump(events[..i])
      {
        assert events[..i + 1][..i] == events[..i];
        match events[i]
        case Send(message) => ProcessIncomingMessage(message);
        case TextTimer => if textLane.active { HandleLaneTimeout(textLane); }
        case MediaTimer => if mediaLane.active { HandleLaneTimeout(mediaLane); }
      }
      assert events[..|events|] == events;
    }
  }

  lemma FlushKeepsLater(l: Lane)
    requires forall k | k in l.pending :: k >= l.expected
    ensures forall k | k in Flush(l).0.pending :: k > Flush(l).0.expected
    ensures Flush(l).0.active <==> Flush(l).0.pending != map[]
  {
  }

  lemma FlushEnds(l: Lane)
    requires l.expected !in l.pending
    ensures Flush(l) == (l.(active := |l.pending| != 0), [])
  {
  }

  /** A flush at a number below the smallest buffered one does nothing; at that one it is the timeout's flush. */
  lemma FlushAt(was: Lane, now: Lane, first: int)
    requires was.pending != map[] && first == SkipTo(was) && now.pending == was.pending && now.expected <= first
    ensures now.expected < first ==> Flush(now) == (was.(expected := now.expected, active := true), [])
    ensures now.expected == first ==> Flush(now) == TimeOut(was) && Flush(now).1 != []
  {
    if now.expected == first {
      FlushForgetsTimer(was.(expected := first), now.active);
    }
  }

  lemma TimeoutSends(l: Lane)
    requires l.pending != map[]
    ensures |TimeOut(l).1| > 0
  {
    FlushAt(l, l.(expected := SkipTo(l)), SkipTo(l));
  }

  // ---- runs of the writer ----

  datatype PumpEvent = Send(message: Message) | TextTimer | MediaTimer

  datatype Pump = Pump(text: Lane, media: Lane, sent: seq<Message>)

  ghost function PumpStep(p: Pump, ev: PumpEvent): Pump {
    match ev
    case Send(m) =>
      if m.On(SEND_ORDER_LANE_TEXT) then
        var r := Arrive(p.text, m);
        p.(text := r.0, sent := p.sent + r.1)
      else if m.On(SEND_ORDER_LANE_MEDIA) then
        var r := Arrive(p.media, m);
        p.(media := r.0, sent := p.sent + r.1)
      else p.(sent := p.sent + [m])
    case TextTimer =>
      if !p.text.active then p
      else
        var r := TimeOut(p.text);
        p.(text := r.0, sent := p.sent + r.1)
    case MediaTimer =>
      if !p.media.active then p
      else
        var r := TimeOut(p.media);
        p.(media := r.0, sent := p.sent + r.1)
  }

  ghost function RunPump(events: seq<PumpEvent>): Pump {
    if events == [] then Pump(NEW_LANE, NEW_LANE, [])
    else PumpStep(RunPump(events[..|events| - 1]), events[|events| - 1])
  }
}

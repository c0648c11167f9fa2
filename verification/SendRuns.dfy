/** Runs of the writer: the two lanes do not disturb each other, and messages leave in the order of their tasks. */
module SendRuns {
  import opened Basics
  import opened Lanes
  import opened SendOrdering

  /** The messages of a list that go through a lane. */
  ghost function OnLane(ms: seq<Message>, lane: int): seq<Message> {
    if ms == [] then []
    else OnLane(ms[..|ms| - 1], lane) + if ms[|ms| - 1].On(lane) then [ms[|ms| - 1]] else []
  }

  /** The messages that go through neither lane. */
  ghost function Unordered(ms: seq<Message>): seq<Message> {
    if ms == [] then []
    else
      var m := ms[|ms| - 1];
      Unordered(ms[..|ms| - 1])
      + if m.On(SEND_ORDER_LANE_TEXT) || m.On(SEND_ORDER_LANE_MEDIA) then [] else [m]
  }

  ghost function Sends(events: seq<PumpEvent>): seq<Message> {
    if events == [] then []
    else Sends(events[..|events| - 1]) + match events[|events| - 1] { case Send(m) => [m] case _ => [] }
  }

  /** The events of one lane. */
  ghost function Project(events: seq<PumpEvent>, lane: int): seq<LaneEvent> {
    if events == [] then []
    else
      Project(events[..|events| - 1], lane)
      + match events[|events| - 1] {
          case Send(m) => if m.On(lane) then [Arrival(m)] else []
          case TextTimer => if lane == SEND_ORDER_LANE_TEXT then [Timeout] else []
          case MediaTimer => if lane == SEND_ORDER_LANE_MEDIA then [Timeout] else []
        }
  }

  ghost predicate AllOn(ms: seq<Message>, lane: int) {
    forall m | m in ms :: m.On(lane)
  }

  lemma {:induction false} OnLaneConcat(a: seq<Message>, b: seq<Message>, lane: int)
    ensures OnLane(a + b, lane) == OnLane(a, lane) + OnLane(b, lane)
  {
    if b == [] {
      assert a + b == a;
    } else {
      OnLaneConcat(a, b[..|b| - 1], lane);
      assert (a + b)[..|a + b| - 1] == a + b[..|b| - 1];
    }
  }

  lemma {:induction false} OnOwnLane(ms: seq<Message>, lane: int, other: int)
    requires AllOn(ms, lane)
    ensures OnLane(ms, other) == if other == lane then ms else []
  {
    if ms != [] {
      assert ms[|ms| - 1] in ms;
      OnOwnLane(ms[..|ms| - 1], lane, other);
    }
  }

  lemma {:induction false} UnorderedConcat(a: seq<Message>, b: seq<Message>)
    ensures Unordered(a + b) == Unordered(a) + Unordered(b)
  {
    if b == [] {
      assert a + b == a;
    } else {
      UnorderedConcat(a, b[..|b| - 1]);
      assert (a + b)[..|a + b| - 1] == a + b[..|b| - 1];
    }
  }

  /** They are the messages without an order, or marked as not ordered, or of another lane. */
  lemma {:induction false} UnorderedMembers(ms: seq<Message>)
    ensures forall m :: m in Unordered(ms)
                        <==> m in ms && !(m.order.Some? && m.order.value.ordered && 1 <= m.order.value.lane <= 2)
  {
    if ms != [] {
      UnorderedMembers(ms[..|ms| - 1]);
      assert ms == ms[..|ms| - 1] + [ms[|ms| - 1]];
    }
  }

  lemma {:induction false} NoneUnordered(ms: seq<Message>, lane: int)
    requires AllOn(ms, lane) && (lane == SEND_ORDER_LANE_TEXT || lane == SEND_ORDER_LANE_MEDIA)
    ensures Unordered(ms) == []
  {
    if ms != [] {
      assert ms[|ms| - 1] in ms;
      NoneUnordered(ms[..|ms| - 1], lane);
    }
  }

  ghost predicate Holds(l: Lane, lane: int) {
    forall k | k in l.pending :: l.pending[k].On(lane)
  }

  lemma {:induction false} FlushOnLane(l: Lane, lane: int)
    requires Holds(l, lane)
    ensures Holds(Flush(l).0, lane) && AllOn(Flush(l).1, lane)
    decreases |l.pending|
  {
    if l.expected in l.pending {
      FlushOnLane(l.(pending := l.pending - {l.expected}, expected := l.expected + 1), lane);
    }
  }

  lemma ArriveOnLane(l: Lane, m: Message, lane: int)
    requires Holds(l, lane) && m.On(lane)
    ensures Holds(Arrive(l, m).0, lane) && AllOn(Arrive(l, m).1, lane)
  {
    FlushOnLane(l.(expected := l.expected + 1), lane);
  }

  ghost function LaneOf(p: Pump, lane: int): Lane {
    if lane == SEND_ORDER_LANE_TEXT then p.text else p.media
  }

  /** The lane an event belongs to, 0 for a message that is not ordered. */
  ghost function Owner(ev: PumpEvent): int {
    match ev
    case Send(m) =>
      if m.On(SEND_ORDER_LANE_TEXT) then SEND_ORDER_LANE_TEXT
      else if m.On(SEND_ORDER_LANE_MEDIA) then SEND_ORDER_LANE_MEDIA else 0
    case TextTimer => SEND_ORDER_LANE_TEXT
    case MediaTimer => SEND_ORDER_LANE_MEDIA
  }

  ghost function LaneEventOf(ev: PumpEvent): LaneEvent {
    match ev
    case Send(m) => Arrival(m)
    case _ => Timeout
  }

  lemma ProjectStep(events: seq<PumpEvent>, lane: int)
    requires events != [] && (lane == SEND_ORDER_LANE_TEXT || lane == SEND_ORDER_LANE_MEDIA)
    ensures var before, ev := events[..|events| - 1], events[|events| - 1];
            RunLane(Project(events, lane))
            == if Owner(ev) == lane then StepLane(RunLane(Project(before, lane)), LaneEventOf(ev))
               else RunLane(Project(before, lane))
  {
    var before, ev := events[..|events| - 1], events[|events| - 1];
    var done := Project(before, lane);
    if Owner(ev) == lane {
      assert (done + [LaneEventOf(ev)])[..|done|] == done;
    } else {
      assert done + [] == done;
    }
  }

  /** What a step of the writer puts on the wire belongs to the lane of its event. */
  lemma StepOutput(p: Pump, ev: PumpEvent, lane: int, h: History) returns (out: seq<Message>)
    requires lane == SEND_ORDER_LANE_TEXT || lane == SEND_ORDER_LANE_MEDIA
    requires Holds(p.text, SEND_ORDER_LANE_TEXT) && Holds(p.media, SEND_ORDER_LANE_MEDIA) && h.lane == LaneOf(p, lane)
    ensures PumpStep(p, ev).sent == p.sent + out
    ensures Owner(ev) == lane ==>
              var h' := StepLane(h, LaneEventOf(ev));
              LaneOf(PumpStep(p, ev), lane) == h'.lane && h'.sent == h.sent + out && Holds(h'.lane, lane)
    ensures Owner(ev) != lane ==> LaneOf(PumpStep(p, ev), lane) == h.lane
    ensures if Owner(ev) == 0 then ev.Send? && out == [ev.message] else AllOn(out, Owner(ev))
  {
    hide Flush;
    var l := if Owner(ev) == SEND_ORDER_LANE_TEXT then p.text else p.media;
    match ev {
      case Send(m) =>
        if Owner(ev) == 0 {
          out := [m];
        } else {
          ArriveOnLane(l, m, Owner(ev));
          out := Arrive(l, m).1;
        }
      case _ =>
        FlushOnLane(l.(expected := SkipTo(l)), Owner(ev));
        out := if l.active then TimeOut(l).1 else [];
    }
  }

  /**
   * A run of the writer is a run of each lane on its own events: a step of one lane leaves the other alone. Messages that
   * are not ordered go out in the order they come.
   */
  lemma {:induction false} LanesAreIndependent(events: seq<PumpEvent>, lane: int)
    requires lane == SEND_ORDER_LANE_TEXT || lane == SEND_ORDER_LANE_MEDIA
    ensures var p, h := RunPump(events), RunLane(Project(events, lane));
            && LaneOf(p, lane) == h.lane && OnLane(p.sent, lane) == h.sent
            && Holds(p.text, SEND_ORDER_LANE_TEXT) && Holds(p.media, SEND_ORDER_LANE_MEDIA)
    ensures Unordered(RunPump(events).sent) == Unordered(Sends(events))
  {
    if events != [] {
      hide Arrive, TimeOut, RunLane, StepLane, PumpStep;
      var before, ev := events[..|events| - 1], events[|events| - 1];
      var other := if lane == SEND_ORDER_LANE_TEXT then SEND_ORDER_LANE_MEDIA else SEND_ORDER_LANE_TEXT;
      LanesAreIndependent(before, lane);
      ProjectStep(events, lane);
      var p := RunPump(before);
      var out := StepOutput(p, ev, lane, RunLane(Project(before, lane)));
      var _ := StepOutput(p, ev, other, History(LaneOf(p, other), [], {}));
      OutputProjects(p.sent, out, ev, lane);
      UnorderedConcat(Sends(before), if ev.Send? then [ev.message] else []);
    }
  }

  lemma OutputProjects(sent: seq<Message>, out: seq<Message>, ev: PumpEvent, lane: int)
    requires if Owner(ev) == 0 then ev.Send? && out == [ev.message] else AllOn(out, Owner(ev))
    requires lane == SEND_ORDER_LANE_TEXT || lane == SEND_ORDER_LANE_MEDIA
    ensures OnLane(sent + out, lane) == OnLane(sent, lane) + if Owner(ev) == lane then out else []
    ensures Unordered(sent + out) == Unordered(sent) + Unordered(if ev.Send? then [ev.message] else [])
  {
    OnLaneConcat(sent, out, lane);
    UnorderedConcat(sent, out);
    if Owner(ev) != 0 {
      OnOwnLane(out, Owner(ev), lane);
      NoneUnordered(out, Owner(ev));
    }
  }

  // ---- from submission to the wire ----

  datatype Kind = Text | Media(keepOrdered: bool)

  ghost function CountOn(kinds: seq<Kind>, lane: int): nat {
    if kinds == [] then 0
    else CountOn(kinds[..|kinds| - 1], lane) + if LaneOfKind(kinds[|kinds| - 1]) == lane then 1 else 0
  }

  ghost function LaneOfKind(kind: Kind): int {
    match kind
    case Text => SEND_ORDER_LANE_TEXT
    case Media(keepOrdered) => if keepOrdered then SEND_ORDER_LANE_MEDIA else 0
  }

  /** The messages of a list of submitted tasks; the body stands for the task. */
  ghost function Decorated(kinds: seq<Kind>): seq<Message> {
    if kinds == [] then []
    else
      var init, lane := kinds[..|kinds| - 1], LaneOfKind(kinds[|kinds| - 1]);
      var order := if lane == 0 then None else Some(SendOrder(lane, true, CountOn(init, lane) + 1));
      Decorated(init) + [Message(order, |init|)]
  }

  method DecorateAll(kinds: seq<Kind>) returns (messages: seq<Message>)
    ensures messages == Decorated(kinds)
  {
    var sender := new MessageSender();
    messages := [];
    for i := 0 to |kinds|
      invariant messages == Decorated(kinds[..i])
      invariant sender.textSeq == CountOn(kinds[..i], SEND_ORDER_LANE_TEXT)
      invariant sender.mediaSeq == CountOn(kinds[..i], SEND_ORDER_LANE_MEDIA)
    {
      assert kinds[..i + 1][..i] == kinds[..i];
      var order := sender.Decorate(kinds[i].Media?, kinds[i].Media? && kinds[i].keepOrdered);
      messages := messages + [Message(order, i)];
    }
    assert kinds[..|kinds|] == kinds;
  }

  lemma {:induction false} DecoratedNumbers(kinds: seq<Kind>, lane: int)
    requires lane == SEND_ORDER_LANE_TEXT || lane == SEND_ORDER_LANE_MEDIA
    ensures var mine := OnLane(Decorated(kinds), lane);
            |mine| == CountOn(kinds, lane) && forall i | 0 <= i < |mine| :: mine[i].Number() == i + 1
  {
    if kinds != [] {
      DecoratedNumbers(kinds[..|kinds| - 1], lane);
    }
  }

  lemma {:induction false} OnLaneMembers(ms: seq<Message>, lane: int)
    ensures forall m :: m in OnLane(ms, lane) <==> m in ms && m.On(lane)
  {
    if ms != [] {
      OnLaneMembers(ms[..|ms| - 1], lane);
      assert ms == ms[..|ms| - 1] + [ms[|ms| - 1]];
    }
  }

  /** Any order of arrival: the same messages, each once. */
  ghost predicate Rearranged(arrivals: seq<Message>, tasks: seq<Message>) {
    Distinct(arrivals) && forall m :: m in arrivals <==> m in tasks
  }

  lemma {:induction false} OnLaneDistinct(ms: seq<Message>, lane: int)
    requires Distinct(ms)
    ensures Distinct(OnLane(ms, lane))
  {
    if ms != [] {
      var init, last := ms[..|ms| - 1], ms[|ms| - 1];
      OnLaneDistinct(init, lane);
      OnLaneMembers(init, lane);
      assert forall m | m in init :: m != last;
      assert forall i | 0 <= i < |OnLane(init, lane)| :: OnLane(init, lane)[i] in OnLane(init, lane);
    }
  }

  lemma {:induction false} ArrivedOnLane(events: seq<PumpEvent>, lane: int)
    requires lane == SEND_ORDER_LANE_TEXT || lane == SEND_ORDER_LANE_MEDIA
    requires forall i | 0 <= i < |events| :: events[i].Send?
    ensures Arrived(Project(events, lane)) == OnLane(Sends(events), lane)
    ensures NoTimeout(Project(events, lane))
  {
    if events != [] {
      var before, m := events[..|events| - 1], events[|events| - 1].message;
      ArrivedOnLane(before, lane);
      var done := Project(before, lane);
      assert (done + [Arrival(m)])[..|done|] == done;
      assert (Sends(before) + [m])[..|Sends(before)|] == Sends(before);
      assert done + [] == done && OnLane(Sends(before), lane) + [] == OnLane(Sends(before), lane);
    }
  }

  /**
   * Whatever order the workers hand the tasks to the writer in, and as long as no timer fires, each lane's messages leave
   * in the order their tasks were submitted, none missing and none twice.
   */
  lemma SubmissionOrderKept(kinds: seq<Kind>, events: seq<PumpEvent>, lane: int)
    requires lane == SEND_ORDER_LANE_TEXT || lane == SEND_ORDER_LANE_MEDIA
    requires forall i | 0 <= i < |events| :: events[i].Send?
    requires Rearranged(Sends(events), Decorated(kinds))
    ensures OnLane(RunPump(events).sent, lane) == OnLane(Decorated(kinds), lane)
  {
    hide OnLane, Decorated, Project, RunLane, RunPump, Arrived, Sends, CountOn, Numbered, Distinct;
    var evs, tasks, n := Project(events, lane), OnLane(Decorated(kinds), lane), CountOn(kinds, lane);
    LanesAreIndependent(events, lane);
    ArrivedOnLane(events, lane);
    OnLaneDistinct(Sends(events), lane);
    OnLaneMembers(Sends(events), lane);
    OnLaneMembers(Decorated(kinds), lane);
    DecoratedNumbers(kinds, lane);
    RearrangedNumbered(Arrived(evs), tasks);
    AllTasksInOrder(evs, n);
    NoTimeoutKeepsOrder(evs);
    var sent := RunLane(evs).sent;
    forall i | 0 <= i < n
      ensures sent[i] == tasks[i]
    {
      assert sent[i] in tasks;
      var k :| 0 <= k < n && tasks[k] == sent[i];
    }
  }

  lemma RearrangedNumbered(arrived: seq<Message>, tasks: seq<Message>)
    requires Rearranged(arrived, tasks)
    requires forall i | 0 <= i < |tasks| :: tasks[i].Number() == i + 1
    ensures Numbered(arrived) && forall m | m in arrived :: m.Number() <= |tasks|
    ensures forall k | 1 <= k <= |tasks| :: SentNumber(arrived, k)
  {
    forall m | m in arrived
      ensures 1 <= m.Number() <= |tasks| && tasks[m.Number() - 1] == m
    {
      var i :| 0 <= i < |tasks| && tasks[i] == m;
    }
    forall i, j | 0 <= i < j < |arrived|
      ensures arrived[i].Number() != arrived[j].Number()
    {
      assert arrived[i] in arrived && arrived[j] in arrived;
    }
    forall k | 1 <= k <= |tasks|
      ensures SentNumber(arrived, k)
    {
      assert tasks[k - 1] in tasks && tasks[k - 1] in arrived;
    }
  }
}

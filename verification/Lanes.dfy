/** The reorder buffer of one send lane: arrivals, the skip on timeout, and what every run of them dispatches. */
module Lanes {
  import opened Basics

  /** The order information of a send task; lanes are numbered as in SendOrderLane. */
  datatype SendOrder = SendOrder(lane: int, ordered: bool, seqNo: int)

  const SEND_ORDER_LANE_TEXT := 1
  const SEND_ORDER_LANE_MEDIA := 2

  datatype Message = Message(order: Option<SendOrder>, body: int) {
    /** Whether the message goes through the given lane's buffer. */
    predicate On(lane: int) {
      order.Some? && order.value.ordered && order.value.lane == lane
    }

    function Number(): int {
      if order.Some? then order.value.seqNo else 0
    }
  }

  /** The value of a lane: next number to dispatch, buffered messages, whether the timer runs. */
  datatype Lane = Lane(expected: int, pending: map<int, Message>, active: bool)

  const NEW_LANE := Lane(1, map[], false)

  ghost function Any<T>(s: set<T>): (x: T)
    requires s != {}
    ensures x in s
  {
    var x :| x in s;
    x
  }

  ghost function MinKey(keys: set<int>): (k: int)
    requires keys != {}
    ensures k in keys && forall j | j in keys :: k <= j
  {
    var x := Any(keys);
    if keys == {x} then x
    else
      assert keys - {x} != {} by {
        assert keys == {x} + (keys - {x});
      }
      var m := MinKey(keys - {x});
      assert forall j | j in keys :: j == x || j in keys - {x};
      if x < m then x else m
  }

  /** `run` is what `pending` holds under the numbers `e .. end-1`. */
  ghost predicate RunOf(pending: map<int, Message>, e: int, end: int, run: seq<Message>) {
    |run| == end - e && forall k | e <= k < end :: k in pending && run[k - e] == pending[k]
  }

  lemma RunGrows(pending: map<int, Message>, e: int, end: int, run: seq<Message>)
    requires e in pending && RunOf(pending - {e}, e + 1, end, run)
    ensures RunOf(pending, e, end, [pending[e]] + run)
  {
    var longer := [pending[e]] + run;
    forall k | e <= k < end
      ensures k in pending && longer[k - e] == pending[k]
    {
      if k > e {
        assert k in pending - {e} && run[k - (e + 1)] == (pending - {e})[k];
      }
    }
  }

  ghost function RestOf(pending: map<int, Message>, e: int, end: int): map<int, Message> {
    map k | k in pending && !(e <= k < end) :: pending[k]
  }

  lemma RestShrinks(pending: map<int, Message>, e: int, end: int)
    ensures e < end ==> RestOf(pending - {e}, e + 1, end) == RestOf(pending, e, end)
    ensures e !in pending ==> RestOf(pending, e, e) == pending
  {
  }

  /** Dispatches the run of buffered messages that starts at the expected number. */
  ghost function Flush(l: Lane): (r: (Lane, seq<Message>))
    ensures RunOf(l.pending, l.expected, r.0.expected, r.1)
    ensures r.0.expected !in l.pending
    ensures r.0.pending == RestOf(l.pending, l.expected, r.0.expected)
    ensures r.0.active <==> r.0.pending != map[]
    decreases |l.pending|
  {
    if l.expected in l.pending then
      var rest := Flush(l.(pending := l.pending - {l.expected}, expected := l.expected + 1));
      RunGrows(l.pending, l.expected, rest.0.expected, rest.1);
      RestShrinks(l.pending, l.expected, rest.0.expected);
      (rest.0, [l.pending[l.expected]] + rest.1)
    else (l.(active := l.pending != map[]), [])
  }

  ghost function Arrive(l: Lane, m: Message): (Lane, seq<Message>) {
    if m.Number() < l.expected then (l, [m])
    else if m.Number() == l.expected then
      var f := Flush(l.(expected := l.expected + 1));
      (f.0, [m] + f.1)
    else (l.(pending := l.pending[m.Number() := m], active := true), [])
  }

  /** Where a timeout goes on: past the expected number, at the smallest buffered number if there is one. */
  ghost function SkipTo(l: Lane): int {
    if l.pending == map[] then l.expected + 1 else MinKey(l.pending.Keys)
  }

  ghost function TimeOut(l: Lane): (Lane, seq<Message>) {
    Flush(l.(expected := SkipTo(l)))
  }

  // ---- runs of one lane ----

  /** A timeout counts only while the timer runs. */
  datatype LaneEvent = Arrival(m: Message) | Timeout

  /** What a run of events has done: the lane, everything dispatched in order, and the numbers timeouts gave up. */
  datatype History = History(lane: Lane, sent: seq<Message>, skipped: set<int>)

  ghost function Range(a: int, b: int): (r: set<int>)
    ensures forall k :: k in r <==> a <= k < b
    decreases b - a
  {
    if b <= a then {} else Range(a, b - 1) + {b - 1}
  }

  ghost function StepLane(h: History, ev: LaneEvent): History {
    match ev
    case Arrival(m) =>
      var r := Arrive(h.lane, m);
      History(r.0, h.sent + r.1, h.skipped)
    case Timeout =>
      if !h.lane.active then h
      else
        var r := TimeOut(h.lane);
        History(r.0, h.sent + r.1, h.skipped + Range(h.lane.expected, SkipTo(h.lane)))
  }

  ghost function RunLane(evs: seq<LaneEvent>): History {
    if evs == [] then History(NEW_LANE, [], {})
    else StepLane(RunLane(evs[..|evs| - 1]), evs[|evs| - 1])
  }

  ghost function Arrived(evs: seq<LaneEvent>): seq<Message> {
    if evs == [] then []
    else
      match evs[|evs| - 1]
      case Arrival(m) => Arrived(evs[..|evs| - 1]) + [m]
      case Timeout => Arrived(evs[..|evs| - 1])
  }

  /** Messages numbered from 1 on, no number twice. */
  ghost predicate Numbered(ms: seq<Message>) {
    && (forall m | m in ms :: m.Number() >= 1)
    && forall i, j | 0 <= i < j < |ms| :: ms[i].Number() != ms[j].Number()
  }

  ghost predicate SentNumber(sent: seq<Message>, k: int) {
    exists m :: m in sent && m.Number() == k
  }

  /** The lane's account: nothing lost, nothing twice, and out of order only after a skip. */
  ghost predicate Loaded(l: Lane, sent: seq<Message>, skipped: set<int>, arrived: seq<Message>) {
    && l.expected >= 1
    && (forall k | k in l.pending :: k >= l.expected && l.pending[k].Number() == k)
    && SentInOrder(sent, l.expected, skipped)
    && AllAccounted(l.pending, sent, arrived)
    && (forall k | 1 <= k < l.expected :: SentNumber(sent, k) || k in skipped)
    && (forall k | k in skipped :: k < l.expected)
  }

  ghost predicate SentInOrder(sent: seq<Message>, expected: int, skipped: set<int>) {
    && Numbered(sent) && (forall m | m in sent :: m.Number() < expected)
    && (forall i, j | 0 <= i < j < |sent| :: sent[i].Number() < sent[j].Number() || sent[j].Number() in skipped)
  }

  ghost predicate AllAccounted(pending: map<int, Message>, sent: seq<Message>, arrived: seq<Message>) {
    forall m :: m in arrived <==> m in sent || (m.Number() in pending && pending[m.Number()] == m)
  }

  /** Between events the expected number is missing, and the timer runs exactly while messages are buffered. */
  ghost predicate Kept(l: Lane, sent: seq<Message>, skipped: set<int>, arrived: seq<Message>) {
    && Loaded(l, sent, skipped, arrived)
    && l.expected !in l.pending
    && (l.active <==> l.pending != map[])
  }

  lemma SentInOrderGrows(sent: seq<Message>, expected: int, skipped: set<int>, m: Message)
    requires SentInOrder(sent, expected, skipped) && m.Number() == expected >= 1
    ensures SentInOrder(sent + [m], expected + 1, skipped)
  {
    assert forall i | 0 <= i < |sent| :: sent[i] in sent;
  }

  lemma SentNumberGrows(sent: seq<Message>, m: Message)
    ensures forall k :: SentNumber(sent + [m], k) <==> SentNumber(sent, k) || k == m.Number()
  {
    assert m in sent + [m];
    forall k | SentNumber(sent, k)
      ensures SentNumber(sent + [m], k)
    {
      var x :| x in sent && x.Number() == k;
      assert x in sent + [m];
    }
  }

  lemma AccountedMoves(pending: map<int, Message>, sent: seq<Message>, arrived: seq<Message>, n: int)
    requires AllAccounted(pending, sent, arrived) && n in pending && pending[n].Number() == n
    ensures AllAccounted(pending - {n}, sent + [pending[n]], arrived)
  {
  }

  lemma SendNext(l: Lane, sent: seq<Message>, skipped: set<int>, arrived: seq<Message>)
    requires Loaded(l, sent, skipped, arrived) && l.expected in l.pending
    ensures Loaded(l.(pending := l.pending - {l.expected}, expected := l.expected + 1),
                   sent + [l.pending[l.expected]], skipped, arrived)
  {
    var m := l.pending[l.expected];
    SentInOrderGrows(sent, l.expected, skipped, m);
    SentNumberGrows(sent, m);
    AccountedMoves(l.pending, sent, arrived, l.expected);
    hide SentInOrder, SentNumber, AllAccounted;
  }

  lemma {:induction false} FlushKeeps(l: Lane, sent: seq<Message>, skipped: set<int>, arrived: seq<Message>)
    requires Loaded(l, sent, skipped, arrived)
    ensures Kept(Flush(l).0, sent + Flush(l).1, skipped, arrived)
    decreases |l.pending|
  {
    hide Loaded, Kept;
    if l.expected in l.pending {
      var next := l.(pending := l.pending - {l.expected}, expected := l.expected + 1);
      SendNext(l, sent, skipped, arrived);
      FlushKeeps(next, sent + [l.pending[l.expected]], skipped, arrived);
      assert sent + Flush(l).1 == sent + [l.pending[l.expected]] + Flush(next).1;
    } else {
      assert sent + Flush(l).1 == sent;
      NothingToFlush(l, sent, skipped, arrived);
    }
  }

  lemma NothingToFlush(l: Lane, sent: seq<Message>, skipped: set<int>, arrived: seq<Message>)
    requires Loaded(l, sent, skipped, arrived) && l.expected !in l.pending
    ensures Kept(l.(active := l.pending != map[]), sent, skipped, arrived)
  {
  }

  /** A message whose number has been passed goes out at once; its number had been given up. */
  lemma LateArrivalKeeps(l: Lane, sent: seq<Message>, skipped: set<int>, arrived: seq<Message>, m: Message)
    requires Kept(l, sent, skipped, arrived) && 1 <= m.Number() < l.expected
    requires forall x | x in arrived :: x.Number() != m.Number()
    ensures Kept(l, sent + [m], skipped, arrived + [m])
  {
    assert m in arrived + [m] && m in sent + [m];
    assert !SentNumber(sent, m.Number());
    forall k | 1 <= k < l.expected
      ensures SentNumber(sent + [m], k) || k in skipped
    {
      if k !in skipped {
        var x :| x in sent && x.Number() == k;
        assert x in sent + [m];
      }
    }
  }

  lemma BufferedKeeps(l: Lane, sent: seq<Message>, skipped: set<int>, arrived: seq<Message>, m: Message)
    requires Loaded(l, sent, skipped, arrived) && l.expected <= m.Number()
    requires forall x | x in arrived :: x.Number() != m.Number()
    ensures m.Number() !in l.pending
    ensures Loaded(l.(pending := l.pending[m.Number() := m], active := true), sent, skipped, arrived + [m])
  {
    assert forall k | k in l.pending :: l.pending[k] in arrived && l.pending[k].Number() == k;
    assert m in arrived + [m];
  }

  lemma ArrivalKeeps(l: Lane, sent: seq<Message>, skipped: set<int>, arrived: seq<Message>, m: Message)
    requires Kept(l, sent, skipped, arrived) && m.Number() >= 1
    requires forall x | x in arrived :: x.Number() != m.Number()
    ensures Kept(Arrive(l, m).0, sent + Arrive(l, m).1, skipped, arrived + [m])
  {
    hide Loaded;
    var n := m.Number();
    if n < l.expected {
      LateArrivalKeeps(l, sent, skipped, arrived, m);
    } else {
      BufferedKeeps(l, sent, skipped, arrived, m);
      var loaded := l.(pending := l.pending[n := m], active := true);
      if n == l.expected {
        assert loaded.pending - {n} == l.pending;
        FlushKeeps(loaded, sent, skipped, arrived + [m]);
        FlushForgetsTimer(l.(expected := n + 1), true);
      } else {
        assert sent + [] == sent;
        assert n in loaded.pending;
      }
    }
  }

  /** What a flush does not depend on. */
  lemma {:induction false} FlushForgetsTimer(l: Lane, active: bool)
    ensures Flush(l.(active := active)) == Flush(l)
    decreases |l.pending|
  {
    if l.expected in l.pending {
      FlushForgetsTimer(l.(pending := l.pending - {l.expected}, expected := l.expected + 1), active);
    }
  }

  lemma FlushStep(l: Lane, active: bool, sent: seq<Message>)
    requires l.expected in l.pending
    ensures var next := Lane(l.expected + 1, l.pending - {l.expected}, active);
            Flush(l).0 == Flush(next).0 && sent + Flush(l).1 == sent + [l.pending[l.expected]] + Flush(next).1
  {
    var next := Lane(l.expected + 1, l.pending - {l.expected}, l.active);
    FlushForgetsTimer(next, active);
    assert Flush(l).1 == [l.pending[l.expected]] + Flush(next).1;
  }

  lemma TimeoutKeeps(l: Lane, sent: seq<Message>, skipped: set<int>, arrived: seq<Message>)
    requires Kept(l, sent, skipped, arrived)
    ensures Kept(TimeOut(l).0, sent + TimeOut(l).1, skipped + Range(l.expected, SkipTo(l)), arrived)
  {
    var skipped' := skipped + Range(l.expected, SkipTo(l));
    FlushKeeps(l.(expected := SkipTo(l)), sent, skipped', arrived);
  }

  lemma NumberedBefore(arrived: seq<Message>, m: Message)
    requires Numbered(arrived + [m])
    ensures Numbered(arrived) && m.Number() >= 1 && forall x | x in arrived :: x.Number() != m.Number()
  {
    assert (arrived + [m])[|arrived|] == m && m in arrived + [m];
    assert forall i | 0 <= i < |arrived| :: (arrived + [m])[i] == arrived[i];
    assert forall x | x in arrived :: x in arrived + [m];
  }

  /** In every run, whatever the order of arrivals and timeouts, the account of the lane is kept. */
  lemma {:induction false} EveryRunKept(evs: seq<LaneEvent>)
    requires Numbered(Arrived(evs))
    ensures var h := RunLane(evs); Kept(h.lane, h.sent, h.skipped, Arrived(evs))
  {
    if evs != [] {
      var before := evs[..|evs| - 1];
      var h := RunLane(before);
      match evs[|evs| - 1]
      case Arrival(m) =>
        NumberedBefore(Arrived(before), m);
        EveryRunKept(before);
        ArrivalKeeps(h.lane, h.sent, h.skipped, Arrived(before), m);
      case Timeout =>
        EveryRunKept(before);
        if h.lane.active { TimeoutKeeps(h.lane, h.sent, h.skipped, Arrived(before)); }
    }
  }

  ghost predicate NoTimeout(evs: seq<LaneEvent>) {
    forall i | 0 <= i < |evs| :: evs[i].Arrival?
  }

  lemma {:induction false} NothingSkipped(evs: seq<LaneEvent>)
    requires NoTimeout(evs)
    ensures RunLane(evs).skipped == {}
  {
    if evs != [] { NothingSkipped(evs[..|evs| - 1]); }
  }

  lemma {:induction false} AscendingFromOne(sent: seq<Message>, i: nat)
    requires forall i, j | 0 <= i < j < |sent| :: sent[i].Number() < sent[j].Number()
    requires forall m | m in sent :: 1 <= m.Number()
    requires i < |sent|
    ensures sent[i].Number() >= i + 1
  {
    if i > 0 { AscendingFromOne(sent, i - 1); }
  }

  /** An ascending list from 1 on that contains all of `1 .. n` starts with exactly those. */
  lemma {:induction false} AscendingIsCount(sent: seq<Message>, n: nat)
    requires forall i, j | 0 <= i < j < |sent| :: sent[i].Number() < sent[j].Number()
    requires forall m | m in sent :: 1 <= m.Number()
    requires forall k | 1 <= k <= n :: SentNumber(sent, k)
    ensures |sent| >= n && forall i | 0 <= i < n :: sent[i].Number() == i + 1
  {
    if n > 0 {
      AscendingIsCount(sent, n - 1);
      assert SentNumber(sent, n);
      var j :| 0 <= j < |sent| && sent[j].Number() == n;
      assert j >= n - 1;
      assert sent[n - 1] in sent && sent[n - 1].Number() <= sent[j].Number();
      assert n >= 2 ==> sent[n - 2].Number() < sent[n - 1].Number();
    }
  }

  /**
   * Without a timeout, and for any order of arrival, the messages dispatched are those numbered 1, 2, .., expected - 1,
   * in that order, and everything else that arrived is buffered.
   */
  lemma NoTimeoutKeepsOrder(evs: seq<LaneEvent>)
    requires Numbered(Arrived(evs)) && NoTimeout(evs)
    ensures var h := RunLane(evs);
            && |h.sent| == h.lane.expected - 1
            && (forall i | 0 <= i < |h.sent| :: h.sent[i].Number() == i + 1 && h.sent[i] in Arrived(evs))
            && (forall m | m in Arrived(evs) && m !in h.sent :: m.Number() in h.lane.pending)
  {
    EveryRunKept(evs);
    NothingSkipped(evs);
    var h := RunLane(evs);
    AscendingIsCount(h.sent, h.lane.expected - 1);
    if h.sent != [] {
      AscendingFromOne(h.sent, |h.sent| - 1);
      assert h.sent[|h.sent| - 1] in h.sent;
    }
  }

  lemma AllArrivedAllSent(l: Lane, sent: seq<Message>, arrived: seq<Message>, n: nat)
    requires Kept(l, sent, {}, arrived)
    requires (forall m | m in arrived :: m.Number() <= n) && forall k | 1 <= k <= n :: SentNumber(arrived, k)
    ensures l.expected > n && l.pending == map[]
  {
    assert forall k | k in l.pending :: l.pending[k] in arrived && k == l.pending[k].Number() <= n;
    assert !SentNumber(sent, l.expected);
    assert SentNumber(arrived, l.expected) ==> SentNumber(sent, l.expected) || l.expected in l.pending;
    assert l.expected > n;
    assert l.pending.Keys == {};
  }

  /** If all of the tasks `1 .. n` arrive, in any order and without a timeout, all are dispatched, in task order. */
  lemma AllTasksInOrder(evs: seq<LaneEvent>, n: nat)
    requires Numbered(Arrived(evs)) && NoTimeout(evs)
    requires (forall m | m in Arrived(evs) :: m.Number() <= n) && forall k | 1 <= k <= n :: SentNumber(Arrived(evs), k)
    ensures var h := RunLane(evs);
            && |h.sent| == n && (forall i | 0 <= i < n :: h.sent[i].Number() == i + 1)
            && h.lane.expected == n + 1 && h.lane.pending == map[] && !h.lane.active
  {
    EveryRunKept(evs);
    NoTimeoutKeepsOrder(evs);
    NothingSkipped(evs);
    var h := RunLane(evs);
    AllArrivedAllSent(h.lane, h.sent, Arrived(evs), n);
    assert h.sent != [] ==> h.sent[|h.sent| - 1] in Arrived(evs);
  }

  /**
   * Exactly when a buffered message survives an arrival, as dispatched or still buffered: unless the arrival
   * carries its number and is another message. Numbers given out once make that impossible.
   */
  lemma BufferedSurvivesIff(l: Lane, m: Message, k: int)
    requires k in l.pending && forall j | j in l.pending :: j > l.expected
    ensures var r := Arrive(l, m);
            (l.pending[k] in r.1 || (k in r.0.pending && r.0.pending[k] == l.pending[k]))
            <==> k != m.Number() || l.pending[k] == m
  {
    if m.Number() == l.expected {
      var f := Flush(l.(expected := l.expected + 1));
      if k < f.0.expected {
        assert f.1[k - (l.expected + 1)] == l.pending[k];
        assert l.pending[k] in [m] + f.1;
      }
    }
  }
}

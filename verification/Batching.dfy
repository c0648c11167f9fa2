/**
 * The adaptive batcher of pushed messages: a merge buffer, a sliding count of arrivals that measures the load, and a flush
 * deadline that depends on the load. Times are nanoseconds.
 */
module Batching {
  import opened Basics

  const MAX_BATCH_MESSAGES := 400
  const MILLISECOND := 1_000_000
  const MIN_AGGREGATION_DELAY := 50 * MILLISECOND
  const MAX_AGGREGATION_DELAY := 1000 * MILLISECOND
  const LOW_LOAD_WINDOW := 10_000 * MILLISECOND
  const LOW_LOAD_MESSAGE_LIMIT := 20
  const HIGH_LOAD_MESSAGE_LIMIT := 200

  /** The messages of one conversation in a push, by identity, and the two flags that come with them. */
  datatype PullMsgs = PullMsgs(msgs: seq<int>, isEnd: bool, endSeq: int)

  datatype PushMessages = PushMessages(msgs: map<string, PullMsgs>, notificationMsgs: map<string, PullMsgs>) {
    predicate Empty() {
      |msgs| == 0 && |notificationMsgs| == 0
    }

    function Part(notification: bool): map<string, PullMsgs> {
      if notification then notificationMsgs else msgs
    }
  }

  const NO_MESSAGES := PushMessages(map[], map[])

  /** One call of the handler. */
  datatype Delivery = Delivery(contexts: seq<int>, messages: PushMessages)

  datatype Arrival = Arrival(ts: int, count: int)

  // What a push holds, line by line: a line is one conversation of one of the two parts.

  function Line(push: PushMessages, notification: bool, conversationId: string): seq<int> {
    var part := push.Part(notification);
    if conversationId in part then part[conversationId].msgs else []
  }

  ghost function Flat(pushes: seq<PushMessages>, notification: bool, conversationId: string): seq<int> {
    if pushes == [] then []
    else
      Flat(pushes[..|pushes| - 1], notification, conversationId)
      + Line(pushes[|pushes| - 1], notification, conversationId)
  }

  lemma {:induction false} FlatJoins(a: seq<PushMessages>, b: seq<PushMessages>, notification: bool,
                                     conversationId: string)
    ensures Flat(a + b, notification, conversationId)
            == Flat(a, notification, conversationId) + Flat(b, notification, conversationId)
  {
    if b == [] {
      assert a + b == a;
    } else {
      assert (a + b)[..|a + b| - 1] == a + b[..|b| - 1];
      FlatJoins(a, b[..|b| - 1], notification, conversationId);
    }
  }

  /** Merging one part into another: messages are appended, the flags of the later one win. */
  function MergePulls(destination: map<string, PullMsgs>, source: map<string, PullMsgs>): map<string, PullMsgs> {
    map c | c in destination.Keys + source.Keys ::
      if c in destination && c in source then
        PullMsgs(destination[c].msgs + source[c].msgs, source[c].isEnd, source[c].endSeq)
      else if c in source then source[c] else destination[c]
  }

  function Merge(a: PushMessages, b: PushMessages): PushMessages {
    PushMessages(MergePulls(a.msgs, b.msgs), MergePulls(a.notificationMsgs, b.notificationMsgs))
  }

  lemma MergeAppends(a: PushMessages, b: PushMessages, notification: bool, conversationId: string)
    ensures Line(Merge(a, b), notification, conversationId)
            == Line(a, notification, conversationId) + Line(b, notification, conversationId)
  {
  }

  // How many messages a push holds.

  function Length(part: map<string, PullMsgs>, conversationId: string): nat {
    if conversationId in part then |part[conversationId].msgs| else 0
  }

  ghost function SumOver(keys: set<string>, part: map<string, PullMsgs>): nat {
    if keys == {} then 0
    else
      var c :| c in keys;
      SumOver(keys - {c}, part) + Length(part, c)
  }

  lemma {:induction false} SumOverTakes(keys: set<string>, part: map<string, PullMsgs>, c: string)
    requires c in keys
    ensures SumOver(keys, part) == SumOver(keys - {c}, part) + Length(part, c)
    decreases |keys|
  {
    var d :| d in keys && SumOver(keys, part) == SumOver(keys - {d}, part) + Length(part, d);
    if d != c {
      SumOverTakes(keys - {d}, part, c);
      SumOverTakes(keys - {c}, part, d);
      assert keys - {d} - {c} == keys - {c} - {d};
    }
  }

  lemma {:induction false} SumOverMore(keys: set<string>, more: set<string>, part: map<string, PullMsgs>)
    requires keys <= more && part.Keys <= keys
    ensures SumOver(more, part) == SumOver(keys, part)
    decreases |more - keys|
  {
    if c :| c in more && c !in keys {
      SumOverTakes(more, part, c);
      SumOverMore(keys, more - {c}, part);
    } else {
      assert more == keys;
    }
  }

  lemma {:induction false} SumOverMerge(keys: set<string>, a: map<string, PullMsgs>, b: map<string, PullMsgs>)
    ensures SumOver(keys, MergePulls(a, b)) == SumOver(keys, a) + SumOver(keys, b)
    decreases |keys|
  {
    if keys != {} {
      var c :| c in keys;
      SumOverTakes(keys, MergePulls(a, b), c);
      SumOverTakes(keys, a, c);
      SumOverTakes(keys, b, c);
      SumOverMerge(keys - {c}, a, b);
    }
  }

  ghost function Total(part: map<string, PullMsgs>): nat {
    SumOver(part.Keys, part)
  }

  ghost function Count(push: PushMessages): nat {
    Total(push.msgs) + Total(push.notificationMsgs)
  }

  lemma TotalMerge(a: map<string, PullMsgs>, b: map<string, PullMsgs>)
    ensures Total(MergePulls(a, b)) == Total(a) + Total(b)
  {
    var keys := MergePulls(a, b).Keys;
    SumOverMerge(keys, a, b);
    SumOverMore(a.Keys, keys, a);
    SumOverMore(b.Keys, keys, b);
  }

  /** Merging neither loses nor invents messages. */
  lemma CountMerge(a: PushMessages, b: PushMessages)
    ensures Count(Merge(a, b)) == Count(a) + Count(b)
  {
    TotalMerge(a.msgs, b.msgs);
    TotalMerge(a.notificationMsgs, b.notificationMsgs);
  }

  /** One conversation counts for its messages, in either part. */
  lemma CountOne(c: string, pull: PullMsgs)
    ensures Count(PushMessages(map[c := pull], map[])) == Count(PushMessages(map[], map[c := pull])) == |pull.msgs|
    ensures Count(NO_MESSAGES) == 0
  {
    var part := map[c := pull];
    assert part.Keys == {c};
    SumOverTakes({c}, part, c);
    assert {c} - {c} == {};
  }

  method CountPart(part: map<string, PullMsgs>) returns (total: nat)
    ensures total == Total(part)
  {
    total := 0;
    var remaining := part.Keys;
    while remaining != {}
      invariant remaining <= part.Keys && total + SumOver(remaining, part) == Total(part)
      decreases remaining
    {
      var c :| c in remaining;
      SumOverTakes(remaining, part, c);
      total := total + |part[c].msgs|;
      remaining := remaining - {c};
    }
  }

  method CountMessages(batch: Option<PushMessages>) returns (total: nat)
    ensures total == if batch.Some? then Count(batch.value) else 0
  {
    if batch.None? {
      return 0;
    }
    var messages := CountPart(batch.value.msgs);
    var notifications := CountPart(batch.value.notificationMsgs);
    return messages + notifications;
  }

  /** The loop that merges the conversations of one part, in any order. */
  method MergePullsLocked(destination: map<string, PullMsgs>, source: map<string, PullMsgs>)
    returns (merged: map<string, PullMsgs>)
    ensures merged == MergePulls(destination, source)
  {
    merged := destination;
    var remaining := source.Keys;
    while remaining != {}
      invariant remaining <= source.Keys && merged.Keys == destination.Keys + (source.Keys - remaining)
      invariant forall c | c in merged ::
                  merged[c] == if c in remaining then destination[c] else MergePulls(destination, source)[c]
      decreases remaining
    {
      var c :| c in remaining;
      if c in merged {
        merged := merged[c := PullMsgs(merged[c].msgs + source[c].msgs, source[c].isEnd, source[c].endSeq)];
      } else {
        merged := merged[c := source[c]];
      }
      remaining := remaining - {c};
    }
  }

  // The window of arrivals.

  ghost function SumOf(arrivals: seq<Arrival>): int {
    if arrivals == [] then 0 else SumOf(arrivals[..|arrivals| - 1]) + arrivals[|arrivals| - 1].count
  }

  lemma {:induction false} SumOfJoins(a: seq<Arrival>, b: seq<Arrival>)
    ensures SumOf(a + b) == SumOf(a) + SumOf(b)
  {
    if b == [] {
      assert a + b == a;
    } else {
      assert (a + b)[..|a + b| - 1] == a + b[..|b| - 1];
      SumOfJoins(a, b[..|b| - 1]);
    }
  }

  lemma {:induction false} SumOfPositive(a: seq<Arrival>)
    requires forall i | 0 <= i < |a| :: a[i].count > 0
    ensures SumOf(a) >= |a|
  {
    if a != [] { SumOfPositive(a[..|a| - 1]); }
  }

  lemma SumOfSuffix(history: seq<Arrival>, i: nat, j: nat)
    requires i <= j <= |history| && forall k | 0 <= k < |history| :: history[k].count > 0
    ensures SumOf(history[i..]) == SumOf(history[i..j]) + SumOf(history[j..]) >= SumOf(history[j..])
  {
    assert history[i..] == history[i..j] + history[j..];
    SumOfJoins(history[i..j], history[j..]);
    SumOfPositive(history[i..j]);
  }

  /** The arrivals that are not before the cutoff, out of all that ever were. */
  ghost function NotBefore(history: seq<Arrival>, cutoff: int): seq<Arrival> {
    if history == [] then []
    else
      var last := history[|history| - 1];
      NotBefore(history[..|history| - 1], cutoff) + if last.ts < cutoff then [] else [last]
  }

  ghost predicate InOrder(history: seq<Arrival>) {
    && (forall i, j | 0 <= i < j < |history| :: history[i].ts <= history[j].ts)
    && forall i | 0 <= i < |history| :: history[i].count > 0
  }

  lemma {:induction false} NotBeforeIsSuffix(history: seq<Arrival>, cutoff: int, n: nat)
    requires n <= |history|
    requires (forall i | 0 <= i < n :: history[i].ts < cutoff) && forall i | n <= i < |history| :: history[i].ts >= cutoff
    ensures NotBefore(history, cutoff) == history[n..]
  {
    if n < |history| {
      NotBeforeIsSuffix(history[..|history| - 1], cutoff, n);
      assert history[n..] == history[..|history| - 1][n..] + [history[|history| - 1]];
    } else if n > 0 {
      NotBeforeIsSuffix(history[..n - 1], cutoff, n - 1);
      assert history[..n - 1][n - 1..] == [];
    }
  }

  /** The stored window is what is left of the history after `pruned` old arrivals were dropped from it. */
  ghost predicate Windowed(history: seq<Arrival>, pruned: nat, arrivals: seq<Arrival>, recentTotal: int, clock: int) {
    && InOrder(history) && pruned <= |history| && arrivals == history[pruned..] && recentTotal == SumOf(arrivals)
    && (forall i | 0 <= i < |history| :: history[i].ts <= clock)
    && forall i | 0 <= i < pruned :: history[i].ts < clock - LOW_LOAD_WINDOW
  }

  lemma WindowTotal(history: seq<Arrival>, pruned: nat, arrivals: seq<Arrival>, recentTotal: int, clock: int, now: int)
    requires Windowed(history, pruned, arrivals, recentTotal, clock) && clock <= now
    ensures recentTotal == SumOf(arrivals) && Windowed(history, pruned, arrivals, recentTotal, now)
    ensures InOrder(history) && forall i | 0 <= i < |history| :: history[i].ts <= clock
  {
  }

  lemma SumOfHead(arrivals: seq<Arrival>, idx: nat)
    requires idx < |arrivals|
    ensures SumOf(arrivals[idx..]) == arrivals[idx].count + SumOf(arrivals[idx + 1..])
  {
    assert arrivals[idx..] == [arrivals[idx]] + arrivals[idx + 1..];
    SumOfJoins([arrivals[idx]], arrivals[idx + 1..]);
    assert SumOf([arrivals[idx]]) == arrivals[idx].count;
  }

  /** The first `n` arrivals are the ones before the cutoff. */
  ghost predicate CutAt(history: seq<Arrival>, n: nat, cutoff: int) {
    n <= |history| && forall i | 0 <= i < |history| :: history[i].ts < cutoff <==> i < n
  }

  lemma CutFound(history: seq<Arrival>, pruned: nat, arrivals: seq<Arrival>, recentTotal: int, clock: int, idx: nat,
                 cutoff: int)
    requires Windowed(history, pruned, arrivals, recentTotal, clock) && idx <= |arrivals|
    requires clock - LOW_LOAD_WINDOW <= cutoff && forall i | 0 <= i < idx :: arrivals[i].ts < cutoff
    requires idx < |arrivals| ==> arrivals[idx].ts >= cutoff
    ensures CutAt(history, pruned + idx, cutoff) && arrivals[idx..] == history[pruned + idx..]
  {
    var n := pruned + idx;
    forall i | 0 <= i < |history|
      ensures history[i].ts < cutoff <==> i < n
    {
      if pruned <= i < n {
        assert arrivals[i - pruned] == history[i];
      } else if n <= i {
        assert arrivals[idx] == history[n];
      }
    }
  }

  lemma InOrderGrows(history: seq<Arrival>, clock: int, now: int, count: int)
    requires InOrder(history) && clock <= now && count > 0 && forall i | 0 <= i < |history| :: history[i].ts <= clock
    ensures InOrder(history + [Arrival(now, count)])
    ensures forall i | 0 <= i < |history + [Arrival(now, count)]| :: (history + [Arrival(now, count)])[i].ts <= now
  {
  }

  lemma CutGrows(history: seq<Arrival>, n: nat, cutoff: int, last: Arrival)
    requires CutAt(history, n, cutoff) && last.ts >= cutoff
    ensures CutAt(history + [last], n, cutoff) && (history + [last])[n..] == history[n..] + [last]
    ensures SumOf(history[n..] + [last]) == SumOf(history[n..]) + last.count
  {
    assert (history[n..] + [last])[..|history[n..]|] == history[n..];
  }

  lemma WindowCut(history: seq<Arrival>, clock: int, n: nat, now: int, count: int)
    requires InOrder(history) && forall i | 0 <= i < |history| :: history[i].ts <= clock
    requires CutAt(history, n, now - LOW_LOAD_WINDOW) && clock <= now && count > 0
    ensures var longer, kept := history + [Arrival(now, count)], history[n..] + [Arrival(now, count)];
            && Windowed(longer, n, kept, SumOf(history[n..]) + count, now)
            && NotBefore(longer, now - LOW_LOAD_WINDOW) == kept && SumOf(kept) == SumOf(history[n..]) + count
  {
    var last := Arrival(now, count);
    var longer, cutoff := history + [last], now - LOW_LOAD_WINDOW;
    InOrderGrows(history, clock, now, count);
    CutGrows(history, n, cutoff, last);
    hide InOrder, SumOf, NotBefore;
    assert forall i | 0 <= i < n :: longer[i].ts < cutoff;
    NotBeforeIsSuffix(longer, cutoff, n);
  }

  /** Dropping what is before the cutoff leaves exactly what is not, out of all arrivals ever. */
  lemma WindowMoves(history: seq<Arrival>, pruned: nat, arrivals: seq<Arrival>, recentTotal: int, clock: int,
                    idx: nat, now: int, count: int)
    requires Windowed(history, pruned, arrivals, recentTotal, clock) && clock <= now && count > 0 && idx <= |arrivals|
    requires forall i | 0 <= i < idx :: arrivals[i].ts < now - LOW_LOAD_WINDOW
    requires idx < |arrivals| ==> arrivals[idx].ts >= now - LOW_LOAD_WINDOW
    ensures var longer, kept := history + [Arrival(now, count)], arrivals[idx..] + [Arrival(now, count)];
            && Windowed(longer, pruned + idx, kept, SumOf(arrivals[idx..]) + count, now)
            && NotBefore(longer, now - LOW_LOAD_WINDOW) == kept && SumOf(kept) == SumOf(arrivals[idx..]) + count
  {
    hide Windowed, CutAt, SumOf, NotBefore, InOrder;
    WindowTotal(history, pruned, arrivals, recentTotal, clock, now);
    CutFound(history, pruned, arrivals, recentTotal, clock, idx, now - LOW_LOAD_WINDOW);
    WindowCut(history, clock, pruned + idx, now, count);
  }

  /** The delay for a load: 50 milliseconds up to a second, linear between 20 and 200 recent messages. */
  function ComputeDelay(recent: int): int {
    if recent >= HIGH_LOAD_MESSAGE_LIMIT then MAX_AGGREGATION_DELAY
    else if recent <= LOW_LOAD_MESSAGE_LIMIT then MIN_AGGREGATION_DELAY
    else
      var span := HIGH_LOAD_MESSAGE_LIMIT - LOW_LOAD_MESSAGE_LIMIT;
      var delay := MIN_AGGREGATION_DELAY
                   + (recent - LOW_LOAD_MESSAGE_LIMIT) * (MAX_AGGREGATION_DELAY - MIN_AGGREGATION_DELAY) / span;
      ClampDuration(delay, MIN_AGGREGATION_DELAY, MAX_AGGREGATION_DELAY)
  }

  function ClampDuration(val: int, low: int, high: int): int {
    if val < low then low else if val > high then high else val
  }

  /** More load never shortens the delay, and clamping never has anything to do. */
  lemma DelayFollowsLoad(a: int, b: int)
    requires a <= b
    ensures MIN_AGGREGATION_DELAY <= ComputeDelay(a) <= ComputeDelay(b) <= MAX_AGGREGATION_DELAY
    ensures LOW_LOAD_MESSAGE_LIMIT <= a <= HIGH_LOAD_MESSAGE_LIMIT ==>
              ComputeDelay(a) == MIN_AGGREGATION_DELAY
                                 + (a - LOW_LOAD_MESSAGE_LIMIT) * (MAX_AGGREGATION_DELAY - MIN_AGGREGATION_DELAY) / 180
  {
  }

  /** A step counts as prompt when it takes no longer than this. */
  const STEP_LIMIT := 8000 * MILLISECOND

  /** How much later than planned a timer may be set when the step that sets it has taken some time. */
  function Late(slack: int): int {
    if slack == 0 then 0 else slack + MILLISECOND
  }

  /** The load is moderate and there is too much in the buffer: it is flushed for its size. */
  ghost predicate TooFull(buffered: Option<PushMessages>, recent: int) {
    buffered.Some? && Count(buffered.value) >= MAX_BATCH_MESSAGES && recent < HIGH_LOAD_MESSAGE_LIMIT
  }

  /** When a timer for the target is due that is set at `later`. */
  function Deadline(target: int, later: int): Option<int> {
    Some(if later < target then target else later + MILLISECOND)
  }

  /** A buffer has a timer, and the timer is due within a second of the first buffered push. */
  ghost predicate Armed(buffered: bool, firstBuffered: Option<int>, timer: bool, nextFlushAt: int, slack: int) {
    && (buffered ==> timer)
    && (timer ==> firstBuffered.Some? && nextFlushAt <= firstBuffered.value + MAX_AGGREGATION_DELAY + Late(slack))
  }

  /** The buffer holds the messages of the arrivals from `since` on; on time, none of those has left the window. */
  ghost predicate Waiting(history: seq<Arrival>, since: nat, pruned: nat, buffered: Option<PushMessages>,
                          firstBuffered: Option<int>, prompt: bool) {
    && since <= |history|
    && SumOf(history[since..]) == (if buffered.Some? then Count(buffered.value) else 0)
    && (since < |history| ==> buffered.Some? && firstBuffered.Some?)
    && (forall i | since <= i < |history| :: history[i].ts >= firstBuffered.value)
    && (prompt ==> pruned <= since)
  }

  /** Of the pushes, number `i` is the last that has the conversation. */
  ghost predicate LastWith(pushes: seq<PushMessages>, notification: bool, c: string, i: int) {
    && 0 <= i < |pushes| && c in pushes[i].Part(notification)
    && forall j | i < j < |pushes| :: c !in pushes[j].Part(notification)
  }

  /**
   * What a message object for several pushes holds of one conversation: all their messages in order, and the flags that came
   * last.
   */
  ghost predicate LineMerged(p: PushMessages, pushes: seq<PushMessages>, notification: bool, c: string) {
    && (c in p.Part(notification) <==> exists i :: 0 <= i < |pushes| && c in pushes[i].Part(notification))
    && Line(p, notification, c) == Flat(pushes, notification, c)
    && forall i | LastWith(pushes, notification, c, i) ::
         var merged, last := p.Part(notification), pushes[i].Part(notification);
         c in merged && merged[c].isEnd == last[c].isEnd && merged[c].endSeq == last[c].endSeq
  }

  ghost predicate MergeOf(p: PushMessages, pushes: seq<PushMessages>) {
    forall notification: bool, c: string :: LineMerged(p, pushes, notification, c)
  }

  lemma NothingMerged()
    ensures MergeOf(NO_MESSAGES, [])
  {
  }

  lemma OneMerged(p: PushMessages)
    ensures MergeOf(p, [p])
  {
    hide Flat, Line;
    assert [p][0] == p;
    forall notification: bool, c: string
      ensures LineMerged(p, [p], notification, c)
    {
      FlatOne(p, notification, c);
    }
  }

  lemma OneMoreMerged(p: PushMessages, pushes: seq<PushMessages>, batch: PushMessages)
    requires MergeOf(p, pushes)
    ensures MergeOf(Merge(p, batch), pushes + [batch])
  {
    hide LineMerged, Merge;
    forall notification: bool, c: string
      ensures LineMerged(Merge(p, batch), pushes + [batch], notification, c)
    {
      OneMoreLine(p, pushes, batch, notification, c);
    }
  }

  lemma OneMoreLine(p: PushMessages, pushes: seq<PushMessages>, batch: PushMessages, notification: bool, c: string)
    requires LineMerged(p, pushes, notification, c)
    ensures LineMerged(Merge(p, batch), pushes + [batch], notification, c)
  {
    var more, n := pushes + [batch], |pushes|;
    assert more[..n] == pushes && more[n] == batch;
    MergeAppends(p, batch, notification, c);
    OneMoreLast(pushes, batch, notification, c);
    MergedFlags(p, batch, notification, c);
    OneMoreHas(pushes, batch, notification, c);
    hide LastWith, Line, Merge, PushMessages.Part;
  }

  lemma MergedFlags(p: PushMessages, batch: PushMessages, notification: bool, c: string)
    ensures var part, own, added := Merge(p, batch).Part(notification), p.Part(notification), batch.Part(notification);
            && (c in part <==> c in own || c in added)
            && (c in added ==> part[c].isEnd == added[c].isEnd && part[c].endSeq == added[c].endSeq)
            && (c in own && c !in added ==> part[c] == own[c])
  {
  }

  lemma OneMoreHas(pushes: seq<PushMessages>, batch: PushMessages, notification: bool, c: string)
    ensures (exists i :: 0 <= i < |pushes + [batch]| && c in (pushes + [batch])[i].Part(notification))
            <==> c in batch.Part(notification) || exists i :: 0 <= i < |pushes| && c in pushes[i].Part(notification)
  {
    var more := pushes + [batch];
    assert more[|pushes|] == batch;
    if i :| 0 <= i < |pushes| && c in pushes[i].Part(notification) {
      assert c in more[i].Part(notification);
    }
  }

  lemma OneMoreLast(pushes: seq<PushMessages>, batch: PushMessages, notification: bool, c: string)
    ensures forall i | LastWith(pushes + [batch], notification, c, i) ::
              if c in batch.Part(notification) then i == |pushes| else i < |pushes| && LastWith(pushes, notification, c, i)
  {
    var more, n := pushes + [batch], |pushes|;
    forall i | LastWith(more, notification, c, i)
      ensures if c in batch.Part(notification) then i == n else i < n && LastWith(pushes, notification, c, i)
    {
      assert more[n] == batch;
      assert forall j | 0 <= j < n :: more[j] == pushes[j];
      assert i < n ==> forall j | i < j < n :: c !in more[j].Part(notification);
    }
  }

  ghost function Joined(groups: seq<seq<PushMessages>>): seq<PushMessages> {
    if groups == [] then [] else Joined(groups[..|groups| - 1]) + groups[|groups| - 1]
  }

  /** What was taken out is merged, object by object, from consecutive pushes, and the buffer from those after them. */
  ghost predicate Grouped(groups: seq<seq<PushMessages>>, pending: seq<PushMessages>, taken: seq<PushMessages>,
                          buffered: Option<PushMessages>, enqueued: seq<PushMessages>) {
    && |groups| == |taken| && enqueued == Joined(groups) + pending
    && (forall k | 0 <= k < |taken| :: MergeOf(taken[k], groups[k]))
    && MergeOf(Held(buffered), pending) && (buffered.None? ==> pending == [])
  }

  /** Everything taken out of the buffer, then everything in it, is everything that came in. */
  ghost predicate Conserved(taken: seq<PushMessages>, buffered: Option<PushMessages>, enqueued: seq<PushMessages>) {
    exists groups: seq<seq<PushMessages>>, pending: seq<PushMessages> :: Grouped(groups, pending, taken, buffered, enqueued)
  }

  function Held(buffered: Option<PushMessages>): PushMessages {
    if buffered.Some? then buffered.value else NO_MESSAGES
  }

  lemma {:induction false} GroupLines(groups: seq<seq<PushMessages>>, taken: seq<PushMessages>, notification: bool, c: string)
    requires |groups| == |taken| && forall k | 0 <= k < |taken| :: MergeOf(taken[k], groups[k])
    ensures Flat(taken, notification, c) == Flat(Joined(groups), notification, c)
  {
    hide MergeOf;
    if taken != [] {
      var n := |taken| - 1;
      GroupLines(groups[..n], taken[..n], notification, c);
      FlatJoins(Joined(groups[..n]), groups[n], notification, c);
      MergeLine(taken[n], groups[n], notification, c);
    }
  }

  lemma MergeLine(p: PushMessages, pushes: seq<PushMessages>, notification: bool, c: string)
    requires MergeOf(p, pushes)
    ensures Line(p, notification, c) == Flat(pushes, notification, c)
  {
    assert LineMerged(p, pushes, notification, c);
  }

  lemma ConservedLines(taken: seq<PushMessages>, buffered: Option<PushMessages>, enqueued: seq<PushMessages>,
                       notification: bool, c: string)
    requires Conserved(taken, buffered, enqueued)
    ensures Flat(taken, notification, c) + Line(Held(buffered), notification, c) == Flat(enqueued, notification, c)
  {
    hide MergeOf;
    var groups: seq<seq<PushMessages>>, pending: seq<PushMessages> :| Grouped(groups, pending, taken, buffered, enqueued);
    GroupLines(groups, taken, notification, c);
    MergeLine(Held(buffered), pending, notification, c);
    FlatJoins(Joined(groups), pending, notification, c);
  }

  lemma NothingConserved()
    ensures Conserved([], None, [])
  {
    NothingMerged();
    assert Grouped([], [], [], None, []);
  }

  lemma TakingConserves(taken: seq<PushMessages>, buffered: Option<PushMessages>, enqueued: seq<PushMessages>)
    requires Conserved(taken, buffered, enqueued)
    ensures Conserved(taken + (if buffered.Some? then [buffered.value] else []), None, enqueued)
  {
    hide MergeOf;
    var groups: seq<seq<PushMessages>>, pending: seq<PushMessages> :| Grouped(groups, pending, taken, buffered, enqueued);
    NothingMerged();
    if buffered.Some? {
      assert (groups + [pending])[..|groups|] == groups;
      assert Grouped(groups + [pending], [], taken + [buffered.value], None, enqueued);
    } else {
      assert taken + [] == taken;
    }
  }

  lemma PassingConserves(taken: seq<PushMessages>, enqueued: seq<PushMessages>, batch: PushMessages)
    requires Conserved(taken, None, enqueued)
    ensures Conserved(taken + [batch], None, enqueued + [batch])
  {
    hide MergeOf;
    var groups: seq<seq<PushMessages>>, pending: seq<PushMessages> :| Grouped(groups, pending, taken, None, enqueued);
    OneMerged(batch);
    assert (groups + [[batch]])[..|groups|] == groups;
    assert Grouped(groups + [[batch]], [], taken + [batch], None, enqueued + [batch]);
  }

  lemma MergingConserves(taken: seq<PushMessages>, buffered: Option<PushMessages>, enqueued: seq<PushMessages>,
                         batch: PushMessages)
    requires Conserved(taken, buffered, enqueued)
    ensures Conserved(taken, Some(Merge(Held(buffered), batch)), enqueued + [batch])
  {
    hide MergeOf, Merge;
    var groups: seq<seq<PushMessages>>, pending: seq<PushMessages> :| Grouped(groups, pending, taken, buffered, enqueued);
    OneMoreMerged(Held(buffered), pending, batch);
    assert Grouped(groups, pending + [batch], taken, Some(Merge(Held(buffered), batch)), enqueued + [batch]);
  }

  /** The object is merged from some consecutive pushes. */
  ghost predicate MergesPushes(p: PushMessages, enqueued: seq<PushMessages>) {
    exists a, b | 0 <= a <= b <= |enqueued| :: MergeOf(p, enqueued[a..b])
  }

  lemma {:induction false} GroupIsPart(groups: seq<seq<PushMessages>>, k: nat) returns (a: nat)
    requires k < |groups|
    ensures a + |groups[k]| <= |Joined(groups)| && Joined(groups)[a..a + |groups[k]|] == groups[k]
  {
    var n := |groups| - 1;
    a := |Joined(groups[..n])|;
    if k < n { a := GroupIsPart(groups[..n], k); }
  }

  lemma ConservedMerges(taken: seq<PushMessages>, buffered: Option<PushMessages>, enqueued: seq<PushMessages>)
    requires Conserved(taken, buffered, enqueued)
    ensures forall p | p in taken :: MergesPushes(p, enqueued)
    ensures buffered.Some? ==> exists a | 0 <= a <= |enqueued| :: MergeOf(buffered.value, enqueued[a..])
  {
    hide MergeOf;
    var groups: seq<seq<PushMessages>>, pending: seq<PushMessages> :| Grouped(groups, pending, taken, buffered, enqueued);
    forall p | p in taken
      ensures MergesPushes(p, enqueued)
    {
      var k :| 0 <= k < |taken| && taken[k] == p;
      var a := GroupIsPart(groups, k);
      assert enqueued[a..a + |groups[k]|] == groups[k];
    }
    assert enqueued[|Joined(groups)|..] == pending;
  }

  /** A due timer has not been missed, and the steps are short: nothing in the buffer has left the window. */
  lemma StillInWindow(history: seq<Arrival>, since: nat, pruned: nat, longer: seq<Arrival>, newlyPruned: nat,
                      buffered: Option<PushMessages>, firstBuffered: Option<int>, timer: bool, nextFlushAt: int,
                      slack: int, now: int, prompt: bool, newlyPrompt: bool)
    requires Waiting(history, since, pruned, buffered, firstBuffered, prompt)
    requires Armed(buffered.Some?, firstBuffered, timer, nextFlushAt, slack)
    requires newlyPrompt ==> prompt && (timer ==> now <= nextFlushAt) && 0 <= slack <= STEP_LIMIT
    requires longer == history || exists count :: longer == history + [Arrival(now, count)]
    requires newlyPruned <= |longer| && forall i | 0 <= i < newlyPruned :: longer[i].ts < now - LOW_LOAD_WINDOW
    ensures newlyPrompt ==> newlyPruned <= since
    ensures newlyPrompt ==> forall i | since <= i < |history| :: now - history[i].ts <= MAX_AGGREGATION_DELAY + Late(slack)
  {
    hide SumOf, Count;
    assert forall i | since <= i < |history| :: longer[i] == history[i];
    var oldest := if since < |longer| then longer[since] else Arrival(now, 1);
  }

  /** A push that joins the buffer. */
  lemma WaitingGrows(history: seq<Arrival>, since: nat, pruned: nat, buffered: Option<PushMessages>,
                     firstBuffered: Option<int>,
                     prompt: bool, batch: PushMessages, longer: seq<Arrival>, newlyPruned: nat, now: int, newlyPrompt: bool)
    requires Waiting(history, since, pruned, buffered, firstBuffered, prompt)
    requires longer == if Count(batch) > 0 then history + [Arrival(now, Count(batch))] else history
    requires (firstBuffered.Some? ==> firstBuffered.value <= now) && (newlyPrompt ==> newlyPruned <= since)
    ensures Waiting(longer, since, newlyPruned, Some(Merge(Held(buffered), batch)),
                    Some(if firstBuffered.Some? then firstBuffered.value else now), newlyPrompt)
  {
    hide Merge;
    CountMerge(Held(buffered), batch);
    if Count(batch) > 0 {
      assert longer[since..] == history[since..] + [Arrival(now, Count(batch))];
      assert longer[since..][..|longer[since..]| - 1] == history[since..];
    }
  }

  /** What is taken when the buffer is emptied. */
  function Flushed(buffered: Option<PushMessages>, contexts: seq<int>): seq<Delivery> {
    if buffered.Some? then [Delivery(contexts, buffered.value)] else []
  }

  function Messages(deliveries: seq<Delivery>): seq<PushMessages> {
    seq(|deliveries|, i requires 0 <= i < |deliveries| => deliveries[i].messages)
  }

  /** What a series of deliveries carries on one line. */
  ghost function Carried(deliveries: seq<Delivery>, notification: bool, conversationId: string): seq<int> {
    Flat(Messages(deliveries), notification, conversationId)
  }

  lemma CarriedJoins(a: seq<Delivery>, b: seq<Delivery>, notification: bool, conversationId: string)
    ensures Carried(a + b, notification, conversationId)
            == Carried(a, notification, conversationId) + Carried(b, notification, conversationId)
  {
    assert Messages(a + b) == Messages(a) + Messages(b);
    FlatJoins(Messages(a), Messages(b), notification, conversationId);
  }

  lemma FlatOne(push: PushMessages, notification: bool, conversationId: string)
    ensures Flat([push], notification, conversationId) == Line(push, notification, conversationId)
  {
    assert [push] == [] + [push];
    assert Flat([push][..0], notification, conversationId) == [];
  }

  lemma CarriedOne(d: Delivery, notification: bool, conversationId: string)
    ensures Carried([d], notification, conversationId) == Line(d.messages, notification, conversationId)
    ensures d.messages.Empty() ==> Carried([d], notification, conversationId) == []
  {
    assert Messages([d]) == [d.messages];
    FlatOne(d.messages, notification, conversationId);
  }

  /** Whichever delivery goes first, nothing is lost; the oldest first also keeps the order. */
  lemma CarriedWithout(ds: seq<Delivery>, i: nat, notification: bool, conversationId: string)
    requires i < |ds|
    ensures var rest := ds[..i] + ds[i + 1..];
            && multiset(Carried(ds, notification, conversationId))
                 == multiset(Carried([ds[i]], notification, conversationId))
                    + multiset(Carried(rest, notification, conversationId))
            && (i == 0 ==> Carried(ds, notification, conversationId)
                             == Carried([ds[0]], notification, conversationId) + Carried(rest, notification, conversationId))
  {
    assert ds == ds[..i] + [ds[i]] + ds[i + 1..];
    assert i == 0 ==> ds == [ds[0]] + (ds[..i] + ds[i + 1..]);
    CarriedJoins(ds[..i] + [ds[i]], ds[i + 1..], notification, conversationId);
    CarriedJoins(ds[..i], [ds[i]], notification, conversationId);
    CarriedJoins(ds[..i], ds[i + 1..], notification, conversationId);
    CarriedJoins([ds[i]], ds[..i] + ds[i + 1..], notification, conversationId);
  }

  lemma MessagesOf(buffered: Option<PushMessages>, contexts: seq<int>, a: seq<Delivery>, d: Delivery)
    ensures Messages(Flushed(buffered, contexts)) == if buffered.Some? then [buffered.value] else []
    ensures Messages(a + [d]) == Messages(a) + [d.messages]
    ensures Messages(a + []) == Messages(a)
  {
  }

  lemma NothingWaits(history: seq<Arrival>, pruned: nat, firstBuffered: Option<int>)
    requires pruned <= |history|
    ensures forall prompt: bool :: Waiting(history, |history|, pruned, None, firstBuffered, prompt)
  {
  }

  /** A step that brings a push into the buffer, or none. */
  lemma StepGrows(history: seq<Arrival>, since: nat, pruned: nat, buffered: Option<PushMessages>,
                  firstBuffered: Option<int>,
                  prompt: bool, batch: Option<PushMessages>, longer: seq<Arrival>, newlyPruned: nat, now: int,
                  newlyPrompt: bool, taken: seq<PushMessages>, enqueued: seq<PushMessages>)
    requires Waiting(history, since, pruned, buffered, firstBuffered, prompt) && Conserved(taken, buffered, enqueued)
    requires longer == if batch.Some? && Count(batch.value) > 0 then history + [Arrival(now, Count(batch.value))] else history
    requires (firstBuffered.Some? ==> firstBuffered.value <= now) && (newlyPrompt ==> newlyPruned <= since)
    ensures var offered := if batch.Some? then Some(Merge(Held(buffered), batch.value)) else buffered;
            && Waiting(longer, since, newlyPruned, offered,
                       Some(if firstBuffered.Some? then firstBuffered.value else now), newlyPrompt)
            && (offered.None? ==> Waiting(longer, since, newlyPruned, None, firstBuffered, newlyPrompt))
            && Conserved(taken, offered, enqueued + if batch.Some? then [batch.value] else [])
  {
    if batch.Some? {
      hide Waiting, Conserved;
      WaitingGrows(history, since, pruned, buffered, firstBuffered, prompt, batch.value, longer, newlyPruned, now,
                   newlyPrompt);
      MergingConserves(taken, buffered, enqueued, batch.value);
    } else {
      assert enqueued + [] == enqueued;
    }
  }

  /** On time there is never more in the buffer than in the window, so the buffer is never flushed for its size. */
  lemma BufferedAtMostRecent(history: seq<Arrival>, since: nat, pruned: nat, buffered: Option<PushMessages>,
                             firstBuffered: Option<int>, prompt: bool, arrivals: seq<Arrival>, recentTotal: int, clock: int)
    requires Waiting(history, since, pruned, buffered, firstBuffered, prompt)
    requires Windowed(history, pruned, arrivals, recentTotal, clock)
    ensures prompt ==> (if buffered.Some? then Count(buffered.value) else 0) <= recentTotal
  {
    hide Count, SumOf;
    if prompt {
      SumOfSuffix(history, pruned, since);
    }
  }

  /** The clock may move on, and whatever has been dropped is out of the window. */
  lemma WindowBounds(history: seq<Arrival>, pruned: nat, arrivals: seq<Arrival>, recentTotal: int, now: int, later: int)
    requires Windowed(history, pruned, arrivals, recentTotal, now) && now <= later
    ensures Windowed(history, pruned, arrivals, recentTotal, later)
    ensures pruned <= |history| && forall i | 0 <= i < pruned :: history[i].ts < now - LOW_LOAD_WINDOW
  {
  }

  lemma WaitingStays(history: seq<Arrival>, since: nat, pruned: nat, buffered: Option<PushMessages>,
                     firstBuffered: Option<int>,
                     prompt: bool, now: int)
    requires Waiting(history, since, pruned, buffered, firstBuffered, prompt)
    ensures Waiting(history, since, pruned, buffered, if firstBuffered.Some? then firstBuffered else Some(now), prompt)
    ensures buffered.None? ==> Waiting(history, since, pruned, buffered, None, prompt)
  {
  }

  lemma ArmedByStep(firstBuffered: int, nextFlushAt: int, recent: int, now: int, later: int, slack: int)
    requires now - firstBuffered < ComputeDelay(recent) && now <= later && later - now <= slack
    requires nextFlushAt == if later < firstBuffered + ComputeDelay(recent) then firstBuffered + ComputeDelay(recent)
                            else later + MILLISECOND
    ensures forall buffered :: Armed(buffered, Some(firstBuffered), true, nextFlushAt, slack)
  {
    DelayFollowsLoad(recent, recent);
  }

  /**
   * A step of a run: the part of Enqueue or of the timer under the lock, the handler call for one of the deliveries that they
   * took, or Close.
   */
  datatype Step =
    | Push(ctx: int, batch: Option<PushMessages>, now: int, later: int)
    | Fire(now: int)
    | Hand(i: nat)
    | Shut

  /** The clock after a step. */
  ghost function After(step: Step, clock: int): int {
    match step
    case Push(_, _, _, later) => later
    case Fire(now) => now
    case _ => clock
  }

  /** The step comes before a due timer and is short; `due` is the deadline before it. */
  ghost predicate OnTime(step: Step, due: Option<int>) {
    match step
    case Push(_, _, now, later) => (due.Some? ==> now <= due.value) && later - now <= STEP_LIMIT
    case Fire(now) => due.Some? ==> now <= due.value
    case _ => true
  }

  ghost predicate AllOnTime(steps: seq<Step>, dues: seq<Option<int>>)
    requires |dues| == |steps|
  {
    forall k | 0 <= k < |steps| :: OnTime(steps[k], dues[k])
  }

  lemma AllOnTimeUnfolds(steps: seq<Step>, dues: seq<Option<int>>)
    requires |dues| == |steps| && steps != []
    ensures AllOnTime(steps, dues) <==> OnTime(steps[0], dues[0]) && AllOnTime(steps[1..], dues[1..])
  {
    hide OnTime;
    assert forall k | 1 <= k < |steps| :: steps[1..][k - 1] == steps[k] && dues[1..][k - 1] == dues[k];
    assert forall k | 0 <= k < |steps| - 1 :: steps[1..][k] == steps[k + 1] && dues[1..][k] == dues[k + 1];
  }

  /** The clock does not go back. */
  ghost predicate InTime(step: Step, clock: int) {
    clock <= After(step, clock) && (step.Push? ==> clock <= step.now <= step.later)
  }

  ghost predicate Closes(steps: seq<Step>) {
    exists k :: 0 <= k < |steps| && steps[k].Shut?
  }

  ghost predicate Clocked(steps: seq<Step>, clock: int) {
    steps != [] ==> InTime(steps[0], clock) && Clocked(steps[1..], After(steps[0], clock))
  }

  ghost function ClockAfter(steps: seq<Step>, clock: int): int {
    if steps == [] then clock else ClockAfter(steps[1..], After(steps[0], clock))
  }

  ghost function PushOf(step: Step): seq<PushMessages> {
    if step.Push? && step.batch.Some? then [step.batch.value] else []
  }

  ghost function Pushed(steps: seq<Step>): seq<PushMessages> {
    if steps == [] then [] else PushOf(steps[0]) + Pushed(steps[1..])
  }

  /** Every handler call takes the oldest of what waits for one, as when it is made before the lock is free again. */
  ghost predicate OldestFirst(steps: seq<Step>) {
    forall k | 0 <= k < |steps| :: steps[k].Hand? ==> steps[k].i == 0
  }

  lemma NothingPushed(enqueued: seq<PushMessages>)
    ensures enqueued + Pushed([]) == enqueued && !Closes([]) && AllOnTime([], [])
  {
  }

  lemma RunUnfolds(steps: seq<Step>, clock: int, enqueued: seq<PushMessages>)
    requires steps != []
    ensures Clocked(steps, clock) <==> InTime(steps[0], clock) && Clocked(steps[1..], After(steps[0], clock))
    ensures OldestFirst(steps) ==> OldestFirst(steps[1..]) && (steps[0].Hand? ==> steps[0].i == 0)
    ensures Closes(steps) <==> steps[0].Shut? || Closes(steps[1..])
    ensures ClockAfter(steps, clock) == ClockAfter(steps[1..], After(steps[0], clock))
    ensures enqueued + PushOf(steps[0]) + Pushed(steps[1..]) == enqueued + Pushed(steps)
  {
    assert forall k | 1 <= k < |steps| :: steps[1..][k - 1] == steps[k];
    assert enqueued + PushOf(steps[0]) + Pushed(steps[1..]) == enqueued + (PushOf(steps[0]) + Pushed(steps[1..]));
  }

  /** The two parts hold exactly the messages of the whole, one after the other when `inOrder`. */
  ghost predicate Splits(first: seq<int>, second: seq<int>, all: seq<int>, inOrder: bool) {
    multiset(first) + multiset(second) == multiset(all) && (inOrder ==> first + second == all)
  }

  lemma SplitsMore(first: seq<int>, second: seq<int>, all: seq<int>, inOrder: bool, more: seq<int>)
    requires Splits(first, second, all, inOrder)
    ensures Splits(first, second + more, all + more, inOrder)
  {
    assert first + (second + more) == (first + second) + more;
  }

  lemma SplitsMove(first: seq<int>, second: seq<int>, all: seq<int>, inOrder: bool, one: seq<int>, rest: seq<int>)
    requires Splits(first, second, all, inOrder)
    requires multiset(second) == multiset(one) + multiset(rest) && (inOrder ==> second == one + rest)
    ensures Splits(first + one, rest, all, inOrder)
  {
    assert first + (one + rest) == (first + one) + rest;
  }

  /** What was handed over, what waits for its handler call and what is buffered is what came in; in order when `inOrder`. */
  ghost predicate NothingLost(handed: seq<Delivery>, inFlight: seq<Delivery>, buffered: Option<PushMessages>,
                              enqueued: seq<PushMessages>, inOrder: bool) {
    forall notification: bool, c: string ::
      Splits(Carried(handed, notification, c), Carried(inFlight, notification, c) + Line(Held(buffered), notification, c),
             Flat(enqueued, notification, c), inOrder)
  }

  /** The deliveries that were taken are those handed over and those in flight. */
  ghost predicate Settled(handed: seq<Delivery>, inFlight: seq<Delivery>, taken: seq<PushMessages>, inOrder: bool) {
    && (forall d | d in handed || d in inFlight :: d.messages in taken)
    && forall notification: bool, c: string ::
         Splits(Carried(handed, notification, c), Carried(inFlight, notification, c), Flat(taken, notification, c), inOrder)
  }

  /** Exactly the messages of `lost` are missing from what was handed over. */
  ghost predicate AllBut(lost: seq<Delivery>, handed: seq<Delivery>, enqueued: seq<PushMessages>) {
    forall notification: bool, c: string ::
      multiset(Carried(handed, notification, c)) + multiset(Carried(lost, notification, c))
      == multiset(Flat(enqueued, notification, c))
  }

  /** The handler calls after the last flush of the buffer. */
  function HandedLast(handed: seq<Delivery>, contexts: seq<int>, buffered: Option<PushMessages>): seq<Delivery> {
    handed + if buffered.Some? && !buffered.value.Empty() then [Delivery(contexts, buffered.value)] else []
  }

  /** The last flush of the buffer leaves out exactly what was in flight. */
  lemma ClosingLeavesOut(handed: seq<Delivery>, inFlight: seq<Delivery>, taken: seq<PushMessages>, contexts: seq<int>,
                         buffered: Option<PushMessages>, enqueued: seq<PushMessages>, inOrder: bool)
    requires Settled(handed, inFlight, taken, inOrder) && Conserved(taken, buffered, enqueued)
    ensures AllBut(inFlight, HandedLast(handed, contexts, buffered), enqueued)
  {
    hide Flat, Line, Carried, Conserved, PushMessages.Empty;
    var last := if buffered.Some? && !buffered.value.Empty() then [Delivery(contexts, buffered.value)] else [];
    forall notification: bool, c: string
      ensures multiset(Carried(handed + last, notification, c)) + multiset(Carried(inFlight, notification, c))
              == multiset(Flat(enqueued, notification, c))
    {
      CarriedJoins(handed, last, notification, c);
      CarriedNone(notification, c);
      EmptyLines(notification, c);
      if buffered.Some? { CarriedOne(Delivery(contexts, buffered.value), notification, c); }
      assert Splits(Carried(handed, notification, c), Carried(inFlight, notification, c),
                    Flat(taken, notification, c), inOrder);
      ConservedLines(taken, buffered, enqueued, notification, c);
    }
  }

  /** After that nothing more is handed over: what was in flight and what comes later is what is missing. */
  lemma MissingAfterClose(inFlight: seq<Delivery>, handed: seq<Delivery>, enqueued: seq<PushMessages>, later: seq<PushMessages>,
                          notification: bool, c: string)
    requires AllBut(inFlight, handed, enqueued)
    ensures var came, got := multiset(Flat(enqueued + later, notification, c)), multiset(Carried(handed, notification, c));
            var lost, late := Carried(inFlight, notification, c), Flat(later, notification, c);
            && came == got + multiset(lost) + multiset(late)
            && (came == got <==> lost == [] && late == [])
  {
    hide Flat, Carried;
    FlatJoins(enqueued, later, notification, c);
    var came, got := multiset(Flat(enqueued + later, notification, c)), multiset(Carried(handed, notification, c));
    var lost, late := Carried(inFlight, notification, c), Flat(later, notification, c);
    assert got + multiset(lost) == multiset(Flat(enqueued, notification, c));
    assert |came| == |got| + |lost| + |late|;
  }

  lemma EmptyLines(notification: bool, c: string)
    ensures Line(NO_MESSAGES, notification, c) == []
  {
  }

  lemma SettledTakes(handed: seq<Delivery>, inFlight: seq<Delivery>, taken: seq<PushMessages>, inOrder: bool,
                     out: seq<Delivery>)
    requires Settled(handed, inFlight, taken, inOrder)
    ensures Settled(handed, inFlight + out, taken + Messages(out), inOrder)
  {
    forall d | d in out
      ensures d.messages in Messages(out)
    {
      var i :| 0 <= i < |out| && out[i] == d;
      assert Messages(out)[i] == d.messages;
    }
    hide Splits, Flat, Messages;
    forall notification: bool, c: string
      ensures Splits(Carried(handed, notification, c), Carried(inFlight + out, notification, c),
                     Flat(taken + Messages(out), notification, c), inOrder)
    {
      CarriedJoins(inFlight, out, notification, c);
      FlatJoins(taken, Messages(out), notification, c);
      SplitsMore(Carried(handed, notification, c), Carried(inFlight, notification, c), Flat(taken, notification, c), inOrder,
                 Carried(out, notification, c));
    }
  }

  lemma SettledHands(handed: seq<Delivery>, inFlight: seq<Delivery>, taken: seq<PushMessages>, inOrder: bool, i: nat)
    requires Settled(handed, inFlight, taken, inOrder) && i < |inFlight| && (inOrder ==> i == 0)
    ensures Settled(handed + (if !inFlight[i].messages.Empty() then [inFlight[i]] else []),
                    inFlight[..i] + inFlight[i + 1..], taken, inOrder)
  {
    hide Splits, Carried;
    var one := if !inFlight[i].messages.Empty() then [inFlight[i]] else [];
    var rest := inFlight[..i] + inFlight[i + 1..];
    forall notification: bool, c: string
      ensures Splits(Carried(handed + one, notification, c), Carried(rest, notification, c),
                     Flat(taken, notification, c), inOrder)
    {
      CarriedWithout(inFlight, i, notification, c);
      CarriedOne(inFlight[i], notification, c);
      CarriedNone(notification, c);
      CarriedJoins(handed, one, notification, c);
      SplitsMove(Carried(handed, notification, c), Carried(inFlight, notification, c), Flat(taken, notification, c), inOrder,
                 Carried(one, notification, c), Carried(rest, notification, c));
    }
  }

  lemma CarriedNone(notification: bool, conversationId: string)
    ensures Carried([], notification, conversationId) == []
  {
  }

  lemma SettledConserves(handed: seq<Delivery>, inFlight: seq<Delivery>, taken: seq<PushMessages>, inOrder: bool,
                         buffered: Option<PushMessages>, enqueued: seq<PushMessages>)
    requires Settled(handed, inFlight, taken, inOrder) && Conserved(taken, buffered, enqueued)
    ensures NothingLost(handed, inFlight, buffered, enqueued, inOrder)
  {
    hide Flat, Line, Splits, Carried, Conserved;
    forall notification: bool, c: string
      ensures Splits(Carried(handed, notification, c),
                     Carried(inFlight, notification, c) + Line(Held(buffered), notification, c),
                     Flat(enqueued, notification, c), inOrder)
    {
      SplitsMore(Carried(handed, notification, c), Carried(inFlight, notification, c), Flat(taken, notification, c), inOrder,
                 Line(Held(buffered), notification, c));
      ConservedLines(taken, buffered, enqueued, notification, c);
    }
  }

  /** Every delivery is merged from consecutive pushes, and the buffer from those that came last. */
  ghost predicate AreMerged(handed: seq<Delivery>, inFlight: seq<Delivery>, buffered: Option<PushMessages>,
                            enqueued: seq<PushMessages>) {
    && (forall d | d in handed || d in inFlight :: MergesPushes(d.messages, enqueued))
    && (buffered.Some? ==> exists a | 0 <= a <= |enqueued| :: MergeOf(buffered.value, enqueued[a..]))
  }

  lemma SettledMerges(handed: seq<Delivery>, inFlight: seq<Delivery>, taken: seq<PushMessages>, inOrder: bool,
                      buffered: Option<PushMessages>, enqueued: seq<PushMessages>)
    requires Settled(handed, inFlight, taken, inOrder) && Conserved(taken, buffered, enqueued)
    ensures AreMerged(handed, inFlight, buffered, enqueued)
  {
    hide MergesPushes, MergeOf, Splits, Conserved;
    ConservedMerges(taken, buffered, enqueued);
  }

  class MessageBatcher {
    var buffer: Option<PushMessages>
    var contexts: seq<int>
    var attached: bool
    var flushTimer: bool
    var nextFlushAt: int
    var arrivals: seq<Arrival>
    var recentTotal: int
    var firstBuffered: Option<int>

    /** All pushes received, all that left the batcher in the order of the lock, and all calls of the handler. */
    ghost var enqueued: seq<PushMessages>
    ghost var taken: seq<PushMessages>
    ghost var handed: seq<Delivery>

    /** All counted arrivals, how many of them left the window, and where those in the buffer begin. */
    ghost var history: seq<Arrival>
    ghost var pruned: nat
    ghost var since: nat

    /**
     * The last clock reading, the longest step, whether every step so far came before a due timer and was short, and how
     * many flushes were due to the size of the buffer alone.
     */
    ghost var clock: int
    ghost var slack: int
    ghost var prompt: bool
    ghost var sizeFlushes: nat

    /** The deadline that was set before each step so far, if one was. */
    ghost var deadlines: seq<Option<int>>

    /** What holds under the lock at any time. */
    ghost predicate Core()
      reads this`buffer, this`arrivals, this`recentTotal, this`firstBuffered, this`enqueued, this`taken, this`history,
            this`pruned, this`since, this`clock, this`slack, this`prompt, this`sizeFlushes
    {
      && Conserved(taken, buffer, enqueued)
      && Windowed(history, pruned, arrivals, recentTotal, clock)
      && Waiting(history, since, pruned, buffer, firstBuffered, prompt)
      && (firstBuffered.Some? ==> firstBuffered.value <= clock)
      && 0 <= slack && (prompt ==> slack <= STEP_LIMIT && sizeFlushes == 0)
    }

    ghost predicate Valid()
      reads this`buffer, this`arrivals, this`recentTotal, this`firstBuffered, this`enqueued, this`taken, this`history,
            this`pruned, this`since, this`clock, this`slack, this`prompt, this`sizeFlushes, this`flushTimer, this`nextFlushAt
    {
      Core() && Armed(buffer.Some?, firstBuffered, flushTimer, nextFlushAt, slack)
    }

    constructor (clock: int)
      ensures Valid() && prompt && attached && enqueued == taken == [] && handed == [] && history == []
      ensures this.clock == clock && Due() == None && deadlines == []
    {
      buffer, contexts, attached, flushTimer, nextFlushAt := None, [], true, false, 0;
      arrivals, recentTotal, firstBuffered := [], 0, None;
      enqueued, taken, handed, history, pruned, since := [], [], [], [], 0, 0;
      this.clock, slack, prompt, sizeFlushes, deadlines := clock, 0, true, 0, [];
      NothingConserved();
    }

    /** Takes everything out of the buffer. */
    method ConsumeLocked() returns (out: seq<Delivery>)
      modifies this`buffer, this`contexts, this`firstBuffered
      ensures old(buffer).None? ==> out == [] && unchanged(this)
      ensures old(buffer).Some? ==> out == [Delivery(old(contexts), old(buffer).value)]
      ensures old(buffer).Some? ==> buffer == None && contexts == [] && firstBuffered == None
    {
      if buffer.None? {
        return [];
      }
      out := [Delivery(contexts, buffer.value)];
      buffer, contexts, firstBuffered := None, [], None;
    }

    method CancelTimerLocked()
      modifies this`flushTimer, this`nextFlushAt
      ensures !flushTimer
    {
      if !flushTimer {
        return;
      }
      flushTimer, nextFlushAt := false, 0;
    }

    method MergeLocked(batch: Option<PushMessages>)
      modifies this`buffer
      ensures buffer == if batch.Some? then Some(Merge(Held(old(buffer)), batch.value)) else old(buffer)
    {
      if batch.None? {
        return;
      }
      if buffer.None? {
        buffer := Some(NO_MESSAGES);
      }
      var messages := MergePullsLocked(buffer.value.msgs, batch.value.msgs);
      var notifications := MergePullsLocked(buffer.value.notificationMsgs, batch.value.notificationMsgs);
      buffer := Some(PushMessages(messages, notifications));
    }

    /** Counts the arrival, after dropping what has left the window. */
    method RecordArrivalLocked(now: int, count: int) returns (recent: int)
      requires Windowed(history, pruned, arrivals, recentTotal, clock) && clock <= now && count >= 0
      modifies this`arrivals, this`recentTotal, this`history, this`pruned, this`clock
      ensures Windowed(history, pruned, arrivals, recentTotal, clock) && clock == now && recent == recentTotal
      ensures history == if count > 0 then old(history) + [Arrival(now, count)] else old(history)
      ensures count == 0 ==> pruned == old(pruned) && recentTotal == old(recentTotal)
      ensures count > 0 ==> recentTotal == SumOf(NotBefore(history, now - LOW_LOAD_WINDOW))
    {
      hide Windowed, SumOf, NotBefore;
      WindowTotal(history, pruned, arrivals, recentTotal, clock, now);
      clock := now;
      if count <= 0 {
        return recentTotal;
      }
      assert arrivals[0..] == arrivals;
      var cutoff := now - LOW_LOAD_WINDOW;
      var idx := 0;
      while idx < |arrivals| && arrivals[idx].ts < cutoff
        invariant 0 <= idx <= |arrivals| && recentTotal == SumOf(arrivals[idx..])
        invariant forall i | 0 <= i < idx :: arrivals[i].ts < cutoff
        invariant unchanged(`arrivals, `history, `pruned) && clock == now
      {
        SumOfHead(arrivals, idx);
        recentTotal := recentTotal - arrivals[idx].count;
        idx := idx + 1;
      }
      WindowMoves(history, pruned, arrivals, old(recentTotal), old(clock), idx, now, count);
      history, pruned := history + [Arrival(now, count)], pruned + idx;
      if idx > 0 {
        arrivals := arrivals[idx..];
      }
      arrivals := arrivals + [Arrival(now, count)];
      recentTotal := recentTotal + count;
      recent := recentTotal;
    }

    method PendingCountLocked() returns (total: nat)
      ensures total == if buffer.Some? then Count(buffer.value) else 0
    {
      total := CountMessages(buffer);
    }

    /** Arms the timer for the target, or for a millisecond from now when the target has passed. */
    method EnsureTimerLocked(target: int, later: int)
      modifies this`flushTimer, this`nextFlushAt
      ensures flushTimer && nextFlushAt == if later < target then target else later + MILLISECOND
    {
      var delay, at := target - later, target;
      if delay <= 0 {
        at := later + MILLISECOND;
      }
      if !flushTimer {
        nextFlushAt, flushTimer := at, true;
        return;
      }
      if at == nextFlushAt {
        return;
      }
      nextFlushAt := at;
    }

    /** Empties the buffer and stops the timer. */
    method TakeAllLocked() returns (out: seq<Delivery>)
      requires Conserved(taken, buffer, enqueued) && pruned <= |history|
      modifies this`buffer, this`contexts, this`firstBuffered, this`flushTimer, this`nextFlushAt, this`taken, this`since
      ensures Conserved(taken, buffer, enqueued) && buffer == None && taken == old(taken) + Messages(out)
      ensures out == Flushed(old(buffer), old(contexts))
      ensures (forall p: bool :: Waiting(history, since, pruned, buffer, firstBuffered, p)) && since == |history|
      ensures !flushTimer && (firstBuffered.Some? ==> firstBuffered == old(firstBuffered))
    {
      hide Conserved, Waiting;
      TakingConserves(taken, buffer, enqueued);
      MessagesOf(buffer, contexts, [], Delivery([], NO_MESSAGES));
      NothingWaits(history, pruned, firstBuffered);
      NothingWaits(history, pruned, None);
      out := ConsumeLocked();
      CancelTimerLocked();
      taken, since := taken + Messages(out), |history|;
    }

    /** The push that a flush would carry now, and the time since which messages have been buffered. */
    ghost function Offered(batch: Option<PushMessages>): Option<PushMessages>
      reads this`buffer
    {
      if batch.Some? then Some(Merge(Held(buffer), batch.value)) else buffer
    }

    ghost function First(now: int): int
      reads this`firstBuffered
    {
      if firstBuffered.Some? then firstBuffered.value else now
    }

    /** Notes the length of the step and whether it came before a due timer. */
    ghost method Tick(now: int, later: int)
      requires now <= later
      modifies this`slack, this`prompt
      ensures prompt == (old(prompt) && (flushTimer ==> now <= nextFlushAt) && later - now <= STEP_LIMIT)
      ensures slack == if old(slack) < later - now then later - now else old(slack)
    {
      prompt := prompt && (flushTimer ==> now <= nextFlushAt) && later - now <= STEP_LIMIT;
      slack := if slack < later - now then later - now else slack;
    }

    /**
     * The part of Enqueue under the lock. `now` and `later` are the clock readings at its start and where it arms the
     * timer; `out` is what is handed to the handler after the lock.
     */
    method EnqueueLocked(ctx: int, batch: Option<PushMessages>, now: int, later: int) returns (out: seq<Delivery>)
      requires Valid() && clock <= now <= later
      modifies this`buffer, this`contexts, this`flushTimer, this`nextFlushAt, this`arrivals, this`recentTotal,
               this`firstBuffered, this`enqueued, this`taken, this`history, this`pruned, this`since, this`clock,
               this`slack, this`prompt, this`sizeFlushes
      ensures Valid() && clock == later
      ensures enqueued == old(enqueued) + if batch.Some? then [batch.value] else []
      ensures taken == old(taken) + Messages(out)
      ensures batch.Some? && Count(batch.value) > 0 ==>
                && history == old(history) + [Arrival(now, Count(batch.value))]
                && recentTotal == SumOf(NotBefore(history, now - LOW_LOAD_WINDOW))
      ensures prompt == (old(prompt) && (old(flushTimer) ==> now <= old(nextFlushAt)) && later - now <= STEP_LIMIT)
      ensures prompt ==> forall i | old(since) <= i < |old(history)| ::
                           now - old(history)[i].ts <= MAX_AGGREGATION_DELAY + Late(old(slack))
      ensures buffer.Some? <==>
                && old(Offered(batch)).Some? && recentTotal >= LOW_LOAD_MESSAGE_LIMIT
                && !(Count(old(Offered(batch)).value) >= MAX_BATCH_MESSAGES && recentTotal < HIGH_LOAD_MESSAGE_LIMIT)
                && now - old(First(now)) < ComputeDelay(recentTotal)
      ensures buffer.Some? ==> buffer == old(Offered(batch)) && contexts == old(contexts) + [ctx] && out == []
      ensures buffer.None? ==>
                out == if recentTotal >= LOW_LOAD_MESSAGE_LIMIT then Flushed(old(Offered(batch)), old(contexts) + [ctx])
                       else Flushed(old(buffer), old(contexts)) + Flushed(batch, [ctx])
      ensures sizeFlushes == old(sizeFlushes) + if recentTotal >= LOW_LOAD_MESSAGE_LIMIT
                                                   && TooFull(old(Offered(batch)), recentTotal) then 1 else 0
      ensures Due() == if buffer.Some? || (old(Offered(batch)).None? && recentTotal >= LOW_LOAD_MESSAGE_LIMIT
                                           && now - old(First(now)) < ComputeDelay(recentTotal))
                       then Deadline(old(First(now)) + ComputeDelay(recentTotal), later) else None
    {
      hide Conserved, Waiting, Windowed, Count, SumOf, NotBefore, ComputeDelay, Merge, Flushed, Messages;
      ghost var history0, pruned0 := history, pruned;
      var recent := ArriveLocked(batch, now, later);
      if recent < LOW_LOAD_MESSAGE_LIMIT {
        out := PassThroughLocked(ctx, batch);
      } else {
        JoinLocked(ctx, batch, now, history0, pruned0, old(prompt));
        out := FlushOrWaitLocked(recent, now, later);
      }
    }

    /** The arrival of a push and the clock of the step. */
    method ArriveLocked(batch: Option<PushMessages>, now: int, later: int) returns (recent: int)
      requires Valid() && clock <= now <= later
      modifies this`arrivals, this`recentTotal, this`history, this`pruned, this`clock, this`slack, this`prompt
      ensures Windowed(history, pruned, arrivals, recentTotal, clock) && clock == later && recent == recentTotal
      ensures pruned <= |history| && (prompt ==> pruned <= since)
      ensures history == if batch.Some? && Count(batch.value) > 0 then old(history) + [Arrival(now, Count(batch.value))]
                         else old(history)
      ensures batch.Some? && Count(batch.value) > 0 ==> recentTotal == SumOf(NotBefore(history, now - LOW_LOAD_WINDOW))
      ensures prompt == (old(prompt) && (flushTimer ==> now <= nextFlushAt) && later - now <= STEP_LIMIT)
      ensures slack >= old(slack) && later - now <= slack && (prompt ==> slack <= STEP_LIMIT)
      ensures prompt ==> forall i | since <= i < |old(history)| ::
                           now - old(history)[i].ts <= MAX_AGGREGATION_DELAY + Late(old(slack))
    {
      hide Conserved, Waiting, Windowed, Armed, Count, SumOf, NotBefore;
      var addedCount := CountMessages(batch);
      recent := RecordArrivalLocked(now, addedCount);
      Tick(now, later);
      WindowBounds(history, pruned, arrivals, recentTotal, now, later);
      StillInWindow(old(history), since, old(pruned), history, pruned, buffer, firstBuffered, flushTimer, nextFlushAt,
                    old(slack), now, old(prompt), prompt);
      clock := later;
    }

    /** The push joins the buffer. */
    method JoinLocked(ctx: int, batch: Option<PushMessages>, now: int, ghost history0: seq<Arrival>, ghost pruned0: nat,
                      ghost prompt0: bool)
      requires Conserved(taken, buffer, enqueued) && Waiting(history0, since, pruned0, buffer, firstBuffered, prompt0)
      requires history == if batch.Some? && Count(batch.value) > 0 then history0 + [Arrival(now, Count(batch.value))]
                          else history0
      requires (firstBuffered.Some? ==> firstBuffered.value <= now) && (prompt ==> pruned <= since)
      modifies this`buffer, this`contexts, this`firstBuffered, this`enqueued
      ensures Conserved(taken, buffer, enqueued) && Waiting(history, since, pruned, buffer, firstBuffered, prompt)
      ensures enqueued == old(enqueued) + if batch.Some? then [batch.value] else []
      ensures buffer == old(Offered(batch)) && contexts == old(contexts) + [ctx]
      ensures firstBuffered == if buffer.Some? then Some(old(First(now))) else old(firstBuffered)
    {
      hide Conserved, Waiting, Count, Merge;
      StepGrows(history0, since, pruned0, buffer, firstBuffered, prompt0, batch, history, pruned, now, prompt,
                taken, enqueued);
      enqueued := enqueued + if batch.Some? then [batch.value] else [];
      contexts := contexts + [ctx];
      MergeLocked(batch);
      if buffer.Some? && firstBuffered.None? {
        firstBuffered := Some(now);
      }
    }

    /** Low load: what is buffered goes out, and the push right after it. */
    method PassThroughLocked(ctx: int, batch: Option<PushMessages>) returns (out: seq<Delivery>)
      requires Conserved(taken, buffer, enqueued) && pruned <= |history|
      modifies this`buffer, this`contexts, this`firstBuffered, this`flushTimer, this`nextFlushAt, this`taken, this`since,
               this`enqueued
      ensures Conserved(taken, buffer, enqueued) && buffer == None && taken == old(taken) + Messages(out)
      ensures out == Flushed(old(buffer), old(contexts)) + Flushed(batch, [ctx])
      ensures enqueued == old(enqueued) + if batch.Some? then [batch.value] else []
      ensures (forall p: bool :: Waiting(history, since, pruned, buffer, firstBuffered, p)) && since == |history|
      ensures !flushTimer && (firstBuffered.Some? ==> firstBuffered == old(firstBuffered))
    {
      hide Conserved, Waiting;
      out := TakeAllLocked();
      if batch.Some? {
        PassingConserves(taken, enqueued, batch.value);
        MessagesOf(None, [], out, Delivery([ctx], batch.value));
        taken, enqueued := taken + [batch.value], enqueued + [batch.value];
        out := out + [Delivery([ctx], batch.value)];
      }
    }

    /** Otherwise the buffer goes out when it is full or due, and else waits for the timer. */
    method FlushOrWaitLocked(recent: int, now: int, later: int) returns (out: seq<Delivery>)
      requires Core() && recent == recentTotal && now <= later == clock && later - now <= slack
      requires firstBuffered.Some? ==> firstBuffered.value <= now
      modifies this`buffer, this`contexts, this`firstBuffered, this`flushTimer, this`nextFlushAt, this`taken, this`since,
               this`sizeFlushes
      ensures Valid() && taken == old(taken) + Messages(out)
      ensures buffer.Some? <==>
                && old(buffer).Some?
                && !(Count(old(buffer).value) >= MAX_BATCH_MESSAGES && recent < HIGH_LOAD_MESSAGE_LIMIT)
                && now - old(First(now)) < ComputeDelay(recent)
      ensures buffer.Some? ==> buffer == old(buffer) && contexts == old(contexts) && out == []
      ensures buffer.None? ==> out == Flushed(old(buffer), old(contexts))
      ensures sizeFlushes == old(sizeFlushes) + if TooFull(old(buffer), recent) then 1 else 0
      ensures Due() == if buffer.Some? || (old(buffer).None? && now - old(First(now)) < ComputeDelay(recent))
                       then Deadline(old(First(now)) + ComputeDelay(recent), later) else None
    {
      hide Conserved, Waiting, Windowed, Count, SumOf, ComputeDelay;
      WindowBounds(history, pruned, arrivals, recentTotal, clock, clock);
      MessagesOf(None, [], [], Delivery([], NO_MESSAGES));
      assert taken + Messages([]) == taken;
      var pendingCount := PendingCountLocked();
      if pendingCount >= MAX_BATCH_MESSAGES && recent < HIGH_LOAD_MESSAGE_LIMIT {
        BufferedAtMostRecent(history, since, pruned, buffer, firstBuffered, prompt, arrivals, recentTotal, later);
        sizeFlushes := sizeFlushes + 1;
        out := TakeAllLocked();
      } else {
        WaitingStays(history, since, pruned, buffer, firstBuffered, prompt, now);
        if firstBuffered.None? {
          firstBuffered := Some(now);
        }
        var elapsed := now - firstBuffered.value;
        var totalDelay := ComputeDelay(recent);
        var targetFlush := firstBuffered.value + totalDelay;
        DelayFollowsLoad(recent, recent);
        if elapsed >= MAX_AGGREGATION_DELAY || elapsed >= totalDelay || now > targetFlush {
          out := TakeAllLocked();
        } else {
          EnsureTimerLocked(targetFlush, later);
          ArmedByStep(firstBuffered.value, nextFlushAt, recent, now, later, slack);
          out := [];
        }
      }
    }

    /** The timer may fire at any time; a stopped one may still have been on its way. */
    method OnTimerLocked(now: int) returns (out: seq<Delivery>)
      requires Valid() && clock <= now
      modifies this`buffer, this`contexts, this`firstBuffered, this`flushTimer, this`nextFlushAt, this`taken, this`since,
               this`clock, this`prompt
      ensures Valid() && clock == now && buffer == None && !flushTimer && taken == old(taken) + Messages(out)
      ensures out == Flushed(old(buffer), old(contexts))
      ensures prompt == (old(prompt) && (old(flushTimer) ==> now <= old(nextFlushAt)))
      ensures prompt ==> forall i | old(since) <= i < |history| ::
                           now - history[i].ts <= MAX_AGGREGATION_DELAY + Late(slack)
    {
      hide Conserved, Waiting, Windowed, Count, SumOf;
      WindowBounds(history, pruned, arrivals, recentTotal, clock, now);
      prompt := prompt && (flushTimer ==> now <= nextFlushAt);
      StillInWindow(history, since, pruned, history, pruned, buffer, firstBuffered, flushTimer, nextFlushAt, slack, now,
                    old(prompt), prompt);
      clock := now;
      out := TakeAllLocked();
      nextFlushAt := 0;
    }

    /** One handler call, if there still is a handler and something to hand over. */
    method Dispatch(handler: bool, d: Delivery)
      modifies this`handed
      ensures handed == old(handed) + if handler && (|d.messages.msgs| > 0 || |d.messages.notificationMsgs| > 0) then [d]
                                      else []
    {
      if !handler || d.messages.Empty() {
        return;
      }
      handed := handed + [d];
    }

    /** Hands over what is left in the buffer, if a handler is still attached, and detaches it. */
    method Close()
      requires Valid()
      modifies this
      ensures Valid() && !attached && buffer == None && !flushTimer && enqueued == old(enqueued)
      ensures clock == old(clock) && prompt == old(prompt) && deadlines == old(deadlines) && sizeFlushes == old(sizeFlushes)
      ensures handed == if old(attached) then HandedLast(old(handed), old(contexts), old(buffer)) else old(handed)
    {
      hide Conserved, Waiting, Windowed;
      WindowBounds(history, pruned, arrivals, recentTotal, clock, clock);
      var out := TakeAllLocked();
      var handler := attached;
      attached := false;
      assert handed + [] == handed;
      if |out| > 0 {
        Dispatch(handler, out[0]);
      }
    }

    /** The deadline, if there is one. */
    ghost function Due(): Option<int>
      reads this`flushTimer, this`nextFlushAt
    {
      if flushTimer then Some(nextFlushAt) else None
    }

    /** With every timer on time: no more in the buffer than in the window, and never a flush for the size alone. */
    ghost predicate NeverFull()
      reads this`buffer, this`recentTotal, this`sizeFlushes
    {
      (if buffer.Some? then Count(buffer.value) else 0) <= recentTotal && sizeFlushes == 0
    }

    lemma PromptNeverFull()
      requires Valid() && prompt
      ensures NeverFull()
    {
      BufferedAtMostRecent(history, since, pruned, buffer, firstBuffered, prompt, arrivals, recentTotal, clock);
    }

    /** A buffer is due within a second of its first push, and that much later only as the steps themselves are long. */
    lemma DueInTime()
      requires Valid() && buffer.Some?
      ensures flushTimer && firstBuffered.Some?
      ensures nextFlushAt <= firstBuffered.value + MAX_AGGREGATION_DELAY + Late(slack)
      ensures forall i | since <= i < |history| :: nextFlushAt - history[i].ts <= MAX_AGGREGATION_DELAY + Late(slack)
    {
    }

    /** One step of a run, with the deliveries that wait for their handler call before and after it. */
    method TakeStep(step: Step, waiting: seq<Delivery>, ghost inOrder: bool) returns (inFlight: seq<Delivery>)
      requires Valid() && InTime(step, clock) && (inOrder && step.Hand? ==> step.i == 0)
      requires attached ==> Settled(handed, waiting, taken, inOrder)
      modifies this
      ensures Valid() && clock == After(step, old(clock)) && attached == (old(attached) && !step.Shut?)
      ensures enqueued == old(enqueued) + PushOf(step) && prompt == (old(prompt) && OnTime(step, old(Due())))
      ensures deadlines == old(deadlines) + [old(Due())]
      ensures step.Push? ==>
                handed == old(handed) && waiting <= inFlight && taken == old(taken) + Messages(inFlight[|waiting|..])
      ensures step.Push? && step.batch.Some? && Count(step.batch.value) > 0 ==>
                && history == old(history) + [Arrival(step.now, Count(step.batch.value))]
                && recentTotal == SumOf(NotBefore(history, step.now - LOW_LOAD_WINDOW))
      ensures step.Push? ==>
                (buffer.Some? <==>
                 && old(Offered(step.batch)).Some? && recentTotal >= LOW_LOAD_MESSAGE_LIMIT
                 && !(Count(old(Offered(step.batch)).value) >= MAX_BATCH_MESSAGES && recentTotal < HIGH_LOAD_MESSAGE_LIMIT)
                 && step.now - old(First(step.now)) < ComputeDelay(recentTotal))
      ensures step.Push? && buffer.Some? ==>
                buffer == old(Offered(step.batch)) && contexts == old(contexts) + [step.ctx] && inFlight == waiting
      ensures sizeFlushes == old(sizeFlushes) + if step.Push? && recentTotal >= LOW_LOAD_MESSAGE_LIMIT
                                                   && TooFull(old(Offered(step.batch)), recentTotal) then 1 else 0
      ensures step.Push? ==>
                Due() == if buffer.Some? || (old(Offered(step.batch)).None? && recentTotal >= LOW_LOAD_MESSAGE_LIMIT
                                             && step.now - old(First(step.now)) < ComputeDelay(recentTotal))
                         then Deadline(old(First(step.now)) + ComputeDelay(recentTotal), step.later) else None
      ensures step.Push? && buffer.None? ==>
                inFlight == waiting + if recentTotal >= LOW_LOAD_MESSAGE_LIMIT
                                      then Flushed(old(Offered(step.batch)), old(contexts) + [step.ctx])
                                      else Flushed(old(buffer), old(contexts)) + Flushed(step.batch, [step.ctx])
      ensures step.Fire? ==>
                handed == old(handed) && buffer == None && Due() == None
                 && inFlight == waiting + Flushed(old(buffer), old(contexts))
      ensures step.Hand? ==>
                && buffer == old(buffer) && Due() == old(Due())
                && inFlight == (if step.i < |waiting| then waiting[..step.i] + waiting[step.i + 1..] else waiting)
                && handed == old(handed) + if attached && step.i < |waiting| && !waiting[step.i].messages.Empty()
                                           then [waiting[step.i]] else []
      ensures step.Shut? ==> buffer == None && Due() == None && inFlight == waiting
      ensures step.Shut? && old(attached) ==> AllBut(waiting, handed, enqueued)
      ensures step.Shut? && old(attached) ==> handed == HandedLast(old(handed), old(contexts), old(buffer))
      ensures !old(attached) ==> handed == old(handed)
      ensures attached ==> Settled(handed, inFlight, taken, inOrder)
    {
      hide Settled, Conserved, Waiting, Windowed, Armed, Messages, Flushed, Carried, NotBefore, SumOf, ComputeDelay, AllBut,
           PushMessages.Empty, Offered, First, Count;
      ghost var due := Due();
      match step {
        case Push(ctx, batch, now, later) =>
          var out := EnqueueLocked(ctx, batch, now, later);
          if attached { SettledTakes(handed, waiting, old(taken), inOrder, out); }
          inFlight := waiting + out;
        case Fire(now) =>
          var out := OnTimerLocked(now);
          if attached { SettledTakes(handed, waiting, old(taken), inOrder, out); }
          inFlight := waiting + out;
        case Hand(i) =>
          inFlight := HandOver(i, waiting, inOrder);
        case Shut =>
          inFlight := waiting;
          if attached {
            ClosingLeavesOut(handed, waiting, taken, contexts, buffer, enqueued, inOrder);
          }
          Close();
          assert enqueued + [] == enqueued && old(handed) + [] == old(handed);
      }
      deadlines := deadlines + [due];
    }

    /** The handler call for one of the deliveries in flight; without a handler it is dropped. */
    method HandOver(i: nat, waiting: seq<Delivery>, ghost inOrder: bool) returns (inFlight: seq<Delivery>)
      requires (inOrder ==> i == 0) && (attached ==> Settled(handed, waiting, taken, inOrder))
      modifies this`handed
      ensures inFlight == if i < |waiting| then waiting[..i] + waiting[i + 1..] else waiting
      ensures handed == old(handed) + if attached && i < |waiting| && !waiting[i].messages.Empty() then [waiting[i]] else []
      ensures attached ==> Settled(handed, inFlight, taken, inOrder)
    {
      hide Settled;
      inFlight := waiting;
      assert handed + [] == handed;
      if i < |waiting| {
        if attached { SettledHands(handed, waiting, taken, inOrder, i); }
        Dispatch(attached, waiting[i]);
        inFlight := waiting[..i] + waiting[i + 1..];
      }
    }

    lemma ValidConserves()
      requires Valid()
      ensures Conserved(taken, buffer, enqueued)
    {
    }

    /**
     * Any run, the handler calls made in any order after the lock is free. While a handler is attached no message is lost or
     * doubled, and with the oldest call first every line keeps its order; without one nothing is handed over any more. If
     * every step is on time, `dues` being the deadlines before the steps, the buffer never holds more than the window and is
     * never flushed for its size.
     */
    method Run(steps: seq<Step>, waiting: seq<Delivery>, ghost inOrder: bool)
      returns (inFlight: seq<Delivery>, ghost dues: seq<Option<int>>)
      requires Valid() && Clocked(steps, clock) && (inOrder ==> OldestFirst(steps))
      requires attached ==> Settled(handed, waiting, taken, inOrder)
      modifies this
      ensures Valid() && attached == (old(attached) && !Closes(steps)) && enqueued == old(enqueued) + Pushed(steps)
      ensures clock == ClockAfter(steps, old(clock))
      ensures attached ==> Settled(handed, inFlight, taken, inOrder) && NothingLost(handed, inFlight, buffer, enqueued, inOrder)
      ensures attached ==> AreMerged(handed, inFlight, buffer, enqueued)
      ensures !old(attached) ==> handed == old(handed)
      ensures deadlines == old(deadlines) + dues && |dues| == |steps| && (steps != [] ==> dues[0] == old(Due()))
      ensures prompt == (old(prompt) && AllOnTime(steps, dues)) && (prompt ==> NeverFull())
      decreases |steps|
    {
      hide Settled, NothingLost, Clocked, OldestFirst, Pushed, PushOf, InTime, Valid, Held, AllOnTime, OnTime, NeverFull,
           Closes, AllBut, Flushed, Due, HandedLast, AreMerged;
      if steps == [] {
        NothingPushed(enqueued);
        ValidConserves();
        if attached { SettledConserves(handed, waiting, taken, inOrder, buffer, enqueued); }
        if attached { SettledMerges(handed, waiting, taken, inOrder, buffer, enqueued); }
        if prompt { PromptNeverFull(); }
        return waiting, [];
      }
      RunUnfolds(steps, clock, enqueued);
      ghost var due := Due();
      inFlight := TakeStep(steps[0], waiting, inOrder);
      inFlight, dues := Run(steps[1..], inFlight, inOrder);
      assert ([due] + dues)[1..] == dues;
      dues := [due] + dues;
      AllOnTimeUnfolds(steps, dues);
    }

    /**
     * Closing the batcher at any point of a run, and any run after it. What is missing in the end from what was handed over
     * is exactly what waited for its handler call at Close and what was pushed after it: everything that came in was handed
     * over if and only if there was neither.
     */
    method CloseAndAfter(waiting: seq<Delivery>, after: seq<Step>)
      requires Valid() && attached && Clocked(after, clock) && Settled(handed, waiting, taken, false)
      modifies this
      ensures Valid() && !attached && enqueued == old(enqueued) + Pushed(after)
      ensures forall notification: bool, c: string ::
                var came, got := multiset(Flat(enqueued, notification, c)), multiset(Carried(handed, notification, c));
                var lost, late := Carried(waiting, notification, c), Flat(Pushed(after), notification, c);
                && came == got + multiset(lost) + multiset(late)
                && (came == got <==> lost == [] && late == [])
    {
      hide Settled, NothingLost, Clocked, Pushed, Valid, AllOnTime, NeverFull, Closes, AllBut, Flushed, Due, Carried, Flat,
           HandedLast;
      ghost var received := enqueued;
      var inFlight := TakeStep(Shut, waiting, false);
      assert enqueued == received + [] == received;
      var _, _ := Run(after, inFlight, false);
      forall notification: bool, c: string
        ensures var came, got := multiset(Flat(enqueued, notification, c)), multiset(Carried(handed, notification, c));
                var lost, late := Carried(waiting, notification, c), Flat(Pushed(after), notification, c);
                came == got + multiset(lost) + multiset(late) && (came == got <==> lost == [] && late == [])
      {
        MissingAfterClose(waiting, handed, received, Pushed(after), notification, c);
      }
    }
  }

  /**
   * Message 7 and notification 8 pass straight through, and the batcher is closed before the handler call: the call is
   * dropped.
   */
  method CloseLosesOne() returns (b: MessageBatcher)
    ensures b.Valid() && !b.attached && b.buffer.None? && b.handed == []
    ensures Flat(b.enqueued, false, "c") == [7] && Flat(b.enqueued, true, "n_c") == [8]
  {
    hide Settled, AllBut, Carried, Flat, MessageBatcher.Valid, Flushed, Messages, SumOf, ComputeDelay;
    var batch := PushMessages(map["c" := PullMsgs([7], true, 7)], map["n_c" := PullMsgs([8], true, 8)]);
    b := new MessageBatcher(0);
    var inFlight: seq<Delivery> := [];
    NothingSettled();
    TwoMessagesLoad(batch);
    inFlight := b.TakeStep(Push(1, Some(batch), 0, 0), inFlight, true);
    inFlight := b.TakeStep(Shut, inFlight, true);
    inFlight := b.TakeStep(Hand(0), inFlight, true);
    FlatOne(batch, false, "c");
    FlatOne(batch, true, "n_c");
    assert b.enqueued == [batch];
  }

  lemma TwoMessagesLoad(batch: PushMessages)
    requires batch == PushMessages(map["c" := PullMsgs([7], true, 7)], map["n_c" := PullMsgs([8], true, 8)])
    ensures Count(batch) == 2
    ensures SumOf(NotBefore([] + [Arrival(0, 2)], 0 - LOW_LOAD_WINDOW)) == 2
  {
    CountOne("c", batch.msgs["c"]);
    CountOne("n_c", batch.notificationMsgs["n_c"]);
    CountMerge(PushMessages(batch.msgs, map[]), PushMessages(map[], batch.notificationMsgs));
    assert Merge(PushMessages(batch.msgs, map[]), PushMessages(map[], batch.notificationMsgs)) == batch;
  }

  lemma NothingSettled()
    ensures Settled([], [], [], true)
  {
  }
}

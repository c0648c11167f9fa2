/**
 * The message syncer: per-conversation marks of what has been synced, direct delivery of gapless pushes, and batched range
 * pulls for everything else.
 */
module Syncing {
  import opened Basics

  const CONNECT_PULL_NUMS := 1
  const DEFAULT_PULL_NUMS := 10
  const SPLIT_PULL_MSG_NUM := 100

  datatype SeqRange = SeqRange(begin: int, end: int)

  /**
   * One range request: the conversations in the order they were put into it, their ranges, how many messages it asks for of
   * each, and whether it was answered.
   */
  datatype Pull = Pull(conversations: seq<string>, ranges: map<string, SeqRange>, num: int, ok: bool)

  predicate IsNotification(conversationId: string) {
    "n_" <= conversationId
  }

  /** The numbers `a, a+1, .., b`. */
  function Numbers(a: int, b: int): seq<int>
    decreases b - a
  {
    if b < a then [] else Numbers(a, b - 1) + [b]
  }

  lemma {:induction false} NumbersAre(a: int, b: int)
    ensures |Numbers(a, b)| == if a <= b then b - a + 1 else 0
    ensures forall i | 0 <= i < |Numbers(a, b)| :: Numbers(a, b)[i] == a + i
    decreases b - a
  {
    if a <= b { NumbersAre(a, b - 1); }
  }

  lemma {:induction false} NumbersJoin(a: int, b: int, c: int)
    requires a <= b + 1 <= c + 1
    ensures Numbers(a, b) + Numbers(b + 1, c) == Numbers(a, c)
    decreases c - b
  {
    if b == c {
      assert Numbers(a, b) + [] == Numbers(a, b);
    } else {
      NumbersJoin(a, b, c - 1);
      assert Numbers(a, b) + (Numbers(b + 1, c - 1) + [c]) == Numbers(a, b) + Numbers(b + 1, c - 1) + [c];
    }
  }

  /** A range that begins right after the mark; it may begin at 0 when the mark is 0. */
  ghost predicate Follows(range: SeqRange, mark: int) {
    range.end > mark && (range.begin == mark + 1 || (mark == 0 && range.begin == 0))
  }

  /** The numbers of a range; they begin at 1. */
  ghost function Covered(range: SeqRange): seq<int> {
    Numbers(if range.begin < 1 then 1 else range.begin, range.end)
  }

  /** Once the delivered numbers are wrong nothing appended to them makes them right again. */
  lemma TilesJoin(a: int, b: int, c: int, had: seq<int>, more: seq<int>)
    requires a <= b <= c && |had| == b - a && |more| == c - b
    ensures |had + more| == c - a
    ensures had + more == Numbers(a + 1, c) <==> had == Numbers(a + 1, b) && more == Numbers(b + 1, c)
  {
    hide Numbers;
    NumbersAre(a + 1, b);
    NumbersJoin(a + 1, b, c);
    var first, second := Numbers(a + 1, b), Numbers(b + 1, c);
    assert had == (had + more)[..b - a] && more == (had + more)[b - a..];
    assert first == (first + second)[..b - a] && second == (first + second)[b - a..];
  }

  /** As many numbers as the mark has moved, and the right ones exactly when nothing was mistaken. */
  ghost predicate Accounts(delivered: seq<int>, initial: int, mark: int, mistaken: bool) {
    && 0 <= initial <= mark
    && |delivered| == mark - initial
    && (delivered == Numbers(initial + 1, mark) <==> !mistaken)
  }

  lemma AccountsGrow(delivered: seq<int>, initial: int, mark: int, mistaken: bool, more: seq<int>, reached: int)
    requires Accounts(delivered, initial, mark, mistaken) && mark <= reached && |more| == reached - mark
    ensures Accounts(delivered + more, initial, reached, mistaken || more != Numbers(mark + 1, reached))
  {
    hide Numbers;
    TilesJoin(initial, mark, reached, delivered, more);
  }

  lemma AccountsPulled(delivered: seq<int>, initial: int, mark: int, mistaken: bool, range: SeqRange)
    requires Accounts(delivered, initial, mark, mistaken) && Follows(range, mark)
    ensures Accounts(delivered + Covered(range), initial, range.end, mistaken)
  {
    hide Numbers;
    NumbersAre(mark + 1, range.end);
    AccountsGrow(delivered, initial, mark, mistaken, Covered(range), range.end);
  }

  /** Numbers above a mark, ascending: the count reaches from the mark to the last one exactly when there is no gap. */
  lemma GaplessIff(seqs: seq<int>, mark: int)
    requires Ascending(seqs) && seqs != [] && seqs[0] > mark
    ensures seqs[|seqs| - 1] == mark + |seqs| <==> seqs == Numbers(mark + 1, seqs[|seqs| - 1])
  {
    NumbersAre(mark + 1, seqs[|seqs| - 1]);
    forall i | 0 <= i < |seqs|
      ensures seqs[i] >= mark + 1 + i && seqs[|seqs| - 1] - seqs[i] >= |seqs| - 1 - i
    {
      AscendingSpread(seqs, 0, i);
      AscendingSpread(seqs, i, |seqs| - 1);
    }
  }

  /**
   * A push whose last number equals the mark plus its length is taken for gapless. For ascending numbers it is gapless
   * exactly when its first number is above the mark.
   */
  lemma DirectDeliveryRightIff(seqs: seq<int>, mark: int)
    requires Ascending(seqs) && seqs != [] && seqs[|seqs| - 1] == mark + |seqs|
    ensures seqs == Numbers(mark + 1, mark + |seqs|) <==> seqs[0] > mark
  {
    NumbersAre(mark + 1, mark + |seqs|);
    if seqs[0] > mark { GaplessIff(seqs, mark); }
  }

  /** Counting alone is not enough: 4, 5, 8 on top of mark 5 passes for 6, 7, 8. */
  lemma DirectDeliveryWithGap()
    ensures var seqs, mark := [4, 5, 8], 5;
            Ascending(seqs) && seqs[|seqs| - 1] == mark + |seqs| && 6 !in seqs && 7 !in seqs
  {
  }

  /** The mark of a conversation; Go's zero value when there is none. */
  function MarkIn(marks: map<string, int>, conversationId: string): int {
    if conversationId in marks then marks[conversationId] else 0
  }

  /** The marks that the given conversations reach when their ranges are answered. */
  function Ends(ranges: map<string, SeqRange>, conversations: set<string>): map<string, int>
    requires conversations <= ranges.Keys
  {
    map c | c in conversations :: ranges[c].end
  }

  lemma EndsJoin(marks: map<string, int>, ranges: map<string, SeqRange>, done: set<string>, batch: map<string, SeqRange>)
    requires done <= ranges.Keys && forall c | c in batch :: c in ranges && batch[c] == ranges[c]
    ensures marks + Ends(ranges, done) + Ends(batch, batch.Keys) == marks + Ends(ranges, done + batch.Keys)
  {
  }

  lemma NoEnds(marks: map<string, int>, ranges: map<string, SeqRange>)
    ensures marks + Ends(ranges, {}) == marks
  {
  }

  /** What one conversation adds to the size estimate of a pull. */
  function Cost(conversationId: string, range: SeqRange, syncMsgNum: int): int {
    var n := range.end - range.begin + 1;
    if IsNotification(conversationId) || n < syncMsgNum then n else syncMsgNum
  }

  ghost function Estimate(conversations: seq<string>, ranges: map<string, SeqRange>, syncMsgNum: int): int
    requires forall c | c in conversations :: c in ranges
  {
    if conversations == [] then 0
    else
      var last := conversations[|conversations| - 1];
      Estimate(conversations[..|conversations| - 1], ranges, syncMsgNum) + Cost(last, ranges[last], syncMsgNum)
  }

  /** How many numbers the ranges of the conversations hold. */
  ghost function TotalSize(conversations: seq<string>, ranges: map<string, SeqRange>): int
    requires forall c | c in conversations :: c in ranges
  {
    if conversations == [] then 0
    else
      var last := conversations[|conversations| - 1];
      TotalSize(conversations[..|conversations| - 1], ranges) + ranges[last].end - ranges[last].begin + 1
  }

  /** Notification conversations, and regular ones of few numbers, count for their whole ranges. */
  lemma {:induction false} SmallCountWhole(conversations: seq<string>, ranges: map<string, SeqRange>, syncMsgNum: int)
    requires forall c | c in conversations ::
               c in ranges && ("n_" <= c || ranges[c].end - ranges[c].begin < syncMsgNum)
    ensures Estimate(conversations, ranges, syncMsgNum) == TotalSize(conversations, ranges)
  {
    if conversations != [] {
      var init, last := conversations[..|conversations| - 1], conversations[|conversations| - 1];
      assert conversations == init + [last];
      SmallCountWhole(init, ranges, syncMsgNum);
    }
  }

  /** Other regular conversations count for the number of messages that is asked for of each. */
  lemma {:induction false} LargeCountAsAsked(conversations: seq<string>, ranges: map<string, SeqRange>, syncMsgNum: int)
    requires forall c | c in conversations ::
               c in ranges && !("n_" <= c) && ranges[c].end - ranges[c].begin + 1 >= syncMsgNum
    ensures Estimate(conversations, ranges, syncMsgNum) == |conversations| * syncMsgNum
  {
    if conversations != [] {
      var init, last := conversations[..|conversations| - 1], conversations[|conversations| - 1];
      assert conversations == init + [last];
      LargeCountAsAsked(init, ranges, syncMsgNum);
      assert |conversations| * syncMsgNum == |init| * syncMsgNum + syncMsgNum;
    }
  }

  lemma {:induction false} EstimateHolds(conversations: seq<string>, ranges: map<string, SeqRange>, syncMsgNum: int)
    requires syncMsgNum > 0
    requires forall c | c in conversations :: c in ranges && ranges[c].begin <= ranges[c].end
    ensures Estimate(conversations, ranges, syncMsgNum) >= 0
    ensures forall i | 0 <= i < |conversations| && IsNotification(conversations[i]) ::
              Estimate(conversations, ranges, syncMsgNum)
              >= ranges[conversations[i]].end - ranges[conversations[i]].begin + 1
  {
    if conversations != [] {
      var init, last := conversations[..|conversations| - 1], conversations[|conversations| - 1];
      assert conversations == init + [last];
      EstimateHolds(init, ranges, syncMsgNum);
      assert forall i | 0 <= i < |init| :: init[i] == conversations[i];
    }
  }

  /**
   * A batch of regular conversations stays under the limit plus one conversation; a notification conversation of a hundred
   * numbers or more is the last of its batch.
   */
  lemma BatchLimits(conversations: seq<string>, ranges: map<string, SeqRange>, syncMsgNum: int)
    requires SizeLimited(conversations, ranges, syncMsgNum) && syncMsgNum > 0
    requires forall c | c in conversations :: ranges[c].begin <= ranges[c].end
    ensures (forall c | c in conversations :: !IsNotification(c)) ==>
              Estimate(conversations, ranges, syncMsgNum) < SPLIT_PULL_MSG_NUM + syncMsgNum
    ensures forall i | 0 <= i < |conversations| - 1 && IsNotification(conversations[i]) ::
              ranges[conversations[i]].end - ranges[conversations[i]].begin + 1 < SPLIT_PULL_MSG_NUM
  {
    var init, last := conversations[..|conversations| - 1], conversations[|conversations| - 1];
    assert conversations == init + [last];
    EstimateHolds(init, ranges, syncMsgNum);
    assert forall i | 0 <= i < |init| :: init[i] == conversations[i];
  }

  /** The conversations of a list of pulls, in order. */
  ghost function Asked(pulls: seq<Pull>): seq<string> {
    if pulls == [] then [] else Asked(pulls[..|pulls| - 1]) + pulls[|pulls| - 1].conversations
  }

  /** The conversations of the answered pulls. */
  ghost function Served(pulls: seq<Pull>): set<string> {
    if pulls == [] then {}
    else
      var last := pulls[|pulls| - 1];
      Served(pulls[..|pulls| - 1]) + if last.ok then set c | c in last.conversations else {}
  }

  ghost predicate AllAnswered(pulls: seq<Pull>) {
    forall i | 0 <= i < |pulls| :: pulls[i].ok
  }

  /** Batches that have reached the size at which a request is made. */
  ghost predicate Full(pulls: seq<Pull>, ranges: map<string, SeqRange>, syncMsgNum: int) {
    forall i | 0 <= i < |pulls| ::
      && (forall c | c in pulls[i].conversations :: c in ranges)
      && Estimate(pulls[i].conversations, ranges, syncMsgNum) >= SPLIT_PULL_MSG_NUM
  }

  /** Conversations of a batch that is not empty and had not reached that size before its last one. */
  ghost predicate SizeLimited(conversations: seq<string>, ranges: map<string, SeqRange>, syncMsgNum: int) {
    && conversations != [] && (forall c | c in conversations :: c in ranges)
    && Estimate(conversations[..|conversations| - 1], ranges, syncMsgNum) < SPLIT_PULL_MSG_NUM
  }

  ghost predicate Limited(pulls: seq<Pull>, ranges: map<string, SeqRange>, syncMsgNum: int) {
    forall i | 0 <= i < |pulls| :: SizeLimited(pulls[i].conversations, ranges, syncMsgNum)
  }

  /** The request asks for the ranges of its conversations. */
  ghost predicate AsksFor(pull: Pull, ranges: map<string, SeqRange>, syncMsgNum: int) {
    && pull.num == syncMsgNum && (forall c :: c in pull.ranges <==> c in pull.conversations)
    && forall c | c in pull.ranges :: c in ranges && pull.ranges[c] == ranges[c]
  }

  /** The batches of one sync: each conversation in one batch only, all but the last full, all of limited size. */
  ghost predicate Batches(pulls: seq<Pull>, ranges: map<string, SeqRange>, syncMsgNum: int) {
    && Distinct(Asked(pulls)) && (forall c | c in Asked(pulls) :: c in ranges)
    && (pulls != [] ==> Full(pulls[..|pulls| - 1], ranges, syncMsgNum))
    && Limited(pulls, ranges, syncMsgNum)
    && forall i | 0 <= i < |pulls| :: AsksFor(pulls[i], ranges, syncMsgNum)
  }

  /** How a sync ends: with all batches answered, or at the first that is not; `done` are the conversations answered. */
  ghost predicate Outcome(pulls: seq<Pull>, ranges: map<string, SeqRange>, syncMsgNum: int, ok: bool, done: set<string>) {
    && Batches(pulls, ranges, syncMsgNum) && done == Served(pulls)
    && if ok then AllAnswered(pulls)
       else pulls != [] && !pulls[|pulls| - 1].ok && AllAnswered(pulls[..|pulls| - 1])
  }

  /**
   * A command with the server's answer to the query it makes, `None` when the query fails. SyncWindowOver is the end of the
   * five seconds in which a second sync is ignored.
   */
  datatype Command =
    | ConnSuccess(maxSeqs: Option<map<string, int>>)
    | WakeUpDataSync(maxSeqs: Option<map<string, int>>)
    | IMMessageSync(maxSeqs: Option<map<string, int>>)
    | PushMsg(messages: map<string, seq<int>>, notifications: map<string, seq<int>>)
    | SyncWindowOver
  {
    /** Maxima are not negative. */
    ghost predicate FromServer() {
      match this
      case PushMsg(_, _) => true
      case SyncWindowOver => true
      case _ => maxSeqs.Some? ==> forall c | c in maxSeqs.value :: maxSeqs.value[c] >= 0
    }
  }

  /** The mark between the messages and the notifications of a push when all requests are answered. */
  ghost function MiddleMark(cmd: Command, conversationId: string, mark: int): int {
    if cmd.PushMsg? && conversationId in cmd.messages then PushedMark(cmd.messages[conversationId], mark) else mark
  }

  /** The mark of a conversation after a command when all requests are answered. */
  ghost function CaughtUp(cmd: Command, syncing: bool, conversationId: string, mark: int): int {
    match cmd
    case PushMsg(messages, notifications) =>
      var middle := MiddleMark(cmd, conversationId, mark);
      if conversationId in notifications then PushedMark(notifications[conversationId], middle) else middle
    case SyncWindowOver => mark
    case _ =>
      if (syncing && !cmd.IMMessageSync?) || cmd.maxSeqs.None? || conversationId !in cmd.maxSeqs.value then mark
      else if cmd.maxSeqs.value[conversationId] > mark then cmd.maxSeqs.value[conversationId] else mark
  }

  /** Whether a sync is going on after a command. */
  ghost function Syncs(cmd: Command, syncing: bool): bool {
    match cmd
    case ConnSuccess(_) => true
    case WakeUpDataSync(_) => true
    case SyncWindowOver => false
    case _ => syncing
  }

  ghost function SyncsAfter(cmds: seq<Command>, syncing: bool): bool {
    if cmds == [] then syncing else Syncs(cmds[|cmds| - 1], SyncsAfter(cmds[..|cmds| - 1], syncing))
  }

  ghost function MarkAfter(cmds: seq<Command>, syncing: bool, conversationId: string, mark: int): int {
    if cmds == [] then mark
    else
      var before := cmds[..|cmds| - 1];
      CaughtUp(cmds[|cmds| - 1], SyncsAfter(before, syncing), conversationId, MarkAfter(before, syncing, conversationId, mark))
  }

  /** The command brings the number `n` of the conversation: as the last one pushed or as the server's maximum. */
  ghost predicate Brings(cmd: Command, c: string, n: int) {
    match cmd
    case PushMsg(messages, notifications) =>
      || (c in messages && exists i :: LastAt(messages[c], i) && messages[c][i] == n)
      || (c in notifications && exists i :: LastAt(notifications[c], i) && notifications[c][i] == n)
    case SyncWindowOver => false
    case _ => cmd.maxSeqs.Some? && c in cmd.maxSeqs.value && cmd.maxSeqs.value[c] == n
  }

  /** Before command `n` a sync was started and its window is not over; at the start that is `syncing`. */
  ghost predicate WindowOpen(cmds: seq<Command>, n: nat, syncing: bool)
    requires n <= |cmds|
  {
    || (syncing && forall k | 0 <= k < n :: !cmds[k].SyncWindowOver?)
    || exists j :: 0 <= j < n && (cmds[j].ConnSuccess? || cmds[j].WakeUpDataSync?)
                   && forall k | j < k < n :: !cmds[k].SyncWindowOver?
  }

  /** A sync command that is ignored because another one is going on. */
  ghost predicate Ignored(cmds: seq<Command>, n: nat, syncing: bool)
    requires n < |cmds|
  {
    (cmds[n].ConnSuccess? || cmds[n].WakeUpDataSync?) && WindowOpen(cmds, n, syncing)
  }

  lemma {:induction false} SyncsIffWindowOpen(cmds: seq<Command>, n: nat, syncing: bool)
    requires n <= |cmds|
    ensures SyncsAfter(cmds[..n], syncing) <==> WindowOpen(cmds, n, syncing)
  {
    if n > 0 {
      SyncsIffWindowOpen(cmds, n - 1, syncing);
      assert cmds[..n][..n - 1] == cmds[..n - 1] && cmds[..n][n - 1] == cmds[n - 1];
      if WindowOpen(cmds, n - 1, syncing) && !cmds[n - 1].SyncWindowOver? {
        assert WindowOpen(cmds, n, syncing);
      }
    }
  }

  lemma PushReaches(pushes: map<string, seq<int>>, c: string, mark: int)
    requires c in pushes
    ensures forall i | LastAt(pushes[c], i) :: pushes[c][i] <= PushedMark(pushes[c], mark)
    ensures PushedMark(pushes[c], mark) == mark
            || exists i :: LastAt(pushes[c], i) && pushes[c][i] == PushedMark(pushes[c], mark)
  {
    hide PushedMark, ReachesLast;
    forall i | LastAt(pushes[c], i)
      ensures PushedMark(pushes[c], mark) == if pushes[c][i] > mark then pushes[c][i] else mark
    {
      LastDecides(pushes[c], i, mark);
    }
    if forall i :: !LastAt(pushes[c], i) { NothingNumbered(pushes[c], mark); }
  }

  /** A command that is not ignored takes a mark to the highest number it brings, or leaves it. */
  lemma CaughtUpIsHighest(cmd: Command, syncing: bool, c: string, mark: int)
    ensures var reached := CaughtUp(cmd, syncing, c, mark);
            && reached >= mark
            && (cmd.IMMessageSync? || cmd.PushMsg? || !syncing ==> forall n | Brings(cmd, c, n) :: n <= reached)
            && (reached == mark
                || (Brings(cmd, c, reached) && (cmd.IMMessageSync? || cmd.PushMsg? || !syncing)))
  {
    hide PushedMark;
    if cmd.PushMsg? {
      var middle := MiddleMark(cmd, c, mark);
      if c in cmd.messages { PushReaches(cmd.messages, c, mark); }
      if c in cmd.notifications { PushReaches(cmd.notifications, c, middle); }
    }
  }

  /**
   * With an answering server the mark after a run is the highest of the mark before it and of all numbers that its commands
   * bring, those ignored during a sync aside.
   */
  lemma {:induction false} MarkIsHighest(cmds: seq<Command>, n: nat, syncing: bool, c: string, mark: int)
    requires n <= |cmds|
    ensures var reached := MarkAfter(cmds[..n], syncing, c, mark);
            && reached >= mark
            && (forall i, m | 0 <= i < n && Brings(cmds[i], c, m) && !Ignored(cmds, i, syncing) :: m <= reached)
            && (reached == mark || exists i :: 0 <= i < n && Brings(cmds[i], c, reached) && !Ignored(cmds, i, syncing))
  {
    hide CaughtUp, WindowOpen, Brings;
    if n > 0 {
      MarkIsHighest(cmds, n - 1, syncing, c, mark);
      SyncsIffWindowOpen(cmds, n - 1, syncing);
      assert cmds[..n][..n - 1] == cmds[..n - 1] && cmds[..n][n - 1] == cmds[n - 1];
      CaughtUpIsHighest(cmds[n - 1], SyncsAfter(cmds[..n - 1], syncing), c, MarkAfter(cmds[..n - 1], syncing, c, mark));
      WindowOverBringsNothing(cmds[n - 1], c);
    }
  }

  lemma WindowOverBringsNothing(cmd: Command, c: string)
    ensures cmd.SyncWindowOver? ==> forall n :: !Brings(cmd, c, n)
  {
  }

  /** Where one part of a push may take a mark: direct delivery always moves it, a pull only when it is answered. */
  ghost predicate PushMoves(pushes: map<string, seq<int>>, c: string, from: int, to: int) {
    if c !in pushes then to == from
    else if ReachesLast(pushes[c], from) then to == PushedMark(pushes[c], from)
    else to == from || to == PushedMark(pushes[c], from)
  }

  /** Where a command may take a mark, `middle` being the mark between the two parts of a push. */
  ghost predicate Moves(cmd: Command, syncing: bool, c: string, from: int, middle: int, to: int) {
    match cmd
    case PushMsg(messages, notifications) => PushMoves(messages, c, from, middle) && PushMoves(notifications, c, middle, to)
    case _ => middle == from && (to == from || to == CaughtUp(cmd, syncing, c, from))
  }

  /** The command hands on a push of the conversation that is mistaken for gapless. */
  ghost predicate Mistakes(cmd: Command, c: string, mark: int, middle: int) {
    && cmd.PushMsg?
    && ((c in cmd.messages && Mistaken(cmd.messages[c], mark))
        || (c in cmd.notifications && Mistaken(cmd.notifications[c], middle)))
  }

  /** What the command pushes for the conversation is consecutive, all above the mark, or old. */
  ghost predicate PushesSafely(cmd: Command, c: string, mark: int, middle: int) {
    cmd.PushMsg? ==>
      && (c in cmd.messages ==> Safe(cmd.messages[c], mark))
      && (c in cmd.notifications ==> Safe(cmd.notifications[c], middle))
  }

  lemma SafeIsNoMistake(cmd: Command, c: string, mark: int, middle: int)
    ensures PushesSafely(cmd, c, mark, middle) ==> !Mistakes(cmd, c, mark, middle)
  {
    hide Safe, Mistaken;
    if cmd.PushMsg? {
      if c in cmd.messages { SafeIsNotMistaken(cmd.messages[c], mark); }
      if c in cmd.notifications { SafeIsNotMistaken(cmd.notifications[c], middle); }
    }
  }

  /** The marks of a run: before each command, between the parts of each push, and at the end. */
  ghost predicate Traced(cmds: seq<Command>, syncing: bool, marks: seq<map<string, int>>, middles: seq<map<string, int>>) {
    && |marks| == |cmds| + 1 && |middles| == |cmds|
    && forall i, c: string | 0 <= i < |cmds| ::
         Moves(cmds[i], SyncsAfter(cmds[..i], syncing), c, MarkIn(marks[i], c), MarkIn(middles[i], c), MarkIn(marks[i + 1], c))
  }

  /** Some command of a run mistakes a push of the conversation. */
  ghost predicate SomeMistakes(cmds: seq<Command>, marks: seq<map<string, int>>, middles: seq<map<string, int>>, c: string)
    requires |marks| > |cmds| && |middles| >= |cmds|
  {
    exists i :: 0 <= i < |cmds| && Mistakes(cmds[i], c, MarkIn(marks[i], c), MarkIn(middles[i], c))
  }

  /** The same for a run whose requests are all answered, from the first mark alone. */
  ghost predicate EverMistakes(cmds: seq<Command>, syncing: bool, c: string, mark: int) {
    cmds != [] &&
    var before, cmd := cmds[..|cmds| - 1], cmds[|cmds| - 1];
    var reached := MarkAfter(before, syncing, c, mark);
    EverMistakes(before, syncing, c, mark) || Mistakes(cmd, c, reached, MiddleMark(cmd, c, reached))
  }

  lemma TraceGrows(cmds: seq<Command>, i: nat, syncing: bool, marks: seq<map<string, int>>, middles: seq<map<string, int>>,
                   middle: map<string, int>, after: map<string, int>)
    requires i < |cmds| && Traced(cmds[..i], syncing, marks, middles)
    requires forall c: string ::
               Moves(cmds[i], SyncsAfter(cmds[..i], syncing), c, MarkIn(marks[i], c), MarkIn(middle, c), MarkIn(after, c))
    ensures Traced(cmds[..i + 1], syncing, marks + [after], middles + [middle])
  {
    hide Moves, MarkIn, SyncsAfter;
    var longer, before := cmds[..i + 1], cmds[..i];
    assert forall k | 0 <= k <= i :: longer[..k] == cmds[..k];
    assert forall k | 0 <= k < i :: before[..k] == cmds[..k] && longer[k] == before[k];
  }

  lemma MistakesGrow(cmds: seq<Command>, i: nat, marks: seq<map<string, int>>, middles: seq<map<string, int>>,
                     middle: map<string, int>, after: map<string, int>)
    requires i < |cmds| && |marks| == i + 1 && |middles| == i
    ensures forall c: string :: SomeMistakes(cmds[..i + 1], marks + [after], middles + [middle], c)
              <==> SomeMistakes(cmds[..i], marks, middles, c) || Mistakes(cmds[i], c, MarkIn(marks[i], c), MarkIn(middle, c))
  {
    hide Mistakes, MarkIn;
    var longer, before, moreMarks, moreMiddles := cmds[..i + 1], cmds[..i], marks + [after], middles + [middle];
    assert forall k | 0 <= k < i ::
        longer[k] == before[k] && moreMarks[k] == marks[k] && moreMiddles[k] == middles[k];
    assert longer[i] == cmds[i] && moreMarks[i] == marks[i] && moreMiddles[i] == middle;
    forall c: string
      ensures SomeMistakes(longer, moreMarks, moreMiddles, c)
              <==> SomeMistakes(before, marks, middles, c)
                   || Mistakes(longer[i], c, MarkIn(moreMarks[i], c), MarkIn(moreMiddles[i], c))
    {
      if SomeMistakes(before, marks, middles, c) {
        var k :| 0 <= k < i && Mistakes(before[k], c, MarkIn(marks[k], c), MarkIn(middles[k], c));
        assert Mistakes(longer[k], c, MarkIn(moreMarks[k], c), MarkIn(moreMiddles[k], c));
      }
    }
  }

  lemma NoSteps(syncing: bool, marks: map<string, int>)
    ensures Traced([], syncing, [marks], []) && forall c: string :: !SomeMistakes([], [marks], [], c)
  {
  }

  /** A run whose pushes of the conversation are consecutive, or ascending and all above the mark of the time or old by then. */
  ghost predicate SafeRun(cmds: seq<Command>, marks: seq<map<string, int>>, middles: seq<map<string, int>>, c: string)
    requires |marks| > |cmds| && |middles| >= |cmds|
  {
    forall i | 0 <= i < |cmds| :: PushesSafely(cmds[i], c, MarkIn(marks[i], c), MarkIn(middles[i], c))
  }

  lemma SafeRunMistakesNothing(cmds: seq<Command>, marks: seq<map<string, int>>, middles: seq<map<string, int>>, c: string)
    requires |marks| > |cmds| && |middles| >= |cmds|
    requires SafeRun(cmds, marks, middles, c)
    ensures !SomeMistakes(cmds, marks, middles, c)
  {
    hide PushesSafely, Mistakes, MarkIn;
    forall i | 0 <= i < |cmds|
      ensures !Mistakes(cmds[i], c, MarkIn(marks[i], c), MarkIn(middles[i], c))
    {
      SafeIsNoMistake(cmds[i], c, MarkIn(marks[i], c), MarkIn(middles[i], c));
    }
  }

  /** The same for a run whose requests are all answered. */
  lemma {:induction false} SafeAnsweredRunMistakesNothing(cmds: seq<Command>, syncing: bool, c: string, mark: int)
    requires forall i | 0 <= i < |cmds| ::
               var reached := MarkAfter(cmds[..i], syncing, c, mark);
               PushesSafely(cmds[i], c, reached, MiddleMark(cmds[i], c, reached))
    ensures !EverMistakes(cmds, syncing, c, mark)
  {
    if cmds != [] {
      var before, cmd := cmds[..|cmds| - 1], cmds[|cmds| - 1];
      assert forall i | 0 <= i < |before| :: before[..i] == cmds[..i] && before[i] == cmds[i];
      SafeAnsweredRunMistakesNothing(before, syncing, c, mark);
      var reached := MarkAfter(before, syncing, c, mark);
      SafeIsNoMistake(cmd, c, reached, MiddleMark(cmd, c, reached));
    }
  }

  ghost predicate Block(seqs: seq<int>) {
    forall i | 0 <= i < |seqs| :: seqs[i] == seqs[0] + i
  }

  class MsgSyncer {
    var syncedMaxSeqs: map<string, int>
    var isSyncing: bool
    /** Whether the n-th request to the server is answered. */
    const answered: nat -> bool
    var requests: nat

    /**
     * The marks at the start; the numbers handed on or covered by an answered range since, per conversation and in order;
     * the conversations with a push that was taken for gapless and was not; all range requests.
     */
    ghost const initial: map<string, int>
    ghost var delivered: map<string, seq<int>>
    ghost var mistaken: set<string>
    ghost var pulls: seq<Pull>

    constructor (marks: map<string, int>, answered: nat -> bool)
      requires forall c | c in marks :: marks[c] >= 0
      ensures Valid() && syncedMaxSeqs == initial == marks && delivered == map[] && mistaken == {} && pulls == []
    {
      this.answered, requests, isSyncing := answered, 0, false;
      syncedMaxSeqs, initial, delivered, mistaken, pulls := marks, marks, map[], {}, [];
    }

    function Mark(conversationId: string): int
      reads this`syncedMaxSeqs
    {
      MarkIn(syncedMaxSeqs, conversationId)
    }

    ghost function Initial(conversationId: string): int {
      MarkIn(initial, conversationId)
    }

    ghost function Delivered(conversationId: string): seq<int>
      reads this`delivered
    {
      if conversationId in delivered then delivered[conversationId] else []
    }

    /** Every number above the initial mark up to the current one has been delivered, once and in order. */
    ghost predicate Tiled(conversationId: string)
      reads this`syncedMaxSeqs, this`delivered
    {
      Delivered(conversationId) == Numbers(Initial(conversationId) + 1, Mark(conversationId))
    }

    ghost predicate Accounted(c: string)
      reads this`syncedMaxSeqs, this`delivered, this`mistaken
    {
      Accounts(Delivered(c), Initial(c), Mark(c), c in mistaken)
    }

    ghost predicate Valid()
      reads this`syncedMaxSeqs, this`delivered, this`mistaken
    {
      forall c: string :: Accounted(c)
    }

    /** Every request from the n-th on is answered. */
    ghost predicate AnsweredFrom(n: nat) {
      forall k: nat | k >= n :: answered(k)
    }

    /** A range to ask for. */
    ghost predicate Wanted(conversationId: string, range: SeqRange)
      reads this`syncedMaxSeqs
    {
      Follows(range, Mark(conversationId))
    }

    method PullMsgBySeqRange(batch: map<string, SeqRange>, syncMsgNum: int, ghost group: seq<string>) returns (ok: bool)
      modifies this`requests, this`pulls
      ensures requests == old(requests) + 1 && ok == answered(old(requests))
      ensures pulls == old(pulls) + [Pull(group, batch, syncMsgNum, ok)]
    {
      ok := answered(requests);
      requests := requests + 1;
      pulls := pulls + [Pull(group, batch, syncMsgNum, ok)];
    }

    /** The marks of an answered batch move to the ends of its ranges, and the ranges count as delivered. */
    method Advance(batch: map<string, SeqRange>)
      requires Valid() && forall c | c in batch :: Wanted(c, batch[c])
      modifies this`syncedMaxSeqs, this`delivered
      ensures Valid()
      ensures syncedMaxSeqs == old(syncedMaxSeqs) + Ends(batch, batch.Keys)
    {
      hide Accounts, Covered, Follows;
      ghost var got := map c | c in batch :: Delivered(c) + Covered(batch[c]);
      forall c | c in batch
        ensures Accounts(got[c], Initial(c), batch[c].end, c in mistaken)
      {
        assert Accounted(c) && Wanted(c, batch[c]);
        AccountsPulled(Delivered(c), Initial(c), Mark(c), c in mistaken, batch[c]);
      }
      assert forall c: string | c !in batch :: Accounted(c);
      syncedMaxSeqs := syncedMaxSeqs + Ends(batch, batch.Keys);
      delivered := delivered + got;
      forall c: string
        ensures Accounted(c)
      {
        if c !in batch {
          assert old(Accounted(c));
        }
      }
    }

    /**
     * Pulls every range of the map in batches, for any iteration order of the map. `done` are the conversations of the
     * answered batches: all of them on success; on failure those of the batches in front of the failed one.
     */
    method SyncAndTriggerMsgs(seqMap: map<string, SeqRange>, syncMsgNum: int) returns (ok: bool, ghost done: set<string>)
      requires Valid() && syncMsgNum > 0 && forall c | c in seqMap :: Wanted(c, seqMap[c])
      modifies this`syncedMaxSeqs, this`delivered, this`requests, this`pulls
      ensures Valid()
      ensures requests >= old(requests) && (AnsweredFrom(old(requests)) ==> ok)
      ensures done <= seqMap.Keys && (ok ==> done == seqMap.Keys)
      ensures syncedMaxSeqs == old(syncedMaxSeqs) + Ends(seqMap, done)
      ensures old(pulls) <= pulls
      ensures Outcome(pulls[|old(pulls)|..], seqMap, syncMsgNum, ok, done)
    {
      hide Partway, Accounted, Wanted, Ends, Outcome;
      ok, done := true, {};
      ghost var batches: seq<Pull>, marks, before := [], syncedMaxSeqs, pulls;
      NoBatches(seqMap, syncMsgNum);
      NoEnds(syncedMaxSeqs, seqMap);
      PullsSince(pulls, batches);
      if |seqMap| == 0 {
        return;
      }
      var tempSeqMap: map<string, SeqRange>, msgNum := map[], 0;
      ghost var group: seq<string> := [];
      var remaining := seqMap.Keys;
      while remaining != {}
        invariant ok && requests >= old(requests) && remaining <= seqMap.Keys && msgNum < SPLIT_PULL_MSG_NUM
        invariant Partway(batches, group, tempSeqMap, remaining, done, seqMap, msgNum, syncMsgNum)
        invariant Synced(seqMap, marks, before, batches, done)
        decreases remaining
      {
        var k :| k in remaining;
        var newMsgNum := msgNum + Cost(k, seqMap[k], syncMsgNum);
        TakesOne(batches, group, tempSeqMap, remaining, done, seqMap, msgNum, newMsgNum, syncMsgNum, k);
        remaining := remaining - {k};
        tempSeqMap := tempSeqMap[k := seqMap[k]];
        group := group + [k];
        msgNum := newMsgNum;
        if msgNum >= SPLIT_PULL_MSG_NUM {
          ok := PullGroup(tempSeqMap, batches, group, remaining, done, seqMap, msgNum, syncMsgNum, marks, before);
          batches := batches + [Pull(group, tempSeqMap, syncMsgNum, ok)];
          if !ok {
            PullsSince(before, batches);
            return;
          }
          done := done + tempSeqMap.Keys;
          tempSeqMap, msgNum, group := map[], 0, [];
        }
      }
      BatchFacts(batches, group, tempSeqMap, remaining, done, seqMap, msgNum, syncMsgNum, marks);
      if |tempSeqMap| > 0 {
        ok := PullGroup(tempSeqMap, batches, group, remaining, done, seqMap, msgNum, syncMsgNum, marks, before);
        batches := batches + [Pull(group, tempSeqMap, syncMsgNum, ok)];
        if ok {
          done := done + tempSeqMap.Keys;
        }
      }
      PullsSince(before, batches);
    }

    /** A sync so far: the requests it made, the marks it moved, and what it still wants. */
    ghost predicate Synced(seqMap: map<string, SeqRange>, marks: map<string, int>, before: seq<Pull>, batches: seq<Pull>,
                           done: set<string>)
      reads this`syncedMaxSeqs, this`delivered, this`mistaken, this`pulls
    {
      && Valid() && pulls == before + batches && done <= seqMap.Keys
      && syncedMaxSeqs == marks + Ends(seqMap, done)
      && forall c | c in seqMap && c !in done :: Wanted(c, seqMap[c])
    }

    /** The request for the batch that has been filled. */
    method PullGroup(batch: map<string, SeqRange>, ghost batches: seq<Pull>, ghost group: seq<string>,
                     ghost remaining: set<string>, ghost done: set<string>, ghost seqMap: map<string, SeqRange>,
                     ghost msgNum: int, syncMsgNum: int, ghost marks: map<string, int>, ghost before: seq<Pull>)
      returns (ok: bool)
      requires Partway(batches, group, batch, remaining, done, seqMap, msgNum, syncMsgNum) && syncMsgNum > 0 && |batch| > 0
      requires Synced(seqMap, marks, before, batches, done)
      modifies this`syncedMaxSeqs, this`delivered, this`requests, this`pulls
      ensures requests == old(requests) + 1 && ok == answered(old(requests))
      ensures var longer, reached := batches + [Pull(group, batch, syncMsgNum, ok)], if ok then done + batch.Keys else done;
              && Synced(seqMap, marks, before, longer, reached) && Outcome(longer, seqMap, syncMsgNum, ok, reached)
              && (ok && msgNum >= SPLIT_PULL_MSG_NUM ==> Partway(longer, [], map[], remaining, reached, seqMap, 0, syncMsgNum))
              && (remaining == {} && ok ==> reached == seqMap.Keys)
    {
      hide Partway, Accounted, Wanted, Ends, Outcome;
      BatchFacts(batches, group, batch, remaining, done, seqMap, msgNum, syncMsgNum, marks);
      ok := PullBatch(batch, syncMsgNum, group);
      BatchAdded(batches, group, batch, remaining, done, seqMap, msgNum, syncMsgNum, ok);
      PullAppended(before, batches, Pull(group, batch, syncMsgNum, ok));
    }

    /** One batch: the request and, when it is answered, the marks. */
    method PullBatch(batch: map<string, SeqRange>, syncMsgNum: int, ghost group: seq<string>) returns (ok: bool)
      requires Valid() && forall c | c in batch :: Wanted(c, batch[c])
      modifies this`syncedMaxSeqs, this`delivered, this`requests, this`pulls
      ensures Valid() && pulls == old(pulls) + [Pull(group, batch, syncMsgNum, ok)]
      ensures requests == old(requests) + 1 && ok == answered(old(requests))
      ensures syncedMaxSeqs == if ok then old(syncedMaxSeqs) + Ends(batch, batch.Keys) else old(syncedMaxSeqs)
      ensures forall c, r | c !in batch && old(Wanted(c, r)) :: Wanted(c, r)
    {
      ok := PullMsgBySeqRange(batch, syncMsgNum, group);
      if ok {
        Advance(batch);
      }
    }

    /**
     * Asks for everything between the marks and the server's maxima. When every request is answered each mark is at the
     * server's maximum or above; a conversation whose request failed keeps its mark, and so asks from there again.
     */
    method CompareSeqsAndBatchSync(maxSeqToSync: map<string, int>, pullNums: int)
      returns (ok: bool, ghost asked: map<string, SeqRange>)
      requires Valid() && pullNums > 0 && forall c | c in maxSeqToSync :: maxSeqToSync[c] >= 0
      modifies this`syncedMaxSeqs, this`delivered, this`requests, this`pulls
      ensures Valid()
      ensures forall c: string :: Mark(c) == old(Mark(c)) || (c in maxSeqToSync && Mark(c) == maxSeqToSync[c] > old(Mark(c)))
      ensures ok ==> forall c | c in maxSeqToSync :: Mark(c) >= maxSeqToSync[c]
      ensures requests >= old(requests) && (AnsweredFrom(old(requests)) ==> ok)
      ensures forall c :: c in asked <==> c in maxSeqToSync && maxSeqToSync[c] > old(Mark(c))
      ensures forall c | c in asked ::
                asked[c] == SeqRange(if c in old(syncedMaxSeqs) then old(Mark(c)) + 1 else 0, maxSeqToSync[c])
      ensures old(pulls) <= pulls && forall i | |old(pulls)| <= i < |pulls| :: pulls[i].num == pullNums
      ensures Outcome(pulls[|old(pulls)|..], asked, pullNums, ok, Served(pulls[|old(pulls)|..]))
    {
      hide Accounted, Accounts, Batches, Served, AllAnswered;
      var needSyncSeqMap: map<string, SeqRange> := map[];
      var remaining := maxSeqToSync.Keys;
      while remaining != {}
        invariant remaining <= maxSeqToSync.Keys
        invariant forall c :: c in needSyncSeqMap <==> c in maxSeqToSync && c !in remaining && maxSeqToSync[c] > Mark(c)
        invariant forall c | c in needSyncSeqMap ::
                    needSyncSeqMap[c] == SeqRange(if c in syncedMaxSeqs then Mark(c) + 1 else 0, maxSeqToSync[c])
        decreases remaining
      {
        var c :| c in remaining;
        remaining := remaining - {c};
        if c in syncedMaxSeqs {
          if maxSeqToSync[c] > syncedMaxSeqs[c] {
            needSyncSeqMap := needSyncSeqMap[c := SeqRange(syncedMaxSeqs[c] + 1, maxSeqToSync[c])];
          }
        } else {
          if maxSeqToSync[c] != 0 {
            needSyncSeqMap := needSyncSeqMap[c := SeqRange(0, maxSeqToSync[c])];
          }
        }
      }
      ghost var done;
      ok, done := SyncAndTriggerMsgs(needSyncSeqMap, pullNums);
      asked := needSyncSeqMap;
      NumsOf(pulls, |old(pulls)|, asked, pullNums, ok, done);
    }

    /**
     * A push: a conversation whose stored numbers reach exactly from the mark to the last one is handed on directly, one
     * with a higher last number is pulled from the mark on, and the rest is old.
     */
    method PushTriggerAndSync(pushMessages: map<string, seq<int>>) returns (ok: bool, ghost asked: map<string, SeqRange>)
      requires Valid()
      modifies this`syncedMaxSeqs, this`delivered, this`mistaken, this`requests, this`pulls
      ensures Valid()
      ensures mistaken == old(mistaken) + set c | c in pushMessages && Mistaken(pushMessages[c], old(Mark(c)))
      ensures forall c: string ::
                Mark(c) == old(Mark(c)) || (c in pushMessages && Mark(c) == PushedMark(pushMessages[c], old(Mark(c))))
      ensures forall c | c in pushMessages && ReachesLast(pushMessages[c], old(Mark(c))) ::
                Mark(c) == PushedMark(pushMessages[c], old(Mark(c)))
      ensures ok ==> forall c | c in pushMessages :: Mark(c) == PushedMark(pushMessages[c], old(Mark(c)))
      ensures ok ==> forall c, i | c in pushMessages && LastAt(pushMessages[c], i) ::
                Mark(c) == if pushMessages[c][i] > old(Mark(c)) then pushMessages[c][i] else old(Mark(c))
      ensures PushAsks(pushMessages, old(syncedMaxSeqs), asked) && old(pulls) <= pulls
      ensures Outcome(pulls[|old(pulls)|..], asked, DEFAULT_PULL_NUMS, ok, Served(pulls[|old(pulls)|..]))
      ensures forall i | |old(pulls)| <= i < |pulls| :: pulls[i].num == DEFAULT_PULL_NUMS
      ensures requests >= old(requests) && (AnsweredFrom(old(requests)) ==> ok)
    {
      hide Batches, Served, AllAnswered, Accounted, Mistaken, PushedMark, ReachesLast, PushedSoFar, Ends, MarkIn, Follows,
           PushAsks;
      ok, asked := true, map[];
      if |pushMessages| == 0 {
        assert pushMessages.Keys == {};
        NoBatches(asked, DEFAULT_PULL_NUMS);
        NonePushed(pushMessages, syncedMaxSeqs, mistaken);
        NeededAreAsked(pushMessages, syncedMaxSeqs, syncedMaxSeqs, mistaken, mistaken, asked);
        assert pulls[|pulls|..] == [];
        return;
      }
      var needSyncSeqMap: map<string, SeqRange> := map[];
      var remaining := pushMessages.Keys;
      NonePushed(pushMessages, syncedMaxSeqs, mistaken);
      while remaining != {}
        invariant Valid() && remaining <= pushMessages.Keys && requests == old(requests) && pulls == old(pulls)
        invariant PushedSoFar(pushMessages, remaining, old(syncedMaxSeqs), syncedMaxSeqs, old(mistaken), mistaken,
                              needSyncSeqMap)
        decreases remaining
      {
        var c :| c in remaining;
        ghost var marks, mistook, need := syncedMaxSeqs, mistaken, needSyncSeqMap;
        StillUnpushed(pushMessages, remaining, old(syncedMaxSeqs), marks, old(mistaken), mistook, need, c);
        var pulls, range := PushOne(c, pushMessages[c]);
        if pulls {
          needSyncSeqMap := needSyncSeqMap[c := range];
        }
        OneMorePushed(pushMessages, remaining, old(syncedMaxSeqs), marks, syncedMaxSeqs, old(mistaken), mistook, mistaken,
                      need, needSyncSeqMap, c);
        remaining := remaining - {c};
      }
      ghost var marks := syncedMaxSeqs;
      AllPushed(pushMessages, old(syncedMaxSeqs), marks, old(mistaken), mistaken, needSyncSeqMap);
      ghost var done;
      ok, done := SyncAndTriggerMsgs(needSyncSeqMap, DEFAULT_PULL_NUMS);
      asked := needSyncSeqMap;
      NumsOf(pulls, |old(pulls)|, asked, DEFAULT_PULL_NUMS, ok, done);
      NeededAreAsked(pushMessages, old(syncedMaxSeqs), marks, old(mistaken), mistaken, asked);
      forall c, i | c in pushMessages && LastAt(pushMessages[c], i)
        ensures PushedMark(pushMessages[c], old(Mark(c)))
                == if pushMessages[c][i] > old(Mark(c)) then pushMessages[c][i] else old(Mark(c))
      {
        LastDecides(pushMessages[c], i, old(Mark(c)));
      }
      PushedAndPulled(pushMessages, old(syncedMaxSeqs), marks, old(mistaken), mistaken, needSyncSeqMap, done);
    }

    /** startSync: at most one sync in a window. */
    method StartSync() returns (started: bool)
      modifies this`isSyncing
      ensures started == !old(isSyncing) && isSyncing
    {
      started := !isSyncing;
      isSyncing := true;
    }

    /** One command of the queue; `middle` are the marks between the two parts of a push. */
    method HandlePushMsgAndEvent(cmd: Command) returns (ghost middle: map<string, int>)
      requires Valid() && cmd.FromServer()
      modifies this
      ensures Valid() && isSyncing == Syncs(cmd, old(isSyncing)) && requests >= old(requests)
      ensures forall c: string ::
                && Mark(c) >= old(Mark(c))
                && Moves(cmd, old(isSyncing), c, old(Mark(c)), MarkIn(middle, c), Mark(c))
                && (c in mistaken <==> c in old(mistaken) || Mistakes(cmd, c, old(Mark(c)), MarkIn(middle, c)))
      ensures old(pulls) <= pulls
      ensures forall i | |old(pulls)| <= i < |pulls| :: pulls[i].num == if cmd.ConnSuccess? then 1 else 10
      ensures old(isSyncing) && (cmd.ConnSuccess? || cmd.WakeUpDataSync?) ==> pulls == old(pulls)
      ensures AnsweredFrom(old(requests)) ==>
                forall c: string ::
                  && MarkIn(middle, c) == MiddleMark(cmd, c, old(Mark(c)))
                  && Mark(c) == CaughtUp(cmd, old(isSyncing), c, old(Mark(c)))
    {
      hide Accounted, Mistaken, Block, Stored, PushedMark, ReachesLast, MarkIn;
      middle := syncedMaxSeqs;
      match cmd
      case ConnSuccess(answer) =>
        var started := StartSync();
        if started && answer.Some? {
          var _, _ := CompareSeqsAndBatchSync(answer.value, CONNECT_PULL_NUMS);
        }
      case WakeUpDataSync(answer) =>
        var started := StartSync();
        if started && answer.Some? {
          var _, _ := CompareSeqsAndBatchSync(answer.value, DEFAULT_PULL_NUMS);
        }
      case IMMessageSync(answer) =>
        if answer.Some? {
          var _, _ := CompareSeqsAndBatchSync(answer.value, DEFAULT_PULL_NUMS);
        }
      case PushMsg(messages, notifications) =>
        middle := DoPushMsg(messages, notifications);
      case SyncWindowOver =>
        isSyncing := false;
    }

    /** The messages of a push and then its notifications. */
    method DoPushMsg(messages: map<string, seq<int>>, notifications: map<string, seq<int>>)
      returns (ghost middle: map<string, int>)
      requires Valid()
      modifies this`syncedMaxSeqs, this`delivered, this`mistaken, this`requests, this`pulls
      ensures Valid() && requests >= old(requests)
      ensures old(pulls) <= pulls && forall i | |old(pulls)| <= i < |pulls| :: pulls[i].num == DEFAULT_PULL_NUMS
      ensures var cmd := PushMsg(messages, notifications);
              forall c: string ::
                && Mark(c) >= old(Mark(c))
                && PushMoves(messages, c, old(Mark(c)), MarkIn(middle, c))
                 && PushMoves(notifications, c, MarkIn(middle, c), Mark(c))
                && (c in mistaken <==> c in old(mistaken) || Mistakes(cmd, c, old(Mark(c)), MarkIn(middle, c)))
                && (AnsweredFrom(old(requests)) ==>
                      MarkIn(middle, c) == MiddleMark(cmd, c, old(Mark(c))) && Mark(c) == CaughtUp(cmd, false, c, old(Mark(c))))
    {
      hide Accounted, Mistaken, Block, Stored, PushedMark, ReachesLast, MarkIn;
      var _, _ := PushTriggerAndSync(messages);
      middle := syncedMaxSeqs;
      var _, _ := PushTriggerAndSync(notifications);
    }

    /**
     * Any run of commands. A conversation's delivered numbers stay those above the initial mark up to the current one, each
     * once and ascending, exactly when no command mistook a push of it at the marks of that time: `marks` are those before
     * each command and at the end, `middles` those between the two parts of each push. With an answering server that is
     * decided by the commands and the first mark, and so is every mark.
     */
    method DoListener(cmds: seq<Command>) returns (ghost marks: seq<map<string, int>>, ghost middles: seq<map<string, int>>)
      requires Valid() && forall i | 0 <= i < |cmds| :: cmds[i].FromServer()
      modifies this
      ensures Valid() && Traced(cmds, old(isSyncing), marks, middles)
      ensures marks[0] == old(syncedMaxSeqs) && marks[|cmds|] == syncedMaxSeqs
      ensures forall c: string :: Mark(c) >= old(Mark(c))
                && (Tiled(c) <==> old(Tiled(c)) && !SomeMistakes(cmds, marks, middles, c))
      ensures forall c: string | old(Tiled(c)) && SafeRun(cmds, marks, middles, c) :: Tiled(c)
      ensures AnsweredFrom(old(requests)) ==>
                forall c: string ::
                  && Mark(c) == MarkAfter(cmds, old(isSyncing), c, old(Mark(c)))
                  && (Tiled(c) <==> old(Tiled(c)) && !EverMistakes(cmds, old(isSyncing), c, old(Mark(c))))
    {
      hide CaughtUp, Syncs, Accounted, Tiled, MarkIn, Moves, Mistakes, Traced, SomeMistakes, MiddleMark, SafeRun;
      assert cmds[..0] == [] && cmds[..|cmds|] == cmds;
      marks, middles := [syncedMaxSeqs], [];
      NoSteps(isSyncing, syncedMaxSeqs);
      AllAccounted();
      for i := 0 to |cmds|
        invariant Valid() && requests >= old(requests) && isSyncing == SyncsAfter(cmds[..i], old(isSyncing))
        invariant |marks| == i + 1 && |middles| == i && marks[0] == old(syncedMaxSeqs) && marks[i] == syncedMaxSeqs
        invariant Traced(cmds[..i], old(isSyncing), marks, middles)
        invariant forall c: string ::
                    && Mark(c) >= old(Mark(c))
                    && (c in mistaken <==> c in old(mistaken) || SomeMistakes(cmds[..i], marks, middles, c))
        invariant AnsweredFrom(old(requests)) ==>
                    forall c: string ::
                      && Mark(c) == MarkAfter(cmds[..i], old(isSyncing), c, old(Mark(c)))
                      && (c in mistaken <==> c in old(mistaken) || EverMistakes(cmds[..i], old(isSyncing), c, old(Mark(c))))
      {
        assert cmds[..i + 1][..i] == cmds[..i];
        ghost var middle := HandlePushMsgAndEvent(cmds[i]);
        TraceGrows(cmds, i, old(isSyncing), marks, middles, middle, syncedMaxSeqs);
        MistakesGrow(cmds, i, marks, middles, middle, syncedMaxSeqs);
        marks, middles := marks + [syncedMaxSeqs], middles + [middle];
      }
      AllAccounted();
      forall c: string | SafeRun(cmds, marks, middles, c)
        ensures !SomeMistakes(cmds, marks, middles, c)
      {
        SafeRunMistakesNothing(cmds, marks, middles, c);
      }
    }

    lemma AllAccounted()
      requires Valid()
      ensures forall c: string :: c !in mistaken <==> Tiled(c)
    {
      forall c: string
        ensures c !in mistaken <==> Tiled(c)
      {
        assert Accounted(c);
      }
    }

    /** The push of one conversation: handed on, to be pulled, or old. */
    method PushOne(c: string, seqs: seq<int>) returns (pulls: bool, range: SeqRange)
      requires Valid()
      modifies this`syncedMaxSeqs, this`delivered, this`mistaken
      ensures Valid() && mistaken == if Mistaken(seqs, old(Mark(c))) then old(mistaken) + {c} else old(mistaken)
      ensures forall other: string | other != c :: MarkIn(syncedMaxSeqs, other) == MarkIn(old(syncedMaxSeqs), other)
      ensures Mark(c) == if ReachesLast(seqs, old(Mark(c))) then PushedMark(seqs, old(Mark(c))) else old(Mark(c))
      ensures pulls <==> !ReachesLast(seqs, old(Mark(c))) && PushedMark(seqs, old(Mark(c))) > old(Mark(c))
      ensures pulls ==> range == SeqRange(old(Mark(c)) + 1, PushedMark(seqs, old(Mark(c))))
    {
      hide Accounted, Accounts, Numbers;
      pulls, range := false, SeqRange(0, 0);
      var storage, lastSeq := SplitStored(seqs);
      if |storage| == 0 {
        return;
      }
      var expectedLast := Mark(c) + |storage|;
      if lastSeq == expectedLast {
        HandOn(c, storage);
      } else if lastSeq > Mark(c) {
        pulls, range := true, SeqRange(Mark(c) + 1, lastSeq);
      }
    }

    /** Direct delivery of stored messages. */
    method HandOn(conversationId: string, storage: seq<int>)
      requires Valid() && storage != [] && storage[|storage| - 1] == Mark(conversationId) + |storage|
      modifies this`syncedMaxSeqs, this`delivered, this`mistaken
      ensures Valid()
      ensures syncedMaxSeqs == old(syncedMaxSeqs)[conversationId := storage[|storage| - 1]]
      ensures mistaken == if storage == Numbers(old(Mark(conversationId)) + 1, storage[|storage| - 1]) then old(mistaken)
                          else old(mistaken) + {conversationId}
    {
      hide Numbers, Accounts;
      assert Accounted(conversationId);
      AccountsGrow(Delivered(conversationId), Initial(conversationId), Mark(conversationId), conversationId in mistaken,
                   storage, storage[|storage| - 1]);
      if storage != Numbers(Mark(conversationId) + 1, storage[|storage| - 1]) {
        mistaken := mistaken + {conversationId};
      }
      delivered := delivered[conversationId := Delivered(conversationId) + storage];
      syncedMaxSeqs := syncedMaxSeqs[conversationId := storage[|storage| - 1]];
      forall c: string
        ensures Accounted(c)
      {
        assert old(Accounted(c));
      }
    }
  }

  /** The messages of a push that are stored; number 0 marks those handed on at once. */
  function Stored(seqs: seq<int>): seq<int> {
    if seqs == [] then []
    else if seqs[|seqs| - 1] == 0 then Stored(seqs[..|seqs| - 1])
    else Stored(seqs[..|seqs| - 1]) + [seqs[|seqs| - 1]]
  }

  method SplitStored(seqs: seq<int>) returns (storage: seq<int>, lastSeq: int)
    ensures storage == Stored(seqs) && (storage != [] ==> lastSeq == storage[|storage| - 1])
  {
    storage, lastSeq := [], 0;
    for i := 0 to |seqs|
      invariant storage == Stored(seqs[..i]) && (storage != [] ==> lastSeq == storage[|storage| - 1])
    {
      assert seqs[..i + 1][..i] == seqs[..i];
      if seqs[i] == 0 {
        continue;
      }
      lastSeq := seqs[i];
      storage := storage + [seqs[i]];
    }
    assert seqs[..|seqs|] == seqs;
  }

  lemma {:induction false} StoredJoins(a: seq<int>, b: seq<int>)
    ensures Stored(a + b) == Stored(a) + Stored(b)
  {
    if b == [] {
      assert a + b == a;
    } else {
      StoredJoins(a, b[..|b| - 1]);
      assert (a + b)[..|a + b| - 1] == a + b[..|b| - 1];
    }
  }

  /** The last number of a push that is not 0 stands at `i`. */
  ghost predicate LastAt(seqs: seq<int>, i: int) {
    0 <= i < |seqs| && seqs[i] != 0 && forall j | i < j < |seqs| :: seqs[j] == 0
  }

  /** How many numbers of a push are not 0. */
  ghost function Numbered(seqs: seq<int>): int {
    |seqs| - multiset(seqs)[0]
  }

  lemma {:induction false} StoredCount(seqs: seq<int>)
    ensures |Stored(seqs)| == Numbered(seqs)
  {
    if seqs != [] {
      var init, last := seqs[..|seqs| - 1], seqs[|seqs| - 1];
      StoredCount(init);
      assert seqs == init + [last];
      assert multiset(seqs) == multiset(init) + multiset([last]);
    }
  }

  lemma {:induction false} StoredLast(seqs: seq<int>, i: int)
    requires LastAt(seqs, i)
    ensures Stored(seqs) != [] && Stored(seqs)[|Stored(seqs)| - 1] == seqs[i]
  {
    if seqs[|seqs| - 1] == 0 { StoredLast(seqs[..|seqs| - 1], i); }
  }

  lemma {:induction false} StoredHasLast(seqs: seq<int>) returns (i: int)
    requires Stored(seqs) != []
    ensures LastAt(seqs, i)
  {
    i := |seqs| - 1;
    if seqs[i] == 0 { i := StoredHasLast(seqs[..i]); }
  }

  /** The last number alone says where a push takes the mark, and with the count of numbers whether it is handed on. */
  lemma LastDecides(seqs: seq<int>, i: int, mark: int)
    requires LastAt(seqs, i)
    ensures PushedMark(seqs, mark) == if seqs[i] > mark then seqs[i] else mark
    ensures ReachesLast(seqs, mark) <==> seqs[i] == mark + Numbered(seqs)
  {
    StoredCount(seqs);
    StoredLast(seqs, i);
  }

  lemma NothingNumbered(seqs: seq<int>, mark: int)
    requires forall i :: !LastAt(seqs, i)
    ensures PushedMark(seqs, mark) == mark && !ReachesLast(seqs, mark)
  {
    if Stored(seqs) != [] { var i := StoredHasLast(seqs); }
  }

  /** Exactly the conversations of a push with a gap above the mark are asked for, from the mark on to the last number. */
  ghost predicate PushAsks(pushes: map<string, seq<int>>, marks: map<string, int>, asked: map<string, SeqRange>) {
    && (forall c | c in asked :: c in pushes && exists i :: LastAt(pushes[c], i))
    && forall c, i | c in pushes && LastAt(pushes[c], i) ::
         var last, mark := pushes[c][i], MarkIn(marks, c);
         && (c in asked <==> last > mark && last != mark + Numbered(pushes[c]))
         && (c in asked ==> asked[c] == SeqRange(mark + 1, last))
  }

  lemma NeededAreAsked(pushes: map<string, seq<int>>, was: map<string, int>, marks: map<string, int>,
                       mistook: set<string>, mistaken: set<string>, need: map<string, SeqRange>)
    requires PushedSoFar(pushes, {}, was, marks, mistook, mistaken, need)
    ensures PushAsks(pushes, was, need)
  {
    hide PushedMark, ReachesLast, Mistaken, MarkIn, Numbered;
    forall c | c in need
      ensures exists i :: LastAt(pushes[c], i)
    {
      if forall i :: !LastAt(pushes[c], i) { NothingNumbered(pushes[c], MarkIn(was, c)); }
    }
    forall c, i | c in pushes && LastAt(pushes[c], i)
      ensures var last, mark := pushes[c][i], MarkIn(was, c);
              && (c in need <==> last > mark && last != mark + Numbered(pushes[c]))
              && (c in need ==> need[c] == SeqRange(mark + 1, last))
    {
      LastDecides(pushes[c], i, MarkIn(was, c));
    }
  }

  /** The stored numbers count exactly from the mark to the last one. */
  predicate ReachesLast(seqs: seq<int>, mark: int) {
    var storage := Stored(seqs);
    storage != [] && storage[|storage| - 1] == mark + |storage|
  }

  /** Where a push takes the mark. */
  function PushedMark(seqs: seq<int>, mark: int): (reached: int)
    ensures reached >= mark
  {
    var storage := Stored(seqs);
    if storage != [] && storage[|storage| - 1] > mark then storage[|storage| - 1] else mark
  }

  /** Handed on directly although a number between the mark and the last one is missing. */
  ghost predicate Mistaken(seqs: seq<int>, mark: int) {
    var storage := Stored(seqs);
    ReachesLast(seqs, mark) && storage != Numbers(mark + 1, storage[|storage| - 1])
  }

  /** An ascending push is mistaken exactly when it counts up to its last number from a first one at or below the mark. */
  lemma MistakenIff(seqs: seq<int>, mark: int)
    requires Ascending(Stored(seqs))
    ensures Mistaken(seqs, mark) <==> ReachesLast(seqs, mark) && Stored(seqs)[0] <= mark
  {
    if ReachesLast(seqs, mark) {
      DirectDeliveryRightIff(Stored(seqs), mark);
    }
  }

  ghost predicate AboveOrOld(storage: seq<int>, mark: int) {
    Ascending(storage) && (storage == [] || storage[0] > mark || storage[|storage| - 1] <= mark)
  }

  /** Consecutive numbers, and ascending ones all above the mark or with the last at or below it. */
  ghost predicate Safe(seqs: seq<int>, mark: int) {
    Block(Stored(seqs)) || AboveOrOld(Stored(seqs), mark)
  }

  lemma SafeIsNotMistaken(seqs: seq<int>, mark: int)
    ensures Safe(seqs, mark) ==> !Mistaken(seqs, mark)
  {
    if Stored(seqs) != [] {
      var storage := Stored(seqs);
      NumbersAre(mark + 1, storage[|storage| - 1]);
      if Ascending(storage) { MistakenIff(seqs, mark); }
    }
  }

  /** A push between two conversations: what is behind it is handed on, noted as needed, or old. */
  ghost predicate PushedSoFar(pushes: map<string, seq<int>>, remaining: set<string>, was: map<string, int>,
                              marks: map<string, int>, mistook: set<string>, mistaken: set<string>,
                              need: map<string, SeqRange>) {
    && mistaken == mistook + (set c | c in pushes && c !in remaining && Mistaken(pushes[c], MarkIn(was, c)))
    && (forall c: string ::
          MarkIn(marks, c) == if c in pushes && c !in remaining && ReachesLast(pushes[c], MarkIn(was, c))
                              then PushedMark(pushes[c], MarkIn(was, c)) else MarkIn(was, c))
    && (forall c :: c in need
          <==> && c in pushes && c !in remaining && !ReachesLast(pushes[c], MarkIn(was, c))
               && PushedMark(pushes[c], MarkIn(was, c)) > MarkIn(was, c))
    && (forall c | c in need :: need[c] == SeqRange(MarkIn(was, c) + 1, PushedMark(pushes[c], MarkIn(was, c))))
  }

  lemma NonePushed(pushes: map<string, seq<int>>, marks: map<string, int>, mistook: set<string>)
    ensures PushedSoFar(pushes, pushes.Keys, marks, marks, mistook, mistook, map[])
  {
  }

  lemma StillUnpushed(pushes: map<string, seq<int>>, remaining: set<string>, was: map<string, int>,
                      marks: map<string, int>,
                      mistook: set<string>, mistaken: set<string>, need: map<string, SeqRange>, c: string)
    requires PushedSoFar(pushes, remaining, was, marks, mistook, mistaken, need) && c in remaining
    ensures MarkIn(marks, c) == MarkIn(was, c) && c !in need
  {
  }

  lemma OneMorePushed(pushes: map<string, seq<int>>, remaining: set<string>, was: map<string, int>,
                      marks: map<string, int>, newMarks: map<string, int>,
                      mistook: set<string>, mistaken: set<string>, newMistaken: set<string>,
                      need: map<string, SeqRange>, newNeed: map<string, SeqRange>, c: string)
    requires PushedSoFar(pushes, remaining, was, marks, mistook, mistaken, need) && c in remaining && c in pushes
    requires newMistaken == if Mistaken(pushes[c], MarkIn(was, c)) then mistaken + {c} else mistaken
    requires forall other: string | other != c :: MarkIn(newMarks, other) == MarkIn(marks, other)
    requires MarkIn(newMarks, c) == if ReachesLast(pushes[c], MarkIn(was, c)) then PushedMark(pushes[c], MarkIn(was, c))
                                    else MarkIn(was, c)
    requires var pulls := !ReachesLast(pushes[c], MarkIn(was, c)) && PushedMark(pushes[c], MarkIn(was, c)) > MarkIn(was, c);
             newNeed == if pulls then need[c := SeqRange(MarkIn(was, c) + 1, PushedMark(pushes[c], MarkIn(was, c)))] else need
    ensures PushedSoFar(pushes, remaining - {c}, was, newMarks, mistook, newMistaken, newNeed)
  {
    hide Mistaken, PushedMark, ReachesLast, MarkIn;
  }

  lemma AllPushed(pushes: map<string, seq<int>>, was: map<string, int>, marks: map<string, int>,
                  mistook: set<string>, mistaken: set<string>, need: map<string, SeqRange>)
    requires PushedSoFar(pushes, {}, was, marks, mistook, mistaken, need)
    ensures forall c | c in need :: Follows(need[c], MarkIn(marks, c))
    ensures mistaken == mistook + set c | c in pushes && Mistaken(pushes[c], MarkIn(was, c))
  {
    hide Mistaken, PushedMark, ReachesLast, MarkIn;
  }

  /** The marks after a push: where the push takes them, except for conversations whose request failed. */
  lemma PushedAndPulled(pushes: map<string, seq<int>>, was: map<string, int>, marks: map<string, int>,
                        mistook: set<string>, mistaken: set<string>, need: map<string, SeqRange>, done: set<string>)
    requires PushedSoFar(pushes, {}, was, marks, mistook, mistaken, need) && done <= need.Keys
    ensures var reached := marks + Ends(need, done);
            && (forall c: string :: MarkIn(reached, c)
                  == if c in pushes && (c !in need || c in done) then PushedMark(pushes[c], MarkIn(was, c)) else MarkIn(was, c))
            && (forall c | c in need :: c in pushes && !ReachesLast(pushes[c], MarkIn(was, c)))
  {
    hide Mistaken, Stored;
  }

  /** The batch being filled. */
  ghost predicate Group(group: seq<string>, batch: map<string, SeqRange>, ranges: map<string, SeqRange>, msgNum: int,
                        syncMsgNum: int) {
    && Distinct(group) && (forall c :: c in group <==> c in batch)
    && (forall c | c in batch :: c in ranges && batch[c] == ranges[c])
    && msgNum == Estimate(group, ranges, syncMsgNum)
  }

  /** The state of a sync between two conversations: batches pulled, the batch being filled, what is left. */
  ghost predicate Partway(batches: seq<Pull>, group: seq<string>, batch: map<string, SeqRange>, remaining: set<string>,
                          done: set<string>, ranges: map<string, SeqRange>, msgNum: int, syncMsgNum: int) {
    && Batches(batches, ranges, syncMsgNum) && AllAnswered(batches) && Full(batches, ranges, syncMsgNum)
    && Group(group, batch, ranges, msgNum, syncMsgNum)
    && (group != [] ==> SizeLimited(group, ranges, syncMsgNum))
    && done == Served(batches) && (forall c :: c in Asked(batches) <==> c in done)
    && done !! batch.Keys !! remaining
    && done + batch.Keys + remaining == ranges.Keys
  }

  lemma NumsOf(pulls: seq<Pull>, n: nat, ranges: map<string, SeqRange>, syncMsgNum: int, ok: bool, done: set<string>)
    requires n <= |pulls| && Outcome(pulls[n..], ranges, syncMsgNum, ok, done)
    ensures forall i | n <= i < |pulls| :: pulls[i].num == syncMsgNum
  {
    assert forall i | n <= i < |pulls| :: pulls[i] == pulls[n..][i - n];
  }

  lemma NoBatches(ranges: map<string, SeqRange>, syncMsgNum: int)
    requires syncMsgNum > 0
    ensures Partway([], [], map[], ranges.Keys, {}, ranges, 0, syncMsgNum)
    ensures Outcome([], ranges, syncMsgNum, true, {})
    ensures |ranges| == 0 ==> ranges.Keys == {}
  {
  }

  lemma GroupGrows(group: seq<string>, batch: map<string, SeqRange>, ranges: map<string, SeqRange>, msgNum: int,
                   newMsgNum: int, syncMsgNum: int, k: string)
    requires Group(group, batch, ranges, msgNum, syncMsgNum) && k in ranges && k !in batch
    requires newMsgNum == msgNum + Cost(k, ranges[k], syncMsgNum)
    ensures Group(group + [k], batch[k := ranges[k]], ranges, newMsgNum, syncMsgNum)
    ensures msgNum < SPLIT_PULL_MSG_NUM ==> SizeLimited(group + [k], ranges, syncMsgNum)
  {
    hide Cost;
    assert (group + [k])[..|group|] == group;
    assert forall i | 0 <= i < |group| :: group[i] in group && group[i] != k;
  }

  lemma TakesOne(batches: seq<Pull>, group: seq<string>, batch: map<string, SeqRange>, remaining: set<string>,
                 done: set<string>, ranges: map<string, SeqRange>, msgNum: int, newMsgNum: int, syncMsgNum: int, k: string)
    requires Partway(batches, group, batch, remaining, done, ranges, msgNum, syncMsgNum) && k in remaining && k in ranges
    requires msgNum < SPLIT_PULL_MSG_NUM && newMsgNum == msgNum + Cost(k, ranges[k], syncMsgNum)
    ensures Partway(batches, group + [k], batch[k := ranges[k]], remaining - {k}, done, ranges, newMsgNum, syncMsgNum)
  {
    hide Batches, AllAnswered, Served, Group, Asked, Full;
    GroupGrows(group, batch, ranges, msgNum, newMsgNum, syncMsgNum, k);
    assert k in group + [k];
    assert batch[k := ranges[k]].Keys == batch.Keys + {k};
  }

  /** What the batch being filled means for the request about to be made. */
  lemma BatchFacts(batches: seq<Pull>, group: seq<string>, batch: map<string, SeqRange>, remaining: set<string>,
                   done: set<string>, ranges: map<string, SeqRange>, msgNum: int, syncMsgNum: int, marks: map<string, int>)
    requires Partway(batches, group, batch, remaining, done, ranges, msgNum, syncMsgNum) && syncMsgNum > 0
    ensures Outcome(batches, ranges, syncMsgNum, true, done)
    ensures done <= ranges.Keys && forall c | c in batch :: c in ranges && c !in done && batch[c] == ranges[c]
    ensures marks + Ends(ranges, done) + Ends(batch, batch.Keys) == marks + Ends(ranges, done + batch.Keys)
    ensures remaining == {} ==> done + batch.Keys == ranges.Keys
    ensures |batch| == 0 ==> batch.Keys == {} && done + batch.Keys == done
    ensures |batch| > 0 ==> group != []
  {
    EndsJoin(marks, ranges, done, batch);
    assert |batch| > 0 ==> batch.Keys != {};
  }

  lemma PullAppended(before: seq<Pull>, batches: seq<Pull>, pull: Pull)
    ensures before + batches + [pull] == before + (batches + [pull])
  {
  }

  lemma PullsSince(before: seq<Pull>, batches: seq<Pull>)
    ensures before <= before + batches && (before + batches)[|before|..] == batches && before + [] == before
  {
  }

  lemma AskedDistinct(asked: seq<string>, group: seq<string>)
    requires Distinct(asked) && Distinct(group) && forall c | c in asked :: c !in group
    ensures Distinct(asked + group)
  {
    forall i, j | 0 <= i < j < |asked + group|
      ensures (asked + group)[i] != (asked + group)[j]
    {
      if i < |asked| <= j {
        assert asked[i] in asked && group[j - |asked|] in group;
      }
    }
  }

  lemma LimitedGrows(batches: seq<Pull>, pull: Pull, ranges: map<string, SeqRange>, syncMsgNum: int)
    requires Limited(batches, ranges, syncMsgNum) && SizeLimited(pull.conversations, ranges, syncMsgNum)
    ensures Limited(batches + [pull], ranges, syncMsgNum) && forall c | c in pull.conversations :: c in ranges
  {
    hide Estimate;
  }

  lemma FullGrows(batches: seq<Pull>, pull: Pull, ranges: map<string, SeqRange>, syncMsgNum: int)
    requires Full(batches, ranges, syncMsgNum) && forall c | c in pull.conversations :: c in ranges
    ensures Estimate(pull.conversations, ranges, syncMsgNum) >= SPLIT_PULL_MSG_NUM
            ==> Full(batches + [pull], ranges, syncMsgNum)
  {
    hide Estimate;
  }

  lemma BatchesGrow(batches: seq<Pull>, pull: Pull, ranges: map<string, SeqRange>, syncMsgNum: int)
    requires Batches(batches, ranges, syncMsgNum) && Distinct(pull.conversations) && Full(batches, ranges, syncMsgNum)
    requires SizeLimited(pull.conversations, ranges, syncMsgNum) && AsksFor(pull, ranges, syncMsgNum)
    requires forall c | c in Asked(batches) :: c !in pull.conversations
    ensures Batches(batches + [pull], ranges, syncMsgNum)
    ensures Asked(batches + [pull]) == Asked(batches) + pull.conversations
    ensures Estimate(pull.conversations, ranges, syncMsgNum) >= SPLIT_PULL_MSG_NUM
            ==> Full(batches + [pull], ranges, syncMsgNum)
  {
    hide Distinct, Estimate, AsksFor, SizeLimited;
    assert (batches + [pull])[..|batches|] == batches;
    AskedDistinct(Asked(batches), pull.conversations);
    LimitedGrows(batches, pull, ranges, syncMsgNum);
    FullGrows(batches, pull, ranges, syncMsgNum);
    hide Full, Limited;
  }

  lemma ServedGrows(batches: seq<Pull>, group: seq<string>, batch: map<string, SeqRange>, syncMsgNum: int, ok: bool)
    requires AllAnswered(batches) && forall c :: c in group <==> c in batch
    ensures var longer := batches + [Pull(group, batch, syncMsgNum, ok)];
            && Served(longer) == (if ok then Served(batches) + batch.Keys else Served(batches))
            && (ok ==> AllAnswered(longer))
            && longer[|longer| - 1] == Pull(group, batch, syncMsgNum, ok) && AllAnswered(longer[..|longer| - 1])
  {
    var longer := batches + [Pull(group, batch, syncMsgNum, ok)];
    assert longer[..|batches|] == batches;
    assert (set c | c in group) == batch.Keys;
  }

  lemma BatchAdded(batches: seq<Pull>, group: seq<string>, batch: map<string, SeqRange>, remaining: set<string>,
                   done: set<string>, ranges: map<string, SeqRange>, msgNum: int, syncMsgNum: int, ok: bool)
    requires Partway(batches, group, batch, remaining, done, ranges, msgNum, syncMsgNum) && group != [] && syncMsgNum > 0
    ensures var longer := batches + [Pull(group, batch, syncMsgNum, ok)];
            && Outcome(longer, ranges, syncMsgNum, ok, if ok then done + batch.Keys else done)
            && (ok && msgNum >= SPLIT_PULL_MSG_NUM ==>
                  Partway(longer, [], map[], remaining, done + batch.Keys, ranges, 0, syncMsgNum))
  {
    hide Batches, AllAnswered, Served, Asked, Estimate, Distinct, Full;
    BatchesGrow(batches, Pull(group, batch, syncMsgNum, ok), ranges, syncMsgNum);
    ServedGrows(batches, group, batch, syncMsgNum, ok);
    if ok {
      EmptyGroup(ranges, syncMsgNum);
      Emptied(done, batch.Keys, remaining);
    }
  }

  lemma EmptyGroup(ranges: map<string, SeqRange>, syncMsgNum: int)
    ensures Group([], map[], ranges, 0, syncMsgNum)
  {
  }

  lemma Emptied(done: set<string>, batch: set<string>, remaining: set<string>)
    requires done !! batch !! remaining
    ensures (done + batch) !! {} !! remaining && done + batch + {} + remaining == done + batch + remaining
  {
  }
}

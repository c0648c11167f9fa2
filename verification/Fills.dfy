/**
 * What filling the gaps of a page from the server achieves, on the lists alone: after one fill a page of at most fifty
 * rows is an unbroken run of the log, and a page that is still short has reached the bottom.
 */
module Fills {
  import opened Basics
  import opened ChatLogs
  import opened ServerLogs
  import opened PullTable
  import opened PageSteps

  /** Whatever `whole` still lacks of `b .. c-1` lies below the fifty numbers that were pulled. */
  ghost predicate LacksOnlyBelow(whole: seq<ChatLog>, lost: seq<int>, b: int, c: int) {
    forall s | b <= s < c && s !in SeqNos(whole) ::
      && |lost| == PULL_MSG_NUM_FOR_READ_DIFFUSION && s < lost[0]
      && forall t | t in lost :: t < c && t in SeqNos(whole)
  }

  lemma {:induction false} DescendingSpread(list: seq<ChatLog>, i: nat)
    requires Descending(list) && i < |list|
    ensures list[i].seqNo <= list[0].seqNo - i
  {
    if i > 0 { DescendingSpread(list, i - 1); }
  }

  lemma DenseWhole(whole: seq<ChatLog>, b: int, c: int)
    requires b <= c && Descending(whole)
    requires forall r | r in whole :: b <= r.seqNo < c
    requires forall s | b <= s < c :: s in SeqNos(whole)
    ensures |whole| == c - b && Unbroken(whole, c)
  {
    DenseDescending(whole, c, c - b);
    if whole != [] {
      DescendingSpread(whole, |whole| - 1);
      assert whole[0] in whole && whole[|whole| - 1] in whole;
    }
  }

  lemma FillMakesBlock(whole: seq<ChatLog>, lost: seq<int>, b: int, c: int, count: nat)
    requires b <= c && count <= PULL_MSG_NUM_FOR_READ_DIFFUSION
    requires Descending(whole) && Ascending(lost)
    requires forall r | r in whole :: b <= r.seqNo < c
    requires LacksOnlyBelow(whole, lost, b, c)
    ensures Unbroken(Take(whole, count), c)
    ensures |Take(whole, count)| < count ==> |Take(whole, count)| == c - b
  {
    if forall s | b <= s < c :: s in SeqNos(whole) {
      DenseWhole(whole, b, c);
    } else {
      var gap :| b <= gap < c && gap !in SeqNos(whole);
      AscendingSpread(lost, 0, PULL_MSG_NUM_FOR_READ_DIFFUSION - 1);
      assert lost[PULL_MSG_NUM_FOR_READ_DIFFUSION - 1] in lost;
      DenseDescending(whole, c, PULL_MSG_NUM_FOR_READ_DIFFUSION);
    }
  }

  lemma {:induction false} MergedDescends(log: ServerLog, a: seq<ChatLog>, b: seq<ChatLog>)
    requires log.Valid() && log.HoldsAll(a) && log.HoldsAll(b) && Descending(a) && Descending(b)
    requires forall x, y | x in a && y in b :: x.seqNo != y.seqNo
    ensures Descending(Merged(a, b, true))
  {
    if a != [] && b != [] {
      assert a[0] in a && b[0] in b;
      log.NewerIsHigher(a[0], b[0]);
      if First(a[0], b[0], true) {
        MergedDescends(log, a[1..], b);
        MergedMembers(a[1..], b, true);
        HeadDescends(a[0], Merged(a[1..], b, true), a, b);
      } else {
        MergedDescends(log, a, b[1..]);
        MergedMembers(a, b[1..], true);
        HeadDescends(b[0], Merged(a, b[1..], true), b, a);
      }
    }
  }

  lemma MergedNumbers(log: ServerLog, a: seq<ChatLog>, b: seq<ChatLog>)
    requires log.HoldsAll(a) && log.HoldsAll(b)
    ensures log.HoldsAll(Merged(a, b, true))
    ensures SeqNos(Merged(a, b, true)) == SeqNos(a) + SeqNos(b)
  {
    MergedMembers(a, b, true);
  }

  lemma HeadDescends(head: ChatLog, rest: seq<ChatLog>, own: seq<ChatLog>, other: seq<ChatLog>)
    requires own != [] && head == own[0] && Descending(own) && Descending(other) && Descending(rest)
    requires other != [] && head.seqNo > other[0].seqNo
    requires forall r | r in rest :: r in own[1..] || r in other
    ensures Descending([head] + rest)
  {
    assert forall r | r in own[1..] :: r.seqNo < head.seqNo;
    assert forall r | r in other :: r.seqNo <= other[0].seqNo;
  }

  lemma UnbrokenHas(list: seq<ChatLog>, top: int)
    requires Unbroken(list, top)
    ensures forall s | top - |list| <= s < top :: s in SeqNos(list)
  {
    forall s | top - |list| <= s < top
      ensures s in SeqNos(list)
    {
      assert list[top - 1 - s] in list;
    }
  }

  lemma FrontOf(log: ServerLog, list: seq<ChatLog>, n: nat)
    requires log.Valid() && log.HoldsAll(list) && Descending(list) && n <= |list|
    ensures log.HoldsAll(list[..n]) && Descending(list[..n])
    ensures forall r | r in list[..n] :: r.seqNo != 0
  {
    assert forall r | r in list[..n] :: r in list;
  }

  lemma EndsOf(list: seq<ChatLog>)
    requires list != [] && Descending(list)
    ensures list[0] in list && list[|list| - 1] in list
    ensures forall s | s in SeqNos(list) :: list[|list| - 1].seqNo <= s <= list[0].seqNo
  {
  }

  /** The numbers asked for are nowhere in `rows`. */
  ghost predicate NoneOf(rows: seq<ChatLog>, seqs: seq<int>) {
    forall r | r in rows :: r.seqNo !in seqs
  }

  /** Rows that lie within the page are in the page. */
  ghost predicate WholeInside(rows: seq<ChatLog>, list: seq<ChatLog>) {
    forall r | r in rows && list != [] && list[|list| - 1].seqNo <= r.seqNo <= list[0].seqNo :: r.seqNo in SeqNos(list)
  }

  /** A page that is not full holds every local row below its upper bound. */
  ghost predicate HoldsAllBelow(rows: seq<ChatLog>, list: seq<ChatLog>, c: int) {
    forall r | r in rows && r.seqNo < c :: r.seqNo in SeqNos(list)
  }

  /** Nothing local lies between the page's first number and the bound above the page. */
  ghost predicate NoneBetween(rows: seq<ChatLog>, start: int, c: int) {
    forall r | r in rows && r.seqNo < c :: r.seqNo <= start
  }

  /** A page that is short after a fill still holds every local row below its bound. */
  lemma ShortFillHoldsAll(log: ServerLog, stored: seq<ChatLog>, rows: seq<ChatLog>, list: seq<ChatLog>, lost: seq<int>,
                          count: nat, list': seq<ChatLog>, whole: seq<ChatLog>, c: int)
    requires Filled(log, list, lost, count, list', whole) && |list'| < count && log.TableOk(rows)
    requires HoldsAllBelow(stored, list, c)
    requires forall r | r in rows && r !in stored :: r.seqNo in lost
    ensures HoldsAllBelow(rows, list', c)
  {
    assert list' == whole;
    forall r | r in rows && r.seqNo < c
      ensures r.seqNo in SeqNos(list')
    {
      assert log.Holds(r);
    }
  }

  /** The live messages of a list are local. */
  ghost predicate LiveStored(rows: seq<ChatLog>, list: seq<ChatLog>) {
    forall r | r in list && r.Live() :: r in rows
  }

  /** What GetMaxAndMinHaveSeqList finds in a descending page of numbered rows. */
  lemma PageBounds(list: seq<ChatLog>, max: int, min: int, have: seq<int>)
    requires Descending(list) && forall r | r in list :: r.seqNo > 0
    requires forall s :: s in have <==> s != 0 && s in SeqNos(list)
    requires have == [] ==> max == 0 && min == 0
    requires have != [] ==> max in have && min in have && forall s | s in have :: 0 < min <= s <= max
    ensures forall s :: s in have <==> s in SeqNos(list)
    ensures if list == [] then max == 0 && min == 0 else max == list[0].seqNo && min == list[|list| - 1].seqNo && min > 0
  {
    if list != [] {
      EndsOf(list);
      assert list[0].seqNo in have && list[|list| - 1].seqNo in have;
    }
  }

  lemma GapsNotStored(rows: seq<ChatLog>, list: seq<ChatLog>, have: seq<int>, lost: seq<int>)
    requires list != [] && Descending(list) && WholeInside(rows, list)
    requires forall s :: s in have <==> s in SeqNos(list)
    requires LostOf(lost, list[|list| - 1].seqNo, list[0].seqNo, have, false)
    ensures NoneOf(rows, lost) && NoneOf(list, lost)
    ensures forall s | s in lost :: list[|list| - 1].seqNo < s < list[0].seqNo
  {
    EndsOf(list);
    assert list[0].seqNo in have && list[|list| - 1].seqNo in have;
  }

  /** What a failed fill leaves of a page is the run of numbers in front of the newest missing one. */
  lemma KeptIsRun(list: seq<ChatLog>, have: seq<int>, lost: seq<int>, kept: seq<ChatLog>)
    requires list != [] && Descending(list) && lost != []
    requires forall s :: s in have <==> s in SeqNos(list)
    requires LostOf(lost, list[|list| - 1].seqNo, list[0].seqNo, have, false)
    requires Kept(list, lost, kept)
    ensures kept != [] && kept[0] == list[0] && Unbroken(kept, list[0].seqNo + 1)
    ensures kept[|kept| - 1].seqNo - 1 == lost[|lost| - 1]
  {
    var top, gap := list[0].seqNo, lost[|lost| - 1];
    EndsOf(list);
    assert gap in lost && lost[0] in lost && top in have;
    assert forall s | gap < s <= top :: s in have;
    DenseDescending(list, top + 1, top - gap);
    assert list[top - gap - 1].seqNo == gap + 1;
    assert list[top - gap..] != [] ==> list[top - gap].seqNo < gap + 1;
  }

  /** `kept` is the page in front of the newest number that could not be pulled. */
  ghost predicate Kept(list: seq<ChatLog>, seqList: seq<int>, kept: seq<ChatLog>) {
    && seqList != [] && |kept| <= |list| && kept == list[..|kept|]
    && (forall i | 0 <= i < |kept| :: list[i].seqNo > seqList[|seqList| - 1])
    && (|kept| < |list| ==> list[|kept|].seqNo <= seqList[|seqList| - 1])
  }

  /** `whole` is the page together with the pulled messages, and `list'` its newest `count`. */
  ghost predicate Filled(log: ServerLog, list: seq<ChatLog>, seqList: seq<int>, count: nat, list': seq<ChatLog>,
                         whole: seq<ChatLog>) {
    && Descending(whole) && log.HoldsAll(whole)
    && SeqNos(whole) == SeqNos(list) + (set s | s in seqList && log.Has(s))
    && |whole| >= |list| && list' == Take(whole, count)
  }

  /** A fill that covers whatever `list` lacks of `b .. c-1` can fail to bring only what was trimmed away. */
  lemma FillLacksOnlyBelow(log: ServerLog, list: seq<ChatLog>, have: seq<int>, lost: seq<int>, lo: int, hi: int,
                           count: nat, list': seq<ChatLog>, whole: seq<ChatLog>, b: int, c: int)
    requires Filled(log, list, lost, count, list', whole) && LostOf(lost, lo, hi, have, false)
    requires forall s | s in have :: s in SeqNos(list)
    requires forall s | b <= s < c :: log.Has(s) && (s in SeqNos(list) || lo <= s <= hi)
    requires hi < c
    ensures LacksOnlyBelow(whole, lost, b, c)
  {
    forall s | b <= s < c && s !in SeqNos(whole)
      ensures |lost| == PULL_MSG_NUM_FOR_READ_DIFFUSION && s < lost[0]
      ensures forall t | t in lost :: t < c && t in SeqNos(whole)
    {
      assert s !in have && s !in lost;
      assert forall t | t in lost :: b <= t < c;
    }
  }

  lemma MoreStored(stored: seq<ChatLog>, rows: seq<ChatLog>)
    requires stored <= rows
    ensures SeqNos(stored) <= SeqNos(rows)
  {
    assert forall r | r in stored :: r in rows;
  }

  lemma NothingHeld(rows: seq<ChatLog>, c: int)
    ensures HoldsAllBelow(rows, [], c) ==> c - 1 !in SeqNos(rows)
  {
  }

  lemma MoreNoneBetween(stored: seq<ChatLog>, rows: seq<ChatLog>, start: int, c: int)
    requires NoneBetween(stored, start, c)
    requires forall r | r in rows && r !in stored :: r.seqNo <= start
    ensures NoneBetween(rows, start, c)
  {
  }

  /** The stored end of a view lies at or below `c`, and everything between the two is local. */
  ghost predicate EndStored(ends: map<int, int>, rows: seq<ChatLog>, viewType: int, c: int) {
    viewType in ends ==>
      && 0 < ends[viewType] <= c
      && forall s | ends[viewType] <= s < c :: s in SeqNos(rows)
  }

  lemma MoreEndStored(ends: map<int, int>, stored: seq<ChatLog>, rows: seq<ChatLog>, viewType: int, c: int)
    requires EndStored(ends, stored, viewType, c) && stored <= rows
    ensures EndStored(ends, rows, viewType, c)
  {
    MoreStored(stored, rows);
  }

  function Lowered(ends: map<int, int>, viewType: int, low: int): map<int, int> {
    if viewType !in ends || low < ends[viewType] || ends[viewType] == 0 then ends[viewType := low] else ends
  }

  lemma LoweredEndStored(ends: map<int, int>, stored: seq<ChatLog>, rows: seq<ChatLog>, viewType: int, c: int, low: int)
    requires EndStored(ends, stored, viewType, c) && stored <= rows && 0 < low < c
    ensures EndStored(Lowered(ends, viewType, low), rows, viewType, low)
    ensures viewType in Lowered(ends, viewType, low)
    ensures Lowered(ends, viewType, low) - {viewType} == ends - {viewType}
    ensures var end := Lowered(ends, viewType, low)[viewType];
            if viewType in ends then end <= low && end <= ends[viewType] && (end == low || end == ends[viewType])
            else end == low
  {
    MoreStored(stored, rows);
  }

  lemma {:induction false} LiveMembers(list: seq<ChatLog>)
    ensures |Live(list)| <= |list|
    ensures forall r :: r in Live(list) <==> r in list && r.Live()
    ensures |Live(list)| == |list| ==> Live(list) == list
  {
    if list != [] {
      var init := list[..|list| - 1];
      assert list == init + [list[|list| - 1]];
      LiveMembers(init);
    }
  }

  /** The live rows of a page. */
  lemma {:induction false} LiveOfPage(list: seq<ChatLog>)
    requires Descending(list)
    ensures Descending(Live(list))
  {
    if list != [] {
      var init, last := list[..|list| - 1], list[|list| - 1];
      LiveOfPage(init);
      LiveMembers(init);
      assert forall r | r in init :: r.seqNo > last.seqNo;
      AppendDescends(Live(init), last);
    }
  }

  lemma AppendDescends(list: seq<ChatLog>, last: ChatLog)
    requires Descending(list) && forall r | r in list :: r.seqNo > last.seqNo
    ensures Descending(list + [last])
  {
  }

  /** The result is a part of the complete log below `c`: live messages as the log has them, newest first. */
  ghost predicate LiveRows(log: ServerLog, list: seq<ChatLog>, c: int) {
    && Descending(list)
    && forall r | r in list :: log.Has(r.seqNo) && r == log.At(r.seqNo) && r.Live() && r.seqNo < c
  }

  lemma PageLiveRows(log: ServerLog, list: seq<ChatLog>, c: int)
    requires log.HoldsAll(list) && Descending(list) && (list != [] ==> list[0].seqNo < c)
    ensures LiveRows(log, Live(list), c)
    ensures forall r | r in Live(list) :: list[|list| - 1].seqNo <= r.seqNo
  {
    LiveOfPage(list);
    LiveMembers(list);
    if list != [] { EndsOf(list); }
    forall r | r in Live(list)
      ensures log.Has(r.seqNo) && r == log.At(r.seqNo) && list[|list| - 1].seqNo <= r.seqNo < c
    {
      assert log.Holds(r) && r.seqNo in SeqNos(list);
    }
  }

  lemma JoinLiveRows(log: ServerLog, upper: seq<ChatLog>, lower: seq<ChatLog>, b: int, c: int)
    requires LiveRows(log, upper, c) && LiveRows(log, lower, b) && b < c
    requires forall r | r in upper :: b <= r.seqNo
    ensures LiveRows(log, upper + lower, c)
  {
    assert forall i | 0 <= i < |upper| :: (upper + lower)[i] == upper[i] && upper[i] in upper;
    assert forall i | |upper| <= i < |upper + lower| :: (upper + lower)[i] == lower[i - |upper|] && lower[i - |upper|] in lower;
  }

  /** `messages` is the log's unbroken run of live messages numbered `b .. c-1`. */
  ghost predicate Run(log: ServerLog, messages: seq<ChatLog>, b: int, c: int) {
    && log.lo <= b <= c && (b == c || (log.Has(b) && log.Has(c - 1)))
    && messages == log.LiveBetween(b, c)
  }

  /** `messages` is the first `count` live messages of the complete log below `c`. */
  ghost predicate FirstLive(log: ServerLog, messages: seq<ChatLog>, count: nat, c: int) {
    && (c == log.lo || log.Has(c - 1))
    && (c == log.lo || log.Has(log.lo))
    && messages == Take(log.LiveBetween(log.lo, c), count)
  }

  lemma RunJoined(log: ServerLog, upper: seq<ChatLog>, lower: seq<ChatLog>, bottom: int, b: int, c: int)
    requires Run(log, upper, b, c) && Run(log, lower, bottom, b)
    ensures Run(log, upper + lower, bottom, c)
  {
    log.LiveBetweenSplits(bottom, b, c);
  }

  /** Below an unbroken run the whole is one exactly when the upper part is. */
  lemma RunJoinedIff(log: ServerLog, upper: seq<ChatLog>, lower: seq<ChatLog>, bottom: int, b: int, c: int)
    requires Run(log, lower, bottom, b) && b <= c && (b == c || (log.Has(b) && log.Has(c - 1)))
    ensures Run(log, upper + lower, bottom, c) <==> Run(log, upper, b, c)
  {
    log.LiveBetweenSplits(bottom, b, c);
    var whole := upper + lower;
    assert |whole| - |lower| == |upper| && whole[..|upper|] == upper;
    var all := log.LiveBetween(b, c) + lower;
    assert all[..|all| - |lower|] == log.LiveBetween(b, c);
  }

  lemma FirstLiveJoined(log: ServerLog, upper: seq<ChatLog>, lower: seq<ChatLog>, count: nat, b: int, c: int)
    requires Run(log, upper, b, c) && |upper| <= count && FirstLive(log, lower, count - |upper|, b)
    ensures FirstLive(log, upper + lower, count, c)
  {
    log.LiveBetweenSplits(log.lo, b, c);
  }

  lemma ShortIsAll(log: ServerLog, messages: seq<ChatLog>, count: nat, c: int)
    requires FirstLive(log, messages, count, c) && |messages| < count
    ensures Run(log, messages, log.lo, c)
  {
  }

  lemma LastBelow(log: ServerLog, messages: seq<ChatLog>, c: int)
    requires LiveRows(log, messages, c) && messages != []
    ensures messages[|messages| - 1].seqNo < c
  {
  }

  lemma FirstLiveFull(log: ServerLog, upper: seq<ChatLog>, count: nat, b: int, c: int)
    requires Run(log, upper, b, c) && |upper| <= count && (|upper| == count || b == log.lo)
    requires c == log.lo || log.Has(c - 1)
    ensures FirstLive(log, upper, count, c)
  {
    log.LiveBetweenSplits(log.lo, b, c);
  }

  /** An unbroken page shows exactly the log's live messages of its range. */
  lemma PageShowsLog(log: ServerLog, list: seq<ChatLog>, c: int)
    requires log.HoldsAll(list) && Unbroken(list, c) && (c == log.lo || log.Has(c - 1))
    ensures Run(log, Live(list), c - |list|, c)
    ensures list != [] ==> list[|list| - 1].seqNo == c - |list|
  {
    log.LiveOfBlock(list, c);
  }

  /** No live message of the log is missing between the bottom of the page and `c`. */
  ghost predicate Whole(log: ServerLog, page: seq<ChatLog>, c: int) {
    page != [] ==> forall s | page[|page| - 1].seqNo <= s < c && log.Has(s) && log.At(s).Live() :: s in SeqNos(page)
  }

  lemma ShownIsWhole(log: ServerLog, list: seq<ChatLog>, b: int, c: int)
    requires log.Valid() && list != [] && b == list[|list| - 1].seqNo && Run(log, Live(list), b, c)
    ensures Whole(log, list, c)
  {
    hide ServerLog.LiveBetween, Live;
    log.LiveBetweenMembers(b, c);
    LiveMembers(list);
    forall s | b <= s < c && log.Has(s) && log.At(s).Live()
      ensures s in SeqNos(list)
    {
      assert log.At(s).seqNo == s;
      assert log.At(s) in Live(list);
    }
  }

  lemma WholeIsShown(log: ServerLog, list: seq<ChatLog>, b: int, c: int)
    requires log.Valid() && log.HoldsAll(list) && Descending(list) && list != [] && list[0].seqNo < c
    requires b == list[|list| - 1].seqNo && log.Has(b) && log.Has(c - 1) && Whole(log, list, c)
    ensures Live(list) == log.LiveBetween(b, c)
  {
    hide ServerLog.LiveBetween, Live, Descending;
    log.LiveBetweenMembers(b, c);
    PageLiveRows(log, list, c);
    LiveMembers(list);
    forall r | r in log.LiveBetween(b, c)
      ensures r in Live(list)
    {
      assert r.seqNo in SeqNos(list);
      var x :| x in list && x.seqNo == r.seqNo;
      assert log.Holds(x);
    }
    SameMembersSame(Live(list), log.LiveBetween(b, c));
  }

  /** A page as the table has it shows the log's live messages of its range exactly when it lacks none of them. */
  lemma PageShowsLogIff(log: ServerLog, list: seq<ChatLog>, c: int)
    requires log.Valid() && log.HoldsAll(list) && Descending(list) && (list != [] ==> list[0].seqNo < c)
    requires c == log.lo || log.Has(c - 1)
    ensures var b := BottomOf(list, c);
            Run(log, Live(list), b, c) <==> Whole(log, list, c)
  {
    if list != [] {
      hide Whole, Descending, Live, ServerLog.HoldsAll, ServerLog.LiveBetween;
      var b := list[|list| - 1].seqNo;
      BottomInLog(log, list);
      if Whole(log, list, c) {
        WholeIsShown(log, list, b, c);
      }
      if Run(log, Live(list), b, c) {
        ShownIsWhole(log, list, b, c);
      }
    }
  }

  /** The lowest number of the rows that have one. */
  ghost predicate LowestIn(low: int, list: seq<ChatLog>) {
    && low > 0 && (exists r :: r in list && r.seqNo == low)
    && forall r | r in list && r.seqNo != 0 :: r.seqNo >= low
  }

  ghost predicate LowestOrZero(end: int, list: seq<ChatLog>) {
    if end == 0 then forall r | r in list :: r.seqNo == 0 else LowestIn(end, list)
  }

  lemma LowestOfNone()
    ensures LowestOrZero(0, [])
  {
  }

  lemma LowestMore(end: int, list: seq<ChatLog>, m: ChatLog)
    requires LowestOrZero(end, list) && m.seqNo >= 0
    ensures LowestOrZero(if m.seqNo != 0 && (end == 0 || m.seqNo < end) then m.seqNo else end, list + [m])
  {
    assert m in list + [m] && forall r | r in list :: r in list + [m];
  }

  lemma LowestIs(end: int, list: seq<ChatLog>)
    requires LowestOrZero(end, list)
    ensures forall low | LowestIn(low, list) :: low == end != 0
    ensures (forall r | r in list :: r.seqNo == 0) ==> end == 0
  {
  }

  lemma BottomIsLowest(log: ServerLog, list: seq<ChatLog>)
    requires log.Valid() && log.HoldsAll(list) && Descending(list)
    ensures forall r | r in list :: r.seqNo > 0
    ensures list != [] ==> LowestIn(list[|list| - 1].seqNo, list)
  {
    assert forall r | r in list :: log.Holds(r);
    if list != [] {
      EndsOf(list);
      assert forall r | r in list :: r.seqNo in SeqNos(list);
    }
  }

  /** The number of the last row of a page below `c`. */
  function BottomOf(list: seq<ChatLog>, c: int): int {
    if list == [] then c else list[|list| - 1].seqNo
  }

  /** What a page shows of the log between its bottom and `c`, unbroken if its gaps were asked for or as the table has it. */
  lemma LiveShown(log: ServerLog, list: seq<ChatLog>, count: nat, c: int, asks: bool)
    requires log.Valid() && log.HoldsAll(list) && Descending(list) && |list| <= count && (list != [] ==> list[0].seqNo < c)
    requires c == log.lo || log.Has(c - 1)
    requires asks && count <= PULL_MSG_NUM_FOR_READ_DIFFUSION ==> Unbroken(list, c)
    ensures var b, shown := BottomOf(list, c), Live(list);
            && log.lo <= b <= c && (b == c || (log.Has(b) && log.Has(c - 1))) && (list != [] ==> 0 < b < c)
            && (forall r | r in list :: b <= r.seqNo)
            && LiveRows(log, shown, c) && (forall r | r in shown :: b <= r.seqNo)
            && |shown| <= |list| && (|shown| == |list| ==> shown == list)
            && (asks && count <= PULL_MSG_NUM_FOR_READ_DIFFUSION ==> Run(log, shown, b, c))
            && (!asks ==> (Run(log, shown, b, c) <==> Whole(log, list, c)))
  {
    hide Descending, Unbroken, LiveRows, Run, Live, Whole, ServerLog.HoldsAll;
    LiveMembers(list);
    PageLiveRows(log, list, c);
    PageShowsLogIff(log, list, c);
    if asks && count <= PULL_MSG_NUM_FOR_READ_DIFFUSION {
      PageShowsLog(log, list, c);
    }
    if list != [] {
      BottomInLog(log, list);
      EndsOf(list);
      assert forall r | r in list :: r.seqNo in SeqNos(list);
    }
  }

  lemma LiveAreStored(rows: seq<ChatLog>, list: seq<ChatLog>)
    requires LiveStored(rows, list)
    ensures forall r | r in Live(list) :: r in rows
  {
    LiveMembers(list);
  }

  lemma BottomInLog(log: ServerLog, list: seq<ChatLog>)
    requires log.HoldsAll(list) && Descending(list) && list != []
    ensures log.Has(list[|list| - 1].seqNo) && log.Has(list[0].seqNo) && list[|list| - 1].seqNo <= list[0].seqNo
  {
    EndsOf(list);
    assert log.Holds(list[|list| - 1]) && log.Holds(list[0]);
  }

  /** The local numbers strictly between two numbers. */
  ghost function Between(rows: seq<ChatLog>, s: int, c: int): set<int> {
    set r | r in rows && s < r.seqNo < c :: r.seqNo
  }

  /** Every live message below `c` that is not local lies under at least `count` local ones, or under all of the table. */
  ghost predicate OnlyDeepHoles(log: ServerLog, rows: seq<ChatLog>, count: nat, c: int) {
    forall s | log.Has(s) && s < c && log.At(s).Live() && s !in SeqNos(rows) && (exists r :: r in rows && r.seqNo < s) ::
      |Between(rows, s, c)| >= count
  }

  /** `page` are the `count` highest rows of the table below `c`. */
  ghost predicate HighestBelow(rows: seq<ChatLog>, count: nat, c: int, page: seq<ChatLog>) {
    && Descending(page) && |page| <= count
    && (forall r | r in page :: r in rows && r.seqNo < c)
    && (forall r | r in rows && r.seqNo < c && r !in page :: |page| == count && forall p | p in page :: r.seqNo < p.seqNo)
  }

  lemma {:induction false} PageCount(page: seq<ChatLog>)
    requires Descending(page)
    ensures |SeqNos(page)| == |page|
  {
    if page != [] {
      var init, last := page[..|page| - 1], page[|page| - 1];
      PageCount(init);
      assert page == init + [last];
      assert SeqNos(page) == SeqNos(init) + {last.seqNo};
    }
  }

  lemma SubsetSize(a: set<int>, b: set<int>)
    requires a <= b
    ensures |a| <= |b|
  {
    assert b == a + (b - a);
  }

  /** A number that is not local lies above the bottom of the page exactly when fewer than `count` local ones are above it. */
  lemma AboveBottomIff(rows: seq<ChatLog>, count: nat, c: int, page: seq<ChatLog>, s: int)
    requires HighestBelow(rows, count, c, page) && s < c && s !in SeqNos(rows)
    ensures page != [] && page[|page| - 1].seqNo < s
            <==> (exists r :: r in rows && r.seqNo < s) && |Between(rows, s, c)| < count
  {
    PageCount(page);
    var above := Between(rows, s, c);
    if page != [] {
      EndsOf(page);
      var bottom := page[|page| - 1].seqNo;
      if bottom < s {
        assert page[|page| - 1] in rows;
        assert above <= SeqNos(page) - {bottom};
        SubsetSize(above, SeqNos(page) - {bottom});
      } else {
        assert s != bottom;
        if |page| == count {
          assert SeqNos(page) <= above;
          SubsetSize(SeqNos(page), above);
        } else {
          assert forall r | r in rows && r.seqNo < c :: r.seqNo in SeqNos(page);
        }
      }
    }
  }

  lemma WholeIffDeepHoles(log: ServerLog, rows: seq<ChatLog>, count: nat, c: int, page: seq<ChatLog>)
    requires HighestBelow(rows, count, c, page) && count > 0
    ensures Whole(log, page, c) <==> OnlyDeepHoles(log, rows, count, c)
  {
    forall s | log.Has(s) && s < c && log.At(s).Live()
      ensures page != [] && page[|page| - 1].seqNo <= s && s !in SeqNos(page)
              <==> s !in SeqNos(rows) && (exists r :: r in rows && r.seqNo < s) && |Between(rows, s, c)| < count
    {
      if page != [] { EndsOf(page); }
      if s in SeqNos(rows) {
        var r :| r in rows && r.seqNo == s;
        assert r in page ==> s in SeqNos(page);
      } else {
        AboveBottomIff(rows, count, c, page, s);
        assert s in SeqNos(page) ==> s in SeqNos(rows);
      }
    }
  }

  /** A descending list is determined by its members. */
  lemma {:induction false} SameMembersSame(a: seq<ChatLog>, b: seq<ChatLog>)
    requires Descending(a) && Descending(b) && forall r :: r in a <==> r in b
    ensures a == b
  {
    hide Descending;
    assert forall i | 0 <= i < |a| :: a[i] in b;
    assert forall i | 0 <= i < |b| :: b[i] in a;
    if a != [] && b != [] {
      HighestFirst(a);
      HighestFirst(b);
      assert a[0] in b && b[0] in a && a[0] == b[0];
      SameMembersSame(a[1..], b[1..]);
    }
  }

  lemma HighestFirst(list: seq<ChatLog>)
    requires Descending(list) && list != []
    ensures Descending(list[1..]) && list == [list[0]] + list[1..]
    ensures forall r | r in list :: r == list[0] || r.seqNo < list[0].seqNo
    ensures forall r :: r in list[1..] <==> r in list && r != list[0]
  {
  }

  /** A log of live messages numbered 1 .. n. */
  function LiveLog(n: nat): ServerLog {
    ServerLog(1, seq(n, i requires 0 <= i < n => ChatLog(seq(i + 1, _ => 'a'), i + 1, i + 1, MSG_STATUS_SEND_SUCCESS, "")),
              _ => false)
  }

  lemma LiveLogAt(n: nat)
    ensures var log := LiveLog(n);
            && log.lo == 1 && log.Hi() == n + 1
            && forall s | log.Has(s) ::
                 var m := log.At(s);
                 && m.seqNo == s && m.sendTime == s && m.status == MSG_STATUS_SEND_SUCCESS
                 && |m.clientMsgId| == s && !Tagged(m.clientMsgId)
  {
    var log := LiveLog(n);
    forall s | log.Has(s)
      ensures |log.At(s).clientMsgId| == s && log.At(s).clientMsgId[0] == 'a'
    {
    }
  }

  lemma LiveLogIsValid(n: nat)
    ensures var log := LiveLog(n);
            && log.Valid() && log.lo == 1 && log.Hi() == n + 1
            && forall s | log.Has(s) :: log.At(s).seqNo == s && log.At(s).sendTime == s
                && log.At(s).Live() && log.Holds(log.At(s))
  {
    LiveLogAt(n);
    hide LiveLog, Tagged;
  }

  /** A first read of two while not connected shows the hole of this table: of three live messages the second is not local. */
  lemma FirstReadWithHole() returns (log: ServerLog, rows: seq<ChatLog>)
    ensures log.Valid() && log.TableOk(rows) && log.lo == 1 && log.Hi() == 4
            && log.At(3) in rows && !OnlyDeepHoles(log, rows, 2, 4)
  {
    hide ServerLog.Valid, LiveLog;
    log := LiveLog(3);
    LiveLogIsValid(3);
    rows := [log.At(3), log.At(1)];
    assert SeqNos(rows) == {3, 1};
    assert log.At(1) in rows && Between(rows, 2, 4) == {3};
  }

  lemma FilledLength(log: ServerLog, list: seq<ChatLog>, lost: seq<int>, count: nat, list': seq<ChatLog>,
                     whole: seq<ChatLog>)
    requires Filled(log, list, lost, count, list', whole) && |list| <= count
    ensures |list| <= |list'| <= count
  {
  }

  lemma FilledInside(log: ServerLog, list: seq<ChatLog>, have: seq<int>, lost: seq<int>, count: nat,
                     list': seq<ChatLog>, whole: seq<ChatLog>)
    requires log.Valid() && log.HoldsAll(list) && Descending(list) && list != []
    requires count > 0
    requires forall s :: s in have <==> s in SeqNos(list)
    requires LostOf(lost, list[|list| - 1].seqNo, list[0].seqNo, have, false)
    requires Filled(log, list, lost, count, list', whole)
    ensures list' != [] && list'[0].seqNo == list[0].seqNo
    ensures count <= PULL_MSG_NUM_FOR_READ_DIFFUSION ==> Unbroken(list', list[0].seqNo + 1)
  {
    var b, c := list[|list| - 1].seqNo, list[0].seqNo + 1;
    EndsOf(list);
    assert log.Holds(list[0]) && log.Holds(list[|list| - 1]);
    WholeWithin(log, list, lost, count, list', whole, b, c);
    assert list[0].seqNo in SeqNos(whole);
    EndsOf(whole);
    if count <= PULL_MSG_NUM_FOR_READ_DIFFUSION {
      FillLacksOnlyBelow(log, list, have, lost, b, c - 1, count, list', whole, b, c);
      FillMakesBlock(whole, lost, b, c, count);
    }
  }

  lemma WholeWithin(log: ServerLog, list: seq<ChatLog>, lost: seq<int>, count: nat, list': seq<ChatLog>,
                    whole: seq<ChatLog>,
                    b: int, c: int)
    requires Filled(log, list, lost, count, list', whole)
    requires forall r | r in list :: b <= r.seqNo < c
    requires forall s | s in lost && log.Has(s) :: b <= s < c
    ensures forall r | r in whole :: b <= r.seqNo < c
    ensures forall r | r in list' :: r in whole
  {
    forall r | r in whole
      ensures b <= r.seqNo < c
    {
      assert r.seqNo in SeqNos(whole);
    }
    assert forall i | 0 <= i < |list'| :: list'[i] == whole[i] && whole[i] in whole;
  }

  lemma NoGapsInside(log: ServerLog, list: seq<ChatLog>, have: seq<int>)
    requires list != [] && Descending(list)
    requires forall s :: s in have <==> s in SeqNos(list)
    requires LostOf([], list[|list| - 1].seqNo, list[0].seqNo, have, false)
    ensures Unbroken(list, list[0].seqNo + 1)
  {
    EndsOf(list);
    DenseWhole(list, list[|list| - 1].seqNo, list[0].seqNo + 1);
  }

  lemma NoneLost(list: seq<ChatLog>, have: seq<int>, lost: seq<int>)
    requires list != [] && Descending(list) && Unbroken(list, list[0].seqNo + 1)
    requires forall s :: s in have <==> s in SeqNos(list)
    requires LostOf(lost, list[|list| - 1].seqNo, list[0].seqNo, have, false)
    ensures lost == []
  {
    assert lost != [] ==> lost[0] in lost;
    UnbrokenHas(list, list[0].seqNo + 1);
  }

  /** The page after the numbers between it and the bound above it were pulled. */
  lemma FilledAbove(log: ServerLog, list: seq<ChatLog>, start: int, lost: seq<int>, c: int, count: nat,
                    list': seq<ChatLog>, whole: seq<ChatLog>)
    requires log.Valid() && log.HoldsAll(list) && Descending(list)
    requires start == (if list == [] then 0 else list[0].seqNo) && start < c
    requires count <= PULL_MSG_NUM_FOR_READ_DIFFUSION ==> Unbroken(list, start + 1)
    requires c == log.lo || log.Has(c - 1)
    requires LostOf(lost, start + 1, c - 1, [], false)
    requires Filled(log, list, lost, count, list', whole)
    ensures forall r | r in list' :: r.seqNo < c
    ensures count <= PULL_MSG_NUM_FOR_READ_DIFFUSION ==> Unbroken(list', c)
    ensures list' == [] && count > 0 ==> c == log.lo
  {
    var b := if list == [] then log.lo else list[|list| - 1].seqNo;
    if list != [] {
      EndsOf(list);
      assert log.Holds(list[|list| - 1]);
    }
    WholeWithin(log, list, lost, count, list', whole, b, c);
    if list == [] && c != log.lo {
      AskedBelowStartIff(start, c, c - 1, lost);
      assert c - 1 in SeqNos(whole);
    }
    if count <= PULL_MSG_NUM_FOR_READ_DIFFUSION {
      UnbrokenHas(list, start + 1);
      FillLacksOnlyBelow(log, list, [], lost, start + 1, c - 1, count, list', whole, b, c);
      FillMakesBlock(whole, lost, b, c, count);
    }
  }

  /**
   * The fill towards the page before asks only for numbers below the start message `c` exactly when the stored end of the
   * view is not above it.
   */
  lemma AskedBelowStartIff(start: int, end: int, c: int, lost: seq<int>)
    requires start < c && LostOf(lost, start + 1, end - 1, [], false)
    ensures (forall s | s in lost :: s < c) <==> end <= c
    ensures end > c ==> end - 1 in lost
  {
    if end > c {
      assert start + 1 <= end - 1;
      assert lost != [] ==> lost[0] in lost;
      assert end - 1 in lost;
    }
  }

  /** When it is answered and none of the numbers asked for is local, the same goes for the page that it leaves. */
  lemma ShownBelowStartIff(log: ServerLog, list: seq<ChatLog>, start: int, end: int, c: int, lost: seq<int>, count: nat,
                            list': seq<ChatLog>, whole: seq<ChatLog>)
    requires log.HoldsAll(list) && Descending(list) && start == (if list == [] then 0 else list[0].seqNo) && start < c
    requires log.Has(c) && log.Has(end) && count > 0
    requires LostOf(lost, start + 1, end - 1, [], false) && Filled(log, list, lost, count, list', whole)
    ensures (forall r | r in list' :: r.seqNo < c) <==> end <= c
  {
    hide LostOf;
    AskedBelowStartIff(start, end, c, lost);
    if list != [] { EndsOf(list); }
    if end > c {
      assert end - 1 in SeqNos(whole);
      EndsOf(whole);
      assert whole[0] in list' && whole[0].seqNo >= end - 1;
    } else {
      forall r | r in list'
        ensures r.seqNo < c
      {
        assert r in whole && r.seqNo in SeqNos(whole);
      }
    }
  }

  /** Where the page ends up after the fill towards the page before: at the stored end, or where the page begins above it. */
  function JoinedUpTo(start: int, end: int): int {
    if start + 1 < end then end else start + 1
  }

  lemma FillJoins(log: ServerLog, list: seq<ChatLog>, start: int, end: int, lost: seq<int>, count: nat,
                  list': seq<ChatLog>, whole: seq<ChatLog>)
    requires log.Valid() && log.HoldsAll(list) && Descending(list) && list != [] && start == list[0].seqNo
    requires Unbroken(list, start + 1) && count <= PULL_MSG_NUM_FOR_READ_DIFFUSION && (end <= start + 1 || log.Has(end - 1))
    requires LostOf(lost, start + 1, end - 1, [], false)
    requires if lost == [] then list' == list else Filled(log, list, lost, count, list', whole)
    ensures Unbroken(list', JoinedUpTo(start, end)) && log.HoldsAll(list')
  {
    hide ServerLog.Valid;
    LostRange(lost, start + 1, end - 1, [], false);
    if lost != [] {
      FilledAbove(log, list, start, lost, end, count, list', whole);
      FrontOf(log, whole, |list'|);
    }
  }

  /** A run reaches further up exactly over numbers without a live message. */
  lemma RunReachesIff(log: ServerLog, messages: seq<ChatLog>, b: int, top: int, c: int)
    requires log.Valid() && Run(log, messages, b, top) && top <= c && log.Has(c) && log.Has(b)
    ensures Run(log, messages, b, c) <==> forall s | top <= s < c :: !log.At(s).Live()
  {
    log.LiveBetweenSplits(b, top, c);
    log.LiveBetweenMembers(top, c);
    hide ServerLog.LiveBetween, ServerLog.Valid;
    var above := log.LiveBetween(top, c);
    assert |above + messages| == |above| + |messages|;
    assert above == [] ==> above + messages == messages;
    if above != [] {
      assert above[0] in above && log.At(above[0].seqNo).Live();
    }
    if exists s :: top <= s < c && log.At(s).Live() {
      var s :| top <= s < c && log.At(s).Live();
      NumberAt(log, s);
      assert log.At(s) in above;
    }
  }

  lemma NumberAt(log: ServerLog, s: int)
    requires log.Valid() && log.Has(s)
    ensures log.At(s).seqNo == s
  {
  }

  /**
   * A start message above the stored end of its view: the page shows the log's live messages up to the start exactly when
   * there is none above both the stored end and the page; the code asks for nothing there.
   */
  lemma PageReachesStartIff(log: ServerLog, list: seq<ChatLog>, start: int, end: int, c: int, lost: seq<int>, count: nat,
                            list': seq<ChatLog>, whole: seq<ChatLog>)
    requires log.Valid() && log.HoldsAll(list) && Descending(list) && list != [] && start == list[0].seqNo < c
    requires Unbroken(list, start + 1) && 0 < count <= PULL_MSG_NUM_FOR_READ_DIFFUSION && log.Has(c) && log.Has(end) && end <= c
    requires LostOf(lost, start + 1, end - 1, [], false)
    requires if lost == [] then list' == list else Filled(log, list, lost, count, list', whole)
    ensures var top := JoinedUpTo(start, end);
            Run(log, Live(list'), top - |list'|, c) <==> forall s | top <= s < c :: !log.At(s).Live()
  {
    hide ServerLog.Valid, LostOf, Filled, Live, Unbroken, Descending, ServerLog.LiveBetween, ServerLog.HoldsAll;
    var top := JoinedUpTo(start, end);
    BottomInLog(log, list);
    FillJoins(log, list, start, end, lost, count, list', whole);
    PageShowsLog(log, list', top);
    if list' != [] { LastInLog(log, list'); }
    RunReachesIff(log, Live(list'), top - |list'|, top, c);
  }

  lemma LastInLog(log: ServerLog, list: seq<ChatLog>)
    requires log.HoldsAll(list) && list != []
    ensures log.Has(list[|list| - 1].seqNo)
  {
    assert log.Holds(list[|list| - 1]);
  }

  /**
   * An answered fill towards the start message `c`: `list` is the page that the table `rows` has below it, unbroken in
   * itself, `lost` are the numbers asked for, none of them local, and `list'` is the page afterwards.
   */
  ghost predicate GapFill(log: ServerLog, rows: seq<ChatLog>, c: int, count: nat, list: seq<ChatLog>, lost: seq<int>,
                          list': seq<ChatLog>, whole: seq<ChatLog>) {
    && log.Valid() && log.TableOk(rows) && log.Has(c) && log.At(c) in rows && NoneOf(rows, lost)
    && list == GetMessageList(rows, count, log.At(c).sendTime, c, log.At(c).clientMsgId)
    && list != [] && log.HoldsAll(list) && Descending(list) && list[0].seqNo < c && Unbroken(list, list[0].seqNo + 1)
    && LostOf(lost, list[0].seqNo + 1, c - 1, [], false)
    && Filled(log, list, lost, count, list', whole)
  }

  /** One fill towards the page before always closes the gap if and only if the page has at most fifty rows. */
  lemma FiftyIsExact(count: nat)
    ensures (forall log, rows, c, list, lost, list', whole ::
               GapFill(log, rows, c, count, list, lost, list', whole) ==> Unbroken(list', c))
            <==> count <= PULL_MSG_NUM_FOR_READ_DIFFUSION
  {
    if count <= PULL_MSG_NUM_FOR_READ_DIFFUSION {
      forall log, rows, c, list, lost, list', whole | GapFill(log, rows, c, count, list, lost, list', whole)
        ensures Unbroken(list', c)
      {
        GapFillMakesBlock(log, rows, c, count, list, lost, list', whole);
      }
    } else {
      var log, rows, c, list, lost, list', whole := PageWithGap(count);
    }
  }

  lemma GapFillMakesBlock(log: ServerLog, rows: seq<ChatLog>, c: int, count: nat, list: seq<ChatLog>, lost: seq<int>,
                          list': seq<ChatLog>, whole: seq<ChatLog>)
    requires GapFill(log, rows, c, count, list, lost, list', whole) && count <= PULL_MSG_NUM_FOR_READ_DIFFUSION
    ensures Unbroken(list', c)
  {
    hide ServerLog.Valid, GetMessageList, LostOf, Filled, Unbroken, Descending;
    assert log.Has(c - 1) by {
      assert list[0] in list && log.Holds(list[0]);
    }
    FilledAbove(log, list, list[0].seqNo, lost, c, count, list', whole);
  }

  /** Fifty numbers from `low` on, and the log's messages of these numbers, newest first, followed by message 1. */
  function FiftyNumbers(low: int): seq<int> {
    seq(50, i => i + low)
  }

  function FiftyRowsAndOne(log: ServerLog, low: int): seq<ChatLog>
    requires log.lo == 1 < low && log.Has(low + 49)
  {
    seq(50, i requires 0 <= i < 50 => log.At(low + 49 - i)) + [log.At(1)]
  }

  lemma FiftyAreLost(low: int)
    requires low > 2
    ensures LostOf(FiftyNumbers(low), 2, low + 49, [], false)
    ensures forall s :: s in FiftyNumbers(low) <==> low <= s <= low + 49
  {
    forall s | low <= s <= low + 49
      ensures s in FiftyNumbers(low)
    {
      assert FiftyNumbers(low)[s - low] == s;
    }
  }

  lemma FiftyRowsAre(log: ServerLog, low: int)
    requires log.lo == 1 < low && log.Has(low + 49) && forall s | log.Has(s) :: log.At(s).seqNo == s && log.Holds(log.At(s))
    ensures var whole := FiftyRowsAndOne(log, low);
            && |whole| == 51 && whole[0] == log.At(low + 49) && whole[50] == log.At(1)
            && Descending(whole) && log.HoldsAll(whole)
            && forall s :: s in SeqNos(whole) <==> s == 1 || low <= s <= low + 49
  {
    hide ServerLog.Holds;
    var whole := FiftyRowsAndOne(log, low);
    assert forall i | 0 <= i < 51 :: whole[i] == log.At(if i < 50 then low + 49 - i else 1);
    forall s | s == 1 || low <= s <= low + 49
      ensures s in SeqNos(whole)
    {
      var i := if s == 1 then 50 else low + 49 - s;
      assert whole[i].seqNo == s && whole[i] in whole;
    }
  }

  lemma FiftyFill(log: ServerLog, low: int, count: nat)
    requires log.lo == 1 && low > 2 && log.Has(low + 49)
    requires forall s | log.Has(s) :: log.At(s).seqNo == s && log.Holds(log.At(s))
    ensures var whole := FiftyRowsAndOne(log, low);
            Filled(log, [log.At(1)], FiftyNumbers(low), count, Take(whole, count), whole)
  {
    FiftyRowsAre(log, low);
    FiftyAreLost(low);
    hide FiftyNumbers, FiftyRowsAndOne, LostOf, ServerLog.Holds;
    assert SeqNos([log.At(1)]) == {1};
    assert SeqNos(FiftyRowsAndOne(log, low)) == {1} + set s | s in FiftyNumbers(low) && log.Has(s);
  }

  /** With three rows at most, the page below the second newest of them is the oldest. */
  lemma PageOfOne(newer: seq<ChatLog>, a: ChatLog, c: ChatLog, count: nat)
    requires 0 < a.sendTime < c.sendTime && 0 < a.seqNo < c.seqNo && count > 0
    requires |newer| <= 1 && forall r | r in newer :: r.sendTime > c.sendTime
    ensures GetMessageList(newer + [c, a], count, c.sendTime, c.seqNo, c.clientMsgId) == [a]
  {
    assert [c, a][1..] == [a] && [a][1..] == [];
    assert SelectDesc([a], c.sendTime, c.seqNo, c.clientMsgId) == InsertDesc(a, []);
    assert SelectDesc([c, a], c.sendTime, c.seqNo, c.clientMsgId) == [a];
    if newer == [] {
      assert newer + [c, a] == [c, a];
    } else {
      assert (newer + [c, a])[1..] == [c, a] && (newer + [c, a])[0] in newer;
    }
  }

  lemma FewLocal(log: ServerLog, rows: seq<ChatLog>, low: int)
    requires log.lo == 1 && low > 2 && forall s | log.Has(s) :: log.At(s).seqNo == s && log.Holds(log.At(s))
    requires forall r | r in rows :: log.Has(r.seqNo) && r == log.At(r.seqNo) && (r.seqNo < low || r.seqNo == low + 50)
    requires forall i, j | 0 <= i < j < |rows| :: rows[i].seqNo != rows[j].seqNo
    ensures log.TableOk(rows) && NoneOf(rows, FiftyNumbers(low))
  {
    hide ServerLog.Holds;
  }

  /**
   * Of 53 live messages the first and the last are local, and the page below the last is read. Of 2 .. 52 the fill brings the
   * fifty numbers 3 .. 52, and message 1 follows message 3.
   */
  lemma PageWithGap(count: nat)
    returns (log: ServerLog, rows: seq<ChatLog>, c: int, list: seq<ChatLog>, lost: seq<int>,
             list': seq<ChatLog>, whole: seq<ChatLog>)
    requires count > PULL_MSG_NUM_FOR_READ_DIFFUSION
    ensures GapFill(log, rows, c, count, list, lost, list', whole) && !Unbroken(list', c)
  {
    hide LiveLog, ServerLog.Valid, GetMessageList, ServerLog.Holds, LostOf, FiftyNumbers, FiftyRowsAndOne, Filled, NoneOf,
         ServerLog.TableOk;
    log, c := LiveLog(53), 53;
    LiveLogIsValid(53);
    rows, list := [log.At(53), log.At(1)], [log.At(1)];
    assert [] + rows == rows;
    PageOfOne([], log.At(1), log.At(53), count);
    FewLocal(log, rows, 3);
    lost, whole := FiftyNumbers(3), FiftyRowsAndOne(log, 3);
    list' := Take(whole, count);
    FiftyAreLost(3);
    FiftyFill(log, 3, count);
    FiftyRowsAre(log, 3);
    assert list'[50].seqNo == 1;
  }

  /**
   * Of 60 live messages 1, 2 and 60 are local, and the view has its end at 60: a read of one message below message 2 asks for
   * 10 .. 59 and shows message 59.
   */
  lemma ReadBelowEndShowsAbove()
    returns (log: ServerLog, rows: seq<ChatLog>, list: seq<ChatLog>, lost: seq<int>, list': seq<ChatLog>, whole: seq<ChatLog>)
    ensures log.Valid() && log.TableOk(rows) && log.Has(2) && log.At(2) in rows && log.Has(60) && log.At(60) in rows
    ensures log.Has(1) && log.Has(59)
    ensures list == GetMessageList(rows, 1, log.At(2).sendTime, 2, log.At(2).clientMsgId) && list == [log.At(1)]
    ensures LostOf(lost, list[0].seqNo + 1, 60 - 1, [], false) && NoneOf(rows, lost)
    ensures Filled(log, list, lost, 1, list', whole) && list' == [log.At(59)]
  {
    hide LiveLog, ServerLog.Valid, GetMessageList, ServerLog.Holds, LostOf, FiftyNumbers, FiftyRowsAndOne, Filled, NoneOf,
         ServerLog.TableOk;
    log := LiveLog(60);
    LiveLogIsValid(60);
    rows, list := [log.At(60), log.At(2), log.At(1)], [log.At(1)];
    assert [log.At(60)] + [log.At(2), log.At(1)] == rows;
    PageOfOne([log.At(60)], log.At(1), log.At(2), 1);
    FewLocal(log, rows, 10);
    lost, whole := FiftyNumbers(10), FiftyRowsAndOne(log, 10);
    list' := Take(whole, 1);
    FiftyAreLost(10);
    FiftyFill(log, 10, 1);
    FiftyRowsAre(log, 10);
  }

  /** `list'` is what an answered fill between the numbers `start` and `end` makes of `list`. */
  ghost predicate GapFilled(log: ServerLog, list: seq<ChatLog>, start: int, end: int, count: nat, list': seq<ChatLog>) {
    exists lost: seq<int>, whole: seq<ChatLog> ::
      LostOf(lost, start + 1, end - 1, [], false) && Filled(log, list, lost, count, list', whole)
  }

  /** A page that runs from the first message of an all-live log up to a gap below `end`. */
  ghost predicate OneGap(log: ServerLog, page: seq<ChatLog>, end: int) {
    && log.Valid() && log.lo == 1 && (forall s | log.Has(s) :: log.At(s).Live()) && log.Has(end)
    && page != [] && log.HoldsAll(page) && Descending(page) && Unbroken(page, page[0].seqNo + 1)
    && page[|page| - 1].seqNo == 1 && page[0].seqNo + 1 < end
  }

  lemma OneGapEnds(log: ServerLog, page: seq<ChatLog>, end: int, count: nat, list': seq<ChatLog>)
    requires OneGap(log, page, end) && GapFilled(log, page, page[0].seqNo, end, count, list') && count > 0
    ensures log.HoldsAll(list') && Descending(list') && Live(list') == list' && list' != [] && |list'| <= count
    ensures |list'| == count || list'[|list'| - 1].seqNo == 1
  {
    var lost: seq<int>, whole: seq<ChatLog> :|
      LostOf(lost, page[0].seqNo + 1, end - 1, [], false) && Filled(log, page, lost, count, list', whole);
    FrontOf(log, whole, |list'|);
    OneGapBottom(log, page, whole);
    hide ServerLog.Valid, Descending, Unbroken, LostOf, Live;
    assert forall r | r in list' :: log.Holds(r);
    AllLive(list');
  }

  lemma OneGapBottom(log: ServerLog, page: seq<ChatLog>, whole: seq<ChatLog>)
    requires log.lo == 1 && page != [] && page[|page| - 1].seqNo == 1
    requires log.HoldsAll(whole) && Descending(whole) && SeqNos(page) <= SeqNos(whole)
    ensures whole != [] && whole[|whole| - 1].seqNo == 1
  {
    assert page[|page| - 1] in page && 1 in SeqNos(whole);
    EndsOf(whole);
    assert log.Holds(whole[|whole| - 1]);
  }

  lemma {:induction false} AllLive(list: seq<ChatLog>)
    requires forall r | r in list :: r.Live()
    ensures Live(list) == list
  {
    if list != [] {
      var init, last := list[..|list| - 1], list[|list| - 1];
      assert list == init + [last] && last in list;
      AllLive(init);
    }
  }

  /** As many consecutive numbers as an ascending list holds make it that long. */
  lemma {:induction false} DenseAscending(seqs: seq<int>, lo: int, m: nat)
    requires Ascending(seqs) && forall s | lo <= s < lo + m :: s in seqs
    ensures |seqs| >= m
  {
    if m > 0 {
      assert lo + m - 1 in seqs;
      var j :| 0 <= j < |seqs| && seqs[j] == lo + m - 1;
      forall s | lo <= s < lo + m - 1
        ensures s in seqs[..j]
      {
        assert s in seqs;
        var i :| 0 <= i < |seqs| && seqs[i] == s;
        assert i < j && seqs[..j][i] == s;
      }
      DenseAscending(seqs[..j], lo, m - 1);
    }
  }

  /** Of a gap of more than fifty numbers the lowest is not asked for; of a smaller one all are. */
  lemma LowestAsked(lost: seq<int>, lo: int, hi: int)
    requires lo <= hi && LostOf(lost, lo, hi, [], false)
    ensures lo in lost <==> hi - lo < PULL_MSG_NUM_FOR_READ_DIFFUSION
    ensures lo in lost ==> forall s | lo <= s <= hi :: s in lost
  {
    assert lost != [] ==> lost[0] in lost;
    if lo in lost {
      DenseAscending(lost, lo, hi - lo + 1);
    } else {
      AscendingSpread(lost, 0, PULL_MSG_NUM_FOR_READ_DIFFUSION - 1);
      assert lost[PULL_MSG_NUM_FOR_READ_DIFFUSION - 1] in lost;
    }
  }

  /** The page afterwards is an unbroken part of the log exactly when the page or the gap has at most fifty messages. */
  lemma OneGapClosesIff(log: ServerLog, page: seq<ChatLog>, end: int, count: nat, list': seq<ChatLog>)
    requires OneGap(log, page, end) && GapFilled(log, page, page[0].seqNo, end, count, list') && count > 0
    ensures (exists b :: Run(log, list', b, end))
            <==> count <= PULL_MSG_NUM_FOR_READ_DIFFUSION || end - 1 - page[0].seqNo <= PULL_MSG_NUM_FOR_READ_DIFFUSION
  {
    hide ServerLog.Valid, LostOf, Live, Filled, Descending, Unbroken, Run;
    var start := page[0].seqNo;
    var lost: seq<int>, whole: seq<ChatLog> :|
      LostOf(lost, start + 1, end - 1, [], false) && Filled(log, page, lost, count, list', whole);
    OneGapEnds(log, page, end, count, list');
    LowestAsked(lost, start + 1, end - 1);
    assert log.Has(end - 1) by { assert page[0] in page && log.Holds(page[0]); }
    if count <= PULL_MSG_NUM_FOR_READ_DIFFUSION || end - 1 - start <= PULL_MSG_NUM_FOR_READ_DIFFUSION {
      OneGapCloses(log, page, end, lost, count, list', whole);
      PageShowsLog(log, list', end);
      assert Run(log, list', end - |list'|, end);
    } else {
      OneGapStays(log, page, end, lost, count, list', whole);
    }
  }

  lemma OneGapCloses(log: ServerLog, page: seq<ChatLog>, end: int, lost: seq<int>, count: nat, list': seq<ChatLog>,
                     whole: seq<ChatLog>)
    requires OneGap(log, page, end) && LostOf(lost, page[0].seqNo + 1, end - 1, [], false)
    requires Filled(log, page, lost, count, list', whole)
    requires count <= PULL_MSG_NUM_FOR_READ_DIFFUSION || forall s | page[0].seqNo < s < end :: s in lost
    ensures Unbroken(list', end)
  {
    var start := page[0].seqNo;
    EndsOf(page);
    UnbrokenHas(page, start + 1);
    if count <= PULL_MSG_NUM_FOR_READ_DIFFUSION {
      FilledAbove(log, page, start, lost, end, count, list', whole);
    } else {
      WholeWithin(log, page, lost, count, list', whole, 1, end);
      DenseWhole(whole, 1, end);
    }
  }

  lemma {:induction false} NumbersAtMost(seqs: seq<int>)
    ensures |set s | s in seqs| <= |seqs|
  {
    if seqs != [] {
      var init, last := seqs[..|seqs| - 1], seqs[|seqs| - 1];
      NumbersAtMost(init);
      assert seqs == init + [last];
      assert (set s | s in seqs) == (set s | s in init) + {last};
    }
  }

  /** A page of more rows than were asked for shows one that was there before. */
  lemma ShowsOldRow(log: ServerLog, page: seq<ChatLog>, lost: seq<int>, count: nat, list': seq<ChatLog>, whole: seq<ChatLog>)
    requires Filled(log, page, lost, count, list', whole) && page != [] && count > |lost|
    ensures exists r :: r in list' && r.seqNo in SeqNos(page)
  {
    if list' == whole {
      assert page[0] in page && page[0].seqNo in SeqNos(whole);
    } else {
      PageCount(whole);
      PageCount(list');
      NumbersAtMost(lost);
      var asked := set s | s in lost;
      if SeqNos(list') <= asked {
        SubsetSize(SeqNos(list'), asked);
      }
      var s :| s in SeqNos(list') && s !in asked;
      assert s in SeqNos(whole);
    }
  }

  lemma RunShowsBetween(log: ServerLog, messages: seq<ChatLog>, b: int, c: int, low: ChatLog, s: int)
    requires log.Valid() && Run(log, messages, b, c) && low in messages && low.seqNo < s < c && log.Has(s) && log.At(s).Live()
    ensures log.At(s) in messages
  {
    log.LiveBetweenMembers(b, c);
    NumberAt(log, s);
  }

  lemma OneGapStays(log: ServerLog, page: seq<ChatLog>, end: int, lost: seq<int>, count: nat, list': seq<ChatLog>,
                    whole: seq<ChatLog>)
    requires OneGap(log, page, end) && LostOf(lost, page[0].seqNo + 1, end - 1, [], false)
    requires Filled(log, page, lost, count, list', whole) && page[0].seqNo + 1 !in lost
    requires count > PULL_MSG_NUM_FOR_READ_DIFFUSION
    ensures forall b :: !Run(log, list', b, end)
  {
    hide ServerLog.Valid;
    var start := page[0].seqNo;
    EndsOf(page);
    ShowsOldRow(log, page, lost, count, list', whole);
    var low :| low in list' && low.seqNo in SeqNos(page);
    NumberAt(log, start + 1);
    assert start + 1 !in SeqNos(whole);
    assert forall r | r in list' :: r in whole && r.seqNo != start + 1;
    forall b | Run(log, list', b, end)
      ensures false
    {
      RunShowsBetween(log, list', b, end, low, start + 1);
    }
  }

  lemma KeptNothingAbove(list: seq<ChatLog>, lost: seq<int>, start: int, c: int, kept: seq<ChatLog>)
    requires start < c && lost != [] && LostOf(lost, start + 1, c - 1, [], false)
    requires list != [] ==> list[0].seqNo <= start
    requires Kept(list, lost, kept)
    ensures kept == [] && start < c - 1
  {
    assert lost[0] in lost && lost[|lost| - 1] in lost;
    assert c - 1 in lost && lost[|lost| - 1] == c - 1;
  }

  lemma KeptAllAbove(list: seq<ChatLog>, lost: seq<int>, b: int, kept: seq<ChatLog>)
    requires list != [] && Descending(list) && b == list[|list| - 1].seqNo
    requires lost != [] && forall s | s in lost :: s < b
    requires Kept(list, lost, kept)
    ensures kept == list
  {
    EndsOf(list);
    assert lost[|lost| - 1] in lost;
    assert forall i | 0 <= i < |list| :: list[i].seqNo >= b;
  }

  /** The page after the numbers below it were pulled: unbroken, and down to the log's first message if still short. */
  lemma FilledBelow(log: ServerLog, list: seq<ChatLog>, min: int, lost: seq<int>, c: int, count: nat,
                    list': seq<ChatLog>, whole: seq<ChatLog>)
    requires log.Valid() && log.HoldsAll(list) && Descending(list) && list != [] && list[0].seqNo < c
    requires count > 0 && min <= log.lo && log.Has(c - 1)
    requires count <= PULL_MSG_NUM_FOR_READ_DIFFUSION ==> Unbroken(list, c)
    requires LostOf(lost, min, list[|list| - 1].seqNo - 1, [], false)
    requires Filled(log, list, lost, count, list', whole)
    ensures list' != [] && list'[0].seqNo == list[0].seqNo
    ensures count <= PULL_MSG_NUM_FOR_READ_DIFFUSION ==>
              Unbroken(list', c) && (|list'| < count ==> list'[|list'| - 1].seqNo == log.lo)
  {
    EndsOf(list);
    assert forall r | r in list :: log.Holds(r) && r.seqNo in SeqNos(list);
    WholeWithin(log, list, lost, count, list', whole, log.lo, list[0].seqNo + 1);
    assert list[0].seqNo in SeqNos(whole);
    EndsOf(whole);
    if count <= PULL_MSG_NUM_FOR_READ_DIFFUSION {
      UnbrokenHas(list, c);
      FillLacksOnlyBelow(log, list, [], lost, min, list[|list| - 1].seqNo - 1, count, list', whole, log.lo, c);
      FillMakesBlock(whole, lost, log.lo, c, count);
    }
  }

  lemma MergedIsFilled(log: ServerLog, list: seq<ChatLog>, seqList: seq<int>, filled: seq<ChatLog>, count: nat)
    requires log.Valid() && log.HoldsAll(list) && log.HoldsAll(filled) && Descending(list) && Descending(filled)
    requires NoneOf(list, seqList) && SeqNos(filled) == set s | s in seqList && log.Has(s)
    ensures Filled(log, list, seqList, count, Take(Merged(list, filled, true), count), Merged(list, filled, true))
  {
    forall x, y | x in list && y in filled
      ensures x.seqNo != y.seqNo
    {
      assert y.seqNo in SeqNos(filled);
    }
    MergedDescends(log, list, filled);
    MergedNumbers(log, list, filled);
    MergedMembers(list, filled, true);
  }

  lemma FrontFrom(list: seq<ChatLog>, filled: seq<ChatLog>, front: seq<ChatLog>)
    requires front <= Merged(list, filled, true)
    ensures forall r | r in front :: r in list || r in filled
  {
    MergedMembers(list, filled, true);
    assert forall r | r in front :: r in Merged(list, filled, true);
  }

  lemma LostRange(lost: seq<int>, lo: int, hi: int, have: seq<int>, isReverse: bool)
    requires LostOf(lost, lo, hi, have, isReverse)
    ensures lost != [] ==> lo <= hi
    ensures Ascending(lost) && forall s | s in lost :: lo <= s <= hi
    ensures lost == [] && have == [] ==> lo > hi
  {
    assert lost != [] ==> lost[0] in lost;
    assert lost == [] && have == [] ==> lo !in lost && lo !in have;
  }

  lemma NothingUnbroken(top: int)
    ensures Unbroken([], top)
  {
  }

  lemma {:induction false} NothingDropped(list: seq<ChatLog>)
    ensures DropUpdated(list, []) == list
  {
    if list != [] {
      NothingDropped(list[..|list| - 1]);
    }
  }

  ghost predicate Turned(filled: seq<ChatLog>, pulled: seq<ChatLog>) {
    |filled| == |pulled| && forall i | 0 <= i < |filled| :: filled[i] == ToLocal(pulled[|pulled| - 1 - i])
  }

  /** The copies of an answer, turned around, descend and carry the answered numbers. */
  lemma ReversedAnswer(log: ServerLog, seqList: seq<int>, pulled: seq<ChatLog>, filled: seq<ChatLog>)
    requires log.Valid() && Ascending(seqList)
    requires |pulled| == |log.Answer(seqList)|
    requires forall i | 0 <= i < |pulled| :: pulled[i].seqNo == log.Answer(seqList)[i].seqNo && log.Holds(pulled[i])
    requires Turned(filled, pulled)
    ensures log.HoldsAll(filled) && Descending(filled) && forall r | r in filled :: r in pulled
    ensures SeqNos(filled) == set s | s in seqList && log.Has(s)
  {
    var answer := log.Answer(seqList);
    log.AnswerMembers(seqList);
    TurnedForms(log, answer, pulled, filled);
    forall s | s in seqList && log.Has(s)
      ensures s in SeqNos(filled)
    {
      assert log.At(s).seqNo == s && log.At(s) in answer;
      var i :| 0 <= i < |answer| && answer[i] == log.At(s);
      assert filled[|answer| - 1 - i] in filled;
    }
    forall r | r in filled
      ensures r.seqNo in seqList && log.Has(r.seqNo)
    {
      var i :| 0 <= i < |filled| && filled[i] == r;
      assert answer[|answer| - 1 - i] in answer;
    }
  }

  lemma TurnedForms(log: ServerLog, answer: seq<ChatLog>, pulled: seq<ChatLog>, filled: seq<ChatLog>)
    requires log.Valid() && |pulled| == |answer| && Turned(filled, pulled)
    requires forall i | 0 <= i < |pulled| :: pulled[i].seqNo == answer[i].seqNo && log.Holds(pulled[i])
    requires forall i, j | 0 <= i < j < |answer| :: answer[i].seqNo < answer[j].seqNo
    ensures forall i | 0 <= i < |filled| :: filled[i].seqNo == answer[|answer| - 1 - i].seqNo
    ensures log.HoldsAll(filled) && Descending(filled) && forall r | r in filled :: r in pulled
  {
    forall i | 0 <= i < |filled|
      ensures filled[i].seqNo == answer[|answer| - 1 - i].seqNo && log.Holds(filled[i]) && filled[i] in pulled
    {
      var r := pulled[|pulled| - 1 - i];
      assert r in pulled && log.Holds(r) && ToLocal(r) == r;
    }
  }
}

/**
 * History paging towards older messages: read a page from the local table, close its gaps from the server,
 * drop deleted messages and go on until the page is full.
 */
module Paging {
  import opened Basics
  import opened ChatLogs
  import opened ServerLogs
  import opened PullTable
  import opened PageSteps
  import opened Fills

  const PULL_FAILED := 100

  /** A request is answered while the connection lasts; once it drops, every later request of the call fails. */
  datatype Network = Up | DropsAfter(answers: nat) {
    predicate Answers() {
      Up? || answers > 0
    }

    function Next(): Network {
      if Up? || answers == 0 then this else DropsAfter(answers - 1)
    }

    /** A state the network can be in some requests after `earlier`. */
    predicate After(earlier: Network) {
      if earlier.Up? then Up? else DropsAfter? && answers <= earlier.answers
    }
  }

  /** The part of the caller's callback object that a fetch writes. */
  class Callback {
    var isEnd: bool
    var errCode: int

    constructor ()
      ensures !isEnd && errCode == 0
    {
      isEnd, errCode := false, 0;
    }
  }

  class Pager {
    const log: ServerLog
    const me: string
    var rows: seq<ChatLog>
    var minSeq: int
    var forwardEnd: map<int, int>
    var connected: bool
    var network: Network

    /** How many requests have failed. */
    ghost var failed: nat

    ghost predicate Valid()
      reads this
    {
      log.Valid() && log.TableOk(rows) && 0 <= minSeq <= log.lo
    }

    constructor (log: ServerLog, me: string, rows: seq<ChatLog>, minSeq: int, connected: bool, network: Network)
      requires log.Valid() && log.TableOk(rows) && 0 <= minSeq <= log.lo
      ensures Valid() && this.log == log && this.rows == rows && forwardEnd == map[]
      ensures this.connected == connected && this.network == network
    {
      this.log, this.me, this.rows, this.minSeq := log, me, rows, minSeq;
      this.connected, this.network := connected, network;
      forwardEnd, failed := map[], 0;
    }

    /** Whether a gap found by a fetch that starts at `startTime` is asked for at all. */
    predicate Asks(startTime: int)
      reads this
    {
      !(startTime == 0 && !connected)
    }

    function GetConversationMinSeq(): int
      reads this
    {
      if minSeq == 0 then 1 else minSeq
    }

    method FetchAndMergeMissingMessages(seqList: seq<int>, count: nat, startTime: int, list: seq<ChatLog>, cb: Callback)
      returns (list': seq<ChatLog>, ghost whole: seq<ChatLog>)
      requires Valid() && seqList != [] && Ascending(seqList)
      requires log.HoldsAll(list) && Descending(list) && NoneOf(list, seqList)
      requires Asks(startTime) && network.Answers() ==> NoneOf(rows, seqList)
      modifies this`rows, this`minSeq, this`network, this`failed, cb`errCode
      ensures Valid() && log.HoldsAll(list') && Descending(list')
      ensures |list'| <= count || |list'| <= |list|
      ensures LiveStored(old(rows), list) ==> LiveStored(rows, list')
      ensures old(rows) <= rows && forall r | r in rows && r !in old(rows) :: r.seqNo in seqList
      ensures minSeq == if Asks(startTime) && old(network).Answers() && log.flagsEnd(seqList)
                           && (old(minSeq) == 0 || log.lo > old(minSeq)) then log.lo else old(minSeq)
      ensures !Asks(startTime) ==>
                list' == list && network == old(network) && rows == old(rows)
      ensures Asks(startTime) && old(network).Answers() ==>
                network == old(network).Next() && Filled(log, list, seqList, count, list', whole)
      ensures Asks(startTime) && !old(network).Answers() ==>
                network == old(network) && rows == old(rows) && Kept(list, seqList, list')
      ensures failed == (if Asks(startTime) && !old(network).Answers() then old(failed) + 1 else old(failed)) && Reported(cb)
    {
      hide Descending, ServerLog.HoldsAll;
      list', whole := list, list;
      if startTime == 0 && !connected {
        return;
      }
      if !network.Answers() {
        list' := ErrHandle(seqList, list);
        FrontOf(log, list, |list'|);
        cb.errCode, failed := PULL_FAILED, failed + 1;
        return;
      }
      network := network.Next();
      var answer := log.Answer(seqList);
      log.AnswerMembers(seqList);
      var pulled;
      pulled, list' := Store(answer, list);
      if log.flagsEnd(seqList) {
        if minSeq == 0 || log.lo > minSeq {
          minSeq := log.lo;
        }
      }
      list', whole := MergePulled(seqList, count, list, pulled);
      FrontOf(log, whole, |list'|);
    }

    /** The copies of an answer, put into the order of the page and merged into it. */
    method MergePulled(seqList: seq<int>, count: nat, list: seq<ChatLog>, pulled: seq<ChatLog>)
      returns (list': seq<ChatLog>, ghost whole: seq<ChatLog>)
      requires log.Valid() && Ascending(seqList)
      requires log.HoldsAll(list) && Descending(list) && NoneOf(list, seqList)
      requires |pulled| == |log.Answer(seqList)|
      requires forall i | 0 <= i < |pulled| :: pulled[i].seqNo == log.Answer(seqList)[i].seqNo && log.Holds(pulled[i])
      ensures Filled(log, list, seqList, count, list', whole)
      ensures forall r | r in list' :: r in list || r in pulled
    {
      hide Merged, Descending, NoneOf, Filled, LiveStored, SeqNos, ServerLog.HoldsAll, ServerLog.Answer;
      var localMessages := new ChatLog[|pulled|](i requires 0 <= i < |pulled| => ToLocal(pulled[i]));
      Reverse(localMessages);
      var filled := localMessages[..];
      ReversedAnswer(log, seqList, pulled, filled);
      whole := Merged(list, filled, true);
      list' := MergeSortedArrays(list, filled, count, true);
      MergedIsFilled(log, list, seqList, filled, count);
      FrontFrom(list, filled, list');
    }

    /** The table write of a pull, for whatever the random sources return. */
    method Store(answer: seq<ChatLog>, list: seq<ChatLog>) returns (pulled: seq<ChatLog>, list': seq<ChatLog>)
      requires Valid() && Missing(log, rows, answer)
      modifies this`rows
      ensures Valid() && list' == list
      ensures old(rows) <= rows && forall r | r in rows && r !in old(rows) :: r.seqNo in SeqNos(answer)
      ensures |pulled| == |answer|
      ensures forall i | 0 <= i < |pulled| :: pulled[i].seqNo == answer[i].seqNo && log.Holds(pulled[i])
      ensures LiveStored(rows, pulled)
    {
      assert |seq(|answer|, i => Random("", ""))| == |answer|;
      var randoms: seq<Random> :| |randoms| == |answer|;
      PullKeepsTable(log, rows, me, answer, randoms);
      NothingDropped(list);
      rows, pulled, list' := PullMessageIntoTable(rows, me, answer, randoms, list);
      forall r | r in pulled && r.Live()
        ensures r in rows
      {
        var i :| 0 <= i < |pulled| && pulled[i] == r;
        assert answer[i] in answer && log.Holds(r) && r == answer[i];
      }
    }

    /** The caller is told of a failed request exactly when there was one. */
    twostate predicate Reported(cb: Callback)
      reads this, cb
    {
      && failed >= old(failed) && (old(network).Up? ==> failed == old(failed))
      && cb.errCode == if failed > old(failed) then PULL_FAILED else old(cb.errCode)
    }

    /** What every gap check leaves alone or only extends. */
    twostate predicate OnlyAdds()
      reads this
    {
      && Valid() && old(rows) <= rows && network.After(old(network))
      && forwardEnd == old(forwardEnd) && connected == old(connected)
      && (!old(network).Answers() ==> rows == old(rows))
    }

    method ValidateAndFillInternalGaps(count: nat, startTime: int, list: seq<ChatLog>, cb: Callback, ghost c: int)
      returns (list': seq<ChatLog>, thisStartSeq: int)
      requires Valid() && |list| <= count
      requires log.HoldsAll(list) && Descending(list) && WholeInside(rows, list)
      modifies this`rows, this`minSeq, this`network, this`failed, cb`errCode
      ensures OnlyAdds()
      ensures Reported(cb)
      ensures thisStartSeq == if list == [] then 0 else list[0].seqNo
      ensures log.HoldsAll(list') && Descending(list') && |list'| <= count
      ensures LiveStored(old(rows), list) ==> LiveStored(rows, list')
      ensures if list == [] then list' == [] else list' != [] && list'[0].seqNo == thisStartSeq
      ensures Asks(startTime) && count <= PULL_MSG_NUM_FOR_READ_DIFFUSION ==> Unbroken(list', thisStartSeq + 1)
      ensures !Asks(startTime) || Unbroken(list, thisStartSeq + 1) ==>
                list' == list && rows == old(rows) && network == old(network)
      ensures Asks(startTime) && old(network).Answers() ==> |list| <= |list'|
      ensures Asks(startTime) && old(network).Answers() && |list'| < count ==>
                (HoldsAllBelow(old(rows), list, c) ==> HoldsAllBelow(rows, list', c))
      ensures Asks(startTime) && !old(network).Answers() && list' != list ==>
                list'[|list'| - 1].seqNo - 1 !in SeqNos(rows)
      ensures forall r | r in rows && r !in old(rows) :: list != [] && list[|list| - 1].seqNo < r.seqNo < list[0].seqNo
    {
      hide Descending, Unbroken, LostOf, Kept, Filled, WholeInside, NoneOf, HoldsAllBelow, LiveStored,
           ServerLog.HoldsAll, ServerLog.TableOk;
      list' := list;
      NumbersPositive(list);
      var maxSeq, minSeq, haveSeqList := GetMaxAndMinHaveSeqList(list);
      PageBounds(list, maxSeq, minSeq, haveSeqList);
      if maxSeq != 0 && minSeq != 0 {
        var lostSeqList := GetLostSeqListWithLimitLength(minSeq, maxSeq, haveSeqList, false);
        if Unbroken(list, maxSeq + 1) { NoneLost(list, haveSeqList, lostSeqList); }
        if |lostSeqList| > 0 {
          GapsNotStored(rows, list, haveSeqList, lostSeqList);
          ghost var whole;
          list', whole := FetchAndMergeMissingMessages(lostSeqList, count, startTime, list, cb);
          if Asks(startTime) && old(network).Answers() {
            FilledInside(log, list, haveSeqList, lostSeqList, count, list', whole);
            FilledLength(log, list, lostSeqList, count, list', whole);
            if |list'| < count && HoldsAllBelow(old(rows), list, c) {
              ShortFillHoldsAll(log, old(rows), rows, list, lostSeqList, count, list', whole, c);
            }
          } else if Asks(startTime) {
            KeptIsRun(list, haveSeqList, lostSeqList, list');
            GapsNotStored(rows, list, haveSeqList, lostSeqList);
          }
        } else {
          NoGapsInside(log, list, haveSeqList);
        }
      } else {
        NothingUnbroken(1);
      }
      thisStartSeq := maxSeq;
    }

    lemma NumbersPositive(list: seq<ChatLog>)
      requires log.Valid() && log.HoldsAll(list)
      ensures forall r | r in list :: r.seqNo > 0
    {
    }

    method ValidateAndFillInterBlockGaps(thisStartSeq: int, viewType: int, count: nat, startTime: int,
                                         list: seq<ChatLog>, cb: Callback, ghost c: int)
      returns (list': seq<ChatLog>)
      requires Valid() && |list| <= count
      requires log.HoldsAll(list) && Descending(list)
      requires c == log.lo || log.Has(c - 1)
      requires thisStartSeq == (if list == [] then 0 else list[0].seqNo) && thisStartSeq < c
      requires Asks(startTime) && count <= PULL_MSG_NUM_FOR_READ_DIFFUSION ==> Unbroken(list, thisStartSeq + 1)
      requires EndStored(forwardEnd, rows, viewType, c) && NoneBetween(rows, thisStartSeq, c)
      requires viewType !in forwardEnd && list != [] ==> thisStartSeq == c - 1
      modifies this`rows, this`minSeq, this`network, this`failed, cb`errCode
      ensures OnlyAdds()
      ensures Reported(cb)
      ensures log.HoldsAll(list') && Descending(list') && |list'| <= count
      ensures LiveStored(old(rows), list) ==> LiveStored(rows, list')
      ensures list' != [] ==> list'[0].seqNo < c
      ensures Asks(startTime) && count <= PULL_MSG_NUM_FOR_READ_DIFFUSION ==> Unbroken(list', c)
      ensures !Asks(startTime) ==> list' == list && rows == old(rows)
      ensures Asks(startTime) && old(network).Answers() && viewType in forwardEnd && thisStartSeq + 1 < forwardEnd[viewType] ==>
                GapFilled(log, list, thisStartSeq, forwardEnd[viewType], count, list')
      ensures Asks(startTime) && old(network).Answers() ==> |list| <= |list'|
      ensures Asks(startTime) && old(network).Answers() && |list'| < count ==>
                (HoldsAllBelow(old(rows), list, c) ==> HoldsAllBelow(rows, list', c))
      ensures Asks(startTime) && failed == old(failed) && list' == [] && count > 0 ==> c == log.lo || viewType !in forwardEnd
      ensures Asks(startTime) && !old(network).Answers() && list' != list ==> list' == [] && c - 1 !in SeqNos(rows)
      ensures forall r | r in rows && r !in old(rows) :: thisStartSeq < r.seqNo < c
    {
      hide Descending, Unbroken, LostOf, Kept, Filled, NoneBetween, NoneOf, HoldsAllBelow, LiveStored,
           ServerLog.HoldsAll, ServerLog.TableOk, EndStored;
      list' := list;
      var lastEndSeq := if viewType in forwardEnd then forwardEnd[viewType] else 0;
      var isLostSeq := thisStartSeq + 1 != lastEndSeq;
      StoredEndBounds(viewType, c, thisStartSeq);
      if isLostSeq && lastEndSeq != 0 {
        var lostSeqList := GetLostSeqListWithLimitLength(thisStartSeq + 1, lastEndSeq - 1, [], false);
        LostRange(lostSeqList, thisStartSeq + 1, lastEndSeq - 1, [], false);
        if |lostSeqList| > 0 {
          assert lastEndSeq == c;
          AboveNotStored(rows, list, thisStartSeq, c, lostSeqList);
          ghost var whole;
          list', whole := FetchAndMergeMissingMessages(lostSeqList, count, startTime, list, cb);
          if Asks(startTime) && old(network).Answers() {
            assert GapFilled(log, list, thisStartSeq, c, count, list');
            FilledAbove(log, list, thisStartSeq, lostSeqList, c, count, list', whole);
            FilledLength(log, list, lostSeqList, count, list', whole);
            if |list'| < count && HoldsAllBelow(old(rows), list, c) {
              ShortFillHoldsAll(log, old(rows), rows, list, lostSeqList, count, list', whole, c);
            }
          } else if Asks(startTime) {
            KeptNothingAbove(list, lostSeqList, thisStartSeq, c, list');
            NotStoredBelow(rows, thisStartSeq, c);
          }
        }
      }
      if list' == [] {
        NothingUnbroken(c);
      }
    }

    /** checkEndBlock: a short page ends the history or names the numbers below it that are still to be pulled. */
    method CheckEndBlock(viewType: int, count: nat, list: seq<ChatLog>, cb: Callback)
      returns (isShouldFetchMessage: bool, seqList: seq<int>)
      requires log.HoldsAll(list) && Descending(list) && log.Valid()
      modifies cb`isEnd
      ensures |list| >= count ==> !cb.isEnd && !isShouldFetchMessage
      ensures |list| < count && cb.isEnd && !old(cb.isEnd) ==>
                (list == [] || list[|list| - 1].seqNo <= GetConversationMinSeq()) && !isShouldFetchMessage
      ensures |list| < count && !cb.isEnd ==>
                GetConversationMinSeq() < if list == [] then 0 else list[|list| - 1].seqNo
      ensures |list| < count && !cb.isEnd ==>
                isShouldFetchMessage
                && LostOf(seqList, GetConversationMinSeq(), (if list == [] then 0 else list[|list| - 1].seqNo) - 1, [], false)
                && seqList != []
    {
      isShouldFetchMessage, seqList := false, [];
      if |list| < count {
        var userCanPullMinSeq := GetConversationMinSeq();
        NumbersPositive(list);
        var maxSeq, minSeq, haveSeqList := GetMaxAndMinHaveSeqList(list);
        PageBounds(list, maxSeq, minSeq, haveSeqList);
        if minSeq <= userCanPullMinSeq {
          cb.isEnd := true;
        } else {
          var lastMinSeq := if viewType in forwardEnd then forwardEnd[viewType] else 0;
          if minSeq == 0 && lastMinSeq <= userCanPullMinSeq {
            cb.isEnd := true;
          } else {
            var lostSeqList := GetLostSeqListWithLimitLength(userCanPullMinSeq, minSeq - 1, [], false);
            LostRange(lostSeqList, userCanPullMinSeq, minSeq - 1, [], false);
            if |lostSeqList| > 0 {
              isShouldFetchMessage := true;
              seqList := lostSeqList;
            }
          }
        }
      } else {
        cb.isEnd := false;
      }
    }

    method ValidateAndFillEndBlockContinuity(viewType: int, count: nat, startTime: int, list: seq<ChatLog>,
                                             cb: Callback, ghost c: int)
      returns (list': seq<ChatLog>)
      requires Valid() && |list| <= count && !cb.isEnd
      requires log.HoldsAll(list) && Descending(list) && (list != [] ==> list[0].seqNo < c)
      requires c == log.lo || log.Has(c - 1)
      requires Asks(startTime) && count <= PULL_MSG_NUM_FOR_READ_DIFFUSION ==> Unbroken(list, c)
      requires Asks(startTime) && network.Answers() && |list| < count ==> HoldsAllBelow(rows, list, c)
      modifies this`rows, this`minSeq, this`network, this`failed, cb
      ensures OnlyAdds()
      ensures Reported(cb)
      ensures log.HoldsAll(list') && Descending(list') && |list'| <= count
      ensures LiveStored(old(rows), list) ==> LiveStored(rows, list')
      ensures list' != [] ==> list != [] && list'[0].seqNo == list[0].seqNo
      ensures Asks(startTime) && count <= PULL_MSG_NUM_FOR_READ_DIFFUSION ==> Unbroken(list', c)
      ensures !Asks(startTime) ==> list' == list && rows == old(rows)
      ensures |list| == count ==> list' == list && !cb.isEnd
      ensures list != [] && list[|list| - 1].seqNo <= old(GetConversationMinSeq()) ==>
                list' == list && (cb.isEnd <==> |list| < count)
      ensures list' == [] <==> list == []
      ensures !old(network).Answers() ==> list' == list
      ensures cb.isEnd ==> |list'| < count && (list' == [] || list'[|list'| - 1].seqNo == log.lo)
      ensures list' == [] && count > 0 ==> cb.isEnd
    {
      hide Descending, Unbroken, LostOf, Kept, Filled, NoneOf, ServerLog.HoldsAll, ServerLog.TableOk,
           HoldsAllBelow, LiveStored;
      list' := list;
      var isShouldFetchMessage, lostSeqList := CheckEndBlock(viewType, count, list, cb);
      if list != [] { BottomAbove(list); }
      if isShouldFetchMessage {
        var b := list[|list| - 1].seqNo;
        LostRange(lostSeqList, GetConversationMinSeq(), b - 1, [], false);
        BelowNotStored(list, c, lostSeqList, b, count, startTime);
        ghost var whole;
        list', whole := FetchAndMergeMissingMessages(lostSeqList, count, startTime, list, cb);
        if Asks(startTime) && old(network).Answers() {
          FilledBelow(log, list, old(GetConversationMinSeq()), lostSeqList, c, count, list', whole);
        } else if Asks(startTime) {
          KeptAllAbove(list, lostSeqList, b, list');
        }
        if list' != [] { BottomAbove(list'); }
        var _, _ := CheckEndBlock(viewType, count, list', cb);
      }
    }

    lemma BottomAbove(list: seq<ChatLog>)
      requires log.Valid() && log.HoldsAll(list) && list != []
      ensures log.lo <= list[|list| - 1].seqNo && log.Has(list[|list| - 1].seqNo) && log.Has(list[0].seqNo)
    {
      assert log.Holds(list[0]) && log.Holds(list[|list| - 1]);
    }

    lemma BelowNotStored(list: seq<ChatLog>, c: int, lost: seq<int>, b: int, count: nat, startTime: int)
      requires Descending(list) && list != [] && b == list[|list| - 1].seqNo
      requires forall s | s in lost :: s < b
      requires list[0].seqNo < c
      ensures NoneOf(list, lost)
      ensures HoldsAllBelow(rows, list, c) ==> NoneOf(rows, lost)
    {
      EndsOf(list);
      assert forall r | r in list :: r.seqNo in SeqNos(list);
    }

    /** Collects the live messages of the page and lowers the stored end of the view to the page's lowest number. */
    method ShouldFetchMoreMessagesNum(messages: seq<ChatLog>, count: nat, viewType: int)
      returns (missing: int, validMessages: seq<ChatLog>)
      requires forall m | m in messages :: m.seqNo >= 0
      modifies this`forwardEnd
      ensures validMessages == Live(messages) && missing == count - |validMessages|
      ensures (forall m | m in messages :: m.seqNo == 0) ==> forwardEnd == old(forwardEnd)
      ensures forall low | LowestIn(low, messages) :: forwardEnd == Lowered(old(forwardEnd), viewType, low)
    {
      hide LowestIn, LowestOrZero;
      LowestOfNone();
      var thisEndSeq := 0;
      validMessages := [];
      for i := 0 to |messages|
        invariant validMessages == Live(messages[..i]) && LowestOrZero(thisEndSeq, messages[..i])
        invariant forwardEnd == old(forwardEnd)
      {
        assert messages[..i + 1] == messages[..i] + [messages[i]] && messages[..i + 1][..i] == messages[..i];
        var msg := messages[i];
        LowestMore(thisEndSeq, messages[..i], msg);
        if msg.seqNo != 0 && thisEndSeq == 0 {
          thisEndSeq := msg.seqNo;
        }
        if msg.seqNo < thisEndSeq && msg.seqNo != 0 {
          thisEndSeq := msg.seqNo;
        }
        if msg.status < MSG_STATUS_HAS_DELETED {
          validMessages := validMessages + [msg];
        }
      }
      assert messages[..|messages|] == messages;
      LowestIs(thisEndSeq, messages);
      assert forall low | LowestIn(low, messages) :: low == thisEndSeq;
      assert (forall m | m in messages :: m.seqNo == 0) ==> thisEndSeq == 0;
      missing := count - |validMessages|;
      if thisEndSeq != 0 {
        var lastEndSeq := if viewType in forwardEnd then forwardEnd[viewType] else 0;
        if thisEndSeq < lastEndSeq || lastEndSeq == 0 {
          forwardEnd := forwardEnd[viewType := thisEndSeq];
        }
      }
    }

    /**
     * Where a fetch may start: with a cursor row numbered `c` at or above the stored end of the view, everything between
     * the two being local; or without a cursor on a view that has no stored end, `c` being the bound above the table.
     */
    ghost predicate Cursor(c: int, startTime: int, startSeq: int, viewType: int)
      reads this
    {
      && log.CursorAt(c, rows, startTime, startSeq)
      && (c == log.lo || log.Has(c - 1))
      && EndStored(forwardEnd, rows, viewType, c)
      && if startTime == 0 then viewType !in forwardEnd && (if rows == [] then c == log.lo else c - 1 in SeqNos(rows))
         else viewType in forwardEnd
    }

    lemma CursorBound(c: int, startTime: int, startSeq: int, viewType: int)
      requires Cursor(c, startTime, startSeq, viewType)
      ensures c == log.lo || log.Has(c - 1)
    {
    }

    /** What the read of a page says about the table. */
    lemma PageRead(count: nat, c: int, startTime: int, startSeq: int, startId: string, viewType: int)
      requires Valid() && 0 < count && Cursor(c, startTime, startSeq, viewType)
      ensures var page := GetMessageList(rows, count, startTime, startSeq, startId);
              var start := if page == [] then 0 else page[0].seqNo;
              && |page| <= count && log.HoldsAll(page) && Descending(page)
              && WholeInside(rows, page) && NoneBetween(rows, start, c) && start < c
              && (|page| < count ==> HoldsAllBelow(rows, page, c)) && LiveStored(rows, page)
              && (viewType !in forwardEnd && page != [] ==> start == c - 1)
              && (viewType !in forwardEnd && page == [] ==> c == log.lo)
    {
      log.ReadIsNewestBelow(rows, count, c, startTime, startSeq, startId);
      var page := GetMessageList(rows, count, startTime, startSeq, startId);
      assert forall r | r in page :: r.seqNo in SeqNos(page);
      if page != [] {
        EndsOf(page);
      }
      if viewType !in forwardEnd && rows != [] {
        var top :| top in rows && top.seqNo == c - 1;
        assert top.seqNo < c;
      }
    }

    lemma PageAsItIs(count: nat, c: int, startTime: int, startSeq: int, startId: string)
      requires Valid() && 0 < count && log.CursorAt(c, rows, startTime, startSeq)
      ensures Whole(log, GetMessageList(rows, count, startTime, startSeq, startId), c) <==> OnlyDeepHoles(log, rows, count, c)
    {
      hide Whole, OnlyDeepHoles, GetMessageList, ServerLog.Valid, ServerLog.TableOk;
      log.ReadIsNewestBelow(rows, count, c, startTime, startSeq, startId);
      WholeIffDeepHoles(log, rows, count, c, GetMessageList(rows, count, startTime, startSeq, startId));
    }

    /** The page that the table gives runs from the first message of an all-live log up to a gap below the stored end. */
    ghost predicate FindsOneGap(count: nat, startTime: int, startSeq: int, startId: string, viewType: int)
      reads this
    {
      && Asks(startTime) && network.Up? && viewType in forwardEnd
      && OneGap(log, GetMessageList(rows, count, startTime, startSeq, startId), forwardEnd[viewType])
    }

    lemma FoundGap(count: nat, startTime: int, startSeq: int, startId: string, viewType: int)
      requires FindsOneGap(count, startTime, startSeq, startId, viewType)
      ensures var page := GetMessageList(rows, count, startTime, startSeq, startId);
              && OneGap(log, page, forwardEnd[viewType]) && Asks(startTime) && network.Up? && viewType in forwardEnd
              && log.lo == 1 && page != [] && Unbroken(page, page[0].seqNo + 1)
              && page[0].seqNo + 1 < forwardEnd[viewType]
    {
    }

    /** The table read of a page and its three gap checks. */
    method FetchPage(count: nat, startTime: int, startSeq: int, startClientMsgId: string, viewType: int,
                     cb: Callback, ghost c: int)
      returns (list: seq<ChatLog>)
      requires Valid() && 0 < count && !cb.isEnd
      requires Cursor(c, startTime, startSeq, viewType)
      modifies this`rows, this`minSeq, this`network, this`failed, cb
      ensures OnlyAdds()
      ensures Reported(cb)
      ensures log.HoldsAll(list) && Descending(list) && |list| <= count && (list != [] ==> list[0].seqNo < c)
      ensures LiveStored(rows, list)
      ensures Asks(startTime) && count <= PULL_MSG_NUM_FOR_READ_DIFFUSION ==> Unbroken(list, c)
      ensures !Asks(startTime) ==> list == GetMessageList(old(rows), count, startTime, startSeq, startClientMsgId)
      ensures list == [] ==> cb.isEnd
      ensures cb.isEnd ==> |list| < count && (list == [] || list[|list| - 1].seqNo == log.lo)
      ensures failed == old(failed) && list == [] ==> c == log.lo
      ensures Asks(startTime) && !old(network).Answers() && list == [] ==> c == log.lo || c - 1 !in SeqNos(rows)
      ensures old(FindsOneGap(count, startTime, startSeq, startClientMsgId, viewType)) ==>
                var page := GetMessageList(old(rows), count, startTime, startSeq, startClientMsgId);
                GapFilled(log, page, page[0].seqNo, forwardEnd[viewType], count, list) && (cb.isEnd <==> |list| < count)
    {
      hide Descending, Unbroken, NoneBetween, WholeInside, HoldsAllBelow, LiveStored, ServerLog.HoldsAll,
           ServerLog.TableOk, ServerLog.Valid, EndStored, OneGap, GapFilled, FindsOneGap, GetMessageList;
      ghost var found := FindsOneGap(count, startTime, startSeq, startClientMsgId, viewType);
      if found { FoundGap(count, startTime, startSeq, startClientMsgId, viewType); }
      list := GetMessageList(rows, count, startTime, startSeq, startClientMsgId);
      PageRead(count, c, startTime, startSeq, startClientMsgId, viewType);
      ghost var page := list;
      var thisStartSeq;
      list, thisStartSeq := ValidateAndFillInternalGaps(count, startTime, list, cb, c);
      MoreEndStored(forwardEnd, old(rows), rows, viewType, c);
      MoreNoneBetween(old(rows), rows, thisStartSeq, c);
      if list == [] { NothingHeld(rows, c); }
      list := ValidateAndFillInterBlockGaps(thisStartSeq, viewType, count, startTime, list, cb, c);
      if found { OneGapEnds(log, page, forwardEnd[viewType], count, list); }
      list := ValidateAndFillEndBlockContinuity(viewType, count, startTime, list, cb, c);
    }

    /** A page, its live messages, and where the next page starts. */
    method FetchLivePage(count: nat, startTime: int, startSeq: int, startClientMsgId: string, viewType: int,
                         cb: Callback, ghost c: int)
      returns (list: seq<ChatLog>, missingCount: int, validMessages: seq<ChatLog>, ghost b: int)
      requires Valid() && 0 < count && !cb.isEnd
      requires Cursor(c, startTime, startSeq, viewType)
      modifies this, cb
      ensures Valid() && old(rows) <= rows && network.After(old(network)) && connected == old(connected)
      ensures forwardEnd - {viewType} == old(forwardEnd) - {viewType}
      ensures Reported(cb)
      ensures log.lo <= b <= c && LiveRows(log, validMessages, c) && forall r | r in validMessages :: b <= r.seqNo
      ensures missingCount == count - |validMessages| && |validMessages| <= count
      ensures forall r | r in validMessages :: r in rows
      ensures missingCount == 0 ==>
                && validMessages[count - 1].seqNo == b
                && viewType in forwardEnd && EndStored(forwardEnd, rows, viewType, b)
      ensures cb.isEnd ==> missingCount > 0
      ensures old(Asks(startTime)) && count <= PULL_MSG_NUM_FOR_READ_DIFFUSION ==> Run(log, validMessages, b, c)
      ensures !old(Asks(startTime)) ==>
                (Run(log, validMessages, b, c) <==> OnlyDeepHoles(log, old(rows), count, c))
      ensures !old(Asks(startTime)) ==>
                forall r | r in GetMessageList(old(rows), count, startTime, startSeq, startClientMsgId) :: b <= r.seqNo
      ensures b == c || (log.Has(b) && log.Has(c - 1))
      ensures failed == old(failed) && cb.isEnd ==> b == log.lo
      ensures !old(network).Answers() ==> rows == old(rows)
      ensures old(Asks(startTime)) && !old(network).Answers() && cb.isEnd ==> b == log.lo || b - 1 !in SeqNos(rows)
      ensures missingCount > 0 && !cb.isEnd ==>
                && list != [] && b < c && list[|list| - 1].sendTime > 0
                && Cursor(b, list[|list| - 1].sendTime, list[|list| - 1].seqNo, viewType)
      ensures old(FindsOneGap(count, startTime, startSeq, startClientMsgId, viewType)) ==>
                var page := GetMessageList(old(rows), count, startTime, startSeq, startClientMsgId);
                GapFilled(log, page, page[0].seqNo, old(forwardEnd)[viewType], count, validMessages)
                && (cb.isEnd <==> missingCount > 0)
    {
      hide Descending, Unbroken, LiveRows, Run, FirstLive, EndStored, Live, Lowered, Whole, GetMessageList, OnlyDeepHoles,
           LiveStored, OneGap, GapFilled, FindsOneGap, ServerLog.HoldsAll, ServerLog.TableOk, ServerLog.Valid;
      ghost var asks := Asks(startTime);
      ghost var found := FindsOneGap(count, startTime, startSeq, startClientMsgId, viewType);
      ghost var end := if viewType in forwardEnd then forwardEnd[viewType] else 0;
      if found { FoundGap(count, startTime, startSeq, startClientMsgId, viewType); }
      PageAsItIs(count, c, startTime, startSeq, startClientMsgId);
      list := FetchPage(count, startTime, startSeq, startClientMsgId, viewType, cb, c);
      LiveShown(log, list, count, c, asks);
      LiveAreStored(rows, list);
      BottomIsLowest(log, list);
      missingCount, validMessages := ShouldFetchMoreMessagesNum(list, count, viewType);
      b := BottomOf(list, c);
      if list != [] {
        LastIsCursor(list);
        LoweredEndStored(old(forwardEnd), old(rows), rows, viewType, c, b);
      }
      if found {
        OneGapEnds(log, GetMessageList(old(rows), count, startTime, startSeq, startClientMsgId), end, count, list);
      }
    }

    /**
     * One page and, if it lacks live messages, the pages below it. For a `count` of at most fifty: with every request
     * answered the result is exactly the first `count` live messages of the complete log below `c`; whenever gaps are
     * asked for, even if the connection drops on the way, it is the unbroken run of live messages `b .. c-1`; offline from
     * the start the run ends only at `count` messages, at the log's first message, or in front of a number that is not
     * local. When gaps are not asked for `b` is at or below the whole page that the table gives, and the result is that run
     * exactly when the table lacks no live message among its first `count` rows below `c`. For any `count`: what comes is
     * live messages of the log in their order, and of a page with one gap above it, what one fill leaves.
     */
    method FetchMessagesWithGapCheck(count: nat, startTime: int, startSeq: int, startClientMsgId: string, viewType: int,
                                     cb: Callback, ghost c: int)
      returns (messages: seq<ChatLog>, ghost b: int)
      requires Valid() && 0 < count && !cb.isEnd
      requires Cursor(c, startTime, startSeq, viewType)
      modifies this, cb
      ensures Valid() && old(rows) <= rows && network.After(old(network)) && connected == old(connected)
      ensures forwardEnd - {viewType} == old(forwardEnd) - {viewType}
      ensures log.lo <= b <= c && LiveRows(log, messages, c)
      ensures |messages| <= count && (cb.isEnd <==> |messages| < count)
      ensures forall r | r in messages :: r in rows
      ensures |messages| == count ==>
                && messages[count - 1].seqNo == b
                && viewType in forwardEnd && EndStored(forwardEnd, rows, viewType, b)
      ensures old(Asks(startTime)) && count <= PULL_MSG_NUM_FOR_READ_DIFFUSION ==> Run(log, messages, b, c)
      ensures !old(Asks(startTime)) && count <= PULL_MSG_NUM_FOR_READ_DIFFUSION ==>
                (Run(log, messages, b, c) <==> OnlyDeepHoles(log, old(rows), count, c))
      ensures !old(Asks(startTime)) ==>
                forall r | r in GetMessageList(old(rows), count, startTime, startSeq, startClientMsgId) :: b <= r.seqNo
      ensures old(Asks(startTime)) && old(network).Up? && count <= PULL_MSG_NUM_FOR_READ_DIFFUSION ==>
                FirstLive(log, messages, count, c)
      ensures old(FindsOneGap(count, startTime, startSeq, startClientMsgId, viewType)) ==>
                var page := GetMessageList(old(rows), count, startTime, startSeq, startClientMsgId);
                GapFilled(log, page, page[0].seqNo, old(forwardEnd)[viewType], count, messages)
      ensures Reported(cb)
      ensures old(Asks(startTime)) && !old(network).Answers() ==>
                rows == old(rows) && (|messages| == count || b == log.lo || b - 1 !in SeqNos(rows))
      ensures |messages| < count && b > log.lo ==> failed > old(failed)
      decreases c
    {
      hide Descending, LiveRows, Run, FirstLive, EndStored, SeqNos, OnlyDeepHoles, GetMessageList;
      hide ServerLog.HoldsAll, ServerLog.TableOk, ServerLog.Valid, OneGap, GapFilled, FindsOneGap, Cursor;
      CursorBound(c, startTime, startSeq, viewType);
      var list, missingCount, validMessages;
      list, missingCount, validMessages, b := FetchLivePage(count, startTime, startSeq, startClientMsgId, viewType,
                                                            cb, c);
      messages := validMessages;
      if missingCount > 0 && !cb.isEnd {
        var last := list[|list| - 1];
        var missingMessages;
        ghost var bottom;
        missingMessages, bottom := FetchMessagesWithGapCheck(missingCount, last.sendTime, last.seqNo,
                                                             last.clientMsgId, viewType, cb, b);
        messages := validMessages + missingMessages;
        JoinLiveRows(log, validMessages, missingMessages, b, c);
        if count <= PULL_MSG_NUM_FOR_READ_DIFFUSION {
          RunJoinedIff(log, validMessages, missingMessages, bottom, b, c);
          if old(Asks(startTime) && network.Up?) {
            FirstLiveJoined(log, validMessages, missingMessages, count, b, c);
          }
        }
        b := bottom;
      } else if old(Asks(startTime) && network.Up?) && count <= PULL_MSG_NUM_FOR_READ_DIFFUSION {
        FirstLiveFull(log, validMessages, count, b, c);
      }
    }

    /** Stores the cursor's number as the end of the view when the view has none. */
    method HandleEndSeq(viewType: int, startMessage: ChatLog)
      modifies this`forwardEnd
      ensures forwardEnd == if viewType !in old(forwardEnd) && startMessage.seqNo != 0
                            then old(forwardEnd)[viewType := startMessage.seqNo] else old(forwardEnd)
    {
      if viewType !in forwardEnd {
        if startMessage.seqNo != 0 {
          forwardEnd := forwardEnd[viewType := startMessage.seqNo];
        }
      }
    }

    /** The row with this id may serve as a cursor of the view: everything from the stored end up to it is local. */
    ghost predicate MayStartAt(id: string, viewType: int)
      reads this
    {
      var start := FindById(rows, id);
      start.Some? ==> EndStored(forwardEnd, rows, viewType, start.value.seqNo)
    }

    /**
     * Reads the `count` newest live messages below a start message, or from the newest local message when no start is
     * given. `c` is the number the page stays below. The last clause says for which counts a read across one gap is right.
     */
    method GetAdvancedHistoryMessageList(startClientMsgId: string, count: nat, viewType: int)
      returns (result: Option<seq<ChatLog>>, cb: Callback, ghost b: int, ghost c: int)
      requires Valid() && 0 < count
      requires startClientMsgId != "" ==> MayStartAt(startClientMsgId, viewType)
      modifies this
      ensures Valid() && old(rows) <= rows && network.After(old(network)) && connected == old(connected)
      ensures forwardEnd - {viewType} == old(forwardEnd) - {viewType}
      ensures result.None? <==> startClientMsgId != "" && FindById(old(rows), startClientMsgId).None?
      ensures result.None? ==> rows == old(rows) && forwardEnd == old(forwardEnd)
      ensures result.Some? && startClientMsgId == "" ==> c == Top(old(rows))
      ensures result.Some? && startClientMsgId != "" ==> c == FindById(old(rows), startClientMsgId).value.seqNo
      ensures result.Some? ==>
                var messages := result.value;
                && log.lo <= b <= c && LiveRows(log, messages, c)
                && |messages| <= count && (cb.isEnd <==> |messages| < count)
                && ((startClientMsgId != "" || connected) && count <= PULL_MSG_NUM_FOR_READ_DIFFUSION ==>
                      Run(log, messages, b, c) && (old(network).Up? ==> FirstLive(log, messages, count, c)))
                && (startClientMsgId == "" && !connected && count <= PULL_MSG_NUM_FOR_READ_DIFFUSION ==>
                      (Run(log, messages, b, c) <==> OnlyDeepHoles(log, old(rows), count, c)))
                && (startClientMsgId == "" && !connected ==>
                      forall r | r in GetMessageList(old(rows), count, 0, 0, "") :: b <= r.seqNo)
                && (cb.errCode == if failed > old(failed) then PULL_FAILED else 0)
                && (|messages| < count && b > log.lo ==> cb.errCode == PULL_FAILED)
                && (|messages| == count ==>
                      messages[count - 1].seqNo == b && CanGoOnFrom(messages[count - 1].clientMsgId, viewType, b))
      ensures result.Some? && startClientMsgId != "" && viewType !in old(forwardEnd) && old(network).Up? ==>
                var page := GetMessageList(old(rows), count, FindById(old(rows), startClientMsgId).value.sendTime, c,
                                           startClientMsgId);
                OneGap(log, page, c) ==>
                  ((exists b :: Run(log, result.value, b, c))
                   <==> count <= PULL_MSG_NUM_FOR_READ_DIFFUSION
                        || c - 1 - page[0].seqNo <= PULL_MSG_NUM_FOR_READ_DIFFUSION)
    {
      hide Run, FirstLive, Descending, OnlyDeepHoles, GetMessageList, OneGap, GapFilled, ServerLog.HoldsAll;
      cb := new Callback();
      b, c := log.lo, log.lo;
      var startTime, startSeq := 0, 0;
      if |startClientMsgId| > 0 {
        var m := FindById(rows, startClientMsgId);
        if m.None? {
          return None, cb, b, c;
        }
        startTime := m.value.sendTime;
        startSeq := m.value.seqNo;
        c := startSeq;
        RowIsCursor(m.value);
        HandleEndSeq(viewType, m.value);
      } else {
        forwardEnd := forwardEnd - {viewType};
        c := Top(rows);
        TopBounds(rows);
      }
      var list;
      list, b := FetchMessagesWithGapCheck(count, startTime, startSeq, startClientMsgId, viewType, cb, c);
      if |list| == count { LastMayStart(list, viewType, b); }
      ghost var page := GetMessageList(old(rows), count, startTime, startSeq, startClientMsgId);
      if startTime > 0 && viewType !in old(forwardEnd) && old(network).Up? && OneGap(log, page, c) {
        OneGapClosesIff(log, page, c, count, list);
      }
      result := Some(list);
    }

    lemma RowIsCursor(r: ChatLog)
      requires Valid() && r in rows
      ensures r.sendTime > 0 && r.seqNo > 0 && log.CursorAt(r.seqNo, rows, r.sendTime, r.seqNo)
      ensures r.seqNo == log.lo || log.Has(r.seqNo - 1)
      ensures log.Has(r.seqNo)
    {
      assert log.Holds(r);
    }

    /** The next page may start at this id, and it then reads below `b`. */
    ghost predicate CanGoOnFrom(id: string, viewType: int, b: int)
      reads this
    {
      id != "" && FindById(rows, id).Some? && FindById(rows, id).value.seqNo == b && MayStartAt(id, viewType)
    }

    lemma LastMayStart(list: seq<ChatLog>, viewType: int, b: int)
      requires Valid() && list != [] && forall r | r in list :: r in rows && r.Live()
      requires list[|list| - 1].seqNo == b && EndStored(forwardEnd, rows, viewType, b)
      ensures CanGoOnFrom(list[|list| - 1].clientMsgId, viewType, b)
    {
      var last := list[|list| - 1];
      assert last in rows && log.Holds(last) && last.Live();
      forall r | r in rows && r.seqNo != last.seqNo
        ensures r.clientMsgId != last.clientMsgId
      {
        LiveIdIsUnique(log, last, r);
      }
    }

    /** The number above every local row, where a read without a cursor starts. */
    ghost function Top(rows: seq<ChatLog>): int {
      if rows == [] then log.lo
      else if |rows| == 1 || rows[0].seqNo + 1 > Top(rows[1..]) then rows[0].seqNo + 1 else Top(rows[1..])
    }

    lemma {:induction false} TopBounds(rows: seq<ChatLog>)
      requires log.HoldsAll(rows)
      ensures forall r | r in rows :: r.seqNo < Top(rows)
      ensures rows == [] ==> Top(rows) == log.lo
      ensures rows != [] ==> Top(rows) - 1 in SeqNos(rows) && log.Has(Top(rows) - 1)
    {
      if rows != [] {
        TopBounds(rows[1..]);
        assert rows == [rows[0]] + rows[1..] && log.Holds(rows[0]);
        assert forall r | r in rows[1..] :: r in rows;
      }
    }

    /**
     * The caller's protocol: read pages, each from the last message of the one before, until a page is short.
     * With an answering server the pages put together are the whole live history below the start, in order and once each.
     */
    method ReadHistory(startClientMsgId: string, count: nat, viewType: int) returns (history: seq<ChatLog>, ghost c: int)
      requires Valid() && 0 < count <= PULL_MSG_NUM_FOR_READ_DIFFUSION && network.Up?
      requires if startClientMsgId == "" then connected
               else FindById(rows, startClientMsgId).Some? && MayStartAt(startClientMsgId, viewType)
      modifies this
      ensures c == if startClientMsgId == "" then Top(old(rows)) else FindById(old(rows), startClientMsgId).value.seqNo
      ensures Run(log, history, log.lo, c)
    {
      hide Run, FirstLive, LiveRows, Descending, Top, ServerLog.TableOk, ServerLog.HoldsAll;
      var result, cb;
      ghost var b;
      result, cb, b, c := GetAdvancedHistoryMessageList(startClientMsgId, count, viewType);
      var page := result.value;
      history := page;
      if |page| < count { ShortIsAll(log, page, count, c); }
      while |page| == count
        invariant Valid() && network.Up?
        invariant log.lo <= b && |page| <= count && Run(log, history, if |page| == count then b else log.lo, c)
        invariant |page| == count ==> CanGoOnFrom(page[count - 1].clientMsgId, viewType, b)
        decreases if |page| == count then b + 1 - log.lo else 0
      {
        ghost var above := b;
        ghost var top;
        result, cb, b, top := GetAdvancedHistoryMessageList(page[count - 1].clientMsgId, count, viewType);
        page := result.value;
        if |page| < count {
          ShortIsAll(log, page, count, above);
          RunJoined(log, history, page, log.lo, above, c);
        } else {
          RunJoined(log, history, page, b, above, c);
          LastBelow(log, page, above);
        }
        history := history + page;
      }
    }

    lemma LastIsCursor(list: seq<ChatLog>)
      requires log.Valid() && log.HoldsAll(list) && list != []
      ensures var last := list[|list| - 1];
              last.sendTime > 0 && log.CursorAt(last.seqNo, rows, last.sendTime, last.seqNo)
    {
      assert log.Holds(list[|list| - 1]);
    }

    lemma StoredEndBounds(viewType: int, c: int, start: int)
      requires Valid() && EndStored(forwardEnd, rows, viewType, c) && NoneBetween(rows, start, c) && start < c
      ensures viewType in forwardEnd ==> 0 < forwardEnd[viewType] <= c
      ensures viewType in forwardEnd && forwardEnd[viewType] < c ==> start == c - 1
    {
      if viewType in forwardEnd && forwardEnd[viewType] < c {
        assert c - 1 in SeqNos(rows);
      }
    }

    lemma AboveNotStored(rows: seq<ChatLog>, list: seq<ChatLog>, start: int, c: int, lost: seq<int>)
      requires NoneBetween(rows, start, c) && Descending(list)
      requires start == (if list == [] then 0 else list[0].seqNo) && LostOf(lost, start + 1, c - 1, [], false)
      ensures NoneOf(rows, lost) && NoneOf(list, lost)
    {
      if list != [] { EndsOf(list); }
      assert forall r | r in list :: r.seqNo in SeqNos(list);
    }

    lemma NotStoredBelow(rows: seq<ChatLog>, start: int, c: int)
      requires NoneBetween(rows, start, c) && start < c - 1
      ensures c - 1 !in SeqNos(rows)
    {
    }
  }

  /** Of 53 live messages the first and the last are local: the page below the last is the first. */
  lemma TwoOfFiftyThree(count: nat) returns (log: ServerLog, rows: seq<ChatLog>)
    requires count > 0
    ensures log == LiveLog(53) && rows == [log.At(53), log.At(1)]
    ensures log.Valid() && log.lo == 1 && log.Hi() == 54 && log.TableOk(rows)
    ensures log.At(1).seqNo == 1 && log.At(53).seqNo == 53 && log.At(53).sendTime == 53 && log.At(53).clientMsgId != ""
    ensures SeqNos(rows) == {53, 1} && FindById(rows, log.At(53).clientMsgId) == Some(log.At(53))
    ensures GetMessageList(rows, count, 53, 53, log.At(53).clientMsgId) == [log.At(1)] && OneGap(log, [log.At(1)], 53)
  {
    hide LiveLog, GetMessageList, ServerLog.TableOk, ServerLog.Valid, ServerLog.Holds, NoneOf, FiftyNumbers, OneGap;
    log := LiveLog(53);
    LiveLogIsValid(53);
    LiveLogAt(53);
    rows := [log.At(53), log.At(1)];
    FewLocal(log, rows, 3);
    PageOfOne([], log.At(1), log.At(53), count);
    assert [] + rows == rows;
    FirstIsOneGap(log, 53);
  }

  lemma FirstIsOneGap(log: ServerLog, end: int)
    requires log.Valid() && log.lo == 1 && log.Has(end) && end > 2
    requires forall s | log.Has(s) :: log.At(s).Live() && log.Holds(log.At(s))
    ensures OneGap(log, [log.At(1)], end)
  {
  }

  /**
   * More than fifty messages are read below the last of them, every request being answered: whatever the page size, what
   * comes is no unbroken part of the history.
   */
  method WideReadKeepsGap(count: nat) returns (pager: Pager, ghost table: seq<ChatLog>, messages: seq<ChatLog>)
    requires count > PULL_MSG_NUM_FOR_READ_DIFFUSION
    ensures pager.Valid() && pager.log.TableOk(table) && SeqNos(table) == {53, 1} && pager.log.Hi() == 54
    ensures forall b :: !Run(pager.log, messages, b, 53)
  {
    hide LiveLog, GetMessageList, OneGap, Run, FirstLive, LiveRows, ServerLog.Valid, ServerLog.TableOk, SeqNos;
    ghost var log0, rows0 := TwoOfFiftyThree(count);
    var log := LiveLog(53);
    var rows := [log.At(53), log.At(1)];
    table := rows;
    pager := new Pager(log, "", rows, 1, true, Up);
    var result, _, b, c := pager.GetAdvancedHistoryMessageList(log.At(53).clientMsgId, count, 0);
    messages := result.value;
  }
}

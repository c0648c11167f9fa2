/** The complete log of one conversation on the server, and what a local table may hold of it. */
module ServerLogs {
  import opened Basics
  import opened ChatLogs

  /** A generated row id starts with a bracketed tag; a client message id is a hex digest and never does. */
  predicate Tagged(id: string) {
    |id| > 0 && id[0] == '['
  }

  /**
   * Message number `lo + k` of the conversation is `msgs[k]`, in the form a pull stores it.
   * `flagsEnd` says for which requests the server reports that the pullable bottom is reached.
   */
  datatype ServerLog = ServerLog(lo: int, msgs: seq<ChatLog>, flagsEnd: seq<int> -> bool) {

    /** One past the newest sequence number. */
    function Hi(): int { lo + |msgs| }

    predicate Has(s: int) { lo <= s < Hi() }

    function At(s: int): ChatLog
      requires Has(s)
    {
      msgs[s - lo]
    }

    ghost predicate Valid() {
      && lo >= 1
      && (forall s | Has(s) :: At(s).seqNo == s && At(s).sendTime > 0)
      && (forall s | Has(s) :: At(s).status == MSG_STATUS_SEND_SUCCESS || At(s).status >= MSG_STATUS_HAS_DELETED)
      && (forall s, t | Has(s) && Has(t) && s <= t :: At(s).sendTime <= At(t).sendTime)
      && (forall s | Has(s) :: !Tagged(At(s).clientMsgId))
      && (forall s | Has(s) && At(s).Live() :: At(s).clientMsgId != "")
      && (forall s, t | Has(s) && Has(t) && s != t && At(s).status != MSG_STATUS_HAS_DELETED ::
            At(s).clientMsgId != At(t).clientMsgId)
    }

    /** A local row is a copy of message `r.seqNo`; only a deleted message may carry a generated id. */
    ghost predicate Holds(r: ChatLog) {
      && Has(r.seqNo)
      && r == At(r.seqNo).(clientMsgId := r.clientMsgId)
      && (r.clientMsgId == At(r.seqNo).clientMsgId || (r.status == MSG_STATUS_HAS_DELETED && Tagged(r.clientMsgId)))
    }

    ghost predicate HoldsAll(list: seq<ChatLog>) {
      forall r | r in list :: Holds(r)
    }

    /** Any subset of the log, one row a message. */
    ghost predicate TableOk(rows: seq<ChatLog>) {
      && HoldsAll(rows)
      && (forall i, j | 0 <= i < j < |rows| :: rows[i].seqNo != rows[j].seqNo)
    }

    /** The reply to a pull by sequence numbers: those the log has, in the order asked. */
    function Answer(seqs: seq<int>): seq<ChatLog> {
      if seqs == [] then []
      else if Has(seqs[|seqs| - 1]) then Answer(seqs[..|seqs| - 1]) + [At(seqs[|seqs| - 1])]
      else Answer(seqs[..|seqs| - 1])
    }

    /** The specification of paging: the live messages numbered `b .. c-1`, newest first. */
    function LiveBetween(b: int, c: int): seq<ChatLog>
      requires c <= b || (Has(b) && Has(c - 1))
      decreases c - b
    {
      if c <= b then []
      else if At(b).Live() then LiveBetween(b + 1, c) + [At(b)]
      else LiveBetween(b + 1, c)
    }

    /** `list` is the unbroken run of messages below `top`. */
    ghost predicate Block(list: seq<ChatLog>, top: int) {
      HoldsAll(list) && Unbroken(list, top)
    }

    lemma {:induction false} LiveBetweenSplits(b: int, m: int, c: int)
      requires b <= m <= c
      requires b == c || (Has(b) && Has(c - 1))
      ensures LiveBetween(b, c) == LiveBetween(m, c) + LiveBetween(b, m)
      decreases m - b
    {
      if b < m {
        LiveBetweenSplits(b + 1, m, c);
        assert LiveBetween(b + 1, c) == LiveBetween(m, c) + LiveBetween(b + 1, m);
      }
    }

    lemma {:induction false} LiveOfBlock(list: seq<ChatLog>, top: int)
      requires Block(list, top)
      ensures top - |list| == top || (Has(top - |list|) && Has(top - 1))
      ensures ChatLogs.Live(list) == LiveBetween(top - |list|, top)
    {
      if list != [] {
        var init, last := list[..|list| - 1], list[|list| - 1];
        assert last in list && list[0] in list;
        LiveOfBlock(init, top);
      }
    }

    lemma {:induction false} LiveBetweenMembers(b: int, c: int)
      requires c <= b || (Has(b) && Has(c - 1))
      requires Valid()
      ensures forall r :: r in LiveBetween(b, c) <==> b <= r.seqNo < c && r == At(r.seqNo) && r.Live()
      ensures Descending(LiveBetween(b, c))
      decreases c - b
    {
      if b < c {
        LiveBetweenMembers(b + 1, c);
        assert At(b).seqNo == b;
      }
    }

    lemma {:induction false} AnswerMembers(seqs: seq<int>)
      requires Valid()
      requires forall i, j | 0 <= i < j < |seqs| :: seqs[i] < seqs[j]
      ensures |Answer(seqs)| <= |seqs|
      ensures forall r :: r in Answer(seqs) <==> Has(r.seqNo) && r == At(r.seqNo) && r.seqNo in seqs
      ensures forall i, j | 0 <= i < j < |Answer(seqs)| :: Answer(seqs)[i].seqNo < Answer(seqs)[j].seqNo
    {
      if seqs != [] {
        var init, last := seqs[..|seqs| - 1], seqs[|seqs| - 1];
        AnswerMembers(init);
        assert seqs == init + [last];
        if Has(last) { assert At(last).seqNo == last; }
        assert forall k :: k in seqs <==> k in init || k == last;
      }
    }

    /** On rows of one log the time order and the number order agree. */
    lemma NewerIsHigher(a: ChatLog, b: ChatLog)
      requires Valid() && Holds(a) && Holds(b)
      ensures Newer(a, b) <==> a.seqNo > b.seqNo
    {
      assert At(a.seqNo).sendTime == a.sendTime && At(b.seqNo).sendTime == b.sendTime;
    }

    /** The cursor condition of a forward read, seen as a bound on sequence numbers. */
    ghost predicate CursorAt(c: int, rows: seq<ChatLog>, startTime: int, startSeq: int) {
      if startTime > 0 then Has(c) && startSeq == c && At(c).sendTime == startTime
      else startTime == 0 && forall r | r in rows :: r.seqNo < c
    }

    lemma {:induction false} SelectedDescends(rows: seq<ChatLog>, startTime: int, startSeq: int, startId: string)
      requires Valid() && TableOk(rows)
      ensures HoldsAll(SelectDesc(rows, startTime, startSeq, startId))
      ensures Descending(SelectDesc(rows, startTime, startSeq, startId))
    {
      SelectDescMembers(rows, startTime, startSeq, startId);
      if rows != [] {
        var rest := SelectDesc(rows[1..], startTime, startSeq, startId);
        assert rows == [rows[0]] + rows[1..];
        SelectDescMembers(rows[1..], startTime, startSeq, startId);
        SelectedDescends(rows[1..], startTime, startSeq, startId);
        assert rows[0] in rows;
        assert forall i | 0 <= i < |rows[1..]| :: rows[1..][i].seqNo == rows[i + 1].seqNo != rows[0].seqNo;
        InsertDescends(rows[0], rest);
      }
    }

    lemma {:induction false} InsertDescends(r: ChatLog, sorted: seq<ChatLog>)
      requires Valid() && Holds(r) && HoldsAll(sorted) && Descending(sorted)
      requires r.seqNo !in SeqNos(sorted)
      ensures Descending(InsertDesc(r, sorted))
    {
      if sorted != [] {
        var first, rest := sorted[0], sorted[1..];
        assert first in sorted;
        NewerIsHigher(first, r);
        if Newer(first, r) {
          InsertDescends(r, rest);
          InsertDescMembers(r, rest);
          assert forall x | x in rest :: first.seqNo > x.seqNo;
        }
      }
    }

    /** A forward read below cursor `c` returns the highest-numbered local rows below `c`. */
    lemma ReadIsNewestBelow(rows: seq<ChatLog>, count: nat, c: int, startTime: int, startSeq: int, startId: string)
      requires Valid() && TableOk(rows) && CursorAt(c, rows, startTime, startSeq)
      ensures var page := GetMessageList(rows, count, startTime, startSeq, startId);
              && HoldsAll(page) && Descending(page) && |page| <= count
              && (forall r | r in page :: r in rows && r.seqNo < c)
              && (forall r | r in rows && r.seqNo < c && r !in page ::
                    |page| == count && forall p | p in page :: r.seqNo < p.seqNo)
    {
      var all := SelectDesc(rows, startTime, startSeq, startId);
      SelectDescMembers(rows, startTime, startSeq, startId);
      SelectedDescends(rows, startTime, startSeq, startId);
      CursorBounds(rows, c, startTime, startSeq, startId);
      TakeKeepsHighest(all, count);
    }

    lemma CursorBounds(rows: seq<ChatLog>, c: int, startTime: int, startSeq: int, startId: string)
      requires Valid() && HoldsAll(rows) && CursorAt(c, rows, startTime, startSeq)
      ensures forall r | r in rows :: BelowCursor(r, startTime, startSeq, startId) <==> r.seqNo < c
    {
      forall r | r in rows
        ensures BelowCursor(r, startTime, startSeq, startId) <==> r.seqNo < c
      {
        assert Holds(r);
        if startTime > 0 {
          NewerIsHigher(At(c), r);
          assert At(r.seqNo).seqNo == r.seqNo;
        }
      }
    }
  }

  lemma TakeKeepsHighest(all: seq<ChatLog>, count: nat)
    requires Descending(all)
    ensures var page := Take(all, count);
            && |page| <= count && Descending(page)
            && (forall r | r in page :: r in all)
            && (forall r | r in all && r !in page :: |page| == count && forall p | p in page :: r.seqNo < p.seqNo)
  {
    var page := Take(all, count);
    forall r | r in all && r !in page
      ensures |page| == count && forall p | p in page :: r.seqNo < p.seqNo
    {
      var i :| 0 <= i < |all| && all[i] == r;
      assert forall k | 0 <= k < |page| :: page[k] == all[k] && all[k] in page;
    }
  }

  /** A descending list that contains every number of `top-m .. top-1` starts with exactly those. */
  lemma {:induction false} DenseDescending(list: seq<ChatLog>, top: int, m: nat)
    requires Descending(list)
    requires forall r | r in list :: r.seqNo < top
    requires forall s | top - m <= s < top :: s in SeqNos(list)
    ensures |list| >= m
    ensures forall i | 0 <= i < m :: list[i].seqNo == top - 1 - i
  {
    if m > 0 {
      DenseDescending(list, top, m - 1);
      assert top - m in SeqNos(list);
      var j :| 0 <= j < |list| && list[j].seqNo == top - m;
      assert j >= m - 1;
      assert list[m - 1] in list && list[m - 1].seqNo >= list[j].seqNo;
      assert m >= 2 ==> list[m - 2].seqNo > list[m - 1].seqNo;
    }
  }
}

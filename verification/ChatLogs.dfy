/** Rows of a conversation's chat-log table, and the read rule of that table. */
module ChatLogs {
  import opened Basics

  /** The status constants that the pager and the puller compare with. */
  const MSG_STATUS_SEND_SUCCESS := 2
  const MSG_STATUS_HAS_DELETED := 4

  /** The columns that paging and pulling depend on. `seqNo` is 0 for a row the server has not numbered yet. */
  datatype ChatLog = ChatLog(clientMsgId: string, seqNo: int, sendTime: int, status: int, sendId: string) {
    predicate Live() {
      status < MSG_STATUS_HAS_DELETED
    }
  }

  /** `send_time DESC, seq DESC`, the order of a forward read. */
  predicate Newer(a: ChatLog, b: ChatLog) {
    a.sendTime > b.sendTime || (a.sendTime == b.sendTime && a.seqNo > b.seqNo)
  }

  /** Strictly descending sequence numbers. */
  ghost predicate Descending(list: seq<ChatLog>) {
    forall i, j | 0 <= i < j < |list| :: list[i].seqNo > list[j].seqNo
  }

  /** The numbers of `list` run down from `top - 1` without a gap. */
  ghost predicate Unbroken(list: seq<ChatLog>, top: int) {
    forall i | 0 <= i < |list| :: list[i].seqNo == top - 1 - i
  }

  ghost function SeqNos(list: seq<ChatLog>): set<int> {
    set r | r in list :: r.seqNo
  }

  function Take<T>(s: seq<T>, n: nat): seq<T> {
    if n <= |s| then s[..n] else s
  }

  function Live(list: seq<ChatLog>): seq<ChatLog> {
    if list == [] then []
    else if list[|list| - 1].Live() then Live(list[..|list| - 1]) + [list[|list| - 1]]
    else Live(list[..|list| - 1])
  }

  /** The row of the table with the given primary key. */
  function FindById(rows: seq<ChatLog>, id: string): (found: Option<ChatLog>)
    ensures found.Some? ==> found.value in rows && found.value.clientMsgId == id
    ensures found.None? ==> forall r | r in rows :: r.clientMsgId != id
  {
    if rows == [] then None
    else if rows[0].clientMsgId == id then Some(rows[0])
    else FindById(rows[1..], id)
  }

  /** The `WHERE` clause of a forward read that starts at a cursor row. */
  predicate BelowCursor(r: ChatLog, startTime: int, startSeq: int, startId: string) {
    startTime > 0 ==>
      || r.sendTime < startTime
      || (r.sendTime == startTime && (r.seqNo < startSeq || (r.seqNo == 0 && r.clientMsgId != startId)))
  }

  function InsertDesc(r: ChatLog, sorted: seq<ChatLog>): seq<ChatLog> {
    if sorted == [] || !Newer(sorted[0], r) then [r] + sorted
    else [sorted[0]] + InsertDesc(r, sorted[1..])
  }

  function SelectDesc(rows: seq<ChatLog>, startTime: int, startSeq: int, startId: string): seq<ChatLog> {
    if rows == [] then []
    else
      var rest := SelectDesc(rows[1..], startTime, startSeq, startId);
      if BelowCursor(rows[0], startTime, startSeq, startId) then InsertDesc(rows[0], rest) else rest
  }

  /** GetMessageList for a forward read: filter, order, limit. */
  function GetMessageList(rows: seq<ChatLog>, count: nat, startTime: int, startSeq: int, startId: string): seq<ChatLog> {
    Take(SelectDesc(rows, startTime, startSeq, startId), count)
  }

  /**
   * Below a cursor row are the rows that it is newer than, and at its time the other rows without a number; without a cursor
   * all are.
   */
  lemma BelowCursorIs(r: ChatLog, cursor: ChatLog)
    requires cursor.sendTime > 0
    ensures BelowCursor(r, cursor.sendTime, cursor.seqNo, cursor.clientMsgId)
            <==> Newer(cursor, r)
                 || (r.sendTime == cursor.sendTime && r.seqNo == 0 && r.clientMsgId != cursor.clientMsgId)
    ensures !BelowCursor(cursor, cursor.sendTime, cursor.seqNo, cursor.clientMsgId)
    ensures BelowCursor(r, 0, cursor.seqNo, cursor.clientMsgId)
  {
  }

  /** No row comes behind one that it is newer than. */
  ghost predicate NewestFirst(list: seq<ChatLog>) {
    forall i, j | 0 <= i < j < |list| :: NotNewer(list[j], list[i])
  }

  lemma {:induction false} InsertDescOrder(r: ChatLog, sorted: seq<ChatLog>)
    requires NewestFirst(sorted)
    ensures NewestFirst(InsertDesc(r, sorted)) && multiset(InsertDesc(r, sorted)) == multiset(sorted) + multiset{r}
  {
    if sorted != [] && Newer(sorted[0], r) {
      var first, rest := sorted[0], sorted[1..];
      assert sorted == [first] + rest;
      InsertDescOrder(r, rest);
      InsertDescMembers(r, rest);
      HeadNewest(first, InsertDesc(r, rest));
    } else if sorted != [] {
      assert forall x | x in sorted :: NotNewer(x, sorted[0]);
      HeadNewest(r, sorted);
    }
  }

  ghost predicate NotNewer(x: ChatLog, y: ChatLog) {
    x.sendTime < y.sendTime || (x.sendTime == y.sendTime && x.seqNo <= y.seqNo)
  }

  lemma HeadNewest(first: ChatLog, rest: seq<ChatLog>)
    requires NewestFirst(rest) && forall x | x in rest :: NotNewer(x, first)
    ensures NewestFirst([first] + rest)
  {
  }

  /** On any table, with rows that have no number too, a read gives a prefix of all rows below its cursor, newest first. */
  lemma {:induction false} SelectDescOrder(rows: seq<ChatLog>, startTime: int, startSeq: int, startId: string)
    ensures NewestFirst(SelectDesc(rows, startTime, startSeq, startId))
    ensures forall x :: multiset(SelectDesc(rows, startTime, startSeq, startId))[x]
                        == if BelowCursor(x, startTime, startSeq, startId) then multiset(rows)[x] else 0
  {
    if rows != [] {
      SelectDescOrder(rows[1..], startTime, startSeq, startId);
      InsertDescOrder(rows[0], SelectDesc(rows[1..], startTime, startSeq, startId));
      assert rows == [rows[0]] + rows[1..];
    }
  }

  lemma {:induction false} InsertDescMembers(r: ChatLog, sorted: seq<ChatLog>)
    ensures forall x :: x in InsertDesc(r, sorted) <==> x == r || x in sorted
  {
    if sorted != [] && Newer(sorted[0], r) {
      InsertDescMembers(r, sorted[1..]);
      assert sorted == [sorted[0]] + sorted[1..];
    }
  }

  lemma {:induction false} SelectDescMembers(rows: seq<ChatLog>, startTime: int, startSeq: int, startId: string)
    ensures forall x :: x in SelectDesc(rows, startTime, startSeq, startId)
                        <==> x in rows && BelowCursor(x, startTime, startSeq, startId)
  {
    if rows != [] {
      SelectDescMembers(rows[1..], startTime, startSeq, startId);
      InsertDescMembers(rows[0], SelectDesc(rows[1..], startTime, startSeq, startId));
      assert rows == [rows[0]] + rows[1..];
    }
  }
}

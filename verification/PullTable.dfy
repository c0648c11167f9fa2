/**
 * Storing pulled messages: classification of one conversation's pull into insert and update rows,
 * generated ids for exceptional messages, and the write to the table.
 */
module PullTable {
  import opened Basics
  import opened ChatLogs
  import opened ServerLogs

  /** What the random sources hand out for one message. */
  datatype Random = Random(msgId: string, suffix: string)

  function Decimal(n: int): string
    decreases if n < 0 then 1 - n else n
  {
    if n < 0 then "-" + Decimal(-n)
    else if n < 10 then [(n as char) + '0']
    else Decimal(n / 10) + Decimal(n % 10)
  }

  /** The number that a string of digits stands for. */
  ghost function Value(digits: string): int {
    if digits == "" then 0 else 10 * Value(digits[..|digits| - 1]) + (digits[|digits| - 1] as int - '0' as int)
  }

  lemma {:induction false} DecimalStands(n: nat)
    ensures Decimal(n) != "" && Value(Decimal(n)) == n && forall d | d in Decimal(n) :: '0' <= d <= '9'
    ensures n > 0 ==> Decimal(-(n as int)) == "-" + Decimal(n)
  {
    if n >= 10 {
      DecimalStands(n / 10);
      DecimalStands(n % 10);
      var front, last := Decimal(n / 10), Decimal(n % 10);
      assert |last| == 1 && (front + last)[..|front|] == front;
    } else {
      assert Decimal(n)[..0] == "";
    }
  }

  /** The form in which a server message is stored. */
  function ToLocal(v: ChatLog): ChatLog {
    if v.status >= MSG_STATUS_HAS_DELETED then v else v.(status := MSG_STATUS_SEND_SUCCESS)
  }

  /** handleExceptionMessages: the row becomes a deleted one under a tagged, generated id. */
  function HandleException(existing: Option<ChatLog>, message: ChatLog, random: Random): ChatLog {
    var id := if existing.None? && message.status == MSG_STATUS_HAS_DELETED && message.clientMsgId == ""
              then random.msgId else message.clientMsgId;
    var prefix :=
      match existing
      case Some(known) => if known.seqNo == message.seqNo then "[SEQ_DUP]" else "[CLIENT_DUP]"
      case None =>
        if message.status != MSG_STATUS_HAS_DELETED then "[UNKNOWN]"
        else if message.clientMsgId == "" then "[SEQ_GAP_+" + Decimal(message.seqNo) + "]"
        else "[DELETED]";
    message.(status := MSG_STATUS_HAS_DELETED, clientMsgId := prefix + id + ("_" + random.suffix))
  }

  /** The state of the classification loop; `pulled` holds the messages as the loop has overwritten them. */
  datatype Buckets = Buckets(insert: seq<ChatLog>, selfInsert: seq<ChatLog>, othersInsert: seq<ChatLog>,
                             update: seq<ChatLog>, processed: map<string, ChatLog>, pulled: seq<ChatLog>) {
    function Inserts(): seq<ChatLog> {
      insert + (selfInsert + othersInsert)
    }
  }

  const NO_BUCKETS := Buckets([], [], [], [], map[], [])

  function ClassifyOne(b: Buckets, v: ChatLog, rows: seq<ChatLog>, me: string, random: Random): Buckets {
    var msg := ToLocal(v);
    if v.clientMsgId in b.processed then
      var row := HandleException(Some(b.processed[v.clientMsgId]), msg, random);
      b.(insert := b.insert + [row], pulled := b.pulled + [v.(status := row.status)])
    else if v.status == MSG_STATUS_HAS_DELETED then
      var row := HandleException(None, msg, random);
      b.(insert := b.insert + [row], pulled := b.pulled + [v.(clientMsgId := row.clientMsgId)])
    else
      var existing := FindById(rows, msg.clientMsgId);
      if existing.None? then
        if v.sendId == me then
          b.(selfInsert := b.selfInsert + [msg], processed := b.processed[msg.clientMsgId := msg], pulled := b.pulled + [v])
        else
          b.(othersInsert := b.othersInsert + [msg], processed := b.processed[msg.clientMsgId := msg], pulled := b.pulled + [v])
      else if v.sendId == me && existing.value.seqNo == 0 then
        b.(update := b.update + [msg], processed := b.processed[msg.clientMsgId := msg], pulled := b.pulled + [v])
      else
        var row := HandleException(existing, msg, random);
        b.(insert := b.insert + [row], processed := b.processed[row.clientMsgId := row],
           pulled := b.pulled + [v.(status := row.status)])
  }

  function Classify(msgs: seq<ChatLog>, rows: seq<ChatLog>, me: string, randoms: seq<Random>): Buckets
    requires |msgs| <= |randoms|
  {
    if msgs == [] then NO_BUCKETS
    else
      var n := |msgs| - 1;
      ClassifyOne(Classify(msgs[..n], rows, me, randoms), msgs[n], rows, me, randoms[n])
  }

  /** The row after an update; zero fields of `m` are not written, nor is the sender. */
  function Updated(r: ChatLog, m: ChatLog): ChatLog {
    r.(seqNo := if m.seqNo != 0 then m.seqNo else r.seqNo,
       sendTime := if m.sendTime != 0 then m.sendTime else r.sendTime,
       status := m.status)
  }

  /** UpdateMessage by primary key. */
  function UpdateRow(rows: seq<ChatLog>, m: ChatLog): seq<ChatLog> {
    if rows == [] then []
    else [if rows[0].clientMsgId == m.clientMsgId then Updated(rows[0], m) else rows[0]] + UpdateRow(rows[1..], m)
  }

  function UpdateRows(rows: seq<ChatLog>, updates: seq<ChatLog>): seq<ChatLog> {
    if updates == [] then rows
    else UpdateRow(UpdateRows(rows, updates[..|updates| - 1]), updates[|updates| - 1])
  }

  /** Row by row insertion; a row whose primary key is taken is refused. */
  function InsertRows(rows: seq<ChatLog>, added: seq<ChatLog>): seq<ChatLog> {
    if added == [] then rows
    else
      var before := InsertRows(rows, added[..|added| - 1]);
      var r := added[|added| - 1];
      if FindById(before, r.clientMsgId).Some? then before else before + [r]
  }

  function DropUpdated(list: seq<ChatLog>, updates: seq<ChatLog>): seq<ChatLog> {
    if list == [] then []
    else
      var init := DropUpdated(list[..|list| - 1], updates);
      if FindById(updates, list[|list| - 1].clientMsgId).Some? then init else init + [list[|list| - 1]]
  }

  /** pullMessageIntoTable for the pull of one conversation. */
  method PullMessageIntoTable(rows: seq<ChatLog>, me: string, msgs: seq<ChatLog>, randoms: seq<Random>,
                              list: seq<ChatLog>)
    returns (rows': seq<ChatLog>, pulled: seq<ChatLog>, list': seq<ChatLog>)
    requires |msgs| == |randoms|
    ensures var b := Classify(msgs, rows, me, randoms);
            && pulled == b.pulled
            && rows' == InsertRows(UpdateRows(rows, b.update), b.Inserts())
            && list' == DropUpdated(list, b.update)
  {
    var b := NO_BUCKETS;
    for i := 0 to |msgs|
      invariant b == Classify(msgs[..i], rows, me, randoms)
    {
      assert msgs[..i + 1][..i] == msgs[..i];
      b := ClassifyOne(b, msgs[i], rows, me, randoms[i]);
    }
    assert msgs[..|msgs|] == msgs;
    pulled := b.pulled;
    rows' := rows;
    for i := 0 to |b.update|
      invariant rows' == UpdateRows(rows, b.update[..i])
    {
      assert b.update[..i + 1][..i] == b.update[..i];
      rows' := UpdateRow(rows', b.update[i]);
    }
    list' := [];
    for i := 0 to |list|
      invariant list' == DropUpdated(list[..i], b.update)
    {
      assert list[..i + 1][..i] == list[..i];
      if FindById(b.update, list[i].clientMsgId).None? {
        list' := list' + [list[i]];
      }
    }
    var added := b.Inserts();
    ghost var updated := rows';
    for i := 0 to |added|
      invariant rows' == InsertRows(updated, added[..i])
    {
      assert added[..i + 1][..i] == added[..i];
      if FindById(rows', added[i].clientMsgId).None? {
        rows' := rows' + [added[i]];
      }
    }
    assert b.update[..|b.update|] == b.update && list[..|list|] == list && added[..|added|] == added;
  }

  // ---- every pulled message becomes exactly one row ----

  /** What tells the messages of a pull apart, and every row that is made of one keeps. */
  datatype Origin = Origin(seqNo: int, sendTime: int, sendId: string)

  function OriginOf(r: ChatLog): Origin {
    Origin(r.seqNo, r.sendTime, r.sendId)
  }

  /** How many rows have origin `o`. */
  ghost function Copies(list: seq<ChatLog>, o: Origin): nat {
    if list == [] then 0
    else Copies(list[..|list| - 1], o) + if OriginOf(list[|list| - 1]) == o then 1 else 0
  }

  lemma {:induction false} CopiesConcat(a: seq<ChatLog>, b: seq<ChatLog>, o: Origin)
    ensures Copies(a + b, o) == Copies(a, o) + Copies(b, o)
  {
    if b == [] {
      assert a + b == a;
    } else {
      CopiesConcat(a, b[..|b| - 1], o);
      assert (a + b)[..|a + b| - 1] == a + b[..|b| - 1];
    }
  }

  lemma CopiesAppend(list: seq<ChatLog>, r: ChatLog, o: Origin)
    ensures Copies(list + [r], o) == Copies(list, o) + if OriginOf(r) == o then 1 else 0
  {
    assert (list + [r])[..|list|] == list;
  }

  ghost function BucketCopies(b: Buckets, o: Origin): nat {
    Copies(b.insert, o) + Copies(b.selfInsert, o) + Copies(b.othersInsert, o) + Copies(b.update, o)
  }

  lemma StepAddsOneRow(b: Buckets, v: ChatLog, rows: seq<ChatLog>, me: string, random: Random, o: Origin)
    ensures BucketCopies(ClassifyOne(b, v, rows, me, random), o) == BucketCopies(b, o) + if OriginOf(v) == o then 1 else 0
  {
    hide Copies, FindById;
    var c := ClassifyOne(b, v, rows, me, random);
    if |c.insert| > |b.insert| {
      CopiesAppend(b.insert, c.insert[|b.insert|], o);
    } else if |c.selfInsert| > |b.selfInsert| {
      CopiesAppend(b.selfInsert, ToLocal(v), o);
    } else if |c.othersInsert| > |b.othersInsert| {
      CopiesAppend(b.othersInsert, ToLocal(v), o);
    } else {
      CopiesAppend(b.update, ToLocal(v), o);
    }
  }

  lemma {:induction false} BucketsCountPulled(msgs: seq<ChatLog>, rows: seq<ChatLog>, me: string,
                                              randoms: seq<Random>, o: Origin)
    requires |msgs| <= |randoms|
    ensures BucketCopies(Classify(msgs, rows, me, randoms), o) == Copies(msgs, o)
  {
    if msgs != [] {
      var k := |msgs| - 1;
      BucketsCountPulled(msgs[..k], rows, me, randoms, o);
      StepAddsOneRow(Classify(msgs[..k], rows, me, randoms), msgs[k], rows, me, randoms[k], o);
    }
  }

  /** For every number, time and sender, as many insert and update rows as messages pulled. */
  lemma EachPulledBecomesOneRow(msgs: seq<ChatLog>, rows: seq<ChatLog>, me: string, randoms: seq<Random>, o: Origin)
    requires |msgs| <= |randoms|
    ensures var b := Classify(msgs, rows, me, randoms);
            Copies(b.Inserts(), o) + Copies(b.update, o) == Copies(msgs, o)
  {
    var b := Classify(msgs, rows, me, randoms);
    BucketsCountPulled(msgs, rows, me, randoms, o);
    CopiesConcat(b.selfInsert, b.othersInsert, o);
    CopiesConcat(b.insert, b.selfInsert + b.othersInsert, o);
  }

  ghost predicate DistinctNumbers(list: seq<ChatLog>) {
    forall i, j | 0 <= i < j < |list| :: list[i].seqNo != list[j].seqNo
  }

  lemma {:induction false} CopiesOccur(list: seq<ChatLog>, o: Origin)
    ensures Copies(list, o) > 0 <==> exists r :: r in list && OriginOf(r) == o
  {
    if list != [] {
      CopiesOccur(list[..|list| - 1], o);
      assert list == list[..|list| - 1] + [list[|list| - 1]];
    }
  }

  lemma {:induction false} CopiesOfDistinct(list: seq<ChatLog>, o: Origin)
    requires DistinctNumbers(list)
    ensures Copies(list, o) <= 1
  {
    if list != [] {
      var init := list[..|list| - 1];
      CopiesOfDistinct(init, o);
      CopiesOccur(init, o);
    }
  }

  /** Single copies of messages that differ in number differ in number. */
  lemma {:induction false} SingleCopiesDistinct(list: seq<ChatLog>, msgs: seq<ChatLog>)
    requires DistinctNumbers(msgs) && forall o :: Copies(list, o) <= 1 && Copies(list, o) <= Copies(msgs, o)
    ensures DistinctNumbers(list)
  {
    if list != [] {
      var init, last := list[..|list| - 1], list[|list| - 1];
      forall o ensures Copies(init, o) <= 1 && Copies(init, o) <= Copies(msgs, o) {
        assert Copies(list, o) <= 1 && Copies(list, o) <= Copies(msgs, o);
      }
      SingleCopiesDistinct(init, msgs);
      CopiesOccur(init, OriginOf(last));
      assert Copies(list, OriginOf(last)) <= 1;
      CopiesOccur(msgs, OriginOf(last));
      assert Copies(list, OriginOf(last)) <= Copies(msgs, OriginOf(last));
      forall i | 0 <= i < |init|
        ensures init[i].seqNo != last.seqNo
      {
        CopiesOccur(init, OriginOf(init[i]));
        CopiesOccur(msgs, OriginOf(init[i]));
        assert init[i] in init && Copies(init, OriginOf(init[i])) <= Copies(msgs, OriginOf(init[i]));
      }
    }
  }

  /** Own messages and those of others are kept apart. */
  lemma {:induction false} OwnKeptApart(msgs: seq<ChatLog>, rows: seq<ChatLog>, me: string, randoms: seq<Random>)
    requires |msgs| <= |randoms|
    ensures var b := Classify(msgs, rows, me, randoms);
            && (forall r | r in b.selfInsert || r in b.update :: r.sendId == me)
            && (forall r | r in b.othersInsert :: r.sendId != me)
  {
    if msgs != [] { OwnKeptApart(msgs[..|msgs| - 1], rows, me, randoms); }
  }

  // ---- ids handed to insert are new ----

  ghost predicate EndsWith(id: string, tail: string) {
    |id| >= |tail| && id[|id| - |tail|..] == tail
  }

  /** The random suffixes are new: of one length, pairwise distinct, and no known id ends with one. */
  ghost predicate FreshSuffixes(rows: seq<ChatLog>, msgs: seq<ChatLog>, randoms: seq<Random>) {
    && |randoms| == |msgs|
    && (forall i | 0 <= i < |randoms| :: |randoms[i].suffix| == 8)
    && (forall i, j | 0 <= i < j < |randoms| :: randoms[i].suffix != randoms[j].suffix)
    && (forall i, r | 0 <= i < |randoms| && r in rows :: !EndsWith(r.clientMsgId, randoms[i].suffix))
    && (forall i, m | 0 <= i < |randoms| && m in msgs :: !EndsWith(m.clientMsgId, randoms[i].suffix))
  }

  /** Where an id handed to insert comes from: a recorded message, or one of the first `n` suffixes. */
  ghost predicate IdOrigin(id: string, b: Buckets, msgs: seq<ChatLog>, randoms: seq<Random>, n: nat)
    requires n <= |randoms|
  {
    || (id in b.processed && exists m :: m in msgs && m.clientMsgId == id)
    || exists k :: 0 <= k < n && EndsWith(id, randoms[k].suffix)
  }

  ghost predicate DistinctIds(list: seq<ChatLog>) {
    forall i, j | 0 <= i < j < |list| :: list[i].clientMsgId != list[j].clientMsgId
  }

  ghost predicate IdsOutside(list: seq<ChatLog>, rows: seq<ChatLog>) {
    forall r, known | r in list && known in rows :: r.clientMsgId != known.clientMsgId
  }

  ghost predicate IdsKept(b: Buckets, rows: seq<ChatLog>, msgs: seq<ChatLog>, randoms: seq<Random>, n: nat)
    requires n <= |randoms|
  {
    && DistinctIds(b.Inserts())
    && IdsOutside(b.Inserts(), rows)
    && forall r | r in b.Inserts() :: IdOrigin(r.clientMsgId, b, msgs, randoms, n)
  }

  /** One step puts at most one row, somewhere, into the insert list. */
  lemma StepInsertsAt(b: Buckets, v: ChatLog, rows: seq<ChatLog>, me: string, random: Random)
    returns (k: nat, row: ChatLog)
    ensures k <= |b.Inserts()|
    ensures var c := ClassifyOne(b, v, rows, me, random);
            && b.processed.Keys <= c.processed.Keys
            && (c.Inserts() == b.Inserts() || c.Inserts() == b.Inserts()[..k] + [row] + b.Inserts()[k..])
            && (c.Inserts() != b.Inserts() ==>
                  || EndsWith(row.clientMsgId, random.suffix)
                  || (&& row.clientMsgId == v.clientMsgId && v.clientMsgId !in b.processed && v.clientMsgId in c.processed
                      && FindById(rows, v.clientMsgId).None?))
  {
    var c := ClassifyOne(b, v, rows, me, random);
    k, row := 0, v;
    if |c.insert| > |b.insert| {
      k, row := |b.insert|, c.insert[|b.insert|];
      ExceptionEndsWithSuffix(if v.clientMsgId in b.processed then Some(b.processed[v.clientMsgId])
                              else if v.status == MSG_STATUS_HAS_DELETED then None
                              else FindById(rows, v.clientMsgId), ToLocal(v), random);
    } else if |c.selfInsert| > |b.selfInsert| {
      k, row := |b.insert| + |b.selfInsert|, ToLocal(v);
    } else if |c.othersInsert| > |b.othersInsert| {
      k, row := |b.Inserts()|, ToLocal(v);
    }
    if c.Inserts() != b.Inserts() {
      assert c.Inserts() == b.Inserts()[..k] + [row] + b.Inserts()[k..];
    }
  }

  lemma InsertKeepsDistinct(list: seq<ChatLog>, k: nat, row: ChatLog)
    requires k <= |list| && DistinctIds(list)
    requires forall r | r in list :: r.clientMsgId != row.clientMsgId
    ensures DistinctIds(list[..k] + [row] + list[k..])
    ensures forall r :: r in list[..k] + [row] + list[k..] <==> r == row || r in list
  {
    var longer := list[..k] + [row] + list[k..];
    assert list == list[..k] + list[k..];
    forall i, j | 0 <= i < j < |longer|
      ensures longer[i].clientMsgId != longer[j].clientMsgId
    {
      var a := if i < k then i else if i == k then -1 else i - 1;
      var b := if j < k then j else if j == k then -1 else j - 1;
      assert a >= 0 ==> longer[i] == list[a] && list[a] in list;
      assert b >= 0 ==> longer[j] == list[b] && list[b] in list;
    }
  }

  lemma StepKeepsIds(b: Buckets, msgs: seq<ChatLog>, n: nat, rows: seq<ChatLog>, me: string, randoms: seq<Random>)
    requires n < |msgs| && FreshSuffixes(rows, msgs, randoms)
    requires IdsKept(b, rows, msgs, randoms, n)
    ensures IdsKept(ClassifyOne(b, msgs[n], rows, me, randoms[n]), rows, msgs, randoms, n + 1)
  {
    var c := ClassifyOne(b, msgs[n], rows, me, randoms[n]);
    var k, row := StepInsertsAt(b, msgs[n], rows, me, randoms[n]);
    forall id | IdOrigin(id, b, msgs, randoms, n)
      ensures IdOrigin(id, c, msgs, randoms, n + 1)
      ensures !EndsWith(id, randoms[n].suffix)
      ensures id == msgs[n].clientMsgId ==> id in b.processed
    {
      assert msgs[n] in msgs;
    }
    if c.Inserts() != b.Inserts() {
      assert msgs[n] in msgs;
      InsertKeepsDistinct(b.Inserts(), k, row);
    }
  }

  lemma {:induction false} PrefixIdsKept(msgs: seq<ChatLog>, n: nat, rows: seq<ChatLog>, me: string, randoms: seq<Random>)
    requires n <= |msgs| && FreshSuffixes(rows, msgs, randoms)
    ensures IdsKept(Classify(msgs[..n], rows, me, randoms), rows, msgs, randoms, n)
  {
    if n > 0 {
      PrefixIdsKept(msgs, n - 1, rows, me, randoms);
      assert msgs[..n][..n - 1] == msgs[..n - 1];
      StepKeepsIds(Classify(msgs[..n - 1], rows, me, randoms), msgs, n - 1, rows, me, randoms);
    }
  }

  /** With new suffixes, ids handed to insert are pairwise distinct and not in the table, duplicates or not. */
  lemma InsertedIdsAreNew(msgs: seq<ChatLog>, rows: seq<ChatLog>, me: string, randoms: seq<Random>)
    requires FreshSuffixes(rows, msgs, randoms)
    ensures DistinctIds(Classify(msgs, rows, me, randoms).Inserts())
    ensures IdsOutside(Classify(msgs, rows, me, randoms).Inserts(), rows)
  {
    PrefixIdsKept(msgs, |msgs|, rows, me, randoms);
    assert msgs[..|msgs|] == msgs;
  }

  lemma {:induction false} NewRowsAllInserted(rows: seq<ChatLog>, added: seq<ChatLog>)
    requires DistinctIds(added) && IdsOutside(added, rows)
    ensures InsertRows(rows, added) == rows + added
  {
    if added != [] {
      var init, last := added[..|added| - 1], added[|added| - 1];
      NewRowsAllInserted(rows, init);
      assert rows + init + [last] == rows + added;
      assert forall i | 0 <= i < |init| :: init[i].clientMsgId == added[i].clientMsgId;
    }
  }

  lemma {:induction false} UpdateKeepsIds(rows: seq<ChatLog>, m: ChatLog)
    ensures |UpdateRow(rows, m)| == |rows|
    ensures forall i | 0 <= i < |rows| :: UpdateRow(rows, m)[i].clientMsgId == rows[i].clientMsgId
    ensures forall i | 0 <= i < |rows| && rows[i].clientMsgId != m.clientMsgId :: UpdateRow(rows, m)[i] == rows[i]
  {
    if rows != [] { UpdateKeepsIds(rows[1..], m); }
  }

  lemma {:induction false} UpdatesKeepIds(rows: seq<ChatLog>, updates: seq<ChatLog>)
    ensures |UpdateRows(rows, updates)| == |rows|
    ensures forall i | 0 <= i < |rows| :: UpdateRows(rows, updates)[i].clientMsgId == rows[i].clientMsgId
    ensures forall i | 0 <= i < |rows| && (forall m | m in updates :: m.clientMsgId != rows[i].clientMsgId) ::
              UpdateRows(rows, updates)[i] == rows[i]
  {
    if updates != [] {
      var init, last := updates[..|updates| - 1], updates[|updates| - 1];
      assert updates == init + [last] && last in updates;
      UpdatesKeepIds(rows, init);
      UpdateKeepsIds(UpdateRows(rows, init), last);
    }
  }

  /** So the write loses nothing: the table becomes the updated rows followed by every insert row. */
  lemma PullIsStoredWhole(msgs: seq<ChatLog>, rows: seq<ChatLog>, me: string, randoms: seq<Random>)
    requires FreshSuffixes(rows, msgs, randoms)
    ensures var b := Classify(msgs, rows, me, randoms);
            InsertRows(UpdateRows(rows, b.update), b.Inserts()) == UpdateRows(rows, b.update) + b.Inserts()
  {
    var b := Classify(msgs, rows, me, randoms);
    InsertedIdsAreNew(msgs, rows, me, randoms);
    UpdatesKeepIds(rows, b.update);
    var updated := UpdateRows(rows, b.update);
    forall r, known | r in b.Inserts() && known in updated
      ensures r.clientMsgId != known.clientMsgId
    {
      var i :| 0 <= i < |updated| && updated[i] == known;
      assert rows[i] in rows;
    }
    NewRowsAllInserted(updated, b.Inserts());
  }

  lemma ExceptionEndsWithSuffix(existing: Option<ChatLog>, message: ChatLog, random: Random)
    ensures var row := HandleException(existing, message, random);
            EndsWith(row.clientMsgId, random.suffix) && Tagged(row.clientMsgId)
    ensures var gap := existing.None? && message.status == MSG_STATUS_HAS_DELETED && message.clientMsgId == "";
            var id := if gap then random.msgId else message.clientMsgId;
            EndsWith(HandleException(existing, message, random).clientMsgId, id + ("_" + random.suffix))
  {
    var row := HandleException(existing, message, random);
    var cut := |row.clientMsgId| - |random.suffix|;
    assert row.clientMsgId[cut..] == random.suffix;
  }

  /** The tag of a generated id tells why the message was exceptional; the row is deleted and keeps its number and time. */
  lemma TagTellsWhy(existing: Option<ChatLog>, message: ChatLog, random: Random)
    ensures var row := HandleException(existing, message, random);
            var deleted := message.status == MSG_STATUS_HAS_DELETED;
            && !row.Live() && row.seqNo == message.seqNo && row.sendTime == message.sendTime
            && ("[SEQ_DUP]" <= row.clientMsgId <==> existing.Some? && existing.value.seqNo == message.seqNo)
            && ("[CLIENT_DUP]" <= row.clientMsgId <==> existing.Some? && existing.value.seqNo != message.seqNo)
            && ("[DELETED]" <= row.clientMsgId <==> existing.None? && deleted && message.clientMsgId != "")
            && ("[SEQ_GAP_+" <= row.clientMsgId <==> existing.None? && deleted && message.clientMsgId == "")
            && ("[SEQ_GAP_+" <= row.clientMsgId ==>
                  "[SEQ_GAP_+" + Decimal(message.seqNo) + "]" + random.msgId <= row.clientMsgId)
            && ("[UNKNOWN]" <= row.clientMsgId <==> existing.None? && !deleted)
  {
    var id := HandleException(existing, message, random).clientMsgId;
    assert id[1] == 'S' || id[1] == 'C' || id[1] == 'D' || id[1] == 'U';
    assert id[1] == 'S' ==> id[5] == 'D' || id[5] == 'G';
  }

  // ---- which pulled messages only number the sender's own row ----

  /** The table holds the sender's own message without a number. */
  predicate OwnUnnumbered(rows: seq<ChatLog>, me: string, v: ChatLog) {
    var existing := FindById(rows, v.clientMsgId);
    v.status != MSG_STATUS_HAS_DELETED && v.sendId == me && existing.Some? && existing.value.seqNo == 0
  }

  /** The update rows are the messages that number an own row, each id once: the first one accepted under it. */
  lemma {:induction false} UpdatesAre(msgs: seq<ChatLog>, n: nat, rows: seq<ChatLog>, me: string,
                                      randoms: seq<Random>, r: ChatLog)
    requires n <= |msgs| <= |randoms| && forall m | m in msgs :: !Tagged(m.clientMsgId)
    ensures r in Classify(msgs[..n], rows, me, randoms).update
            <==> exists i :: 0 <= i < n && OwnUnnumbered(rows, me, msgs[i]) && r == ToLocal(msgs[i])
                             && !AcceptedBefore(msgs, i, rows, me, msgs[i].clientMsgId)
  {
    if n > 0 {
      assert msgs[..n][..n - 1] == msgs[..n - 1];
      UpdatesAre(msgs, n - 1, rows, me, randoms, r);
      assert msgs[n - 1] in msgs;
      ProcessedAre(msgs, n - 1, rows, me, randoms, msgs[n - 1].clientMsgId);
      StepUpdates(Classify(msgs[..n - 1], rows, me, randoms), msgs[n - 1], rows, me, randoms[n - 1]);
    }
  }

  lemma StepUpdates(b: Buckets, v: ChatLog, rows: seq<ChatLog>, me: string, random: Random)
    ensures ClassifyOne(b, v, rows, me, random).update
            == if v.clientMsgId !in b.processed && OwnUnnumbered(rows, me, v) then b.update + [ToLocal(v)] else b.update
  {
  }

  lemma {:induction false} FindUpdated(rows: seq<ChatLog>, m: ChatLog, id: string)
    ensures var before, after := FindById(rows, id), FindById(UpdateRow(rows, m), id);
            && (before.Some? <==> after.Some?)
            && (before.Some? ==>
                  after.value == if id == m.clientMsgId then Updated(before.value, m) else before.value)
  {
    if rows != [] { FindUpdated(rows[1..], m, id); }
  }

  lemma {:induction false} UpdatesWrite(rows: seq<ChatLog>, updates: seq<ChatLog>, id: string, u: ChatLog)
    requires FindById(rows, id).Some? && forall m | m in updates && m.clientMsgId == id :: m == u
    ensures var after := FindById(UpdateRows(rows, updates), id);
            && after.Some?
            && after.value == if exists m :: m in updates && m.clientMsgId == id then Updated(FindById(rows, id).value, u)
                              else FindById(rows, id).value
  {
    if updates != [] {
      var init, last := updates[..|updates| - 1], updates[|updates| - 1];
      assert updates == init + [last];
      UpdatesWrite(rows, init, id, u);
      FindUpdated(UpdateRows(rows, init), last, id);
      assert last in updates;
    }
  }

  lemma {:induction false} FindInPrefix(a: seq<ChatLog>, b: seq<ChatLog>, id: string)
    requires FindById(a, id).Some?
    ensures FindById(a + b, id) == FindById(a, id)
  {
    if a[0].clientMsgId != id {
      assert (a + b)[1..] == a[1..] + b;
      FindInPrefix(a[1..], b, id);
    }
  }

  lemma {:induction false} InsertsKeepFound(rows: seq<ChatLog>, added: seq<ChatLog>, id: string)
    requires FindById(rows, id).Some?
    ensures FindById(InsertRows(rows, added), id) == FindById(rows, id)
  {
    if added != [] {
      InsertsKeepFound(rows, added[..|added| - 1], id);
      FindInPrefix(InsertRows(rows, added[..|added| - 1]), [added[|added| - 1]], id);
    }
  }

  /**
   * A pull of the sender's own message gives its number and its time to the row that the table already has of it, and marks
   * a live one as sent.
   */
  lemma OwnRowNumbered(msgs: seq<ChatLog>, i: nat, rows: seq<ChatLog>, me: string, randoms: seq<Random>, own: ChatLog)
    requires i < |msgs| <= |randoms| && forall m | m in msgs :: !Tagged(m.clientMsgId)
    requires FindById(rows, msgs[i].clientMsgId) == Some(own) && own.seqNo == 0
    requires msgs[i].sendId == me && msgs[i].status != MSG_STATUS_HAS_DELETED
    requires !AcceptedBefore(msgs, i, rows, me, msgs[i].clientMsgId)
    ensures var b := Classify(msgs, rows, me, randoms);
            var row := FindById(InsertRows(UpdateRows(rows, b.update), b.Inserts()), msgs[i].clientMsgId);
            && row.Some? && row.value.seqNo == msgs[i].seqNo
            && row.value.clientMsgId == msgs[i].clientMsgId && row.value.sendId == own.sendId
            && row.value.sendTime == (if msgs[i].sendTime != 0 then msgs[i].sendTime else own.sendTime)
            && row.value.status == if msgs[i].Live() then MSG_STATUS_SEND_SUCCESS else msgs[i].status
  {
    hide Classify, FindById, UpdateRows, InsertRows, OwnUnnumbered, AcceptedBefore;
    var b, id := Classify(msgs, rows, me, randoms), msgs[i].clientMsgId;
    assert msgs[..|msgs|] == msgs;
    OwnRowFound(rows, me, msgs[i], own);
    UpdatesAre(msgs, |msgs|, rows, me, randoms, ToLocal(msgs[i]));
    forall m | m in b.update && m.clientMsgId == id
      ensures m == ToLocal(msgs[i])
    {
      SameUpdate(msgs, i, rows, me, randoms, m);
    }
    UpdatesWrite(rows, b.update, id, ToLocal(msgs[i]));
    InsertsKeepFound(UpdateRows(rows, b.update), b.Inserts(), id);
  }

  lemma OwnRowFound(rows: seq<ChatLog>, me: string, v: ChatLog, own: ChatLog)
    requires FindById(rows, v.clientMsgId) == Some(own) && own.seqNo == 0
    requires v.sendId == me && v.status != MSG_STATUS_HAS_DELETED
    ensures OwnUnnumbered(rows, me, v)
  {
  }

  /** A pull never changes a row that has a number. */
  lemma NumberedRowsStay(msgs: seq<ChatLog>, rows: seq<ChatLog>, me: string, randoms: seq<Random>, k: nat)
    requires |msgs| <= |randoms| && forall m | m in msgs :: !Tagged(m.clientMsgId)
    requires DistinctIds(rows) && k < |rows| && rows[k].seqNo != 0
    ensures var b := Classify(msgs, rows, me, randoms);
            var after := InsertRows(UpdateRows(rows, b.update), b.Inserts());
            k < |after| && after[k] == rows[k]
  {
    hide Classify, FindById, UpdateRows, InsertRows, AcceptedBefore;
    var b := Classify(msgs, rows, me, randoms);
    assert msgs[..|msgs|] == msgs;
    forall m | m in b.update
      ensures m.clientMsgId != rows[k].clientMsgId
    {
      UpdatesAre(msgs, |msgs|, rows, me, randoms, m);
      var own := FindById(rows, m.clientMsgId).value;
      var o :| 0 <= o < |rows| && rows[o] == own;
    }
    UpdatesKeepIds(rows, b.update);
    InsertsComeBehind(UpdateRows(rows, b.update), b.Inserts());
  }

  lemma {:induction false} InsertsComeBehind(rows: seq<ChatLog>, added: seq<ChatLog>)
    ensures rows <= InsertRows(rows, added)
  {
    if added != [] { InsertsComeBehind(rows, added[..|added| - 1]); }
  }

  /** Ids stay a key of the table, and of every id handed to insert there is a row afterwards. */
  lemma {:induction false} InsertsKeepKey(rows: seq<ChatLog>, added: seq<ChatLog>)
    requires DistinctIds(rows)
    ensures DistinctIds(InsertRows(rows, added))
    ensures forall r | r in added :: FindById(InsertRows(rows, added), r.clientMsgId).Some?
    ensures forall r | r in InsertRows(rows, added) :: r in rows || r in added
  {
    if added != [] {
      var init, last := added[..|added| - 1], added[|added| - 1];
      assert added == init + [last];
      InsertsKeepKey(rows, init);
      var before := InsertRows(rows, init);
      assert forall i | 0 <= i < |before| :: before[i] in before;
      if FindById(before, last.clientMsgId).None? {
        forall r | r in added
          ensures FindById(before + [last], r.clientMsgId).Some?
        {
          assert r in init ==> FindById(before, r.clientMsgId).Some?;
          if r in init { FindInPrefix(before, [last], r.clientMsgId); }
          else { assert last in before + [last]; }
        }
      }
    }
  }

  lemma {:induction false} DropJoins(a: seq<ChatLog>, b: seq<ChatLog>, updates: seq<ChatLog>)
    ensures DropUpdated(a + b, updates) == DropUpdated(a, updates) + DropUpdated(b, updates)
  {
    if b == [] {
      assert a + b == a;
    } else {
      DropJoins(a, b[..|b| - 1], updates);
      assert (a + b)[..|a + b| - 1] == a + b[..|b| - 1];
    }
  }

  /** The page loses exactly the rows that a pull updates, and keeps the order of the others. */
  lemma {:induction false} DropUpdatedIs(list: seq<ChatLog>, updates: seq<ChatLog>)
    ensures forall r :: r in DropUpdated(list, updates)
                        <==> r in list && forall u | u in updates :: u.clientMsgId != r.clientMsgId
    ensures Descending(list) ==> Descending(DropUpdated(list, updates))
  {
    if list != [] {
      var init, last := list[..|list| - 1], list[|list| - 1];
      assert list == init + [last];
      DropUpdatedIs(init, updates);
    }
  }

  lemma SameUpdate(msgs: seq<ChatLog>, i: nat, rows: seq<ChatLog>, me: string, randoms: seq<Random>, m: ChatLog)
    requires i < |msgs| <= |randoms| && forall m | m in msgs :: !Tagged(m.clientMsgId)
    requires OwnUnnumbered(rows, me, msgs[i]) && !AcceptedBefore(msgs, i, rows, me, msgs[i].clientMsgId)
    requires m in Classify(msgs, rows, me, randoms).update && m.clientMsgId == msgs[i].clientMsgId
    ensures m == ToLocal(msgs[i])
  {
    hide Classify, FindById;
    assert msgs[..|msgs|] == msgs;
    UpdatesAre(msgs, |msgs|, rows, me, randoms, m);
    var j :| 0 <= j < |msgs| && OwnUnnumbered(rows, me, msgs[j]) && m == ToLocal(msgs[j])
             && !AcceptedBefore(msgs, j, rows, me, msgs[j].clientMsgId);
  }

  // ---- which pulled messages a page may still show ----

  /** The table has no row under the message's id, or only the sender's own unnumbered one. */
  predicate Accepts(rows: seq<ChatLog>, me: string, v: ChatLog) {
    var existing := FindById(rows, v.clientMsgId);
    existing.None? || (v.sendId == me && existing.value.seqNo == 0)
  }

  ghost predicate AcceptedBefore(msgs: seq<ChatLog>, i: nat, rows: seq<ChatLog>, me: string, id: string)
    requires i <= |msgs|
  {
    exists j :: 0 <= j < i && msgs[j].clientMsgId == id && msgs[j].status != MSG_STATUS_HAS_DELETED
                  && Accepts(rows, me, msgs[j])
  }

  lemma StepProcesses(b: Buckets, v: ChatLog, rows: seq<ChatLog>, me: string, random: Random, id: string)
    requires !Tagged(id)
    ensures id in ClassifyOne(b, v, rows, me, random).processed
            <==> id in b.processed || (v.clientMsgId == id && v.status != MSG_STATUS_HAS_DELETED && Accepts(rows, me, v))
  {
    if v.clientMsgId !in b.processed && v.status != MSG_STATUS_HAS_DELETED && !Accepts(rows, me, v) {
      ExceptionEndsWithSuffix(FindById(rows, v.clientMsgId), ToLocal(v), random);
    }
  }

  lemma {:induction false} ProcessedAre(msgs: seq<ChatLog>, n: nat, rows: seq<ChatLog>, me: string,
                                        randoms: seq<Random>, id: string)
    requires n <= |msgs| <= |randoms| && !Tagged(id)
    ensures id in Classify(msgs[..n], rows, me, randoms).processed <==> AcceptedBefore(msgs, n, rows, me, id)
  {
    if n > 0 {
      assert msgs[..n][..n - 1] == msgs[..n - 1];
      ProcessedAre(msgs, n - 1, rows, me, randoms, id);
      StepProcesses(Classify(msgs[..n - 1], rows, me, randoms), msgs[n - 1], rows, me, randoms[n - 1], id);
    }
  }

  lemma StepAppendsPulled(b: Buckets, v: ChatLog, rows: seq<ChatLog>, me: string, random: Random)
    ensures |ClassifyOne(b, v, rows, me, random).pulled| == |b.pulled| + 1
    ensures ClassifyOne(b, v, rows, me, random).pulled[..|b.pulled|] == b.pulled
    ensures ClassifyOne(b, v, rows, me, random).pulled[|b.pulled|].Live()
            <==> v.Live() && v.clientMsgId !in b.processed && Accepts(rows, me, v)
    ensures var p := ClassifyOne(b, v, rows, me, random).pulled[|b.pulled|];
            OriginOf(p) == OriginOf(v) && (p.Live() ==> p == v)
  {
  }

  lemma {:induction false} PulledSoFar(msgs: seq<ChatLog>, i: nat, n: nat, rows: seq<ChatLog>, me: string,
                                       randoms: seq<Random>)
    requires i < n <= |msgs| <= |randoms|
    ensures |Classify(msgs[..i], rows, me, randoms).pulled| == i
    ensures |Classify(msgs[..n], rows, me, randoms).pulled| == n
    ensures Classify(msgs[..n], rows, me, randoms).pulled[i].Live()
            <==> && msgs[i].Live() && Accepts(rows, me, msgs[i])
                 && msgs[i].clientMsgId !in Classify(msgs[..i], rows, me, randoms).processed
    ensures var p := Classify(msgs[..n], rows, me, randoms).pulled[i];
            OriginOf(p) == OriginOf(msgs[i]) && (p.Live() ==> p == msgs[i])
  {
    var b := Classify(msgs[..n - 1], rows, me, randoms);
    assert msgs[..n][..n - 1] == msgs[..n - 1];
    assert Classify(msgs[..n], rows, me, randoms) == ClassifyOne(b, msgs[n - 1], rows, me, randoms[n - 1]);
    StepAppendsPulled(b, msgs[n - 1], rows, me, randoms[n - 1]);
    if i < n - 1 {
      PulledSoFar(msgs, i, n - 1, rows, me, randoms);
      var c := Classify(msgs[..n], rows, me, randoms);
      assert c.pulled[i] == c.pulled[..n - 1][i];
    } else if n > 1 {
      PulledSoFar(msgs, n - 2, n - 1, rows, me, randoms);
    }
  }

  /**
   * A pulled live message is still live after classification exactly when the table does not already hold it
   * under a number and no earlier message of the pull was accepted under its id.
   * So a pull of a number that is already local hides the message from the page that asked for it.
   */
  lemma PulledStaysLiveIff(msgs: seq<ChatLog>, i: nat, rows: seq<ChatLog>, me: string, randoms: seq<Random>)
    requires i < |msgs| <= |randoms|
    requires !Tagged(msgs[i].clientMsgId)
    ensures |Classify(msgs, rows, me, randoms).pulled| == |msgs|
    ensures Classify(msgs, rows, me, randoms).pulled[i].Live()
            <==> msgs[i].Live() && Accepts(rows, me, msgs[i]) && !AcceptedBefore(msgs, i, rows, me, msgs[i].clientMsgId)
    ensures var p := Classify(msgs, rows, me, randoms).pulled[i];
            OriginOf(p) == OriginOf(msgs[i]) && (p.Live() ==> p == msgs[i])
  {
    assert msgs[..|msgs|] == msgs;
    PulledSoFar(msgs, i, |msgs|, rows, me, randoms);
    ProcessedAre(msgs, i, rows, me, randoms, msgs[i].clientMsgId);
  }

  // ---- which row a pulled message becomes ----

  /** A deleted row of `v` under an id that tells whether the message `known` of that id has the same number. */
  ghost predicate Duplicate(r: ChatLog, v: ChatLog, known: int) {
    && OriginOf(r) == OriginOf(v) && r.status == MSG_STATUS_HAS_DELETED
    && (if known == v.seqNo then "[SEQ_DUP]" else "[CLIENT_DUP]") <= r.clientMsgId
  }

  /** The row of a message that is neither of these: deleted under a generated id, or as it is and sent. */
  ghost predicate Plain(r: ChatLog, v: ChatLog) {
    && OriginOf(r) == OriginOf(v)
    && if v.status == MSG_STATUS_HAS_DELETED
       then r.status == MSG_STATUS_HAS_DELETED && (if v.clientMsgId == "" then "[SEQ_GAP_+" else "[DELETED]") <= r.clientMsgId
       else r.clientMsgId == v.clientMsgId && r.status == if v.Live() then MSG_STATUS_SEND_SUCCESS else v.status
  }

  ghost predicate RowsGrow(b: Buckets, c: Buckets) {
    forall r | r in b.Inserts() || r in b.update :: r in c.Inserts() || r in c.update
  }

  lemma StepRow(b: Buckets, v: ChatLog, rows: seq<ChatLog>, me: string, random: Random) returns (r: ChatLog)
    ensures var c := ClassifyOne(b, v, rows, me, random);
            RowsGrow(b, c) && (r in c.Inserts() || r in c.update)
    ensures if v.clientMsgId in b.processed then Duplicate(r, v, b.processed[v.clientMsgId].seqNo)
            else if v.status == MSG_STATUS_HAS_DELETED || Accepts(rows, me, v) then Plain(r, v)
            else Duplicate(r, v, FindById(rows, v.clientMsgId).value.seqNo)
  {
    var c := ClassifyOne(b, v, rows, me, random);
    r := ToLocal(v);
    if |c.insert| > |b.insert| { r := c.insert[|b.insert|]; }
    var existing := if v.clientMsgId in b.processed then Some(b.processed[v.clientMsgId])
                    else if v.status == MSG_STATUS_HAS_DELETED then None else FindById(rows, v.clientMsgId);
    TagTellsWhy(existing, ToLocal(v), random);
  }

  /** What is remembered of an id is the first message accepted under it. */
  lemma {:induction false} ProcessedIsFirst(msgs: seq<ChatLog>, j: nat, n: nat, rows: seq<ChatLog>, me: string,
                                            randoms: seq<Random>)
    requires j < n <= |msgs| <= |randoms| && !Tagged(msgs[j].clientMsgId)
    requires msgs[j].status != MSG_STATUS_HAS_DELETED && Accepts(rows, me, msgs[j])
    requires !AcceptedBefore(msgs, j, rows, me, msgs[j].clientMsgId)
    ensures var processed := Classify(msgs[..n], rows, me, randoms).processed;
            msgs[j].clientMsgId in processed && processed[msgs[j].clientMsgId].seqNo == msgs[j].seqNo
  {
    var b, v := Classify(msgs[..n - 1], rows, me, randoms), msgs[n - 1];
    assert msgs[..n][..n - 1] == msgs[..n - 1];
    if j < n - 1 {
      ProcessedIsFirst(msgs, j, n - 1, rows, me, randoms);
      StepRemembers(b, v, rows, me, randoms[n - 1], msgs[j].clientMsgId);
    } else {
      ProcessedAre(msgs, j, rows, me, randoms, msgs[j].clientMsgId);
    }
  }

  lemma StepRemembers(b: Buckets, v: ChatLog, rows: seq<ChatLog>, me: string, random: Random, id: string)
    requires id in b.processed && !Tagged(id)
    ensures var processed := ClassifyOne(b, v, rows, me, random).processed;
            id in processed && processed[id] == b.processed[id]
  {
    ExceptionEndsWithSuffix(FindById(rows, v.clientMsgId), ToLocal(v), random);
  }

  lemma {:induction false} RowsStay(msgs: seq<ChatLog>, i: nat, n: nat, rows: seq<ChatLog>, me: string,
                                    randoms: seq<Random>)
    requires i <= n <= |msgs| <= |randoms|
    ensures RowsGrow(Classify(msgs[..i], rows, me, randoms), Classify(msgs[..n], rows, me, randoms))
  {
    hide ClassifyOne, FindById, Duplicate, Plain, Accepts, Buckets.Inserts;
    if i < n {
      RowsStay(msgs, i, n - 1, rows, me, randoms);
      assert msgs[..n][..n - 1] == msgs[..n - 1];
      var r := StepRow(Classify(msgs[..n - 1], rows, me, randoms), msgs[n - 1], rows, me, randoms[n - 1]);
    }
  }

  /**
   * What a pull makes of its message `i`: a duplicate of the first earlier one that was accepted under its id, else a
   * deleted row of a deleted message, else a duplicate of a local message of its id, else the message itself.
   */
  lemma RowOf(msgs: seq<ChatLog>, i: nat, rows: seq<ChatLog>, me: string, randoms: seq<Random>) returns (r: ChatLog)
    requires i < |msgs| <= |randoms| && !Tagged(msgs[i].clientMsgId)
    ensures var b := Classify(msgs, rows, me, randoms);
            r in b.Inserts() || r in b.update
    ensures var v, id := msgs[i], msgs[i].clientMsgId;
            if AcceptedBefore(msgs, i, rows, me, id) then
              exists j :: 0 <= j < i && msgs[j].clientMsgId == id && msgs[j].status != MSG_STATUS_HAS_DELETED
                          && Accepts(rows, me, msgs[j]) && !AcceptedBefore(msgs, j, rows, me, id)
                          && Duplicate(r, v, msgs[j].seqNo)
            else if v.status == MSG_STATUS_HAS_DELETED || Accepts(rows, me, v) then Plain(r, v)
            else Duplicate(r, v, FindById(rows, id).value.seqNo)
  {
    hide Classify, ClassifyOne, FindById, Duplicate, Plain, Accepts;
    var b, id := Classify(msgs[..i], rows, me, randoms), msgs[i].clientMsgId;
    ProcessedAre(msgs, i, rows, me, randoms, id);
    r := StepRow(b, msgs[i], rows, me, randoms[i]);
    OneMore(msgs, i, rows, me, randoms);
    RowsStay(msgs, i + 1, |msgs|, rows, me, randoms);
    assert msgs[..|msgs|] == msgs;
    if AcceptedBefore(msgs, i, rows, me, id) {
      var j := FirstAccepted(msgs, i, rows, me, id);
      ProcessedIsFirst(msgs, j, i, rows, me, randoms);
    }
  }

  lemma OneMore(msgs: seq<ChatLog>, i: nat, rows: seq<ChatLog>, me: string, randoms: seq<Random>)
    requires i < |msgs| <= |randoms|
    ensures Classify(msgs[..i + 1], rows, me, randoms)
            == ClassifyOne(Classify(msgs[..i], rows, me, randoms), msgs[i], rows, me, randoms[i])
  {
    assert msgs[..i + 1][..i] == msgs[..i];
  }

  lemma {:induction false} FirstAccepted(msgs: seq<ChatLog>, i: nat, rows: seq<ChatLog>, me: string, id: string)
    returns (j: nat)
    requires i <= |msgs| && AcceptedBefore(msgs, i, rows, me, id)
    ensures j < i && msgs[j].clientMsgId == id && msgs[j].status != MSG_STATUS_HAS_DELETED && Accepts(rows, me, msgs[j])
    ensures !AcceptedBefore(msgs, j, rows, me, id)
  {
    j :| 0 <= j < i && msgs[j].clientMsgId == id && msgs[j].status != MSG_STATUS_HAS_DELETED && Accepts(rows, me, msgs[j]);
    if AcceptedBefore(msgs, j, rows, me, id) { j := FirstAccepted(msgs, j, rows, me, id); }
  }

  // ---- pulling missing messages of a log keeps the table a part of the log ----

  /** Messages of the log, each once, none of them local yet. */
  ghost predicate Missing(log: ServerLog, rows: seq<ChatLog>, msgs: seq<ChatLog>) {
    && log.Valid() && log.TableOk(rows)
    && (forall m | m in msgs :: log.Has(m.seqNo) && m == log.At(m.seqNo))
    && DistinctNumbers(msgs)
    && (forall m, r | m in msgs && r in rows :: m.seqNo != r.seqNo)
  }

  /** The rows and the overwritten messages are copies of the messages pulled; no row is an update. */
  ghost predicate Copied(log: ServerLog, b: Buckets, msgs: seq<ChatLog>) {
    && b.update == []
    && |b.pulled| == |msgs|
    && (forall i | 0 <= i < |msgs| :: b.pulled[i].seqNo == msgs[i].seqNo && log.Holds(b.pulled[i]))
    && (forall r | r in b.Inserts() :: log.Holds(r) && r.seqNo in SeqNos(msgs))
    && (forall m | m in msgs && m.Live() :: m in b.Inserts())
  }

  lemma StepCopiesOne(log: ServerLog, b: Buckets, v: ChatLog, rows: seq<ChatLog>, me: string, random: Random)
    returns (row: ChatLog, form: ChatLog)
    requires log.Valid() && log.Has(v.seqNo) && v == log.At(v.seqNo)
    requires v.status != MSG_STATUS_HAS_DELETED ==> v.clientMsgId !in b.processed && FindById(rows, v.clientMsgId).None?
    ensures log.Holds(row) && log.Holds(form) && row.seqNo == form.seqNo == v.seqNo
    ensures var c := ClassifyOne(b, v, rows, me, random);
            && c.update == b.update
            && c.pulled == b.pulled + [form]
            && (forall r | r in c.Inserts() :: r in b.Inserts() || r == row)
            && (forall r | r in b.Inserts() :: r in c.Inserts())
            && (v.Live() ==> v in c.Inserts())
  {
    var c := ClassifyOne(b, v, rows, me, random);
    assert ToLocal(v) == v;
    form := c.pulled[|b.pulled|];
    if v.status == MSG_STATUS_HAS_DELETED {
      var existing := if v.clientMsgId in b.processed then Some(b.processed[v.clientMsgId]) else None;
      row := HandleException(existing, v, random);
      ExceptionEndsWithSuffix(existing, v, random);
    } else {
      row := v;
    }
  }

  lemma NotLocalYet(log: ServerLog, msgs: seq<ChatLog>, n: nat, rows: seq<ChatLog>, me: string)
    requires n < |msgs| && Missing(log, rows, msgs)
    requires msgs[n].status != MSG_STATUS_HAS_DELETED
    ensures FindById(rows, msgs[n].clientMsgId).None?
    ensures !AcceptedBefore(msgs, n, rows, me, msgs[n].clientMsgId)
    ensures !Tagged(msgs[n].clientMsgId)
  {
    var v := msgs[n];
    assert v in msgs;
    assert forall r | r in rows :: log.Holds(r) && r.seqNo != v.seqNo && r.clientMsgId != v.clientMsgId;
    assert forall j | 0 <= j < n :: msgs[j] in msgs && msgs[j].seqNo != v.seqNo && msgs[j].clientMsgId != v.clientMsgId;
  }

  lemma {:induction false} PrefixCopied(log: ServerLog, msgs: seq<ChatLog>, n: nat, rows: seq<ChatLog>, me: string,
                                        randoms: seq<Random>)
    requires n <= |msgs| <= |randoms|
    requires Missing(log, rows, msgs)
    ensures Copied(log, Classify(msgs[..n], rows, me, randoms), msgs[..n])
  {
    hide ClassifyOne, Copied, FindById, AcceptedBefore;
    if n == 0 {
      NothingCopied(log);
    } else {
      var v, b := msgs[n - 1], Classify(msgs[..n - 1], rows, me, randoms);
      PrefixCopied(log, msgs, n - 1, rows, me, randoms);
      assert msgs[..n][..n - 1] == msgs[..n - 1];
      assert v in msgs && msgs[..n] == msgs[..n - 1] + [v];
      if v.status != MSG_STATUS_HAS_DELETED {
        NotLocalYet(log, msgs, n - 1, rows, me);
        ProcessedAre(msgs, n - 1, rows, me, randoms, v.clientMsgId);
      }
      var row, form := StepCopiesOne(log, b, v, rows, me, randoms[n - 1]);
      CopiedExtends(log, b, ClassifyOne(b, v, rows, me, randoms[n - 1]), msgs[..n - 1], v, row, form);
    }
  }

  lemma NothingCopied(log: ServerLog)
    ensures Copied(log, NO_BUCKETS, [])
  {
  }

  lemma CopiedExtends(log: ServerLog, b: Buckets, c: Buckets, msgs: seq<ChatLog>, v: ChatLog, row: ChatLog, form: ChatLog)
    requires Copied(log, b, msgs)
    requires log.Holds(row) && log.Holds(form) && row.seqNo == form.seqNo == v.seqNo
    requires c.update == b.update && c.pulled == b.pulled + [form]
    requires forall r | r in c.Inserts() :: r in b.Inserts() || r == row
    requires forall r | r in b.Inserts() :: r in c.Inserts()
    requires v.Live() ==> v in c.Inserts()
    ensures Copied(log, c, msgs + [v])
  {
    assert v in msgs + [v];
    assert forall m | m in msgs :: m in msgs + [v];
  }

  lemma TableExtends(log: ServerLog, rows: seq<ChatLog>, r: ChatLog)
    requires log.TableOk(rows) && log.Holds(r) && forall x | x in rows :: x.seqNo != r.seqNo
    ensures log.TableOk(rows + [r])
  {
  }

  /** No other row of the log has the id of a live one. */
  lemma LiveIdIsUnique(log: ServerLog, live: ChatLog, other: ChatLog)
    requires log.Valid() && log.Holds(live) && log.Holds(other) && live.Live() && live.seqNo != other.seqNo
    ensures live.clientMsgId != other.clientMsgId
  {
  }

  /**
   * For a table that is part of a log: of the answer to any request, local numbers or not, the page may show exactly the live
   * messages that were not local. So a fill that asks for local messages again hides them.
   */
  lemma AskedAgainIsHidden(log: ServerLog, rows: seq<ChatLog>, me: string, seqs: seq<int>, randoms: seq<Random>, i: nat)
    requires log.Valid() && log.TableOk(rows) && Ascending(seqs) && i < |log.Answer(seqs)| <= |randoms|
    ensures |Classify(log.Answer(seqs), rows, me, randoms).pulled| == |log.Answer(seqs)|
    ensures Classify(log.Answer(seqs), rows, me, randoms).pulled[i].Live()
            <==> log.Answer(seqs)[i].Live() && log.Answer(seqs)[i].seqNo !in SeqNos(rows)
  {
    var msgs := log.Answer(seqs);
    log.AnswerMembers(seqs);
    assert forall j | 0 <= j < |msgs| :: msgs[j] in msgs;
    PulledStaysLiveIff(msgs, i, rows, me, randoms);
    if msgs[i].Live() {
      AcceptedIffNotLocal(log, rows, me, msgs[i]);
      assert !AcceptedBefore(msgs, i, rows, me, msgs[i].clientMsgId);
    }
  }

  lemma AcceptedIffNotLocal(log: ServerLog, rows: seq<ChatLog>, me: string, v: ChatLog)
    requires log.Valid() && log.TableOk(rows) && log.Has(v.seqNo) && v == log.At(v.seqNo) && v.Live()
    ensures Accepts(rows, me, v) <==> v.seqNo !in SeqNos(rows)
  {
    assert log.Holds(v);
    if v.seqNo in SeqNos(rows) {
      var r :| r in rows && r.seqNo == v.seqNo;
      assert log.Holds(r) && r.clientMsgId == v.clientMsgId;
      assert forall x | x in rows :: log.Holds(x) && x.seqNo > 0;
    } else {
      forall r | r in rows
        ensures r.clientMsgId != v.clientMsgId
      {
        LiveIdIsUnique(log, v, r);
      }
    }
  }

  lemma {:induction false} InsertRowsKeepsTable(log: ServerLog, rows: seq<ChatLog>, added: seq<ChatLog>)
    requires log.Valid() && log.TableOk(rows) && log.HoldsAll(added) && DistinctNumbers(added)
    requires forall a, r | a in added && r in rows :: a.seqNo != r.seqNo
    ensures log.TableOk(InsertRows(rows, added))
    ensures rows <= InsertRows(rows, added)
    ensures forall r | r in InsertRows(rows, added) :: r in rows || r in added
    ensures forall r | r in added && r.Live() :: r in InsertRows(rows, added)
  {
    if added != [] {
      var init, last := added[..|added| - 1], added[|added| - 1];
      assert added == init + [last] && DistinctNumbers(init);
      assert forall x | x in init :: x in added && x.seqNo != last.seqNo;
      assert last in added;
      InsertRowsKeepsTable(log, rows, init);
      var before := InsertRows(rows, init);
      assert forall x | x in before :: x.seqNo != last.seqNo;
      if last.Live() {
        forall x | x in before
          ensures x.clientMsgId != last.clientMsgId
        {
          LiveIdIsUnique(log, last, x);
        }
      }
      if FindById(before, last.clientMsgId).None? {
        TableExtends(log, before, last);
      }
    }
  }

  /** Whatever the random sources return, the write keeps the table a part of the log and the page gets copies. */
  lemma PullKeepsTable(log: ServerLog, rows: seq<ChatLog>, me: string, msgs: seq<ChatLog>, randoms: seq<Random>)
    requires |msgs| == |randoms| && Missing(log, rows, msgs)
    ensures var b := Classify(msgs, rows, me, randoms);
            var rows' := InsertRows(UpdateRows(rows, b.update), b.Inserts());
            && Copied(log, b, msgs)
            && log.TableOk(rows') && rows <= rows'
            && (forall r | r in rows' && r !in rows :: r.seqNo in SeqNos(msgs))
            && (forall m | m in msgs && m.Live() :: m in rows')
  {
    var b := Classify(msgs, rows, me, randoms);
    PrefixCopied(log, msgs, |msgs|, rows, me, randoms);
    assert msgs[..|msgs|] == msgs;
    forall o ensures Copies(b.Inserts(), o) <= 1 && Copies(b.Inserts(), o) <= Copies(msgs, o) {
      EachPulledBecomesOneRow(msgs, rows, me, randoms, o);
      CopiesOfDistinct(msgs, o);
    }
    SingleCopiesDistinct(b.Inserts(), msgs);
    InsertRowsKeepsTable(log, rows, b.Inserts());
  }
}

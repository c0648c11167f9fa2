/**
 * Folding new messages into conversation summaries: a batch is first folded into one summary per conversation, and those are
 * then merged into the stored conversations.
 */
module Folding {

  /** What a conversation, or one message for it, says about unread messages and the latest one. */
  datatype Summary = Summary(unread: int, latest: string, time: int)

  /** One message's contribution to its conversation. */
  datatype Update = Update(conversationId: string, summary: Summary)

  /** The counts add up; the latest message gives way only to a strictly later one. */
  function Fold(a: Summary, b: Summary): Summary {
    if b.time > a.time then Summary(a.unread + b.unread, b.latest, b.time)
    else Summary(a.unread + b.unread, a.latest, a.time)
  }

  lemma FoldAssociative(a: Summary, b: Summary, c: Summary)
    ensures Fold(Fold(a, b), c) == Fold(a, Fold(b, c))
  {
  }

  function Put(m: map<string, Summary>, u: Update): map<string, Summary> {
    m[u.conversationId := if u.conversationId in m then Fold(m[u.conversationId], u.summary) else u.summary]
  }

  /** The messages one by one. */
  function Folded(m: map<string, Summary>, updates: seq<Update>): map<string, Summary> {
    if updates == [] then m else Put(Folded(m, updates[..|updates| - 1]), updates[|updates| - 1])
  }

  /** Merging a folded batch into what is stored. */
  function Merged(stored: map<string, Summary>, generated: map<string, Summary>): map<string, Summary> {
    map c | c in stored.Keys + generated.Keys ::
      if c in stored && c in generated then Fold(stored[c], generated[c])
      else if c in stored then stored[c] else generated[c]
  }

  /** Folding a batch and merging the result is the same as merging its messages one by one. */
  lemma {:induction false} Fusion(stored: map<string, Summary>, updates: seq<Update>)
    ensures Merged(stored, Folded(map[], updates)) == Folded(stored, updates)
  {
    if updates == [] {
      assert Merged(stored, map[]) == stored;
    } else {
      var shorter, u := updates[..|updates| - 1], updates[|updates| - 1];
      Fusion(stored, shorter);
      MergedPut(stored, Folded(map[], shorter), u);
    }
  }

  lemma MergedPut(stored: map<string, Summary>, generated: map<string, Summary>, u: Update)
    ensures Merged(stored, Put(generated, u)) == Put(Merged(stored, generated), u)
  {
    var c := u.conversationId;
    if c in stored && c in generated {
      FoldAssociative(stored[c], generated[c], u.summary);
    }
  }

  lemma {:induction false} FoldedJoins(stored: map<string, Summary>, a: seq<Update>, b: seq<Update>)
    ensures Folded(Folded(stored, a), b) == Folded(stored, a + b)
  {
    if b == [] {
      assert a + b == a;
    } else {
      assert (a + b)[..|a + b| - 1] == a + b[..|b| - 1];
      FoldedJoins(stored, a, b[..|b| - 1]);
    }
  }

  /** However a run of messages is cut into batches, the conversations end up the same. */
  lemma BatchesDoNotMatter(stored: map<string, Summary>, a: seq<Update>, b: seq<Update>)
    ensures Merged(Merged(stored, Folded(map[], a)), Folded(map[], b)) == Merged(stored, Folded(map[], a + b))
  {
    Fusion(stored, a);
    Fusion(Folded(stored, a), b);
    FoldedJoins(stored, a, b);
    Fusion(stored, a + b);
  }

  /** The unread messages that the updates bring to a conversation. */
  function Unread(updates: seq<Update>, c: string): int {
    if updates == [] then 0
    else
      var last := updates[|updates| - 1];
      Unread(updates[..|updates| - 1], c) + if last.conversationId == c then last.summary.unread else 0
  }

  /** The unread count is the stored one and all of those; a conversation without a message stays as it is. */
  lemma {:induction false} UnreadAddsUp(stored: map<string, Summary>, updates: seq<Update>, c: string)
    ensures var after := Folded(stored, updates);
            && (c in stored ==> c in after)
            && (c in after ==> after[c].unread == (if c in stored then stored[c].unread else 0) + Unread(updates, c))
            && ((forall i | 0 <= i < |updates| :: updates[i].conversationId != c) ==>
                  (c in after <==> c in stored) && (c in stored ==> after[c] == stored[c]))
    ensures (forall i | 0 <= i < |updates| :: updates[i].conversationId != c) ==> Unread(updates, c) == 0
    ensures c !in Folded(stored, updates) ==> Unread(updates, c) == 0
  {
    if updates != [] {
      var shorter := updates[..|updates| - 1];
      UnreadAddsUp(stored, shorter, c);
      assert forall i | 0 <= i < |shorter| :: shorter[i] == updates[i];
    }
  }

  // What does not depend on the order of the messages.

  /** A message that says what the summary says: no other is later, and of those equally late it came first. */
  ghost predicate FirstLatest(updates: seq<Update>, i: nat, c: string, s: Summary) {
    && i < |updates| && updates[i].conversationId == c
    && s.latest == updates[i].summary.latest && s.time == updates[i].summary.time
    && (forall j | 0 <= j < |updates| && updates[j].conversationId == c :: updates[j].summary.time <= s.time)
    && (forall j | 0 <= j < i && updates[j].conversationId == c :: updates[j].summary.time < s.time)
  }

  lemma {:induction false} FoldedKeys(updates: seq<Update>, c: string)
    ensures c in Folded(map[], updates) <==> exists i :: 0 <= i < |updates| && updates[i].conversationId == c
  {
    if updates != [] {
      var shorter, last := updates[..|updates| - 1], updates[|updates| - 1];
      FoldedKeys(shorter, c);
      assert updates == shorter + [last];
      assert last == updates[|updates| - 1];
    }
  }

  lemma FirstLatestStays(updates: seq<Update>, u: Update, i: nat, c: string, s: Summary)
    requires FirstLatest(updates, i, c, s)
    ensures u.conversationId != c ==> FirstLatest(updates + [u], i, c, s)
    ensures u.conversationId == c ==>
              FirstLatest(updates + [u], if u.summary.time > s.time then |updates| else i, c, Fold(s, u.summary))
  {
    assert forall j | 0 <= j < |updates| :: (updates + [u])[j] == updates[j];
  }

  lemma FirstLatestBegins(updates: seq<Update>, u: Update)
    requires forall j | 0 <= j < |updates| :: updates[j].conversationId != u.conversationId
    ensures FirstLatest(updates + [u], |updates|, u.conversationId, u.summary)
  {
  }

  lemma {:induction false} LatestIsFirstOfHighest(updates: seq<Update>, c: string)
    ensures c in Folded(map[], updates) ==> exists i: nat :: FirstLatest(updates, i, c, Folded(map[], updates)[c])
  {
    if updates != [] {
      hide FirstLatest, Fold;
      var shorter, u := updates[..|updates| - 1], updates[|updates| - 1];
      assert updates == shorter + [u];
      LatestIsFirstOfHighest(shorter, c);
      FoldedKeys(shorter, c);
      if c in Folded(map[], shorter) {
        var i: nat :| FirstLatest(shorter, i, c, Folded(map[], shorter)[c]);
        FirstLatestStays(shorter, u, i, c, Folded(map[], shorter)[c]);
      } else if u.conversationId == c {
        FirstLatestBegins(shorter, u);
      }
    }
  }

  /** The summaries without the latest message. */
  datatype Tally = Tally(unread: int, time: int)

  function Tallies(m: map<string, Summary>): map<string, Tally> {
    map c | c in m :: Tally(m[c].unread, m[c].time)
  }

  function PutTally(m: map<string, Tally>, u: Update): map<string, Tally> {
    var c, s := u.conversationId, u.summary;
    m[c := if c in m then Tally(m[c].unread + s.unread, if s.time > m[c].time then s.time else m[c].time)
           else Tally(s.unread, s.time)]
  }

  lemma PutTallyCommutes(m: map<string, Tally>, u: Update, v: Update)
    ensures PutTally(PutTally(m, u), v) == PutTally(PutTally(m, v), u)
  {
  }

  lemma TallyOfPut(m: map<string, Summary>, u: Update)
    ensures Tallies(Put(m, u)) == PutTally(Tallies(m), u)
  {
  }

  lemma {:induction false} MoveToEnd(a: seq<Update>, u: Update, b: seq<Update>, m: map<string, Summary>)
    ensures Tallies(Folded(m, a + [u] + b)) == PutTally(Tallies(Folded(m, a + b)), u)
  {
    if b == [] {
      assert a + [u] + b == a + [u] && a + b == a && (a + [u])[..|a|] == a;
      TallyOfPut(Folded(m, a), u);
    } else {
      var shorter, v := b[..|b| - 1], b[|b| - 1];
      assert (a + [u] + b)[..|a + [u] + b| - 1] == a + [u] + shorter && (a + b)[..|a + b| - 1] == a + shorter;
      MoveToEnd(a, u, shorter, m);
      TallyOfPut(Folded(m, a + [u] + shorter), v);
      TallyOfPut(Folded(m, a + shorter), v);
      PutTallyCommutes(Tallies(Folded(m, a + shorter)), u, v);
    }
  }

  lemma WithoutOne(a: seq<Update>, i: nat)
    requires i < |a|
    ensures multiset(a[..i] + a[i + 1..]) == multiset(a) - multiset{a[i]}
  {
    assert a == a[..i] + [a[i]] + a[i + 1..];
  }

  /** In whatever order the same messages come, the unread counts and the latest send times are the same. */
  lemma {:induction false} OrderDoesNotMatter(a: seq<Update>, b: seq<Update>, m: map<string, Summary>)
    requires multiset(a) == multiset(b)
    ensures Tallies(Folded(m, a)) == Tallies(Folded(m, b))
    decreases |a|
  {
    if a == [] {
      assert |multiset(b)| == 0;
      assert b == [];
    } else {
      var shorter, u := a[..|a| - 1], a[|a| - 1];
      assert a == shorter + [u];
      assert u in multiset(b);
      var i :| 0 <= i < |b| && b[i] == u;
      assert b == b[..i] + [u] + b[i + 1..];
      WithoutOne(a, |a| - 1);
      WithoutOne(b, i);
      assert a[..|a| - 1] + a[|a| - 1 + 1..] == shorter;
      OrderDoesNotMatter(shorter, b[..i] + b[i + 1..], m);
      MoveToEnd(b[..i], u, b[i + 1..], m);
      TallyOfPut(Folded(m, shorter), u);
    }
  }

  /** No other message for its conversation is later. */
  ghost predicate AtTop(updates: seq<Update>, i: nat) {
    && i < |updates|
    && forall j | 0 <= j < |updates| && updates[j].conversationId == updates[i].conversationId ::
         updates[j].summary.time <= updates[i].summary.time
  }

  /** What is stored of a conversation is at least as late as the message, which then changes nothing but the count. */
  ghost predicate Covered(stored: map<string, Summary>, u: Update) {
    u.conversationId in stored && stored[u.conversationId].time >= u.summary.time
  }

  ghost predicate Tie(updates: seq<Update>, i: nat, j: nat)
    requires i < |updates| && j < |updates|
  {
    updates[i].conversationId == updates[j].conversationId && AtTop(updates, i) && AtTop(updates, j)
  }

  /** Messages of a conversation that tie for the highest send time are the same latest message, or a stored one is as late. */
  ghost predicate HarmlessTies(stored: map<string, Summary>, updates: seq<Update>) {
    forall i, j | 0 <= i < j < |updates| && Tie(updates, i, j) ::
      updates[i].summary.latest == updates[j].summary.latest || Covered(stored, updates[i])
  }

  /** Every order of the messages gives the same summaries. */
  ghost predicate AnyOrderSame(stored: map<string, Summary>, updates: seq<Update>) {
    forall other | multiset(other) == multiset(updates) :: Folded(stored, other) == Folded(stored, updates)
  }

  /** The order of the messages does not matter if and only if the ties for the highest send time are harmless. */
  lemma OrderMattersIff(stored: map<string, Summary>, updates: seq<Update>)
    ensures AnyOrderSame(stored, updates) <==> HarmlessTies(stored, updates)
  {
    if HarmlessTies(stored, updates) {
      forall other | multiset(other) == multiset(updates)
        ensures Folded(stored, other) == Folded(stored, updates)
      {
        HarmlessSame(stored, updates, other);
      }
    } else {
      var i, j :| 0 <= i < j < |updates| && Tie(updates, i, j)
                  && updates[i].summary.latest != updates[j].summary.latest && !Covered(stored, updates[i]);
      HarmfulDiffers(stored, updates, i, j);
    }
  }

  lemma HarmfulDiffers(stored: map<string, Summary>, updates: seq<Update>, i: nat, j: nat)
    requires i < |updates| && j < |updates| && Tie(updates, i, j) && !Covered(stored, updates[i])
    requires updates[i].summary.latest != updates[j].summary.latest
    ensures !AnyOrderSame(stored, updates)
  {
    hide Folded;
    FrontWins(stored, updates, i);
    FrontWins(stored, updates, j);
  }

  lemma HarmlessSame(stored: map<string, Summary>, a: seq<Update>, b: seq<Update>)
    requires multiset(a) == multiset(b) && HarmlessTies(stored, a)
    ensures Folded(stored, a) == Folded(stored, b)
  {
    OrderDoesNotMatter(a, b, map[]);
    Fusion(stored, a);
    Fusion(stored, b);
    var left, right := Folded(map[], a), Folded(map[], b);
    assert left.Keys == Tallies(left).Keys == Tallies(right).Keys == right.Keys;
    forall c | c in left
      ensures Merged(stored, left)[c] == Merged(stored, right)[c]
    {
      SameLatest(stored, a, b, c);
    }
    assert Merged(stored, left).Keys == Merged(stored, right).Keys;
  }

  lemma SameLatest(stored: map<string, Summary>, a: seq<Update>, b: seq<Update>, c: string)
    requires multiset(a) == multiset(b) && HarmlessTies(stored, a) && c in Folded(map[], a) && c in Folded(map[], b)
    requires Tallies(Folded(map[], a)) == Tallies(Folded(map[], b))
    ensures var s, t := Folded(map[], a)[c], Folded(map[], b)[c];
            s == t || (c in stored && Fold(stored[c], s) == Fold(stored[c], t))
  {
    hide Folded;
    LatestIsFirstOfHighest(a, c);
    LatestIsFirstOfHighest(b, c);
    var s, t := Folded(map[], a)[c], Folded(map[], b)[c];
    assert Tallies(Folded(map[], a))[c] == Tallies(Folded(map[], b))[c];
    var i: nat :| FirstLatest(a, i, c, s);
    var j: nat :| FirstLatest(b, j, c, t);
    assert b[j] in multiset(b);
    var k :| 0 <= k < |a| && a[k] == b[j];
    assert Tie(a, i, k) && Tie(a, k, i);
  }

  /** A message at the top that comes first is the latest one in the end, unless what is stored covers it. */
  lemma FrontWins(stored: map<string, Summary>, updates: seq<Update>, i: nat)
    requires AtTop(updates, i) && !Covered(stored, updates[i])
    ensures var other, c := [updates[i]] + (updates[..i] + updates[i + 1..]), updates[i].conversationId;
            && multiset(other) == multiset(updates)
            && c in Folded(stored, other) && Folded(stored, other)[c].latest == updates[i].summary.latest
  {
    hide Folded;
    var other, c := [updates[i]] + (updates[..i] + updates[i + 1..]), updates[i].conversationId;
    WithoutOne(updates, i);
    assert multiset(other) == multiset(updates);
    assert other[0] == updates[i];
    FoldedKeys(other, c);
    LatestIsFirstOfHighest(other, c);
    var s := Folded(map[], other)[c];
    var k: nat :| FirstLatest(other, k, c, s);
    assert other[k] in multiset(updates);
    Fusion(stored, other);
  }

  /** With a tie the first message to come is taken for the latest. */
  lemma TieDependsOnOrder()
    ensures var a, b := Update("c", Summary(1, "a", 7)), Update("c", Summary(1, "b", 7));
            && multiset([a, b]) == multiset([b, a])
            && Folded(map[], [a, b])["c"].latest == "a" && Folded(map[], [b, a])["c"].latest == "b"
  {
    var a, b := Update("c", Summary(1, "a", 7)), Update("c", Summary(1, "b", 7));
    assert [a, b][..1] == [a] && [b, a][..1] == [b] && [a][..0] == [] && [b][..0] == [];
    assert Folded(map[], [a]) == Put(map[], a) && Folded(map[], [b]) == Put(map[], b);
    assert multiset([a, b]) == multiset{a, b} == multiset([b, a]);
  }

  // The source's maps of conversation objects.

  class LocalConversation {
    const conversationId: string
    var unreadCount: int
    var latestMsg: string
    var latestMsgSendTime: int

    constructor (u: Update)
      ensures conversationId == u.conversationId && AsSummary() == u.summary
    {
      conversationId := u.conversationId;
      unreadCount, latestMsg, latestMsgSendTime := u.summary.unread, u.summary.latest, u.summary.time;
    }

    function AsSummary(): Summary
      reads this
    {
      Summary(unreadCount, latestMsg, latestMsgSendTime)
    }

    /** Takes over the unread messages of the other, and its latest message when that is later. */
    method Absorb(other: LocalConversation)
      requires other != this
      modifies this
      ensures AsSummary() == Fold(old(AsSummary()), other.AsSummary())
    {
      if other.latestMsgSendTime > latestMsgSendTime {
        unreadCount := unreadCount + other.unreadCount;
        latestMsg := other.latestMsg;
        latestMsgSendTime := other.latestMsgSendTime;
      } else {
        unreadCount := unreadCount + other.unreadCount;
      }
    }
  }

  type Conversations = map<string, LocalConversation>

  ghost predicate Keyed(cs: Conversations) {
    forall c | c in cs :: cs[c].conversationId == c
  }

  ghost function Summaries(cs: Conversations): (summaries: map<string, Summary>)
    reads cs.Values
    ensures summaries.Keys == cs.Keys
  {
    map c | c in cs :: cs[c].AsSummary()
  }

  /** A message's summary joins those of its conversation, or becomes the first one itself. */
  method UpdateConversation(lc: LocalConversation, cs: Conversations) returns (updated: Conversations)
    requires Keyed(cs) && lc !in cs.Values
    modifies cs.Values
    ensures Keyed(updated) && updated.Values <= cs.Values + {lc}
    ensures Summaries(updated) == Put(old(Summaries(cs)), Update(lc.conversationId, old(lc.AsSummary())))
  {
    if lc.conversationId !in cs {
      updated := cs[lc.conversationId := lc];
    } else {
      var oldC := cs[lc.conversationId];
      oldC.Absorb(lc);
      updated := cs[lc.conversationId := oldC];
    }
  }

  /** The summaries of a batch of messages. */
  method Generate(updates: seq<Update>) returns (generated: Conversations)
    ensures Keyed(generated) && fresh(generated.Values) && Summaries(generated) == Folded(map[], updates)
  {
    generated := map[];
    assert updates[..|updates|] == updates;
    for i := 0 to |updates|
      invariant Keyed(generated) && fresh(generated.Values) && Summaries(generated) == Folded(map[], updates[..i])
    {
      assert updates[..i + 1][..i] == updates[..i];
      var lc := new LocalConversation(updates[i]);
      generated := UpdateConversation(lc, generated);
    }
  }

  /** The stored summaries after those of some of the generated conversations have been merged into them. */
  function MergedIn(stored: map<string, Summary>, generated: map<string, Summary>, keys: set<string>): map<string,
                    Summary> {
    map c | c in stored :: if c in keys && c in generated then Fold(stored[c], generated[c]) else stored[c]
  }

  lemma MergedInMore(stored: map<string, Summary>, generated: map<string, Summary>, keys: set<string>, c: string)
    requires c !in keys && c in generated
    ensures MergedIn(stored, generated, keys + {c})
            == if c in stored then MergedIn(stored, generated, keys)[c := Fold(stored[c], generated[c])]
               else MergedIn(stored, generated, keys)
    ensures c in stored ==> MergedIn(stored, generated, keys)[c] == stored[c]
  {
  }

  lemma MergedInNone(stored: map<string, Summary>, generated: map<string, Summary>)
    ensures MergedIn(stored, generated, {}) == stored
  {
  }

  method MergeInto(local: Conversations, c: string, other: LocalConversation)
    requires Keyed(local) && c in local && other !in local.Values
    modifies local[c]
    ensures Summaries(local) == old(Summaries(local))[c := Fold(old(Summaries(local))[c], other.AsSummary())]
  {
    assert forall k | k in local && k != c :: local[k].conversationId != local[c].conversationId;
    local[c].Absorb(other);
  }

  /** The conversations seen so far, those that are stored apart from the new ones. */
  ghost predicate Parted(local: Conversations, generated: Conversations, seen: set<string>, changed: Conversations,
                         added: Conversations) {
    && changed.Keys == local.Keys * seen && (forall c | c in changed :: changed[c] == local[c])
    && added.Keys == seen - local.Keys && added.Keys <= generated.Keys && (forall c | c in added :: added[c] == generated[c])
  }

  /**
   * Merges the summaries of a batch into the stored conversations, which are changed in place. `named` tells whether names
   * and pictures for the new conversations could be found; without them the new conversations are dropped.
   */
  method Diff(local: Conversations, generated: Conversations, named: bool)
    returns (changed: Conversations, added: Conversations)
    requires Keyed(local) && Keyed(generated) && local.Values !! generated.Values
    modifies local.Values
    ensures changed.Keys == local.Keys * generated.Keys && forall c | c in changed :: changed[c] == local[c]
    ensures added.Keys == if named then generated.Keys - local.Keys else {}
    ensures forall c | c in added :: added[c] == generated[c]
    ensures Summaries(local) == MergedIn(old(Summaries(local)), old(Summaries(generated)), generated.Keys)
  {
    hide MergedIn, Parted, Fold;
    changed, added := map[], map[];
    var newConversations: Conversations := map[];
    var remaining := generated.Keys;
    MergedInNone(Summaries(local), Summaries(generated));
    PartedNone(local, generated);
    assert generated.Keys - remaining == {};
    while remaining != {}
      invariant remaining <= generated.Keys && Parted(local, generated, generated.Keys - remaining, changed, newConversations)
      invariant Summaries(local) == MergedIn(old(Summaries(local)), old(Summaries(generated)), generated.Keys - remaining)
      decreases remaining
    {
      var c :| c in remaining;
      MergedInMore(old(Summaries(local)), old(Summaries(generated)), generated.Keys - remaining, c);
      PartedMore(local, generated, generated.Keys - remaining, changed, newConversations, c);
      assert generated.Keys - remaining + {c} == generated.Keys - (remaining - {c});
      remaining := remaining - {c};
      if c in local {
        MergeInto(local, c, generated[c]);
        changed := changed[c := local[c]];
      } else {
        newConversations := newConversations[c := generated[c]];
      }
    }
    assert generated.Keys - remaining == generated.Keys;
    PartedMeans(local, generated, generated.Keys, changed, newConversations);
    if named {
      added := newConversations;
    }
  }

  lemma PartedNone(local: Conversations, generated: Conversations)
    ensures Parted(local, generated, {}, map[], map[])
  {
  }

  lemma PartedMore(local: Conversations, generated: Conversations, seen: set<string>, changed: Conversations,
                   added: Conversations, c: string)
    requires Parted(local, generated, seen, changed, added) && c in generated
    ensures c in local ==> Parted(local, generated, seen + {c}, changed[c := local[c]], added)
    ensures c !in local ==> Parted(local, generated, seen + {c}, changed, added[c := generated[c]])
  {
    assert c in local ==> changed[c := local[c]].Keys == changed.Keys + {c};
    assert added[c := generated[c]].Keys == added.Keys + {c};
  }

  lemma PartedMeans(local: Conversations, generated: Conversations, seen: set<string>, changed: Conversations,
                    added: Conversations)
    requires Parted(local, generated, seen, changed, added)
    ensures changed.Keys == local.Keys * seen && (forall c | c in changed :: changed[c] == local[c])
    ensures added.Keys == seen - local.Keys && added.Keys <= generated.Keys
    ensures forall c | c in added :: added[c] == generated[c]
  {
  }

  /** What is stored and what is added, together. */
  lemma MergedParts(local: Conversations, added: Conversations, generated: Conversations,
                    stored: map<string, Summary>, batch: map<string, Summary>)
    requires Summaries(local) == MergedIn(stored, batch, batch.Keys) && Summaries(generated) == batch
    requires added.Keys == generated.Keys - local.Keys && forall c | c in added :: added[c] == generated[c]
    requires stored.Keys == local.Keys
    ensures Summaries(local + added) == Merged(stored, batch)
  {
    assert forall c | c in added :: Summaries(generated)[c] == added[c].AsSummary();
    assert forall c | c in local :: Summaries(local)[c] == local[c].AsSummary();
  }

  ghost predicate Mentioned(updates: seq<Update>, c: string) {
    exists i :: 0 <= i < |updates| && updates[i].conversationId == c
  }

  lemma KeysOf(cs: Conversations)
    ensures Summaries(cs).Keys == cs.Keys
  {
  }

  /**
   * A batch of messages: what is stored and what is added afterwards is what merging the messages one by one gives, so any
   * two ways of cutting the same messages into batches agree.
   */
  method ReceiveBatch(local: Conversations, updates: seq<Update>) returns (changed: Conversations, added: Conversations)
    requires Keyed(local)
    modifies local.Values
    ensures Keyed(local + added) && (forall c | c in added :: fresh(added[c])) && changed.Keys <= local.Keys
    ensures local.Keys !! added.Keys
    ensures Summaries(local + added) == Folded(old(Summaries(local)), updates)
    ensures forall c :: c in changed <==> c in local && Mentioned(updates, c)
    ensures forall c :: c in added <==> c !in local && Mentioned(updates, c)
    ensures forall c | c in changed :: changed[c] == local[c]
  {
    hide Summaries, Folded, Merged, MergedIn;
    var generated := Generate(updates);
    forall c: string
      ensures c in generated <==> Mentioned(updates, c)
    {
      KeysOf(generated);
      FoldedKeys(updates, c);
    }
    assert forall c | c in generated :: generated[c] in generated.Values;
    changed, added := Diff(local, generated, true);
    MergedParts(local, added, generated, old(Summaries(local)), Folded(map[], updates));
    Fusion(old(Summaries(local)), updates);
  }
}

/** The list algorithms of the gap checks. */
module PageSteps {
  import opened Basics
  import opened ChatLogs

  const PULL_MSG_NUM_FOR_READ_DIFFUSION := 50

  /** Largest and smallest number of the page and all its numbers; unnumbered rows do not count. */
  method GetMaxAndMinHaveSeqList(messages: seq<ChatLog>) returns (max: int, min: int, seqList: seq<int>)
    requires forall m | m in messages :: m.seqNo >= 0
    ensures forall s :: s in seqList <==> s != 0 && s in SeqNos(messages)
    ensures seqList == [] ==> max == 0 && min == 0
    ensures seqList != [] ==> max in seqList && min in seqList && forall s | s in seqList :: 0 < min <= s <= max
  {
    max, min, seqList := 0, 0, [];
    for i := 0 to |messages|
      invariant forall s :: s in seqList <==> s != 0 && s in SeqNos(messages[..i])
      invariant seqList == [] ==> max == 0 && min == 0
      invariant seqList != [] ==> max in seqList && min in seqList && forall s | s in seqList :: 0 < min <= s <= max
    {
      assert messages[..i + 1] == messages[..i] + [messages[i]];
      assert SeqNos(messages[..i + 1]) == SeqNos(messages[..i]) + {messages[i].seqNo};
      var s := messages[i].seqNo;
      if s != 0 {
        seqList := seqList + [s];
      }
      if s != 0 && min == 0 && max == 0 {
        min := s;
        max := s;
      }
      if s < min && s != 0 {
        min := s;
      }
      if s > max {
        max := s;
      }
    }
    assert messages[..|messages|] == messages;
  }

  /** `lost` is the sorted set difference `lo .. hi` minus `have`, trimmed to the fifty numbers next to the start. */
  ghost predicate LostOf(lost: seq<int>, lo: int, hi: int, have: seq<int>, isReverse: bool) {
    && Ascending(lost) && |lost| <= PULL_MSG_NUM_FOR_READ_DIFFUSION
    && (forall s | s in lost :: lo <= s <= hi && s !in have)
    && (forall s | lo <= s <= hi && s !in have && s !in lost ::
          && |lost| == PULL_MSG_NUM_FOR_READ_DIFFUSION
          && if isReverse then lost[|lost| - 1] < s else s < lost[0])
  }

  method GetLostSeqListWithLimitLength(minSeq: int, maxSeq: int, haveSeqList: seq<int>, isReverse: bool)
    returns (lost: seq<int>)
    ensures LostOf(lost, minSeq, maxSeq, haveSeqList, isReverse)
  {
    lost := [];
    var i := minSeq;
    while i <= maxSeq
      invariant minSeq <= maxSeq ==> minSeq <= i <= maxSeq + 1
      invariant Ascending(lost)
      invariant forall k | 0 <= k < |lost| :: lost[k] < i
      invariant forall s :: s in lost <==> minSeq <= s < i && s <= maxSeq && s !in haveSeqList
    {
      if i !in haveSeqList {
        lost := lost + [i];
      }
      i := i + 1;
    }
    if |lost| > PULL_MSG_NUM_FOR_READ_DIFFUSION {
      if isReverse {
        FirstFiftyAreLost(lost, minSeq, maxSeq, haveSeqList);
        lost := lost[..PULL_MSG_NUM_FOR_READ_DIFFUSION];
      } else {
        LastFiftyAreLost(lost, minSeq, maxSeq, haveSeqList);
        lost := lost[|lost| - PULL_MSG_NUM_FOR_READ_DIFFUSION..];
      }
    }
  }

  lemma FirstFiftyAreLost(all: seq<int>, lo: int, hi: int, have: seq<int>)
    requires Ascending(all) && |all| > PULL_MSG_NUM_FOR_READ_DIFFUSION
    requires forall s :: s in all <==> lo <= s <= hi && s !in have
    ensures LostOf(all[..PULL_MSG_NUM_FOR_READ_DIFFUSION], lo, hi, have, true)
  {
    var first, rest := all[..PULL_MSG_NUM_FOR_READ_DIFFUSION], all[PULL_MSG_NUM_FOR_READ_DIFFUSION..];
    assert all == first + rest;
    assert forall s | s in first :: s in all;
    assert forall s | s in rest :: first[|first| - 1] < s;
  }

  lemma LastFiftyAreLost(all: seq<int>, lo: int, hi: int, have: seq<int>)
    requires Ascending(all) && |all| > PULL_MSG_NUM_FOR_READ_DIFFUSION
    requires forall s :: s in all <==> lo <= s <= hi && s !in have
    ensures LostOf(all[|all| - PULL_MSG_NUM_FOR_READ_DIFFUSION..], lo, hi, have, false)
  {
    var d := |all| - PULL_MSG_NUM_FOR_READ_DIFFUSION;
    var front, last := all[..d], all[d..];
    assert all == front + last;
    assert forall s | s in last :: s in all;
    assert forall s | s in front :: s < last[0];
  }

  /** The element the merge takes first. */
  predicate First(a: ChatLog, b: ChatLog, isDescending: bool) {
    if isDescending then Newer(a, b)
    else a.sendTime < b.sendTime || (a.sendTime == b.sendTime && a.seqNo < b.seqNo)
  }

  function Merged(a: seq<ChatLog>, b: seq<ChatLog>, isDescending: bool): seq<ChatLog> {
    if a == [] then b
    else if b == [] then a
    else if First(a[0], b[0], isDescending) then [a[0]] + Merged(a[1..], b, isDescending)
    else [b[0]] + Merged(a, b[1..], isDescending)
  }

  method MergeSortedArrays(arr1: seq<ChatLog>, arr2: seq<ChatLog>, n: nat, isDescending: bool)
    returns (result: seq<ChatLog>)
    ensures result == Take(Merged(arr1, arr2, isDescending), n)
  {
    hide Merged;
    hide First;
    hide Take;
    result := [];
    var i, j := 0, 0;
    assert arr1[i..] == arr1 && arr2[j..] == arr2;
    while i < |arr1| && j < |arr2| && |result| < n
      invariant i <= |arr1| && j <= |arr2| && |result| <= n
      invariant result + Merged(arr1[i..], arr2[j..], isDescending) == Merged(arr1, arr2, isDescending)
    {
      MergedStep(result, arr1, i, arr2, j, isDescending);
      if First(arr1[i], arr2[j], isDescending) {
        result := result + [arr1[i]];
        i := i + 1;
      } else {
        result := result + [arr2[j]];
        j := j + 1;
      }
    }
    while i < |arr1| && |result| < n
      invariant i <= |arr1| && |result| <= n
      invariant |result| < n ==> i == |arr1| || j == |arr2|
      invariant result + Merged(arr1[i..], arr2[j..], isDescending) == Merged(arr1, arr2, isDescending)
    {
      MergedStep(result, arr1, i, arr2, j, isDescending);
      result := result + [arr1[i]];
      i := i + 1;
    }
    while j < |arr2| && |result| < n
      invariant j <= |arr2| && |result| <= n
      invariant |result| < n ==> i == |arr1|
      invariant result + Merged(arr1[i..], arr2[j..], isDescending) == Merged(arr1, arr2, isDescending)
    {
      MergedStep(result, arr1, i, arr2, j, isDescending);
      result := result + [arr2[j]];
      j := j + 1;
    }
    MergedNothing(isDescending);
    assert |result| < n ==> arr1[i..] == [] && arr2[j..] == [];
    TakeOfWhole(result, Merged(arr1[i..], arr2[j..], isDescending), n);
  }

  lemma MergedNothing(isDescending: bool)
    ensures Merged([], [], isDescending) == []
  {
  }

  lemma MergedStep(result: seq<ChatLog>, a: seq<ChatLog>, i: nat, b: seq<ChatLog>, j: nat, isDescending: bool)
    requires i <= |a| && j <= |b| && (i < |a| || j < |b|)
    ensures var takesA := j == |b| || (i < |a| && First(a[i], b[j], isDescending));
            result + Merged(a[i..], b[j..], isDescending)
            == if takesA then result + [a[i]] + Merged(a[i + 1..], b[j..], isDescending)
               else result + [b[j]] + Merged(a[i..], b[j + 1..], isDescending)
  {
    if j == |b| || (i < |a| && First(a[i], b[j], isDescending)) {
      assert a[i..][1..] == a[i + 1..];
      assert Merged(a[i..], b[j..], isDescending) == [a[i]] + Merged(a[i + 1..], b[j..], isDescending);
    } else {
      assert b[j..][1..] == b[j + 1..];
      assert Merged(a[i..], b[j..], isDescending) == [b[j]] + Merged(a[i..], b[j + 1..], isDescending);
    }
  }

  lemma TakeOfWhole(front: seq<ChatLog>, rest: seq<ChatLog>, n: nat)
    requires |front| <= n && (|front| == n || rest == [])
    ensures Take(front + rest, n) == front
  {
    assert (front + rest)[..|front|] == front;
  }

  /** No later element should have come first. */
  ghost predicate Sorted(list: seq<ChatLog>, isDescending: bool) {
    forall i, j | 0 <= i < j < |list| :: !First(list[j], list[i], isDescending)
  }

  /** Descending lists run from the latest message down, others from the earliest up; numbers decide at equal times. */
  lemma SortedMeans(list: seq<ChatLog>, isDescending: bool)
    ensures Sorted(list, isDescending)
            <==> forall i, j | 0 <= i < j < |list| ::
                   var first, second := if isDescending then list[j] else list[i], if isDescending then list[i] else list[j];
                   first.sendTime < second.sendTime || (first.sendTime == second.sendTime && first.seqNo <= second.seqNo)
  {
  }

  lemma {:induction false} MergedMembers(a: seq<ChatLog>, b: seq<ChatLog>, isDescending: bool)
    ensures |Merged(a, b, isDescending)| == |a| + |b|
    ensures forall r :: r in Merged(a, b, isDescending) <==> r in a || r in b
    ensures multiset(Merged(a, b, isDescending)) == multiset(a) + multiset(b)
  {
    if a != [] && b != [] {
      if First(a[0], b[0], isDescending) {
        MergedMembers(a[1..], b, isDescending);
        assert a == [a[0]] + a[1..];
      } else {
        MergedMembers(a, b[1..], isDescending);
        assert b == [b[0]] + b[1..];
      }
    }
  }

  lemma {:induction false} MergedSorted(a: seq<ChatLog>, b: seq<ChatLog>, isDescending: bool)
    requires Sorted(a, isDescending) && Sorted(b, isDescending)
    ensures Sorted(Merged(a, b, isDescending), isDescending)
  {
    if a != [] && b != [] {
      SortedHead(a, isDescending);
      SortedHead(b, isDescending);
      if First(a[0], b[0], isDescending) {
        MergedSorted(a[1..], b, isDescending);
        MergedMembers(a[1..], b, isDescending);
        SortedCons(a[0], Merged(a[1..], b, isDescending), isDescending);
      } else {
        MergedSorted(a, b[1..], isDescending);
        MergedMembers(a, b[1..], isDescending);
        SortedCons(b[0], Merged(a, b[1..], isDescending), isDescending);
      }
    }
  }

  lemma SortedHead(list: seq<ChatLog>, isDescending: bool)
    requires list != [] && Sorted(list, isDescending)
    ensures Sorted(list[1..], isDescending)
    ensures forall r | r in list :: !First(r, list[0], isDescending)
  {
  }

  lemma SortedCons(r: ChatLog, rest: seq<ChatLog>, isDescending: bool)
    requires Sorted(rest, isDescending) && forall x | x in rest :: !First(x, r, isDescending)
    ensures Sorted([r] + rest, isDescending)
  {
  }

  /** errHandle: the rows in front of the break stay, the rest is dropped. */
  method ErrHandle(seqList: seq<int>, list: seq<ChatLog>) returns (kept: seq<ChatLog>)
    requires seqList != []
    ensures |kept| <= |list| && kept == list[..|kept|]
    ensures forall i | 0 <= i < |kept| :: list[i].seqNo == 0 || list[i].seqNo > seqList[|seqList| - 1]
    ensures |kept| < |list| ==> 0 != list[|kept|].seqNo <= seqList[|seqList| - 1]
  {
    kept := [];
    var needPullMaxSeq := seqList[|seqList| - 1];
    for i := 0 to |list|
      invariant kept == list[..i]
      invariant forall k | 0 <= k < i :: list[k].seqNo == 0 || list[k].seqNo > needPullMaxSeq
    {
      if list[i].seqNo == 0 || list[i].seqNo > needPullMaxSeq {
        kept := kept + [list[i]];
      } else {
        break;
      }
    }
  }

  /** reverse, in place. */
  method Reverse(arr: array<ChatLog>)
    modifies arr
    ensures forall k | 0 <= k < arr.Length :: arr[k] == old(arr[arr.Length - 1 - k])
  {
    var i, j := 0, arr.Length - 1;
    while i < j
      invariant 0 <= i <= j + 1 && j == arr.Length - 1 - i
      invariant forall k | 0 <= k < i || j < k < arr.Length :: arr[k] == old(arr[arr.Length - 1 - k])
      invariant forall k | i <= k <= j :: arr[k] == old(arr[k])
    {
      arr[i], arr[j] := arr[j], arr[i];
      i, j := i + 1, j - 1;
    }
  }
}

/**
 * The table of online states that users have been asked for. Callers wait on status objects that are shared between them,
 * so what matters is that no object somebody waits on drops out of the table without being finished.
 */
module Subscriptions {
  import opened Basics

  /** The state of one user: `done` is the closed channel that wakes the waiting callers. */
  class Status {
    var done: bool
    var err: Option<string>
    var online: seq<int>
    /** The user that the object was made for. */
    ghost const owner: string

    constructor (owner: string, online: seq<int>)
      ensures !done && err == None && this.online == online && this.owner == owner
    {
      done, err, this.online, this.owner := false, None, online, owner;
    }

    /** Sets the result, for a second time too, and wakes the callers. */
    method Finish(online: seq<int>, err: Option<string>)
      modifies this
      ensures done && this.online == online && this.err == err
    {
      this.online, this.err := online, err;
      if !done {
        done := true;
      }
    }
  }

  datatype Wait = Wait(status: Status, first: bool)

  /** A pushed state of one user. */
  datatype Change = Change(userId: string, online: seq<int>)

  /** The last state pushed for a user. */
  function Latest(changes: seq<Change>, userId: string): seq<int> {
    if changes == [] then []
    else if changes[|changes| - 1].userId == userId then changes[|changes| - 1].online
    else Latest(changes[..|changes| - 1], userId)
  }

  class Subscription {
    var load: map<string, Status>
    var unsub: set<string>
    var sub: set<string>

    /** Every status object ever handed out or stored. */
    ghost var issued: set<Status>

    /** What an object out of the table, and one in it, must be like. */
    ghost predicate Valid()
      reads this, issued
    {
      && load.Keys !! unsub && sub !! unsub
      && (forall u | u in load :: load[u] in issued && load[u].owner == u && (load[u].done ==> load[u].err == None))
      && (forall s | s in issued && !s.done :: s.owner in load && load[s.owner] == s)
    }

    constructor ()
      ensures Valid() && load == map[] && unsub == {} && sub == {} && issued == {}
    {
      load, unsub, sub, issued := map[], {}, {}, {};
    }

    /** One user of a query: the known state, or the object to wait on, a new one for a user asked for the first time. */
    method AskOne(userId: string) returns (known: Option<seq<int>>, wait: Option<Wait>)
      requires Valid()
      modifies this`load, this`unsub, this`issued
      ensures Valid() && fresh(issued - old(issued)) && old(issued) <= issued
      ensures userId in load && load == old(load)[userId := load[userId]] && unsub == old(unsub) - {userId}
      ensures userId in old(load) ==> load == old(load)
      ensures known == if userId in old(load) && load[userId].done then Some(load[userId].online) else None
      ensures wait == if load[userId].done then None else Some(Wait(load[userId], userId !in old(load)))
      ensures load[userId].done ==> userId in old(load) && load[userId].err == None
      ensures userId !in old(load) ==> fresh(load[userId])
    {
      unsub := unsub - {userId};
      if userId in load {
        if load[userId].done {
          return Some(load[userId].online), None;
        }
        return None, Some(Wait(load[userId], false));
      }
      AddOne(userId, []);
      return None, Some(Wait(load[userId], true));
    }

    method ClearUnsub()
      requires Valid()
      modifies this`unsub
      ensures Valid() && unsub == {}
    {
      unsub := {};
    }

    /**
     * The known states, and the objects to wait on for the others. Users asked for the first time get a new object and are
     * to be subscribed; with them go the users to be unsubscribed.
     */
    method GetUserOnline(userIds: seq<string>)
      returns (exist: map<string, seq<int>>, wait: map<string, Wait>, subUserIds: seq<string>, unsubUserIds: set<string>)
      requires Valid()
      modifies this`load, this`unsub, this`issued
      ensures Valid() && fresh(issued - old(issued)) && old(issued) <= issued
      ensures var asked := if userIds == [] then sub else Elements(userIds);
              && exist.Keys !! wait.Keys && exist.Keys + wait.Keys == asked
              && load.Keys == old(load).Keys + asked && (forall u | u in old(load) :: load[u] == old(load)[u])
              && Distinct(subUserIds) && Elements(subUserIds) == asked - old(load).Keys
              && (if subUserIds == [] then unsub == old(unsub) - asked && unsubUserIds == {}
                  else unsub == {} && unsubUserIds == old(unsub) - asked)
      ensures forall u | u in exist :: u in old(load) && load[u].done && load[u].err == None && exist[u] == load[u].online
      ensures forall u | u in wait :: !load[u].done && wait[u] == Wait(load[u], u !in old(load))
      ensures forall u | u in wait && wait[u].first :: fresh(wait[u].status)
    {
      hide Valid, Distinct, Elements, Parted;
      exist, wait, subUserIds, unsubUserIds := map[], map[], [], {};
      PartedNone(load, unsub);
      var seen: set<string> := {};
      var ids := userIds;
      if |userIds| == 0 {
        ids := Keys(sub);
      }
      ElementsGrow(ids, "");
      for i := 0 to |ids|
        invariant seen == Elements(ids[..i])
        invariant Valid() && fresh(issued - old(issued)) && old(issued) <= issued
        invariant Parted(exist, wait, subUserIds, seen, old(load), load, old(unsub), unsub)
        invariant forall u | u in exist :: u in load && load[u].done && load[u].err == None && exist[u] == load[u].online
        invariant forall u | u in wait :: u in load && !load[u].done && wait[u].status == load[u]
        invariant forall u | u in wait && wait[u].first :: fresh(wait[u].status)
      {
        var userId := ids[i];
        ElementsGrow(ids[..i], userId);
        assert ids[..i + 1] == ids[..i] + [userId];
        if userId in seen {
          continue;
        }
        ghost var before, unsubscribed := load, unsub;
        var known, toWait := AskOne(userId);
        PartedMore(exist, wait, subUserIds, seen, old(load), before, load, old(unsub), unsubscribed, unsub, userId,
                   known, toWait);
        seen := seen + {userId};
        if known.Some? {
          exist := exist[userId := known.value];
        } else {
          wait := wait[userId := toWait.value];
          if toWait.value.first {
            subUserIds := subUserIds + [userId];
          }
        }
      }
      PartedMeans(exist, wait, subUserIds, seen, old(load), load, old(unsub), unsub);
      if |subUserIds| > 0 {
        unsubUserIds := unsub;
        ClearUnsub();
      }
    }

    /** One pushed state: it finishes the object of its user, or marks a user nobody asks for to be unsubscribed. */
    method ApplyChange(v: Change) returns (changed: bool)
      requires Valid()
      modifies this`load, this`unsub, this`issued, if v.userId in load then {load[v.userId]} else {}
      ensures Valid() && fresh(issued - old(issued)) && old(issued) <= issued
      ensures forall u | u in old(load) :: u in load && load[u] == old(load)[u]
      ensures forall u | u in load && u !in old(load) :: fresh(load[u])
      ensures load.Keys == if v.userId in sub then old(load).Keys + {v.userId} else old(load).Keys
      ensures States() == PushOne(old(States()), sub, v) && changed == Changes(old(States()), sub, v)
      ensures unsub == if v.userId in load then old(unsub) else old(unsub) + {v.userId}
    {
      hide Valid, States;
      ValidSets();
      if v.userId in load {
        ForgetUnsub(v.userId);
        changed := load[v.userId].online != v.online;
        StatesAt(v.userId);
        FinishOne(v.userId, v.online);
      } else if v.userId in sub {
        AddOne(v.userId, v.online);
        changed := true;
      } else {
        NoteUnsub(v.userId);
        changed := false;
      }
    }

    lemma StatesAt(userId: string)
      requires userId in load
      ensures userId in States() && States()[userId] == State(load[userId].done, load[userId].err, load[userId].online)
    {
    }

    method FinishOne(userId: string, online: seq<int>)
      requires Valid() && userId in load
      modifies load[userId]
      ensures Valid() && States() == old(States())[userId := State(true, None, online)]
    {
      assert forall u | u in load && u != userId :: load[u].owner != load[userId].owner;
      load[userId].Finish(online, None);
    }

    method AddOne(userId: string, online: seq<int>)
      requires Valid() && userId !in load && userId !in unsub
      modifies this`load, this`issued
      ensures Valid() && userId in load && load == old(load)[userId := load[userId]] && fresh(load[userId])
      ensures issued == old(issued) + {load[userId]} && !load[userId].done
      ensures States() == old(States())[userId := State(false, None, online)]
    {
      var status := new Status(userId, online);
      issued := issued + {status};
      load := load[userId := status];
    }

    method ForgetUnsub(userId: string)
      requires Valid()
      modifies this`unsub
      ensures Valid() && unsub == old(unsub) - {userId}
    {
      unsub := unsub - {userId};
    }

    method NoteUnsub(userId: string)
      requires Valid() && userId !in load && userId !in sub
      modifies this`unsub
      ensures Valid() && unsub == old(unsub) + {userId}
    {
      unsub := unsub + {userId};
    }

    /** Takes the object of a user out of the table, after finishing it with an error. */
    method Drop(userId: string, err: string)
      requires Valid() && userId in load
      modifies this`load, load[userId]
      ensures Valid() && load == old(load) - {userId}
      ensures old(load)[userId].done && old(load)[userId].err == Some(err) && old(load)[userId].online == []
    {
      var status := load[userId];
      status.Finish([], Some(err));
      load := load - {userId};
    }

    /** The connection is gone: everyone waiting is woken with the error. */
    method OnConnClosed(err: Option<string>)
      requires Valid()
      modifies this`load, this`unsub, load.Values
      ensures Valid() && load == map[] && unsub == {}
      ensures forall s | s in issued :: s.done
      ensures forall u | u in old(load) ::
                && old(load)[u].err == Some(if err.None? then "connection closed" else err.value)
                && old(load)[u].online == []
    {
      var reason := if err.None? then "connection closed" else err.value;
      unsub := {};
      var remaining := load.Keys;
      while remaining != {}
        invariant Valid() && unsub == {} && remaining <= old(load).Keys
        invariant load.Keys == remaining && forall u | u in load :: load[u] == old(load)[u]
        invariant forall u | u in old(load) && u !in remaining ::
                    old(load)[u].done && old(load)[u].err == Some(reason) && old(load)[u].online == []
        decreases remaining
      {
        var u :| u in remaining;
        Drop(u, reason);
        remaining := remaining - {u};
      }
      assert load.Keys == {};
    }

    method OnConnSuccess()
      requires Valid()
      modifies this`unsub
      ensures Valid() && unsub == {}
    {
      unsub := {};
    }

    method UnsubscribeOne(userId: string)
      requires Valid()
      modifies this`load, this`unsub, this`sub, if userId in load then {load[userId]} else {}
      ensures Valid() && load == old(load) - {userId} && sub == old(sub) - {userId}
      ensures unsub == if userId in old(sub) then old(unsub) + {userId} else old(unsub)
      ensures userId in old(load) ==>
                old(load)[userId].done && old(load)[userId].err == Some("unsubscribe") && old(load)[userId].online == []
    {
      if userId in sub {
        sub := sub - {userId};
        unsub := unsub + {userId};
      }
      if userId in load {
        load[userId].Finish([], Some("unsubscribe"));
        load := load - {userId};
      }
    }

    /** The users are neither asked for nor waited on any longer; callers that wait get an error. */
    method Unsubscribe(userIds: seq<string>)
      requires Valid()
      modifies this`load, this`unsub, this`sub, load.Values
      ensures Valid()
      ensures load == old(load) - Elements(userIds) && sub == old(sub) - Elements(userIds)
      ensures unsub == old(unsub) + old(sub) * Elements(userIds)
      ensures forall u | u in old(load) && u in Elements(userIds) ::
                old(load)[u].done && old(load)[u].err == Some("unsubscribe") && old(load)[u].online == []
      ensures forall u | u in load :: unchanged(load[u])
    {
      hide Elements;
      ghost var gone: set<string> := {};
      ElementsGrow(userIds, "");
      for i := 0 to |userIds|
        invariant Valid() && gone == Elements(userIds[..i])
        invariant load == old(load) - gone && sub == old(sub) - gone
        invariant unsub == old(unsub) + old(sub) * gone
        invariant forall u | u in old(load) && u in gone ::
                    old(load)[u].done && old(load)[u].err == Some("unsubscribe") && old(load)[u].online == []
        invariant forall u | u in load :: unchanged(load[u])
      {
        ElementsGrow(userIds[..i], userIds[i]);
        assert userIds[..i + 1] == userIds[..i] + [userIds[i]];
        ShrinkOnce(old(load), old(sub), old(unsub), gone, userIds[i]);
        UnsubscribeOne(userIds[i]);
        gone := gone + {userIds[i]};
      }
    }

    /** One of the requests that could not be sent; only the caller that asked first fails it, and for good. */
    method FailOne(userId: string, wait: Wait, err: string)
      requires Valid() && wait.status in issued && wait.status.owner == userId
      modifies this`load, if wait.first then {wait.status} else {}
      ensures Valid()
      ensures load == if wait.first && userId in old(load) && old(load)[userId] == wait.status then old(load) - {userId}
                      else old(load)
      ensures wait.first ==> wait.status.done && wait.status.err == Some(err) && wait.status.online == []
    {
      if !wait.first {
        return;
      }
      if userId in load && load[userId] == wait.status {
        load := load - {userId};
      }
      wait.status.Finish([], Some(err));
    }

    /** The users whose entry in the table is the object that a failed request made. */
    ghost function Failed(waits: map<string, Wait>): set<string>
      reads this`load
    {
      set u | u in waits && waits[u].first && u in load && load[u] == waits[u].status
    }

    /** A request could not be sent: everyone waiting for a user that it asked for first is woken with the error. */
    method WriteFailed(waits: map<string, Wait>, err: string)
      requires Valid() && forall u | u in waits :: waits[u].status in issued && waits[u].status.owner == u
      modifies this`load, set u | u in waits && waits[u].first :: waits[u].status
      ensures Valid() && load == old(load) - old(Failed(waits))
      ensures forall u | u in waits && waits[u].first ::
                waits[u].status.done && waits[u].status.err == Some(err) && waits[u].status.online == []
    {
      hide Valid;
      ghost var failed := Failed(waits);
      var remaining := waits.Keys;
      while remaining != {}
        invariant Valid() && remaining <= waits.Keys && load == old(load) - (failed - remaining)
        invariant forall u | u in waits && waits[u].first && u !in remaining ::
                    waits[u].status.done && waits[u].status.err == Some(err) && waits[u].status.online == []
        decreases remaining
      {
        var u :| u in remaining;
        ShrinkOnce(old(load), {}, {}, failed - remaining, u);
        assert u in failed ==> failed - (remaining - {u}) == failed - remaining + {u};
        assert u !in failed ==> failed - (remaining - {u}) == failed - remaining;
        FailOne(u, waits[u], err);
        remaining := remaining - {u};
      }
    }

    /** What the objects in the table say. */
    ghost function States(): map<string, State>
      reads this`load, load.Values
    {
      map u | u in load :: State(load[u].done, load[u].err, load[u].online)
    }

    lemma ValidSets()
      requires Valid()
      ensures load.Keys !! unsub && sub !! unsub && load.Keys == States().Keys
    {
    }

    /**
     * Pushed states, one after the other, on the same objects. The result tells, for the users whose state has changed on
     * the way, the state they have now.
     */
    method SetUserState(changes: seq<Change>) returns (change: map<string, seq<int>>)
      requires Valid()
      modifies this`load, this`unsub, this`issued, load.Values
      ensures Valid() && fresh(issued - old(issued)) && old(issued) <= issued
      ensures load.Keys == old(load).Keys + (Users(changes) * sub) && unsub == old(unsub) + (Users(changes) - load.Keys)
      ensures forall u | u in old(load) :: load[u] == old(load)[u]
      ensures forall u | u in load && u !in old(load) :: fresh(load[u])
      ensures States() == Pushed(old(States()), sub, changes)
      ensures Reports(change, old(States()), States(), Users(changes))
      ensures OnlyChanged(change.Keys, old(States()), sub, changes)
    {
      hide Pushed, Users, Valid, Reports, States, Placed, PushOne, Changes, OnlyChanged;
      change := map[];
      ghost var seen: set<string> := {};
      ValidSets();
      NoChanges(load.Keys, sub, unsub, States());
      NoneChanged(States(), sub);
      assert change.Keys == {};
      assert changes[..0] == [] && changes[..|changes|] == changes;
      for i := 0 to |changes|
        invariant Valid() && fresh(issued - old(issued)) && old(issued) <= issued && seen == Users(changes[..i])
        invariant Placed(old(load).Keys, load.Keys, sub, old(unsub), unsub, seen)
        invariant forall u | u in old(load) :: u in load && load[u] == old(load)[u]
        invariant forall u | u in load && u !in old(load) :: fresh(load[u])
        invariant States() == Pushed(old(States()), sub, changes[..i])
        invariant Reports(change, old(States()), States(), seen)
        invariant OnlyChanged(change.Keys, old(States()), sub, changes[..i])
      {
        var v := changes[i];
        ValidSets();
        ChangesGrow(changes, i, old(States()), sub);
        PlacedMore(old(load).Keys, load.Keys, sub, old(unsub), unsub, seen, v.userId);
        ReportsMore(change, old(States()), States(), sub, seen, v);
        OnlyChangedMore(change.Keys, old(States()), sub, changes, i);
        var changed := ApplyChange(v);
        seen := seen + {v.userId};
        if changed {
          assert change[v.userId := v.online].Keys == change.Keys + {v.userId};
          change := change[v.userId := v.online];
        }
      }
      PlacedMeans(old(load).Keys, load.Keys, sub, old(unsub), unsub, seen);
    }

    /** Whoever waits on one of these objects waits on the entry of the table or has been woken. */
    ghost predicate Attended(waits: map<string, Wait>)
      reads this`issued
    {
      forall u | u in waits :: waits[u].status in issued && waits[u].status.owner == u
    }

    ghost predicate Listed(s: Status)
      reads this`load
    {
      s.owner in load && load[s.owner] == s
    }

    /** What an object says now, and whether it is the entry of its user. */
    ghost function Now(s: Status): Standing
      reads this`load, s
    {
      Standing(Listed(s), State(s.done, s.err, s.online))
    }

    method Ask(userIds: seq<string>) returns (wait: map<string, Wait>)
      requires Valid()
      modifies this`load, this`unsub, this`issued
      ensures Valid() && fresh(issued - old(issued)) && old(issued) <= issued && Attended(wait)
      ensures forall u | u in wait && wait[u].first :: fresh(wait[u].status)
      ensures forall s | s in old(issued) :: Now(s) == old(Now(s))
    {
      var _, waits, _, _ := GetUserOnline(userIds);
      wait := waits;
    }

    method Tell(changes: seq<Change>)
      requires Valid()
      modifies this`load, this`unsub, this`issued, load.Values
      ensures Valid() && fresh(issued - old(issued)) && old(issued) <= issued
      ensures forall s | s in old(issued) ::
                Now(s) == if old(Listed(s)) && s.owner in Users(changes)
                          then Standing(true, State(true, None, Latest(changes, s.owner))) else old(Now(s))
    {
      hide Users, Latest, Pushed, Reports;
      PushedMeans(States(), sub, changes);
      var _ := SetUserState(changes);
      forall s | s in old(issued)
        ensures Now(s) == if old(Listed(s)) && s.owner in Users(changes)
                          then Standing(true, State(true, None, Latest(changes, s.owner))) else old(Now(s))
      {
        if old(Listed(s)) {
          assert States()[s.owner] == State(s.done, s.err, s.online);
          assert old(States())[s.owner] == old(State(s.done, s.err, s.online));
        } else {
          assert forall u | u in old(load) :: old(load)[u].owner == u;
        }
      }
    }

    method Leave(userIds: seq<string>)
      requires Valid()
      modifies this`load, this`unsub, this`sub, load.Values
      ensures Valid()
      ensures forall s | s in old(issued) ::
                Now(s) == if old(Listed(s)) && s.owner in Elements(userIds)
                          then Standing(false, State(true, Some("unsubscribe"), [])) else old(Now(s))
    {
      hide Elements;
      assert forall u | u in load :: load[u].owner == u;
      Unsubscribe(userIds);
    }

    method Lose(err: Option<string>)
      requires Valid()
      modifies this`load, this`unsub, load.Values
      ensures Valid() && unsub == {} && forall s | s in issued :: s.done
      ensures forall s | s in issued ::
                Now(s) == if old(Listed(s)) then Standing(false, State(true, Some(Reason(err)), [])) else old(Now(s))
    {
      assert forall u | u in load :: load[u].owner == u;
      OnConnClosed(err);
    }

    method FailToSend(waits: map<string, Wait>, reason: string)
      requires Valid() && Attended(waits)
      modifies this`load, set u | u in waits && waits[u].first :: waits[u].status
      ensures Valid()
      ensures forall s | s in issued ::
                Now(s) == if s.owner in waits && waits[s.owner] == Wait(s, true)
                          then Standing(false, State(true, Some(reason), [])) else old(Now(s))
    {
      WriteFailed(waits, reason);
    }

    /** One operation, `queries` being the waits that the queries so far have returned. */
    method Perform(op: Operation, queries: seq<map<string, Wait>>) returns (longer: seq<map<string, Wait>>)
      requires Valid() && forall k | 0 <= k < |queries| :: Attended(queries[k])
      modifies this, issued
      ensures Valid() && fresh(issued - old(issued)) && old(issued) <= issued
      ensures queries <= longer && |longer| == |queries| + (if op.Query? then 1 else 0)
      ensures forall k | 0 <= k < |longer| :: Attended(longer[k])
      ensures forall k, u | |queries| <= k < |longer| && u in longer[k] && longer[k][u].first :: fresh(longer[k][u].status)
      ensures forall s | s in old(issued) :: Now(s) == After(op, s.owner, Made(queries, s), old(Now(s)))
      ensures op.Lost? ==> forall s | s in issued :: s.done
      ensures op.Lost? || op.Connected? ==> unsub == {}
    {
      hide Valid, Now, Users, Elements, Latest;
      longer := queries;
      ValidIssued();
      match op
      case Query(userIds) =>
        var wait := Ask(userIds);
        longer := queries + [wait];
      case Told(changes) =>
        Tell(changes);
      case Left(userIds) =>
        Leave(userIds);
      case Lost(err) =>
        Lose(err);
      case Connected =>
        OnConnSuccess();
      case Unsent(k, reason) =>
        if k < |queries| {
          FailToSend(queries[k], reason);
        }
    }

    lemma ValidIssued()
      requires Valid()
      ensures load.Values <= issued
      ensures forall s | s in issued :: Now(s).listed == Listed(s)
    {
    }

    /**
     * Any run of operations, a failed request being one of the queries made before or on the way: whoever waits is on the
     * entry of the table for that user or has been woken, and losing the connection wakes all. Every object that there was
     * before says in the end what `Fate` tells from the operations.
     */
    method Run(ops: seq<Operation>, earlier: seq<map<string, Wait>>) returns (queries: seq<map<string, Wait>>)
      requires Valid() && forall k | 0 <= k < |earlier| :: Attended(earlier[k])
      modifies this, issued
      ensures Valid() && fresh(issued - old(issued)) && earlier <= queries && |queries| == |earlier| + Queries(ops)
      ensures forall k, u | 0 <= k < |queries| && u in queries[k] ::
                queries[k][u].status.done || (u in load && load[u] == queries[k][u].status)
      ensures ops != [] && ops[|ops| - 1].Lost? ==>
                forall k, u | 0 <= k < |queries| && u in queries[k] :: queries[k][u].status.done
      ensures forall s | s in old(issued) :: Now(s) == Fate(ops, |ops|, s.owner, Made(earlier, s), old(Now(s)))
      ensures forall s | s in old(issued) && old(s.done) ::
                ResultKept(ops, |ops|, s.owner, Made(earlier, s), old(Now(s)))
                <==> NothingDisturbs(ops, |ops|, s.owner, Made(earlier, s), old(Now(s)))
    {
      queries := earlier;
      assert ops[..0] == [] && ops[..|ops|] == ops;
      forall s | s in issued && s.done
        ensures ResultKept(ops, |ops|, s.owner, Made(earlier, s), Now(s))
                <==> NothingDisturbs(ops, |ops|, s.owner, Made(earlier, s), Now(s))
      {
        ResultKeptIff(ops, |ops|, s.owner, Made(earlier, s), Now(s));
      }
      for i := 0 to |ops|
        invariant Valid() && fresh(issued - old(issued)) && old(issued) <= issued
        invariant earlier <= queries && |queries| == |earlier| + Queries(ops[..i])
        invariant forall k | 0 <= k < |queries| :: Attended(queries[k])
        invariant forall k, u | |earlier| <= k < |queries| && u in queries[k] && queries[k][u].first ::
                    queries[k][u].status !in old(issued)
        invariant i > 0 && ops[i - 1].Lost? ==> forall s | s in issued :: s.done
        invariant forall s | s in old(issued) :: Now(s) == Fate(ops, i, s.owner, Made(earlier, s), old(Now(s)))
      {
        hide Valid, Now, After;
        assert ops[..i + 1][..i] == ops[..i];
        forall s | s in old(issued)
          ensures Made(queries, s) == Made(earlier, s)
        {
          MadeStays(earlier, queries, s);
        }
        queries := Perform(ops[i], queries);
      }
    }
  }

  /** The queries, by number, that made an object. */
  ghost function Made(queries: seq<map<string, Wait>>, s: Status): set<nat> {
    set k: nat | k < |queries| && s.owner in queries[k] && queries[k][s.owner] == Wait(s, true)
  }

  lemma MadeStays(earlier: seq<map<string, Wait>>, queries: seq<map<string, Wait>>, s: Status)
    requires earlier <= queries
    requires forall k | |earlier| <= k < |queries| && s.owner in queries[k] && queries[k][s.owner].first
               :: queries[k][s.owner].status != s
    ensures Made(queries, s) == Made(earlier, s)
  {
    assert forall k | 0 <= k < |earlier| :: queries[k] == earlier[k];
  }

  // What becomes of one object in a run.

  /** What an object says, and whether it is the entry of its user. */
  datatype Standing = Standing(listed: bool, state: State)

  /** The operations that finish an object of user `u`: all but a failed request only while it is the entry. */
  ghost predicate Finishes(op: Operation, u: string, made: set<nat>, listed: bool) {
    match op
    case Told(changes) => listed && u in Users(changes)
    case Left(userIds) => listed && u in Elements(userIds)
    case Lost(_) => listed
    case Unsent(k, _) => k in made
    case _ => false
  }

  /** What they finish it with. */
  ghost function Result(op: Operation, u: string): State {
    match op
    case Told(changes) => State(true, None, Latest(changes, u))
    case Left(_) => State(true, Some("unsubscribe"), [])
    case Lost(err) => State(true, Some(Reason(err)), [])
    case Unsent(_, reason) => State(true, Some(reason), [])
    case _ => State(false, None, [])
  }

  ghost function After(op: Operation, u: string, made: set<nat>, st: Standing): Standing {
    if Finishes(op, u, made, st.listed) then Standing(op.Told?, Result(op, u)) else st
  }

  /** What an object is after the first `n` operations of a run. */
  ghost function Fate(ops: seq<Operation>, n: nat, u: string, made: set<nat>, st: Standing): Standing
    requires n <= |ops|
  {
    if n == 0 then st else After(ops[n - 1], u, made, Fate(ops, n - 1, u, made, st))
  }

  /** The operation finishes an object that is finished, and without an error if it is the entry, with another result. */
  ghost predicate Disturbs(op: Operation, u: string, made: set<nat>, st: Standing) {
    match op
    case Told(changes) => st.listed && u in Users(changes) && Latest(changes, u) != st.state.online
    case Left(userIds) => st.listed && u in Elements(userIds)
    case Lost(_) => st.listed
    case Unsent(k, reason) => k in made && !(st.state.err == Some(reason) && st.state.online == [])
    case _ => false
  }

  lemma DisturbsIff(op: Operation, u: string, made: set<nat>, st: Standing)
    requires st.state.done && (st.listed ==> st.state.err == None)
    ensures After(op, u, made, st).state == st.state <==> !Disturbs(op, u, made, st)
  {
    hide Users, Latest, Elements;
  }

  /** The object says the same after each of the first `n` operations. */
  ghost predicate ResultKept(ops: seq<Operation>, n: nat, u: string, made: set<nat>, st: Standing)
    requires n <= |ops|
  {
    forall i | 0 <= i <= n :: Fate(ops, i, u, made, st).state == st.state
  }

  /** None of the first `n` operations disturbs it. */
  ghost predicate NothingDisturbs(ops: seq<Operation>, n: nat, u: string, made: set<nat>, st: Standing)
    requires n <= |ops|
  {
    forall i | 0 <= i < n :: !Disturbs(ops[i], u, made, Fate(ops, i, u, made, st))
  }

  lemma OneStepMore(ops: seq<Operation>, n: nat, u: string, made: set<nat>, st: Standing)
    requires n < |ops|
    ensures Fate(ops, 0, u, made, st) == st && ResultKept(ops, 0, u, made, st)
    ensures ResultKept(ops, n + 1, u, made, st)
            <==> ResultKept(ops, n, u, made, st) && Fate(ops, n + 1, u, made, st).state == st.state
    ensures ResultKept(ops, n, u, made, st) ==> Fate(ops, n, u, made, st).state == st.state
    ensures NothingDisturbs(ops, n + 1, u, made, st)
            <==> NothingDisturbs(ops, n, u, made, st) && !Disturbs(ops[n], u, made, Fate(ops, n, u, made, st))
    ensures Fate(ops, n + 1, u, made, st) == After(ops[n], u, made, Fate(ops, n, u, made, st))
  {
    hide After, Disturbs;
  }

  /**
   * A finished object keeps its result throughout a run if and only if no operation finishes it with another one: no other
   * state is pushed while it is the entry, neither its user leaves nor the connection is lost then, and the query that made
   * it does not fail with another error.
   */
  lemma {:induction false} ResultKeptIff(ops: seq<Operation>, n: nat, u: string, made: set<nat>, st: Standing)
    requires n <= |ops| && st.state.done && (st.listed ==> st.state.err == None)
    ensures Fate(ops, n, u, made, st).listed ==> st.listed
    ensures ResultKept(ops, n, u, made, st) <==> NothingDisturbs(ops, n, u, made, st)
  {
    if n > 0 {
      ResultKeptIff(ops, n - 1, u, made, st);
      OneStepMore(ops, n - 1, u, made, st);
      hide After, Disturbs, ResultKept, NothingDisturbs;
      var before := Fate(ops, n - 1, u, made, st);
      StaysUnlisted(ops[n - 1], u, made, before);
      if before.state == st.state { DisturbsIff(ops[n - 1], u, made, before); }
    }
  }

  ghost predicate FinishesAt(ops: seq<Operation>, i: nat, u: string, made: set<nat>, st: Standing)
    requires i < |ops|
  {
    Finishes(ops[i], u, made, Fate(ops, i, u, made, st).listed)
  }

  /** What it says in the end is the result of the last operation that finished it. */
  lemma {:induction false} LastResultStays(ops: seq<Operation>, i: nat, n: nat, u: string, made: set<nat>, st: Standing)
    requires i < n <= |ops| && FinishesAt(ops, i, u, made, st)
    requires forall j | i < j < n :: !FinishesAt(ops, j, u, made, st)
    ensures Fate(ops, n, u, made, st).state == Result(ops[i], u)
    decreases n
  {
    hide Finishes, Result;
    if i < n - 1 {
      LastResultStays(ops, i, n - 1, u, made, st);
      assert !FinishesAt(ops, n - 1, u, made, st);
    }
  }

  lemma StaysUnlisted(op: Operation, u: string, made: set<nat>, st: Standing)
    ensures After(op, u, made, st).listed ==> st.listed
  {
    hide Users, Elements;
  }

  /** A query, the answer, and the user leaves: who was woken by the answer and reads late finds the error. */
  method WokenThenOverwritten() returns (waiter: Status, ghost woken: State)
    ensures woken == State(true, None, [1])
    ensures waiter.done && waiter.err == Some("unsubscribe") && waiter.online == []
  {
    var s := new Subscription();
    assert "u" in Elements(["u"]) && [Change("u", [1])][0].userId in Users([Change("u", [1])]);
    var exist, wait, _, _ := s.GetUserOnline(["u"]);
    assert exist.Keys == {};
    waiter := wait["u"].status;
    s.Tell([Change("u", [1])]);
    woken := s.Now(waiter).state;
    s.Leave(["u"]);
    assert s.Now(waiter).state == State(true, Some("unsubscribe"), []);
  }

  ghost function Queries(ops: seq<Operation>): nat {
    if ops == [] then 0 else Queries(ops[..|ops| - 1]) + if ops[|ops| - 1].Query? then 1 else 0
  }

  /** The operations; Unsent is the failure to send the k-th query. */
  datatype Operation =
    | Query(userIds: seq<string>)
    | Told(changes: seq<Change>)
    | Left(userIds: seq<string>)
    | Lost(err: Option<string>)
    | Connected
    | Unsent(k: nat, reason: string)

  /** What a status object says. */
  datatype State = State(done: bool, err: Option<string>, online: seq<int>)

  function PushOne(states: map<string, State>, sub: set<string>, v: Change): map<string, State> {
    if v.userId in states then states[v.userId := State(true, None, v.online)]
    else if v.userId in sub then states[v.userId := State(false, None, v.online)]
    else states
  }

  predicate Changes(states: map<string, State>, sub: set<string>, v: Change) {
    if v.userId in states then states[v.userId].online != v.online else v.userId in sub
  }

  function Pushed(states: map<string, State>, sub: set<string>, changes: seq<Change>): map<string, State> {
    if changes == [] then states
    else PushOne(Pushed(states, sub, changes[..|changes| - 1]), sub, changes[|changes| - 1])
  }

  /** A user that had an object before has the last pushed state, finished without error; everybody else is untouched. */
  lemma {:induction false} PushedMeans(states: map<string, State>, sub: set<string>, changes: seq<Change>)
    ensures Pushed(states, sub, changes).Keys == states.Keys + (Users(changes) * sub)
    ensures forall u | u in states ::
              Pushed(states, sub, changes)[u]
                 == if u in Users(changes) then State(true, None, Latest(changes, u)) else states[u]
    ensures forall u | u in Users(changes) * sub :: Pushed(states, sub, changes)[u].online == Latest(changes, u)
  {
    if changes != [] {
      var n := |changes| - 1;
      PushedMeans(states, sub, changes[..n]);
      ChangesGrow(changes, n, states, sub);
      assert changes[..n + 1] == changes;
      hide Users;
    }
  }

  /** The object that a push makes for a subscribed user is finished by the next one. */
  lemma {:induction false} PushedNew(states: map<string, State>, sub: set<string>, changes: seq<Change>, u: string)
    requires u !in states && u in sub && u in Users(changes)
    ensures u in Pushed(states, sub, changes)
    ensures Pushed(states, sub, changes)[u] == State(PushedTwice(changes, u), None, Latest(changes, u))
  {
    var n := |changes| - 1;
    var init := changes[..n];
    ChangesGrow(changes, n, states, sub);
    assert changes[..n + 1] == changes;
    PushedTwiceGrows(changes, n);
    PushedMeans(states, sub, init);
    hide Users, PushedTwice;
    if u in Users(init) { PushedNew(states, sub, init, u); }
    else { NotPushedTwice(init, u); }
  }

  lemma NotPushedTwice(changes: seq<Change>, u: string)
    ensures u !in Users(changes) ==> !PushedTwice(changes, u)
  {
  }

  /** The first push makes an object for a subscribed user, the second one finishes it. */
  ghost predicate PushedTwice(changes: seq<Change>, u: string) {
    exists i, j | 0 <= i < j < |changes| :: changes[i].userId == u && changes[j].userId == u
  }

  lemma PushedTwiceGrows(changes: seq<Change>, n: nat)
    requires |changes| == n + 1
    ensures forall u :: PushedTwice(changes, u)
                        <==> PushedTwice(changes[..n], u) || (u == changes[n].userId && u in Users(changes[..n]))
  {
    var init := changes[..n];
    assert forall k | 0 <= k < n :: init[k] == changes[k];
  }

  /** The users reported are among those pushed, with the state they have now; for the others nothing has changed. */
  ghost predicate Reports(change: map<string, seq<int>>, before: map<string, State>, states: map<string, State>,
                          seen: set<string>) {
    && (forall u | u in change :: u in states && u in seen && change[u] == states[u].online)
    && (forall u | u in before && u !in change :: u in states && states[u].online == before[u].online)
    && (forall u | u in states && u !in before :: u in change)
  }

  lemma ReportsMore(change: map<string, seq<int>>, before: map<string, State>, states: map<string, State>,
                    sub: set<string>,
                    seen: set<string>, v: Change)
    requires Reports(change, before, states, seen) && before.Keys <= states.Keys
    ensures Reports(if Changes(states, sub, v) then change[v.userId := v.online] else change, before,
                    PushOne(states, sub, v), seen + {v.userId})
  {
  }

  /** The state of the user of change `i` before it: the last one pushed until then, or the one at the start. */
  ghost function OnlineBefore(changes: seq<Change>, i: nat, online: seq<int>): seq<int>
    requires i < |changes|
  {
    if changes[i].userId in Users(changes[..i]) then Latest(changes[..i], changes[i].userId) else online
  }

  /** Some change brought the user another state than it had before. */
  ghost predicate SomeChange(changes: seq<Change>, u: string, online: seq<int>) {
    exists i :: 0 <= i < |changes| && changes[i].userId == u && changes[i].online != OnlineBefore(changes, i, online)
  }

  /**
   * The users reported: of those with an object exactly the ones to whom some change brought another state, of the others
   * exactly the subscribed ones that were pushed.
   */
  ghost predicate OnlyChanged(reported: set<string>, before: map<string, State>, sub: set<string>, changes: seq<Change>) {
    forall u: string ::
      u in reported
      <==> if u in before then SomeChange(changes, u, before[u].online) else u in sub && u in Users(changes)
  }

  lemma NoneChanged(before: map<string, State>, sub: set<string>)
    ensures OnlyChanged({}, before, sub, [])
  {
  }

  lemma SomeChangeMore(changes: seq<Change>, i: nat, u: string, online: seq<int>)
    requires i < |changes|
    ensures SomeChange(changes[..i + 1], u, online)
            <==> SomeChange(changes[..i], u, online)
                 || (changes[i].userId == u && changes[i].online != OnlineBefore(changes, i, online))
  {
    var shorter, longer := changes[..i], changes[..i + 1];
    hide Latest, Users;
    assert longer[..i] == shorter && longer[i] == changes[i];
    assert forall k | 0 <= k < i :: longer[k] == shorter[k] && longer[..k] == shorter[..k];
    if SomeChange(shorter, u, online) {
      var k :| 0 <= k < i && shorter[k].userId == u && shorter[k].online != OnlineBefore(shorter, k, online);
      assert longer[k].online != OnlineBefore(longer, k, online);
    }
  }

  lemma ChangesIff(before: map<string, State>, sub: set<string>, changes: seq<Change>, i: nat)
    requires i < |changes|
    ensures var v := changes[i];
            var changed := Changes(Pushed(before, sub, changes[..i]), sub, v);
            if v.userId in before then changed <==> v.online != OnlineBefore(changes, i, before[v.userId].online)
            else (changed ==> v.userId in sub) && (v.userId in sub && v.userId !in Users(changes[..i]) ==> changed)
  {
    PushedMeans(before, sub, changes[..i]);
    hide Pushed, Latest, Users;
  }

  lemma OnlyChangedMore(reported: set<string>, before: map<string, State>, sub: set<string>, changes: seq<Change>, i: nat)
    requires i < |changes| && OnlyChanged(reported, before, sub, changes[..i])
    ensures OnlyChanged(if Changes(Pushed(before, sub, changes[..i]), sub, changes[i]) then reported + {changes[i].userId}
                        else reported, before, sub, changes[..i + 1])
  {
    ChangesIff(before, sub, changes, i);
    ChangesGrow(changes, i, before, sub);
    hide Pushed, Users, Changes, SomeChange, OnlineBefore;
    forall u: string | u in before
      ensures SomeChange(changes[..i + 1], u, before[u].online)
              <==> SomeChange(changes[..i], u, before[u].online)
                   || (changes[i].userId == u && changes[i].online != OnlineBefore(changes, i, before[u].online))
    {
      SomeChangeMore(changes, i, u, before[u].online);
    }
  }

  /** The last state pushed for a user is that of the last change for it. */
  lemma {:induction false} LatestIs(changes: seq<Change>, u: string, i: nat)
    requires i < |changes| && changes[i].userId == u && forall j | i < j < |changes| :: changes[j].userId != u
    ensures Latest(changes, u) == changes[i].online
  {
    if i < |changes| - 1 { LatestIs(changes[..|changes| - 1], u, i); }
  }

  ghost function Users(changes: seq<Change>): set<string> {
    set i | 0 <= i < |changes| :: changes[i].userId
  }

  /** Where the users of the changes so far have ended up. */
  ghost predicate Placed(known: set<string>, load: set<string>, sub: set<string>, unsubBefore: set<string>,
                         unsub: set<string>, seen: set<string>) {
    load == known + (seen * sub) && unsub == unsubBefore + (seen - load)
  }

  lemma NoChanges(load: set<string>, sub: set<string>, unsub: set<string>, states: map<string, State>)
    ensures Placed(load, load, sub, unsub, unsub, {}) && Users([]) == {}
    ensures states == Pushed(states, sub, []) && Reports(map[], states, states, {})
  {
  }

  lemma PlacedMeans(known: set<string>, load: set<string>, sub: set<string>, unsubBefore: set<string>,
                    unsub: set<string>, seen: set<string>)
    requires Placed(known, load, sub, unsubBefore, unsub, seen)
    ensures load == known + (seen * sub) && unsub == unsubBefore + (seen - load)
  {
  }

  lemma PlacedMore(known: set<string>, load: set<string>, sub: set<string>, unsubBefore: set<string>, unsub: set<string>,
                   seen: set<string>, u: string)
    requires Placed(known, load, sub, unsubBefore, unsub, seen) && sub !! unsub
    ensures u in load ==> Placed(known, load, sub, unsubBefore, unsub, seen + {u}) && load + {u} == load
    ensures u !in load && u in sub ==> Placed(known, load + {u}, sub, unsubBefore, unsub, seen + {u})
    ensures u !in load && u !in sub ==> Placed(known, load, sub, unsubBefore, unsub + {u}, seen + {u})
  {
  }

  lemma ChangesGrow(changes: seq<Change>, i: nat, states: map<string, State>, sub: set<string>)
    requires i < |changes|
    ensures Users(changes[..i + 1]) == Users(changes[..i]) + {changes[i].userId}
    ensures Pushed(states, sub, changes[..i + 1]) == PushOne(Pushed(states, sub, changes[..i]), sub, changes[i])
  {
    var longer := changes[..i + 1];
    assert longer[..i] == changes[..i] && longer[i] == changes[i];
    forall u | u in Users(changes[..i]) + {changes[i].userId}
      ensures u in Users(longer)
    {
      if u in Users(changes[..i]) {
        var k :| 0 <= k < i && changes[..i][k].userId == u;
        assert longer[k].userId == u;
      } else {
        assert longer[i].userId == u;
      }
    }
  }

  lemma ShrinkOnce(load: map<string, Status>, sub: set<string>, unsub: set<string>, gone: set<string>, u: string)
    ensures load - gone - {u} == load - (gone + {u}) && sub - gone - {u} == sub - (gone + {u})
    ensures (if u in sub - gone then unsub + sub * gone + {u} else unsub + sub * gone) == unsub + sub * (gone + {u})
  {
  }

  function Reason(err: Option<string>): string {
    if err.None? then "connection closed" else err.value
  }

  /** How a query parts the users that it has seen. */
  ghost predicate Parted(exist: map<string, seq<int>>, wait: map<string, Wait>, subUserIds: seq<string>,
                         seen: set<string>,
                         known: map<string, Status>, load: map<string, Status>, unsubBefore: set<string>, unsub: set<string>) {
    && exist.Keys !! wait.Keys && exist.Keys + wait.Keys == seen
    && load.Keys == known.Keys + seen && (forall u | u in known :: load[u] == known[u])
    && exist.Keys <= known.Keys && (forall u | u in wait :: wait[u].first == (u !in known))
    && Distinct(subUserIds) && Elements(subUserIds) == seen - known.Keys
    && unsub == unsubBefore - seen
  }

  lemma PartedNone(load: map<string, Status>, unsub: set<string>)
    ensures Parted(map[], map[], [], {}, load, load, unsub, unsub)
  {
  }

  lemma PartedMeans(exist: map<string, seq<int>>, wait: map<string, Wait>, subUserIds: seq<string>, seen: set<string>,
                    known: map<string, Status>, load: map<string, Status>, unsubBefore: set<string>, unsub: set<string>)
    requires Parted(exist, wait, subUserIds, seen, known, load, unsubBefore, unsub)
    ensures exist.Keys !! wait.Keys && exist.Keys + wait.Keys == seen
    ensures load.Keys == known.Keys + seen && (forall u | u in known :: load[u] == known[u])
    ensures exist.Keys <= known.Keys && (forall u | u in wait :: wait[u].first == (u !in known))
    ensures Distinct(subUserIds) && Elements(subUserIds) == seen - known.Keys && unsub == unsubBefore - seen
  {
  }

  lemma PartedMore(exist: map<string, seq<int>>, wait: map<string, Wait>, subUserIds: seq<string>, seen: set<string>,
                   known: map<string, Status>, load: map<string, Status>, newLoad: map<string, Status>,
                   unsubBefore: set<string>, unsub: set<string>, newUnsub: set<string>, u: string,
                   state: Option<seq<int>>, toWait: Option<Wait>)
    requires Parted(exist, wait, subUserIds, seen, known, load, unsubBefore, unsub) && u !in seen
    requires u in newLoad && newLoad == load[u := newLoad[u]] && (u in load ==> newLoad == load) && newUnsub == unsub - {u}
    requires if state.Some? then u in load else toWait.Some? && toWait.value.first == (u !in load)
    ensures u in known <==> u in load
    ensures Parted(if state.Some? then exist[u := state.value] else exist,
                   if state.Some? then wait else wait[u := toWait.value],
                   if state.None? && toWait.value.first then subUserIds + [u] else subUserIds,
                   seen + {u}, known, newLoad, unsubBefore, newUnsub)
  {
    ElementsGrow(subUserIds, u);
    hide Elements, Distinct;
    if state.Some? {
      assert exist[u := state.value].Keys == exist.Keys + {u};
    } else {
      assert wait[u := toWait.value].Keys == wait.Keys + {u};
    }
  }

  ghost function Elements(s: seq<string>): set<string> {
    set x | x in s
  }

  lemma ElementsGrow(s: seq<string>, x: string)
    ensures Elements(s + [x]) == Elements(s) + {x} && Elements([]) == {} && s[..|s|] == s && s[..0] == []
    ensures Distinct<string>([]) && (Distinct(s) && x !in Elements(s) ==> Distinct(s + [x]))
  {
    assert x in s + [x] && forall y | y in s :: y in s + [x];
  }

  method Keys(s: set<string>) returns (keys: seq<string>)
    ensures Elements(keys) == s
  {
    hide Elements;
    keys := [];
    var remaining := s;
    ElementsGrow([], "");
    while remaining != {}
      invariant remaining <= s && Elements(keys) == s - remaining
      decreases remaining
    {
      var k :| k in remaining;
      ElementsGrow(keys, k);
      keys, remaining := keys + [k], remaining - {k};
    }
  }
}

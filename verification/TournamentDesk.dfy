/** The tournament workers and the join endpoints as they run: tables rewritten in place by
    loops over the fetched rows. */
module TournamentDesk {
  import opened ExpLn
  import opened Decimals
  import opened Trading
  import opened Valuation
  import opened Tournament

  class Desk {
    var tournaments: map<TournamentId, Tournament>
    var members: seq<Member>
    var snapshots: map<TournamentId, seq<Snapshot>>

    ghost function Value(): Board
      reads this
    {
      Board(tournaments, members, snapshots)
    }

    /** The users of the members of the given tournaments. */
    method MemberUsers(ids: set<TournamentId>) returns (users: set<UserId>)
      ensures forall i :: 0 <= i < |members| && members[i].tid in ids ==> members[i].user in users
    {
      users := set i | 0 <= i < |members| && members[i].tid in ids :: members[i].user;
    }

    method ActivatePending(m: Maths, st: State, now: int) returns (count: nat)
      requires Priced(st.markets)
      modifies this
      ensures Value() == Activated(m, old(Value()), st, now)
      ensures count == |set t | t in old(tournaments) && old(tournaments)[t].status == Pending
                                && old(tournaments)[t].startTime <= now|
    {
      hide MemberValue, Priced;
      var pending := set t | t in tournaments && DueToStart(tournaments[t], now);
      assert pending == set t | t in old(tournaments) && old(tournaments)[t].status == Pending
                                && old(tournaments)[t].startTime <= now;
      if pending == {} {
        assert forall t :: t in tournaments ==> !DueToStart(tournaments[t], now) by {
          assert forall t :: t in tournaments && DueToStart(tournaments[t], now) ==> t in pending;
        }
        assert members == Activated(m, Value(), st, now).members;
        assert tournaments == Activated(m, Value(), st, now).tournaments;
        return 0;
      }
      var users := MemberUsers(pending);
      var values := BatchValues(m, st, users);
      LockStartingValues(m, st, now, pending, users, values);
      tournaments := map t | t in tournaments ::
        if t in pending then tournaments[t].(status := Active) else tournaments[t];
      assert tournaments == Activated(m, old(Value()), st, now).tournaments;
      count := |pending|;
    }

    /** The member loop of the activation. */
    method LockStartingValues(m: Maths, st: State, now: int, pending: set<TournamentId>, users: set<UserId>,
                              values: map<UserId, real>)
      requires Priced(st.markets)
      requires pending == set t | t in tournaments && DueToStart(tournaments[t], now)
      requires forall i :: 0 <= i < |members| && members[i].tid in pending ==> members[i].user in users
      requires values.Keys == users * st.points.Keys
      requires forall user :: user in values ==> values[user] == MemberValue(m, st, user)
      modifies this`members
      ensures members == Activated(m, old(Value()), st, now).members
    {
      hide MemberValue, Priced;
      ghost var before := members;
      for i := 0 to |members|
        invariant |members| == |before|
        invariant forall k :: 0 <= k < i ==> members[k] == ActivatedMember(m, old(Value()), st, now, before[k])
        invariant forall k :: i <= k < |before| ==> members[k] == before[k]
      {
        var member := members[i];
        if member.tid in pending && member.user in values {
          members := members[i := member.(starting := values[member.user])];
        }
      }
    }

    method FreezeExpired(m: Maths, st: State, now: int) returns (count: nat)
      requires Priced(st.markets)
      modifies this
      ensures Value() == Frozen(m, old(Value()), st, now)
      ensures count == |set t | t in old(tournaments) && old(tournaments)[t].status == Active
                                && old(tournaments)[t].endTime <= now|
    {
      hide MemberValue, Priced, FinalRanking, PartlyFrozen, Frozen;
      ghost var before := Value();
      var expired := set t | t in tournaments && DueToEnd(tournaments[t], now);
      assert expired == set t | t in old(tournaments) && old(tournaments)[t].status == Active
                                && old(tournaments)[t].endTime <= now;
      FreezeEnds(m, before, st, now, expired);
      var users := MemberUsers(expired);
      var values := BatchValues(m, st, users);
      var todo := expired;
      while todo != {}
        invariant todo <= expired && members == before.members
        invariant Value() == PartlyFrozen(m, before, st, expired, todo)
        decreases todo
      {
        var t :| t in todo;
        FreezeOne(m, before, st, expired, todo, t);
        var rows := RankTournament(m, st, t, users, values);
        snapshots := snapshots[t := SnapshotsOf(snapshots, t) + rows];
        tournaments := tournaments[t := tournaments[t].(status := Completed)];
        todo := todo - {t};
      }
      count := |expired|;
    }

    /** The body of the freeze for one tournament: value, sort, rank. */
    method RankTournament(m: Maths, st: State, t: TournamentId, users: set<UserId>, values: map<UserId, real>)
      returns (rows: seq<Snapshot>)
      requires Priced(st.markets)
      requires forall i :: 0 <= i < |members| && members[i].tid == t ==> members[i].user in users
      requires values.Keys == users * st.points.Keys
      requires forall user :: user in values ==> values[user] == MemberValue(m, st, user)
      ensures rows == FinalRanking(m, members, st, t)
    {
      hide MemberValue, Priced, D4;
      ghost var final := FinalValues(m, st);
      var entries: seq<Entry> := [];
      for i := 0 to |members|
        invariant entries == Entries(final, members[..i], t)
      {
        assert members[..i + 1][..i] == members[..i];
        if members[i].tid == t {
          assert ValueOf(values, members[i].user) == ValueOf(final, members[i].user);
          entries := entries + [Entry(members[i], ValueOf(values, members[i].user))];
        }
      }
      assert members[..|members|] == members;
      entries := SortByProfit(entries);
      rows := [];
      for rank := 0 to |entries|
        invariant rows == Ranked(entries)[..rank]
      {
        var e := entries[rank];
        rows := rows + [Snapshot(e.member.user, rank + 1, e.total, e.member.starting, D4(e.total - e.member.starting))];
      }
    }

    method JoinTournament(m: Maths, st: State, t: TournamentId, user: UserId, codeMatches: bool)
      returns (r: Outcome<Member>)
      requires Priced(st.markets)
      modifies this`members
      ensures Value() == Settle(old(Value()), Join(m, old(Value()), st, t, user, codeMatches))
      ensures r.Refused? <==> Join(m, old(Value()), st, t, user, codeMatches).Refused?
      ensures r.Refused? ==> r.error == Join(m, old(Value()), st, t, user, codeMatches).error
      ensures r.Done? ==> members == old(members) + [r.value]
    {
      hide TotalValue;
      if t !in tournaments {
        return Refused(NotFound);
      }
      if !codeMatches {
        return Refused(InvalidCode);
      }
      if tournaments[t].createdBy == user {
        return Refused(OwnTournament);
      }
      if exists i :: 0 <= i < |members| && members[i].tid == t && members[i].user == user {
        return Refused(AlreadyMember);
      }
      var starting := 0.0;
      if tournaments[t].status == Active {
        var value := CalculateTotalValue(m, st, user);
        if value.None? {
          return Refused(NoPortfolio);
        }
        starting := value.value;
      }
      var member := Member(t, user, starting);
      members := members + [member];
      r := Done(member);
    }
  }
}

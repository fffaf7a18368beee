/** What the tournament endpoints and workers promise, on the fields of the rows: who may join
    and at what value, when a tournament starts and ends, and what a late joiner is paid. */
module TournamentLaws {
  import opened ExpLn
  import opened Decimals
  import opened Trading
  import opened Valuation
  import opened Tournament

  // ---- Creating and joining ----

  /** A tournament is created exactly if its creator has fewer than ten that are not completed
      and it ends after it starts; it begins pending, with the given times, without members. */
  lemma CreateExactly(board: Board, t: TournamentId, user: UserId, startTime: int, endTime: int)
    requires t !in board.tournaments
    ensures var unfinished := set u | u in board.tournaments && board.tournaments[u].createdBy == user
                                      && board.tournaments[u].status != Completed;
            var r := Create(board, t, user, startTime, endTime);
            && (r.Done? <==> |unfinished| < 10 && startTime < endTime)
            && (r == Refused(TooMany) <==> |unfinished| >= 10)
            && (r.Done? ==>
                  && r.value.members == board.members && r.value.snapshots == board.snapshots
                  && r.value.tournaments.Keys == board.tournaments.Keys + {t}
                  && (forall u :: u in board.tournaments ==> r.value.tournaments[u] == board.tournaments[u])
                  && r.value.tournaments[t].status == Pending && r.value.tournaments[t].createdBy == user
                  && r.value.tournaments[t].startTime == startTime && r.value.tournaments[t].endTime == endTime)
  {
  }

  /** Who may join, for which reason others may not, and where a member starts: at the value
      of the portfolio if the tournament is active, at 0 otherwise. */
  lemma JoinExactly(m: Maths, board: Board, st: State, t: TournamentId, user: UserId, codeMatches: bool)
    requires Priced(st.markets)
    ensures var r := Join(m, board, st, t, user, codeMatches);
            var found := t in board.tournaments && codeMatches;
            var open := found && board.tournaments[t].createdBy != user;
            var member := exists member :: member in board.members && member.tid == t && member.user == user;
            && (r == Refused(NotFound) <==> t !in board.tournaments)
            && (r == Refused(InvalidCode) <==> t in board.tournaments && !codeMatches)
            && (r == Refused(OwnTournament) <==> found && board.tournaments[t].createdBy == user)
            && (r == Refused(AlreadyMember) <==> open && member)
            && (r == Refused(NoPortfolio)
                <==> open && !member && board.tournaments[t].status == Active && user !in st.points)
            && (r.Done? <==> open && !member && (board.tournaments[t].status == Active ==> user in st.points))
            && (r.Done? && board.tournaments[t].status == Active ==>
                  r.value == board.(members := board.members + [Member(t, user, TotalValue(m, st, user))]))
            && (r.Done? && board.tournaments[t].status != Active ==>
                  r.value == board.(members := board.members + [Member(t, user, 0.0)]))
  {
    hide TotalValue, Priced;
    if exists member :: member in board.members && member.tid == t && member.user == user {
      var member :| member in board.members && member.tid == t && member.user == user;
      var i :| 0 <= i < |board.members| && board.members[i] == member;
      assert IsMember(board, t, user);
    }
  }

  // ---- Starting and ending ----

  /** An activation starts exactly the pending tournaments whose time has come; the members of
      those who have a portfolio are locked at its value, everybody else keeps what they had. */
  lemma ActivationExactly(m: Maths, board: Board, st: State, now: int)
    requires Priced(st.markets) && Inv(board)
    ensures var after := BoardStep(m, board, ActivateDue(st, now));
            && after.tournaments.Keys == board.tournaments.Keys && after.snapshots == board.snapshots
            && |after.members| == |board.members|
            && (forall t :: t in board.tournaments ==>
                  && after.tournaments[t] == board.tournaments[t].(status := after.tournaments[t].status)
                  && (board.tournaments[t].status == Pending ==>
                        (after.tournaments[t].status == Active <==> board.tournaments[t].startTime <= now)
                        && (after.tournaments[t].status == Pending <==> board.tournaments[t].startTime > now))
                  && (board.tournaments[t].status != Pending ==> after.tournaments[t] == board.tournaments[t]))
            && (forall i :: 0 <= i < |board.members| ==>
                  var before := board.members[i];
                  var t := board.tournaments[before.tid];
                  after.members[i] == if t.status == Pending && t.startTime <= now && before.user in st.points
                    then before.(starting := MemberValue(m, st, before.user)) else before)
  {
    hide MemberValue, Priced;
    var after := Activated(m, board, st, now);
    forall i | 0 <= i < |board.members|
      ensures after.members[i] == ActivatedMember(m, board, st, now, board.members[i])
    {
    }
  }

  /** What a freeze stores for a member: the value of the portfolio, nothing without one,
      against the value it started at. */
  ghost predicate Paid(m: Maths, st: State, member: Member, row: Snapshot)
    requires Priced(st.markets)
  {
    && row.user == member.user && row.starting == member.starting
    && row.total == (if member.user in st.points then MemberValue(m, st, member.user) else 0.0)
    && NearestEven((row.total - row.starting) * 10000.0, row.profit)
    && -0.00005 <= Milli4(row.profit) - (row.total - row.starting) <= 0.00005
  }

  ghost predicate PaidOnce(m: Maths, st: State, member: Member, rows: seq<Snapshot>)
    requires Priced(st.markets)
  {
    exists k :: 0 <= k < |rows| && Paid(m, st, member, rows[k])
  }

  lemma FinalRowIsPaid(m: Maths, st: State, member: Member, row: Snapshot)
    requires Priced(st.markets) && FinalRow(m, st, member, row)
    ensures Paid(m, st, member, row)
  {
    hide MemberValue, Priced, HalfEven;
    HalfEvenExactly((row.total - row.starting) * 10000.0, row.profit);
    HalfEvenError((row.total - row.starting) * 10000.0);
  }

  /** Ranks 1..n over distinct users in non-increasing profit, on the stored fields. */
  ghost predicate Placed(rows: seq<Snapshot>) {
    && (forall i :: 0 <= i < |rows| ==> rows[i].rank == i + 1)
    && (forall i, j :: 0 <= i < j < |rows| ==>
          rows[i].user != rows[j].user && rows[i].total - rows[i].starting >= rows[j].total - rows[j].starting
          && rows[i].profit >= rows[j].profit)
  }

  /** A freeze completes exactly the active tournaments whose time has come.  Each of them gets
      its standings: every member paid, in places 1 to n by profit.  Nothing else changes. */
  lemma FreezeExactly(m: Maths, board: Board, st: State, now: int, t: TournamentId)
    requires Priced(st.markets) && Inv(board) && t in board.tournaments
    ensures var after, before := BoardStep(m, board, FreezeDue(st, now)), board.tournaments[t];
            && after.members == board.members && after.tournaments.Keys == board.tournaments.Keys
            && after.tournaments[t] == before.(status := after.tournaments[t].status)
            && (after.tournaments[t].status == Completed
                <==> before.status == Completed || (before.status == Active && before.endTime <= now))
            && (after.tournaments[t].status == Active <==> before.status == Active && before.endTime > now)
            && (!(before.status == Active && before.endTime <= now) ==>
                  SnapshotsOf(after.snapshots, t) == SnapshotsOf(board.snapshots, t))
            && (before.status == Active && before.endTime <= now ==>
                  && t in after.snapshots && Placed(after.snapshots[t])
                  && (forall member :: member in board.members && member.tid == t ==>
                        PaidOnce(m, st, member, after.snapshots[t]))
                  && (forall k :: 0 <= k < |after.snapshots[t]| ==>
                        Member(t, after.snapshots[t][k].user, after.snapshots[t][k].starting) in board.members))
  {
    hide MemberValue, Priced, FinalRanking, Ranking, RowOf, HasRow, Paid;
    var after := Frozen(m, board, st, now);
    if DueToEnd(board.tournaments[t], now) {
      FreezeRanksEveryMemberOnce(m, board, st, now, t);
      var rows := after.snapshots[t];
      RankingIsPlaced(rows);
      forall member | member in board.members && member.tid == t ensures PaidOnce(m, st, member, rows) {
        var i :| 0 <= i < |board.members| && board.members[i] == member;
        RowAtFreeze(m, board, st, now, i);
        var row :| row in rows && FinalRow(m, st, member, row);
        var k :| 0 <= k < |rows| && rows[k] == row;
        FinalRowIsPaid(m, st, member, rows[k]);
      }
      forall k | 0 <= k < |rows| ensures Member(t, rows[k].user, rows[k].starting) in board.members {
        RowNamesMember(m, board.members, st, t, rows[k]);
      }
    } else if t in board.snapshots {
      assert after.snapshots[t] == board.snapshots[t] + [];
    }
  }

  lemma RankingIsPlaced(rows: seq<Snapshot>)
    requires Ranking(rows)
    ensures Placed(rows)
  {
  }

  lemma RowNamesMember(m: Maths, members: seq<Member>, st: State, t: TournamentId, row: Snapshot)
    requires Priced(st.markets) && RowOf(m, members, st, t, row)
    ensures Member(t, row.user, row.starting) in members
  {
  }

  // ---- Late joiners ----

  /** The last member of a board whose tournament has started keeps what it started with. */
  lemma StartedIsKept(m: Maths, board: Board, i: nat, events: seq<BoardEvent>)
    requires Inv(board) && i < |board.members| && board.tournaments[board.members[i].tid].status != Pending
    ensures var end := BoardRun(m, board, events);
            Inv(end) && i < |end.members| && end.members[i] == board.members[i]
  {
    LifecycleHolds(m, board, events);
    assert MemberKept(board, BoardRun(m, board, events), i);
  }

  /** Whoever joins an active tournament is paid from there: after any run and a freeze, the
      stored row has the value at the freeze against the total value at the join. */
  lemma LateJoinerIsPaid(m: Maths, board: Board, st1: State, t: TournamentId, user: UserId, codeMatches: bool,
                         events: seq<BoardEvent>, st2: State, now: int)
    requires Inv(board) && Priced(st1.markets) && Priced(st2.markets) && user in st1.points
    requires t in board.tournaments && board.tournaments[t].status == Active
    requires Join(m, board, st1, t, user, codeMatches).Done?
    requires var mid := BoardRun(m, BoardStep(m, board, JoinOne(st1, t, user, codeMatches)), events);
             t in mid.tournaments && mid.tournaments[t].status == Active && mid.tournaments[t].endTime <= now
    ensures var mid := BoardRun(m, BoardStep(m, board, JoinOne(st1, t, user, codeMatches)), events);
            var after := BoardStep(m, mid, FreezeDue(st2, now));
            && t in after.snapshots
            && PaidOnce(m, st2, Member(t, user, TotalValue(m, st1, user)), after.snapshots[t])
  {
    hide TotalValue, MemberValue, Priced, PaidOnce, Frozen;
    var joined := BoardStep(m, board, JoinOne(st1, t, user, codeMatches));
    JoinExactly(m, board, st1, t, user, codeMatches);
    StepKeepsInv(m, board, JoinOne(st1, t, user, codeMatches));
    StartedIsKept(m, joined, |board.members|, events);
    var mid := BoardRun(m, joined, events);
    FreezeExactly(m, mid, st2, now, t);
    assert mid.members[|board.members|] in mid.members;
  }

  /** A freeze in the state of the join shows no profit beyond the difference of the two
      valuations. */
  lemma JoinAndFreezePaysNothing(m: Maths, st: State, t: TournamentId, user: UserId, row: Snapshot)
    requires Priced(st.markets) && user in st.points && Paid(m, st, Member(t, user, TotalValue(m, st, user)), row)
    ensures var gap := |Refunds6(m, st, user).Keys| as real * 0.0000505 + 0.0001;
            -gap <= Milli4(row.profit) <= gap
  {
    hide TotalValue, MemberValue, Refunds6, Priced;
    BatchRefinesSimple(m, st, user);
  }
}

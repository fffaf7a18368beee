/** The leaderboard endpoint: frozen standings of a completed tournament, live ones of an
    active tournament.  The live board values portfolios the simple way, the freeze in
    batch. */
module Leaderboard {
  import opened ExpLn
  import opened Decimals
  import opened Trading
  import opened Valuation
  import opened Tournament

  datatype Standing = Standing(user: UserId, rank: nat, starting: real, total: real, profit: real)

  // ---- Reading frozen rows in rank order ----

  function InsertByRank(row: Snapshot, sorted: seq<Snapshot>): seq<Snapshot> {
    if sorted == [] || row.rank <= sorted[0].rank then [row] + sorted
    else [sorted[0]] + InsertByRank(row, sorted[1..])
  }

  function ByRank(rows: seq<Snapshot>): seq<Snapshot> {
    if rows == [] then [] else InsertByRank(rows[0], ByRank(rows[1..]))
  }

  lemma {:induction false} ByRankKeepsOrder(rows: seq<Snapshot>)
    requires forall i, j :: 0 <= i < j < |rows| ==> rows[i].rank <= rows[j].rank
    ensures ByRank(rows) == rows
  {
    if rows != [] {
      ByRankKeepsOrder(rows[1..]);
      assert rows == [rows[0]] + rows[1..];
    }
  }

  /** Reading in rank order yields the same rows, sorted. */
  lemma {:induction false} ByRankSorts(rows: seq<Snapshot>)
    ensures multiset(ByRank(rows)) == multiset(rows)
    ensures Ascending(ByRank(rows))
  {
    if rows != [] {
      ByRankSorts(rows[1..]);
      InsertByRankSorts(rows[0], ByRank(rows[1..]));
      InsertByRankPermutes(rows[0], ByRank(rows[1..]));
      assert rows == [rows[0]] + rows[1..];
    }
  }

  lemma {:induction false} InsertByRankPermutes(row: Snapshot, sorted: seq<Snapshot>)
    ensures multiset(InsertByRank(row, sorted)) == multiset(sorted) + multiset{row}
    ensures forall x :: x in InsertByRank(row, sorted) ==> x == row || x in sorted
  {
    if sorted != [] && row.rank > sorted[0].rank {
      InsertByRankPermutes(row, sorted[1..]);
      assert sorted == [sorted[0]] + sorted[1..];
    }
  }

  ghost predicate Ascending(rows: seq<Snapshot>) {
    forall i, j :: 0 <= i < j < |rows| ==> rows[i].rank <= rows[j].rank
  }

  lemma {:induction false} InsertByRankSorts(row: Snapshot, sorted: seq<Snapshot>)
    requires Ascending(sorted)
    ensures Ascending(InsertByRank(row, sorted))
  {
    if sorted != [] && row.rank > sorted[0].rank {
      var first, rest := sorted[0], sorted[1..];
      InsertByRankSorts(row, rest);
      InsertByRankPermutes(row, rest);
      forall x | x in rest ensures first.rank <= x.rank {
        var k :| 0 <= k < |rest| && rest[k] == x;
        assert sorted[k + 1] == x;
      }
      PrependAscends(first, InsertByRank(row, rest));
    }
  }

  lemma PrependAscends(first: Snapshot, rest: seq<Snapshot>)
    requires Ascending(rest) && forall x :: x in rest ==> first.rank <= x.rank
    ensures Ascending([first] + rest)
  {
    var all := [first] + rest;
    forall i, j | 0 <= i < j < |all| ensures all[i].rank <= all[j].rank {
      assert all[j] == rest[j - 1];
    }
  }

  function Shown(rows: seq<Snapshot>): seq<Standing> {
    seq(|rows|, i requires 0 <= i < |rows| =>
      Standing(rows[i].user, rows[i].rank, rows[i].starting, rows[i].total, Milli4(rows[i].profit)))
  }

  function Live(sorted: seq<Entry>): seq<Standing> {
    seq(|sorted|, i requires 0 <= i < |sorted| =>
      Standing(sorted[i].member.user, i + 1, sorted[i].member.starting, sorted[i].total, sorted[i].Profit()))
  }

  /** The simple value of every user who has a portfolio. */
  ghost function CurrentValues(m: Maths, st: State): map<UserId, real>
    requires Priced(st.markets)
  {
    map user | user in st.points :: TotalValue(m, st, user)
  }

  ghost predicate AllFunded(members: seq<Member>, st: State, t: TournamentId) {
    forall i :: 0 <= i < |members| && members[i].tid == t ==> members[i].user in st.points
  }

  /** What the endpoint answers.  One member without a portfolio makes the live board fail. */
  ghost function Standings(m: Maths, board: Board, st: State, t: TournamentId, viewer: UserId): Outcome<seq<Standing>>
    requires Priced(st.markets)
  {
    if t !in board.tournaments then Refused(NotFound)
    else if !IsMember(board, t, viewer) then Refused(NotAMember)
    else
      match board.tournaments[t].status
      case Pending => Refused(NotYetActive)
      case Completed => Done(Shown(ByRank(SnapshotsOf(board.snapshots, t))))
      case Active =>
        if AllFunded(board.members, st, t)
        then Done(Live(SortByProfit(Entries(CurrentValues(m, st), board.members, t))))
        else Refused(NoPortfolio)
  }

  method GetLeaderboard(m: Maths, board: Board, st: State, t: TournamentId, viewer: UserId)
    returns (r: Outcome<seq<Standing>>)
    requires Priced(st.markets)
    ensures r == Standings(m, board, st, t, viewer)
  {
    hide TotalValue, Priced, CurrentValues, Entries, SortByProfit, AllFunded, Shown, ByRank, Live;
    var members := board.members;
    if t !in board.tournaments {
      return Refused(NotFound);
    }
    if !exists i :: 0 <= i < |members| && members[i].tid == t && members[i].user == viewer {
      return Refused(NotAMember);
    }
    if board.tournaments[t].status == Pending {
      return Refused(NotYetActive);
    }
    if board.tournaments[t].status == Completed {
      return Done(Shown(ByRank(SnapshotsOf(board.snapshots, t))));
    }
    var entries := LiveEntries(m, members, st, t);
    if entries.None? {
      return Refused(NoPortfolio);
    }
    r := Done(Live(SortByProfit(entries.value)));
  }

  /** The member loop of the live leaderboard. */
  method LiveEntries(m: Maths, members: seq<Member>, st: State, t: TournamentId) returns (r: Option<seq<Entry>>)
    requires Priced(st.markets)
    ensures r == if AllFunded(members, st, t) then Some(Entries(CurrentValues(m, st), members, t)) else None
  {
    hide TotalValue, Priced;
    ghost var current := CurrentValues(m, st);
    var entries: seq<Entry> := [];
    for i := 0 to |members|
      invariant entries == Entries(current, members[..i], t)
      invariant AllFunded(members[..i], st, t)
    {
      assert members[..i + 1][..i] == members[..i];
      if members[i].tid == t {
        var value := CalculateTotalValue(m, st, members[i].user);
        if value.None? {
          return None;
        }
        assert ValueOf(current, members[i].user) == value.value;
        entries := entries + [Entry(members[i], value.value)];
      }
    }
    assert members[..|members|] == members;
    r := Some(entries);
  }

  /** Frozen standings are what every later leaderboard shows, to any member, however the
      economy and the other tournaments move on. */
  lemma FrozenStandingsAreShown(m: Maths, board: Board, st: State, now: int, t: TournamentId,
                                events: seq<BoardEvent>, later: State, viewer: UserId)
    requires Priced(st.markets) && Priced(later.markets) && Inv(board)
    requires t in board.tournaments && DueToEnd(board.tournaments[t], now)
    requires IsMember(BoardRun(m, Frozen(m, board, st, now), events), t, viewer)
    ensures Standings(m, BoardRun(m, Frozen(m, board, st, now), events), later, t, viewer)
            == Done(Shown(FinalRanking(m, board.members, st, t)))
  {
    hide Priced, Frozen, FinalRanking, IsMember;
    StandingsAreFinal(m, board, st, now, t, events);
    FinalRankingIsRight(m, board, st, t);
    ByRankKeepsOrder(FinalRanking(m, board.members, st, t));
  }

  /** What those rows say, field by field: places 1 to n by profit, one for each member there was
      at the freeze and nobody else, with the value at the freeze, nothing without a portfolio,
      against the value the member started at. */
  lemma FrozenStandingsSay(m: Maths, board: Board, st: State, t: TournamentId)
    requires Priced(st.markets) && MembersDistinct(board.members)
    ensures var rows := Shown(FinalRanking(m, board.members, st, t));
            && (forall i :: 0 <= i < |rows| ==>
                  && rows[i].rank == i + 1
                  && Member(t, rows[i].user, rows[i].starting) in board.members
                  && rows[i].total == (if rows[i].user in st.points then MemberValue(m, st, rows[i].user) else 0.0)
                  && -0.00005 <= rows[i].profit - (rows[i].total - rows[i].starting) <= 0.00005)
            && (forall i, j :: 0 <= i < j < |rows| ==>
                  && rows[i].user != rows[j].user && rows[i].profit >= rows[j].profit
                  && rows[i].total - rows[i].starting >= rows[j].total - rows[j].starting)
            && (forall member :: member in board.members && member.tid == t ==> HasStanding(rows, member.user))
  {
    hide MemberValue, Priced, FinalRanking, HalfEven;
    var stored := FinalRanking(m, board.members, st, t);
    FinalRankingIsRight(m, board, st, t);
    forall i | 0 <= i < |stored|
      ensures Member(t, stored[i].user, stored[i].starting) in board.members
      ensures stored[i].total == (if stored[i].user in st.points then MemberValue(m, st, stored[i].user) else 0.0)
      ensures -0.00005 <= Milli4(stored[i].profit) - (stored[i].total - stored[i].starting) <= 0.00005
    {
      assert RowOf(m, board.members, st, t, stored[i]);
      HalfEvenError((stored[i].total - stored[i].starting) * 10000.0);
    }
    forall member | member in board.members && member.tid == t ensures HasStanding(Shown(stored), member.user) {
      assert HasRow(stored, member.user);
      var k :| 0 <= k < |stored| && stored[k].user == member.user;
      assert Shown(stored)[k].user == member.user;
    }
  }

  /** Who is refused a leaderboard, and why. */
  lemma LeaderboardRefusedExactly(m: Maths, board: Board, st: State, t: TournamentId, viewer: UserId)
    requires Priced(st.markets)
    ensures var r := Standings(m, board, st, t, viewer);
            var member := exists member :: member in board.members && member.tid == t && member.user == viewer;
            && (r == Refused(NotFound) <==> t !in board.tournaments)
            && (r == Refused(NotAMember) <==> t in board.tournaments && !member)
            && (r == Refused(NotYetActive) <==> t in board.tournaments && member && board.tournaments[t].status == Pending)
            && (r == Refused(NoPortfolio) <==>
                  && t in board.tournaments && member && board.tournaments[t].status == Active
                  && exists member :: member in board.members && member.tid == t && member.user !in st.points)
            && (r.Done? || r.error in {NotFound, NotAMember, NotYetActive, NoPortfolio})
  {
    hide TotalValue, Priced, Shown, ByRank, Live, SortByProfit, Entries;
    MembershipIs(board, t, viewer);
    if exists member :: member in board.members && member.tid == t && member.user !in st.points {
      var member :| member in board.members && member.tid == t && member.user !in st.points;
      var i :| 0 <= i < |board.members| && board.members[i] == member;
      assert !AllFunded(board.members, st, t);
    }
  }

  lemma MembershipIs(board: Board, t: TournamentId, user: UserId)
    ensures IsMember(board, t, user)
            <==> exists member :: member in board.members && member.tid == t && member.user == user
  {
    if exists member :: member in board.members && member.tid == t && member.user == user {
      var member :| member in board.members && member.tid == t && member.user == user;
      var i :| 0 <= i < |board.members| && board.members[i] == member;
    }
  }

  ghost predicate HasStanding(rows: seq<Standing>, user: UserId) {
    exists k :: 0 <= k < |rows| && rows[k].user == user
  }

  /** A live leaderboard ranks every member once, by what the portfolio is worth now. */
  lemma LiveBoardRanksEveryMember(m: Maths, board: Board, st: State, t: TournamentId, viewer: UserId)
    requires Priced(st.markets) && Inv(board) && Standings(m, board, st, t, viewer).Done?
    requires board.tournaments[t].status == Active
    ensures var rows := Standings(m, board, st, t, viewer).value;
            && (forall i, j :: 0 <= i < j < |rows| ==> rows[i].user != rows[j].user && rows[i].profit >= rows[j].profit)
            && (forall i :: 0 <= i < |rows| ==>
                  && rows[i].rank == i + 1 && rows[i].user in st.points
                  && rows[i].total == TotalValue(m, st, rows[i].user)
                  && rows[i].profit == rows[i].total - rows[i].starting
                  && Member(t, rows[i].user, rows[i].starting) in board.members)
            && (forall member :: member in board.members && member.tid == t ==> HasStanding(rows, member.user))
  {
    hide Priced, TotalValue, Entries, SortByProfit;
    var values := CurrentValues(m, st);
    var sorted := SortByProfit(Entries(values, board.members, t));
    RankingIsRight(values, board.members, t);
    var rows := Live(sorted);
    forall i | 0 <= i < |rows|
      ensures rows[i].user in st.points && rows[i].total == TotalValue(m, st, rows[i].user)
      ensures Member(t, rows[i].user, rows[i].starting) in board.members
    {
      assert EntryOf(values, board.members, t, sorted[i]);
    }
    forall member | member in board.members && member.tid == t ensures HasStanding(rows, member.user) {
      assert HasEntry(sorted, member);
      var k :| 0 <= k < |sorted| && sorted[k].member == member;
      assert rows[k].user == member.user;
    }
  }

  ghost function OpenPositions(m: Maths, st: State, user: UserId): real
    requires Priced(st.markets)
  {
    |Refunds6(m, st, user).Keys| as real
  }

  ghost function LiveProfit(m: Maths, st: State, member: Member): real
    requires Priced(st.markets) && member.user in st.points
  {
    TotalValue(m, st, member.user) - member.starting
  }

  /** The freeze does not overturn a clear lead: if one member is ahead of another on the
      live board by more than the two valuations can disagree, the freeze at that moment
      ranks it higher. */
  lemma FreezeKeepsClearLeads(m: Maths, board: Board, st: State, t: TournamentId, a: Member, b: Member, i: nat, j: nat)
    requires Priced(st.markets) && MembersDistinct(board.members)
    requires a in board.members && b in board.members && a.tid == t && b.tid == t
    requires a.user in st.points && b.user in st.points
    requires LiveProfit(m, st, a) - LiveProfit(m, st, b)
             > (OpenPositions(m, st, a.user) + OpenPositions(m, st, b.user)) * 0.0000505 + 0.0001
    requires var rows := FinalRanking(m, board.members, st, t);
             i < |rows| && j < |rows| && rows[i].user == a.user && rows[j].user == b.user
    ensures i < j
  {
    hide Priced, TotalValue, MemberValue, Refunds6, FinalRanking;
    var rows := FinalRanking(m, board.members, st, t);
    BatchRefinesSimple(m, st, a.user);
    BatchRefinesSimple(m, st, b.user);
    FinalRankingIsRight(m, board, st, t);
    assert RowOf(m, board.members, st, t, rows[i]) && RowOf(m, board.members, st, t, rows[j]);
    OneMember(board.members, a, Member(t, rows[i].user, rows[i].starting));
    OneMember(board.members, b, Member(t, rows[j].user, rows[j].starting));
    assert rows[i].total - rows[i].starting > rows[j].total - rows[j].starting;
  }

  lemma OneMember(members: seq<Member>, a: Member, b: Member)
    requires MembersDistinct(members) && a in members && b in members && a.tid == b.tid && a.user == b.user
    ensures a == b
  {
    var i :| 0 <= i < |members| && members[i] == a;
    var j :| 0 <= j < |members| && members[j] == b;
    assert i == j || i < j || j < i;
  }
}

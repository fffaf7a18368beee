/** Tournaments: joining, activation, freezing and the leaderboard, over all runs, while the
    trading state underneath changes arbitrarily between steps. */
module Tournament {
  import opened ExpLn
  import opened Decimals
  import opened Trading
  import opened Valuation

  datatype TournamentId = TournamentId(id: int)
  datatype Status = Pending | Active | Completed
  datatype Tournament = Tournament(status: Status, createdBy: UserId, startTime: int, endTime: int)
  datatype Member = Member(tid: TournamentId, user: UserId, starting: real)
  datatype Entry = Entry(member: Member, total: real) {
    function Profit(): real { total - member.starting }
  }
  datatype Snapshot = Snapshot(user: UserId, rank: nat, total: real, starting: real, profit: int)

  datatype Board = Board(
    tournaments: map<TournamentId, Tournament>,
    members: seq<Member>,
    snapshots: map<TournamentId, seq<Snapshot>>)

  datatype BoardError = NotFound | InvalidCode | OwnTournament | AlreadyMember | NoPortfolio | TooMany | BadTimes
    | NotAMember | NotYetActive
  datatype Outcome<+T> = Done(value: T) | Refused(error: BoardError)

  // ---- Ranking ----

  /** Stable insertion into a list in non-increasing order of profit. */
  function Insert(e: Entry, sorted: seq<Entry>): seq<Entry> {
    if sorted == [] || sorted[0].Profit() <= e.Profit() then [e] + sorted
    else [sorted[0]] + Insert(e, sorted[1..])
  }

  /** The descending sort by profit. */
  function SortByProfit(entries: seq<Entry>): seq<Entry> {
    if entries == [] then [] else Insert(entries[0], SortByProfit(entries[1..]))
  }

  ghost predicate Descending(entries: seq<Entry>) {
    forall i, j :: 0 <= i < j < |entries| ==> entries[i].Profit() >= entries[j].Profit()
  }

  lemma {:induction false} InsertPermutes(e: Entry, sorted: seq<Entry>)
    ensures multiset(Insert(e, sorted)) == multiset(sorted) + multiset{e}
    ensures forall x :: x in Insert(e, sorted) <==> x in sorted || x == e
  {
    if sorted == [] || sorted[0].Profit() <= e.Profit() {
    } else {
      InsertPermutes(e, sorted[1..]);
      assert sorted == [sorted[0]] + sorted[1..];
    }
  }

  lemma {:induction false} InsertSorts(e: Entry, sorted: seq<Entry>)
    requires Descending(sorted)
    ensures Descending(Insert(e, sorted))
  {
    if sorted == [] || sorted[0].Profit() <= e.Profit() {
    } else {
      var first, rest := sorted[0], sorted[1..];
      InsertSorts(e, rest);
      InsertPermutes(e, rest);
      forall x | x in rest ensures x.Profit() <= first.Profit() {
        var k :| 0 <= k < |rest| && rest[k] == x;
        assert sorted[k + 1] == x;
      }
      PrependSorts(first, Insert(e, rest));
    }
  }

  lemma PrependSorts(first: Entry, rest: seq<Entry>)
    requires Descending(rest) && forall x :: x in rest ==> x.Profit() <= first.Profit()
    ensures Descending([first] + rest)
  {
    var all := [first] + rest;
    forall i, j | 0 <= i < j < |all| ensures all[i].Profit() >= all[j].Profit() {
      assert all[j] == rest[j - 1];
    }
  }

  lemma {:induction false} SortSorts(entries: seq<Entry>)
    ensures Descending(SortByProfit(entries))
    ensures multiset(SortByProfit(entries)) == multiset(entries)
  {
    if entries != [] {
      SortSorts(entries[1..]);
      InsertSorts(entries[0], SortByProfit(entries[1..]));
      InsertPermutes(entries[0], SortByProfit(entries[1..]));
      assert entries == [entries[0]] + entries[1..];
    }
  }

  /** The entries of one profit, in list order. */
  ghost function Tied(entries: seq<Entry>, profit: real): seq<Entry> {
    if entries == [] then []
    else (if entries[0].Profit() == profit then [entries[0]] else []) + Tied(entries[1..], profit)
  }

  lemma {:induction false} InsertIsStable(e: Entry, sorted: seq<Entry>, profit: real)
    requires Descending(sorted)
    ensures Tied(Insert(e, sorted), profit) == (if e.Profit() == profit then [e] else []) + Tied(sorted, profit)
  {
    if sorted == [] || sorted[0].Profit() <= e.Profit() {
      TiedCons(e, sorted, profit);
    } else {
      var first, rest := sorted[0], sorted[1..];
      InsertIsStable(e, rest, profit);
      TiedCons(first, Insert(e, rest), profit);
      TiedCons(first, rest, profit);
      assert sorted == [first] + rest;
      hide Tied;
      assert first.Profit() != profit || e.Profit() != profit;
    }
  }

  lemma TiedCons(e: Entry, rest: seq<Entry>, profit: real)
    ensures Tied([e] + rest, profit) == (if e.Profit() == profit then [e] else []) + Tied(rest, profit)
  {
    assert ([e] + rest)[1..] == rest;
  }

  /** The sort is stable: entries with equal profits keep the order they came in. */
  lemma {:induction false} SortIsStable(entries: seq<Entry>, profit: real)
    ensures Tied(SortByProfit(entries), profit) == Tied(entries, profit)
  {
    if entries != [] {
      SortIsStable(entries[1..], profit);
      SortSorts(entries[1..]);
      InsertIsStable(entries[0], SortByProfit(entries[1..]), profit);
    }
  }

  // ---- The steps on values ----

  predicate DueToStart(t: Tournament, now: int) { t.status == Pending && t.startTime <= now }

  predicate DueToEnd(t: Tournament, now: int) { t.status == Active && t.endTime <= now }

  ghost function ActivatedMember(m: Maths, board: Board, st: State, now: int, member: Member): Member
    requires Priced(st.markets)
  {
    if member.tid in board.tournaments && DueToStart(board.tournaments[member.tid], now) && member.user in st.points
    then member.(starting := MemberValue(m, st, member.user))
    else member
  }

  /** Activation: due tournaments become active and their members' current values are locked
      in; a member without a portfolio keeps the placeholder. */
  ghost function Activated(m: Maths, board: Board, st: State, now: int): Board
    requires Priced(st.markets)
  {
    Board(map t | t in board.tournaments ::
            (if DueToStart(board.tournaments[t], now)
             then board.tournaments[t].(status := Active) else board.tournaments[t]),
          seq(|board.members|, i requires 0 <= i < |board.members| => ActivatedMember(m, board, st, now, board.members[i])),
          board.snapshots)
  }

  /** The batch value of every user who has a portfolio. */
  ghost function FinalValues(m: Maths, st: State): map<UserId, real>
    requires Priced(st.markets)
  {
    map user | user in st.points :: MemberValue(m, st, user)
  }

  function ValueOf(values: map<UserId, real>, user: UserId): real {
    if user in values then values[user] else 0.0
  }

  function Entries(values: map<UserId, real>, members: seq<Member>, t: TournamentId): seq<Entry> {
    if members == [] then []
    else
      var last := members[|members| - 1];
      Entries(values, members[..|members| - 1], t)
      + (if last.tid == t then [Entry(last, ValueOf(values, last.user))] else [])
  }

  function Ranked(sorted: seq<Entry>): seq<Snapshot> {
    seq(|sorted|, i requires 0 <= i < |sorted| =>
      Snapshot(sorted[i].member.user, i + 1, sorted[i].total, sorted[i].member.starting, D4(sorted[i].Profit())))
  }

  function SnapshotsOf(snapshots: map<TournamentId, seq<Snapshot>>, t: TournamentId): seq<Snapshot> {
    if t in snapshots then snapshots[t] else []
  }

  ghost function FinalRanking(m: Maths, members: seq<Member>, st: State, t: TournamentId): seq<Snapshot>
    requires Priced(st.markets)
  {
    Ranked(SortByProfit(Entries(FinalValues(m, st), members, t)))
  }

  /** Freezing: due tournaments get one ranked snapshot row per member and are completed. */
  ghost function Frozen(m: Maths, board: Board, st: State, now: int): Board
    requires Priced(st.markets)
  {
    Board(map t | t in board.tournaments ::
            (if DueToEnd(board.tournaments[t], now)
             then board.tournaments[t].(status := Completed) else board.tournaments[t]),
          board.members,
          map t | t in board.snapshots.Keys + (set t | t in board.tournaments && DueToEnd(board.tournaments[t], now)) ::
            SnapshotsOf(board.snapshots, t)
            + (if t in board.tournaments && DueToEnd(board.tournaments[t], now) then FinalRanking(m, board.members, st, t) else []))
  }

  /** The tables while the freeze loop still has the due tournaments in `todo` ahead. */
  ghost function PartlyFrozen(m: Maths, board: Board, st: State, due: set<TournamentId>, todo: set<TournamentId>): Board
    requires Priced(st.markets)
  {
    Board(map t | t in board.tournaments ::
            (if t in due - todo then board.tournaments[t].(status := Completed) else board.tournaments[t]),
          board.members,
          map t | t in board.snapshots.Keys + (due - todo) ::
            SnapshotsOf(board.snapshots, t) + (if t in due - todo then FinalRanking(m, board.members, st, t) else []))
  }

  lemma FreezeOne(m: Maths, board: Board, st: State, due: set<TournamentId>, todo: set<TournamentId>, t: TournamentId)
    requires Priced(st.markets) && todo <= due <= board.tournaments.Keys && t in todo
    ensures var before, after := PartlyFrozen(m, board, st, due, todo), PartlyFrozen(m, board, st, due, todo - {t});
            && t in before.tournaments
            && after == Board(before.tournaments[t := before.tournaments[t].(status := Completed)],
                              before.members,
                              before.snapshots[t := SnapshotsOf(before.snapshots, t) + FinalRanking(m, board.members, st, t)])
  {
    hide FinalRanking, Priced;
    var before, after := PartlyFrozen(m, board, st, due, todo), PartlyFrozen(m, board, st, due, todo - {t});
    assert due - (todo - {t}) == (due - todo) + {t};
    assert SnapshotsOf(before.snapshots, t) == SnapshotsOf(board.snapshots, t) + [];
    assert SnapshotsOf(before.snapshots, t) == SnapshotsOf(board.snapshots, t);
    assert after.tournaments == before.tournaments[t := before.tournaments[t].(status := Completed)];
    assert after.snapshots.Keys == before.snapshots.Keys + {t};
  }

  lemma FreezeEnds(m: Maths, board: Board, st: State, now: int, due: set<TournamentId>)
    requires Priced(st.markets)
    requires due == set t | t in board.tournaments && DueToEnd(board.tournaments[t], now)
    ensures PartlyFrozen(m, board, st, due, due) == board
    ensures PartlyFrozen(m, board, st, due, {}) == Frozen(m, board, st, now)
  {
    hide FinalRanking, Priced;
    var none := PartlyFrozen(m, board, st, due, due);
    assert due - due == {};
    assert none.tournaments == board.tournaments;
    assert none.snapshots.Keys == board.snapshots.Keys;
    forall t | t in board.snapshots ensures none.snapshots[t] == board.snapshots[t] {
      assert none.snapshots[t] == board.snapshots[t] + [];
    }
    assert none.snapshots == board.snapshots;
    assert due - {} == due;
    assert PartlyFrozen(m, board, st, due, {}).tournaments == Frozen(m, board, st, now).tournaments;
    assert PartlyFrozen(m, board, st, due, {}).snapshots == Frozen(m, board, st, now).snapshots;
  }

  ghost predicate IsMember(board: Board, t: TournamentId, user: UserId) {
    exists i :: 0 <= i < |board.members| && board.members[i].tid == t && board.members[i].user == user
  }

  /** Both join endpoints, after the lookup; joining by code always matches.  A member of an
      active tournament starts at the current total value, any other at 0. */
  ghost function Join(m: Maths, board: Board, st: State, t: TournamentId, user: UserId, codeMatches: bool): Outcome<Board>
    requires Priced(st.markets)
  {
    if t !in board.tournaments then Refused(NotFound)
    else if !codeMatches then Refused(InvalidCode)
    else if board.tournaments[t].createdBy == user then Refused(OwnTournament)
    else if IsMember(board, t, user) then Refused(AlreadyMember)
    else if board.tournaments[t].status == Active then
      if user !in st.points then Refused(NoPortfolio)
      else Done(board.(members := board.members + [Member(t, user, TotalValue(m, st, user))]))
    else Done(board.(members := board.members + [Member(t, user, 0.0)]))
  }

  ghost function OpenOf(board: Board, user: UserId): set<TournamentId> {
    set t | t in board.tournaments && board.tournaments[t].createdBy == user && board.tournaments[t].status != Completed
  }

  ghost function Create(board: Board, t: TournamentId, user: UserId, startTime: int, endTime: int): Outcome<Board>
    requires t !in board.tournaments
  {
    if |OpenOf(board, user)| >= 10 then Refused(TooMany)
    else if endTime <= startTime then Refused(BadTimes)
    else Done(board.(tournaments := board.tournaments[t := Tournament(Pending, user, startTime, endTime)]))
  }

  datatype BoardEvent =
    | CreateOne(t: TournamentId, user: UserId, startTime: int, endTime: int)
    | JoinOne(st: State, t: TournamentId, user: UserId, codeMatches: bool)
    | ActivateDue(st: State, now: int)
    | FreezeDue(st: State, now: int)

  ghost function Settle(board: Board, r: Outcome<Board>): Board {
    if r.Done? then r.value else board
  }

  /** One step, over whatever the trading state is at that time. */
  ghost function BoardStep(m: Maths, board: Board, e: BoardEvent): Board {
    match e
    case CreateOne(t, user, startTime, endTime) =>
      if t in board.tournaments then board else Settle(board, Create(board, t, user, startTime, endTime))
    case JoinOne(st, t, user, codeMatches) =>
      if Priced(st.markets) then Settle(board, Join(m, board, st, t, user, codeMatches)) else board
    case ActivateDue(st, now) => if Priced(st.markets) then Activated(m, board, st, now) else board
    case FreezeDue(st, now) => if Priced(st.markets) then Frozen(m, board, st, now) else board
  }

  ghost function BoardRun(m: Maths, board: Board, events: seq<BoardEvent>): Board
    decreases |events|
  {
    if events == [] then board else BoardRun(m, BoardStep(m, board, events[0]), events[1..])
  }

  const EMPTY_BOARD := Board(map[], [], map[])

  // ---- Invariant ----

  ghost predicate MembersDistinct(members: seq<Member>) {
    forall i, j :: 0 <= i < j < |members| ==> members[i].tid != members[j].tid || members[i].user != members[j].user
  }

  /** Members are unique per tournament and belong to existing tournaments; only completed
      tournaments have snapshots. */
  ghost predicate Inv(board: Board) {
    && MembersDistinct(board.members)
    && (forall i :: 0 <= i < |board.members| ==> board.members[i].tid in board.tournaments)
    && (forall t :: t in board.snapshots ==> t in board.tournaments && board.tournaments[t].status == Completed)
    && (forall t :: t in board.tournaments && board.tournaments[t].status == Completed ==> t in board.snapshots)
  }

  lemma StepKeepsInv(m: Maths, board: Board, e: BoardEvent)
    requires Inv(board)
    ensures Inv(BoardStep(m, board, e))
  {
    hide TotalValue, MemberValue, FinalRanking, Priced;
  }

  // ---- What a step may change ----

  function Rank(s: Status): nat {
    match s
    case Pending => 0
    case Active => 1
    case Completed => 2
  }

  /** Statuses only advance, one stage at a time per step or more over runs; a tournament's
      other data are fixed; members are never dropped or reordered, and the starting value
      of a member of a tournament that has started never changes; the snapshots of a
      completed tournament never change. */
  ghost predicate Advances(board: Board, later: Board) {
    && (forall t :: t in board.tournaments ==>
          && t in later.tournaments
          && Rank(board.tournaments[t].status) <= Rank(later.tournaments[t].status)
          && later.tournaments[t] == board.tournaments[t].(status := later.tournaments[t].status))
    && |board.members| <= |later.members|
    && (forall i :: 0 <= i < |board.members| ==> MemberKept(board, later, i))
    && (forall t :: t in board.tournaments && board.tournaments[t].status == Completed ==>
          SnapshotsOf(later.snapshots, t) == SnapshotsOf(board.snapshots, t))
  }

  ghost predicate MemberKept(board: Board, later: Board, i: nat)
    requires i < |board.members| <= |later.members|
  {
    var member := board.members[i];
    && later.members[i] == member.(starting := later.members[i].starting)
    && (member.tid in board.tournaments && board.tournaments[member.tid].status != Pending ==> later.members[i] == member)
  }

  lemma ActivationAdvances(m: Maths, board: Board, st: State, now: int)
    requires Priced(st.markets)
    ensures Advances(board, Activated(m, board, st, now))
  {
    hide MemberValue, Priced;
    var later := Activated(m, board, st, now);
    forall i | 0 <= i < |board.members| ensures MemberKept(board, later, i) {
      assert later.members[i] == ActivatedMember(m, board, st, now, board.members[i]);
    }
  }

  lemma FreezeAdvances(m: Maths, board: Board, st: State, now: int)
    requires Priced(st.markets)
    ensures Advances(board, Frozen(m, board, st, now))
  {
    hide FinalRanking, Priced;
    var later := Frozen(m, board, st, now);
    forall i | 0 <= i < |board.members| ensures MemberKept(board, later, i) {
    }
    forall t | t in board.tournaments && board.tournaments[t].status == Completed
      ensures SnapshotsOf(later.snapshots, t) == SnapshotsOf(board.snapshots, t)
    {
      assert !DueToEnd(board.tournaments[t], now);
      assert t in board.snapshots ==> later.snapshots[t] == board.snapshots[t] + [];
    }
  }

  lemma GrowthAdvances(board: Board, tournaments: map<TournamentId, Tournament>, joined: seq<Member>)
    requires forall t :: t in board.tournaments ==> t in tournaments && tournaments[t] == board.tournaments[t]
    ensures Advances(board, Board(tournaments, board.members + joined, board.snapshots))
  {
    var later := Board(tournaments, board.members + joined, board.snapshots);
    forall i | 0 <= i < |board.members| ensures MemberKept(board, later, i) {
    }
  }

  lemma StepAdvances(m: Maths, board: Board, e: BoardEvent)
    requires Inv(board)
    ensures Advances(board, BoardStep(m, board, e))
  {
    hide TotalValue, Activated, Frozen, Advances, Priced;
    assert board.members + [] == board.members;
    match e
    case CreateOne(t, user, startTime, endTime) =>
      GrowthAdvances(board, board.tournaments, []);
      if t !in board.tournaments {
        GrowthAdvances(board, board.tournaments[t := Tournament(Pending, user, startTime, endTime)], []);
      }
    case JoinOne(st, t, user, codeMatches) =>
      var later := BoardStep(m, board, e);
      GrowthAdvances(board, board.tournaments, []);
      if later != board {
        GrowthAdvances(board, board.tournaments, [later.members[|later.members| - 1]]);
      }
    case ActivateDue(st, now) =>
      GrowthAdvances(board, board.tournaments, []);
      if Priced(st.markets) {
        ActivationAdvances(m, board, st, now);
      }
    case FreezeDue(st, now) =>
      GrowthAdvances(board, board.tournaments, []);
      if Priced(st.markets) {
        FreezeAdvances(m, board, st, now);
      }
  }

  /** One step moves a tournament by at most one stage, and only when its time has come. */
  lemma StepByStep(m: Maths, board: Board, e: BoardEvent, t: TournamentId)
    requires t in board.tournaments
    ensures t in BoardStep(m, board, e).tournaments
    ensures var before, after := board.tournaments[t].status, BoardStep(m, board, e).tournaments[t].status;
            before != after ==>
              || (before == Pending && after == Active && e.ActivateDue? && board.tournaments[t].startTime <= e.now)
              || (before == Active && after == Completed && e.FreezeDue? && board.tournaments[t].endTime <= e.now)
  {
    hide TotalValue, MemberValue, FinalRanking, Priced;
  }

  lemma AdvancesCompose(a: Board, b: Board, c: Board)
    requires Inv(a) && Advances(a, b) && Advances(b, c)
    ensures Advances(a, c)
  {
    forall i | 0 <= i < |a.members| ensures MemberKept(a, c, i) {
      assert MemberKept(a, b, i) && MemberKept(b, c, i);
    }
  }

  /** The lifecycle over every run: what has started stays started, starting values are
      locked, and a completed tournament's standings are final. */
  lemma {:induction false} LifecycleHolds(m: Maths, board: Board, events: seq<BoardEvent>)
    requires Inv(board)
    ensures Inv(BoardRun(m, board, events))
    ensures Advances(board, BoardRun(m, board, events))
    decreases |events|
  {
    if events == [] {
      forall i | 0 <= i < |board.members| ensures MemberKept(board, board, i) {
      }
    } else {
      var next := BoardStep(m, board, events[0]);
      StepKeepsInv(m, board, events[0]);
      StepAdvances(m, board, events[0]);
      LifecycleHolds(m, next, events[1..]);
      AdvancesCompose(board, next, BoardRun(m, board, events));
    }
  }

  lemma ReachableBoards(m: Maths, events: seq<BoardEvent>)
    ensures Inv(EMPTY_BOARD) && Inv(BoardRun(m, EMPTY_BOARD, events))
  {
    LifecycleHolds(m, EMPTY_BOARD, events);
  }

  // ---- The final ranking ----

  ghost predicate EntryOf(values: map<UserId, real>, members: seq<Member>, t: TournamentId, e: Entry) {
    e.member in members && e.member.tid == t && e.total == ValueOf(values, e.member.user)
  }

  ghost predicate UsersDistinct(entries: seq<Entry>) {
    forall k, l :: 0 <= k < l < |entries| ==> entries[k].member.user != entries[l].member.user
  }

  lemma {:induction false} EntriesSound(values: map<UserId, real>, members: seq<Member>, t: TournamentId)
    ensures forall e :: e in Entries(values, members, t) ==> EntryOf(values, members, t, e)
  {
    if members != [] {
      var front, last := members[..|members| - 1], members[|members| - 1];
      EntriesSound(values, front, t);
      assert members == front + [last];
    }
  }

  lemma {:induction false} EntriesComplete(values: map<UserId, real>, members: seq<Member>, t: TournamentId,
                                           member: Member)
    requires member in members && member.tid == t
    ensures Entry(member, ValueOf(values, member.user)) in Entries(values, members, t)
  {
    var front, last := members[..|members| - 1], members[|members| - 1];
    assert members == front + [last];
    if member != last {
      EntriesComplete(values, front, t, member);
    }
  }

  lemma {:induction false} EntriesDistinct(values: map<UserId, real>, members: seq<Member>, t: TournamentId)
    requires MembersDistinct(members)
    ensures UsersDistinct(Entries(values, members, t))
  {
    if members != [] {
      var n := |members| - 1;
      var front, last := members[..n], members[n];
      EntriesDistinct(values, front, t);
      EntriesSound(values, front, t);
      forall e | e in Entries(values, front, t) && last.tid == t ensures e.member.user != last.user {
        assert EntryOf(values, front, t, e);
        var i :| 0 <= i < n && front[i] == e.member;
        assert members[i] == e.member;
      }
    }
  }

  /** Sorting keeps distinct users distinct. */
  lemma {:induction false} SortKeepsUsers(entries: seq<Entry>)
    requires UsersDistinct(entries)
    ensures UsersDistinct(SortByProfit(entries))
  {
    if entries != [] {
      var rest := entries[1..];
      SortKeepsUsers(rest);
      SortSorts(rest);
      forall x | x in SortByProfit(rest) ensures x.member.user != entries[0].member.user {
        assert x in multiset(SortByProfit(rest));
        assert x in multiset(rest);
        var k :| 0 <= k < |rest| && rest[k] == x;
        assert entries[k + 1] == x;
      }
      InsertKeepsUsers(entries[0], SortByProfit(rest));
    }
  }

  lemma {:induction false} InsertKeepsUsers(e: Entry, sorted: seq<Entry>)
    requires UsersDistinct(sorted) && forall x :: x in sorted ==> x.member.user != e.member.user
    ensures UsersDistinct(Insert(e, sorted))
    ensures forall x :: x in Insert(e, sorted) <==> x in sorted || x == e
  {
    if sorted == [] || sorted[0].Profit() <= e.Profit() {
    } else {
      var rest := sorted[1..];
      assert forall x :: x in rest ==> x in sorted;
      InsertKeepsUsers(e, rest);
      forall x | x in rest ensures x.member.user != sorted[0].member.user {
        var k :| 0 <= k < |rest| && rest[k] == x;
        assert sorted[k + 1] == x;
      }
      assert sorted == [sorted[0]] + rest;
    }
  }

  /** Ranks 1..n over distinct users; profits, before and after rounding to 4 decimals,
      non-increasing. */
  ghost predicate Ranking(rows: seq<Snapshot>) {
    && (forall i :: 0 <= i < |rows| ==> rows[i].rank == i + 1 && rows[i].profit == D4(rows[i].total - rows[i].starting))
    && (forall i, j :: 0 <= i < j < |rows| ==>
          && rows[i].user != rows[j].user
          && rows[i].total - rows[i].starting >= rows[j].total - rows[j].starting
          && rows[i].profit >= rows[j].profit)
  }

  lemma RankedIsRanking(sorted: seq<Entry>)
    requires Descending(sorted) && UsersDistinct(sorted)
    ensures Ranking(Ranked(sorted))
  {
    hide D4;
    var rows := Ranked(sorted);
    forall i, j | 0 <= i < j < |rows| ensures rows[i].profit >= rows[j].profit {
      D4Mono(sorted[j].Profit(), sorted[i].Profit());
    }
  }

  /** The entries of a tournament in ranking order: one per member, no other user, each with
      its own value. */
  ghost predicate SortedEntries(values: map<UserId, real>, members: seq<Member>, t: TournamentId, sorted: seq<Entry>) {
    && Descending(sorted) && UsersDistinct(sorted)
    && (forall e :: e in sorted ==> EntryOf(values, members, t, e))
    && (forall member :: member in members && member.tid == t ==> HasEntry(sorted, member))
  }

  ghost predicate HasEntry(sorted: seq<Entry>, member: Member) {
    exists k :: 0 <= k < |sorted| && sorted[k].member == member
  }

  lemma SortKeepsEntries(entries: seq<Entry>)
    ensures forall e :: e in SortByProfit(entries) <==> e in entries
  {
    SortSorts(entries);
    forall e ensures e in SortByProfit(entries) <==> e in entries {
      assert e in SortByProfit(entries) <==> e in multiset(SortByProfit(entries));
      assert e in entries <==> e in multiset(entries);
    }
  }

  lemma RankingIsRight(values: map<UserId, real>, members: seq<Member>, t: TournamentId)
    requires MembersDistinct(members)
    ensures SortedEntries(values, members, t, SortByProfit(Entries(values, members, t)))
  {
    hide EntryOf, SortByProfit, Entries;
    var entries := Entries(values, members, t);
    var sorted := SortByProfit(entries);
    EntriesSound(values, members, t);
    EntriesDistinct(values, members, t);
    SortSorts(entries);
    SortKeepsUsers(entries);
    SortKeepsEntries(entries);
    forall member | member in members && member.tid == t ensures HasEntry(sorted, member) {
      var e := Entry(member, ValueOf(values, member.user));
      EntriesComplete(values, members, t, member);
      assert e in sorted;
      var k :| 0 <= k < |sorted| && sorted[k] == e;
      assert sorted[k].member == member;
    }
  }

  /** The row carries the user's final value and locked starting value. */
  ghost predicate RowOf(m: Maths, members: seq<Member>, st: State, t: TournamentId, row: Snapshot)
    requires Priced(st.markets)
  {
    Member(t, row.user, row.starting) in members && row.total == ValueOf(FinalValues(m, st), row.user)
  }

  ghost predicate HasRow(rows: seq<Snapshot>, user: UserId) {
    exists k :: 0 <= k < |rows| && rows[k].user == user
  }

  lemma FinalRankingIsRight(m: Maths, board: Board, st: State, t: TournamentId)
    requires Priced(st.markets) && MembersDistinct(board.members)
    ensures var rows := FinalRanking(m, board.members, st, t);
            && Ranking(rows)
            && (forall i :: 0 <= i < |rows| ==> RowOf(m, board.members, st, t, rows[i]))
            && (forall member :: member in board.members && member.tid == t ==> HasRow(rows, member.user))
  {
    hide FinalValues, Priced, D4, Ranking, Entries, SortByProfit;
    var values := FinalValues(m, st);
    var sorted := SortByProfit(Entries(values, board.members, t));
    RankingIsRight(values, board.members, t);
    RankedIsRanking(sorted);
    var rows := Ranked(sorted);
    forall i | 0 <= i < |rows| ensures RowOf(m, board.members, st, t, rows[i]) {
      assert EntryOf(values, board.members, t, sorted[i]);
    }
    forall member | member in board.members && member.tid == t ensures HasRow(rows, member.user) {
      assert HasEntry(sorted, member);
      var k :| 0 <= k < |sorted| && sorted[k].member == member;
      assert rows[k].user == member.user;
    }
  }

  /** The standings a freeze writes: one row per member of the tournament and no other user,
      in ranking order. */
  lemma FreezeRanksEveryMemberOnce(m: Maths, board: Board, st: State, now: int, t: TournamentId)
    requires Priced(st.markets) && Inv(board)
    requires t in board.tournaments && DueToEnd(board.tournaments[t], now)
    ensures t in Frozen(m, board, st, now).snapshots
    ensures var rows := Frozen(m, board, st, now).snapshots[t];
            && Ranking(rows)
            && (forall i :: 0 <= i < |rows| ==> RowOf(m, board.members, st, t, rows[i]))
            && (forall member :: member in board.members && member.tid == t ==> HasRow(rows, member.user))
  {
    hide Priced, Ranking, RowOf, FinalRanking;
    FinalRankingIsRight(m, board, st, t);
    FrozenAt(m, board, st, now, t);
  }

  /** Standings, once written, are what every later leaderboard shows: no run of joins,
      activations, trades and freezes changes them. */
  lemma StandingsAreFinal(m: Maths, board: Board, st: State, now: int, t: TournamentId, events: seq<BoardEvent>)
    requires Priced(st.markets) && Inv(board)
    requires t in board.tournaments && DueToEnd(board.tournaments[t], now)
    ensures var frozen := Frozen(m, board, st, now);
            var end := BoardRun(m, frozen, events);
            && t in end.tournaments && end.tournaments[t].status == Completed
            && SnapshotsOf(end.snapshots, t) == FinalRanking(m, board.members, st, t)
  {
    hide FinalRanking, Priced, Frozen, Inv, MemberKept;
    StepKeepsInv(m, board, FreezeDue(st, now));
    FrozenAt(m, board, st, now, t);
    LifecycleHolds(m, Frozen(m, board, st, now), events);
  }

  lemma FrozenAt(m: Maths, board: Board, st: State, now: int, t: TournamentId)
    requires Priced(st.markets) && Inv(board)
    requires t in board.tournaments && DueToEnd(board.tournaments[t], now)
    ensures var frozen := Frozen(m, board, st, now);
            && t in frozen.tournaments && frozen.tournaments[t].status == Completed
            && t in frozen.snapshots && frozen.snapshots[t] == FinalRanking(m, board.members, st, t)
  {
    hide FinalRanking, Priced;
    assert t !in board.snapshots;
    assert Frozen(m, board, st, now).snapshots[t] == [] + FinalRanking(m, board.members, st, t);
  }

  /** A value locked at activation is still there after any run. */
  lemma LockedAtStart(m: Maths, board: Board, st: State, now: int, i: nat, events: seq<BoardEvent>)
    requires Inv(board) && Priced(st.markets) && i < |board.members|
    requires DueToStart(board.tournaments[board.members[i].tid], now) && board.members[i].user in st.points
    ensures var mid := BoardRun(m, Activated(m, board, st, now), events);
            && Inv(mid) && i < |mid.members|
            && mid.members[i] == board.members[i].(starting := MemberValue(m, st, board.members[i].user))
  {
    hide MemberValue, Priced, FinalRanking;
    var active := Activated(m, board, st, now);
    StepKeepsInv(m, board, ActivateDue(st, now));
    LifecycleHolds(m, active, events);
    assert active.members[i] == ActivatedMember(m, board, st, now, board.members[i]);
    assert MemberKept(active, BoardRun(m, active, events), i);
  }

  ghost predicate FinalRow(m: Maths, st: State, member: Member, row: Snapshot)
    requires Priced(st.markets)
  {
    && row.user == member.user && row.starting == member.starting
    && row.total == ValueOf(FinalValues(m, st), member.user)
    && row.profit == D4(ValueOf(FinalValues(m, st), member.user) - member.starting)
  }

  lemma RowAtFreeze(m: Maths, board: Board, st: State, now: int, i: nat)
    requires Inv(board) && Priced(st.markets) && i < |board.members|
    requires DueToEnd(board.tournaments[board.members[i].tid], now)
    ensures board.members[i].tid in Frozen(m, board, st, now).snapshots
    ensures exists row :: row in Frozen(m, board, st, now).snapshots[board.members[i].tid]
                          && FinalRow(m, st, board.members[i], row)
  {
    hide FinalValues, Priced, D4, FinalRanking, Frozen;
    var t, user := board.members[i].tid, board.members[i].user;
    FreezeRanksEveryMemberOnce(m, board, st, now, t);
    var rows := Frozen(m, board, st, now).snapshots[t];
    assert HasRow(rows, user);
    var k :| 0 <= k < |rows| && rows[k].user == user;
    assert RowOf(m, board.members, st, t, rows[k]);
    SameMember(board, i, Member(t, rows[k].user, rows[k].starting));
    assert rows[k] in rows && FinalRow(m, st, board.members[i], rows[k]);
  }

  /** From activation to freeze: whatever is joined, activated or frozen in between, and
      however trading moves, the final row of a member who was there at activation pays the
      value at the freeze minus the value at activation. */
  lemma ProfitSpansTheTournament(m: Maths, board: Board, st1: State, now1: int, i: nat,
                                 events: seq<BoardEvent>, st2: State, now2: int)
    requires Inv(board) && Priced(st1.markets) && Priced(st2.markets) && i < |board.members|
    requires DueToStart(board.tournaments[board.members[i].tid], now1) && board.members[i].user in st1.points
    requires var mid := BoardRun(m, Activated(m, board, st1, now1), events);
             board.members[i].tid in mid.tournaments && DueToEnd(mid.tournaments[board.members[i].tid], now2)
    ensures var mid := BoardRun(m, Activated(m, board, st1, now1), events);
            var t, user := board.members[i].tid, board.members[i].user;
            && t in Frozen(m, mid, st2, now2).snapshots
            && exists row :: row in Frozen(m, mid, st2, now2).snapshots[t]
                 && FinalRow(m, st2, Member(t, user, MemberValue(m, st1, user)), row)
  {
    hide MemberValue, FinalValues, Priced, D4, FinalRanking, Frozen, Activated, Inv, FinalRow;
    LockedAtStart(m, board, st1, now1, i, events);
    RowAtFreeze(m, BoardRun(m, Activated(m, board, st1, now1), events), st2, now2, i);
  }

  lemma SameMember(board: Board, i: nat, other: Member)
    requires Inv(board) && i < |board.members| && other in board.members
    requires other.tid == board.members[i].tid && other.user == board.members[i].user
    ensures other == board.members[i]
  {
    var j :| 0 <= j < |board.members| && board.members[j] == other;
    assert j == i || j < i || i < j;
  }
}

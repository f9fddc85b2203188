/** RankingService: the all-time leaderboard (sort by points, skip, take, positional ranks), the
    weekly and monthly leaderboards over per-user sums of the point history inside a time window,
    the "1 + number of strictly better" ranks, and the monthly top-contributor badge. The store's
    `orderBy ... desc` is a stable sort by a key; which of two tied rows the store lists first is
    not specified, so no property below depends on the order of ties. */
module Ranking {
  import opened Store
  import opened Users
  import opened Badges

  /** One line of a leaderboard. `displayName` is None when the user has none or an empty one. */
  datatype RankingEntry = RankingEntry(
    userId: UserId,
    username: string,
    displayName: Option<string>,
    points: int,
    level: nat,
    rank: nat)

  /** An item with the points a ranking orders it by. */
  datatype Ranked<T> = Ranked(item: T, points: int)

  /** The three ranks of one user. */
  datatype Rankings = Rankings(total: nat, weekly: nat, monthly: nat)

  function Min(a: int, b: int): int
  {
    if a <= b then a else b
  }

  // ---------------------------------------------------------------------------------------------
  // Sorting and paging

  /** `xs` is ordered by points, largest first. */
  ghost predicate Descending<T>(xs: seq<Ranked<T>>)
  {
    forall i, j :: 0 <= i < j < |xs| ==> xs[i].points >= xs[j].points
  }

  /** Insert `x` into `ys` before the first element with no more points. */
  function Insert<T>(x: Ranked<T>, ys: seq<Ranked<T>>): (r: seq<Ranked<T>>)
    ensures |r| == |ys| + 1
    ensures r[0] == x || (ys != [] && r[0] == ys[0])
  {
    if ys == [] || ys[0].points <= x.points then [x] + ys
    else [ys[0]] + Insert(x, ys[1..])
  }

  /** Inserting adds exactly `x`. */
  lemma {:induction false} InsertPermutes<T>(x: Ranked<T>, ys: seq<Ranked<T>>)
    ensures multiset(Insert(x, ys)) == multiset(ys) + multiset{x}
  {
    if ys != [] && ys[0].points > x.points {
      InsertPermutes(x, ys[1..]);
      assert ys == [ys[0]] + ys[1..];
    }
  }

  /** Inserting into a descending sequence keeps it descending. */
  lemma {:induction false} InsertKeepsOrder<T>(x: Ranked<T>, ys: seq<Ranked<T>>)
    requires Descending(ys)
    ensures Descending(Insert(x, ys))
  {
    if ys != [] && ys[0].points > x.points {
      var rest := Insert(x, ys[1..]);
      InsertKeepsOrder(x, ys[1..]);
      assert forall j :: 0 <= j < |rest| ==> rest[j].points <= rest[0].points <= ys[0].points;
    }
  }

  /** `orderBy: { <field>: 'desc' }`: `xs` ordered by points, largest first (a reordering of `xs`,
      as SortPermutes shows). */
  function SortDesc<T>(xs: seq<Ranked<T>>): (r: seq<Ranked<T>>)
    ensures |r| == |xs|
    ensures Descending(r)
  {
    if xs == [] then []
    else
      InsertKeepsOrder(xs[0], SortDesc(xs[1..]));
      Insert(xs[0], SortDesc(xs[1..]))
  }

  /** Sorting only reorders: the same elements, each as often. */
  lemma {:induction false} SortPermutes<T>(xs: seq<Ranked<T>>)
    ensures multiset(SortDesc(xs)) == multiset(xs)
  {
    if xs != [] {
      SortPermutes(xs[1..]);
      InsertPermutes(xs[0], SortDesc(xs[1..]));
      assert xs == [xs[0]] + xs[1..];
    }
  }

  /** In a descending sequence, an element is among the first `len` or has at most the points of
      position `len - 1`. */
  lemma ListedOrBelow<T>(xs: seq<Ranked<T>>, x: Ranked<T>, len: nat)
    requires Descending(xs) && x in xs && 0 < len <= |xs|
    ensures (exists m :: 0 <= m < len && xs[m] == x) || x.points <= xs[len - 1].points
  {
    var m :| 0 <= m < |xs| && xs[m] == x;
  }

  /** `skip: offset, take: limit`. */
  function Page<T>(xs: seq<T>, offset: nat, limit: nat): (r: seq<T>)
    ensures |r| == if offset >= |xs| then 0 else Min(limit, |xs| - offset)
    ensures forall k :: 0 <= k < |r| ==> r[k] == xs[offset + k]
  {
    if offset >= |xs| then [] else xs[offset..offset + Min(limit, |xs| - offset)]
  }

  /** An element of a descending sequence with more points than position `j` sits before `j`. */
  lemma BetterComesFirst<T>(xs: seq<Ranked<T>>, j: nat, x: Ranked<T>)
    requires Descending(xs) && j < |xs|
    requires x in xs && x.points > xs[j].points
    ensures exists k :: 0 <= k < j && xs[k] == x
  {
    var k :| 0 <= k < |xs| && xs[k] == x;
  }

  /** The first `j` positions of a sequence hold at most `j` distinct values. */
  lemma {:induction false} PrefixSize<T>(xs: seq<T>, j: nat)
    requires j <= |xs|
    ensures |set k | 0 <= k < j :: xs[k]| <= j
  {
    if j > 0 {
      PrefixSize(xs, j - 1);
      assert (set k | 0 <= k < j :: xs[k]) == (set k | 0 <= k < j - 1 :: xs[k]) + {xs[j - 1]};
    }
  }

  // ---------------------------------------------------------------------------------------------
  // All-time leaderboard

  /** `displayName || undefined`: an empty display name is dropped like a missing one. */
  function ShownName(displayName: Option<string>): (r: Option<string>)
    ensures r.Some? <==> displayName.Some? && displayName.value != ""
    ensures r.Some? ==> r == displayName
  {
    if displayName == Some("") then None else displayName
  }

  /** A leaderboard line for the user `id`, whose stored record is `u`. */
  function Entry(id: UserId, u: User, points: int, rank: nat): RankingEntry
  {
    RankingEntry(id, u.username, ShownName(u.displayName), points, u.level, rank)
  }

  /** The positions of the users table, each ranked by that row's total points. */
  function ByTotal(rows: seq<User>): (r: seq<Ranked<nat>>)
    ensures |r| == |rows|
    ensures forall k :: 0 <= k < |r| ==> r[k] == Ranked(k, rows[k].totalPoints)
  {
    seq(|rows|, k requires 0 <= k < |rows| => Ranked(k, rows[k].totalPoints))
  }

  /** The positions of the users table sorted by total points, largest first. */
  function TotalStandings(rows: seq<User>): seq<Ranked<nat>>
  {
    SortDesc(ByTotal(rows))
  }

  /** The all-time standings name every row of the table once, each with its own points. */
  lemma SortedByTotal(rows: seq<User>)
    ensures |TotalStandings(rows)| == |rows|
    ensures forall j :: 0 <= j < |TotalStandings(rows)| ==>
      TotalStandings(rows)[j].item < |rows| && TotalStandings(rows)[j].points == rows[TotalStandings(rows)[j].item].totalPoints
    ensures forall n :: 0 <= n < |rows| ==> Ranked(n, rows[n].totalPoints) in TotalStandings(rows)
  {
    var sorted := TotalStandings(rows);
    SortPermutes(ByTotal(rows));
    forall j | 0 <= j < |sorted| ensures sorted[j].item < |rows| && sorted[j].points == rows[sorted[j].item].totalPoints {
      assert sorted[j] in multiset(ByTotal(rows));
    }
    forall n | 0 <= n < |rows| ensures Ranked(n, rows[n].totalPoints) in sorted {
      assert ByTotal(rows)[n] in multiset(sorted);
    }
  }

  /** The lines for a page of the standings, the first ranked `rank`. */
  function Lines(rows: seq<User>, page: seq<Ranked<nat>>, rank: nat): (r: seq<RankingEntry>)
    requires forall k :: 0 <= k < |page| ==> page[k].item < |rows|
    ensures |r| == |page|
    ensures forall k :: 0 <= k < |r| ==>
      r[k] == Entry(rows[page[k].item].id, rows[page[k].item], page[k].points, rank + k)
    decreases |page|
  {
    if page == [] then []
    else
      var u := rows[page[0].item];
      [Entry(u.id, u, page[0].points, rank)] + Lines(rows, page[1..], rank + 1)
  }

  /** getLeaderboard: the users table (`rows`, in storage order) sorted by total points, largest
      first; `offset` rows skipped, at most `limit` kept; each line ranked by its position. */
  function GetLeaderboard(rows: seq<User>, limit: nat, offset: nat): (r: seq<RankingEntry>)
    ensures |r| == if offset >= |rows| then 0 else Min(limit, |rows| - offset)
    ensures forall k :: 0 <= k < |r| ==> r[k].rank == offset + k + 1
  {
    SortedByTotal(rows);
    Lines(rows, Page(TotalStandings(rows), offset, limit), offset + 1)
  }

  /** Line `k` of the all-time leaderboard is the row at position `offset + k` of the standings. */
  lemma LeaderboardLine(rows: seq<User>, limit: nat, offset: nat, k: nat)
    requires k < |GetLeaderboard(rows, limit, offset)|
    ensures offset + k < |TotalStandings(rows)| && TotalStandings(rows)[offset + k].item < |rows|
    ensures var u := rows[TotalStandings(rows)[offset + k].item];
      GetLeaderboard(rows, limit, offset)[k] == Entry(u.id, u, u.totalPoints, offset + k + 1)
  {
    SortedByTotal(rows);
  }

  /** Every line of the all-time leaderboard is a row of the users table with its own total
      points, and points do not increase down the board. */
  lemma LeaderboardLines(rows: seq<User>, limit: nat, offset: nat)
    ensures var r := GetLeaderboard(rows, limit, offset);
      forall k :: 0 <= k < |r| ==> exists u :: u in rows && r[k] == Entry(u.id, u, u.totalPoints, offset + k + 1)
    ensures var r := GetLeaderboard(rows, limit, offset);
      forall i, j :: 0 <= i < j < |r| ==> r[i].points >= r[j].points
  {
    var r := GetLeaderboard(rows, limit, offset);
    var sorted := TotalStandings(rows);
    forall k | 0 <= k < |r| ensures exists u :: u in rows && r[k] == Entry(u.id, u, u.totalPoints, offset + k + 1) {
      LeaderboardLine(rows, limit, offset, k);
    }
    forall i, j | 0 <= i < j < |r| ensures r[i].points >= r[j].points {
      LeaderboardLine(rows, limit, offset, i);
      LeaderboardLine(rows, limit, offset, j);
      assert sorted[offset + i].points >= sorted[offset + j].points;
    }
  }

  /** From the top, nobody is passed over: every row of the table is listed, or has at most the
      points of the last line. */
  lemma LeaderboardCovers(rows: seq<User>, limit: nat)
    requires GetLeaderboard(rows, limit, 0) != []
    ensures var r := GetLeaderboard(rows, limit, 0);
      forall n :: 0 <= n < |rows| ==>
        (exists k :: 0 <= k < |r| && r[k].userId == rows[n].id) || rows[n].totalPoints <= r[|r| - 1].points
  {
    var r := GetLeaderboard(rows, limit, 0);
    var sorted := TotalStandings(rows);
    SortedByTotal(rows);
    forall n | 0 <= n < |rows|
      ensures (exists k :: 0 <= k < |r| && r[k].userId == rows[n].id) || rows[n].totalPoints <= r[|r| - 1].points
    {
      var x: Ranked<nat> := Ranked(n, rows[n].totalPoints);
      ListedOrBelow(sorted, x, |r|);
      if exists m :: 0 <= m < |r| && sorted[m] == x {
        var m :| 0 <= m < |r| && sorted[m] == x;
        LeaderboardLine(rows, limit, 0, m);
        assert r[m].userId == rows[n].id;
      } else {
        LeaderboardLine(rows, limit, 0, |r| - 1);
      }
    }
  }

  /** Everyone who outscores the user at position `j` of the all-time standings sits before `j`,
      so there are at most `j` of them. */
  lemma AboveFitsBefore(s: Store, j: nat)
    requires UsersValid(s)
    requires j < |TotalStandings(Rows(s))|
    ensures TotalStandings(Rows(s))[j].item < |s.userOrder|
    ensures |Above(s.users, TotalStandings(Rows(s))[j].points)| <= j
  {
    var rows := Rows(s);
    var sorted := TotalStandings(rows);
    SortedByTotal(rows);
    var ids := seq(|sorted|, k requires 0 <= k < |sorted| => s.userOrder[sorted[k].item]);
    var before := set k | 0 <= k < j :: ids[k];
    var above := Above(s.users, sorted[j].points);
    forall v | v in above ensures v in before {
      var n :| 0 <= n < |s.userOrder| && s.userOrder[n] == v;
      var x: Ranked<nat> := Ranked(n, rows[n].totalPoints);
      BetterComesFirst(sorted, j, x);
      var k :| 0 <= k < j && sorted[k] == x;
      assert ids[k] == v;
    }
    SubsetSize(above, before);
    PrefixSize(ids, j);
  }

  /** A position on the all-time leaderboard is never better than the user's all-time rank: all
      who outscore the user are listed before it. Without ties the two agree. */
  lemma LeaderboardRankBound(s: Store, limit: nat, offset: nat, i: nat)
    requires UsersValid(s)
    requires i < |GetLeaderboard(Rows(s), limit, offset)|
    ensures var e := GetLeaderboard(Rows(s), limit, offset)[i];
      e.userId in s.users && GetUserRank(s.users, e.userId) <= e.rank
  {
    var rows := Rows(s);
    var sorted := TotalStandings(rows);
    SortedByTotal(rows);
    LeaderboardLine(rows, limit, offset, i);
    AboveFitsBefore(s, offset + i);
    var p := sorted[offset + i].item;
    var id := s.userOrder[p];
    assert rows[p] == s.users[id] && s.users[id].id == id;
    assert GetUserRank(s.users, id) == 1 + |Above(s.users, sorted[offset + i].points)|;
  }

  // ---------------------------------------------------------------------------------------------
  // Windowed sums

  /** The sum of `id`'s ledger rows created at or after `cutoff`. */
  function WindowSum(history: seq<PointEntry>, id: UserId, cutoff: int): int
  {
    if history == [] then 0
    else
      var e := history[|history| - 1];
      WindowSum(history[..|history| - 1], id, cutoff) + (if e.userId == id && e.createdAt >= cutoff then e.points else 0)
  }

  /** For a user whose rows are all gains, the window sum never exceeds the all-time total, and
      equals it when every row of the user lies inside the window. */
  lemma {:induction false} WindowSumWithinTotal(history: seq<PointEntry>, id: UserId, cutoff: int)
    requires forall k :: 0 <= k < |history| && history[k].userId == id ==> history[k].points >= 0
    ensures WindowSum(history, id, cutoff) <= LedgerTotal(history, id)
    ensures (forall k :: 0 <= k < |history| && history[k].userId == id ==> history[k].createdAt >= cutoff) ==>
      WindowSum(history, id, cutoff) == LedgerTotal(history, id)
  {
    if history != [] {
      var front := history[..|history| - 1];
      assert forall k :: 0 <= k < |front| ==> front[k] == history[k];
      WindowSumWithinTotal(front, id, cutoff);
    }
  }

  /** `id` has at least one ledger row inside the window. */
  ghost predicate InWindow(history: seq<PointEntry>, id: UserId, cutoff: int)
  {
    exists k :: 0 <= k < |history| && history[k].userId == id && history[k].createdAt >= cutoff
  }

  /** The groups of the window query: every user with a row inside the window, once each, in
      order of first appearance. */
  function WindowUsers(history: seq<PointEntry>, cutoff: int): (ids: seq<UserId>)
    ensures forall i, j :: 0 <= i < j < |ids| ==> ids[i] != ids[j]
    ensures forall id :: id in ids <==> InWindow(history, id, cutoff)
  {
    if history == [] then []
    else
      var front := history[..|history| - 1];
      var rest := WindowUsers(front, cutoff);
      var e := history[|history| - 1];
      assert forall id :: InWindow(front, id, cutoff) ==> InWindow(history, id, cutoff) by {
        forall id | InWindow(front, id, cutoff) ensures InWindow(history, id, cutoff) {
          var k :| 0 <= k < |front| && front[k].userId == id && front[k].createdAt >= cutoff;
          assert history[k] == front[k];
        }
      }
      assert forall id :: InWindow(history, id, cutoff) ==>
        InWindow(front, id, cutoff) || (id == e.userId && e.createdAt >= cutoff) by {
        forall id | InWindow(history, id, cutoff)
          ensures InWindow(front, id, cutoff) || (id == e.userId && e.createdAt >= cutoff)
        {
          var k :| 0 <= k < |history| && history[k].userId == id && history[k].createdAt >= cutoff;
          if k < |front| {
            assert front[k] == history[k];
          }
        }
      }
      if e.createdAt >= cutoff && e.userId !in rest then rest + [e.userId] else rest
  }

  /** A user without rows in the window sums to zero there. */
  lemma {:induction false} WindowSumOutside(history: seq<PointEntry>, id: UserId, cutoff: int)
    requires !InWindow(history, id, cutoff)
    ensures WindowSum(history, id, cutoff) == 0
  {
    if history != [] {
      var front := history[..|history| - 1];
      assert !InWindow(front, id, cutoff);
      WindowSumOutside(front, id, cutoff);
    }
  }

  /** The window's per-user sums, one per user with rows in the window. */
  function WindowScores(history: seq<PointEntry>, cutoff: int): (r: seq<Ranked<UserId>>)
    ensures |r| == |WindowUsers(history, cutoff)|
    ensures forall k :: 0 <= k < |r| ==> r[k].item == WindowUsers(history, cutoff)[k]
    ensures forall k :: 0 <= k < |r| ==> r[k].points == WindowSum(history, r[k].item, cutoff)
  {
    var ids := WindowUsers(history, cutoff);
    seq(|ids|, k requires 0 <= k < |ids| => Ranked(ids[k], WindowSum(history, ids[k], cutoff)))
  }

  /** The window's groups sorted by sum, largest first. */
  function WindowStandings(history: seq<PointEntry>, cutoff: int): seq<Ranked<UserId>>
  {
    SortDesc(WindowScores(history, cutoff))
  }

  /** The window's standings carry each window user once, with its own sum. */
  lemma SortedWindow(history: seq<PointEntry>, cutoff: int)
    ensures forall j :: 0 <= j < |WindowStandings(history, cutoff)| ==>
      && InWindow(history, WindowStandings(history, cutoff)[j].item, cutoff)
      && WindowStandings(history, cutoff)[j].points == WindowSum(history, WindowStandings(history, cutoff)[j].item, cutoff)
    ensures forall i, j :: 0 <= i < j < |WindowStandings(history, cutoff)| ==>
      WindowStandings(history, cutoff)[i].item != WindowStandings(history, cutoff)[j].item
    ensures forall id :: InWindow(history, id, cutoff) ==>
      Ranked(id, WindowSum(history, id, cutoff)) in WindowStandings(history, cutoff)
  {
    var scores := WindowScores(history, cutoff);
    var sorted := WindowStandings(history, cutoff);
    SortPermutes(scores);
    forall j | 0 <= j < |sorted|
      ensures InWindow(history, sorted[j].item, cutoff) && sorted[j].points == WindowSum(history, sorted[j].item, cutoff)
    {
      assert sorted[j] in multiset(scores);
    }
    DistinctCounts(scores);
    forall i, j | 0 <= i < j < |sorted| ensures sorted[i].item != sorted[j].item {
      if sorted[i] == sorted[j] {
        RepeatCounts(sorted, i, j);
      }
    }
    forall id | InWindow(history, id, cutoff) ensures Ranked(id, WindowSum(history, id, cutoff)) in sorted {
      var k :| 0 <= k < |scores| && WindowUsers(history, cutoff)[k] == id;
      assert scores[k] in multiset(sorted);
    }
  }

  /** In a sequence without repetitions every value occurs at most once. */
  lemma {:induction false} DistinctCounts<T>(xs: seq<T>)
    requires forall a, b :: 0 <= a < b < |xs| ==> xs[a] != xs[b]
    ensures forall e :: multiset(xs)[e] <= 1
  {
    if xs != [] {
      var front := xs[..|xs| - 1];
      DistinctCounts(front);
      assert xs == front + [xs[|xs| - 1]];
      assert xs[|xs| - 1] !in multiset(front);
    }
  }

  /** A value at two positions occurs at least twice. */
  lemma RepeatCounts<T>(ys: seq<T>, i: nat, j: nat)
    requires i < j < |ys| && ys[i] == ys[j]
    ensures multiset(ys)[ys[i]] >= 2
  {
    assert ys == ys[..i] + [ys[i]] + ys[i + 1..j] + [ys[j]] + ys[j + 1..];
  }

  /** The lines of a window leaderboard, looked up in the users table. When a listed id has no
      stored user the lookup's non-null assertion fails on the first field access and the query
      answers its error value, the empty list. */
  function WindowEntries(users: map<UserId, User>, top: seq<Ranked<UserId>>): (r: seq<RankingEntry>)
    ensures (forall k :: 0 <= k < |top| ==> top[k].item in users) ==> |r| == |top|
    ensures (exists k :: 0 <= k < |top| && top[k].item !in users) ==> r == []
    ensures forall k :: 0 <= k < |r| ==>
      top[k].item in users && r[k] == Entry(top[k].item, users[top[k].item], top[k].points, k + 1)
  {
    if forall k :: 0 <= k < |top| ==> top[k].item in users then
      seq(|top|, k requires 0 <= k < |top| => Entry(top[k].item, users[top[k].item], top[k].points, k + 1))
    else []
  }

  /** getWeeklyLeaderboard and getMonthlyLeaderboard, which differ only in the cutoff (a week or a
      month before now): the window's groups sorted by sum, at most `limit` of them, each line
      ranked by its position. */
  function GetWindowLeaderboard(s: Store, cutoff: int, limit: nat): (r: seq<RankingEntry>)
    ensures |r| <= limit
    ensures forall k :: 0 <= k < |r| ==> r[k].rank == k + 1
  {
    WindowEntries(s.users, Page(WindowStandings(s.history, cutoff), 0, limit))
  }

  /** Every line of a window leaderboard is a stored user with rows in the window, carrying
      exactly its window sum; sums do not increase down the board and no user is listed twice. */
  lemma WindowLeaderboardLines(s: Store, cutoff: int, limit: nat)
    ensures var r := GetWindowLeaderboard(s, cutoff, limit);
      && (forall k :: 0 <= k < |r| ==>
            && r[k].userId in s.users
            && InWindow(s.history, r[k].userId, cutoff)
            && r[k].points == WindowSum(s.history, r[k].userId, cutoff))
      && (forall i, j :: 0 <= i < j < |r| ==> r[i].points >= r[j].points && r[i].userId != r[j].userId)
  {
    var sorted := WindowStandings(s.history, cutoff);
    SortedWindow(s.history, cutoff);
    var top := Page(sorted, 0, limit);
    var r := GetWindowLeaderboard(s, cutoff, limit);
    assert forall k :: 0 <= k < |r| ==> r[k].userId == sorted[k].item && r[k].points == sorted[k].points;
  }

  /** Line `k` of a window leaderboard is position `k` of the window's standings. */
  lemma WindowLeaderboardLine(s: Store, cutoff: int, limit: nat, k: nat)
    requires k < |GetWindowLeaderboard(s, cutoff, limit)|
    ensures k < |WindowStandings(s.history, cutoff)|
    ensures GetWindowLeaderboard(s, cutoff, limit)[k].userId == WindowStandings(s.history, cutoff)[k].item
    ensures GetWindowLeaderboard(s, cutoff, limit)[k].points == WindowStandings(s.history, cutoff)[k].points
  {
  }

  /** When every ledger row names a stored user, the window leaderboard lists `limit` users, or all
      of the window's users if there are fewer. */
  lemma WindowLeaderboardSize(s: Store, cutoff: int, limit: nat)
    requires forall k :: 0 <= k < |s.history| ==> s.history[k].userId in s.users
    ensures |GetWindowLeaderboard(s, cutoff, limit)| == Min(limit, |WindowUsers(s.history, cutoff)|)
  {
    var sorted := WindowStandings(s.history, cutoff);
    SortedWindow(s.history, cutoff);
    var top := Page(sorted, 0, limit);
    forall k | 0 <= k < |top| ensures top[k].item in s.users {
      var h :| 0 <= h < |s.history| && s.history[h].userId == top[k].item && s.history[h].createdAt >= cutoff;
    }
  }

  /** Nobody is passed over: a user with rows in the window is listed or sums to at most the last
      line. */
  lemma WindowLeaderboardCovers(s: Store, cutoff: int, limit: nat)
    ensures var r := GetWindowLeaderboard(s, cutoff, limit);
      r != [] ==> forall id :: InWindow(s.history, id, cutoff) ==>
        (exists k :: 0 <= k < |r| && r[k].userId == id) || WindowSum(s.history, id, cutoff) <= r[|r| - 1].points
  {
    var r := GetWindowLeaderboard(s, cutoff, limit);
    if r != [] {
      var sorted := WindowStandings(s.history, cutoff);
      SortedWindow(s.history, cutoff);
      WindowLeaderboardLine(s, cutoff, limit, |r| - 1);
      forall id | InWindow(s.history, id, cutoff)
        ensures (exists k :: 0 <= k < |r| && r[k].userId == id) || WindowSum(s.history, id, cutoff) <= r[|r| - 1].points
      {
        var x := Ranked(id, WindowSum(s.history, id, cutoff));
        ListedOrBelow(sorted, x, |r|);
        if exists m :: 0 <= m < |r| && sorted[m] == x {
          var m :| 0 <= m < |r| && sorted[m] == x;
          WindowLeaderboardLine(s, cutoff, limit, m);
        }
      }
    }
  }

  /** The users with rows in the window whose window sum is strictly larger than `id`'s. */
  function WindowAbove(history: seq<PointEntry>, id: UserId, cutoff: int): (above: set<UserId>)
    ensures id !in above
    ensures forall v :: v in above ==> InWindow(history, v, cutoff)
  {
    set v | v in WindowUsers(history, cutoff) && WindowSum(history, v, cutoff) > WindowSum(history, id, cutoff)
  }

  /** getUserWeeklyRank and getUserMonthlyRank: 1 + the number of users with rows in the window
      whose window sum is strictly larger than this user's (which is 0 without rows there). */
  function WindowRank(history: seq<PointEntry>, id: UserId, cutoff: int): (rank: nat)
    ensures rank >= 1
    ensures rank <= |WindowUsers(history, cutoff)| + 1
    ensures InWindow(history, id, cutoff) ==> rank <= |WindowUsers(history, cutoff)|
  {
    WindowAboveSize(history, id, cutoff);
    1 + |WindowAbove(history, id, cutoff)|
  }

  lemma WindowAboveSize(history: seq<PointEntry>, id: UserId, cutoff: int)
    ensures |WindowAbove(history, id, cutoff)| <= |WindowUsers(history, cutoff)|
    ensures InWindow(history, id, cutoff) ==> |WindowAbove(history, id, cutoff)| < |WindowUsers(history, cutoff)|
  {
    SubsetOfSeqSize(WindowAbove(history, id, cutoff), WindowUsers(history, cutoff), id);
  }

  /** A set drawn from a sequence is no larger than the sequence, and smaller when it misses one
      of the sequence's values. */
  lemma SubsetOfSeqSize<T>(a: set<T>, xs: seq<T>, x: T)
    requires forall v :: v in a ==> v in xs
    ensures |a| <= |xs|
    ensures x in xs && x !in a ==> |a| < |xs|
  {
    var all := set v | v in xs;
    PrefixSize(xs, |xs|);
    assert all == set k | 0 <= k < |xs| :: xs[k] by {
      forall v | v in all ensures exists k :: 0 <= k < |xs| && xs[k] == v {
        var k :| 0 <= k < |xs| && xs[k] == v;
      }
    }
    if x in xs && x !in a {
      assert a <= all - {x};
      SubsetSize(a, all - {x});
    } else {
      SubsetSize(a, all);
    }
  }

  /** Window rank 1 belongs exactly to the users whom nobody outscores in the window. */
  lemma WindowTopRank(history: seq<PointEntry>, id: UserId, cutoff: int)
    ensures WindowRank(history, id, cutoff) == 1 <==>
      forall v :: InWindow(history, v, cutoff) ==> WindowSum(history, v, cutoff) <= WindowSum(history, id, cutoff)
  {
    var above := WindowAbove(history, id, cutoff);
    assert WindowRank(history, id, cutoff) == 1 + |above|;
    if above != {} {
      var v :| v in above;
      assert InWindow(history, v, cutoff);
    } else {
      forall v | InWindow(history, v, cutoff) ensures WindowSum(history, v, cutoff) <= WindowSum(history, id, cutoff) {
        assert v !in above;
      }
    }
  }

  /** Equal window sums share a rank; a strictly larger window sum gets a strictly smaller rank. */
  lemma WindowRankOrder(history: seq<PointEntry>, a: UserId, b: UserId, cutoff: int)
    requires InWindow(history, a, cutoff)
    ensures WindowSum(history, a, cutoff) == WindowSum(history, b, cutoff) ==>
      WindowRank(history, a, cutoff) == WindowRank(history, b, cutoff)
    ensures WindowSum(history, a, cutoff) > WindowSum(history, b, cutoff) ==>
      WindowRank(history, a, cutoff) < WindowRank(history, b, cutoff)
  {
    assert WindowRank(history, a, cutoff) == 1 + |WindowAbove(history, a, cutoff)|;
    assert WindowRank(history, b, cutoff) == 1 + |WindowAbove(history, b, cutoff)|;
    if WindowSum(history, a, cutoff) > WindowSum(history, b, cutoff) {
      assert a in WindowAbove(history, b, cutoff) && a !in WindowAbove(history, a, cutoff);
      StrictSubsetSize(WindowAbove(history, a, cutoff), WindowAbove(history, b, cutoff));
    }
  }

  /** A position on a window leaderboard is never better than the user's window rank. */
  lemma WindowLeaderboardRankBound(s: Store, cutoff: int, limit: nat, i: nat)
    requires i < |GetWindowLeaderboard(s, cutoff, limit)|
    ensures var e := GetWindowLeaderboard(s, cutoff, limit)[i];
      WindowRank(s.history, e.userId, cutoff) <= e.rank
  {
    var sorted := WindowStandings(s.history, cutoff);
    SortedWindow(s.history, cutoff);
    var e := GetWindowLeaderboard(s, cutoff, limit)[i];
    assert e.userId == sorted[i].item && e.rank == i + 1;
    var above := WindowAbove(s.history, e.userId, cutoff);
    var ids := seq(|sorted|, k requires 0 <= k < |sorted| => sorted[k].item);
    var before := set k | 0 <= k < i :: ids[k];
    forall v | v in above ensures v in before {
      var x := Ranked(v, WindowSum(s.history, v, cutoff));
      BetterComesFirst(sorted, i, x);
      var k :| 0 <= k < i && sorted[k] == x;
      assert ids[k] == v;
    }
    SubsetSize(above, before);
    PrefixSize(ids, i);
  }

  /** getUserRankings: the all-time, weekly and monthly ranks of one user. */
  function GetUserRankings(s: Store, id: UserId, weekAgo: int, monthAgo: int): (r: Rankings)
    ensures r.total >= 1 && r.weekly >= 1 && r.monthly >= 1
    ensures r.total == GetUserRank(s.users, id)
    ensures r.weekly == WindowRank(s.history, id, weekAgo) && r.monthly == WindowRank(s.history, id, monthAgo)
  {
    Rankings(GetUserRank(s.users, id), WindowRank(s.history, id, weekAgo), WindowRank(s.history, id, monthAgo))
  }

  /** The user heading a leaderboard has rank 1 for it: the first line of the all-time board has
      all-time rank 1, and the first line of a weekly or monthly board has weekly or monthly rank
      1. A stored user's all-time rank is 1 exactly when nobody has more points. */
  lemma LeadersRankFirst(s: Store, id: UserId, weekAgo: int, monthAgo: int)
    requires UsersValid(s)
    ensures var r := GetUserRankings(s, id, weekAgo, monthAgo);
      var board := GetLeaderboard(Rows(s), 1, 0);
      var week := GetWindowLeaderboard(s, weekAgo, 1);
      var month := GetWindowLeaderboard(s, monthAgo, 1);
      && (board != [] && board[0].userId == id ==> r.total == 1)
      && (week != [] && week[0].userId == id ==> r.weekly == 1)
      && (month != [] && month[0].userId == id ==> r.monthly == 1)
      && (id in s.users ==>
            (r.total == 1 <==> forall v :: v in s.users ==> s.users[v].totalPoints <= s.users[id].totalPoints))
  {
    if GetLeaderboard(Rows(s), 1, 0) != [] {
      LeaderboardRankBound(s, 1, 0, 0);
    }
    if GetWindowLeaderboard(s, weekAgo, 1) != [] {
      WindowLeaderboardRankBound(s, weekAgo, 1, 0);
    }
    if GetWindowLeaderboard(s, monthAgo, 1) != [] {
      WindowLeaderboardRankBound(s, monthAgo, 1, 0);
    }
    if id in s.users {
      TopRank(s.users, id);
    }
  }

  // ---------------------------------------------------------------------------------------------
  // Monthly top contributor

  /** updateMonthlyTopContributor as a transition of the store: no top user (an empty monthly
      leaderboard) leaves the store alone and answers None; otherwise the answer is the top user,
      and the "Citizen of the Month" badge, when the catalog has it, is upserted for that user with
      `earnedAt` = `now` (created, or refreshed if held). Nothing else changes. */
  function MonthlyTopEffect(s: Store, monthAgo: int, now: int): (r: (Store, Option<UserId>))
    ensures r.1.None? <==> GetWindowLeaderboard(s, monthAgo, 1) == []
    ensures r.1.None? ==> r.0 == s
    ensures r.1.Some? ==> r.1.value == GetWindowLeaderboard(s, monthAgo, 1)[0].userId
    ensures r.0 == s.(userBadges := r.0.userBadges)
    ensures r.1.Some? && FindBadge(s.badges, CitizenOfTheMonth).Some? ==>
      r.0.userBadges == s.userBadges[(r.1.value, FindBadge(s.badges, CitizenOfTheMonth).value) := now]
    ensures FindBadge(s.badges, CitizenOfTheMonth).None? ==> r.0 == s
  {
    var board := GetWindowLeaderboard(s, monthAgo, 1);
    if board == [] then (s, None)
    else
      var top := board[0].userId;
      match FindBadge(s.badges, CitizenOfTheMonth)
      case None => (s, Some(top))
      case Some(b) => (s.(userBadges := s.userBadges[(top, b) := now]), Some(top))
  }

  /** The user answered as the month's top contributor outscores, or ties, every user with rows in
      the month, and so has monthly rank 1. */
  lemma MonthlyTopIsTop(s: Store, monthAgo: int, now: int)
    requires MonthlyTopEffect(s, monthAgo, now).1.Some?
    ensures var top := MonthlyTopEffect(s, monthAgo, now).1.value;
      && (forall v :: InWindow(s.history, v, monthAgo) ==> WindowSum(s.history, v, monthAgo) <= WindowSum(s.history, top, monthAgo))
      && WindowRank(s.history, top, monthAgo) == 1
  {
    var top := MonthlyTopEffect(s, monthAgo, now).1.value;
    WindowLeaderboardRankBound(s, monthAgo, 1, 0);
    WindowTopRank(s.history, top, monthAgo);
  }

  /** The monthly job keeps the store valid: the top user is a stored user, and the badge a
      catalog entry. */
  lemma MonthlyTopKeepsValid(s: Store, monthAgo: int, now: int)
    requires StoreValid(s)
    ensures StoreValid(MonthlyTopEffect(s, monthAgo, now).0)
  {
    WindowLeaderboardLines(s, monthAgo, 1);
  }

  /** updateMonthlyTopContributor, run directly with the cutoff one month before `now`. */
  method UpdateMonthlyTopContributor(db: Database, monthAgo: int, now: int) returns (top: Option<UserId>)
    requires db.Valid()
    modifies db
    ensures db.Valid()
    ensures (db.Snapshot(), top) == MonthlyTopEffect(old(db.Snapshot()), monthAgo, now)
  {
    MonthlyTopKeepsValid(db.Snapshot(), monthAgo, now);
    var board := GetWindowLeaderboard(db.Snapshot(), monthAgo, 1);
    if |board| == 0 {
      return None;
    }
    var badge := FindBadge(db.badges, CitizenOfTheMonth);
    if badge.Some? {
      db.userBadges := db.userBadges[(board[0].userId, badge.value) := now];
    }
    top := Some(board[0].userId);
  }
}

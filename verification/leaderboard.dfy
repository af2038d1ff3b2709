/** The leaderboard page: teams ordered by total and then by name, with standard
    competition ranks (1, 1, 3) and the top rows marked. */
module Leaderboard {
  import opened Options
  import opened Strings
  import opened Schema
  import opened Scoring

  /** `String(team.name)`: a NULL name reads "null". */
  function NameText(name: Option<string>): string {
    match name
    case Some(s) => s
    case None => "null"
  }

  /** The comparator says `a` may come before `b`: a higher total first, equal
      totals by name. */
  predicate Precedes(totals: map<int, int>, a: TeamRow, b: TeamRow) {
    || TotalOf(totals, a.id) > TotalOf(totals, b.id)
    || (TotalOf(totals, a.id) == TotalOf(totals, b.id) && LexLe(NameText(a.name), NameText(b.name)))
  }

  lemma PrecedesTotal(totals: map<int, int>, a: TeamRow, b: TeamRow)
    ensures Precedes(totals, a, b) || Precedes(totals, b, a)
  {
    LexLeTotal(NameText(a.name), NameText(b.name));
  }

  lemma PrecedesTransitive(totals: map<int, int>, a: TeamRow, b: TeamRow, c: TeamRow)
    requires Precedes(totals, a, b) && Precedes(totals, b, c)
    ensures Precedes(totals, a, c)
  {
    if TotalOf(totals, a.id) == TotalOf(totals, b.id) == TotalOf(totals, c.id) {
      LexLeTransitive(NameText(a.name), NameText(b.name), NameText(c.name));
    }
  }

  predicate SortedBy(totals: map<int, int>, s: seq<TeamRow>) {
    forall i, j :: 0 <= i < j < |s| ==> Precedes(totals, s[i], s[j])
  }

  /** Places `x` after every team that may precede it, so teams the comparator
      calls equal keep their order. */
  function Insert(totals: map<int, int>, x: TeamRow, s: seq<TeamRow>): (r: seq<TeamRow>)
    ensures multiset(r) == multiset(s) + multiset{x}
  {
    if s == [] then [x]
    else if !Precedes(totals, s[0], x) then [x] + s
    else
      assert s == [s[0]] + s[1..];
      [s[0]] + Insert(totals, x, s[1..])
  }

  /** The teams of an insertion are the inserted one and the old ones. */
  lemma InsertMembers(totals: map<int, int>, x: TeamRow, s: seq<TeamRow>)
    ensures forall y :: y in Insert(totals, x, s) <==> y == x || y in s
  {
    var r := Insert(totals, x, s);
    forall y ensures y in r <==> y == x || y in s {
      assert (y in r) == (y in multiset(r));
      assert (y in s) == (y in multiset(s));
    }
  }

  /** In a sorted list the first team may precede every later one. */
  lemma HeadPrecedesTail(totals: map<int, int>, s: seq<TeamRow>)
    requires SortedBy(totals, s) && s != []
    ensures forall y :: y in s[1..] ==> Precedes(totals, s[0], y)
  {
    forall y | y in s[1..] ensures Precedes(totals, s[0], y) {
      var k :| 0 <= k < |s[1..]| && s[1..][k] == y;
      assert s[k + 1] == y;
    }
  }

  /** A team that may precede every team of a sorted list can go in front. */
  lemma ConsSorted(totals: map<int, int>, h: TeamRow, t: seq<TeamRow>)
    requires SortedBy(totals, t)
    requires forall y :: y in t ==> Precedes(totals, h, y)
    ensures SortedBy(totals, [h] + t)
  {
    var r := [h] + t;
    forall a, b | 0 <= a < b < |r| ensures Precedes(totals, r[a], r[b]) {
      assert r[b] == t[b - 1] && t[b - 1] in t;
      if a > 0 {
        assert r[a] == t[a - 1];
      }
    }
  }

  lemma {:induction false} InsertSorted(totals: map<int, int>, x: TeamRow, s: seq<TeamRow>)
    requires SortedBy(totals, s)
    ensures SortedBy(totals, Insert(totals, x, s))
  {
    if s == [] {
    } else if !Precedes(totals, s[0], x) {
      PrecedesTotal(totals, s[0], x);
      HeadPrecedesTail(totals, s);
      forall y | y in s ensures Precedes(totals, x, y) {
        if y != s[0] {
          assert y in s[1..] by {
            var k :| 0 <= k < |s| && s[k] == y;
            assert s[1..][k - 1] == y;
          }
          PrecedesTransitive(totals, x, s[0], y);
        }
      }
      ConsSorted(totals, x, s);
    } else {
      var tail := s[1..];
      assert SortedBy(totals, tail);
      InsertSorted(totals, x, tail);
      InsertMembers(totals, x, tail);
      HeadPrecedesTail(totals, s);
      ConsSorted(totals, s[0], Insert(totals, x, tail));
    }
  }

  /** `teamsList.slice().sort(…)`: a sorted copy of the teams. */
  function SortTeams(totals: map<int, int>, teams: seq<TeamRow>): (r: seq<TeamRow>)
    ensures multiset(r) == multiset(teams)
    ensures SortedBy(totals, r)
  {
    if teams == [] then []
    else
      assert teams == teams[..|teams| - 1] + [teams[|teams| - 1]];
      var sortedInit := SortTeams(totals, teams[..|teams| - 1]);
      InsertSorted(totals, teams[|teams| - 1], sortedInit);
      Insert(totals, teams[|teams| - 1], sortedInit)
  }

  predicate NonIncreasing(scores: seq<int>) {
    forall i, j :: 0 <= i < j < |scores| ==> scores[i] >= scores[j]
  }

  /** A list sorted by the comparator has non-increasing totals, and equal totals
      come with names in ascending order. */
  lemma SortedMeansRanked(totals: map<int, int>, s: seq<TeamRow>, i: int, j: int)
    requires SortedBy(totals, s) && 0 <= i < j < |s|
    ensures TotalOf(totals, s[i].id) >= TotalOf(totals, s[j].id)
    ensures TotalOf(totals, s[i].id) == TotalOf(totals, s[j].id) ==> LexLe(NameText(s[i].name), NameText(s[j].name))
  {
    assert Precedes(totals, s[i], s[j]);
  }

  /** The rank the rank pass gives position `i`: the previous position's rank
      while the score ties, the 1-based position once it drops. */
  function RankAt(scores: seq<int>, i: nat): nat
    requires i < |scores|
  {
    if i == 0 then 1
    else if scores[i] < scores[i - 1] then i + 1
    else RankAt(scores, i - 1)
  }

  /** How many of `scores` are strictly above `v`. */
  function CountAbove(scores: seq<int>, v: int): nat {
    if scores == [] then 0
    else CountAbove(scores[..|scores| - 1], v) + (if scores[|scores| - 1] > v then 1 else 0)
  }

  /** The rank pass of `loadLeaderboard`, with `currentRank` and `previousScore`. */
  method AssignRanks(scores: seq<int>) returns (ranks: seq<nat>)
    ensures |ranks| == |scores|
    ensures forall i :: 0 <= i < |scores| ==> ranks[i] == RankAt(scores, i)
  {
    var currentRank := 1;
    var previousScore: Option<int> := None;
    ranks := [];
    for index := 0 to |scores|
      invariant |ranks| == index
      invariant forall i :: 0 <= i < index ==> ranks[i] == RankAt(scores, i)
      invariant index == 0 ==> previousScore == None && currentRank == 1
      invariant index > 0 ==> previousScore == Some(scores[index - 1]) && currentRank == RankAt(scores, index - 1)
    {
      var score := scores[index];
      if previousScore.Some? && score < previousScore.value {
        currentRank := index + 1;
      }
      assert currentRank == RankAt(scores, index);
      previousScore := Some(score);
      ranks := ranks + [currentRank];
    }
  }

  /** The first team has rank 1; every rank lies between 1 and the 1-based
      position; a tie with the previous score shares its rank and a lower score
      takes the position. */
  lemma {:induction false} RankShape(scores: seq<int>, i: nat)
    requires i < |scores|
    ensures 1 <= RankAt(scores, i) <= i + 1
    ensures i == 0 ==> RankAt(scores, i) == 1
    ensures i > 0 && scores[i] == scores[i - 1] ==> RankAt(scores, i) == RankAt(scores, i - 1)
    ensures i > 0 && scores[i] < scores[i - 1] ==> RankAt(scores, i) == i + 1
  {
    if i > 0 {
      RankShape(scores, i - 1);
    }
  }

  /** Ranks never decrease along the list. */
  lemma {:induction false} RanksNonDecreasing(scores: seq<int>, i: nat, j: nat)
    requires i <= j < |scores|
    ensures RankAt(scores, i) <= RankAt(scores, j)
    decreases j
  {
    if i < j {
      RanksNonDecreasing(scores, i, j - 1);
      if scores[j] < scores[j - 1] {
        RankShape(scores, j - 1);
      }
    }
  }

  /** In a non-increasing list, the rank of position `i` is one more than the
      number of scores above `scores[i]`: standard competition ranking. */
  lemma {:induction false} RankCountsHigherScores(scores: seq<int>, i: nat)
    requires NonIncreasing(scores) && i < |scores|
    ensures RankAt(scores, i) == 1 + CountAbove(scores, scores[i])
  {
    var k := FirstOf(scores, i);
    RankIsFirstPosition(scores, i);
    CountAboveIsFirst(scores, scores[i], k, |scores|);
    assert scores[..|scores|] == scores;
  }

  /** The first position holding the same score as position `i`. */
  function FirstOf(scores: seq<int>, i: nat): (k: nat)
    requires NonIncreasing(scores) && i < |scores|
    ensures k <= i && scores[k] == scores[i]
    ensures forall j :: 0 <= j < k ==> scores[j] > scores[i]
  {
    if i > 0 && scores[i - 1] == scores[i] then FirstOf(scores, i - 1) else i
  }

  lemma {:induction false} RankIsFirstPosition(scores: seq<int>, i: nat)
    requires NonIncreasing(scores) && i < |scores|
    ensures RankAt(scores, i) == FirstOf(scores, i) + 1
  {
    if i > 0 {
      if scores[i] < scores[i - 1] {
        assert forall j :: 0 <= j < i ==> scores[j] > scores[i];
      } else {
        RankIsFirstPosition(scores, i - 1);
        assert FirstOf(scores, i) == FirstOf(scores, i - 1);
      }
    }
  }

  lemma {:induction false} CountAboveIsFirst(scores: seq<int>, v: int, k: nat, n: nat)
    requires NonIncreasing(scores) && k < |scores| && scores[k] == v && n <= |scores|
    requires forall j :: 0 <= j < k ==> scores[j] != v
    ensures CountAbove(scores[..n], v) == if n < k then n else k
  {
    if n > 0 {
      assert scores[..n][..n - 1] == scores[..n - 1];
      CountAboveIsFirst(scores, v, k, n - 1);
      assert n - 1 < k ==> scores[n - 1] > v by {
        if n - 1 < k { assert scores[n - 1] >= scores[k]; }
      }
      assert n - 1 >= k ==> scores[n - 1] <= v by {
        if n - 1 > k { assert scores[k] >= scores[n - 1]; }
      }
    }
  }

  /** The rank-1 rows are exactly those whose score nobody beats. */
  lemma TopIffNobodyAbove(scores: seq<int>, i: nat)
    requires NonIncreasing(scores) && i < |scores|
    ensures RankAt(scores, i) == 1 <==> scores[i] == scores[0]
  {
    RankIsFirstPosition(scores, i);
  }

  /** One rendered leaderboard row. */
  datatype Standing = Standing(team: TeamRow, rank: nat, total: int, top: bool)

  function TeamsOf(board: seq<Standing>): seq<TeamRow> {
    seq(|board|, i requires 0 <= i < |board| => board[i].team)
  }

  function ScoresOf(board: seq<Standing>): seq<int> {
    seq(|board|, i requires 0 <= i < |board| => board[i].total)
  }

  /** The totals of the sorted teams, in order; they never increase. */
  function SortedScores(totals: map<int, int>, sorted: seq<TeamRow>): (scores: seq<int>)
    ensures |scores| == |sorted|
    ensures forall i :: 0 <= i < |sorted| ==> scores[i] == TotalOf(totals, sorted[i].id)
  {
    seq(|sorted|, i requires 0 <= i < |sorted| => TotalOf(totals, sorted[i].id))
  }

  lemma SortedScoresNonIncreasing(totals: map<int, int>, sorted: seq<TeamRow>)
    requires SortedBy(totals, sorted)
    ensures NonIncreasing(SortedScores(totals, sorted))
  {
    var scores := SortedScores(totals, sorted);
    forall i, j | 0 <= i < j < |scores| ensures scores[i] >= scores[j] {
      SortedMeansRanked(totals, sorted, i, j);
    }
  }

  /** The rows `createLeaderboardRow` renders, one per sorted team. */
  function Rows(sorted: seq<TeamRow>, ranks: seq<nat>, scores: seq<int>): (board: seq<Standing>)
    requires |ranks| == |sorted| && |scores| == |sorted|
    ensures TeamsOf(board) == sorted && ScoresOf(board) == scores
    ensures forall i :: 0 <= i < |board| ==> board[i] == Standing(sorted[i], ranks[i], scores[i], ranks[i] == 1)
  {
    seq(|sorted|, i requires 0 <= i < |sorted| => Standing(sorted[i], ranks[i], scores[i], ranks[i] == 1))
  }

  /** Every rank the rank pass produces on non-increasing scores is a
      competition rank. */
  lemma RanksAreCompetitionRanks(scores: seq<int>, ranks: seq<nat>)
    requires NonIncreasing(scores) && |ranks| == |scores|
    requires forall i :: 0 <= i < |scores| ==> ranks[i] == RankAt(scores, i)
    ensures forall i :: 0 <= i < |scores| ==> ranks[i] == 1 + CountAbove(scores, scores[i])
  {
    forall i | 0 <= i < |scores| ensures ranks[i] == 1 + CountAbove(scores, scores[i]) {
      RankCountsHigherScores(scores, i);
    }
  }

  /** `loadLeaderboard` on the fetched rows: every team once, ordered by the
      comparator, each with its total, its competition rank and the `is-top`
      mark on exactly the rank-1 rows. */
  method LoadLeaderboard(teams: seq<TeamRow>, rows: seq<AnswerRow>) returns (board: seq<Standing>)
    ensures multiset(TeamsOf(board)) == multiset(teams)
    ensures forall i :: 0 <= i < |board| ==> board[i].total == TeamTotal(rows, board[i].team.id)
    ensures forall i, j :: 0 <= i < j < |board| ==>
      (|| board[i].total > board[j].total
       || (board[i].total == board[j].total && LexLe(NameText(board[i].team.name), NameText(board[j].team.name))))
    ensures forall i :: 0 <= i < |board| ==>
      board[i].rank == 1 + CountAbove(ScoresOf(board), board[i].total)
    ensures forall i :: 0 <= i < |board| ==> (board[i].top <==> board[i].rank == 1)
  {
    var totals := CalculateTotals(rows);
    var sorted := SortTeams(totals, teams);
    var scores := SortedScores(totals, sorted);
    SortedScoresNonIncreasing(totals, sorted);
    var ranks := AssignRanks(scores);
    RanksAreCompetitionRanks(scores, ranks);
    board := Rows(sorted, ranks, scores);
    forall i, j | 0 <= i < j < |board|
      ensures || board[i].total > board[j].total
              || (board[i].total == board[j].total && LexLe(NameText(board[i].team.name), NameText(board[j].team.name)))
    {
      SortedMeansRanked(totals, sorted, i, j);
    }
  }
}

/** Point totals per team, as the host panel and the leaderboard both compute
    them from the `/all-answers` rows. */
module Scoring {
  import opened Options
  import opened Schema

  /** `ans.awarded_points || 0`: NULL counts as nothing. */
  function AwardedOrZero(a: AnswerRow): int {
    match a.awardedPoints
    case Some(p) => p
    case None => 0
  }

  /** The sum of one team's awarded points over `rows`. */
  function TeamTotal(rows: seq<AnswerRow>, teamId: int): int {
    if rows == [] then 0
    else
      var last := rows[|rows| - 1];
      TeamTotal(rows[..|rows| - 1], teamId) + (if last.teamId == teamId then AwardedOrZero(last) else 0)
  }

  /** The teams that have at least one row. */
  function TeamIdsOf(rows: seq<AnswerRow>): set<int> {
    set a | a in rows :: a.teamId
  }

  /** `totalPointsMap[id] ?? 0`. */
  function TotalOf(totals: map<int, int>, id: int): int {
    if id in totals then totals[id] else 0
  }

  /** `calculateTotals`: one entry per team that has a row, holding the sum of
      its awarded points; every other team reads as 0. */
  method CalculateTotals(rows: seq<AnswerRow>) returns (totals: map<int, int>)
    ensures totals.Keys == TeamIdsOf(rows)
    ensures forall id :: TotalOf(totals, id) == TeamTotal(rows, id)
  {
    totals := map[];
    for i := 0 to |rows|
      invariant totals.Keys == TeamIdsOf(rows[..i])
      invariant forall id :: TotalOf(totals, id) == TeamTotal(rows[..i], id)
    {
      var a := rows[i];
      if a.teamId !in totals || totals[a.teamId] == 0 {
        totals := totals[a.teamId := 0];
      }
      totals := totals[a.teamId := totals[a.teamId] + AwardedOrZero(a)];
      assert rows[..i + 1][..i] == rows[..i];
      assert TeamIdsOf(rows[..i + 1]) == TeamIdsOf(rows[..i]) + {a.teamId} by {
        assert rows[..i + 1] == rows[..i] + [a];
      }
    }
    assert rows[..|rows|] == rows;
  }

  /** A team without answer rows totals 0. */
  lemma {:induction false} NoRowsNoPoints(rows: seq<AnswerRow>, teamId: int)
    requires teamId !in TeamIdsOf(rows)
    ensures TeamTotal(rows, teamId) == 0
  {
    if rows != [] {
      var init := rows[..|rows| - 1];
      assert TeamIdsOf(init) <= TeamIdsOf(rows) by {
        forall a | a in init ensures a in rows { }
      }
      NoRowsNoPoints(init, teamId);
    }
  }

  /** Totals add up over a split of the rows: a team's total over two batches
      of rows is the sum of its totals over each, so the order in which rows
      arrive does not matter to the total. */
  lemma {:induction false} TeamTotalConcat(a: seq<AnswerRow>, b: seq<AnswerRow>, teamId: int)
    ensures TeamTotal(a + b, teamId) == TeamTotal(a, teamId) + TeamTotal(b, teamId)
  {
    if b == [] {
      assert a + b == a;
    } else {
      var init := b[..|b| - 1];
      assert (a + b)[..|a + b| - 1] == a + init;
      assert (a + b)[|a + b| - 1] == b[|b| - 1];
      TeamTotalConcat(a, init, teamId);
    }
  }
}

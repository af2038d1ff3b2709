/** The host control panel: HTML escaping of team text, the ± points stepper with
    its running total, the filter that decides which awarded points are sent,
    and the bounds on the question being marked. */
module Host {
  import opened Options
  import opened Strings
  import opened Schema
  import opened Points
  import opened Scoring
  import opened Server

  predicate IsSpecial(c: char) {
    c == '&' || c == '<' || c == '>' || c == '"' || c == '\''
  }

  /** The entity `escapeHtml` writes for one character. */
  function EscapeChar(c: char): string {
    if c == '&' then "&amp;"
    else if c == '<' then "&lt;"
    else if c == '>' then "&gt;"
    else if c == '"' then "&quot;"
    else if c == '\'' then "&#39;"
    else [c]
  }

  /** `escapeHtml`: every special character replaced by its entity, every other
      character kept. The result has no raw `<`, `>`, `"` or `'`. */
  function EscapeHtml(s: string): (r: string)
    ensures |r| >= |s|
    ensures forall i :: 0 <= i < |r| ==> r[i] != '<' && r[i] != '>' && r[i] != '"' && r[i] != '\''
    ensures (forall i :: 0 <= i < |s| ==> !IsSpecial(s[i])) ==> r == s
  {
    if s == [] then [] else EscapeChar(s[0]) + EscapeHtml(s[1..])
  }

  /** Reads the five entities back as the characters they stand for. */
  function Unescape(s: string): string {
    if s == [] then []
    else if |s| >= 5 && s[..5] == "&amp;" then "&" + Unescape(s[5..])
    else if |s| >= 4 && s[..4] == "&lt;" then "<" + Unescape(s[4..])
    else if |s| >= 4 && s[..4] == "&gt;" then ">" + Unescape(s[4..])
    else if |s| >= 6 && s[..6] == "&quot;" then "\"" + Unescape(s[6..])
    else if |s| >= 5 && s[..5] == "&#39;" then "'" + Unescape(s[5..])
    else [s[0]] + Unescape(s[1..])
  }

  lemma UnescapeAfterEntity(c: char, t: string)
    ensures Unescape(EscapeChar(c) + t) == [c] + Unescape(t)
  {
    var e := EscapeChar(c);
    var s := e + t;
    assert s[..|e|] == e && s[|e|..] == t;
    if IsSpecial(c) {
      assert s[0] == '&' && s[1] == e[1];
      assert forall k :: 2 <= k <= |s| ==> s[..k][0] == '&' && s[..k][1] == e[1];
    } else {
      assert s[0] == c && s[1..] == t;
      assert !(|s| >= 5 && s[..5] == "&amp;") by { if |s| >= 5 { assert s[..5][0] == c; } }
      assert !(|s| >= 4 && s[..4] == "&lt;") by { if |s| >= 4 { assert s[..4][0] == c; } }
      assert !(|s| >= 4 && s[..4] == "&gt;") by { if |s| >= 4 { assert s[..4][0] == c; } }
      assert !(|s| >= 6 && s[..6] == "&quot;") by { if |s| >= 6 { assert s[..6][0] == c; } }
      assert !(|s| >= 5 && s[..5] == "&#39;") by { if |s| >= 5 { assert s[..5][0] == c; } }
    }
  }

  /** Escaping loses nothing: the escaped text reads back as the original. */
  lemma {:induction false} EscapeRoundTrip(s: string)
    ensures Unescape(EscapeHtml(s)) == s
  {
    if s != [] {
      EscapeRoundTrip(s[1..]);
      UnescapeAfterEntity(s[0], EscapeHtml(s[1..]));
      assert s == [s[0]] + s[1..];
    }
  }

  /** One click of the ± stepper, in half points: plus goes 0 → ½ → 1 and then
      up by 1, minus goes 1 → ½ → 0 and otherwise down by 1 with no lower bound. */
  function Step(p: int, plus: bool): int {
    if plus then
      if p == 0 then 1 else if p == 1 then 2 else p + 2
    else
      if p == 1 then 0 else if p == 2 then 1 else p - 2
  }

  /** Plus then minus gives the value back except from −½ (which returns 0),
      and minus then plus gives it back except from 1½ (which returns 1); in
      particular both hold for every whole number and for ½. */
  lemma StepInverse(p: int)
    ensures Step(Step(p, true), false) == p <==> p != -1
    ensures Step(Step(p, false), true) == p <==> p != 3
    ensures p % 2 == 0 || p == 1 ==> Step(Step(p, true), false) == p && Step(Step(p, false), true) == p
  {
  }

  /** `Number(answersMap[teamId]?.awarded_points ?? 0)`. */
  function SavedAward(saved: map<int, AnswerRow>, teamId: int): int {
    if teamId in saved && saved[teamId].awardedPoints.Some? then saved[teamId].awardedPoints.value else 0
  }

  /** A team's points cell differs from what is saved for it. */
  predicate Changed(shown: map<int, int>, saved: map<int, AnswerRow>, teamId: int) {
    teamId in shown && shown[teamId] != SavedAward(saved, teamId)
  }

  /** The body sent for a changed cell: the team, the question and the new
      awarded points, and nothing else. */
  function AwardBody(teamId: int, question: int, p: int): (b: AnswerBody)
    ensures b.teamId == teamId && b.question == question && b.awardedPoints == Val(p)
    ensures b.answer == Absent && b.bonusAnswer == Absent && b.chosenPoints == Absent && b.points == Absent
  {
    AnswerBody(teamId, question, Absent, Absent, Absent, Val(p), Absent)
  }

  /** The requests `submitHostPointsForCurrentQuestion` sends, in team order:
      one per rendered team whose cell differs from its saved points. */
  function Payloads(teams: seq<TeamRow>, shown: map<int, int>, saved: map<int, AnswerRow>, question: int): (sent: seq<AnswerBody>)
    ensures forall b :: b in sent ==>
      (b.teamId in IdsOf(teams) && Changed(shown, saved, b.teamId) && b == AwardBody(b.teamId, question, shown[b.teamId]))
    ensures forall t :: t in teams && Changed(shown, saved, t.id) ==> AwardBody(t.id, question, shown[t.id]) in sent
  {
    if teams == [] then []
    else
      var t := teams[|teams| - 1];
      var init := teams[..|teams| - 1];
      assert teams == init + [t];
      var before := Payloads(init, shown, saved, question);
      if Changed(shown, saved, t.id) then before + [AwardBody(t.id, question, shown[t.id])] else before
  }

  lemma PayloadsStep(teams: seq<TeamRow>, i: int, shown: map<int, int>, saved: map<int, AnswerRow>, question: int)
    requires 0 <= i < |teams|
    ensures Payloads(teams[..i + 1], shown, saved, question) == Payloads(teams[..i], shown, saved, question)
      + (if Changed(shown, saved, teams[i].id) then [AwardBody(teams[i].id, question, shown[teams[i].id])] else [])
    ensures ChangedIds(teams[..i + 1], shown, saved)
      == ChangedIds(teams[..i], shown, saved) + (if Changed(shown, saved, teams[i].id) then {teams[i].id} else {})
  {
    assert teams[..i + 1][..i] == teams[..i];
    assert teams[..i + 1] == teams[..i] + [teams[i]];
  }

  function ChangedIds(teams: seq<TeamRow>, shown: map<int, int>, saved: map<int, AnswerRow>): set<int> {
    set t | t in teams && Changed(shown, saved, t.id) :: t.id
  }

  /** On the server, a host request rewrites only `awarded_points` of an existing
      row; when the team has no row for the question yet, it inserts one with
      no answer text and 0 chosen points. */
  lemma AwardBodyOnServer(teamId: int, question: int, p: int, row: Answer)
    ensures Branch(true, AwardBody(teamId, question, p)) == AwardPoints
    ensures WithAward(row, AwardBody(teamId, question, p)) == row.(awardedPoints := Some(p))
    ensures Branch(false, AwardBody(teamId, question, p)) == InsertRow
    ensures var a := NewAnswer(0, AwardBody(teamId, question, p));
      a.answer == None && a.bonusAnswer == None && a.chosenPoints == 0 && a.awardedPoints == Some(p)
  {
  }

  /** The answer rows of one question, keyed by team (`answersMap`); with
      several rows for a team the last one wins. */
  function AnswersFor(rows: seq<AnswerRow>, question: int): (m: map<int, AnswerRow>)
    ensures forall t :: t in m ==> m[t] in rows && m[t].teamId == t && m[t].questionNumber == question
    ensures forall a :: a in rows && a.questionNumber == question ==> a.teamId in m
  {
    if rows == [] then map[]
    else
      var last := rows[|rows| - 1];
      var init := rows[..|rows| - 1];
      assert forall a :: a in rows ==> a in init || a == last;
      var m := AnswersFor(init, question);
      assert forall a :: a in init ==> a in rows;
      if last.questionNumber == question then m[last.teamId := last] else m
  }

  function IdsOf(teams: seq<TeamRow>): set<int> {
    set t | t in teams :: t.id
  }

  /** The points cell `createTeamRow` renders for each team: its saved points. */
  function PointsCells(teams: seq<TeamRow>, saved: map<int, AnswerRow>): (cells: map<int, int>)
    ensures cells.Keys == IdsOf(teams)
    ensures forall id :: id in cells ==> cells[id] == SavedAward(saved, id)
  {
    map id | id in IdsOf(teams) :: SavedAward(saved, id)
  }

  /** The total cell `createTeamRow` renders for each team. */
  function TotalCells(teams: seq<TeamRow>, totals: map<int, int>): (cells: map<int, int>)
    ensures cells.Keys == IdsOf(teams)
    ensures forall id :: id in cells ==> cells[id] == TotalOf(totals, id)
  {
    map id | id in IdsOf(teams) :: TotalOf(totals, id)
  }

  const DefaultMaxQuestions := 20

  class HostPanel {
    var teams: seq<TeamRow>
    var saved: map<int, AnswerRow>
    var totals: map<int, int>
    var shown: map<int, int>        // the points cell of each rendered row, in half points
    var shownTotal: map<int, int>   // the total cell of each rendered row, in half points
    var dirty: set<int>
    var currentQuestion: int
    var maxQuestions: int

    /** Every rendered row has both cells, its total cell is its saved total plus
        what the points cell adds over the saved points, and the question being
        marked lies in [1, maxQuestions]. */
    ghost predicate Valid()
      reads this
    {
      && shown.Keys == shownTotal.Keys
      && (forall t :: t in shownTotal ==> shownTotal[t] == TotalOf(totals, t) + shown[t] - SavedAward(saved, t))
      && 1 <= currentQuestion <= maxQuestions
    }

    /** Page load: nothing rendered yet, 20 questions, and the question stored
        from the last visit when it is in range. */
    constructor (stored: Option<string>)
      ensures Valid()
      ensures teams == [] && shown == map[] && dirty == {} && maxQuestions == DefaultMaxQuestions
      ensures currentQuestion == InitialQuestion(stored, DefaultMaxQuestions)
    {
      teams, saved, totals, shown, shownTotal, dirty := [], map[], map[], map[], map[], {};
      maxQuestions := DefaultMaxQuestions;
      currentQuestion := 1;
      new;
      InitCurrentQuestion(stored);
    }

    /** `initCurrentQuestion`: the stored question when it parses into
        [1, maxQuestions], otherwise 1. */
    method InitCurrentQuestion(stored: Option<string>)
      requires 1 <= maxQuestions
      requires shown.Keys == shownTotal.Keys
      requires forall t :: t in shownTotal ==> shownTotal[t] == TotalOf(totals, t) + shown[t] - SavedAward(saved, t)
      modifies this
      ensures Valid()
      ensures currentQuestion == InitialQuestion(stored, maxQuestions)
      ensures teams == old(teams) && saved == old(saved) && totals == old(totals) && shown == old(shown)
      ensures shownTotal == old(shownTotal) && dirty == old(dirty) && maxQuestions == old(maxQuestions)
    {
      var text := if stored.Some? then stored.value else "";
      var storedQuestion := ParseInt(text);
      if storedQuestion.Some? && storedQuestion.value >= 1 && storedQuestion.value <= maxQuestions {
        currentQuestion := storedQuestion.value;
      } else {
        currentQuestion := 1;
      }
    }

    /** The `/config` reply: only a positive question count replaces the default,
        and then the stored question is checked again against it. */
    method ApplyConfig(configMax: Option<int>, stored: Option<string>)
      requires Valid()
      modifies this
      ensures Valid()
      ensures configMax.Some? && configMax.value > 0 ==>
        maxQuestions == configMax.value && currentQuestion == InitialQuestion(stored, configMax.value)
      ensures !(configMax.Some? && configMax.value > 0) ==>
        maxQuestions == old(maxQuestions) && currentQuestion == old(currentQuestion)
      ensures teams == old(teams) && saved == old(saved) && totals == old(totals) && shown == old(shown)
      ensures shownTotal == old(shownTotal) && dirty == old(dirty)
    {
      if configMax.Some? && configMax.value > 0 {
        maxQuestions := configMax.value;
        InitCurrentQuestion(stored);
      }
    }

    /** `loadAnswers` followed by `loadTeams`: the fetched totals, this question's
        saved rows, and one freshly rendered row per team showing its saved
        points and its total. */
    method LoadAnswers(allTeams: seq<TeamRow>, rows: seq<AnswerRow>)
      requires Valid()
      modifies this
      ensures Valid()
      ensures teams == allTeams && saved == AnswersFor(rows, currentQuestion)
      ensures forall id :: TotalOf(totals, id) == TeamTotal(rows, id)
      ensures forall t :: t in allTeams ==> (t.id in shown && shown[t.id] == SavedAward(saved, t.id)
        && shownTotal[t.id] == TeamTotal(rows, t.id))
      ensures forall id :: id in shown ==> exists t :: t in allTeams && t.id == id
      ensures dirty == old(dirty) && currentQuestion == old(currentQuestion) && maxQuestions == old(maxQuestions)
    {
      totals := CalculateTotals(rows);
      teams := allTeams;
      saved := AnswersFor(rows, currentQuestion);
      shown := PointsCells(allTeams, saved);
      shownTotal := TotalCells(allTeams, totals);
    }

    /** A click on a row's ± button: the cell steps once from the value it shows,
        the total cell becomes the saved total plus the change over the saved
        points, and the team is marked dirty. */
    method Click(teamId: int, plus: bool)
      requires Valid() && teamId in shown
      modifies this
      ensures Valid()
      ensures shown == old(shown)[teamId := Step(old(shown)[teamId], plus)]
      ensures shownTotal == old(shownTotal)[teamId := TotalOf(totals, teamId) + (shown[teamId] - SavedAward(saved, teamId))]
      ensures dirty == old(dirty) + {teamId}
      ensures teams == old(teams) && saved == old(saved) && totals == old(totals)
      ensures currentQuestion == old(currentQuestion) && maxQuestions == old(maxQuestions)
    {
      var before := shown[teamId];
      FormatRoundTrip(before);
      var current := ParseOrZero(Format(before));
      assert current == before;
      if plus {
        if current == 0 {
          current := 1;
        } else if current == 1 {
          current := 2;
        } else {
          current := current + 2;
        }
      } else {
        if current == 1 {
          current := 0;
        } else if current == 2 {
          current := 1;
        } else {
          current := current - 2;
        }
      }
      assert current == Step(before, plus);
      shown := shown[teamId := current];
      var prevPoints := SavedAward(saved, teamId);
      var baseTotal := TotalOf(totals, teamId);
      shownTotal := shownTotal[teamId := baseTotal + (current - prevPoints)];
      dirty := dirty + {teamId};
      assert shown.Keys == old(shown.Keys);
      assert forall t :: t in shownTotal ==> shownTotal[t] == TotalOf(totals, t) + shown[t] - SavedAward(saved, t);
    }

    /** `submitHostPointsForCurrentQuestion`: sends one request per changed cell
        and clears those teams from the dirty set; nothing on the page changes. */
    method SubmitHostPoints() returns (sent: seq<AnswerBody>)
      requires Valid()
      modifies this
      ensures sent == Payloads(teams, shown, saved, currentQuestion)
      ensures dirty == old(dirty) - ChangedIds(teams, shown, saved)
      ensures teams == old(teams) && saved == old(saved) && totals == old(totals) && shown == old(shown)
      ensures shownTotal == old(shownTotal)
      ensures currentQuestion == old(currentQuestion) && maxQuestions == old(maxQuestions)
    {
      sent := [];
      for i := 0 to |teams|
        invariant teams == old(teams) && saved == old(saved) && totals == old(totals) && shown == old(shown)
        invariant shownTotal == old(shownTotal)
        invariant currentQuestion == old(currentQuestion) && maxQuestions == old(maxQuestions)
        invariant sent == Payloads(teams[..i], shown, saved, currentQuestion)
        invariant dirty == old(dirty) - ChangedIds(teams[..i], shown, saved)
      {
        var team := teams[i];
        PayloadsStep(teams, i, shown, saved, currentQuestion);
        if team.id in shown {
          FormatRoundTrip(shown[team.id]);
          var newPoints := ParseOrZero(Format(shown[team.id]));
          var prevPoints := SavedAward(saved, team.id);
          if newPoints != prevPoints {
            sent := sent + [AwardBody(team.id, currentQuestion, newPoints)];
            dirty := dirty - {team.id};
          }
        }
      }
      assert teams[..|teams|] == teams;
    }

    /** The prev/next buttons: one step back or forward, never leaving
        [1, maxQuestions]. */
    method Navigate(forward: bool)
      requires Valid()
      modifies this
      ensures Valid()
      ensures forward ==> currentQuestion == (if old(currentQuestion) < maxQuestions then old(currentQuestion) + 1 else old(currentQuestion))
      ensures !forward ==> currentQuestion == (if old(currentQuestion) > 1 then old(currentQuestion) - 1 else old(currentQuestion))
      ensures teams == old(teams) && saved == old(saved) && totals == old(totals) && shown == old(shown)
      ensures shownTotal == old(shownTotal) && dirty == old(dirty) && maxQuestions == old(maxQuestions)
    {
      if !forward {
        if currentQuestion > 1 {
          currentQuestion := currentQuestion - 1;
        }
      } else {
        if currentQuestion < maxQuestions {
          currentQuestion := currentQuestion + 1;
        }
      }
    }

    /** After a successful reset the saved rows are forgotten, marking starts
        again at question 1, and `loadTeams` renders every known team again with
        0 points and its total; the page's `loadAnswers` (`LoadAnswers`) then
        follows. */
    method AfterReset()
      requires Valid()
      modifies this
      ensures Valid()
      ensures saved == map[] && currentQuestion == 1
      ensures forall t :: t in teams ==> (t.id in shown && shown[t.id] == 0
        && shownTotal[t.id] == TotalOf(totals, t.id))
      ensures forall id :: id in shown ==> exists t :: t in teams && t.id == id
      ensures teams == old(teams) && totals == old(totals) && dirty == old(dirty) && maxQuestions == old(maxQuestions)
    {
      saved := map[];
      currentQuestion := 1;
      shown := PointsCells(teams, saved);
      shownTotal := TotalCells(teams, totals);
    }
  }

  /** The question `initCurrentQuestion` settles on. */
  function InitialQuestion(stored: Option<string>, maxQuestions: int): (q: int)
    requires 1 <= maxQuestions
    ensures 1 <= q <= maxQuestions
    ensures stored.Some? && ParseInt(stored.value).Some? && 1 <= ParseInt(stored.value).value <= maxQuestions
      ==> q == ParseInt(stored.value).value
    ensures !(stored.Some? && ParseInt(stored.value).Some? && 1 <= ParseInt(stored.value).value <= maxQuestions)
      ==> q == 1
  {
    var text := if stored.Some? then stored.value else "";
    match ParseInt(text)
    case Some(v) => if 1 <= v <= maxQuestions then v else 1
    case None => 1
  }
}

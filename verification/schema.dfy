/** The three SQLite tables the server keeps (`games`, `teams`, `answers`) and
    the read-only queries its handlers run over them. Tables are sequences in
    insertion (row id) order. */
module Schema {
  import opened Options

  /** A row of `games`; `created_at` is not kept, the latest game is the last row. */
  datatype Game = Game(id: int, passcode: string)

  /** A row of `teams`. `name` is NULL when the join request had none. */
  datatype Team = Team(id: int, gameId: int, name: Option<string>, gameCode: string)

  /** A row of `answers`. Text columns and `awarded_points` may hold NULL. */
  datatype Answer = Answer(
    id: int, teamId: int, questionNumber: int,
    answer: Option<string>, bonusAnswer: Option<string>,
    chosenPoints: int, awardedPoints: Option<int>)

  /** A row of `/teams`: `SELECT id, name, game_code`. */
  datatype TeamRow = TeamRow(id: int, name: Option<string>, gameCode: string)

  /** A row of the `teams` list of `/all-answers`: `SELECT id, name`. */
  datatype TeamRef = TeamRef(id: int, name: Option<string>)

  /** A row of `/answers/:question`: `teams.id, teams.name, answers.*`. The
      answers' own `id` column comes later under the same name, so the row's `id`
      is the answer's id and only the team's name survives from `teams`. */
  datatype QuestionRow = QuestionRow(name: Option<string>, row: Answer)

  /** A row of the `answers` list of `/all-answers`. */
  datatype AnswerRow = AnswerRow(
    teamId: int, teamName: Option<string>, questionNumber: int,
    answer: Option<string>, bonusAnswer: Option<string>,
    chosenPoints: int, awardedPoints: Option<int>)

  // Row ids strictly increase along each table, as AUTOINCREMENT hands them out.

  predicate IncreasingGameIds(games: seq<Game>) {
    forall i, j :: 0 <= i < j < |games| ==> games[i].id < games[j].id
  }

  predicate IncreasingTeamIds(teams: seq<Team>) {
    forall i, j :: 0 <= i < j < |teams| ==> teams[i].id < teams[j].id
  }

  predicate IncreasingAnswerIds(answers: seq<Answer>) {
    forall i, j :: 0 <= i < j < |answers| ==> answers[i].id < answers[j].id
  }

  /** At most one answer row per (team, question) pair. */
  predicate UniqueAnswers(answers: seq<Answer>) {
    forall i, j :: 0 <= i < j < |answers| ==>
      answers[i].teamId != answers[j].teamId || answers[i].questionNumber != answers[j].questionNumber
  }

  /** `SELECT id FROM answers WHERE team_id = ? AND question_number = ?`: the
      position of the first matching row. */
  function FindAnswer(answers: seq<Answer>, teamId: int, question: int): (r: Option<nat>)
    ensures r.Some? ==> (r.value < |answers|
      && answers[r.value].teamId == teamId && answers[r.value].questionNumber == question
      && forall k :: 0 <= k < r.value ==>
           answers[k].teamId != teamId || answers[k].questionNumber != question)
    ensures r.None? ==> forall a :: a in answers ==> a.teamId != teamId || a.questionNumber != question
  {
    if answers == [] then None
    else if answers[0].teamId == teamId && answers[0].questionNumber == question then Some(0)
    else match FindAnswer(answers[1..], teamId, question)
      case Some(k) => Some(k + 1)
      case None => None
  }

  /** The team row with the given id, as a join on `teams.id` finds it. */
  function FindTeam(teams: seq<Team>, id: int): (r: Option<Team>)
    ensures r.Some? ==> r.value in teams && r.value.id == id
    ensures r.None? ==> forall t :: t in teams ==> t.id != id
  {
    if teams == [] then None
    else if teams[0].id == id then Some(teams[0])
    else FindTeam(teams[1..], id)
  }

  /** The team `teamId` exists and belongs to game `gameId`. */
  predicate TeamInGame(teams: seq<Team>, gameId: int, teamId: int) {
    FindTeam(teams, teamId).Some? && FindTeam(teams, teamId).value.gameId == gameId
  }

  /** The ids of the teams of one game. */
  function TeamIdsOfGame(teams: seq<Team>, gameId: int): set<int> {
    set t | t in teams && t.gameId == gameId :: t.id
  }

  function AsTeamRow(t: Team): TeamRow {
    TeamRow(t.id, t.name, t.gameCode)
  }

  /** `SELECT id, name, game_code FROM teams WHERE game_id = ?`. */
  function TeamsOfGame(teams: seq<Team>, gameId: int): (r: seq<TeamRow>)
    ensures |r| <= |teams|
    ensures (forall t :: t in teams ==> t.gameId != gameId) ==> r == []
    ensures forall t :: t in teams && t.gameId == gameId ==> AsTeamRow(t) in r
    ensures forall x :: x in r ==> exists t :: t in teams && t.gameId == gameId && x == AsTeamRow(t)
  {
    if teams == [] then []
    else
      var rest := TeamsOfGame(teams[1..], gameId);
      if teams[0].gameId == gameId then [AsTeamRow(teams[0])] + rest else rest
  }

  /** `SELECT id, name FROM teams WHERE game_id = ?`. */
  function TeamRefsOfGame(teams: seq<Team>, gameId: int): (r: seq<TeamRef>)
    ensures |r| <= |teams|
    ensures (forall t :: t in teams ==> t.gameId != gameId) ==> r == []
    ensures forall t :: t in teams && t.gameId == gameId ==> TeamRef(t.id, t.name) in r
    ensures forall x :: x in r ==> exists t :: t in teams && t.gameId == gameId && x == TeamRef(t.id, t.name)
  {
    if teams == [] then []
    else
      var rest := TeamRefsOfGame(teams[1..], gameId);
      if teams[0].gameId == gameId then [TeamRef(teams[0].id, teams[0].name)] + rest else rest
  }

  /** The answers of question `question` given by teams of game `gameId`, each
      with its team's name (the join behind `/answers/:question`). */
  function QuestionRows(teams: seq<Team>, answers: seq<Answer>, gameId: int, question: int): (r: seq<QuestionRow>)
    ensures |r| <= |answers|
    ensures (forall t :: t in teams ==> t.gameId != gameId) ==> r == []
    ensures forall a :: a in answers && a.questionNumber == question && TeamInGame(teams, gameId, a.teamId) ==>
      QuestionRow(FindTeam(teams, a.teamId).value.name, a) in r
    ensures forall x :: x in r ==>
      x.row in answers && x.row.questionNumber == question && TeamInGame(teams, gameId, x.row.teamId)
  {
    if answers == [] then []
    else
      var a := answers[0];
      var rest := QuestionRows(teams, answers[1..], gameId, question);
      if a.questionNumber == question && TeamInGame(teams, gameId, a.teamId)
      then [QuestionRow(FindTeam(teams, a.teamId).value.name, a)] + rest
      else rest
  }

  function AsAnswerRow(name: Option<string>, a: Answer): AnswerRow {
    AnswerRow(a.teamId, name, a.questionNumber, a.answer, a.bonusAnswer, a.chosenPoints, a.awardedPoints)
  }

  /** Every answer given by a team of game `gameId`, with the team's name (the
      join behind the `answers` list of `/all-answers`). */
  function AnswerRowsOfGame(teams: seq<Team>, answers: seq<Answer>, gameId: int): (r: seq<AnswerRow>)
    ensures |r| <= |answers|
    ensures (forall t :: t in teams ==> t.gameId != gameId) ==> r == []
    ensures forall a :: a in answers && TeamInGame(teams, gameId, a.teamId) ==>
      AsAnswerRow(FindTeam(teams, a.teamId).value.name, a) in r
    ensures forall x :: x in r ==> (TeamInGame(teams, gameId, x.teamId)
      && exists a :: a in answers && TeamInGame(teams, gameId, a.teamId)
           && x == AsAnswerRow(FindTeam(teams, a.teamId).value.name, a))
  {
    if answers == [] then []
    else
      var a := answers[0];
      var rest := AnswerRowsOfGame(teams, answers[1..], gameId);
      if TeamInGame(teams, gameId, a.teamId)
      then [AsAnswerRow(FindTeam(teams, a.teamId).value.name, a)] + rest
      else rest
  }

  /** `DELETE FROM teams WHERE game_id = ?`: the other games' teams, in order. */
  function DropGameTeams(teams: seq<Team>, gameId: int): (r: seq<Team>)
    ensures forall t :: t in r <==> t in teams && t.gameId != gameId
    ensures IncreasingTeamIds(teams) ==> IncreasingTeamIds(r)
  {
    if teams == [] then []
    else
      var rest := DropGameTeams(teams[1..], gameId);
      if teams[0].gameId == gameId then rest else [teams[0]] + rest
  }

  /** `DELETE FROM answers WHERE team_id IN (…)`: the answers of the other teams,
      in order. */
  function DropTeamAnswers(answers: seq<Answer>, teamIds: set<int>): (r: seq<Answer>)
    ensures forall a :: a in r <==> a in answers && a.teamId !in teamIds
  {
    if answers == [] then []
    else
      var rest := DropTeamAnswers(answers[1..], teamIds);
      if answers[0].teamId in teamIds then rest else [answers[0]] + rest
  }

  /** Every row after the first has a larger id than the first. */
  lemma FirstIdSmallest(answers: seq<Answer>)
    requires IncreasingAnswerIds(answers) && answers != []
    ensures forall x :: x in answers[1..] ==> answers[0].id < x.id
  {
    forall x | x in answers[1..] ensures answers[0].id < x.id {
      var k :| 0 <= k < |answers[1..]| && answers[1..][k] == x;
      assert answers[k + 1] == x;
    }
  }

  lemma TailIncreasing(answers: seq<Answer>)
    requires IncreasingAnswerIds(answers) && answers != []
    ensures IncreasingAnswerIds(answers[1..])
  {
    var t := answers[1..];
    forall i, j | 0 <= i < j < |t| ensures t[i].id < t[j].id {
      assert t[i] == answers[i + 1] && t[j] == answers[j + 1];
    }
  }

  /** A row with a smaller id than every row of an increasing table can go in
      front. */
  lemma ConsIncreasing(h: Answer, t: seq<Answer>)
    requires IncreasingAnswerIds(t)
    requires forall y :: y in t ==> h.id < y.id
    ensures IncreasingAnswerIds([h] + t)
  {
    var r := [h] + t;
    forall a, b | 0 <= a < b < |r| ensures r[a].id < r[b].id {
      assert r[b] == t[b - 1] && t[b - 1] in t;
      if a > 0 {
        assert r[a] == t[a - 1];
      }
    }
  }

  /** No row after the first has the first row's (team, question) pair. */
  lemma FirstPairUnique(answers: seq<Answer>)
    requires UniqueAnswers(answers) && answers != []
    ensures forall x :: x in answers[1..] ==>
      x.teamId != answers[0].teamId || x.questionNumber != answers[0].questionNumber
  {
    forall x | x in answers[1..]
      ensures x.teamId != answers[0].teamId || x.questionNumber != answers[0].questionNumber
    {
      var k :| 0 <= k < |answers[1..]| && answers[1..][k] == x;
      assert answers[k + 1] == x;
    }
  }

  lemma TailUnique(answers: seq<Answer>)
    requires UniqueAnswers(answers) && answers != []
    ensures UniqueAnswers(answers[1..])
  {
    var t := answers[1..];
    forall i, j | 0 <= i < j < |t|
      ensures t[i].teamId != t[j].teamId || t[i].questionNumber != t[j].questionNumber
    {
      assert t[i] == answers[i + 1] && t[j] == answers[j + 1];
    }
  }

  /** A row whose pair no row of a table has can go in front. */
  lemma ConsUnique(h: Answer, t: seq<Answer>)
    requires UniqueAnswers(t)
    requires forall y :: y in t ==> y.teamId != h.teamId || y.questionNumber != h.questionNumber
    ensures UniqueAnswers([h] + t)
  {
    var r := [h] + t;
    forall a, b | 0 <= a < b < |r|
      ensures r[a].teamId != r[b].teamId || r[a].questionNumber != r[b].questionNumber
    {
      assert r[b] == t[b - 1] && t[b - 1] in t;
      if a > 0 {
        assert r[a] == t[a - 1];
      }
    }
  }

  /** Deleting answer rows keeps the remaining ids increasing. */
  lemma {:induction false} DropTeamAnswersKeepsIds(answers: seq<Answer>, teamIds: set<int>)
    requires IncreasingAnswerIds(answers)
    ensures IncreasingAnswerIds(DropTeamAnswers(answers, teamIds))
  {
    if answers != [] {
      TailIncreasing(answers);
      DropTeamAnswersKeepsIds(answers[1..], teamIds);
      if answers[0].teamId !in teamIds {
        FirstIdSmallest(answers);
        ConsIncreasing(answers[0], DropTeamAnswers(answers[1..], teamIds));
      }
    }
  }

  /** Deleting answer rows keeps at most one row per (team, question). */
  lemma {:induction false} DropTeamAnswersKeepsUnique(answers: seq<Answer>, teamIds: set<int>)
    requires UniqueAnswers(answers)
    ensures UniqueAnswers(DropTeamAnswers(answers, teamIds))
  {
    if answers != [] {
      TailUnique(answers);
      DropTeamAnswersKeepsUnique(answers[1..], teamIds);
      if answers[0].teamId !in teamIds {
        FirstPairUnique(answers);
        ConsUnique(answers[0], DropTeamAnswers(answers[1..], teamIds));
      }
    }
  }
}

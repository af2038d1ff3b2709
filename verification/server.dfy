/** The game server's state and the handlers that change it: startup seeding,
    `/join`, `/answer` and `/reset`, plus the reads scoped to the current game
    (`/current-game`, `/teams`, `/answers/:question`, `/all-answers`). */
module Server {
  import opened Options
  import opened Schema

  /** The error replies of the handlers. */
  datatype HttpError = Unauthorized | BadRequest | Conflict {
    function Status(): int {
      match this
      case Unauthorized => 401
      case BadRequest => 400
      case Conflict => 409
    }
  }

  /** One property of a JSON request body: not sent (`undefined`), `null`, or a value. */
  datatype Field<+T> = Absent | Null | Val(v: T)

  /** The body of `POST /answer`. */
  datatype AnswerBody = AnswerBody(
    teamId: int, question: int,
    answer: Field<string>, bonusAnswer: Field<string>,
    chosenPoints: Field<int>, awardedPoints: Field<int>, points: Field<int>)

  /** `chosen`: the legacy `points` property stands in for `chosenPoints` when
      that one was not sent. */
  function Chosen(b: AnswerBody): Field<int> {
    if b.chosenPoints != Absent then b.chosenPoints else b.points
  }

  /** `x || null` for a text property: "" and missing values become NULL. */
  function TextOrNull(f: Field<string>): Option<string> {
    if f.Val? && f.v != "" then Some(f.v) else None
  }

  /** `x || 0` for a number property. */
  function NumberOrZero(f: Field<int>): int {
    if f.Val? then f.v else 0
  }

  /** A property bound to an SQL parameter as it is: `undefined` and `null` bind NULL. */
  function Bound<T>(f: Field<T>): Option<T> {
    if f.Val? then Some(f.v) else None
  }

  /** The four ways `POST /answer` can go. */
  datatype SubmitBranch = InsertRow | AwardPoints | TeamFields | AlreadySubmitted

  /** The branch `POST /answer` takes once it knows whether a row for the
      (team, question) pair exists: a new row is inserted only when none does;
      on an existing row `awardedPoints` wins over the team's fields, and a body
      with neither is a conflict. */
  function Branch(found: bool, b: AnswerBody): (k: SubmitBranch)
    ensures k == InsertRow <==> !found
    ensures k == AwardPoints <==> found && b.awardedPoints != Absent
    ensures k == TeamFields <==> (found && b.awardedPoints == Absent
      && (b.answer != Absent || b.bonusAnswer != Absent || b.chosenPoints != Absent || b.points != Absent))
    ensures k == AlreadySubmitted <==> (found && b.awardedPoints == Absent && b.answer == Absent
      && b.bonusAnswer == Absent && b.chosenPoints == Absent && b.points == Absent)
  {
    if !found then InsertRow
    else if b.awardedPoints != Absent then AwardPoints
    else if b.answer != Absent || b.bonusAnswer != Absent || Chosen(b) != Absent then TeamFields
    else AlreadySubmitted
  }

  /** The `chosen_points` column written from a body: `chosenPoints` when it
      is a number, the legacy `points` when `chosenPoints` was not sent at all,
      and 0 otherwise (a `null` or a missing value). */
  predicate ChosenColumn(b: AnswerBody, c: int) {
    if b.chosenPoints.Val? then c == b.chosenPoints.v
    else if b.chosenPoints.Absent? && b.points.Val? then c == b.points.v
    else c == 0
  }

  /** A text column written as `x || null`: the text when it is a non-empty
      string, NULL for "", `null` and a missing value. */
  predicate TextColumn(f: Field<string>, c: Option<string>) {
    if f.Val? && f.v != "" then c == Some(f.v) else c == None
  }

  /** The row `INSERT INTO answers` creates: the answer text is bound as sent
      (so "" stays "", and a missing or `null` answer is NULL), the bonus
      answer as `bonusAnswer || null`, and both point columns as `… || 0`. */
  function NewAnswer(id: int, b: AnswerBody): (a: Answer)
    ensures a.id == id && a.teamId == b.teamId && a.questionNumber == b.question
    ensures b.answer.Val? ==> a.answer == Some(b.answer.v)
    ensures !b.answer.Val? ==> a.answer == None
    ensures TextColumn(b.bonusAnswer, a.bonusAnswer)
    ensures ChosenColumn(b, a.chosenPoints)
    ensures b.awardedPoints.Val? ==> a.awardedPoints == Some(b.awardedPoints.v)
    ensures !b.awardedPoints.Val? ==> a.awardedPoints == Some(0)
  {
    Answer(id, b.teamId, b.question, Bound(b.answer), TextOrNull(b.bonusAnswer),
      NumberOrZero(Chosen(b)), Some(NumberOrZero(b.awardedPoints)))
  }

  /** The host's update: `SET awarded_points = ?`, with `null` stored as NULL. */
  function WithAward(a: Answer, b: AnswerBody): (r: Answer)
    ensures r.id == a.id && r.teamId == a.teamId && r.questionNumber == a.questionNumber
    ensures r.answer == a.answer && r.bonusAnswer == a.bonusAnswer && r.chosenPoints == a.chosenPoints
    ensures b.awardedPoints.Val? ==> r.awardedPoints == Some(b.awardedPoints.v)
    ensures b.awardedPoints.Null? ==> r.awardedPoints == None
  {
    a.(awardedPoints := Bound(b.awardedPoints))
  }

  /** The team's update: all three team columns are overwritten together, with
      `answer || null`, `bonusAnswer || null` and `chosen || 0`. */
  function WithTeamFields(a: Answer, b: AnswerBody): (r: Answer)
    ensures r.id == a.id && r.teamId == a.teamId && r.questionNumber == a.questionNumber
    ensures r.awardedPoints == a.awardedPoints
    ensures TextColumn(b.answer, r.answer) && TextColumn(b.bonusAnswer, r.bonusAnswer)
    ensures ChosenColumn(b, r.chosenPoints)
  {
    a.(answer := TextOrNull(b.answer), bonusAnswer := TextOrNull(b.bonusAnswer),
       chosenPoints := NumberOrZero(Chosen(b)))
  }

  /** `!passcode || passcode.length !== 4` rejects; anything else is accepted. */
  predicate AcceptablePasscode(passcode: Field<string>) {
    passcode.Val? && passcode.v != "" && |passcode.v| == 4
  }

  /** The reply of `/all-answers`: `[]` when there is no game, otherwise the
      current game's teams and answers. */
  datatype AllAnswersReply = NoGame | Listing(teams: seq<TeamRef>, answers: seq<AnswerRow>)

  /** What a database file holds that this server can open: AUTOINCREMENT ids,
      each below its table's next id, and teams that point at games already
      created. */
  predicate WellFormed(games: seq<Game>, teams: seq<Team>, answers: seq<Answer>,
                       nextGameId: int, nextTeamId: int, nextAnswerId: int)
  {
    && IncreasingGameIds(games) && IncreasingTeamIds(teams) && IncreasingAnswerIds(answers)
    && 1 <= nextGameId && 1 <= nextTeamId && 1 <= nextAnswerId
    && (forall g :: g in games ==> 0 < g.id < nextGameId)
    && (forall t :: t in teams ==> 0 < t.id < nextTeamId && t.gameId < nextGameId)
    && (forall a :: a in answers ==> 0 < a.id < nextAnswerId)
  }

  /** Rewriting a row in place without touching its id, team or question keeps
      the table's invariants, and the pair still has a row. */
  lemma ReplaceKeepsAnswers(answers: seq<Answer>, i: int, row: Answer, nextAnswerId: int)
    requires 0 <= i < |answers|
    requires row.id == answers[i].id && row.teamId == answers[i].teamId
    requires row.questionNumber == answers[i].questionNumber
    ensures IncreasingAnswerIds(answers) ==> IncreasingAnswerIds(answers[i := row])
    ensures UniqueAnswers(answers) ==> UniqueAnswers(answers[i := row])
    ensures (forall a :: a in answers ==> 0 < a.id < nextAnswerId) ==>
      forall a :: a in answers[i := row] ==> 0 < a.id < nextAnswerId
    ensures FindAnswer(answers[i := row], row.teamId, row.questionNumber).Some?
  {
    var r := answers[i := row];
    assert forall k :: 0 <= k < |r| ==>
      (r[k].id == answers[k].id && r[k].teamId == answers[k].teamId && r[k].questionNumber == answers[k].questionNumber);
    assert r[i] == row && row in r;
    forall a | a in r ensures a.id == row.id || a in answers {
      var k :| 0 <= k < |r| && r[k] == a;
      assert k != i ==> answers[k] == a;
    }
    assert answers[i] in answers;
  }

  /** Appending a row with the next id for a pair that has none keeps the
      table's invariants, and afterwards the pair has a row. */
  lemma AppendKeepsAnswers(answers: seq<Answer>, row: Answer, nextAnswerId: int)
    requires 1 <= nextAnswerId && row.id == nextAnswerId
    requires forall a :: a in answers ==> 0 < a.id < nextAnswerId
    requires FindAnswer(answers, row.teamId, row.questionNumber).None?
    ensures IncreasingAnswerIds(answers) ==> IncreasingAnswerIds(answers + [row])
    ensures UniqueAnswers(answers) ==> UniqueAnswers(answers + [row])
    ensures forall a :: a in answers + [row] ==> 0 < a.id < nextAnswerId + 1
    ensures FindAnswer(answers + [row], row.teamId, row.questionNumber).Some?
  {
    var r := answers + [row];
    assert forall k :: 0 <= k < |answers| ==> r[k] == answers[k] && answers[k] in answers;
    assert r[|answers|] == row && row in r;
  }

  /** Deleting a game's teams and their answers and then appending a game with
      the next id keeps the tables well formed, and no remaining team belongs
      to the new game. */
  lemma ResetKeepsWellFormed(games: seq<Game>, teams: seq<Team>, answers: seq<Answer>,
                             nextGameId: int, nextTeamId: int, nextAnswerId: int, current: int, passcode: string)
    requires WellFormed(games, teams, answers, nextGameId, nextTeamId, nextAnswerId)
    ensures WellFormed(games + [Game(nextGameId, passcode)], DropGameTeams(teams, current),
      DropTeamAnswers(answers, TeamIdsOfGame(teams, current)), nextGameId + 1, nextTeamId, nextAnswerId)
    ensures forall t :: t in DropGameTeams(teams, current) ==> t.gameId != nextGameId
  {
    var g := games + [Game(nextGameId, passcode)];
    forall i, j | 0 <= i < j < |g| ensures g[i].id < g[j].id {
      assert g[i] == games[i] && games[i] in games;
      if j < |games| {
        assert g[j] == games[j];
      }
    }
    assert forall x :: x in g ==> x in games || x == Game(nextGameId, passcode);
    DropTeamAnswersKeepsIds(answers, TeamIdsOfGame(teams, current));
  }

  /** A game no team belongs to has no teams and no answer rows in any of the
      scoped reads. */
  lemma NoTeamsNoRows(teams: seq<Team>, answers: seq<Answer>, gameId: int)
    requires forall t :: t in teams ==> t.gameId != gameId
    ensures TeamsOfGame(teams, gameId) == [] && TeamRefsOfGame(teams, gameId) == []
    ensures AnswerRowsOfGame(teams, answers, gameId) == []
    ensures forall q :: QuestionRows(teams, answers, gameId, q) == []
  {
  }

  class Store {
    var games: seq<Game>
    var teams: seq<Team>
    var answers: seq<Answer>
    var nextGameId: int
    var nextTeamId: int
    var nextAnswerId: int

    /** The tables are well formed and, once the server has started, a game exists. */
    ghost predicate Valid()
      reads this
    {
      WellFormed(games, teams, answers, nextGameId, nextTeamId, nextAnswerId) && games != []
    }

    /** Opening the database and seeding it: when no game exists, one with
        passcode "0000" is created. */
    constructor Open(games0: seq<Game>, teams0: seq<Team>, answers0: seq<Answer>,
                     nextGameId0: int, nextTeamId0: int, nextAnswerId0: int)
      requires WellFormed(games0, teams0, answers0, nextGameId0, nextTeamId0, nextAnswerId0)
      ensures Valid() && CurrentGame().Some?
      ensures teams == teams0 && answers == answers0
      ensures nextTeamId == nextTeamId0 && nextAnswerId == nextAnswerId0
      ensures games0 != [] ==> games == games0 && nextGameId == nextGameId0
      ensures games0 == [] ==> games == [Game(nextGameId0, "0000")] && nextGameId == nextGameId0 + 1
      ensures games0 == [] ==> CurrentGame() == Some(Game(nextGameId0, "0000"))
    {
      games, teams, answers := games0, teams0, answers0;
      nextGameId, nextTeamId, nextAnswerId := nextGameId0, nextTeamId0, nextAnswerId0;
      new;
      if games == [] {
        games := [Game(nextGameId, "0000")];
        nextGameId := nextGameId + 1;
      }
    }

    /** `getCurrentGame()` and `/current-game`: the most recently created game,
        which is also the one with the largest id. */
    function CurrentGame(): (g: Option<Game>)
      reads this
      ensures g.Some? <==> games != []
      ensures g.Some? ==> g.value in games
      ensures Valid() && g.Some? ==> forall x :: x in games ==> x.id <= g.value.id
    {
      if games == [] then None else Some(games[|games| - 1])
    }

    /** `/teams`: exactly the current game's teams. */
    function Teams(): (rows: seq<TeamRow>)
      reads this
      ensures CurrentGame().None? ==> rows == []
      ensures forall x :: x in rows ==>
        exists t :: t in teams && t.gameId == CurrentGame().value.id && x == AsTeamRow(t)
      ensures forall t :: t in teams && CurrentGame().Some? && t.gameId == CurrentGame().value.id ==>
        AsTeamRow(t) in rows
    {
      match CurrentGame()
      case None => []
      case Some(g) => TeamsOfGame(teams, g.id)
    }

    /** `/answers/:question`: the answers to `question` of the current game's
        teams, each with its team's name. */
    function QuestionAnswers(question: int): (rows: seq<QuestionRow>)
      reads this
      ensures CurrentGame().None? ==> rows == []
      ensures forall x :: x in rows ==> (x.row in answers && x.row.questionNumber == question
        && TeamInGame(teams, CurrentGame().value.id, x.row.teamId))
      ensures forall a :: (a in answers && a.questionNumber == question && CurrentGame().Some?
        && TeamInGame(teams, CurrentGame().value.id, a.teamId)) ==>
        QuestionRow(FindTeam(teams, a.teamId).value.name, a) in rows
    {
      match CurrentGame()
      case None => []
      case Some(g) => QuestionRows(teams, answers, g.id, question)
    }

    /** `/all-answers`: the current game's teams and all their answers. */
    function AllAnswers(): (reply: AllAnswersReply)
      reads this
      ensures reply.NoGame? <==> CurrentGame().None?
      ensures reply.Listing? ==>
        (forall x :: x in reply.teams ==> x.id in TeamIdsOfGame(teams, CurrentGame().value.id))
        && (forall x :: x in reply.answers ==> TeamInGame(teams, CurrentGame().value.id, x.teamId))
      ensures reply.Listing? ==>
        (forall t :: t in teams && t.gameId == CurrentGame().value.id ==> TeamRef(t.id, t.name) in reply.teams)
        && (forall a :: a in answers && TeamInGame(teams, CurrentGame().value.id, a.teamId) ==>
          AsAnswerRow(FindTeam(teams, a.teamId).value.name, a) in reply.answers)
    {
      match CurrentGame()
      case None => NoGame
      case Some(g) => Listing(TeamRefsOfGame(teams, g.id), AnswerRowsOfGame(teams, answers, g.id))
    }

    /** `POST /join`: a code that is not the current game's passcode is refused
        with 401 and adds nothing; otherwise exactly one team is added to the
        current game under a fresh id, which is returned. */
    method Join(name: Option<string>, code: Option<string>) returns (r: Result<int, HttpError>)
      requires Valid()
      modifies this
      ensures Valid()
      ensures games == old(games) && answers == old(answers)
      ensures nextGameId == old(nextGameId) && nextAnswerId == old(nextAnswerId)
      ensures code != Some(old(CurrentGame()).value.passcode) ==>
        r == Failure(Unauthorized) && teams == old(teams) && nextTeamId == old(nextTeamId)
      ensures code == Some(old(CurrentGame()).value.passcode) ==>
        && r == Success(old(nextTeamId))
        && teams == old(teams) + [Team(old(nextTeamId), old(CurrentGame()).value.id, name, code.value)]
        && nextTeamId == old(nextTeamId) + 1
      ensures r.Success? ==> ((forall t :: t in old(teams) ==> t.id != r.value)
        && TeamRow(r.value, name, code.value) in Teams())
    {
      var game := CurrentGame();
      if game.None? || Some(game.value.passcode) != code {
        return Failure(Unauthorized);
      }
      var team := Team(nextTeamId, game.value.id, name, code.value);
      teams := teams + [team];
      r := Success(nextTeamId);
      nextTeamId := nextTeamId + 1;
      assert team in teams && AsTeamRow(team) == TeamRow(r.value, name, code.value);
    }

    /** `POST /answer`, the field-driven upsert. A row is inserted only when the
        (team, question) pair has none; on an existing row a sent `awardedPoints`
        changes `awarded_points` alone, otherwise any team field rewrites the three
        team columns, and a body with neither is refused with 409 and changes
        nothing. */
    method SubmitAnswer(b: AnswerBody) returns (r: Result<(), HttpError>)
      requires Valid()
      modifies this
      ensures Valid()
      ensures games == old(games) && teams == old(teams)
      ensures nextGameId == old(nextGameId) && nextTeamId == old(nextTeamId)
      ensures var found := FindAnswer(old(answers), b.teamId, b.question);
        match Branch(found.Some?, b)
        case InsertRow =>
          r.Success? && answers == old(answers) + [NewAnswer(old(nextAnswerId), b)]
          && nextAnswerId == old(nextAnswerId) + 1
        case AwardPoints =>
          r.Success? && answers == old(answers)[found.value := WithAward(old(answers)[found.value], b)]
          && nextAnswerId == old(nextAnswerId)
        case TeamFields =>
          r.Success? && answers == old(answers)[found.value := WithTeamFields(old(answers)[found.value], b)]
          && nextAnswerId == old(nextAnswerId)
        case AlreadySubmitted =>
          r == Failure(Conflict) && answers == old(answers) && nextAnswerId == old(nextAnswerId)
      ensures UniqueAnswers(old(answers)) ==> UniqueAnswers(answers)
      ensures r.Success? ==> FindAnswer(answers, b.teamId, b.question).Some?
    {
      var found := FindAnswer(answers, b.teamId, b.question);
      match Branch(found.Some?, b)
      case InsertRow =>
        var row := NewAnswer(nextAnswerId, b);
        AppendKeepsAnswers(answers, row, nextAnswerId);
        answers := answers + [row];
        nextAnswerId := nextAnswerId + 1;
        r := Success(());
      case AwardPoints =>
        var row := WithAward(answers[found.value], b);
        ReplaceKeepsAnswers(answers, found.value, row, nextAnswerId);
        answers := answers[found.value := row];
        r := Success(());
      case TeamFields =>
        var row := WithTeamFields(answers[found.value], b);
        ReplaceKeepsAnswers(answers, found.value, row, nextAnswerId);
        answers := answers[found.value := row];
        r := Success(());
      case AlreadySubmitted =>
        r := Failure(Conflict);
    }

    /** `POST /reset`: a passcode that is missing or not 4 long is refused with
        400 and changes nothing. Otherwise the current game's teams and their
        answers are deleted, every other row stays, and a new game with the given
        passcode becomes current, so the scoped reads come back empty. */
    method Reset(passcode: Field<string>) returns (r: Result<(int, string), HttpError>)
      requires Valid()
      modifies this
      ensures Valid()
      ensures nextTeamId == old(nextTeamId) && nextAnswerId == old(nextAnswerId)
      ensures !AcceptablePasscode(passcode) ==>
        && r == Failure(BadRequest) && nextGameId == old(nextGameId)
        && games == old(games) && teams == old(teams) && answers == old(answers)
      ensures AcceptablePasscode(passcode) ==>
        var current := old(CurrentGame()).value.id;
        && r == Success((old(nextGameId), passcode.v))
        && games == old(games) + [Game(old(nextGameId), passcode.v)]
        && nextGameId == old(nextGameId) + 1
        && teams == DropGameTeams(old(teams), current)
        && answers == DropTeamAnswers(old(answers), TeamIdsOfGame(old(teams), current))
      ensures r.Success? ==>
        && CurrentGame() == Some(Game(r.value.0, r.value.1))
        && Teams() == [] && AllAnswers() == Listing([], [])
        && forall q :: QuestionAnswers(q) == []
      ensures UniqueAnswers(old(answers)) ==> UniqueAnswers(answers)
    {
      if !AcceptablePasscode(passcode) {
        return Failure(BadRequest);
      }
      var created := Game(nextGameId, passcode.v);
      var keptTeams, keptAnswers := teams, answers;
      var game := CurrentGame();
      if game.Some? {
        var doomed := TeamIdsOfGame(teams, game.value.id);
        ResetKeepsWellFormed(games, teams, answers, nextGameId, nextTeamId, nextAnswerId, game.value.id, passcode.v);
        if UniqueAnswers(answers) {
          DropTeamAnswersKeepsUnique(answers, doomed);
        }
        keptAnswers := DropTeamAnswers(answers, doomed);
        keptTeams := DropGameTeams(teams, game.value.id);
      }
      NoTeamsNoRows(keptTeams, keptAnswers, created.id);
      games, teams, answers, nextGameId := games + [created], keptTeams, keptAnswers, nextGameId + 1;
      r := Success((created.id, created.passcode));
    }
  }
}

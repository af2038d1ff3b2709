/** The question page: the points buttons and their labels, when Submit is
    enabled, the sets built from the team's answers, the redirect away from an
    answered question, the question number's clamp and advance, the submitted
    body, and the session check. */
module Questions {
  import opened Options
  import opened Strings
  import opened Points
  import opened Config
  import opened Schema
  import opened Search
  import opened Session
  import opened Server

  /** `formatPointsLabel`: "1/2" for half a point, otherwise the number as
      `String` writes it. */
  function FormatPointsLabel(p: int): (r: string)
    ensures r == "1/2" <==> p == 1
    ensures p != 1 ==> ParsePoints(r) == Some(p)
  {
    if p == 1 then "1/2"
    else
      FormatRoundTrip(p);
      assert ParsePoints("1/2") == None by {
        assert DigitPrefix("/2") == [];
        assert DigitPrefix("1/2") == "1";
        assert "1/2"[|"1"|..] == "/2";
      }
      Format(p)
  }

  /** One points button: its value in half points (written with `String` and
      read back with `Number`, which gives the same value), and its state. */
  datatype PointsButton = PointsButton(value: int, disabled: bool, locked: bool, active: bool)

  /** `updateSubmitDisabled`: a locked Submit keeps its state; otherwise it is
      enabled exactly when the answer has a non-blank character and the active
      points button is neither disabled nor locked. */
  function SubmitDisabled(locked: bool, wasDisabled: bool, answer: string, selected: Option<PointsButton>): (disabled: bool)
    ensures locked ==> disabled == wasDisabled
    ensures !locked ==> (!disabled <==> !Blank(answer) && selected.Some? && !selected.value.disabled && !selected.value.locked)
  {
    TrimEmptyIffBlank(answer);
    if locked then wasDisabled
    else
      var hasPoints := selected.Some? && !selected.value.disabled && !selected.value.locked;
      !(Trim(answer) != [] && hasPoints)
  }

  /** The points values offered: the configured list when it is a non-empty
      array, otherwise the default points alone, or 0 without a numeric
      default. */
  function AllowedPoints(cfg: QuestionConfig): (r: seq<int>)
    ensures r != []
    ensures cfg.allowedPoints.Some? && cfg.allowedPoints.value != [] ==> r == cfg.allowedPoints.value
    ensures !(cfg.allowedPoints.Some? && cfg.allowedPoints.value != []) ==>
      r == [if cfg.defaultPoints.Some? then cfg.defaultPoints.value else 0]
  {
    var allowed := if cfg.allowedPoints.Some? then cfg.allowedPoints.value else [];
    if allowed == [] then [if cfg.defaultPoints.Some? then cfg.defaultPoints.value else 0] else allowed
  }

  /** A question nobody configured offers the single value 0. */
  lemma UnconfiguredOffersZero(cfg: AppConfig, key: string)
    requires !Configured(cfg, key)
    ensures AllowedPoints(GetQuestionConfig(cfg, key)) == [0]
  {
  }

  /** The team's row for a question in the given round chose `v` points. */
  predicate UsedIn(rows: seq<AnswerRow>, teamId: Option<int>, rounds: map<int, int>, roundNumber: int, v: int) {
    exists a :: a in rows && Some(a.teamId) == teamId && a.questionNumber in rounds
      && rounds[a.questionNumber] == roundNumber && a.chosenPoints == v
  }

  /** `getUsedPointsForRound`: the chosen points of every row of this team whose
      question belongs to the round. A team id that does not parse matches no
      row. */
  method UsedPointsForRound(rows: seq<AnswerRow>, teamId: Option<int>, rounds: map<int, int>, roundNumber: int)
    returns (used: set<int>)
    ensures forall v :: v in used <==> UsedIn(rows, teamId, rounds, roundNumber, v)
  {
    used := {};
    for i := 0 to |rows|
      invariant forall v :: v in used <==> UsedIn(rows[..i], teamId, rounds, roundNumber, v)
    {
      var a := rows[i];
      assert rows[..i + 1] == rows[..i] + [a];
      if Some(a.teamId) == teamId && a.questionNumber in rounds && rounds[a.questionNumber] == roundNumber {
        used := used + {a.chosenPoints};
      }
    }
    assert rows[..|rows|] == rows;
  }

  /** `loadRoundMap`: asks for the configuration of every question 1..maxQuestions
      and records the round of each one that has a numeric round. */
  method LoadRoundMap(cfg: AppConfig, maxQuestions: int) returns (rounds: map<int, int>)
    ensures forall n :: n in rounds <==> 1 <= n <= maxQuestions && RoundOf(cfg, n).Some?
    ensures forall n :: n in rounds ==> rounds[n] == RoundOf(cfg, n).value
  {
    rounds := map[];
    var num := 1;
    while num <= maxQuestions
      invariant num == 1 || 1 <= num <= maxQuestions + 1
      invariant forall n :: n in rounds <==> 1 <= n < num && RoundOf(cfg, n).Some?
      invariant forall n :: n in rounds ==> rounds[n] == RoundOf(cfg, n).value
      decreases maxQuestions - num
    {
      var round := GetQuestionConfig(cfg, IntToString(num)).round;
      if round.Some? {
        rounds := rounds[num := round.value];
      }
      num := num + 1;
    }
  }

  /** The team's row for a question in 1..maxQuestions whose configured round is
      `roundNumber` chose `v` points. */
  predicate UsedInConfiguredRound(rows: seq<AnswerRow>, teamId: Option<int>, cfg: AppConfig, maxQuestions: int,
                                  roundNumber: int, v: int) {
    exists a :: a in rows && Some(a.teamId) == teamId && 1 <= a.questionNumber <= maxQuestions
      && RoundOf(cfg, a.questionNumber) == Some(roundNumber) && a.chosenPoints == v
  }

  /** With the round map `loadRoundMap` builds, a row counts as used in a round
      exactly when its question is one of the first maxQuestions and the
      configuration puts that question in the round. */
  lemma UsedInLoadedRounds(rows: seq<AnswerRow>, teamId: Option<int>, cfg: AppConfig, maxQuestions: int,
                           rounds: map<int, int>, roundNumber: int, v: int)
    requires forall n :: n in rounds <==> 1 <= n <= maxQuestions && RoundOf(cfg, n).Some?
    requires forall n :: n in rounds ==> rounds[n] == RoundOf(cfg, n).value
    ensures UsedIn(rows, teamId, rounds, roundNumber, v) <==>
      UsedInConfiguredRound(rows, teamId, cfg, maxQuestions, roundNumber, v)
  {
    if UsedIn(rows, teamId, rounds, roundNumber, v) {
      var a :| a in rows && Some(a.teamId) == teamId && a.questionNumber in rounds
        && rounds[a.questionNumber] == roundNumber && a.chosenPoints == v;
      assert RoundOf(cfg, a.questionNumber) == Some(roundNumber);
    }
    if UsedInConfiguredRound(rows, teamId, cfg, maxQuestions, roundNumber, v) {
      var a :| a in rows && Some(a.teamId) == teamId && 1 <= a.questionNumber <= maxQuestions
        && RoundOf(cfg, a.questionNumber) == Some(roundNumber) && a.chosenPoints == v;
      assert a.questionNumber in rounds;
    }
  }

  /** The team has a row for the question whose answer text is not blank. */
  predicate AnsweredIn(rows: seq<AnswerRow>, teamId: Option<int>, q: int) {
    exists a :: a in rows && Some(a.teamId) == teamId && a.questionNumber == q && !Blank(Text(a.answer))
  }

  /** `getAnsweredQuestionsForTeam`: the questions this team has answered with
      some non-blank text; a row the host created by awarding points alone does
      not count. */
  method AnsweredQuestions(rows: seq<AnswerRow>, teamId: Option<int>) returns (answered: set<int>)
    ensures forall q :: q in answered <==> AnsweredIn(rows, teamId, q)
  {
    answered := {};
    for i := 0 to |rows|
      invariant forall q :: q in answered <==> AnsweredIn(rows[..i], teamId, q)
    {
      var a := rows[i];
      assert rows[..i + 1] == rows[..i] + [a];
      var answerText := Trim(Text(a.answer));
      TrimEmptyIffBlank(Text(a.answer));
      if Some(a.teamId) == teamId && answerText != [] {
        answered := answered + {a.questionNumber};
      }
    }
    assert rows[..|rows|] == rows;
  }

  /** `redirectIfAnsweredQuestion`: stay when the current question is not
      answered; otherwise go to the first unanswered question in
      1..maxQuestions, and stay when there is none. */
  method RedirectIfAnswered(answered: set<int>, current: Option<int>, maxQuestions: int) returns (target: Option<int>)
    ensures current.None? || current.value !in answered ==> target.None?
    ensures current.Some? && current.value in answered ==>
      (target.None? <==> forall j :: 1 <= j <= maxQuestions ==> j in answered)
    ensures target.Some? ==> (1 <= target.value <= maxQuestions && target.value !in answered
      && Some(target.value) != current
      && forall j :: 1 <= j < target.value ==> j in answered)
  {
    if current.None? || current.value !in answered {
      return None;
    }
    var nextUnanswered := FirstUnanswered(answered, maxQuestions);
    if nextUnanswered.None? || nextUnanswered == current {
      return None;
    }
    target := nextUnanswered;
  }

  /** Fills the new buttons, one per allowed value, none of them disabled,
      locked or active. */
  method CreateButtons(allowed: seq<int>) returns (buttons: array<PointsButton>)
    ensures fresh(buttons)
    ensures buttons.Length == |allowed|
    ensures forall i :: 0 <= i < buttons.Length ==> buttons[i] == PointsButton(allowed[i], false, false, false)
  {
    buttons := new PointsButton[|allowed|](i requires 0 <= i < |allowed| => PointsButton(allowed[i], false, false, false));
  }

  /** Every button whose value was already used in the round is disabled and
      locked; the others are left as they were. */
  method LockUsed(buttons: array<PointsButton>, used: set<int>)
    modifies buttons
    ensures forall i :: 0 <= i < buttons.Length ==>
      buttons[i] == if old(buttons[i]).value in used then old(buttons[i]).(disabled := true, locked := true) else old(buttons[i])
  {
    for i := 0 to buttons.Length
      invariant forall j :: 0 <= j < buttons.Length ==>
        buttons[j] == if j < i && old(buttons[j]).value in used then old(buttons[j]).(disabled := true, locked := true) else old(buttons[j])
    {
      if buttons[i].value in used {
        buttons[i] := buttons[i].(disabled := true, locked := true);
      }
    }
  }

  /** Every button is disabled, with its value and lock left alone. */
  method DisableAll(buttons: array<PointsButton>)
    modifies buttons
    ensures forall i :: 0 <= i < buttons.Length ==> buttons[i] == old(buttons[i]).(disabled := true)
  {
    for i := 0 to buttons.Length
      invariant forall j :: 0 <= j < buttons.Length ==>
        buttons[j] == if j < i then old(buttons[j]).(disabled := true) else old(buttons[j])
    {
      buttons[i] := buttons[i].(disabled := true);
    }
  }

  /** The points part of `loadQuestionConfig`: one button per allowed value;
      when the question's round is known, the values the team already used in
      it are disabled and locked; when the points may not be changed, every
      button is disabled. */
  method LoadButtons(cfg: QuestionConfig, currentRound: Option<int>, used: set<int>) returns (buttons: array<PointsButton>)
    ensures fresh(buttons)
    ensures buttons.Length == |AllowedPoints(cfg)|
    ensures forall i :: 0 <= i < buttons.Length ==>
      && buttons[i].value == AllowedPoints(cfg)[i] && !buttons[i].active
      && (buttons[i].locked <==> currentRound.Some? && buttons[i].value in used)
      && (buttons[i].disabled <==> buttons[i].locked || !cfg.allowChangePoints)
  {
    var allowed := AllowedPoints(cfg);
    buttons := CreateButtons(allowed);
    if currentRound.Some? {
      LockUsed(buttons, used);
    }
    if !cfg.allowChangePoints {
      DisableAll(buttons);
    }
  }

  /** The key `loadQuestionConfig` asks for: the question number as `String`
      writes it, "NaN" when it did not parse. */
  function QuestionKey(question: Option<int>): string {
    if question.Some? then IntToString(question.value) else "NaN"
  }

  /** The points part of `loadQuestionConfig` from the configuration on: the
      question's buttons, where a value is locked exactly when the question
      belongs to a numeric round and the team already chose that value for some
      question of the same round, and every button is disabled when the points
      may not be changed. */
  method LoadQuestionPoints(cfg: AppConfig, question: Option<int>, maxQuestions: int,
                            rows: seq<AnswerRow>, teamId: Option<int>) returns (buttons: array<PointsButton>)
    ensures fresh(buttons)
    ensures var qcfg := GetQuestionConfig(cfg, QuestionKey(question));
      && buttons.Length == |AllowedPoints(qcfg)|
      && forall i :: 0 <= i < buttons.Length ==>
        && buttons[i].value == AllowedPoints(qcfg)[i] && !buttons[i].active
        && (buttons[i].locked <==> (question.Some? && 1 <= question.value <= maxQuestions
              && RoundOf(cfg, question.value).Some?
              && UsedInConfiguredRound(rows, teamId, cfg, maxQuestions, RoundOf(cfg, question.value).value, buttons[i].value)))
        && (buttons[i].disabled <==> buttons[i].locked || !qcfg.allowChangePoints)
  {
    var qcfg := GetQuestionConfig(cfg, QuestionKey(question));
    var rounds := LoadRoundMap(cfg, maxQuestions);
    var currentRound: Option<int> := None;
    if question.Some? && question.value in rounds {
      currentRound := Some(rounds[question.value]);
    }
    var used: set<int> := {};
    if currentRound.Some? {
      used := UsedPointsForRound(rows, teamId, rounds, currentRound.value);
      forall v | true
        ensures v in used <==> UsedInConfiguredRound(rows, teamId, cfg, maxQuestions, currentRound.value, v)
      {
        UsedInLoadedRounds(rows, teamId, cfg, maxQuestions, rounds, currentRound.value, v);
      }
    }
    buttons := LoadButtons(qcfg, currentRound, used);
  }

  /** The page's question number and question count. `currentQuestion` is
      `None` when the `q` parameter does not parse (`NaN`). */
  class QuestionPage {
    var currentQuestion: Option<int>
    var maxQuestions: int

    /** Page load: `parseInt(q || 1, 10)` and the default of 21 questions. */
    constructor (q: Option<string>)
      ensures currentQuestion == (if Text(q) == "" then Some(1) else ParseInt(q.value))
      ensures maxQuestions == 21
    {
      if Text(q) == "" {
        currentQuestion := Some(1);
      } else {
        currentQuestion := ParseInt(q.value);
      }
      maxQuestions := 21;
    }

    /** The `/config` reply and the clamp: only a positive count replaces
        `maxQuestions`, and a question number above it is brought down to it. */
    method ApplyConfig(configMax: Option<int>)
      modifies this
      ensures maxQuestions == MaxQuestions(configMax, old(maxQuestions))
      ensures old(currentQuestion).Some? && old(currentQuestion).value > maxQuestions ==> currentQuestion == Some(maxQuestions)
      ensures !(old(currentQuestion).Some? && old(currentQuestion).value > maxQuestions) ==> currentQuestion == old(currentQuestion)
      ensures currentQuestion.Some? ==> currentQuestion.value <= maxQuestions
    {
      maxQuestions := MaxQuestions(configMax, maxQuestions);
      if currentQuestion.Some? && currentQuestion.value > maxQuestions {
        currentQuestion := Some(maxQuestions);
      }
    }

    /** After a saved answer: the next question when there is one, otherwise the
        game is complete and the number stays. */
    method AdvanceAfterSubmit() returns (advanced: bool)
      modifies this
      ensures advanced <==> old(currentQuestion).Some? && old(currentQuestion).value < maxQuestions
      ensures advanced ==> currentQuestion == Some(old(currentQuestion).value + 1)
      ensures !advanced ==> currentQuestion == old(currentQuestion)
      ensures maxQuestions == old(maxQuestions)
      ensures old(currentQuestion).Some? && old(currentQuestion).value <= maxQuestions ==>
        currentQuestion.Some? && currentQuestion.value <= maxQuestions
    {
      if currentQuestion.Some? && currentQuestion.value < maxQuestions {
        currentQuestion := Some(currentQuestion.value + 1);
        advanced := true;
      } else {
        advanced := false;
      }
    }
  }

  /** The Submit click: no request for a blank answer or without an active,
      unlocked points button; otherwise the trimmed answer, the trimmed bonus
      answer (`null` when the bonus box is hidden) and the button's value under
      the legacy name `points`. */
  function SubmitRequest(teamId: int, question: int, answer: string, bonus: Option<string>, selected: Option<PointsButton>)
    : (r: Option<AnswerBody>)
    ensures r.Some? <==> !Blank(answer) && selected.Some? && !selected.value.locked
    ensures r.Some? ==> (r.value.teamId == teamId && r.value.question == question
      && r.value.answer == Val(Trim(answer)) && Trim(answer) != []
      && r.value.bonusAnswer == (if bonus.Some? then Val(Trim(bonus.value)) else Null)
      && r.value.points == Val(selected.value.value)
      && r.value.chosenPoints == Absent && r.value.awardedPoints == Absent)
  {
    TrimEmptyIffBlank(answer);
    var trimmed := Trim(answer);
    if trimmed == [] then None
    else if selected.None? || selected.value.locked then None
    else
      var bonusAnswer := if bonus.Some? then Val(Trim(bonus.value)) else Null;
      Some(AnswerBody(teamId, question, Val(trimmed), bonusAnswer, Absent, Absent, Val(selected.value.value)))
  }

  /** What the server does with a team's submission: a new row stores the
      trimmed answer, the chosen value and 0 awarded points; an existing row has
      its team columns rewritten with the chosen value. The server's 409 never
      answers a team's own submission. */
  lemma SubmissionOnServer(teamId: int, question: int, answer: string, bonus: Option<string>,
                           selected: Option<PointsButton>, id: int, row: Answer)
    requires SubmitRequest(teamId, question, answer, bonus, selected).Some?
    ensures var b := SubmitRequest(teamId, question, answer, bonus, selected).value;
      && Branch(true, b) == TeamFields
      && NewAnswer(id, b).answer == Some(Trim(answer))
      && NewAnswer(id, b).chosenPoints == selected.value.value
      && NewAnswer(id, b).awardedPoints == Some(0)
      && WithTeamFields(row, b).answer == Some(Trim(answer))
      && WithTeamFields(row, b).chosenPoints == selected.value.value
      && WithTeamFields(row, b).awardedPoints == row.awardedPoints
  {
  }

  /** `validateGameSession`: without a stored team or game, or when the stored
      game is not the current one, the team session is cleared and the page
      gives up; otherwise nothing changes. */
  method ValidateGameSession(store: TeamStorage, currentGame: Option<Game>) returns (ok: bool)
    modifies store
    ensures ok <==> (HasTeamSession(old(store.ReadTeamValue(TeamIdKey)), old(store.ReadTeamValue(GameIdKey)))
      && SameGame(currentGame, old(store.ReadTeamValue(GameIdKey))))
    ensures ok ==> store.local == old(store.local) && store.session == old(store.session)
    ensures !ok ==> store.local == old(store.local) - TeamKeys() && store.session == old(store.session) - TeamKeys()
  {
    var teamId := store.ReadTeamValue(TeamIdKey);
    var storedGameId := store.ReadTeamValue(GameIdKey);
    if Text(teamId) == "" || Text(storedGameId) == "" {
      store.ClearTeamSession();
      return false;
    }
    if currentGame.None? || Some(currentGame.value.id) != ParseInt(storedGameId.value) {
      store.ClearTeamSession();
      return false;
    }
    return true;
  }
}

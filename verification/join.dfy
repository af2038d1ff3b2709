/** The join page: the four passcode boxes, the rules that let a join request
    go out, and the check that sends a returning team straight to its next
    question. */
module Join {
  import opened Options
  import opened Strings
  import opened Schema
  import opened Search
  import opened Session

  /** `sanitizeToDigit`: the first decimal digit of the input, or "" when it has
      none. */
  function SanitizeToDigit(v: Option<string>): (r: string)
    ensures |r| <= 1
    ensures r == [] <==> forall i :: 0 <= i < |Text(v)| ==> !IsDigit(Text(v)[i])
    ensures r != [] ==> IsDigit(r[0]) && exists i :: (0 <= i < |Text(v)| && Text(v)[i] == r[0]
      && forall j :: 0 <= j < i ==> !IsDigit(Text(v)[j]))
  {
    var ds := Digits(Text(v));
    if ds == [] then
      assert forall i :: 0 <= i < |Text(v)| ==> Text(v)[i] !in ds;
      []
    else
      DigitsHead(Text(v));
      assert Text(v)[0] in Text(v) ==> Text(v)[0] !in ds || IsDigit(Text(v)[0]);
      ds[..1]
  }

  /** The digits a paste writes: those of the clipboard text, at most four. */
  function PastedDigits(text: Option<string>): (nums: string)
    ensures AllDigits(nums)
    ensures |nums| == if |Digits(Text(text))| < 4 then |Digits(Text(text))| else 4
    ensures nums == Digits(Text(text))[..|nums|]
  {
    var ds := Digits(Text(text));
    if |ds| <= 4 then ds else ds[..4]
  }

  function Min(a: int, b: int): int {
    if a < b then a else b
  }

  /** The paste handler: box `i` takes the `i`-th pasted digit, later boxes keep
      their values, and a paste without digits changes nothing. Focus moves to
      the box after the last one filled, and at most to the fourth. */
  method Paste(boxes: array<string>, text: Option<string>) returns (focus: Option<int>)
    modifies boxes
    ensures var nums := PastedDigits(text);
      forall i :: 0 <= i < boxes.Length ==> boxes[i] == (if i < |nums| then [nums[i]] else old(boxes[i]))
    ensures PastedDigits(text) == [] ==> focus.None?
    ensures PastedDigits(text) != [] ==>
      var k := Min(|PastedDigits(text)|, 3);
      focus == (if k < boxes.Length then Some(k) else None)
  {
    var nums := PastedDigits(text);
    if nums == [] {
      return None;
    }
    for i := 0 to |nums|
      invariant forall j :: 0 <= j < boxes.Length ==> boxes[j] == (if j < i && j < |nums| then [nums[j]] else old(boxes[j]))
    {
      if i < boxes.Length {
        boxes[i] := [nums[i]];
      }
    }
    var k := Min(|nums|, 3);
    focus := if k < boxes.Length then Some(k) else None;
  }

  /** `digits.map(d => d.value).join('')`. */
  function Concat(boxes: seq<string>): (code: string)
    ensures |boxes| == 0 ==> code == []
  {
    if boxes == [] then [] else boxes[0] + Concat(boxes[1..])
  }

  /** With four boxes of at most one character each, the code is four long
      exactly when every box is filled. */
  lemma {:induction false} CodeCompleteIffAllFilled(boxes: seq<string>)
    requires forall i :: 0 <= i < |boxes| ==> |boxes[i]| <= 1
    ensures |Concat(boxes)| <= |boxes|
    ensures |Concat(boxes)| == |boxes| <==> forall i :: 0 <= i < |boxes| ==> |boxes[i]| == 1
  {
    if boxes != [] {
      CodeCompleteIffAllFilled(boxes[1..]);
      assert forall i :: 1 <= i < |boxes| ==> boxes[i] == boxes[1..][i - 1];
    }
  }

  /** `updateJoinDisabled`: the Play button is enabled iff the trimmed name is
      non-empty and the code is four characters long. */
  predicate JoinEnabled(name: string, boxes: seq<string>) {
    Trim(name) != [] && |Concat(boxes)| == 4
  }

  /** The body of `POST /join`. */
  datatype JoinRequest = JoinRequest(name: string, code: string)

  /** The Play click: no request for a blank name or a code that is not four
      long; otherwise the trimmed name and the code are sent. */
  function JoinClick(name: string, boxes: seq<string>): (r: Option<JoinRequest>)
    ensures r.Some? <==> !Blank(name) && |Concat(boxes)| == 4
    ensures r.Some? ==> r.value.name == Trim(name) && r.value.name != [] && r.value.code == Concat(boxes)
  {
    TrimEmptyIffBlank(name);
    var code := Concat(boxes);
    var trimmed := Trim(name);
    if trimmed == [] then None
    else if |code| != 4 then None
    else Some(JoinRequest(trimmed, code))
  }

  /** A click sends a request exactly when the button is enabled. */
  lemma ClickSendsIffEnabled(name: string, boxes: seq<string>)
    ensures JoinClick(name, boxes).Some? <==> JoinEnabled(name, boxes)
  {
    TrimEmptyIffBlank(name);
  }

  /** Some row of `rows` belongs to the team and the question. */
  predicate HasRow(rows: seq<AnswerRow>, teamId: Option<int>, question: int) {
    exists a :: a in rows && Some(a.teamId) == teamId && a.questionNumber == question
  }

  /** The `answered` set of `redirectIfActiveTeam`: every question the team has
      a row for, whatever its text. */
  method QuestionsWithRows(rows: seq<AnswerRow>, teamId: Option<int>) returns (answered: set<int>)
    ensures forall q :: q in answered <==> HasRow(rows, teamId, q)
  {
    answered := {};
    for i := 0 to |rows|
      invariant forall q :: q in answered <==> HasRow(rows[..i], teamId, q)
    {
      var a := rows[i];
      assert rows[..i + 1] == rows[..i] + [a];
      if Some(a.teamId) == teamId {
        answered := answered + {a.questionNumber};
      }
    }
    assert rows[..|rows|] == rows;
  }

  const JoinPageMaxQuestions := 20

  /** `redirectIfActiveTeam`: with no stored team or game nothing happens; with a
      stored game that is not the current one the team session is cleared and
      nothing else happens; otherwise the team goes to the first question in
      1..maxQuestions it has no row for, or to 1 when it has a row for each. */
  method RedirectIfActiveTeam(store: TeamStorage, currentGame: Option<Game>, rows: seq<AnswerRow>, configMax: Option<int>)
    returns (target: Option<int>)
    modifies store
    ensures !HasTeamSession(old(store.ReadTeamValue(TeamIdKey)), old(store.ReadTeamValue(GameIdKey))) ==>
      target.None? && store.local == old(store.local) && store.session == old(store.session)
    ensures (HasTeamSession(old(store.ReadTeamValue(TeamIdKey)), old(store.ReadTeamValue(GameIdKey)))
      && !SameGame(currentGame, old(store.ReadTeamValue(GameIdKey)))) ==>
      target.None? && store.local == old(store.local) - TeamKeys() && store.session == old(store.session) - TeamKeys()
    ensures (HasTeamSession(old(store.ReadTeamValue(TeamIdKey)), old(store.ReadTeamValue(GameIdKey)))
      && SameGame(currentGame, old(store.ReadTeamValue(GameIdKey)))) ==>
      store.local == old(store.local) && store.session == old(store.session) && target.Some?
    ensures target.Some? ==>
      var teamId := ParseInt(old(store.ReadTeamValue(TeamIdKey)).value);
      var max := MaxQuestions(configMax, JoinPageMaxQuestions);
      && ((forall j :: 1 <= j <= max ==> HasRow(rows, teamId, j)) ==> target.value == 1)
      && (!(forall j :: 1 <= j <= max ==> HasRow(rows, teamId, j)) ==>
            && 1 <= target.value <= max && !HasRow(rows, teamId, target.value)
            && forall j :: 1 <= j < target.value ==> HasRow(rows, teamId, j))
  {
    var teamId := store.ReadTeamValue(TeamIdKey);
    var storedGameId := store.ReadTeamValue(GameIdKey);
    if Text(teamId) == "" || Text(storedGameId) == "" {
      return None;
    }
    var maxQuestions := MaxQuestions(configMax, JoinPageMaxQuestions);
    if currentGame.None? || Some(currentGame.value.id) != ParseInt(storedGameId.value) {
      store.ClearTeamSession();
      return None;
    }
    var answered := QuestionsWithRows(rows, ParseInt(teamId.value));
    var next := FirstUnanswered(answered, maxQuestions);
    var nextUnanswered := if next.Some? then next.value else 1;
    target := Some(nextUnanswered);
  }
}


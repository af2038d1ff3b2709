# Pub trivia: game store, scoring and question flow

A model of the pub-trivia game: the HTTPS server that keeps games, teams and
answers in SQLite, and the four browser scripts that join a team, show and
submit questions, mark answers on the host panel, and render the leaderboard.

- `options.dfy`: `Option` and `Result`.
- `strings.dfy`: the JavaScript string operations the scripts use. These are
  `trim`, the `\D` filter, `String(n)` and `parseInt(s, 10)`, with a code-point
  order standing in for `localeCompare`.
- `points.dfy`: point values as whole numbers of half points (1 is 0.5). Also
  `String(v)` of such a value and `parseFloat` of what it writes.
- `config.dfy`: the parsed question configuration, `getQuestionConfig` and
  `getMaxQuestions`.
- `schema.dfy`: the three tables as sequences in row-id order, and the
  SELECT/DELETE queries the handlers run.
- `server.dfy`: class `Store`, covering startup seeding, `/join`, the
  field-driven `/answer` upsert, `/reset`, and the reads scoped to the current
  game.
- `scoring.dfy`: `calculateTotals`, shared by the host panel and the
  leaderboard.
- `leaderboard.dfy`: the sort comparator, the competition-rank pass and the
  `is-top` mark.
- `host.dfy`: `escapeHtml`, the ± stepper and its running total, and the filter
  for changed points. Class `HostPanel` holds the panel's state.
- `search.dfy`: the `maxQuestions` rule and the next-unanswered search shared by
  the join and question pages.
- `session.dfy`: class `TeamStorage`, the `localStorage`/`sessionStorage` pair
  that holds a team's identity.
- `join.dfy`: the passcode boxes, the join guards and `redirectIfActiveTeam`.
- `questions.dfy`: the round map, the points buttons, the Submit rule, the answered and
  used-points sets, the redirect and the clamp/advance of the question number.
  Class `QuestionPage` holds that number.

Three behaviours of the server are worth noting:

- The server uses the legacy `points` property as the chosen points whenever
  `chosenPoints` is not sent. This is not limited to bodies that carry neither
  `chosenPoints` nor `awardedPoints`. The question page always sends `points`,
  never `chosenPoints`.
- A newly inserted answer row stores the answer text exactly as sent, so ""
  stays "". The update branch stores `answer || null`.
- `/all-answers` with no game replies with an empty list (`NoGame`), not with
  empty `teams` and `answers`.

Points are integers counting half points throughout. Request bodies give each
property three states: not sent, `null`, or a value. The server tells
`undefined` from `null`, and the question page sends `bonusAnswer: null`.

## Model

| member | source | states |
|---|---|---|
| Config.GetQuestionConfig | api/https-server.js:31-37 | the configured entry when the key has a truthy one, otherwise exactly the permissive default (user points allowed, default 0, change allowed) |
| Config.GetMaxQuestions | api/https-server.js:39-42 | 0 when `questions` is missing or not an object, otherwise the number of its keys |
| Config.NoQuestionsMeansDefaults | api/https-server.js:31-42 | a configuration that counts no question answers the permissive default for every key |
| Config.ConfiguredIsCounted | api/https-server.js:31-42 | any configured key makes the question count at least 1 |
| Schema.FindAnswer | api/https-server.js:131 | the first row of the (team, question) pair, or none exactly when no row matches |
| Schema.FindTeam | api/https-server.js:156-161 | a team row with that id, or none exactly when no team has it |
| Schema.TeamsOfGame | api/https-server.js:167-174 | exactly the rows of the game's teams, and none when the game has no team |
| Schema.TeamRefsOfGame | api/https-server.js:219 | exactly the (id, name) of the game's teams |
| Schema.QuestionRows | api/https-server.js:151-164 | exactly the answers to the question by teams of the game, each with its team's name |
| Schema.AnswerRowsOfGame | api/https-server.js:220-226 | exactly the answers of the game's teams, each with its team's name |
| Schema.DropGameTeams | api/https-server.js:187 | keeps exactly the teams of other games, with ids still increasing |
| Schema.DropTeamAnswers | api/https-server.js:186 | keeps exactly the answers of teams outside the deleted set |
| Schema.DropTeamAnswersKeepsIds | api/https-server.js:186 | deleting answers keeps the remaining ids increasing |
| Schema.DropTeamAnswersKeepsUnique | api/https-server.js:186 | deleting answers keeps at most one row per (team, question) |
| Server.Branch | api/https-server.js:129-146 | insert exactly when no row exists; on an existing row, award when `awardedPoints` is sent; otherwise team fields when any of answer, bonus, chosenPoints or points is sent; otherwise conflict |
| Server.NewAnswer | api/https-server.js:129-145 | the inserted row has the next id, team and question; the answer is the text as sent, NULL when it is not sent or sent as `null`; the bonus is the text, NULL when it is not sent, `null` or ""; chosen points are `chosenPoints` when it is a number, the legacy `points` when `chosenPoints` is not sent, and 0 otherwise; awarded points are the number sent, otherwise 0 |
| Server.WithAward | api/https-server.js:134-136 | only `awarded_points` changes: to the number sent, or to NULL for `null` |
| Server.WithTeamFields | api/https-server.js:129-139 | `awarded_points`, id, team and question stay; answer and bonus become the text when it is non-empty and NULL otherwise; chosen points follow the same rule as an insert |
| Server.Store.Open | api/https-server.js:84-91 | after startup a current game exists; an empty store gets one game with passcode "0000", and other tables are untouched |
| Server.Store.CurrentGame | api/https-server.js:84-86 | present exactly when a game exists; it is a stored game with the largest id |
| Server.Store.Teams | api/https-server.js:167-174 | exactly the current game's teams |
| Server.Store.QuestionAnswers | api/https-server.js:151-164 | exactly the answers to the question by the current game's teams |
| Server.Store.AllAnswers | api/https-server.js:213-228 | no game gives the empty reply; otherwise exactly the current game's teams, and exactly the answers of those teams, each with its team's name |
| Server.Store.Join | api/https-server.js:112-123 | a code other than the current passcode gives 401 and adds nothing; otherwise exactly one team with the current game id and the code is appended under a new id, which is returned and listed by `/teams` |
| Server.Store.SubmitAnswer | api/https-server.js:126-148 | the new answers table for each branch: append one row, change awarded points only, rewrite the team columns only, or 409 with nothing changed; one row per (team, question) is kept; after success the pair has a row |
| Server.Store.Reset | api/https-server.js:177-192 | a missing or non-4-long passcode gives 400 and changes nothing; otherwise the current game's teams and their answers are deleted, every other row stays, a new game with that passcode becomes current, and the scoped reads are empty |
| Scoring.CalculateTotals | frontend/scripts/leaderboard.js:12-18 | one entry per team with rows, each equal to the sum of its awarded points with NULL as 0 |
| Scoring.NoRowsNoPoints | frontend/scripts/leaderboard.js:21 | a team without rows totals 0 |
| Scoring.TeamTotalConcat | frontend/scripts/host.js:28-34 | a team's total over two batches of rows is the sum of its totals over each |
| Leaderboard.PrecedesTotal | frontend/scripts/leaderboard.js:53-58 | the comparator orders every pair of teams one way or the other |
| Leaderboard.PrecedesTransitive | frontend/scripts/leaderboard.js:53-58 | the comparator is transitive |
| Leaderboard.Insert | frontend/scripts/leaderboard.js:53 | inserting keeps every team and adds exactly the one inserted |
| Leaderboard.InsertSorted | frontend/scripts/leaderboard.js:53-58 | inserting into a sorted list keeps it sorted |
| Leaderboard.SortTeams | frontend/scripts/leaderboard.js:53-58 | the sorted copy is a permutation of the teams, ordered by the comparator |
| Leaderboard.SortedMeansRanked | frontend/scripts/leaderboard.js:53-58 | in a sorted list totals never increase, and equal totals have names in ascending order |
| Leaderboard.AssignRanks | frontend/scripts/leaderboard.js:61-70 | the rank pass gives each position the rank of the tie rule |
| Leaderboard.RankShape | frontend/scripts/leaderboard.js:61-70 | the first rank is 1, each rank lies in [1, position], a tie shares the previous rank and a drop takes the position |
| Leaderboard.RanksNonDecreasing | frontend/scripts/leaderboard.js:63-69 | ranks never decrease along the list |
| Leaderboard.RankCountsHigherScores | frontend/scripts/leaderboard.js:61-70 | on non-increasing scores a rank is 1 plus the number of strictly higher scores (standard competition ranking) |
| Leaderboard.TopIffNobodyAbove | frontend/scripts/leaderboard.js:22 | a row has rank 1 exactly when its score equals the top score |
| Leaderboard.LoadLeaderboard | frontend/scripts/leaderboard.js:44-72 | every team once, each with its total, ordered by total and then by name, ranked by competition ranking, with `is-top` on exactly the rank-1 rows |
| Host.EscapeHtml | frontend/scripts/host.js:3-7 | no raw `<`, `>`, `"` or `'` in the output, and text without special characters is unchanged |
| Host.EscapeRoundTrip | frontend/scripts/host.js:3-7 | escaping loses nothing: reading the entities back gives the original text |
| Host.StepInverse | frontend/scripts/host.js:192-199 | plus then minus returns the value except from -1/2, minus then plus except from 3/2; both return every whole value and 1/2 |
| Host.AwardBody | frontend/scripts/host.js:370-374 | the host sends only team, question and awarded points |
| Host.Payloads | frontend/scripts/host.js:358-378 | a request for exactly the rendered teams whose shown points differ from their saved awarded points, each carrying the shown value |
| Host.AwardBodyOnServer | frontend/scripts/host.js:367-375 | on the server a host request changes only awarded points of an existing row, and otherwise inserts a row with no answer text and 0 chosen points |
| Host.AnswersFor | frontend/scripts/host.js:110-113 | each mapped row is a row of this question for that team, and every team with such a row is mapped |
| Host.InitialQuestion | frontend/scripts/host.js:223-228 | the result lies in [1, maxQuestions] and is the stored question whenever that parses into the range, otherwise 1 |
| Host.HostPanel.constructor | frontend/scripts/host.js:216-230 | 20 questions, nothing rendered, the question from the last visit when in range |
| Host.HostPanel.InitCurrentQuestion | frontend/scripts/host.js:223-228 | the question becomes the stored one when in range, otherwise 1, and nothing else changes |
| Host.HostPanel.ApplyConfig | frontend/scripts/host.js:409-416 | only a positive count replaces the question count, and then the stored question is checked again |
| Host.HostPanel.LoadAnswers | frontend/scripts/host.js:103-122 | totals are the teams' sums; every team's row shows its saved points and its total |
| Host.HostPanel.Click | frontend/scripts/host.js:186-212 | the cell steps once; the total becomes the saved total plus the change over the saved points; the team becomes dirty |
| Host.HostPanel.SubmitHostPoints | frontend/scripts/host.js:355-379 | the requests sent are exactly the changed-cell requests; exactly those teams leave the dirty set; nothing else changes |
| Host.HostPanel.Navigate | frontend/scripts/host.js:381-392 | one step back or forward and never outside [1, maxQuestions] |
| Host.HostPanel.AfterReset | frontend/scripts/host.js:170-174 | saved rows are forgotten, marking restarts at question 1, and every known team is shown again with 0 points and its total, keeping the panel's invariant |
| Search.FirstUnanswered | frontend/scripts/questions.js:243-249 | the least question in 1..maxQuestions not answered, or none exactly when all are answered |
| Session.JoinedSessionIsKept | frontend/scripts/join.js:159-165 | the ids a join stores form a session that a check against the joined game keeps |
| Session.TeamStorage.ReadTeamValue | frontend/scripts/join.js:18-20 | the local value when non-empty, otherwise the session value, and nothing exactly when neither applies |
| Session.TeamStorage.ClearTeamSession | frontend/scripts/join.js:22-29 | the three team keys are gone from both stores; every other key keeps its value |
| Session.TeamStorage.RecordJoin | frontend/scripts/join.js:159-165 | both stores hold the new ids and name, and the stored ids read back as the numbers written |
| Session.TeamStorage.MigrateToLocal | frontend/scripts/questions.js:14-19 | with a team id present, id, name and game are copied into the local store when non-empty; the session store is untouched |
| Join.SanitizeToDigit | frontend/scripts/join.js:88-90 | at most one character: the first digit of the input, or "" exactly when it has none |
| Join.PastedDigits | frontend/scripts/join.js:111-112 | the first at most four digits of the clipboard text |
| Join.Paste | frontend/scripts/join.js:110-119 | box i takes the i-th pasted digit, later boxes keep their values, a paste without digits changes nothing, and focus goes to box min(count, 3) |
| Join.CodeCompleteIffAllFilled | frontend/scripts/join.js:14-15 | with single-character boxes the code is complete exactly when every box is filled |
| Join.JoinClick | frontend/scripts/join.js:122-147 | a request goes out exactly when the name is not blank and the code is four long, and it carries the trimmed name and the code |
| Join.ClickSendsIffEnabled | frontend/scripts/join.js:11-16 | the click sends a request exactly when the Play button is enabled |
| Join.QuestionsWithRows | frontend/scripts/join.js:56-61 | exactly the questions this team has any row for, whatever its text |
| Join.RedirectIfActiveTeam | frontend/scripts/join.js:31-75 | no session: nothing happens; another game: the session is cleared; same game: the least question without a row, or 1 when every question has one |
| Questions.FormatPointsLabel | frontend/scripts/questions.js:53-57 | "1/2" exactly for half a point; otherwise text that reads back as the value |
| Questions.SubmitDisabled | frontend/scripts/questions.js:79-85 | a locked button keeps its state; otherwise Submit is enabled exactly when the answer is not blank and the active points button is neither disabled nor locked |
| Questions.AllowedPoints | frontend/scripts/questions.js:338-342 | never empty: the configured list when it is a non-empty array, otherwise the numeric default alone or 0 |
| Questions.UnconfiguredOffersZero | frontend/scripts/questions.js:338-342 | a question nobody configured offers only 0 |
| Questions.LoadRoundMap | frontend/scripts/questions.js:183-200 | the loop's map has question n exactly when 1 <= n <= maxQuestions and its configuration gives a numeric round, and maps it to that round |
| Questions.UsedPointsForRound | frontend/scripts/questions.js:202-222 | exactly the chosen points of this team's rows whose question belongs to the round |
| Questions.UsedInLoadedRounds | frontend/scripts/questions.js:183-216 | with the loaded round map, a row counts as used in a round exactly when its question is in 1..maxQuestions and the configuration puts that question in the round |
| Questions.AnsweredQuestions | frontend/scripts/questions.js:224-237 | exactly the questions this team answered with non-blank text |
| Questions.RedirectIfAnswered | frontend/scripts/questions.js:239-257 | no redirect from an unanswered question; otherwise the least unanswered question, no redirect exactly when all are answered, and never to the current question |
| Questions.CreateButtons | frontend/scripts/questions.js:343-357 | one fresh button per allowed value, none disabled, locked or active |
| Questions.LockUsed | frontend/scripts/questions.js:362-371 | buttons with a used value become disabled and locked; the others are unchanged |
| Questions.DisableAll | frontend/scripts/questions.js:373-378 | every button is disabled and nothing else changes |
| Questions.LoadButtons | frontend/scripts/questions.js:336-378 | one button per allowed value; locked exactly when the round is known and the value was used; disabled exactly when locked or points may not change |
| Questions.LoadQuestionPoints | frontend/scripts/questions.js:297-368 | the question's buttons from the configuration: one per allowed value; a value is locked exactly when the question has a numeric round and the team chose that value for some question 1..maxQuestions configured in the same round; every button is disabled when points may not change |
| Questions.QuestionPage.constructor | frontend/scripts/questions.js:26-28 | the question is 1 when `q` is empty, otherwise `parseInt` of it; 21 questions |
| Questions.QuestionPage.ApplyConfig | frontend/scripts/questions.js:490-497 | only a positive count replaces the question count, and a question above it is clamped to it |
| Questions.QuestionPage.AdvanceAfterSubmit | frontend/scripts/questions.js:449-455 | advances by one exactly when below the last question, and never beyond it |
| Questions.SubmitRequest | frontend/scripts/questions.js:399-435 | a request exactly when the answer is not blank and an unlocked points button is active; it carries the trimmed texts, `null` for a hidden bonus, and the value as `points` |
| Questions.SubmissionOnServer | frontend/scripts/questions.js:431-434 | a team's submission never draws 409: a new row stores the answer, the chosen value and 0 awarded, and an existing row keeps its awarded points |
| Questions.ValidateGameSession | frontend/scripts/questions.js:123-152 | the session is kept exactly when both ids are stored and the game is current; otherwise the team keys are cleared |
| Strings.TrimEmptyIffBlank | frontend/scripts/join.js:13-15 | a trimmed text is empty exactly when it is all whitespace |
| Strings.Digits | frontend/scripts/join.js:89 | only digits, no longer than the input, and a character occurs in it exactly when it is a digit of the input |
| Strings.DigitsConcat | frontend/scripts/join.js:89 | the digits of a concatenation are the digits of each part in order |
| Strings.DigitsOfChar | frontend/scripts/join.js:89 | one character yields itself exactly when it is a digit, otherwise nothing; with DigitsConcat this fixes the order and the repeats of the kept digits |
| Strings.ParseIntOfIntToString | frontend/scripts/join.js:159-165 | an id written with `String` reads back with `parseInt` as itself |
| Strings.LexLeTotal | frontend/scripts/leaderboard.js:57 | the name order compares every pair |
| Strings.LexLeTransitive | frontend/scripts/leaderboard.js:57 | the name order is transitive |
| Strings.LexLeAntisymmetric | frontend/scripts/leaderboard.js:57 | names ordered both ways are equal |
| Points.FormatRoundTrip | frontend/scripts/host.js:191-201 | `parseFloat` of a written points value gives the value back |

## Left out

- HTTPS, Express, certificates, CORS and static files are network plumbing.
- Reading and `JSON.parse` of the configuration file are left out. The model
  starts from the parsed value, and a failed load is the empty configuration.
- The `/question-config/:number` and `/config` handlers are left out. They only
  wrap `Config.GetQuestionConfig` and `Config.GetMaxQuestions` in JSON.
- Config lookups that hit inherited object properties (such as `constructor`)
  are left out. A string-valued `questions` is indexed character by character by
  `getQuestionConfig`; the model treats it like any other non-object value
  (`Scalar`) and answers the default.
- SQL text, the `PRAGMA` column migration and `created_at` are left out. The
  current game is the last one inserted. SQLite timestamps have one-second
  resolution, so two games created in the same second may tie; that ordering
  is not modelled.
- Category storage (`/question-category`, `/categories`) is not part of this
  model.
- `fetch`, `async` ordering, polling timers and the live-refresh guard are
  timing and concurrency. The host panel's dirty-cell snapshot and restore
  during a live refresh belong to the same polling and are also left out.
- DOM rendering, alerts, sparkles, the progress bar and focus keys are left
  out. This includes Enter and Backspace, and focus after typing a digit.
- Floating point is left out. Points are half-point integers. `parseFloat` is
  modelled only on the texts the page itself writes.
- Questions.LoadRoundMap: a finite non-integer `round` (such as 1.5) is kept and
  compared by the question page, but rounds here are integers, so such a round
  has no place in the map.
- Questions.LoadRoundMap: the page caches the map from its first call, built
  with the question count known then; the model builds it from the count it is
  given.
- Leaderboard.SortTeams: teams with the same total and the same name text keep
  their input order, as the stable `Array.prototype.sort` does; that order is
  not stated as a property.
- A non-integer `maxQuestions` is left out; question counts are integers.
- Only strings are modelled for passcodes, team names and codes; JSON values of
  other types are left out. Lengths count characters, while JavaScript counts
  UTF-16 units, and these differ only for characters outside the Basic
  Multilingual Plane.
- `teamId` and `question` are numbers in every body. A `NaN` that JSON would send
  as `null` is not modelled.
- The `/answers/:question` parameter is an integer. A non-numeric path matches
  no row in SQLite.
- The first `getCurrentQuestion` of the host script is dead code, shadowed by
  the later declaration.
- `formatPointsValue` is `String` on both branches and is modelled by
  `Points.Format`.
- `checkAnswerExists` and `confirmAnswerSaved` only re-read `/answers/:question`
  to decide what to display, and are left out.
- The host's reset click only checks the passcode locally before calling
  `/reset`, which enforces the same rule. Only its effect on the panel
  (`Host.HostPanel.AfterReset`) is modelled.
- `HttpError.Status` maps the three errors to 401, 400 and 409. It needs no row.
- Host.HostPanel.Click: the row must be rendered. A click on a cell without a
  team row only changes the cell text, and that case is not modelled.
- Questions.QuestionPage.AdvanceAfterSubmit: the 1.4-second delayed navigation
  is left out; only the new question number is modelled.
- `brand.js` and `ecosystem.config.js` hold no game logic.

/** The parsed question configuration the server loads once at startup, and the
    two lookups it answers from it. Reading and parsing the JSON file happen
    before this model starts; a file that failed to load is an empty `{}`. */
module Config {
  import opened Options
  import opened Strings

  /** One configured question, as the client reads it. A property the JSON entry
      leaves out reads as its falsy form: `false`, "", not an array, not a number. */
  datatype QuestionConfig = QuestionConfig(
    allowUserPoints: bool,
    defaultPoints: Option<int>,        // `defaultPoints` when it is a finite number
    allowChangePoints: bool,
    allowedPoints: Option<seq<int>>,   // `allowedPoints` when it is an array
    bonusAnswer: bool,
    labelText: string,
    round: Option<int>)                // `round` when it is a finite number

  /** The value stored under one key of `config.questions`: a falsy JSON value
      (`null`, `false`, `0`, "") or a question object. */
  datatype Entry = Falsy | Settings(settings: QuestionConfig)

  /** `config.questions`: missing or falsy, a truthy non-object such as a number,
      or an object (or array) whose own keys map to entries. */
  datatype Questions = Missing | Scalar | Table(entries: map<string, Entry>)

  datatype AppConfig = AppConfig(questions: Questions)

  /** The permissive object answered for a question nobody configured: users may
      pick points, the default is 0 and the choice may change. */
  const Permissive := QuestionConfig(true, Some(0), true, None, false, "", None)

  predicate Configured(cfg: AppConfig, key: string) {
    cfg.questions.Table? && key in cfg.questions.entries && cfg.questions.entries[key].Settings?
  }

  /** `getQuestionConfig(questionNum)`: the configured entry for the key when there
      is a truthy one, otherwise the permissive default. */
  function GetQuestionConfig(cfg: AppConfig, key: string): (r: QuestionConfig)
    ensures Configured(cfg, key) ==> r == cfg.questions.entries[key].settings
    ensures !Configured(cfg, key) ==> r == Permissive
  {
    match cfg.questions
    case Table(entries) =>
      if key in entries && entries[key].Settings? then entries[key].settings else Permissive
    case _ => Permissive
  }

  /** `getMaxQuestions()`: the number of keys of `config.questions`, or 0 when it
      is missing or not an object. */
  function GetMaxQuestions(cfg: AppConfig): (n: nat)
    ensures !cfg.questions.Table? ==> n == 0
    ensures cfg.questions.Table? ==> n == |cfg.questions.entries.Keys|
  {
    match cfg.questions
    case Table(entries) => |entries.Keys|
    case _ => 0
  }

  /** When the configuration counts no question, every question gets the
      permissive default. */
  lemma NoQuestionsMeansDefaults(cfg: AppConfig, key: string)
    requires GetMaxQuestions(cfg) == 0
    ensures GetQuestionConfig(cfg, key) == Permissive
  {
    if cfg.questions.Table? {
      assert cfg.questions.entries.Keys == {};
    }
  }

  /** A configured key is counted: the question count is at least 1 whenever any
      question has its own settings. */
  lemma ConfiguredIsCounted(cfg: AppConfig, key: string)
    requires Configured(cfg, key)
    ensures GetMaxQuestions(cfg) >= 1
  {
    assert key in cfg.questions.entries.Keys;
  }

  /** The round of question `n` as a client reads it from
      `/question-config/n`: the configured `round` when it is a number. */
  function RoundOf(cfg: AppConfig, n: int): Option<int> {
    GetQuestionConfig(cfg, IntToString(n)).round
  }
}

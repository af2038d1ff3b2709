/** The question-count rule and the next-unanswered-question search that the
    join page and the question page share. */
module Search {
  import opened Options

  /** `maxQuestions` after the `/config` reply: only a positive count replaces
      the page's default. */
  function MaxQuestions(configMax: Option<int>, default: int): int {
    if configMax.Some? && configMax.value > 0 then configMax.value else default
  }

  /** The `for (let i = 1; i <= maxQuestions; i += 1)` loop that stops at the
      first question not in `answered`; `None` when every question up to
      `maxQuestions` is answered. */
  method FirstUnanswered(answered: set<int>, maxQuestions: int) returns (next: Option<int>)
    ensures next.Some? ==> 1 <= next.value <= maxQuestions && next.value !in answered
    ensures next.Some? ==> forall j :: 1 <= j < next.value ==> j in answered
    ensures next.None? <==> forall j :: 1 <= j <= maxQuestions ==> j in answered
  {
    next := None;
    var i := 1;
    while i <= maxQuestions
      invariant 1 <= i
      invariant i <= maxQuestions + 1 || i == 1
      invariant forall j :: 1 <= j < i ==> j in answered
      decreases maxQuestions - i
    {
      if i !in answered {
        next := Some(i);
        break;
      }
      i := i + 1;
    }
  }
}

/** The question grid and the buttons under it: how many questions are
    answered, when submitting is allowed, and how each grid cell looks. */
module QuizNavigation {
  import opened Options
  import opened QuizSession

  /** Every question answered: the answered count reaches the total. */
  predicate AllAnswered(answers: seq<Answer>, totalQuestions: nat) {
    AnsweredCount(answers) == totalQuestions
  }

  /** With one slot per question, "all answered" means no slot is empty,
      and any empty slot keeps it false. */
  lemma AllAnsweredMeansNoEmptySlot(answers: seq<Answer>, totalQuestions: nat)
    requires |answers| == totalQuestions
    ensures AllAnswered(answers, totalQuestions) <==> forall i | 0 <= i < |answers| :: answers[i].Some?
  {
  }

  /** The submit button is enabled only when every question is answered. */
  function SubmitEnabled(answers: seq<Answer>, totalQuestions: nat): (b: bool)
    ensures |answers| == totalQuestions ==> (b <==> forall i | 0 <= i < |answers| :: answers[i].Some?)
  {
    AllAnswered(answers, totalQuestions)
  }

  /** The "answer all questions" hint: under the submit button while some
      question is still open. */
  function WarningShown(answers: seq<Answer>, totalQuestions: nat, showSubmit: bool): (b: bool)
    ensures b <==> showSubmit && !SubmitEnabled(answers, totalQuestions)
  {
    !AllAnswered(answers, totalQuestions) && showSubmit
  }

  datatype CellStyle = Current | Answered | Open

  /** The style of grid cell `index`. A cell past the end of the answers
      list reads an undefined slot, which is not `null`, so it shows as
      answered. */
  function CellStyleOf(index: nat, current: int, answers: seq<Answer>): (c: CellStyle)
    ensures index == current ==> c == Current
    ensures index != current && index < |answers| ==> (c == Answered <==> answers[index].Some?)
    ensures index != current && index >= |answers| ==> c == Answered
  {
    var answered := index >= |answers| || answers[index].Some?;
    if index == current then Current else if answered then Answered else Open
  }

  /** The grid: one cell per question. */
  function Cells(current: int, answers: seq<Answer>, totalQuestions: nat): (cs: seq<CellStyle>)
    ensures |cs| == totalQuestions
    ensures forall i | 0 <= i < totalQuestions :: cs[i] == CellStyleOf(i, current, answers)
  {
    seq(totalQuestions, i requires 0 <= i < totalQuestions => CellStyleOf(i, current, answers))
  }

  /** On a grid with one slot per question, with the current question in
      range: exactly one cell is current, and no cell is shown open once
      every question is answered. */
  lemma GridFacts(current: int, answers: seq<Answer>, totalQuestions: nat)
    requires |answers| == totalQuestions && 0 <= current < totalQuestions
    ensures Cells(current, answers, totalQuestions)[current] == Current
    ensures forall i | 0 <= i < totalQuestions && i != current :: Cells(current, answers, totalQuestions)[i] != Current
    ensures AllAnswered(answers, totalQuestions) ==> Open !in Cells(current, answers, totalQuestions)
  {
  }
}

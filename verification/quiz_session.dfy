/** The quiz-taking page's session: one answer slot per question, the
    index of the question on screen, moves between questions and the
    score computed on submission. */
module QuizSession {
  import opened Options
  import opened Seqs
  import opened Numbers

  /** An answer slot: the chosen option's index, or nothing yet. */
  type Answer = Option<int>

  datatype Session = Session(
    quizId: string,
    index: int,
    answers: seq<Answer>,
    timeRemaining: Option<nat>)

  /** The session a page opens with: the first question on screen, every
      slot empty, and the quiz's duration in minutes turned into seconds
      (no timer when the duration is absent or zero). The start time is a
      clock reading and is not part of the model. */
  function NewSession(id: Option<string>, questionCount: nat, durationMinutes: Option<nat>): (s: Session)
    ensures s.index == 0 && |s.answers| == questionCount
    ensures forall i | 0 <= i < |s.answers| :: s.answers[i].None?
    ensures s.quizId == (if id.Some? then id.value else "")
    ensures s.timeRemaining.Some? <==> durationMinutes.Some? && durationMinutes.value > 0
    ensures s.timeRemaining.Some? ==> s.timeRemaining.value == 60 * durationMinutes.value
  {
    var t := if durationMinutes.Some? && durationMinutes.value > 0 then Some(durationMinutes.value * 60) else None;
    Session(id.GetOr(""), 0, seq(questionCount, _ => None), t)
  }

  predicate IsAnswered(a: Answer) {
    a.Some?
  }

  /** The number of slots holding an answer. */
  function AnsweredCount(answers: seq<Answer>): (n: nat)
    ensures n <= |answers|
    ensures n == |answers| <==> forall i | 0 <= i < |answers| :: answers[i].Some?
    ensures n == 0 <==> forall i | 0 <= i < |answers| :: answers[i].None?
  {
    CountAll(answers, IsAnswered);
    CountZero(answers, IsAnswered);
    Count(answers, IsAnswered)
  }

  /** `handleAnswerSelect`: the slot at the current index takes the
      answer; no other slot and not the index changes. An index outside
      the slots changes nothing. */
  function SelectAnswer(s: Session, answer: int): (r: Session)
    ensures r.quizId == s.quizId && r.index == s.index && r.timeRemaining == s.timeRemaining
    ensures |r.answers| == |s.answers|
    ensures forall i | 0 <= i < |s.answers| && i != s.index :: r.answers[i] == s.answers[i]
    ensures 0 <= s.index < |s.answers| ==> r.answers[s.index] == Some(answer)
    ensures !(0 <= s.index < |s.answers|) ==> r == s
  {
    s.(answers := seq(|s.answers|, i requires 0 <= i < |s.answers| =>
      if i == s.index then Some(answer) else s.answers[i]))
  }

  /** The last choice wins: choosing twice is choosing the second. */
  lemma SelectAnswerLastWins(s: Session, a: int, b: int)
    ensures SelectAnswer(SelectAnswer(s, a), b) == SelectAnswer(s, b)
  {
  }

  /** Choosing an answer fills at most one more slot: exactly one when
      the current slot was empty. */
  lemma {:induction false} SelectAnswerCount(s: Session, a: int)
    requires 0 <= s.index < |s.answers|
    ensures AnsweredCount(SelectAnswer(s, a).answers) ==
      AnsweredCount(s.answers) + (if s.answers[s.index].None? then 1 else 0)
  {
    var xs, ys := s.answers, SelectAnswer(s, a).answers;
    var k := s.index;
    assert xs == xs[..k] + [xs[k]] + xs[k + 1..];
    assert ys == xs[..k] + [Some(a)] + xs[k + 1..];
    CountConcat(xs[..k] + [xs[k]], xs[k + 1..], IsAnswered);
    CountConcat(xs[..k], [xs[k]], IsAnswered);
    CountConcat(xs[..k] + [Some(a)], xs[k + 1..], IsAnswered);
    CountConcat(xs[..k], [Some(a)], IsAnswered);
  }

  /** `handleQuestionSelect`: the index is set as given, unchecked. */
  function SelectQuestion(s: Session, i: int): (r: Session)
    ensures r.index == i
    ensures r.answers == s.answers && r.quizId == s.quizId && r.timeRemaining == s.timeRemaining
  {
    s.(index := i)
  }

  /** `canGoPrevious`: the "previous" arrow is live exactly when pressing
      it moves to the question before. */
  function CanGoPrevious(s: Session): (b: bool)
    ensures b <==> Previous(s) != s
    ensures b ==> Previous(s).index == s.index - 1
  {
    s.index > 0
  }

  /** `canGoNext` for `n` questions: the "next" arrow is live exactly
      when pressing it moves to the question after. */
  function CanGoNext(s: Session, n: nat): (b: bool)
    ensures b <==> Next(s, n) != s
    ensures b ==> Next(s, n).index == s.index + 1 && s.index + 1 < n
  {
    s.index < n - 1
  }

  /** `showSubmit` for `n` questions: on the last question, where
      "next" no longer moves; on a question inside the list it is shown
      exactly when "next" stays put. */
  function ShowSubmit(s: Session, n: nat): (b: bool)
    ensures b ==> Next(s, n) == s && s.index + 1 == n
    ensures 0 <= s.index < n ==> (b <==> Next(s, n) == s)
  {
    s.index == n - 1
  }

  /** `handlePrevious`: one back when not at the first question. */
  function Previous(s: Session): (r: Session)
    ensures s.index > 0 ==> r == s.(index := s.index - 1)
    ensures s.index <= 0 ==> r == s
  {
    if s.index > 0 then s.(index := s.index - 1) else s
  }

  /** `handleNext`: one forward when not at the last question. */
  function Next(s: Session, n: nat): (r: Session)
    ensures s.index < n - 1 ==> r == s.(index := s.index + 1)
    ensures s.index >= n - 1 ==> r == s
  {
    if s.index < n - 1 then s.(index := s.index + 1) else s
  }

  /** The arrows never leave the questions: an index in range stays in
      range, and on a question inside the list exactly one of "next" and
      "submit" is offered. */
  lemma NavigationStaysInRange(s: Session, n: nat)
    requires 0 <= s.index < n
    ensures 0 <= Previous(s).index < n
    ensures 0 <= Next(s, n).index < n
    ensures CanGoNext(s, n) != ShowSubmit(s, n)
  {
  }

  /** From a non-negative index, forward then back returns to the same
      question, and so does back then forward. */
  lemma NextPreviousInverse(s: Session, n: nat)
    ensures CanGoNext(s, n) && s.index >= 0 ==> Previous(Next(s, n)) == s
    ensures CanGoPrevious(s) && s.index <= n - 1 ==> Next(Previous(s), n) == s
  {
  }

  /** The number of slots whose answer equals the question's correct
      option. An empty slot never counts, nor does a slot with no
      question behind it. */
  function CorrectCount(answers: seq<Answer>, keys: seq<int>): (n: nat)
    ensures n <= AnsweredCount(answers)
    ensures n <= |keys|
  {
    if answers == [] || keys == [] then 0
    else
      var rest := CorrectCount(answers[1..], keys[1..]);
      assert answers == [answers[0]] + answers[1..];
      CountConcat([answers[0]], answers[1..], IsAnswered);
      if answers[0] == Some(keys[0]) then 1 + rest else rest
  }

  /** Grading one more slot: the count grows by one exactly when the
      new slot has a question behind it and holds that question's
      correct option. With the empty base case this pins the count as
      the number of positions `i < |keys|` where `answers[i] == Some(keys[i])`. */
  lemma {:induction false} CorrectCountSnoc(answers: seq<Answer>, a: Answer, keys: seq<int>)
    ensures CorrectCount(answers + [a], keys) ==
      CorrectCount(answers, keys) + (if |answers| < |keys| && a == Some(keys[|answers|]) then 1 else 0)
  {
    if answers == [] {
      if keys != [] {
        assert ([a] + [])[1..] == [];
      }
    } else if keys == [] {
    } else {
      assert (answers + [a])[0] == answers[0];
      assert (answers + [a])[1..] == answers[1..] + [a];
      CorrectCountSnoc(answers[1..], a, keys[1..]);
    }
  }

  /** The submit handler's tally: walk the answers in order and count
      each one that equals its question's correct option; a slot past
      the last question compares against nothing and never counts. */
  method TallyCorrect(answers: seq<Answer>, keys: seq<int>) returns (n: nat)
    ensures n == CorrectCount(answers, keys)
  {
    n := 0;
    var i := 0;
    while i < |answers|
      invariant 0 <= i <= |answers|
      invariant n == CorrectCount(answers[..i], keys)
    {
      var prefix, a := answers[..i], answers[i];
      assert answers[..i + 1] == prefix + [a];
      CorrectCountSnoc(prefix, a, keys);
      if i < |keys| && a == Some(keys[i]) {
        n := n + 1;
      }
      i := i + 1;
    }
    assert answers[..i] == answers;
  }

  /** Fully correct answers score every question. */
  lemma {:induction false} CorrectCountAllRight(keys: seq<int>)
    ensures CorrectCount(seq(|keys|, i requires 0 <= i < |keys| => Some(keys[i])), keys) == |keys|
  {
    if keys != [] {
      var answers := seq(|keys|, i requires 0 <= i < |keys| => Some(keys[i]));
      assert answers[1..] == seq(|keys[1..]|, i requires 0 <= i < |keys[1..]| => Some(keys[1..][i]));
      CorrectCountAllRight(keys[1..]);
    }
  }

  /** The score on submission: the rounded percentage of questions
      answered correctly; with no questions there is no number. */
  function Score(s: Session, keys: seq<int>): (r: Option<nat>)
    ensures r.None? <==> keys == []
    ensures r.Some? ==> RoundsToPercent(r.value, CorrectCount(s.answers, keys), |keys|)
    ensures r.Some? ==> r.value <= 100
    ensures r.Some? && CorrectCount(s.answers, keys) == 0 ==> r.value == 0
    ensures r.Some? && CorrectCount(s.answers, keys) == |keys| ==> r.value == 100
  {
    if keys == [] then None
    else
      var correct, n := CorrectCount(s.answers, keys), |keys|;
      Some(Percent(correct, n))
  }

  /** A session with nothing answered scores zero, and one answered
      entirely right scores 100. */
  lemma ScoreExtremes(s: Session, keys: seq<int>)
    requires keys != []
    ensures AnsweredCount(s.answers) == 0 ==> Score(s, keys) == Some(0)
    ensures s.answers == seq(|keys|, i requires 0 <= i < |keys| => Some(keys[i])) ==> Score(s, keys) == Some(100)
  {
    if s.answers == seq(|keys|, i requires 0 <= i < |keys| => Some(keys[i])) {
      CorrectCountAllRight(keys);
    }
  }
}

/** The decisions the question panel makes when it renders a question
    (src/components/QuestionPanel.tsx): whether an answer may be given, whether the
    Previous and Next buttons are disabled, how each choice is highlighted, what a click
    forwards, and the letter each choice is labelled with. */
module QuestionPanel {
  import opened Wrappers
  import opened Records
  import opened SessionRules

  /** `!attempt || session.mode === "practice"`. */
  predicate CanAnswer(attempt: Option<Attempt>, mode: string)
  {
    attempt.None? || mode == PracticeMode
  }

  /** Previous is disabled on the first position, Next on the last. */
  predicate IsFirstQuestion(currentIndex: int)
  {
    currentIndex == 0
  }

  predicate IsLastQuestion(currentIndex: int, total: int)
  {
    currentIndex == total - 1
  }

  /** The three looks a choice button can have. */
  datatype Highlight = Plain | MarkedCorrect | MarkedWrong

  /** The button variant for each look. */
  function Variant(h: Highlight): string
  {
    match h
    case Plain => "outline"
    case MarkedCorrect => "default"
    case MarkedWrong => "secondary"
  }

  /** The extra classes appended for each look. */
  function ExtraClass(h: Highlight): string
  {
    match h
    case Plain => ""
    case MarkedCorrect => "border-success bg-success/10 text-success"
    case MarkedWrong => "border-destructive bg-destructive/10 text-destructive"
  }

  /** The three looks are told apart both by variant and by classes. */
  lemma LooksDistinct(h: Highlight, k: Highlight)
    requires h != k
    ensures Variant(h) != Variant(k) && ExtraClass(h) != ExtraClass(k)
  {
  }

  /** The look of the choice at `index`: nothing is marked before an attempt; after one,
      the correct choice is marked correct, and the chosen choice, when different and
      the attempt incorrect, is marked wrong. */
  function ChoiceHighlight(index: int, correctIndex: int, attempt: Option<Attempt>): (h: Highlight)
    ensures attempt.None? ==> h == Plain
    ensures attempt.Some? && index == correctIndex ==> h == MarkedCorrect
    ensures h == MarkedWrong <==>
              attempt.Some? && index != correctIndex && index == attempt.value.choiceIndex && !attempt.value.correct
    ensures h == MarkedCorrect <==> attempt.Some? && index == correctIndex
  {
    if attempt.Some? then
      if index == correctIndex then MarkedCorrect
      else if index == attempt.value.choiceIndex && !attempt.value.correct then MarkedWrong
      else Plain
    else Plain
  }

  /** `String.fromCharCode(65 + index)`: 'A' for the first choice, 'B' for the next, and
      so on. (The bound keeps the code below the surrogate range, where `char` ends.) */
  function Label(index: int): (c: char)
    requires 0 <= index && 65 + index < 0xD800
    ensures c as int == 65 + index
  {
    (65 + index) as char
  }

  /** `() => canAnswer && onAnswer(index)`: the choice reaches the engine only when an
      answer may be given. */
  function ClickForwards(canAnswer: bool, index: int): (forwarded: Option<int>)
    ensures forwarded.Some? <==> canAnswer
    ensures forwarded.Some? ==> forwarded.value == index
  {
    if canAnswer then Some(index) else None
  }

  /** One rendered choice button. */
  datatype ChoiceButton = ChoiceButton(
    letter: char, text: string, variant: string, extraClass: string, disabled: bool)

  /** `question.choices.map(...)`: one button per choice, in order. */
  function ChoiceButtons(q: Question, attempt: Option<Attempt>, mode: string): (bs: seq<ChoiceButton>)
    requires 65 + |q.choices| <= 0xD800
    ensures |bs| == |q.choices|
    ensures forall i :: 0 <= i < |bs| ==>
              && bs[i].letter as int == 65 + i
              && bs[i].text == q.choices[i]
              && bs[i].variant == Variant(ChoiceHighlight(i, q.correctIndex, attempt))
              && bs[i].extraClass == ExtraClass(ChoiceHighlight(i, q.correctIndex, attempt))
              && bs[i].disabled == !CanAnswer(attempt, mode)
  {
    seq(|q.choices|, i requires 0 <= i < |q.choices| =>
      var h := ChoiceHighlight(i, q.correctIndex, attempt);
      ChoiceButton(Label(i), q.choices[i], Variant(h), ExtraClass(h), !CanAnswer(attempt, mode)))
  }

  /** After an attempt graded against this question, at most one choice is marked wrong,
      none when the attempt is correct, and the chosen choice shows the verdict the
      attempt carries. */
  lemma MarksAfterGradedAttempt(q: Question, a: Attempt)
    requires a.correct == Grade(a.choiceIndex, q)
    ensures forall i, j :: (ChoiceHighlight(i, q.correctIndex, Some(a)) == MarkedWrong
                            && ChoiceHighlight(j, q.correctIndex, Some(a)) == MarkedWrong) ==> i == j
    ensures ChoiceHighlight(a.choiceIndex, q.correctIndex, Some(a))
              == (if a.correct then MarkedCorrect else MarkedWrong)
    ensures a.correct ==> forall i :: ChoiceHighlight(i, q.correctIndex, Some(a)) != MarkedWrong
  {
  }

  /** Labels are distinct for distinct choices. */
  lemma LabelsDistinct(i: int, j: int)
    requires 0 <= i && 65 + i < 0xD800 && 0 <= j && 65 + j < 0xD800
    requires i != j
    ensures Label(i) != Label(j)
  {
  }

  /** The disabled Previous and Next buttons are exactly the moves that would not change
      the position. */
  lemma DisabledIffNoMove(currentIndex: int, total: int)
    requires 0 <= currentIndex < total
    ensures IsFirstQuestion(currentIndex) <==> NavigationTarget(currentIndex, total, -1) == currentIndex
    ensures IsLastQuestion(currentIndex, total) <==> NavigationTarget(currentIndex, total, 1) == currentIndex
  {
  }

  /** For the two modes the page offers, the panel lets an answer through exactly when
      the engine's exam guard does not refuse it: the panel looks the attempt up by the
      shown question's id, the engine by the id at the current position. */
  lemma PanelAgreesWithGuard(s: Session, cache: map<int, Question>, attempts: map<int, Attempt>)
    requires s.mode == ExamMode || s.mode == PracticeMode
    requires KeyedById(cache)
    requires CurrentQuestion(Some(s), cache).Some?
    ensures CanAnswer(CurrentAttempt(CurrentQuestion(Some(s), cache), attempts), s.mode)
            <==> !ReanswerBlocked(s.mode, attempts, s.questionOrder[s.currentIndex])
  {
  }

  /** Any other mode text splits the two once an attempt for the shown question is
      known: the panel refuses a second answer while the engine would accept it. */
  lemma PanelAndGuardDisagreeOnOtherModes(s: Session, cache: map<int, Question>, attempts: map<int, Attempt>)
    requires s.mode != ExamMode && s.mode != PracticeMode
    requires KeyedById(cache)
    requires CurrentQuestion(Some(s), cache).Some?
    requires s.questionOrder[s.currentIndex] in attempts
    ensures !CanAnswer(CurrentAttempt(CurrentQuestion(Some(s), cache), attempts), s.mode)
    ensures !ReanswerBlocked(s.mode, attempts, s.questionOrder[s.currentIndex])
    ensures AnswerTarget(s, cache, attempts) == CurrentQuestion(Some(s), cache)
  {
  }
}

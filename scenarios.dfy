/** Walk-throughs of the page in use: an exam run in which an answered question cannot
    be answered again after navigating back to it, a practice run in which it can, a
    session created on one device and resumed on another, and a finish after navigating;
    and the panel's answer gating applied to the engine's own state. */
module Scenarios {
  import opened Wrappers
  import opened Records
  import opened SessionRules
  import opened Engine
  import QuestionPanel

  /** An exam of five questions. A correct answer on the first one moves to the second
      and scores one; going back to the first, the page shows the recorded attempt, no
      answer is possible there, and the engine refuses one, so the score and the
      position stay as they were. */
  lemma ExamRun(order: seq<int>, cache: map<int, Question>, choice: int)
    requires |order| == 5 && order[0] != 0 && order[0] in cache && KeyedById(cache)
    requires choice == cache[order[0]].correctIndex
    ensures var s0 := Session("s", "u", ExamMode, order, 0, 5, 0, "t0", None);
            var q := cache[order[0]];
            var a := Attempt("s", order[0], choice, Grade(choice, q));
            var s1 := Advance(s0, a.correct);
            var back := s1.(currentIndex := NavigationTarget(s1.currentIndex, s1.total, -1));
            && Consistent(s0, map[])
            && AnswerTarget(s0, cache, map[]) == Some(q)
            && a.correct
            && s1.currentIndex == 1 && s1.score == 1 && s1.total == 5
            && Consistent(s1, map[order[0] := a])
            && back.currentIndex == 0
            && CurrentQuestion(Some(back), cache) == Some(q)
            && CurrentAttempt(CurrentQuestion(Some(back), cache), map[order[0] := a]) == Some(a)
            && AnswerTarget(back, cache, map[order[0] := a]) == None
  {
    var s0 := Session("s", "u", ExamMode, order, 0, 5, 0, "t0", None);
    var a := Attempt("s", order[0], choice, Grade(choice, cache[order[0]]));
    AnswerKeepsConsistent(s0, map[], a);
  }

  /** A practice session of three questions. A wrong answer on the first one moves to the
      second without scoring; going back, the answer is open again, and a correct one
      replaces the wrong attempt, scores one and moves to the second question again. */
  lemma PracticeRun(order: seq<int>, cache: map<int, Question>, wrong: int, right: int)
    requires |order| == 3 && order[0] != 0 && order[0] in cache && KeyedById(cache)
    requires wrong != cache[order[0]].correctIndex && right == cache[order[0]].correctIndex
    ensures var s0 := Session("s", "u", PracticeMode, order, 0, 3, 0, "t0", None);
            var q := cache[order[0]];
            var a1 := Attempt("s", order[0], wrong, Grade(wrong, q));
            var s1 := Advance(s0, a1.correct);
            var back := s1.(currentIndex := NavigationTarget(s1.currentIndex, s1.total, -1));
            var a2 := Attempt("s", order[0], right, Grade(right, q));
            var s2 := Advance(back, a2.correct);
            var attempts := map[order[0] := a1][order[0] := a2];
            && !a1.correct && s1.currentIndex == 1 && s1.score == 0
            && back.currentIndex == 0
            && AnswerTarget(back, cache, map[order[0] := a1]) == Some(q)
            && a2.correct && s2.currentIndex == 1 && s2.score == 1
            && CurrentAttempt(Some(q), attempts) == Some(a2)
            && Consistent(s2, attempts)
  {
  }

  /** A session created by one engine and resumed, before any answer, by a fresh engine
      (another device) from the record the store holds: the resumed session is the
      created one, at position 0 with score 0, no attempt is known, every question of
      the order is cached, and the invariant holds. */
  method CreateThenResume(u: string, mode: string, rows: seq<QuestionRow>, stamp: Stamp)
    returns (created: Session, resumed: SessionEngine)
    requires rows != []
    ensures resumed.session == Some(created)
    ensures created.currentIndex == 0 && created.score == 0 && created.total == |rows|
    ensures multiset(created.questionOrder) == multiset(RowIds(rows))
    ensures resumed.attemptsByQ == map[]
    ensures forall k :: k in created.questionOrder ==> k in resumed.questionsCache
    ensures resumed.Valid()
  {
    var first := new SessionEngine();
    first.SetUser(Some(u));
    var _ := first.CreateNewSession(mode, Ok(rows), Ok(stamp));
    created := first.session.value;
    PermutationMembers(created.questionOrder, RowIds(rows));
    resumed := new SessionEngine();
    resumed.SetUser(Some(u));
    var _ := resumed.ResumeLastSession(Ok([created]), Some(rows), Ok([]));
  }

  /** Create an exam, step forward without answering, finish: the page adopts the
      store's record, so the finished session is back at position 0, where the store's
      position was last written. */
  method FinishAfterNavigating(u: string, rows: seq<QuestionRow>, stamp: Stamp, now: string)
    returns (navigated: Session, finished: Session)
    requires |rows| == 3
    ensures navigated.currentIndex == 1
    ensures finished == navigated.(currentIndex := 0, finishedAt := Some(now))
  {
    var e := new SessionEngine();
    e.SetUser(Some(u));
    var _ := e.CreateNewSession(ExamMode, Ok(rows), Ok(stamp));
    e.NavigateQuestion(1);
    navigated := e.session.value;
    var _ := e.FinishSession(now, Ok(()), None);
    finished := e.session.value;
  }

  /** On the engine's own state, for the two modes the page offers, the panel offers an
      answer exactly when the engine would take it. */
  lemma EnginePanelAgrees(e: SessionEngine)
    requires e.Valid() && e.session.Some?
    requires e.session.value.mode == ExamMode || e.session.value.mode == PracticeMode
    requires CurrentQuestion(e.session, e.questionsCache).Some?
    ensures QuestionPanel.CanAnswer(CurrentAttempt(CurrentQuestion(e.session, e.questionsCache), e.attemptsByQ),
                                    e.session.value.mode)
            <==> AnswerTarget(e.session.value, e.questionsCache, e.attemptsByQ).Some?
  {
    QuestionPanel.PanelAgreesWithGuard(e.session.value, e.questionsCache, e.attemptsByQ);
  }
}

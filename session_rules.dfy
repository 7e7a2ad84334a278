/** The rules of the exam-session engine that do not depend on the store: where an
    answer goes, how it is graded and counted, where navigation lands, which questions
    are listed for review, and which question and attempt the page shows. The stateful
    engine in `Engine` applies them. All of it is in src/pages/Index.tsx. */
module SessionRules {
  import opened Wrappers
  import opened Records

  function Min(a: int, b: int): int { if a <= b then a else b }
  function Max(a: int, b: int): int { if a >= b then a else b }

  // ---------------------------------------------------------------------------
  // Answer submission (src/pages/Index.tsx:218-277)
  // ---------------------------------------------------------------------------

  /** The exam-mode re-answer guard: an exam answer is final once an attempt for the
      question is known. */
  predicate ReanswerBlocked(mode: string, attempts: map<int, Attempt>, questionId: int)
  {
    mode == ExamMode && questionId in attempts
  }

  /** The question an answer submitted now is graded against, or None when
      `submitAnswer` returns without doing anything: the position holds no id (reading
      past the end yields undefined), the id is not cached, or the exam guard blocks it. */
  function AnswerTarget(s: Session, cache: map<int, Question>, attempts: map<int, Attempt>): (r: Option<Question>)
    ensures r.Some? <==> (0 <= s.currentIndex < |s.questionOrder| && s.questionOrder[s.currentIndex] in cache
                          && !ReanswerBlocked(s.mode, attempts, s.questionOrder[s.currentIndex]))
    ensures r.Some? ==> r.value == cache[s.questionOrder[s.currentIndex]]
    ensures r.Some? ==> r.value in cache.Values
    ensures r.Some? ==> 0 <= s.currentIndex < |s.questionOrder| && !ReanswerBlocked(s.mode, attempts, s.questionOrder[s.currentIndex])
    ensures s.mode != ExamMode && 0 <= s.currentIndex < |s.questionOrder| && s.questionOrder[s.currentIndex] in cache
            ==> r == Some(cache[s.questionOrder[s.currentIndex]])
    ensures (0 <= s.currentIndex < |s.questionOrder| && s.questionOrder[s.currentIndex] !in cache) ==> r.None?
  {
    if 0 <= s.currentIndex < |s.questionOrder|
       && s.questionOrder[s.currentIndex] in cache
       && !ReanswerBlocked(s.mode, attempts, s.questionOrder[s.currentIndex])
    then Some(cache[s.questionOrder[s.currentIndex]])
    else None
  }

  /** Exact-match grading, no partial credit. */
  predicate Grade(choiceIndex: int, q: Question)
  {
    choiceIndex == q.correctIndex
  }

  /** The session record written back after an accepted answer. The answered id was read
      from the current position a moment before, so the `isCurrent` test always holds and
      the position always moves on, clamped to the last question. */
  function Advance(s: Session, correct: bool): (r: Session)
    ensures r.score == s.score + (if correct then 1 else 0)
    ensures s.currentIndex < s.total - 1 ==> r.currentIndex == s.currentIndex + 1
    ensures s.currentIndex >= s.total - 1 ==> r.currentIndex == s.total - 1
    ensures r == s.(score := r.score, currentIndex := r.currentIndex)
  {
    s.(score := s.score + (if correct then 1 else 0),
       currentIndex := Min(s.currentIndex + 1, s.total - 1))
  }

  // ---------------------------------------------------------------------------
  // The session invariant and what it gives
  // ---------------------------------------------------------------------------

  /** Questions whose latest known attempt is correct. */
  function CorrectIds(attempts: map<int, Attempt>): set<int>
  {
    set q | q in attempts && attempts[q].correct
  }

  /** What the engine keeps true of its open session and its attempt map: the order has
      `total` entries, the position is on one of them, every attempted question is in the
      order, and in exam mode the score never exceeds the number of questions answered
      correctly. The last conjunct is an inequality, not an equality, because the attempt
      can be recorded while the session update that counts it fails. */
  predicate Consistent(s: Session, attempts: map<int, Attempt>)
  {
    && s.total == |s.questionOrder|
    && 0 <= s.currentIndex < s.total
    && 0 <= s.score
    && (forall q :: q in attempts ==> q in s.questionOrder)
    && (s.mode == ExamMode ==> s.score <= |CorrectIds(attempts)|)
  }

  /** Recording an attempt for a question not attempted before adds one to the correct
      count exactly when the attempt is correct. */
  lemma CorrectIdsRecord(attempts: map<int, Attempt>, a: Attempt)
    requires a.questionId !in attempts
    ensures |CorrectIds(attempts[a.questionId := a])| == |CorrectIds(attempts)| + (if a.correct then 1 else 0)
  {
    var q := a.questionId;
    if a.correct {
      assert CorrectIds(attempts[q := a]) == CorrectIds(attempts) + {q};
    } else {
      assert CorrectIds(attempts[q := a]) == CorrectIds(attempts);
    }
  }

  /** An accepted answer keeps the invariant, both when the session update that follows
      the attempt insert succeeds (`Advance`) and when it fails (the attempt is known, the
      session is as before). */
  lemma AnswerKeepsConsistent(s: Session, attempts: map<int, Attempt>, a: Attempt)
    requires Consistent(s, attempts)
    requires a.questionId == s.questionOrder[s.currentIndex]
    requires !ReanswerBlocked(s.mode, attempts, a.questionId)
    ensures Consistent(Advance(s, a.correct), attempts[a.questionId := a])
    ensures Consistent(s, attempts[a.questionId := a])
  {
    var m := attempts[a.questionId := a];
    assert forall q :: q in m ==> q in s.questionOrder;
    if s.mode == ExamMode {
      CorrectIdsRecord(attempts, a);
    }
  }

  /** A list has at most as many distinct elements as it has elements. */
  lemma {:induction false} DistinctBound(xs: seq<int>)
    ensures |(set x | x in xs)| <= |xs|
  {
    if xs != [] {
      DistinctBound(xs[1..]);
      assert (set x | x in xs) == (set x | x in xs[1..]) + {xs[0]};
    }
  }

  /** A subset is no larger than its superset. */
  lemma SubsetBound(a: set<int>, b: set<int>)
    requires a <= b
    ensures |a| <= |b|
  {
    assert b == a + (b - a);
    assert a * (b - a) == {};
  }

  /** In exam mode the score stays within `[0, total]`. (Practice mode has no such bound:
      see `PracticeReanswerOvercounts`.) */
  lemma ExamScoreWithinTotal(s: Session, attempts: map<int, Attempt>)
    requires Consistent(s, attempts)
    requires s.mode == ExamMode
    ensures 0 <= s.score <= s.total
  {
    var order := set x | x in s.questionOrder;
    forall q | q in CorrectIds(attempts) ensures q in order {
      assert q in attempts;
    }
    SubsetBound(CorrectIds(attempts), order);
    DistinctBound(s.questionOrder);
  }

  /** A practice session of one question, answered correctly twice: the re-answer is
      accepted and counted again, so the score ends above the total. */
  lemma PracticeReanswerOvercounts(q: Question)
    requires q.id == 7 && q.correctIndex == 0
    ensures var s0 := Session("s", "u", PracticeMode, [7], 0, 1, 0, "t0", None);
            var cache := map[7 := q];
            var a := Attempt("s", 7, 0, true);
            var s1 := Advance(s0, true);
            && Consistent(s0, map[])
            && AnswerTarget(s0, cache, map[]) == Some(q) && Grade(0, q)
            && AnswerTarget(s1, cache, map[7 := a]) == Some(q)
            && Advance(s1, true).score == 2 > Advance(s1, true).total
  {
  }

  /** Once an exam attempt for a question is recorded, an answer submitted while any
      exam session is on that question is refused, whatever the position or score. */
  lemma ExamAnswerIsFinal(later: Session, cache: map<int, Question>, attempts: map<int, Attempt>, a: Attempt)
    requires later.mode == ExamMode
    requires 0 <= later.currentIndex < |later.questionOrder|
    requires later.questionOrder[later.currentIndex] == a.questionId
    ensures AnswerTarget(later, cache, attempts[a.questionId := a]).None?
  {
  }

  // ---------------------------------------------------------------------------
  // Navigation (src/pages/Index.tsx:279-286)
  // ---------------------------------------------------------------------------

  /** `Math.max(0, Math.min(total - 1, current_index + delta))`. */
  function NavigationTarget(currentIndex: int, total: int, delta: int): (r: int)
    ensures total >= 1 ==> 0 <= r < total
    ensures 0 <= currentIndex + delta < total ==> r == currentIndex + delta
    ensures currentIndex + delta < 0 ==> r == 0
    ensures currentIndex + delta >= total ==> r == Max(0, total - 1)
  {
    Max(0, Min(total - 1, currentIndex + delta))
  }

  /** Navigation keeps the invariant and changes nothing but the position; a zero step
      from a valid position is a no-op. */
  lemma NavigationKeepsConsistent(s: Session, attempts: map<int, Attempt>, delta: int)
    requires Consistent(s, attempts)
    ensures Consistent(s.(currentIndex := NavigationTarget(s.currentIndex, s.total, delta)), attempts)
    ensures NavigationTarget(s.currentIndex, s.total, 0) == s.currentIndex
  {
  }

  // ---------------------------------------------------------------------------
  // Finishing (src/pages/Index.tsx:288-329)
  // ---------------------------------------------------------------------------

  /** `attempts.filter(a => !a.correct).map(a => a.question_id)`. */
  function WrongIds(attempts: seq<Attempt>): (ids: seq<int>)
    ensures |ids| <= |attempts|
    ensures forall x :: x in ids <==> exists a :: a in attempts && !a.correct && a.questionId == x
  {
    if attempts == [] then []
    else
      var rest := WrongIds(attempts[1..]);
      assert forall a :: a in attempts <==> a == attempts[0] || a in attempts[1..];
      (if !attempts[0].correct then [attempts[0].questionId] else []) + rest
  }

  /** Order is kept: the wrong ids of a concatenation are the concatenated wrong ids. */
  lemma {:induction false} WrongIdsAppend(a: seq<Attempt>, b: seq<Attempt>)
    ensures WrongIds(a + b) == WrongIds(a) + WrongIds(b)
  {
    if a == [] {
      assert a + b == b;
    } else {
      assert (a + b)[1..] == a[1..] + b;
      WrongIdsAppend(a[1..], b);
    }
  }

  /** `ids.map(id => cache.get(id)).filter(q => q !== undefined)`: the cached question
      of each id in turn, an id missing from the cache being skipped. */
  function ResolveCached(ids: seq<int>, cache: map<int, Question>): (qs: seq<Question>)
    ensures |qs| <= |ids|
    ensures forall q :: q in qs ==> exists id :: id in ids && id in cache && cache[id] == q
    ensures (forall i :: 0 <= i < |ids| ==> ids[i] in cache) ==> |qs| == |ids|
  {
    if ids == [] then []
    else
      var rest := ResolveCached(ids[1..], cache);
      assert forall q :: q in rest ==> exists id :: id in ids && id in cache && cache[id] == q by {
        forall q | q in rest ensures exists id :: id in ids && id in cache && cache[id] == q {
          var id :| id in ids[1..] && id in cache && cache[id] == q;
          assert id in ids;
        }
      }
      assert (forall i :: 0 <= i < |ids| ==> ids[i] in cache) ==> (forall i :: 0 <= i < |ids[1..]| ==> ids[1..][i] in cache);
      var head := if ids[0] in cache then [cache[ids[0]]] else [];
      forall q | q in head ensures exists id :: id in ids && id in cache && cache[id] == q {
        var id := ids[0];
        assert id in ids && id in cache && cache[id] == q;
      }
      assert forall q :: q in head + rest ==> q in head || q in rest;
      head + rest
  }

  /** When every id is cached, the review list is exactly the cached questions, in order. */
  lemma {:induction false} ResolveCachedAllPresent(ids: seq<int>, cache: map<int, Question>)
    requires forall i :: 0 <= i < |ids| ==> ids[i] in cache
    ensures forall i :: 0 <= i < |ids| ==> ResolveCached(ids, cache)[i] == cache[ids[i]]
  {
    if ids != [] {
      ResolveCachedAllPresent(ids[1..], cache);
      assert forall i :: 1 <= i < |ids| ==> ids[i] == ids[1..][i - 1];
    }
  }

  /** Skipping keeps order: resolving a concatenation resolves each part. */
  lemma {:induction false} ResolveCachedAppend(a: seq<int>, b: seq<int>, cache: map<int, Question>)
    ensures ResolveCached(a + b, cache) == ResolveCached(a, cache) + ResolveCached(b, cache)
  {
    if a == [] {
      assert a + b == b;
    } else {
      assert (a + b)[1..] == a[1..] + b;
      ResolveCachedAppend(a[1..], b, cache);
    }
  }

  /** The review list `finishSession` computes from the attempts it reads back. */
  function ReviewList(attempts: seq<Attempt>, cache: map<int, Question>): (qs: seq<Question>)
    ensures |qs| <= |attempts|
    ensures forall q :: q in qs ==>
              exists a :: a in attempts && !a.correct && a.questionId in cache && cache[a.questionId] == q
  {
    var ids := WrongIds(attempts);
    var qs := ResolveCached(ids, cache);
    forall q | q in qs
      ensures exists a :: a in attempts && !a.correct && a.questionId in cache && cache[a.questionId] == q
    {
      var id :| id in ids && id in cache && cache[id] == q;
      var a :| a in attempts && !a.correct && a.questionId == id;
    }
    qs
  }

  /** One incorrect attempt among correct ones, its question cached: exactly that one
      question is listed for review. */
  lemma OneWrongOneReview(before: seq<Attempt>, wrong: Attempt, after: seq<Attempt>, cache: map<int, Question>)
    requires forall i :: 0 <= i < |before| ==> before[i].correct
    requires forall i :: 0 <= i < |after| ==> after[i].correct
    requires !wrong.correct && wrong.questionId in cache
    ensures ReviewList(before + [wrong] + after, cache) == [cache[wrong.questionId]]
  {
    AllCorrectNoWrongIds(before);
    AllCorrectNoWrongIds(after);
    WrongIdsAppend(before + [wrong], after);
    WrongIdsAppend(before, [wrong]);
    assert [wrong][1..] == [];
    assert WrongIds(before + [wrong] + after) == [wrong.questionId];
    assert [wrong.questionId][1..] == [];
  }

  /** Every stored attempt is read back, not only the latest per question: a practice
      question answered wrongly and then correctly is still listed for review, and one
      answered wrongly twice is listed twice. */
  lemma CorrectedAttemptStillReviewed(sid: string, q: int, wrong: int, right: int, again: int,
                                      cache: map<int, Question>)
    requires q in cache
    ensures ReviewList([Attempt(sid, q, wrong, false), Attempt(sid, q, right, true)], cache)
            == [cache[q]]
    ensures ReviewList([Attempt(sid, q, wrong, false), Attempt(sid, q, again, false)], cache)
            == [cache[q], cache[q]]
  {
    var a1 := [Attempt(sid, q, wrong, false)];
    OneWrongOneReview([], Attempt(sid, q, wrong, false), [Attempt(sid, q, right, true)], cache);
    assert [] + a1 + [Attempt(sid, q, right, true)] == [Attempt(sid, q, wrong, false), Attempt(sid, q, right, true)];
    WrongIdsAppend(a1, [Attempt(sid, q, again, false)]);
    assert a1 + [Attempt(sid, q, again, false)] == [Attempt(sid, q, wrong, false), Attempt(sid, q, again, false)];
    assert WrongIds([Attempt(sid, q, again, false)]) == [q];
    assert WrongIds([Attempt(sid, q, wrong, false), Attempt(sid, q, again, false)]) == [q, q];
    ResolveCachedAllPresent([q, q], cache);
    assert |ResolveCached([q, q], cache)| == 2;
  }

  lemma {:induction false} AllCorrectNoWrongIds(attempts: seq<Attempt>)
    requires forall i :: 0 <= i < |attempts| ==> attempts[i].correct
    ensures WrongIds(attempts) == []
  {
    if attempts != [] {
      AllCorrectNoWrongIds(attempts[1..]);
    }
  }

  // ---------------------------------------------------------------------------
  // The question and attempt the page shows (src/pages/Index.tsx:331-337)
  // ---------------------------------------------------------------------------

  /** `session?.question_order?.[current_index] ? questionsCache.get(...) : null`. The
      test is JavaScript truthiness, so a missing position and the id 0 both show
      nothing. */
  function CurrentQuestion(s: Option<Session>, cache: map<int, Question>): (r: Option<Question>)
    ensures r.Some? ==> s.Some? && r.value in cache.Values
    ensures r.Some? ==> 0 <= s.value.currentIndex < |s.value.questionOrder|
    ensures (s.Some? && 0 <= s.value.currentIndex < |s.value.questionOrder|
             && s.value.questionOrder[s.value.currentIndex] == 0) ==> r.None?
    ensures KeyedById(cache) && r.Some? ==> r.value.id == s.value.questionOrder[s.value.currentIndex]
    ensures s.Some? && 0 <= s.value.currentIndex < |s.value.questionOrder|
            && s.value.questionOrder[s.value.currentIndex] != 0
            && s.value.questionOrder[s.value.currentIndex] in cache
            ==> r == Some(cache[s.value.questionOrder[s.value.currentIndex]])
  {
    if s.Some? && 0 <= s.value.currentIndex < |s.value.questionOrder|
       && s.value.questionOrder[s.value.currentIndex] != 0
       && s.value.questionOrder[s.value.currentIndex] in cache
    then Some(cache[s.value.questionOrder[s.value.currentIndex]])
    else None
  }

  /** `currentQuestion ? attemptsByQ.get(currentQuestion.id) : null`. */
  function CurrentAttempt(q: Option<Question>, attempts: map<int, Attempt>): (r: Option<Attempt>)
    ensures r.Some? <==> q.Some? && q.value.id in attempts
    ensures r.Some? ==> r.value in attempts.Values
  {
    if q.Some? && q.value.id in attempts then Some(attempts[q.value.id]) else None
  }

  /** Every cached question sits under its own id (priming stores `q` under `q.id`). */
  predicate KeyedById(cache: map<int, Question>)
  {
    forall k :: k in cache ==> cache[k].id == k
  }

  /** The question on screen is the one an answer is graded against, unless the exam
      guard refuses it; and an answer is only ever graded against a question the page
      could show, apart from a question whose id is 0, which is never shown. */
  lemma ShownIsGraded(s: Session, cache: map<int, Question>, attempts: map<int, Attempt>)
    requires KeyedById(cache)
    ensures (CurrentQuestion(Some(s), cache).Some?
             && !ReanswerBlocked(s.mode, attempts, CurrentQuestion(Some(s), cache).value.id))
            ==> AnswerTarget(s, cache, attempts) == CurrentQuestion(Some(s), cache)
    ensures (AnswerTarget(s, cache, attempts).Some? && AnswerTarget(s, cache, attempts).value.id != 0)
            ==> AnswerTarget(s, cache, attempts) == CurrentQuestion(Some(s), cache)
  {
  }
}

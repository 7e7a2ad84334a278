/** The exam-session engine held by the `Index` page (src/pages/Index.tsx): the open
    session, the question cache, the latest attempt per question and the review list,
    and the intents that change them. Each call into the store is a parameter holding
    the store's answer to that call, so every success/failure combination is covered. */
module Engine {
  import opened Wrappers
  import opened Records
  import opened SessionRules
  import Keyed
  import Shuffle

  /** The columns the store fills in when it inserts a session row. */
  datatype Stamp = Stamp(id: string, startedAt: string)

  /** What the page reports after an intent: nothing (`Ignored`, a silent return), a
      success toast (`Done`), one of the two "not found" toasts, or the store's error. */
  datatype Status = Done | Ignored | NoQuestionsFound | NoSessionFound | StoreError(message: string)

  /** Priming the cache with fetched rows makes every fetched id a cache key. */
  lemma PrimingCovers(cache: map<int, Question>, rows: seq<QuestionRow>)
    ensures forall i :: 0 <= i < |rows| ==> rows[i].id in Keyed.Put(cache, NormalizeAll(rows), QuestionKey)
    ensures forall k :: k in RowIds(rows) ==> k in Keyed.Put(cache, NormalizeAll(rows), QuestionKey)
  {
    var questions := NormalizeAll(rows);
    var primed := Keyed.Put(cache, questions, QuestionKey);
    Keyed.PutLastWins(cache, questions, QuestionKey);
    assert forall i :: 0 <= i < |rows| ==> rows[i].id == QuestionKey(questions[i]);
    assert forall i :: 0 <= i < |rows| ==> rows[i].id in Keyed.KeysOf(questions, QuestionKey);
    forall k | k in RowIds(rows) ensures k in primed {
      var i :| 0 <= i < |rows| && RowIds(rows)[i] == k;
    }
  }

  /** Every element of a permutation of `b` is an element of `b`. */
  lemma PermutationMembers(a: seq<int>, b: seq<int>)
    requires multiset(a) == multiset(b)
    ensures forall k :: k in a ==> k in b
  {
    forall k | k in a ensures k in b {
      assert k in multiset(b);
    }
  }

  /** Priming stores each question under its own id, so a cache keyed by id stays so. */
  lemma {:induction false} PrimingKeepsKeyedById(cache: map<int, Question>, qs: seq<Question>)
    requires KeyedById(cache)
    ensures KeyedById(Keyed.Put(cache, qs, QuestionKey))
    decreases |qs|
  {
    if qs != [] {
      PrimingKeepsKeyedById(cache, qs[..|qs| - 1]);
    }
  }

  class SessionEngine {
    var user: Option<string>
    var session: Option<Session>
    var questionsCache: map<int, Question>
    var attemptsByQ: map<int, Attempt>
    var incorrectQuestions: seq<Question>
    /** The position the store holds for the open session: the last one written by a
        create, a resume or an answer. Navigation moves only the page's own copy. */
    var storedIndex: int

    /** The engine invariant: every cached question sits under its own id, and an open
        session is consistent with the attempt map, the store's position inside its
        order. */
    ghost predicate Valid()
      reads this
    {
      && KeyedById(questionsCache)
      && (session.Some? ==> Consistent(session.value, attemptsByQ) && 0 <= storedIndex < session.value.total)
    }

    /** The page's initial state: nobody signed in, no session, empty cache and maps. */
    constructor ()
      ensures user == None && session == None
      ensures questionsCache == map[] && attemptsByQ == map[] && incorrectQuestions == []
      ensures Valid()
    {
      user := None;
      session := None;
      questionsCache := map[];
      attemptsByQ := map[];
      incorrectQuestions := [];
      storedIndex := 0;
    }

    /** The sign-in card reports the signed-in user (or sign-out). */
    method SetUser(u: Option<string>)
      modifies this`user
      ensures user == u
    {
      user := u;
    }

    /** `fetchQuestionById`: a cached question is returned without a store call;
        otherwise the fetched row is normalised, cached under the requested id and
        returned; a store error is passed on and nothing is cached. The store's filter on
        the id means the row it returns carries that id, which keeps the cache keyed by
        id. */
    method FetchQuestionById(id: int, fetched: Reply<QuestionRow>) returns (r: Reply<Question>)
      modifies this`questionsCache
      ensures id in old(questionsCache) ==> r == Ok(old(questionsCache)[id]) && questionsCache == old(questionsCache)
      ensures id !in old(questionsCache) && fetched.Failed? ==>
                r == Failed(fetched.message) && questionsCache == old(questionsCache)
      ensures id !in old(questionsCache) && fetched.Ok? ==>
                r == Ok(Normalize(fetched.value)) && questionsCache == old(questionsCache)[id := r.value]
      ensures old(Valid()) && (fetched.Ok? ==> fetched.value.id == id) ==> Valid()
    {
      if id in questionsCache {
        return Ok(questionsCache[id]);
      }
      if fetched.Failed? {
        return Failed(fetched.message);
      }
      var question := Normalize(fetched.value);
      questionsCache := questionsCache[id := question];
      r := Ok(question);
    }

    /** `new Map(questionsCache)`, one `set(q.id, question)` per fetched row after
        normalising it, then `setQuestionsCache`: the priming shared by
        `createNewSession` and `resumeLastSession`. */
    method PrimeCache(rows: seq<QuestionRow>)
      modifies this`questionsCache
      ensures questionsCache == Keyed.Put(old(questionsCache), NormalizeAll(rows), QuestionKey)
      ensures forall k :: k in RowIds(rows) ==> k in questionsCache
      ensures old(KeyedById(questionsCache)) ==> KeyedById(questionsCache)
    {
      PrimingCovers(questionsCache, rows);
      if KeyedById(questionsCache) {
        PrimingKeepsKeyedById(questionsCache, NormalizeAll(rows));
      }
      questionsCache := Keyed.PutAll(questionsCache, NormalizeAll(rows), QuestionKey);
    }

    /** `loadAttemptsForSession`: the attempt map is rebuilt from the session's attempts,
        the latest attempt of each question winning; a store error leaves it as it was. */
    method LoadAttemptsForSession(fetched: Reply<seq<Attempt>>) returns (status: Status)
      modifies this`attemptsByQ
      ensures fetched.Failed? ==> status == StoreError(fetched.message) && attemptsByQ == old(attemptsByQ)
      ensures fetched.Ok? ==> status == Done && attemptsByQ == Keyed.Put(map[], fetched.value, AttemptKey)
      ensures fetched.Ok? ==> attemptsByQ.Keys == Keyed.KeysOf(fetched.value, AttemptKey)
      ensures fetched.Ok? ==> Keyed.LastWins(map[], fetched.value, AttemptKey, attemptsByQ)
      ensures old(Valid()) ==> (Valid() <==> session.None? || Consistent(session.value, attemptsByQ))
    {
      if fetched.Failed? {
        return StoreError(fetched.message);
      }
      attemptsByQ := Keyed.PutAll(map[], fetched.value, AttemptKey);
      status := Done;
    }

    /** `createNewSession(topic, mode)`. `fetched` is the store's list of active questions
        for the topic filter, `inserted` its answer to the session insert. The cache is
        primed before the insert, so a failed insert still leaves it primed. */
    method CreateNewSession(mode: string, fetched: Reply<seq<QuestionRow>>, inserted: Reply<Stamp>)
      returns (status: Status)
      modifies this`session, this`questionsCache, this`attemptsByQ, this`incorrectQuestions, this`storedIndex
      ensures user.None? ==> status == Ignored && unchanged(this)
      ensures user.Some? && fetched.Failed? ==> status == StoreError(fetched.message) && unchanged(this)
      ensures user.Some? && fetched.Ok? && fetched.value == [] ==> status == NoQuestionsFound && unchanged(this)
      ensures user.Some? && fetched.Ok? && fetched.value != [] ==>
                && questionsCache == Keyed.Put(old(questionsCache), NormalizeAll(fetched.value), QuestionKey)
                && (forall i :: 0 <= i < |fetched.value| ==> fetched.value[i].id in questionsCache)
      ensures user.Some? && fetched.Ok? && fetched.value != [] && inserted.Failed? ==>
                && status == StoreError(inserted.message)
                && session == old(session) && attemptsByQ == old(attemptsByQ)
                && incorrectQuestions == old(incorrectQuestions) && storedIndex == old(storedIndex)
      ensures user.Some? && fetched.Ok? && fetched.value != [] && inserted.Ok? ==>
                && status == Done && session.Some?
                && session.value.id == inserted.value.id && session.value.startedAt == inserted.value.startedAt
                && session.value.userId == user.value && session.value.mode == mode
                && session.value.currentIndex == 0 && session.value.score == 0
                && session.value.total == |session.value.questionOrder| == |fetched.value|
                && multiset(session.value.questionOrder) == multiset(RowIds(fetched.value))
                && session.value.finishedAt == None
                && (forall k :: k in session.value.questionOrder ==> k in questionsCache)
                && attemptsByQ == map[] && incorrectQuestions == [] && storedIndex == 0
      ensures old(Valid()) ==> Valid()
    {
      if user.None? {
        return Ignored;
      }
      if fetched.Failed? {
        return StoreError(fetched.message);
      }
      var questions := NormalizeAll(fetched.value);
      if |questions| == 0 {
        return NoQuestionsFound;
      }
      // `questions.map(q => q.id)`: normalising keeps each row's id
      var order := Shuffle.Shuffle(RowIds(fetched.value));
      PermutationMembers(order, RowIds(fetched.value));
      PrimeCache(fetched.value);
      if inserted.Failed? {
        return StoreError(inserted.message);
      }
      session := Some(Session(inserted.value.id, user.value, mode, order, 0, |order|, 0,
                              inserted.value.startedAt, None));
      attemptsByQ := map[];
      incorrectQuestions := [];
      storedIndex := 0;
      status := Done;
    }

    /** `resumeLastSession`. `found` is the store's newest unfinished session of the user
        (a list of at most one), `questions` the rows of its questions (an error of that
        query is ignored by the page, hence an Option), `attempts` its attempt rows. A
        resumed session is taken as the store holds it, so the invariant is restored
        exactly when that record is consistent with its attempts. */
    method ResumeLastSession(found: Reply<seq<Session>>, questions: Option<seq<QuestionRow>>,
                             attempts: Reply<seq<Attempt>>) returns (status: Status)
      modifies this`session, this`questionsCache, this`attemptsByQ, this`storedIndex
      ensures user.None? ==> status == Ignored && unchanged(this)
      ensures user.Some? && found.Failed? ==> status == StoreError(found.message) && unchanged(this)
      ensures user.Some? && found.Ok? && found.value == [] ==> status == NoSessionFound && unchanged(this)
      ensures user.Some? && found.Ok? && found.value != [] ==>
                var loaded := found.value[0];
                && questionsCache == (if loaded.questionOrder != [] && questions.Some?
                                      then Keyed.Put(old(questionsCache), NormalizeAll(questions.value), QuestionKey)
                                      else old(questionsCache))
                && (attempts.Failed? ==> status == StoreError(attempts.message)
                                         && session == old(session) && attemptsByQ == old(attemptsByQ)
                                         && storedIndex == old(storedIndex))
                && (attempts.Ok? ==> status == Done && session == Some(loaded)
                                     && attemptsByQ == Keyed.Put(map[], attempts.value, AttemptKey)
                                     && storedIndex == loaded.currentIndex)
      ensures user.Some? && found.Ok? && found.value != [] && questions.Some?
              && (forall k :: k in found.value[0].questionOrder ==> k in RowIds(questions.value))
              ==> forall k :: k in found.value[0].questionOrder ==> k in questionsCache
      ensures attempts.Ok? && attempts.value == [] && status == Done ==> attemptsByQ == map[]
      ensures old(Valid()) && status != Done ==> Valid()
      ensures old(Valid()) && status == Done && Consistent(session.value, attemptsByQ) ==> Valid()
    {
      if user.None? {
        return Ignored;
      }
      if found.Failed? {
        return StoreError(found.message);
      }
      if |found.value| == 0 {
        return NoSessionFound;
      }
      var loaded := found.value[0];
      if |loaded.questionOrder| > 0 && questions.Some? {
        PrimeCache(questions.value);
      }
      status := LoadAttemptsForSession(attempts);
      if status != Done {
        return;
      }
      session := Some(loaded);
      storedIndex := loaded.currentIndex;
    }

    /** `submitAnswer(choiceIndex)`. `inserted` is the store's answer to the attempt
        insert and `updated` to the session update that follows it. The attempt map is
        updated between the two calls, so a failed session update leaves the attempt
        recorded but neither counted nor advanced past. The store's record differs from
        the page's only in the position, which the update overwrites, so the record it
        returns is `Advance` of the page's session. */
    method SubmitAnswer(choiceIndex: int, inserted: Reply<()>, updated: Reply<()>) returns (status: Status)
      modifies this`session, this`attemptsByQ, this`storedIndex
      ensures (user.None? || old(session).None?
               || AnswerTarget(old(session).value, questionsCache, old(attemptsByQ)).None?)
              ==> status == Ignored && unchanged(this)
      ensures (user.Some? && old(session).Some?
               && AnswerTarget(old(session).value, questionsCache, old(attemptsByQ)).Some?)
              ==> var s := old(session).value;
                  var q := AnswerTarget(s, questionsCache, old(attemptsByQ)).value;
                  var a := Attempt(s.id, s.questionOrder[s.currentIndex], choiceIndex, Grade(choiceIndex, q));
                  && (inserted.Failed? ==> status == StoreError(inserted.message) && unchanged(this))
                  && (inserted.Ok? ==> attemptsByQ == old(attemptsByQ)[a.questionId := a])
                  && (inserted.Ok? && updated.Failed? ==>
                        status == StoreError(updated.message) && session == old(session)
                        && storedIndex == old(storedIndex))
                  && (inserted.Ok? && updated.Ok? ==>
                        status == Done && session == Some(Advance(s, a.correct))
                        && storedIndex == Advance(s, a.correct).currentIndex)
      ensures old(Valid()) ==> Valid()
    {
      if session.None? || user.None? {
        return Ignored;
      }
      var s := session.value;
      if !(0 <= s.currentIndex < |s.questionOrder|) {
        return Ignored;
      }
      var questionId := s.questionOrder[s.currentIndex];
      if questionId !in questionsCache {
        return Ignored;
      }
      var question := questionsCache[questionId];
      if s.mode == ExamMode && questionId in attemptsByQ {
        return Ignored;
      }
      var correct := choiceIndex == question.correctIndex;
      if inserted.Failed? {
        return StoreError(inserted.message);
      }
      var attempt := Attempt(s.id, questionId, choiceIndex, correct);
      ghost var before := attemptsByQ;
      attemptsByQ := attemptsByQ[questionId := attempt];
      if Consistent(s, before) {
        AnswerKeepsConsistent(s, before, attempt);
      }
      if updated.Failed? {
        return StoreError(updated.message);
      }
      session := Some(Advance(s, correct));
      storedIndex := session.value.currentIndex;
      status := Done;
    }

    /** `navigateQuestion(delta)`: only the position changes, clamped into the order. */
    method NavigateQuestion(delta: int)
      modifies this`session
      ensures old(session).None? ==> session == None
      ensures old(session).Some? ==>
                session == Some(old(session).value.(currentIndex :=
                  NavigationTarget(old(session).value.currentIndex, old(session).value.total, delta)))
      ensures old(Valid()) ==> Valid()
    {
      if session.None? {
        return;
      }
      var s := session.value;
      var nextIndex := NavigationTarget(s.currentIndex, s.total, delta);
      if nextIndex == s.currentIndex {
        return;
      }
      session := Some(s.(currentIndex := nextIndex));
    }

    /** `finishSession`. `now` is the completion timestamp sent with the update and
        `updated` the store's answer to it; `attempts` are the session's attempts read
        back afterwards (an error of that query is ignored by the page, hence an Option).
        The page adopts the record the store returns, so the finished session is at the
        store's position, not at one reached by navigating since the last write. The
        review list is replaced only when there is at least one wrong attempt. */
    method FinishSession(now: string, updated: Reply<()>, attempts: Option<seq<Attempt>>) returns (status: Status)
      modifies this`session, this`incorrectQuestions
      ensures old(session).None? ==> status == Ignored && unchanged(this)
      ensures old(session).Some? && updated.Failed? ==> status == StoreError(updated.message) && unchanged(this)
      ensures old(session).Some? && updated.Ok? ==>
                && status == Done
                && session == Some(old(session).value.(currentIndex := storedIndex, finishedAt := Some(now)))
                && incorrectQuestions == (if WrongIds(attempts.GetOr([])) != []
                                          then ReviewList(attempts.GetOr([]), questionsCache)
                                          else old(incorrectQuestions))
      ensures old(Valid()) ==> Valid()
    {
      if session.None? {
        return Ignored;
      }
      if updated.Failed? {
        return StoreError(updated.message);
      }
      session := Some(session.value.(currentIndex := storedIndex, finishedAt := Some(now)));
      var wrongIds := WrongIds(attempts.GetOr([]));
      if |wrongIds| > 0 {
        incorrectQuestions := ResolveCached(wrongIds, questionsCache);
      }
      status := Done;
    }
  }
}

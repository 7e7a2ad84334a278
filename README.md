# Exam-session engine of the ASCP practice-exam application

This project models the core of a practice-exam web application. The model is in Dafny, and the properties are proved.

A signed-in user starts a session, in mode "exam" or "practice", over a shuffled order of the active questions. They answer one question at a time and can move backwards and forwards. At the end they finish the session and get a list of the questions they answered wrongly. A separate testing dashboard lets an author add questions one at a time through a form, or add three built-in sample questions in one go.

The model covers four parts of the source:
- the session engine of the exam page (`src/pages/Index.tsx`);
- the decisions the question panel makes when it renders a question (`src/components/QuestionPanel.tsx`);
- the authoring logic of the testing dashboard (`src/pages/Testing.tsx`);
- the normalisation that turns a raw question row into a question, which both pages share.

Modules:

- `Wrappers`: `Option`, plus `Reply`, the answer of one store call (`Ok(value)` or `Failed(message)`).
- `Records`:
  - the store's rows (questions, attempts, sessions) and `Json` for the untyped `choices` column;
  - `Normalize`, the page's row-to-question conversion;
  - the lemmas that pin down its choice filter.
- `Keyed`: building a map "one entry per element, last wins". This is the loop in `loadAttemptsForSession` and the cache priming in `createNewSession` and `resumeLastSession`.
  - `PutAll` is the loop.
  - `Put` is its specification.
  - `LastWins` states what the result contains.
- `Shuffle`: the in-place Fisher–Yates shuffle over an array copy, proved to return a permutation of its input.
- `SessionRules`: the store-independent rules of the engine:
  - the exam re-answer guard;
  - grading;
  - the position and score written after an answer;
  - navigation clamping;
  - the review list built by finishing;
  - the question and attempt shown;
  - the invariant `Consistent`.
- `Engine`: the class `SessionEngine`. Its fields are the page's state: user, session, question cache, attempt map and review list. One more field, `storedIndex`, is the position the store holds for the open session.
  - `SessionEngine.Valid` is the invariant: `Consistent`, the store's position inside the order, and a cache keyed by question id. Every engine operation preserves `Valid` with three exceptions:
    - a successful resume, which adopts the stored session as it is, so it restores `Valid` exactly when that stored record is consistent with its attempts;
    - `FetchQuestionById` when the store returns a row whose id differs from the one requested;
    - `LoadAttemptsForSession` called on its own. It is a helper that only resume calls (src/pages/Index.tsx:202), and it replaces the attempt map without touching the session, so on its own it can leave an exam score above the number of correct attempts. Its contract states exactly when the invariant survives.
  - Each intent is a method whose store calls are parameters holding the store's answers, so every success and failure path is described.
  - Navigation changes only the page's position. Finishing adopts the store's record, so a finished session returns to the last position written to the store.
- `QuestionPanel`: whether an answer may be given, the first and last flags, the look of each choice, click gating, choice letters, and how the panel's gating relates to the engine's guard.
- `TestingPage`:
  - form validation via `trim`;
  - the inserted records;
  - choice editing;
  - the form reset;
  - the list refresh;
  - the bulk insert of the samples (the class `Dashboard`).
- `Scenarios`: an exam run and a practice run stated with the rules above, a create-then-resume round trip across two engines, a finish after navigating, and the panel's gating applied to a valid engine state.

Behaviour where the code differs from the documented intent (the model follows the code):

- **Advancing.** Every accepted answer moves the position on, clamped to the last question. The answered id was just read from the current position, so the `isCurrent` test in `submitAnswer` always holds (src/pages/Index.tsx:252-255). A practice re-answer after navigating back therefore advances again; it is not held in place.
- **Practice score.** In practice mode the score counts every correct answer, re-answers included, so it can exceed the total (`SessionRules.PracticeReanswerOvercounts`). Only in exam mode is `score <= total` an invariant (`SessionRules.ExamScoreWithinTotal`).
- **Finished sessions.** Nothing stops answers after a session is finished. Finishing again overwrites the completion time.
- **Id 0.** The shown question is chosen by JavaScript truthiness on the question id, so a question whose id is 0 is never shown. The engine method would grade an answer to it, but the page offers no way to give one: answers come only from the panel, which is rendered only when a question is shown (src/pages/Index.tsx:362-367).
- **Finishing after navigating.** Finishing adopts the record the store returns. Navigation is never written to the store, so the finished session's position is the one last written by create, resume or answer, not the one navigated to before finishing (`Scenarios.FinishAfterNavigating`).
- **Mode values.** The mode is free text. The panel lets an answer through when `!attempt || mode === "practice"`, while the engine's guard refuses only when `mode === "exam"`. The two agree for the two modes the page offers (`QuestionPanel.PanelAgreesWithGuard`). For any other text they disagree once an attempt for the shown question is known (`QuestionPanel.PanelAndGuardDisagreeOnOtherModes`).
- **Orphaned exam attempt.** The attempt is stored in the page's map (src/pages/Index.tsx:247-249) before the session update runs (src/pages/Index.tsx:257-267). So a failed update leaves local state partly changed:
  - after a correct exam answer, the exam guard (src/pages/Index.tsx:227) refuses every retry;
  - the point is never scored.

  The invariant allows for this: it only bounds the exam score by the number of correct attempts (`SessionRules.AnswerKeepsConsistent`).
- **Review after a corrected practice answer.** Finishing reads back every stored attempt of the session and lists each incorrect one (src/pages/Index.tsx:304-315), not only the latest attempt per question. So in practice mode a question answered wrongly and then correctly is still listed for review, and one answered wrongly twice is listed twice (`SessionRules.CorrectedAttemptStillReviewed`).

## Model

| member | source | states |
|---|---|---|
| Records.Present | src/pages/Index.tsx:61-63 | `x \|\| undefined` on an optional text: absent exactly when the text is null or empty, otherwise the text itself |
| Records.StringChoices | src/pages/Index.tsx:60 | the filtered choices are no more than the elements, and each is a string element of the JSON array |
| Records.StringChoicesAppend | src/pages/Index.tsx:60 | the string filter distributes over concatenation (keeps order, drops non-strings) |
| Records.StringChoicesSingleton | src/pages/Index.tsx:60 | a one-element array filters to its string, or to nothing when the element is not a string |
| Records.ChoicesOf | src/pages/Index.tsx:60 | a non-array `choices` value gives no choices; an array gives at most its length of choices, each one of its string elements |
| Records.Normalize | src/pages/Index.tsx:58-64 | id, stem, correct index, image and active flag are kept; non-array choices become empty; no optional text is present and empty |
| Records.NormalizeAll | src/pages/Index.tsx:72 | `(data \|\| []).map(convertToQuestion)`: same length, element by element |
| Records.RowIds | src/pages/Index.tsx:122 | the ids of the rows, in order |
| Records.JsonStrings | src/pages/Testing.tsx:60 | a list of choice texts written as a JSON array holds each text as a JSON string, in order |
| Records.StringChoicesOfStrings | src/pages/Index.tsx:60 | choices stored as an array of strings read back through the filter unchanged |
| Keyed.PutLastWins | src/pages/Index.tsx:101-104 | after setting one entry per attempt: the keys are the old keys plus the attempts' question ids, untouched keys keep their values, and each question maps to its last attempt |
| Keyed.PutAll | src/pages/Index.tsx:125-126 | the `forEach`/`for…of` loop computes `Put` and so satisfies `LastWins` |
| Keyed.PutDistinct | src/pages/Index.tsx:193-197 | with distinct ids, every fetched question is found under its own id |
| Shuffle.Shuffle | src/pages/Index.tsx:41-48 | the swap loop returns a permutation of its input (same length, same multiset); the random index is any `j` in `0..i` |
| SessionRules.ReanswerBlocked | src/pages/Index.tsx:227 | a submission is refused exactly when the mode is the text "exam" and an attempt for the question is already known |
| SessionRules.AnswerTarget | src/pages/Index.tsx:221-227 | an answer is taken exactly when the current position exists, its id is cached and the exam guard does not block it, and is then graded against the cached question of that id; outside exam mode any cached question at the position is the target |
| SessionRules.Grade | src/pages/Index.tsx:229 | an answer is correct exactly when the chosen index equals the correct index |
| SessionRules.Advance | src/pages/Index.tsx:252-262 | the score goes up by one exactly when the answer is correct; the position moves on by one, clamped to `total - 1`; nothing else in the session changes |
| SessionRules.CorrectIdsRecord | src/pages/Index.tsx:247-249 | recording a first attempt adds one to the number of correctly answered questions exactly when it is correct |
| SessionRules.AnswerKeepsConsistent | src/pages/Index.tsx:246-269 | an accepted answer keeps the session invariant, whether the session update that follows the attempt insert succeeds or fails |
| SessionRules.ExamScoreWithinTotal | src/pages/Index.tsx:226-227 | in exam mode the invariant bounds the score by the total |
| SessionRules.PracticeReanswerOvercounts | src/pages/Index.tsx:226-260 | in practice mode a re-answered question is counted again, so the score of a one-question session can reach 2 |
| SessionRules.ExamAnswerIsFinal | src/pages/Index.tsx:227 | once an exam attempt for a question is known, no later answer on that question is accepted |
| SessionRules.NavigationTarget | src/pages/Index.tsx:282 | the target lies inside the order, is the requested position when that is inside, and otherwise is clamped to the nearer end |
| SessionRules.NavigationKeepsConsistent | src/pages/Index.tsx:279-286 | navigation keeps the session invariant; a zero step does not move |
| SessionRules.WrongIds | src/pages/Index.tsx:309 | an id is listed exactly when some attempt for it is incorrect; never more ids than attempts |
| SessionRules.WrongIdsAppend | src/pages/Index.tsx:309 | the filter keeps the order of the attempts |
| SessionRules.AllCorrectNoWrongIds | src/pages/Index.tsx:309 | all-correct attempts give no wrong ids |
| SessionRules.ResolveCached | src/pages/Index.tsx:312-314 | every reviewed question is the cached question of a wrong id; when all ids are cached, none is dropped |
| SessionRules.ResolveCachedAllPresent | src/pages/Index.tsx:312-314 | when all ids are cached, the i-th reviewed question is the cached question of the i-th id |
| SessionRules.ResolveCachedAppend | src/pages/Index.tsx:312-314 | skipping uncached ids keeps order across concatenation |
| SessionRules.ReviewList | src/pages/Index.tsx:309-315 | at most one reviewed question per attempt, and each reviewed question is the cached question of some incorrect attempt |
| SessionRules.OneWrongOneReview | src/pages/Index.tsx:304-315 | one incorrect attempt among correct ones yields exactly that question for review |
| SessionRules.CorrectedAttemptStillReviewed | src/pages/Index.tsx:304-315 | wrong then right on one question still lists it once for review; wrong twice lists it twice |
| SessionRules.CurrentQuestion | src/pages/Index.tsx:331-333 | a question is shown exactly when the current position exists, its id is not 0 and the id is cached, and it is then the cached question of that id; with a cache keyed by id, the shown question has the id at the current position |
| SessionRules.CurrentAttempt | src/pages/Index.tsx:335-337 | an attempt is shown exactly when a question is shown and its id has a known attempt |
| SessionRules.ShownIsGraded | src/pages/Index.tsx:331-333 | the question shown is the one an answer is graded against unless the exam guard refuses it; a graded question with a non-zero id is the one shown |
| Engine.PrimingCovers | src/pages/Index.tsx:125-126 | after priming, every fetched id is a cache key |
| Engine.PrimingKeepsKeyedById | src/pages/Index.tsx:126 | priming stores each question under its own id, so a cache keyed by id stays keyed by id |
| Engine.SessionEngine.PrimeCache | src/pages/Index.tsx:193-198 | the new cache is the old one with each normalised row set under its id, last row winning; every fetched id is a key; keying by id is kept |
| Engine.SessionEngine.constructor | src/pages/Index.tsx:51-55 | no user, no session, empty cache, attempt map and review list; the invariant holds |
| Engine.SessionEngine.SetUser | src/pages/Index.tsx:344 | the sign-in card's report replaces the user |
| Engine.SessionEngine.FetchQuestionById | src/pages/Index.tsx:75-91 | a cached id is answered from the cache with no change; otherwise the fetched row is normalised and cached under the id, or the store error is passed on with the cache unchanged; the invariant is kept when the store returns the row with the requested id |
| Engine.SessionEngine.LoadAttemptsForSession | src/pages/Index.tsx:93-106 | the attempt map is rebuilt from the fetched attempts, keyed by question, last attempt winning; on error it is unchanged; from a valid state the invariant holds afterwards exactly when there is no session or the session is consistent with the new map |
| Engine.SessionEngine.CreateNewSession | src/pages/Index.tsx:108-159 | no user, a failed fetch or no questions changes nothing; otherwise the cache is primed (even when the insert then fails); on success the session has a permutation of the fetched ids as its order, total = its length, position 0, score 0, every ordered id cached, the attempt map and review list cleared, and the store's position 0; the invariant is kept |
| Engine.SessionEngine.ResumeLastSession | src/pages/Index.tsx:161-216 | no user, a failed query or no unfinished session changes nothing; otherwise the fetched questions are cached when the order is non-empty, and the session, store position and attempt map are replaced only when the attempts load; when every ordered id is among the fetched rows, every ordered id is cached; no stored attempts give an empty attempt map; the invariant is kept on failure, and restored on success exactly when the stored session is consistent with its attempts |
| Engine.SessionEngine.SubmitAnswer | src/pages/Index.tsx:218-277 | ignored without a user, session, cached question, or when the exam guard refuses; otherwise the graded attempt is recorded once the insert succeeds, and the session and the store's position become `Advance` of it once the update succeeds; the invariant is kept |
| Engine.SessionEngine.NavigateQuestion | src/pages/Index.tsx:279-286 | only the position changes, to the clamped target; the invariant is kept |
| Engine.SessionEngine.FinishSession | src/pages/Index.tsx:288-329 | on a successful update the session becomes the store's record: marked finished at the given time, at the store's position; the review list becomes the cached questions of the wrong attempts when there are any; the invariant is kept |
| QuestionPanel.CanAnswer | src/components/QuestionPanel.tsx:42 | an answer may be given when there is no attempt yet or the mode is the text "practice" |
| QuestionPanel.IsFirstQuestion | src/components/QuestionPanel.tsx:43 | the position is the first one |
| QuestionPanel.IsLastQuestion | src/components/QuestionPanel.tsx:44 | the position is `total - 1` |
| QuestionPanel.Variant | src/components/QuestionPanel.tsx:75-85 | the button variant of each look: outline, default, secondary |
| QuestionPanel.ExtraClass | src/components/QuestionPanel.tsx:76-84 | the extra classes of each look: none, the success classes, the destructive classes |
| QuestionPanel.LooksDistinct | src/components/QuestionPanel.tsx:75-85 | different looks differ both in variant and in classes |
| QuestionPanel.ChoiceHighlight | src/components/QuestionPanel.tsx:75-86 | nothing is marked before an attempt; after one, a choice is marked correct exactly when it is the correct index, and marked wrong exactly when it is the chosen, incorrect, non-correct choice |
| QuestionPanel.Label | src/components/QuestionPanel.tsx:97 | the letter of choice `i` has code `65 + i` |
| QuestionPanel.ClickForwards | src/components/QuestionPanel.tsx:93 | a click forwards its index exactly when an answer may be given |
| QuestionPanel.ChoiceButtons | src/components/QuestionPanel.tsx:74-102 | one button per choice, in order, with its letter, text, variant and classes from its highlight, disabled exactly when no answer may be given |
| QuestionPanel.MarksAfterGradedAttempt | src/components/QuestionPanel.tsx:78-86 | after a graded attempt at most one choice is marked wrong, none when correct, and the chosen choice shows the attempt's verdict |
| QuestionPanel.LabelsDistinct | src/components/QuestionPanel.tsx:97 | distinct choices get distinct letters |
| QuestionPanel.DisabledIffNoMove | src/components/QuestionPanel.tsx:43-44 | Previous is disabled exactly when stepping back would not move, Next exactly when stepping on would not |
| QuestionPanel.PanelAgreesWithGuard | src/components/QuestionPanel.tsx:42 | for the modes exam and practice, the panel allows an answer exactly when the engine's exam guard does not refuse it |
| QuestionPanel.PanelAndGuardDisagreeOnOtherModes | src/components/QuestionPanel.tsx:42 | for any mode text other than exam or practice, once an attempt for the shown question is known, the panel refuses an answer that the engine would accept and grade against the shown question |
| TestingPage.TrimStart | src/pages/Testing.tsx:47 | the result is a suffix that does not start with white space, and everything dropped is white space |
| TestingPage.TrimEnd | src/pages/Testing.tsx:47 | the result is a prefix that does not end with white space, and everything dropped is white space |
| TestingPage.Trim | src/pages/Testing.tsx:47 | the trimmed text is no longer than the text, neither starts nor ends with white space, and is non-empty when the text has a character other than white space |
| TestingPage.IsBlank | src/pages/Testing.tsx:47 | `!s.trim()`: the text trims to nothing |
| TestingPage.BlankIffAllWhitespace | src/pages/Testing.tsx:47 | `!s.trim()` holds exactly when every character is white space |
| TestingPage.FormAccepted | src/pages/Testing.tsx:47 | the guard of adding a question: the stem is not blank and no choice is blank |
| TestingPage.FormAcceptedIff | src/pages/Testing.tsx:47 | the form is accepted exactly when the stem and every choice have a character other than white space |
| TestingPage.BlankForm | src/pages/Testing.tsx:76-83 | the form's initial and reset value: empty texts, four empty choices, correct index 0 |
| TestingPage.BlankFormRefused | src/pages/Testing.tsx:75-83 | the reset form fails validation |
| TestingPage.ToRecord | src/pages/Testing.tsx:58-66 | the texts are sent as typed; an optional text is null exactly when it is empty; the question is active |
| TestingPage.Activated | src/pages/Testing.tsx:173 | `{ ...q, is_active: true }`: a sample's fields as written, and active |
| TestingPage.ActivatedAll | src/pages/Testing.tsx:172-174 | one record per sample, in order, with its fields and `is_active` set |
| TestingPage.StoredRow | src/pages/Testing.tsx:58-66 | the row the store keeps for an inserted record: its fields under the assigned id, the choices as a JSON array of strings, no image |
| TestingPage.AuthoredQuestionReadsBack | src/pages/Testing.tsx:58-66 | an inserted form reads back through the normalisation with its stem, choices and correct index, active, and each optional text present exactly when filled in |
| TestingPage.ReplaceChoice | src/pages/Testing.tsx:40-44 | the copy has the new value at the index and the old values elsewhere |
| TestingPage.SamplesWellFormed | src/pages/Testing.tsx:128-168 | each sample has four choices and a correct index among them |
| TestingPage.Dashboard.constructor | src/pages/Testing.tsx:25-33 | the form starts blank with four empty choices, and the list starts empty |
| TestingPage.Dashboard.ChangeChoice | src/pages/Testing.tsx:40-44 | only the edited choice of the form changes |
| TestingPage.Dashboard.LoadExistingQuestions | src/pages/Testing.tsx:97-125 | the list becomes the normalised rows, or is kept on a store error |
| TestingPage.Dashboard.AddSampleQuestion | src/pages/Testing.tsx:46-95 | a record is sent exactly when the stem and all choices are non-blank; a refused form or failed insert changes nothing; a successful insert resets the form and refreshes the list |
| TestingPage.Dashboard.AddSampleQuestions | src/pages/Testing.tsx:127-192 | the three samples are sent, active, in one insert; the list is refreshed only after a successful insert |
| Scenarios.ExamRun | src/pages/Index.tsx:218-286 | in an exam, a correct first answer gives position 1 and score 1; back on that question the attempt is shown and another answer is refused |
| Scenarios.PracticeRun | src/pages/Index.tsx:218-286 | in practice, a wrong then a right answer on the first question gives score 1 at position 1, and the right attempt is the one shown |
| Scenarios.CreateThenResume | src/pages/Index.tsx:108-216 | a session created on one engine and resumed on a fresh one before any answer is the same session, at position 0 with score 0, with no attempts and every ordered question cached, and the invariant holds |
| Scenarios.FinishAfterNavigating | src/pages/Index.tsx:279-301 | creating, stepping forward and finishing leaves the finished session at position 0, the store's position |
| Scenarios.EnginePanelAgrees | src/components/QuestionPanel.tsx:42 | on any valid engine state in mode exam or practice, the panel offers an answer exactly when the engine would take it |

## Left out

- Store queries: the filter, ordering and limit of each query (active questions, topic filter, newest unfinished session, newest twenty questions, `in` on the ordered ids) run in the store. Each method receives the store's answer as a parameter instead. So the `topic` argument of `createNewSession` has no counterpart, and `fetchActiveQuestions` is modelled only through the rows it returns.
- Row values the store returns: the record echoed by an insert or update is modelled as the store holds it, assuming no other client writes to it. The page's session differs from the store's only in the position, which `storedIndex` tracks. The inserted session's id and start time are a parameter (`Engine.Stamp`).
- `Date().toISOString()` becomes the parameter `now`. `Math.random` becomes a nondeterministic choice of the swap index.
- React plumbing is not modelled: asynchrony, the order in which state updates land, and stale closures. Each method applies its updates in program order to the current state.
- Toast texts are reduced to an outcome status, and the `isLoading` flag is left out.
- Rendering and navigation are left out: JSX layout, badges, the image, the explanation alert, and the tab and page links.
- Components outside the core are not part of this model: the sign-in card, the session controls and the review panel. The sign-in card is reduced to `SetUser`.
- `testDatabaseConnection` reports only connectivity and changes no state.
- The inline setters of the form's stem, correct index (`parseInt`), topic, difficulty and explanation fields are plain field assignments and are not modelled separately.
- TestingPage.Dashboard.ChangeChoice: requires the index to lie inside the choice list. JavaScript would extend the array for an index past its end, but the page only passes indices of the rendered choices.
- QuestionPanel.Label: requires `65 + index` to stay below the surrogate range. `String.fromCharCode` wrap-around past 0xFFFF is not modelled.
- QuestionPanel.ChoiceButtons: requires at most 0xD800 - 65 choices, for the same reason.
- The correct-answer letter in the incorrect-attempt alert is the same `Label` of the correct index and is not modelled separately.
- Records.Normalize: the spread keeps unknown extra columns of a row; the model's row has only the named columns.

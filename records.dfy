/** The records the exam pages exchange with the store, and the normalisation the
    pages apply to a raw question row before using it (src/pages/Index.tsx
    `convertToQuestion`, repeated inline in src/pages/Testing.tsx
    `loadExistingQuestions`). */
module Records {
  import opened Wrappers

  /** A JSON value as the store hands it back; the `choices` column of a question is
      a JSON column, so nothing guarantees it is an array of strings. */
  datatype Json =
    | JNull
    | JBool(b: bool)
    | JNumber(n: int)
    | JString(str: string)
    | JArray(elements: seq<Json>)
    | JObject(members: seq<(string, Json)>)

  /** A row of the `questions` table as the store returns it. */
  datatype QuestionRow = QuestionRow(
    id: int,
    stem: string,
    choices: Json,
    correctIndex: int,
    topic: Option<string>,
    difficulty: Option<string>,
    explanation: Option<string>,
    imageUrl: Option<string>,
    isActive: bool)

  /** A question as the pages use it: choices are plain strings and an empty optional
      text is absent. */
  datatype Question = Question(
    id: int,
    stem: string,
    choices: seq<string>,
    correctIndex: int,
    topic: Option<string>,
    difficulty: Option<string>,
    explanation: Option<string>,
    imageUrl: Option<string>,
    isActive: bool)

  /** A row of the `attempts` table: one recorded answer within one session. */
  datatype Attempt = Attempt(sessionId: string, questionId: int, choiceIndex: int, correct: bool)

  /** A row of the `sessions` table. `mode` is free text in the store; the page only ever
      writes `ExamMode` or `PracticeMode` into it. */
  datatype Session = Session(
    id: string,
    userId: string,
    mode: string,
    questionOrder: seq<int>,
    currentIndex: int,
    total: int,
    score: int,
    startedAt: string,
    finishedAt: Option<string>)

  const ExamMode: string := "exam"
  const PracticeMode: string := "practice"

  /** The key under which a question is cached, and under which an attempt is kept. */
  function QuestionKey(q: Question): int { q.id }
  function AttemptKey(a: Attempt): int { a.questionId }

  /** `field || undefined` on an optional text column: null and "" both become absent. */
  function Present(o: Option<string>): (r: Option<string>)
    ensures r.Some? <==> o.Some? && o.value != ""
    ensures r.Some? ==> r == o
  {
    if o.Some? && o.value != "" then o else None
  }

  /** `choices.filter(c => typeof c === 'string')`: the string elements, in order. */
  function StringChoices(xs: seq<Json>): (r: seq<string>)
    ensures |r| <= |xs|
    ensures forall i :: 0 <= i < |r| ==> JString(r[i]) in xs
  {
    if xs == [] then []
    else
      var rest := StringChoices(xs[1..]);
      assert forall i :: 0 <= i < |rest| ==> JString(rest[i]) in xs by {
        forall i | 0 <= i < |rest| ensures JString(rest[i]) in xs {
          assert JString(rest[i]) in xs[1..];
        }
      }
      if xs[0].JString? then [xs[0].str] + rest else rest
  }

  /** `Array.isArray(choices) ? choices.filter(...) : []`. */
  function ChoicesOf(j: Json): (r: seq<string>)
    ensures !j.JArray? ==> r == []
    ensures j.JArray? ==> |r| <= |j.elements| && forall i :: 0 <= i < |r| ==> JString(r[i]) in j.elements
  {
    if j.JArray? then StringChoices(j.elements) else []
  }

  /** The page's normalisation of one raw row: the other columns are kept as they are. */
  function Normalize(row: QuestionRow): (q: Question)
    ensures q.id == row.id && q.stem == row.stem && q.correctIndex == row.correctIndex
    ensures q.imageUrl == row.imageUrl && q.isActive == row.isActive
    ensures !row.choices.JArray? ==> q.choices == []
    ensures q.topic != Some("") && q.difficulty != Some("") && q.explanation != Some("")
  {
    Question(row.id, row.stem, ChoicesOf(row.choices), row.correctIndex,
             Present(row.topic), Present(row.difficulty), Present(row.explanation),
             row.imageUrl, row.isActive)
  }

  /** `(data || []).map(normalise)`. */
  function NormalizeAll(rows: seq<QuestionRow>): (qs: seq<Question>)
    ensures |qs| == |rows|
    ensures forall i :: 0 <= i < |rows| ==> qs[i] == Normalize(rows[i])
  {
    seq(|rows|, i requires 0 <= i < |rows| => Normalize(rows[i]))
  }

  /** Identifiers of a list of rows, in order (`questions.map(q => q.id)`). */
  function RowIds(rows: seq<QuestionRow>): (ids: seq<int>)
    ensures |ids| == |rows|
    ensures forall i :: 0 <= i < |rows| ==> ids[i] == rows[i].id
  {
    seq(|rows|, i requires 0 <= i < |rows| => rows[i].id)
  }

  /** Filtering distributes over concatenation: the filter keeps order and drops exactly
      the non-string elements. Together with the two singleton cases below this
      determines `StringChoices` completely. */
  lemma {:induction false} StringChoicesAppend(a: seq<Json>, b: seq<Json>)
    ensures StringChoices(a + b) == StringChoices(a) + StringChoices(b)
  {
    if a != [] {
      assert (a + b)[1..] == a[1..] + b;
      StringChoicesAppend(a[1..], b);
    } else {
      assert a + b == b;
    }
  }

  lemma StringChoicesSingleton(x: Json)
    ensures StringChoices([x]) == if x.JString? then [x.str] else []
  {
    assert [x][1..] == [];
  }

  /** A list of texts written as a JSON array of strings. */
  function JsonStrings(ss: seq<string>): (js: seq<Json>)
    ensures |js| == |ss|
    ensures forall i :: 0 <= i < |ss| ==> js[i] == JString(ss[i])
  {
    seq(|ss|, i requires 0 <= i < |ss| => JString(ss[i]))
  }

  /** Choices written as an array of strings read back unchanged. */
  lemma {:induction false} StringChoicesOfStrings(ss: seq<string>)
    ensures StringChoices(JsonStrings(ss)) == ss
  {
    if ss != [] {
      assert JsonStrings(ss)[1..] == JsonStrings(ss[1..]);
      StringChoicesOfStrings(ss[1..]);
      assert [ss[0]] + ss[1..] == ss;
    }
  }
}

/** The authoring side of the application, the testing dashboard
    (src/pages/Testing.tsx): the new-question form, its validation, the record it
    inserts, the reset after a successful insert, the list of existing questions and the
    bulk insert of the built-in sample questions. Store calls are parameters holding the
    store's answer. */
module TestingPage {
  import opened Wrappers
  import opened Records

  /** The new-question form. Optional texts are "" when not filled in. */
  datatype Form = Form(
    stem: string,
    choices: seq<string>,
    correctIndex: int,
    topic: string,
    difficulty: string,
    explanation: string)

  /** The record sent to the store's `questions` insert. */
  datatype NewQuestion = NewQuestion(
    stem: string,
    choices: seq<string>,
    correctIndex: int,
    topic: Option<string>,
    difficulty: Option<string>,
    explanation: Option<string>,
    isActive: bool)

  /** What the dashboard reports after an action. */
  datatype Notice = Success | ValidationError | StoreError(message: string)

  /** The form as first shown and as reset after a successful insert. */
  const BlankForm: Form := Form("", ["", "", "", ""], 0, "", "", "")

  // ---------------------------------------------------------------------------
  // Validation (src/pages/Testing.tsx:47)
  // ---------------------------------------------------------------------------

  /** The characters `String.prototype.trim` removes: the ECMAScript white space and line
      terminator characters. */
  predicate IsWhitespace(c: char)
  {
    var n := c as int;
    || 0x09 <= n <= 0x0D          // tab, line feed, vertical tab, form feed, carriage return
    || n == 0x20 || n == 0xA0     // space, no-break space
    || n == 0x1680
    || 0x2000 <= n <= 0x200A
    || n == 0x2028 || n == 0x2029 // line and paragraph separators
    || n == 0x202F || n == 0x205F || n == 0x3000
    || n == 0xFEFF                // byte order mark
  }

  /** `s` without its leading white space. */
  function TrimStart(s: string): (r: string)
    ensures |r| <= |s| && r == s[|s| - |r|..]
    ensures r != [] ==> !IsWhitespace(r[0])
    ensures forall i :: 0 <= i < |s| - |r| ==> IsWhitespace(s[i])
  {
    if s != [] && IsWhitespace(s[0]) then TrimStart(s[1..]) else s
  }

  /** `s` without its trailing white space. */
  function TrimEnd(s: string): (r: string)
    ensures |r| <= |s| && r == s[..|r|]
    ensures r != [] ==> !IsWhitespace(r[|r| - 1])
    ensures forall i :: |r| <= i < |s| ==> IsWhitespace(s[i])
  {
    if s != [] && IsWhitespace(s[|s| - 1]) then TrimEnd(s[..|s| - 1]) else s
  }

  /** `s.trim()`. */
  function Trim(s: string): (r: string)
    ensures |r| <= |s|
    ensures r != [] ==> !IsWhitespace(r[0]) && !IsWhitespace(r[|r| - 1])
    ensures (exists i :: 0 <= i < |s| && !IsWhitespace(s[i])) ==> r != []
  {
    TrimEnd(TrimStart(s))
  }

  /** `!s.trim()`: the text trims to nothing. */
  predicate IsBlank(s: string)
  {
    Trim(s) == ""
  }

  /** A text is blank exactly when every character of it is white space. */
  lemma BlankIffAllWhitespace(s: string)
    ensures IsBlank(s) <==> forall i :: 0 <= i < |s| ==> IsWhitespace(s[i])
  {
  }

  /** The guard of `addSampleQuestion`: the stem and every choice must be non-blank. */
  predicate FormAccepted(f: Form)
  {
    !IsBlank(f.stem) && !(exists c :: c in f.choices && IsBlank(c))
  }

  /** The form is accepted exactly when the stem and every choice hold a character other
      than white space. */
  lemma FormAcceptedIff(f: Form)
    ensures FormAccepted(f) <==>
              && (exists i :: 0 <= i < |f.stem| && !IsWhitespace(f.stem[i]))
              && (forall c :: c in f.choices ==> exists i :: 0 <= i < |c| && !IsWhitespace(c[i]))
  {
    BlankIffAllWhitespace(f.stem);
    forall c | c in f.choices {
      BlankIffAllWhitespace(c);
    }
  }

  /** The blank form is refused, so a reset form cannot be submitted again unchanged. */
  lemma BlankFormRefused()
    ensures !FormAccepted(BlankForm)
  {
    assert IsBlank("");
  }

  // ---------------------------------------------------------------------------
  // The records inserted (src/pages/Testing.tsx:58-66, 172-174)
  // ---------------------------------------------------------------------------

  /** The record `addSampleQuestion` inserts: the texts as typed (not trimmed), an empty
      topic, difficulty or explanation sent as null, and the question active. */
  function ToRecord(f: Form): (r: NewQuestion)
    ensures r.stem == f.stem && r.choices == f.choices && r.correctIndex == f.correctIndex
    ensures r.topic.None? <==> f.topic == ""
    ensures r.difficulty.None? <==> f.difficulty == ""
    ensures r.explanation.None? <==> f.explanation == ""
    ensures r.topic.Some? ==> r.topic.value == f.topic
    ensures r.difficulty.Some? ==> r.difficulty.value == f.difficulty
    ensures r.explanation.Some? ==> r.explanation.value == f.explanation
    ensures r.isActive
  {
    NewQuestion(f.stem, f.choices, f.correctIndex,
                Present(Some(f.topic)), Present(Some(f.difficulty)), Present(Some(f.explanation)),
                true)
  }

  /** `{ ...q, is_active: true }` for one built-in sample. */
  function Activated(q: Form): NewQuestion
  {
    NewQuestion(q.stem, q.choices, q.correctIndex, Some(q.topic), Some(q.difficulty), Some(q.explanation), true)
  }

  /** The bulk insert's records: one per sample, in order, each active. */
  function ActivatedAll(samples: seq<Form>): (rs: seq<NewQuestion>)
    ensures |rs| == |samples|
    ensures forall i :: 0 <= i < |rs| ==> rs[i].isActive
    ensures forall i :: 0 <= i < |rs| ==>
              && rs[i].stem == samples[i].stem && rs[i].choices == samples[i].choices
              && rs[i].correctIndex == samples[i].correctIndex
              && rs[i].topic == Some(samples[i].topic)
              && rs[i].difficulty == Some(samples[i].difficulty)
              && rs[i].explanation == Some(samples[i].explanation)
  {
    seq(|samples|, i requires 0 <= i < |samples| => Activated(samples[i]))
  }

  /** The row the store keeps for an inserted record under the id it assigns: the
      choices become a JSON array of strings, there is no image. */
  function StoredRow(r: NewQuestion, id: int): QuestionRow
  {
    QuestionRow(id, r.stem, JArray(JsonStrings(r.choices)),
                r.correctIndex, r.topic, r.difficulty, r.explanation, None, r.isActive)
  }

  /** An authored question reads back through the pages' normalisation with the stem,
      choices and correct index as typed and an optional text present exactly when it
      was filled in. */
  lemma AuthoredQuestionReadsBack(f: Form, id: int)
    ensures var q := Normalize(StoredRow(ToRecord(f), id));
            && q.id == id && q.stem == f.stem && q.choices == f.choices
            && q.correctIndex == f.correctIndex && q.isActive
            && (q.topic.Some? <==> f.topic != "") && (q.difficulty.Some? <==> f.difficulty != "")
            && (q.explanation.Some? <==> f.explanation != "")
  {
    StringChoicesOfStrings(f.choices);
  }

  // ---------------------------------------------------------------------------
  // Choice editing (src/pages/Testing.tsx:40-44)
  // ---------------------------------------------------------------------------

  /** `const updated = [...choices]; updated[index] = value`: a copy with one position
      replaced; the list it was copied from stays as it was. */
  method ReplaceChoice(choices: seq<string>, index: int, value: string) returns (updated: seq<string>)
    requires 0 <= index < |choices|
    ensures |updated| == |choices|
    ensures updated[index] == value
    ensures forall i :: 0 <= i < |choices| && i != index ==> updated[i] == choices[i]
  {
    var copy := new string[|choices|](i requires 0 <= i < |choices| => choices[i]);
    copy[index] := value;
    updated := copy[..];
  }

  // ---------------------------------------------------------------------------
  // The built-in samples (src/pages/Testing.tsx:128-168)
  // ---------------------------------------------------------------------------

  const SampleQuestions: seq<Form> := [
    Form("Which of the following is the most common cause of iron deficiency anemia?",
         ["Chronic blood loss", "Inadequate dietary intake", "Malabsorption", "Increased iron requirements"],
         0, "Hematology", "Medium",
         "Chronic blood loss is the most common cause of iron deficiency anemia in adults, often due to GI bleeding or menstrual losses."),
    Form("What is the primary function of neutrophils?",
         ["Antibody production", "Phagocytosis of bacteria", "Allergic reactions", "Antigen presentation"],
         1, "Hematology", "Easy",
         "Neutrophils are the primary cells responsible for phagocytosis of bacteria and are the first responders to bacterial infections."),
    Form("Which organism is the most common cause of community-acquired pneumonia?",
         ["Haemophilus influenzae", "Streptococcus pneumoniae", "Staphylococcus aureus", "Mycoplasma pneumoniae"],
         1, "Microbiology", "Medium",
         "Streptococcus pneumoniae (pneumococcus) is the most common bacterial cause of community-acquired pneumonia.")
  ]

  /** Every sample has four choices and a correct index that points at one of them. */
  lemma SamplesWellFormed()
    ensures forall i :: 0 <= i < |SampleQuestions| ==>
              |SampleQuestions[i].choices| == 4 && 0 <= SampleQuestions[i].correctIndex < 4
  {
  }

  // ---------------------------------------------------------------------------
  // The dashboard's state (src/pages/Testing.tsx:24-192)
  // ---------------------------------------------------------------------------

  class Dashboard {
    var form: Form
    var existingQuestions: seq<Question>

    constructor ()
      ensures form == BlankForm && existingQuestions == []
    {
      form := BlankForm;
      existingQuestions := [];
    }

    /** `handleChoiceChange(index, value)`; the index always comes from the rendered
        list of choices. */
    method ChangeChoice(index: int, value: string)
      requires 0 <= index < |form.choices|
      modifies this`form
      ensures form == old(form).(choices := old(form.choices)[index := value])
    {
      var updated := ReplaceChoice(form.choices, index, value);
      form := form.(choices := updated);
    }

    /** `loadExistingQuestions`: the list is replaced by the normalised rows the store
        returned (its newest twenty), or kept when the query fails. */
    method LoadExistingQuestions(fetched: Reply<seq<QuestionRow>>) returns (notice: Notice)
      modifies this`existingQuestions
      ensures fetched.Failed? ==> notice == StoreError(fetched.message) && existingQuestions == old(existingQuestions)
      ensures fetched.Ok? ==> notice == Success && existingQuestions == NormalizeAll(fetched.value)
    {
      if fetched.Failed? {
        return StoreError(fetched.message);
      }
      existingQuestions := NormalizeAll(fetched.value);
      notice := Success;
    }

    /** `addSampleQuestion`. `sent` is the record handed to the insert, None when the
        form is refused before any store call; `inserted` is the insert's answer and
        `reloaded` the answer of the list refresh that follows a successful insert. */
    method AddSampleQuestion(inserted: Reply<()>, reloaded: Reply<seq<QuestionRow>>)
      returns (sent: Option<NewQuestion>, notice: Notice)
      modifies this`form, this`existingQuestions
      ensures sent.Some? <==> FormAccepted(old(form))
      ensures sent.Some? ==> sent.value == ToRecord(old(form))
      ensures !FormAccepted(old(form)) ==> notice == ValidationError && unchanged(this)
      ensures FormAccepted(old(form)) && inserted.Failed? ==> notice == StoreError(inserted.message) && unchanged(this)
      ensures FormAccepted(old(form)) && inserted.Ok? ==>
                && notice == Success && form == BlankForm
                && existingQuestions == (if reloaded.Ok? then NormalizeAll(reloaded.value) else old(existingQuestions))
    {
      if !FormAccepted(form) {
        return None, ValidationError;
      }
      sent := Some(ToRecord(form));
      if inserted.Failed? {
        notice := StoreError(inserted.message);
        return;
      }
      form := BlankForm;
      var _ := LoadExistingQuestions(reloaded);
      notice := Success;
    }

    /** `addSampleQuestions`: the three samples go to the store in one insert, each made
        active; the list is refreshed after a successful insert. */
    method AddSampleQuestions(inserted: Reply<()>, reloaded: Reply<seq<QuestionRow>>)
      returns (sent: seq<NewQuestion>, notice: Notice)
      modifies this`existingQuestions
      ensures sent == ActivatedAll(SampleQuestions) && |sent| == 3
      ensures inserted.Failed? ==> notice == StoreError(inserted.message) && unchanged(this)
      ensures inserted.Ok? ==>
                && notice == Success
                && existingQuestions == (if reloaded.Ok? then NormalizeAll(reloaded.value) else old(existingQuestions))
    {
      sent := ActivatedAll(SampleQuestions);
      if inserted.Failed? {
        notice := StoreError(inserted.message);
        return;
      }
      var _ := LoadExistingQuestions(reloaded);
      notice := Success;
    }
  }
}

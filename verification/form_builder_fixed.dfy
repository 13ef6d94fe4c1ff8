/** The second builder page in the repository (`FormBuilder_fixed.jsx`,
    which the router does not mount): new questions only, no editing, an
    inline delete without renumbering, and a `saveForm` without checks. It
    hands the editors an `onSaveAndAddAnother` callback that none of them
    reads, so they see no continue callback at all. */
module FormBuilderFixed {
  import opened Outcomes
  import opened Strings
  import opened Seqs
  import opened Questions
  import FormBuilder

  datatype Builder = Builder(title: string, headerImage: string, questions: seq<Question>, currentType: string)

  /** `addQuestion(type)`. */
  function AddQuestion(b: Builder, kind: string): (r: Builder)
    ensures r.currentType == kind && r.questions == b.questions
    ensures r.title == b.title && r.headerImage == b.headerImage
  {
    b.(currentType := kind)
  }

  /** The question every save appends. */
  function NewQuestion(b: Builder, data: QuestionData, freshId: int): (q: Question)
    ensures q.id == freshId && q.questionNo == |b.questions| + 1 && q.kind == b.currentType && q.data == data
  {
    Question(freshId, |b.questions| + 1, b.currentType, data)
  }

  /** `saveQuestion(data)`: appends and leaves the editor open on the same
      type. */
  function SaveQuestion(b: Builder, data: QuestionData, freshId: int): (r: Builder)
    ensures r.questions == b.questions + [NewQuestion(b, data, freshId)]
    ensures r.currentType == b.currentType && r.title == b.title && r.headerImage == b.headerImage
  {
    b.(questions := b.questions + [NewQuestion(b, data, freshId)])
  }

  /** `saveQuestionAndAddAnother(data)`: appends and closes the editor. No
      editor calls it (see `EveryRouteIsOnSave`). */
  function SaveQuestionAndAddAnother(b: Builder, data: QuestionData, freshId: int): (r: Builder)
    ensures r.questions == SaveQuestion(b, data, freshId).questions
    ensures r.currentType == "" && r.title == b.title && r.headerImage == b.headerImage
  {
    b.(questions := b.questions + [NewQuestion(b, data, freshId)], currentType := "")
  }

  /** `cancelQuestion`, and the header's close button, which does the same. */
  function CancelQuestion(b: Builder): (r: Builder)
    ensures r.currentType == "" && r.questions == b.questions
    ensures r.title == b.title && r.headerImage == b.headerImage
  {
    b.(currentType := "")
  }

  /** The editor's result reaching the builder: the editors only know
      `onSave`, so every submission, whatever route its editor asked for, is
      appended and the editor stays open on the same type. */
  function Receive(b: Builder, s: Submission, freshId: int): (r: Builder)
    ensures r.questions == b.questions + [Question(freshId, |b.questions| + 1, b.currentType, s.data)]
    ensures r.currentType == b.currentType && r.title == b.title && r.headerImage == b.headerImage
  {
    SaveQuestion(b, s.data, freshId)
  }

  /** The delete button on a question card:
      `questions.filter(question => question.id !== q.id)`, keeping the old
      numbers. */
  function DeleteQuestion(b: Builder, id: int): (r: Builder)
    ensures r.questions == Filter(FormBuilder.OtherThan(id), b.questions)
    ensures forall i :: 0 <= i < |r.questions| ==> r.questions[i].id != id && r.questions[i] in b.questions
    ensures r.currentType == b.currentType && r.title == b.title && r.headerImage == b.headerImage
  {
    b.(questions := Filter(FormBuilder.OtherThan(id), b.questions))
  }

  /** `disabled={!formTitle || questions.length === 0}` on the save button. */
  predicate SaveButtonEnabled(b: Builder) {
    b.title != "" && |b.questions| > 0
  }

  /** `saveForm` up to the network request: no checks at all. */
  function SaveForm(b: Builder): (r: FormBuilder.FormPayload)
    ensures r.title == b.title && r.headerImage == b.headerImage && r.questions == b.questions
  {
    FormBuilder.FormPayload(b.title, b.headerImage, b.questions)
  }

  /** Without a continue callback an editor always routes its save to
      `onSave`, and never draws the second save button. */
  lemma EveryRouteIsOnSave(continueWithSameType: bool, isEditing: bool)
    ensures RouteSave(continueWithSameType, false) == OnSave
    ensures !ContinueButtonShown(isEditing, false)
  {
  }

  /** A title of spaces is sent as it is, where the main builder refuses
      it. */
  lemma {:induction false} SpacesTitleIsSent(b: Builder)
    requires b.title == " " && b.questions != []
    ensures SaveButtonEnabled(b) && SaveForm(b).title == " "
    ensures FormBuilder.SaveForm(FormBuilder.Builder(b.title, b.headerImage, b.questions, "", None))
         == Err(FormBuilder.NoTitle)
  {
    assert IsSpace(b.title[0]);
  }

  /** Deleting the first of a densely numbered list and then adding a
      question leaves two questions with the same number: the last kept one
      and the new one, both numbered `|qs|`. */
  lemma {:induction false} DeleteThenAddRepeatsNumber(b: Builder, data: QuestionData, freshId: int)
    requires FormBuilder.Dense(b.questions) && FormBuilder.UniqueIds(b.questions) && |b.questions| >= 2
    ensures var r := SaveQuestion(DeleteQuestion(b, b.questions[0].id), data, freshId);
      && |r.questions| == |b.questions|
      && r.questions[|r.questions| - 2].questionNo == r.questions[|r.questions| - 1].questionNo
      && !FormBuilder.Dense(r.questions)
  {
    DropFirst(b.questions);
    var r := SaveQuestion(DeleteQuestion(b, b.questions[0].id), data, freshId);
    assert r.questions[|r.questions| - 2] == b.questions[|b.questions| - 1];
  }

  /** With unique ids, deleting the first question's id removes just it. */
  lemma {:induction false} DropFirst(qs: seq<Question>)
    requires FormBuilder.UniqueIds(qs) && qs != []
    ensures Filter(FormBuilder.OtherThan(qs[0].id), qs) == qs[1..]
  {
    var keep := FormBuilder.OtherThan(qs[0].id);
    var rest := qs[1..];
    forall k | 0 <= k < |rest| ensures keep(rest[k]) {
      assert rest[k] == qs[k + 1];
    }
    FilterExtremes(keep, rest);
    assert !keep(qs[0]);
    assert Filter(keep, [qs[0]]) == [];
    FilterConcat(keep, [qs[0]], rest);
    assert qs == [qs[0]] + rest;
  }

  /** The same on three questions numbered 1, 2, 3: after deleting the first
      and adding one the numbers read 2, 3, 3. */
  lemma ThreeQuestionsExample(d: QuestionData)
    ensures var qs := [Question(10, 1, "cloze", d), Question(20, 2, "cloze", d), Question(30, 3, "cloze", d)];
      var r := SaveQuestion(DeleteQuestion(Builder("T", "", qs, "cloze"), 10), d, 40);
      |r.questions| == 3
      && r.questions[0].questionNo == 2 && r.questions[1].questionNo == 3 && r.questions[2].questionNo == 3
  {
    var qs := [Question(10, 1, "cloze", d), Question(20, 2, "cloze", d), Question(30, 3, "cloze", d)];
    assert FormBuilder.UniqueIds(qs);
    DropFirst(qs);
    var kept := DeleteQuestion(Builder("T", "", qs, "cloze"), 10);
    assert kept.questions == [qs[1], qs[2]];
  }
}

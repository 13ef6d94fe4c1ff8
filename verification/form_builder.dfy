/** The form builder page: the form's title and header image, the list of
    questions added so far, and which editor (if any) is open, for a new
    question or for an existing one. Identifiers for new questions come from
    the clock in the source; here they are a parameter. */
module FormBuilder {
  import opened Outcomes
  import opened Strings
  import opened Seqs
  import opened Questions

  /** `editingId` is the id of the question being edited, if any; `currentType`
      is the type of the open editor, "" when none is open. */
  datatype Builder = Builder(
    title: string, headerImage: string, questions: seq<Question>,
    currentType: string, editingId: Option<int>)

  /** What `saveForm` sends to the server. */
  datatype FormPayload = FormPayload(title: string, headerImage: string, questions: seq<Question>)

  /** Why `saveForm` refused, in the order it checks. */
  datatype SaveFormError =
    | NoTitle       // "Please enter a form title"
    | NoQuestions   // "Please add at least one question"

  /** The page on first render. */
  function Initial(): (b: Builder)
    ensures b.questions == [] && b.currentType == "" && b.editingId.None?
    ensures b.title == "" && b.headerImage == ""
  {
    Builder("", "", [], "", None)
  }

  /** `if (editingQuestionId)`: the id is set and, JavaScript truthiness
      being what it is, not 0. */
  predicate Editing(b: Builder) {
    b.editingId.Some? && b.editingId.value != 0
  }

  /** Question numbers run 1, 2, 3, ... down the list. */
  predicate Dense(qs: seq<Question>) {
    forall i :: 0 <= i < |qs| ==> qs[i].questionNo == i + 1
  }

  /** No two questions share an id. */
  predicate UniqueIds(qs: seq<Question>) {
    forall i, j :: 0 <= i < j < |qs| ==> qs[i].id != qs[j].id
  }

  /** Whether some question has id `id`. */
  predicate HasId(qs: seq<Question>, id: int) {
    exists i :: 0 <= i < |qs| && qs[i].id == id
  }

  /** The position of the first question with id `id`, the one
      `questions.find(q => q.id === id)` returns. */
  function IndexOfId(qs: seq<Question>, id: int): (r: Option<nat>)
    ensures r.None? <==> !HasId(qs, id)
    ensures r.Some? ==>
      && r.value < |qs| && qs[r.value].id == id
      && forall j :: 0 <= j < r.value ==> qs[j].id != id
  {
    if qs == [] then None
    else if qs[0].id == id then Some(0)
    else
      var r := IndexOfId(qs[1..], id);
      assert HasId(qs, id) ==> HasId(qs[1..], id) by {
        if HasId(qs, id) {
          var i :| 0 <= i < |qs| && qs[i].id == id;
          assert qs[1..][i - 1].id == id;
        }
      }
      match r
      case None => None
      case Some(i) => Some(i + 1)
  }

  /** `questions.find(q => q.id === id)`: the first question with that id. */
  function FindById(qs: seq<Question>, id: int): (r: Option<Question>)
    ensures r.None? <==> !HasId(qs, id)
    ensures r.Some? ==> r.value in qs && r.value.id == id
    ensures r.Some? ==> r.value == qs[IndexOfId(qs, id).value]
  {
    match IndexOfId(qs, id)
    case None => None
    case Some(i) => Some(qs[i])
  }

  /** `addQuestion(type)`: opens a new-question editor of that type. */
  function AddQuestion(b: Builder, kind: string): (r: Builder)
    ensures r.currentType == kind && !Editing(r)
    ensures r.questions == b.questions && r.title == b.title && r.headerImage == b.headerImage
  {
    b.(currentType := kind, editingId := None)
  }

  /** `editQuestion(id)`: opens the editor of the question's own type on
      that question; an unknown id changes nothing. */
  function EditQuestion(b: Builder, id: int): (r: Builder)
    ensures HasId(b.questions, id) ==>
      r.editingId == Some(id) && r.currentType == FindById(b.questions, id).value.kind
    ensures !HasId(b.questions, id) ==> r == b
    ensures r.questions == b.questions && r.title == b.title && r.headerImage == b.headerImage
  {
    match FindById(b.questions, id)
    case None => b
    case Some(q) => b.(currentType := q.kind, editingId := Some(id))
  }

  /** The record the open editor starts from: the question being edited, or
      nothing for a new question. */
  function EditorInitialData(b: Builder): (r: Option<Question>)
    ensures !Editing(b) ==> r.None?
    ensures Editing(b) ==> (r.Some? <==> HasId(b.questions, b.editingId.value))
    ensures Editing(b) && r.Some? ==> r.value in b.questions && r.value.id == b.editingId.value
    ensures r.Some? ==> r.value == b.questions[IndexOfId(b.questions, b.editingId.value).value]
  {
    if Editing(b) then
      var r := FindById(b.questions, b.editingId.value);
      r
    else None
  }

  /** `questions.map(q => q.id === id ? {...q, ...data} : q)`: every question
      with that id takes the editor's fields; id, number and type stay. */
  function MergeById(qs: seq<Question>, id: int, data: QuestionData): (r: seq<Question>)
    ensures |r| == |qs|
    ensures forall i :: 0 <= i < |qs| ==>
      && r[i].id == qs[i].id && r[i].questionNo == qs[i].questionNo && r[i].kind == qs[i].kind
      && r[i].data == (if qs[i].id == id then data else qs[i].data)
  {
    seq(|qs|, i requires 0 <= i < |qs| => if qs[i].id == id then qs[i].(data := data) else qs[i])
  }

  /** The new question `saveQuestion` appends: numbered after the last one,
      typed by the open editor. */
  function Append(b: Builder, data: QuestionData, freshId: int): (r: seq<Question>)
    ensures |r| == |b.questions| + 1 && b.questions <= r
    ensures r[|b.questions|] == Question(freshId, |b.questions| + 1, b.currentType, data)
    ensures Dense(b.questions) ==> Dense(r)
    ensures UniqueIds(b.questions) && !HasId(b.questions, freshId) ==> UniqueIds(r)
  {
    b.questions + [Question(freshId, |b.questions| + 1, b.currentType, data)]
  }

  /** `saveQuestion(data)`: updates the question being edited or appends a
      new one, then closes the editor. */
  function SaveQuestion(b: Builder, data: QuestionData, freshId: int): (r: Builder)
    ensures Editing(b) ==> r.questions == MergeById(b.questions, b.editingId.value, data)
    ensures !Editing(b) ==> r.questions == Append(b, data, freshId)
    ensures r.currentType == "" && r.editingId.None?
    ensures r.title == b.title && r.headerImage == b.headerImage
    ensures Dense(b.questions) ==> Dense(r.questions)
    ensures UniqueIds(b.questions) && !HasId(b.questions, freshId) ==> UniqueIds(r.questions)
  {
    var qs := if Editing(b) then MergeById(b.questions, b.editingId.value, data)
              else Append(b, data, freshId);
    b.(questions := qs, currentType := "", editingId := None)
  }

  /** `saveQuestionAndContinue(data)`: like `saveQuestion` when editing;
      when adding, appends but leaves the editor open on the same type. */
  function SaveQuestionAndContinue(b: Builder, data: QuestionData, freshId: int): (r: Builder)
    ensures Editing(b) ==> r == SaveQuestion(b, data, freshId)
    ensures !Editing(b) ==>
      r.questions == Append(b, data, freshId)
      && r.currentType == b.currentType && r.editingId == b.editingId
    ensures r.title == b.title && r.headerImage == b.headerImage
    ensures Dense(b.questions) ==> Dense(r.questions)
    ensures UniqueIds(b.questions) && !HasId(b.questions, freshId) ==> UniqueIds(r.questions)
  {
    if Editing(b) then
      b.(questions := MergeById(b.questions, b.editingId.value, data), currentType := "", editingId := None)
    else
      b.(questions := Append(b, data, freshId))
  }

  /** The editor's `handleSave` result reaching the builder, through the
      callback the editor chose. Adding appends one question numbered after
      the others; editing replaces the data of the question being edited and
      keeps every number. The editor stays open only when a new question was
      added through the continue callback. */
  function Receive(b: Builder, s: Submission, freshId: int): (r: Builder)
    ensures !Editing(b) ==>
      && |r.questions| == |b.questions| + 1
      && r.questions[..|b.questions|] == b.questions
      && r.questions[|b.questions|] == Question(freshId, |b.questions| + 1, b.currentType, s.data)
    ensures Editing(b) ==>
      && |r.questions| == |b.questions|
      && forall i :: 0 <= i < |b.questions| ==>
           && r.questions[i].id == b.questions[i].id
           && r.questions[i].questionNo == b.questions[i].questionNo
           && r.questions[i].kind == b.questions[i].kind
           && r.questions[i].data == (if b.questions[i].id == b.editingId.value then s.data else b.questions[i].data)
    ensures Editing(b) || s.route == OnSave ==> r.currentType == "" && !Editing(r)
    ensures !Editing(b) && s.route == OnSaveAndContinue ==>
      r.currentType == b.currentType && r.editingId == b.editingId
    ensures b.currentType != "" ==>
      (r.currentType == b.currentType <==> !Editing(b) && s.route == OnSaveAndContinue)
    ensures r.title == b.title && r.headerImage == b.headerImage
    ensures Dense(b.questions) ==> Dense(r.questions)
    ensures UniqueIds(b.questions) && !HasId(b.questions, freshId) ==> UniqueIds(r.questions)
  {
    match s.route
    case OnSave => SaveQuestion(b, s.data, freshId)
    case OnSaveAndContinue => SaveQuestionAndContinue(b, s.data, freshId)
  }

  /** `cancelQuestion`: closes the editor, leaving the questions alone. */
  function CancelQuestion(b: Builder): (r: Builder)
    ensures r.currentType == "" && !Editing(r)
    ensures r.questions == b.questions && r.title == b.title && r.headerImage == b.headerImage
  {
    b.(currentType := "", editingId := None)
  }

  /** Keeps the questions whose id is not `id`. */
  function OtherThan(id: int): Question -> bool {
    (q: Question) => q.id != id
  }

  /** `.map((q, index) => ({...q, questionNo: index + 1}))`. */
  function Renumber(qs: seq<Question>): (r: seq<Question>)
    ensures |r| == |qs| && Dense(r)
    ensures forall i :: 0 <= i < |qs| ==>
      r[i].id == qs[i].id && r[i].kind == qs[i].kind && r[i].data == qs[i].data
  {
    seq(|qs|, i requires 0 <= i < |qs| => qs[i].(questionNo := i + 1))
  }

  /** `deleteQuestion(id)` after the confirmation dialog: when confirmed, the
      questions with that id go and the rest are renumbered in order. */
  function DeleteQuestion(b: Builder, id: int, confirmed: bool): (r: Builder)
    ensures !confirmed ==> r == b
    ensures confirmed ==>
      && r.questions == Renumber(Filter(OtherThan(id), b.questions))
      && !HasId(r.questions, id)
      && r.currentType == b.currentType && r.editingId == b.editingId
      && r.title == b.title && r.headerImage == b.headerImage
    ensures Dense(r.questions) || r == b
  {
    if confirmed then
      var kept := Filter(OtherThan(id), b.questions);
      b.(questions := Renumber(kept))
    else
      b
  }

  /** `disabled={!formTitle || questions.length === 0}` on the save button. */
  predicate SaveButtonEnabled(b: Builder) {
    b.title != "" && |b.questions| > 0
  }

  /** `saveForm` up to the network request: refuses a blank title, then an
      empty question list; otherwise the payload is the title, header image
      and questions as they stand. */
  function SaveForm(b: Builder): (r: Result<FormPayload, SaveFormError>)
    ensures r == Err(NoTitle) <==> AllSpace(b.title)
    ensures r == Err(NoQuestions) <==> !AllSpace(b.title) && b.questions == []
    ensures r.Ok? ==> r.value == FormPayload(b.title, b.headerImage, b.questions) && SaveButtonEnabled(b)
  {
    BlankIffAllSpace(b.title);
    if IsBlank(b.title) then Err(NoTitle)
    else if |b.questions| == 0 then Err(NoQuestions)
    else Ok(FormPayload(b.title, b.headerImage, b.questions))
  }

  /** A title of spaces enables the save button, but `saveForm` refuses it. */
  lemma {:induction false} SpacesTitleEnablesButtonOnly(b: Builder)
    requires b.title == " " && b.questions != []
    ensures SaveButtonEnabled(b) && SaveForm(b) == Err(NoTitle)
  {
    assert IsSpace(b.title[0]);
  }

  /** A question just added can be reopened: the editor comes up with the
      type it was added under and the record that was saved. */
  lemma {:induction false} AddedQuestionReopens(b: Builder, data: QuestionData, freshId: int)
    requires !Editing(b) && !HasId(b.questions, freshId) && freshId != 0
    ensures var r := EditQuestion(SaveQuestion(b, data, freshId), freshId);
      && Editing(r) && r.currentType == b.currentType
      && EditorInitialData(r) == Some(Question(freshId, |b.questions| + 1, b.currentType, data))
  {
    var qs := SaveQuestion(b, data, freshId).questions;
    var q := Question(freshId, |b.questions| + 1, b.currentType, data);
    assert qs[|b.questions|] == q;
    assert HasId(qs, freshId);
    assert IndexOfId(qs, freshId) == Some(|b.questions|);
  }

  /** Saving from an editor opened on a question replaces that question's
      fields and nothing else: the same number of questions, every other
      question as it was, and the list still numbered 1, 2, 3, ... */
  lemma {:induction false} EditReplacesOnlyThatQuestion(b: Builder, id: int, data: QuestionData, freshId: int)
    requires UniqueIds(b.questions) && Dense(b.questions) && HasId(b.questions, id) && id != 0
    ensures var r := SaveQuestion(EditQuestion(b, id), data, freshId);
      && |r.questions| == |b.questions| && Dense(r.questions) && UniqueIds(r.questions)
      && (forall i :: 0 <= i < |b.questions| && b.questions[i].id != id ==> r.questions[i] == b.questions[i])
      && (forall i :: 0 <= i < |b.questions| && b.questions[i].id == id ==>
            r.questions[i] == b.questions[i].(data := data))
  {
    var e := EditQuestion(b, id);
    assert Editing(e);
    var r := SaveQuestion(e, data, freshId);
    assert r.questions == MergeById(b.questions, id, data);
  }

  /** With unique ids, exactly one question carries a present id, so the
      filter drops exactly one. */
  lemma {:induction false} DropOneId(qs: seq<Question>, id: int)
    requires UniqueIds(qs) && HasId(qs, id)
    ensures |Filter(OtherThan(id), qs)| == |qs| - 1
    decreases |qs|
  {
    var rest := qs[1..];
    assert UniqueIds(rest) by {
      forall i, j | 0 <= i < j < |rest| ensures rest[i].id != rest[j].id {
        assert rest[i] == qs[i + 1] && rest[j] == qs[j + 1];
      }
    }
    if qs[0].id == id {
      assert forall k :: 0 <= k < |rest| ==> OtherThan(id)(rest[k]) by {
        forall k | 0 <= k < |rest| ensures OtherThan(id)(rest[k]) {
          assert rest[k] == qs[k + 1];
        }
      }
      FilterExtremes(OtherThan(id), rest);
    } else {
      var i :| 0 <= i < |qs| && qs[i].id == id;
      assert rest[i - 1].id == id;
      DropOneId(rest, id);
    }
  }

  /** Deleting a question that is there removes exactly one question and
      renumbers the rest from 1. */
  lemma {:induction false} DeleteRemovesOne(b: Builder, id: int)
    requires UniqueIds(b.questions) && HasId(b.questions, id)
    ensures var r := DeleteQuestion(b, id, true);
      && |r.questions| == |b.questions| - 1 && Dense(r.questions) && !HasId(r.questions, id)
  {
    DropOneId(b.questions, id);
  }

  /** Dropping questions keeps the remaining ids unique. */
  lemma {:induction false} FilterKeepsIdsUnique(qs: seq<Question>, id: int)
    requires UniqueIds(qs)
    ensures UniqueIds(Filter(OtherThan(id), qs))
    decreases |qs|
  {
    if qs != [] {
      var rest := qs[1..];
      assert UniqueIds(rest) by {
        forall i, j | 0 <= i < j < |rest| ensures rest[i].id != rest[j].id {
          assert rest[i] == qs[i + 1] && rest[j] == qs[j + 1];
        }
      }
      FilterKeepsIdsUnique(rest, id);
      var kept := Filter(OtherThan(id), rest);
      assert forall k :: 0 <= k < |kept| ==> kept[k].id != qs[0].id by {
        forall k | 0 <= k < |kept| ensures kept[k].id != qs[0].id {
          var j :| 0 <= j < |rest| && rest[j] == kept[k];
          assert qs[j + 1] == kept[k];
        }
      }
      if OtherThan(id)(qs[0]) {
        ConsUnique(qs[0], kept);
      }
    }
  }

  /** A question whose id none of a uniquely-identified list has can go in
      front of it. */
  lemma ConsUnique(q: Question, qs: seq<Question>)
    requires UniqueIds(qs) && forall k :: 0 <= k < |qs| ==> qs[k].id != q.id
    ensures UniqueIds([q] + qs)
  {
    var r := [q] + qs;
    forall i, j | 0 <= i < j < |r| ensures r[i].id != r[j].id {
      assert r[j] == qs[j - 1];
      if i > 0 { assert r[i] == qs[i - 1]; }
    }
  }

  /** The interactions the page offers. A save carries the editor's
      submission and the clock's id for a new question; a delete carries
      the answer to the confirmation dialog. */
  datatype Event =
    | TitleTyped(value: string)
    | AddQuestionClicked(kind: string)
    | EditClicked(id: int)
    | Submitted(submission: Submission, freshId: int)
    | CancelClicked
    | DeleteClicked(id: int, confirmed: bool)

  /** One interaction. The clock gives every new question an id no earlier
      question has, so the ids stay unique, and the numbers stay 1, 2, 3, ... */
  function Step(b: Builder, ev: Event): (r: Builder)
    requires ev.Submitted? ==> !HasId(b.questions, ev.freshId)
    ensures Dense(b.questions) ==> Dense(r.questions)
    ensures UniqueIds(b.questions) ==> UniqueIds(r.questions)
  {
    match ev
    case TitleTyped(v) => b.(title := v)
    case AddQuestionClicked(k) => AddQuestion(b, k)
    case EditClicked(id) => EditQuestion(b, id)
    case Submitted(s, fid) => Receive(b, s, fid)
    case CancelClicked => CancelQuestion(b)
    case DeleteClicked(id, c) =>
      var r := DeleteQuestion(b, id, c);
      assert UniqueIds(b.questions) ==> UniqueIds(r.questions) by {
        if c && UniqueIds(b.questions) {
          FilterKeepsIdsUnique(b.questions, id);
        }
      }
      r
  }
}

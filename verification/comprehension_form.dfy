/** The comprehension-question editor: a paragraph, an optional image URL and
    a list of multiple-choice sub-questions, each with its options and the
    option marked correct. */
module ComprehensionForm {
  import opened Outcomes
  import opened Strings
  import opened Seqs
  import opened Questions

  datatype Editor = Editor(paragraph: string, image: string, subQuestions: seq<SubQuestion>)

  /** Why `handleSave` refused, in the order it checks. */
  datatype ComprehensionError =
    | EmptyParagraph        // "Please enter a paragraph"
    | NoValidSubQuestion    // "Please add at least one valid sub-question ..."

  /** A new sub-question: no text, four empty options, nothing marked. */
  const FreshSub: SubQuestion := SubQuestion("", ["", "", "", ""], "")

  /** Fewest options a sub-question can be cut down to with its remove
      buttons. */
  const MinOptions: nat := 2

  /** The editor on mount. */
  function Initial(): (e: Editor)
    ensures |e.subQuestions| == 1 && |e.subQuestions[0].options| == 4
    ensures e.subQuestions == [FreshSub]
    ensures forall o :: o in e.subQuestions[0].options ==> o == ""
    ensures e.subQuestions[0].question == "" && e.subQuestions[0].correctAnswer == ""
    ensures e.paragraph == "" && e.image == ""
  {
    Editor("", "", [FreshSub])
  }

  /** The editor once `initialData` has been applied: its sub-questions are
      used only when there are any. */
  function Load(initial: Option<ComprehensionData>): (e: Editor)
    ensures initial.None? ==> e == Initial()
    ensures initial.Some? ==> e.paragraph == initial.value.paragraph && e.image == initial.value.image
    ensures initial.Some? && initial.value.subQuestions != [] ==> e.subQuestions == initial.value.subQuestions
    ensures e.subQuestions != []
  {
    match initial
    case None => Initial()
    case Some(d) =>
      Editor(d.paragraph, d.image, if |d.subQuestions| > 0 then d.subQuestions else [FreshSub])
  }

  function AddSubQuestion(e: Editor): (r: Editor)
    ensures |r.subQuestions| == |e.subQuestions| + 1 && e.subQuestions <= r.subQuestions
    ensures r.subQuestions[|e.subQuestions|] == FreshSub
    ensures r.paragraph == e.paragraph && r.image == e.image
  {
    e.(subQuestions := e.subQuestions + [FreshSub])
  }

  function RemoveSubQuestion(e: Editor, index: int): (r: Editor)
    ensures 0 <= index < |e.subQuestions| ==>
      |r.subQuestions| == |e.subQuestions| - 1
      && multiset(r.subQuestions) + multiset{e.subQuestions[index]} == multiset(e.subQuestions)
    ensures !(0 <= index < |e.subQuestions|) ==> r == e
    ensures r.paragraph == e.paragraph && r.image == e.image
    ensures 0 <= index < |e.subQuestions| ==> Without(r.subQuestions, e.subQuestions, index)
  {
    var r := e.(subQuestions := RemoveAt(e.subQuestions, index));
    if 0 <= index < |e.subQuestions| then
      RemoveAtMultiset(e.subQuestions, index);
      r
    else
      r
  }

  /** Replaces sub-question `index` and keeps every other one. */
  function WithSub(e: Editor, index: nat, sq: SubQuestion): (r: Editor)
    requires index < |e.subQuestions|
    ensures |r.subQuestions| == |e.subQuestions| && r.subQuestions[index] == sq
    ensures forall j :: 0 <= j < |e.subQuestions| && j != index ==> r.subQuestions[j] == e.subQuestions[j]
    ensures r.paragraph == e.paragraph && r.image == e.image
  {
    e.(subQuestions := e.subQuestions[index := sq])
  }

  /** `updateSubQuestion(index, "question", value)`: the only field the
      screen edits this way is the sub-question's text. */
  function UpdateSubQuestion(e: Editor, index: nat, value: string): (r: Editor)
    requires index < |e.subQuestions|
    ensures |r.subQuestions| == |e.subQuestions|
    ensures r.subQuestions[index].question == value
    ensures r.subQuestions[index].options == e.subQuestions[index].options
    ensures r.subQuestions[index].correctAnswer == e.subQuestions[index].correctAnswer
    ensures forall j :: 0 <= j < |e.subQuestions| && j != index ==> r.subQuestions[j] == e.subQuestions[j]
  {
    WithSub(e, index, e.subQuestions[index].(question := value))
  }

  /** `updateOption(s, o, value)`: the option's text changes; the marked
      answer is left as it was, even if it was this option's old text. */
  function UpdateOption(e: Editor, s: nat, o: nat, value: string): (r: Editor)
    requires s < |e.subQuestions| && o < |e.subQuestions[s].options|
    ensures |r.subQuestions| == |e.subQuestions|
    ensures var before, after := e.subQuestions[s], r.subQuestions[s];
      && |after.options| == |before.options| && after.options[o] == value
      && (forall j :: 0 <= j < |before.options| && j != o ==> after.options[j] == before.options[j])
      && after.question == before.question && after.correctAnswer == before.correctAnswer
    ensures forall j :: 0 <= j < |e.subQuestions| && j != s ==> r.subQuestions[j] == e.subQuestions[j]
  {
    var sq := e.subQuestions[s];
    WithSub(e, s, sq.(options := sq.options[o := value]))
  }

  /** `addOption(s)`: one more empty option at the end. */
  function AddOption(e: Editor, s: nat): (r: Editor)
    requires s < |e.subQuestions|
    ensures |r.subQuestions| == |e.subQuestions|
    ensures var before, after := e.subQuestions[s], r.subQuestions[s];
      && after.options == before.options + [""]
      && after.question == before.question && after.correctAnswer == before.correctAnswer
    ensures forall j :: 0 <= j < |e.subQuestions| && j != s ==> r.subQuestions[j] == e.subQuestions[j]
  {
    var sq := e.subQuestions[s];
    WithSub(e, s, sq.(options := sq.options + [""]))
  }

  /** `removeOption(s, o)`: takes out option `o`, but only while the
      sub-question has more than two options. */
  function RemoveOption(e: Editor, s: nat, o: nat): (r: Editor)
    requires s < |e.subQuestions| && o < |e.subQuestions[s].options|
    ensures |r.subQuestions| == |e.subQuestions|
    ensures var before, after := e.subQuestions[s], r.subQuestions[s];
      && (|before.options| > MinOptions ==>
            Without(after.options, before.options, o)
            && multiset(after.options) + multiset{before.options[o]} == multiset(before.options))
      && (|before.options| <= MinOptions ==> after == before)
      && after.question == before.question && after.correctAnswer == before.correctAnswer
    ensures forall j :: 0 <= j < |e.subQuestions| && j != s ==> r.subQuestions[j] == e.subQuestions[j]
  {
    var sq := e.subQuestions[s];
    if |sq.options| > MinOptions then
      RemoveAtMultiset(sq.options, o);
      WithSub(e, s, sq.(options := RemoveAt(sq.options, o)))
    else
      e
  }

  /** "Mark Correct" next to option `o`: the option's current text becomes
      the marked answer. */
  function MarkCorrect(e: Editor, s: nat, o: nat): (r: Editor)
    requires s < |e.subQuestions| && o < |e.subQuestions[s].options|
    ensures |r.subQuestions| == |e.subQuestions|
    ensures var before, after := e.subQuestions[s], r.subQuestions[s];
      && after.correctAnswer == before.options[o]
      && after.correctAnswer in after.options
      && after.question == before.question && after.options == before.options
    ensures forall j :: 0 <= j < |e.subQuestions| && j != s ==> r.subQuestions[j] == e.subQuestions[j]
  {
    var sq := e.subQuestions[s];
    WithSub(e, s, sq.(correctAnswer := sq.options[o]))
  }

  /** A sub-question the save keeps: it has text, at least one non-blank
      option and a non-blank marked answer. Whether the marked answer is
      still one of the options is not checked. */
  function ValidSub(sq: SubQuestion): bool {
    && !IsBlank(sq.question)
    && (exists i :: 0 <= i < |sq.options| && !IsBlank(sq.options[i]))
    && !IsBlank(sq.correctAnswer)
  }

  /** `handleSave`: refuses a blank paragraph, then a list with no valid
      sub-question; otherwise emits the paragraph and image as typed and the
      valid sub-questions in their original order. */
  function HandleSave(e: Editor, continueWithSameType: bool, hasContinueHandler: bool)
    : (r: Result<Submission, ComprehensionError>)
    ensures r == Err(EmptyParagraph) <==> IsBlank(e.paragraph)
    ensures r == Err(NoValidSubQuestion) <==>
      !IsBlank(e.paragraph) && forall i :: 0 <= i < |e.subQuestions| ==> !ValidSub(e.subQuestions[i])
    ensures r.Ok? ==>
      && r.value.route == RouteSave(continueWithSameType, hasContinueHandler)
      && r.value.data.Comprehension?
      && var d := r.value.data.comprehension;
      && d.paragraph == e.paragraph && d.image == e.image
      && d.subQuestions == Filter(ValidSub, e.subQuestions)
      && d.subQuestions != []
  {
    var valid := Filter(ValidSub, e.subQuestions);
    FilterEmpty(ValidSub, e.subQuestions);
    if IsBlank(e.paragraph) then Err(EmptyParagraph)
    else if |valid| == 0 then Err(NoValidSubQuestion)
    else Ok(Submission(Comprehension(ComprehensionData(e.paragraph, e.image, valid)),
                       RouteSave(continueWithSameType, hasContinueHandler)))
  }

  /** The saved sub-questions are exactly the valid ones, each as often as it
      was entered. */
  lemma SavedSubQuestionsAreTheValidOnes(e: Editor, c: bool, h: bool, sq: SubQuestion)
    requires HandleSave(e, c, h).Ok?
    ensures multiset(HandleSave(e, c, h).value.data.comprehension.subQuestions)[sq]
         == if ValidSub(sq) then multiset(e.subQuestions)[sq] else 0
  {
    FilterMultiset(ValidSub, e.subQuestions, sq);
  }

  /** A fresh sub-question is never valid, so adding one does not change
      what is saved. */
  lemma {:induction false} FreshSubIsIgnored(e: Editor, c: bool, h: bool)
    ensures HandleSave(AddSubQuestion(e), c, h) == HandleSave(e, c, h)
  {
    FilterConcat(ValidSub, e.subQuestions, [FreshSub]);
    assert !ValidSub(FreshSub);
    assert Filter(ValidSub, [FreshSub]) == [];
    var f := AddSubQuestion(e);
    assert Filter(ValidSub, f.subQuestions) == Filter(ValidSub, e.subQuestions);
  }

  /** Reopening a saved question and saving it again gives back the same
      question. */
  lemma {:induction false} SaveIsStableUnderReload(e: Editor, c: bool, h: bool)
    requires HandleSave(e, c, h).Ok?
    ensures HandleSave(Load(Some(HandleSave(e, c, h).value.data.comprehension)), c, h) == HandleSave(e, c, h)
  {
    var d := HandleSave(e, c, h).value.data.comprehension;
    FilterExtremes(ValidSub, d.subQuestions);
  }

  /** One valid sub-question is saved as it is. */
  lemma {:induction false} SingleValidSubSaved(p: string, image: string, sq: SubQuestion, c: bool, h: bool)
    requires !IsBlank(p) && ValidSub(sq)
    ensures HandleSave(Editor(p, image, [sq]), c, h)
         == Ok(Submission(Comprehension(ComprehensionData(p, image, [sq])), RouteSave(c, h)))
  {
    var e := Editor(p, image, [sq]);
    assert e.subQuestions[0] == sq;
    FilterExtremes(ValidSub, e.subQuestions);
    assert Filter(ValidSub, e.subQuestions) == [sq];
  }

  /** Marking the first of two options correct and then retyping it leaves
      the old text as the marked answer. */
  lemma {:induction false} RetypedAnswerStays(p: string, image: string, q: string, a: string, b: string, v: string)
    ensures var e0 := Editor(p, image, [SubQuestion(q, [a, b], "")]);
      UpdateOption(MarkCorrect(e0, 0, 0), 0, 0, v) == Editor(p, image, [SubQuestion(q, [v, b], a)])
  {
    var e0 := Editor(p, image, [SubQuestion(q, [a, b], "")]);
    var e1 := MarkCorrect(e0, 0, 0);
    assert e1.subQuestions == [SubQuestion(q, [a, b], a)];
    assert e1.subQuestions[0].options[0 := v] == [v, b];
  }

  /** A sub-question with text, a marked answer and a filled-in second
      option is valid whatever its first option says. */
  lemma {:induction false} SecondOptionMakesValid(q: string, x: string, y: string, answer: string)
    requires !IsBlank(q) && !IsBlank(y) && !IsBlank(answer)
    ensures ValidSub(SubQuestion(q, [x, y], answer))
  {
    assert [x, y][1] == y;
  }

  /** Editing the text of the option that was marked correct leaves the old
      text as the answer; the save still accepts the sub-question although
      its answer is none of its options. */
  lemma {:induction false} StaleAnswerIsSaved(p: string, q: string, a: string, b: string, v: string, c: bool, h: bool)
    requires !IsBlank(p) && !IsBlank(q) && !IsBlank(a) && !IsBlank(b) && a != b && v != a
    ensures var e0 := Editor(p, "", [SubQuestion(q, [a, b], "")]);
      var saved := SubQuestion(q, [v, b], a);
      && HandleSave(UpdateOption(MarkCorrect(e0, 0, 0), 0, 0, v), c, h)
         == Ok(Submission(Comprehension(ComprehensionData(p, "", [saved])), RouteSave(c, h)))
      && saved.correctAnswer !in saved.options
  {
    var sq := SubQuestion(q, [v, b], a);
    RetypedAnswerStays(p, "", q, a, b, v);
    SecondOptionMakesValid(q, v, b, a);
    SingleValidSubSaved(p, "", sq, c, h);
  }

  /** The interactions the editor's screen offers. */
  datatype Event =
    | ParagraphTyped(value: string)
    | ImageTyped(value: string)
    | AddSubQuestionClicked
    | RemoveSubQuestionClicked(index: nat)
    | SubQuestionTyped(index: nat, value: string)
    | OptionTyped(s: nat, o: nat, value: string)
    | AddOptionClicked(s: nat)
    | RemoveOptionClicked(s: nat, o: nat)
    | MarkCorrectClicked(s: nat, o: nat)

  /** Whether the screen offers `ev`: the rows exist, a sub-question's
      remove button is drawn only while there is more than one, and an
      option's only while its sub-question has more than two. */
  predicate Offered(e: Editor, ev: Event) {
    match ev
    case RemoveSubQuestionClicked(i) => i < |e.subQuestions| && |e.subQuestions| > 1
    case SubQuestionTyped(i, _) => i < |e.subQuestions|
    case OptionTyped(s, o, _) => s < |e.subQuestions| && o < |e.subQuestions[s].options|
    case AddOptionClicked(s) => s < |e.subQuestions|
    case RemoveOptionClicked(s, o) =>
      s < |e.subQuestions| && o < |e.subQuestions[s].options| && |e.subQuestions[s].options| > MinOptions
    case MarkCorrectClicked(s, o) => s < |e.subQuestions| && o < |e.subQuestions[s].options|
    case _ => true
  }

  /** Every sub-question offers at least two options. */
  predicate EnoughOptions(e: Editor) {
    forall i :: 0 <= i < |e.subQuestions| ==> |e.subQuestions[i].options| >= MinOptions
  }

  /** One interaction. Whatever the author does through the screen, the list
      of sub-questions never empties and no sub-question drops below two
      options. */
  function Step(e: Editor, ev: Event): (r: Editor)
    requires Offered(e, ev)
    ensures e.subQuestions != [] ==> r.subQuestions != []
    ensures EnoughOptions(e) ==> EnoughOptions(r)
  {
    match ev
    case ParagraphTyped(v) => e.(paragraph := v)
    case ImageTyped(v) => e.(image := v)
    case AddSubQuestionClicked => AddSubQuestion(e)
    case RemoveSubQuestionClicked(i) =>
      var r := RemoveSubQuestion(e, i);
      assert forall j :: 0 <= j < |r.subQuestions| ==> r.subQuestions[j] in e.subQuestions;
      r
    case SubQuestionTyped(i, v) => UpdateSubQuestion(e, i, v)
    case OptionTyped(s, o, v) => UpdateOption(e, s, o, v)
    case AddOptionClicked(s) => AddOption(e, s)
    case RemoveOptionClicked(s, o) => RemoveOption(e, s, o)
    case MarkCorrectClicked(s, o) => MarkCorrect(e, s, o)
  }

  /** A run of interactions; one the screen does not offer at that moment
      changes nothing. */
  function Run(e: Editor, evs: seq<Event>): (r: Editor)
    ensures e.subQuestions != [] ==> r.subQuestions != []
    ensures EnoughOptions(e) ==> EnoughOptions(r)
    decreases |evs|
  {
    if evs == [] then e
    else Run(if Offered(e, evs[0]) then Step(e, evs[0]) else e, evs[1..])
  }

  /** A new comprehension question keeps at least one sub-question and at
      least two options per sub-question however it is edited. */
  lemma NewQuestionStaysWellFormed(evs: seq<Event>)
    ensures Run(Initial(), evs).subQuestions != []
    ensures EnoughOptions(Run(Initial(), evs))
  {
  }
}

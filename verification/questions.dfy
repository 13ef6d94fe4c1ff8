/** The question records the editors emit and the builder stores, and how an
    editor hands its record to the builder. */
module Questions {

  /** One thing to categorise and the category it belongs to. */
  datatype Item = Item(name: string, belongsTo: string)

  /** One multiple-choice question under a comprehension paragraph. */
  datatype SubQuestion = SubQuestion(question: string, options: seq<string>, correctAnswer: string)

  datatype CategorizeData = CategorizeData(
    question: string, image: string, categories: seq<string>, items: seq<Item>)

  /** `prompt` is the fixed instruction the cloze editor attaches, stored
      under the record's `question` field. */
  datatype ClozeData = ClozeData(
    sentence: string, image: string, options: seq<string>, prompt: string)

  datatype ComprehensionData = ComprehensionData(
    paragraph: string, image: string, subQuestions: seq<SubQuestion>)

  /** The fields an editor's `handleSave` emits, by question type. */
  datatype QuestionData =
    | Categorize(categorize: CategorizeData)
    | Cloze(cloze: ClozeData)
    | Comprehension(comprehension: ComprehensionData)

  /** A question in the builder's list: `{id, questionNo, type, ...data}`.
      `kind` is the `type` string the builder was showing an editor for. */
  datatype Question = Question(id: int, questionNo: int, kind: string, data: QuestionData)

  /** Which builder callback an editor's `handleSave` calls. */
  datatype SaveRoute = OnSave | OnSaveAndContinue

  /** `continueWithSameType && onSaveAndContinue ? onSaveAndContinue : onSave`:
      the continue callback is used only when it was asked for and the
      builder supplied one. */
  function RouteSave(continueWithSameType: bool, hasContinueHandler: bool): SaveRoute {
    if continueWithSameType && hasContinueHandler then OnSaveAndContinue else OnSave
  }

  /** `!isEditing && onSaveAndContinue && <button>`: the second save button
      is rendered only when adding, and only if the builder passed a
      continue callback. */
  predicate ContinueButtonShown(isEditing: bool, hasContinueHandler: bool) {
    !isEditing && hasContinueHandler
  }

  /** What a successful `handleSave` passes on: the record and the callback
      it goes to. */
  datatype Submission = Submission(data: QuestionData, route: SaveRoute)
}

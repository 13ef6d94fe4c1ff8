# Form builder: blanks, answers and editors

A model of the core of a small React form builder. An author builds a form out of three kinds of question:

- **cloze**: a sentence with blanks and a list of words to drag into them;
- **categorize**: items to sort into categories;
- **comprehension**: a paragraph followed by multiple-choice sub-questions.

A respondent fills the form in on a preview page.

The model covers six parts of the program:

- **The preview's sentence parser** (`parseSentence`). It scans a sentence left to right for three marker forms: exactly five underscores, `[blank]`, and `[` followed by one or more underscores and `]`. It cuts the sentence into text and blank segments, numbering the blanks from 0. The scanner is written by hand (module `Blanks`). It is proved to be the leftmost, non-overlapping search, and the parse is proved to round-trip. The save-time counter in the cloze editor knows only the first two marker forms. It is kept as a separate grammar, not unified with the preview's.
- **The preview's answer state.** The answers are a map from question id to a map from slot key to string. `initializeAnswers` creates the empty slots. `handleAnswerChange` writes one slot. Drag and drop goes through a latched "dragged option". The used options, the draggable chips and the progress counters are derived from the slots (modules `Answers`, `Responses`).
- **The field fallbacks.** The cloze panel reads `sentence || previewText || question || ""` and `options || choices || answers || []`, and JavaScript truthiness is kept. An empty string is falsy, so the sentence chain moves on past it. An empty array is truthy, so the options chain stops at it.
- **The three question editors** (modules `ClozeForm`, `CategorizeForm`, `ComprehensionForm`). Each is a record of sequences with add, update and remove-at-index operations, plus a `handleSave` validator. The validator either refuses with the alert's reason or emits a filtered question record.
- **The builder page** (`FormBuilder`):
  - new questions are appended with `questionNo = length + 1`;
  - an edit merges by id;
  - delete renumbers;
  - the pre-network checks of `saveForm`;
  - the current-type and editing-id state.
- **The unrouted builder variant** (`FormBuilderFixed`). It does not renumber on delete and does not validate before saving.

`alert` becomes an `Err` value, `confirm` becomes a boolean parameter, and the clock's `Date.now()` ids become a `freshId` parameter. The textarea's selection becomes a `start <= end <= |sentence|` pair.

Supporting modules:

- `Outcomes`: `Option` and `Result`.
- `Strings`: whitespace, `trim`, and the decimal spelling of an index used as an object key.
- `Seqs`: remove-at-index and filter, with their order and multiset facts.
- `Questions`: the records the editors emit, and the routing of a save to `onSave` or `onSaveAndContinue`.

## Model

| member | source | states |
|---|---|---|
| Strings.TrimEnds | src/components/ClozeForm.jsx:18 | the trimmed string is empty or starts and ends with a non-space |
| Strings.TrimIdempotent | src/components/ClozeForm.jsx:18-19 | trimming twice is trimming once, so a trimmed option stays trimmed |
| Strings.BlankIffAllSpace | src/components/ClozeForm.jsx:94 | `!s.trim()` holds exactly when every character is white space |
| Strings.DecimalRoundTrip | src/components/FormPreview.jsx:532 | the decimal key written for sub-question index `n` reads back as `n` |
| Strings.NatToDecimalInjective | src/components/FormPreview.jsx:532 | different sub-question indices get different object keys |
| Seqs.RemoveAt | src/components/ClozeForm.jsx:24-26 | `filter((_, i) => i !== index)` drops exactly position `index` and keeps the rest in order; an index outside the array changes nothing |
| Seqs.RemoveAtMultiset | src/components/CategorizeForm.jsx:42-44 | removing one position takes exactly that element out of the multiset |
| Seqs.FilterConcat | src/components/ComprehensionForm.jsx:79-84 | filtering distributes over concatenation, so survivors keep their original order |
| Seqs.FilterMultiset | src/components/CategorizeForm.jsx:61-64 | each kept value occurs in the result as often as in the input, and a dropped value not at all |
| Seqs.FilterEmpty | src/components/ComprehensionForm.jsx:86 | the filter is empty exactly when no element passes |
| Seqs.RemoveAtNoDuplicates | src/components/ClozeForm.jsx:24-26 | removing an option keeps a duplicate-free list duplicate-free |
| Blanks.MatchedTextIsMarker | src/components/FormPreview.jsx:12 | whatever a marker match covers is `_____`, `[blank]`, or (preview grammar only) `[` + underscores + `]` |
| Blanks.BracketAt | src/components/FormPreview.jsx:12 | at `[_` the preview grammar matches a bracketed run when one closes, and the save grammar never matches |
| Blanks.ScanIsLeftmost | src/components/FormPreview.jsx:12-17 | the scan's matches satisfy the leftmost, non-overlapping search: nothing matches in a gap, and each match starts at the first matching position |
| Blanks.LeftmostIsScan | src/components/FormPreview.jsx:12-17 | every match list meeting the leftmost specification is the scan's, so the specification determines the matches |
| Blanks.NoMatchesIffGapFree | src/components/FormPreview.jsx:17 | the scan finds nothing exactly when no position starts a marker |
| Blanks.BlankIdInjective | src/components/FormPreview.jsx:30 | `blank_${i}` keys of different blanks differ |
| Blanks.Assemble | src/components/FormPreview.jsx:17-43 | the segments built from a match list hold one blank per match, numbered `k, k+1, ...`, no empty text and no two adjacent texts |
| Blanks.LeftmostOrdered | src/components/FormPreview.jsx:17-33 | leftmost matches lie in order inside the sentence without overlap |
| Blanks.Parse | src/components/FormPreview.jsx:8-46 | an empty sentence gives no segments; the blanks are numbered `0..k-1` left to right, where `k` is the preview count; no text segment is empty and no two texts are adjacent |
| Blanks.AssembleRoundTrip | src/components/FormPreview.jsx:17-43 | putting each matched marker back at its blank and concatenating rebuilds the scanned suffix |
| Blanks.OrderedMarkers | src/components/FormPreview.jsx:12 | every text the scan cuts out as a blank is a marker of the grammar |
| Blanks.ParseRoundTrip | src/components/FormPreview.jsx:8-46 | there is one matched marker per blank, each is a marker, and re-inserting them rebuilds the sentence exactly |
| Blanks.NoMarkerSingleText | src/components/FormPreview.jsx:38-43 | a sentence without markers has no blanks, and a non-empty one parses to one text segment equal to itself |
| BlankExamples.SevenUnderscores | src/components/FormPreview.jsx:12 | seven underscores are one blank followed by the text `__` |
| BlankExamples.TenUnderscores | src/components/FormPreview.jsx:12 | ten underscores are two blanks |
| BlankExamples.AdjacentMarkers | src/components/FormPreview.jsx:19-34 | `[blank][blank]` gives two adjacent blanks with no text between them |
| BlankExamples.BracketedOnlyInPreview | src/components/ClozeForm.jsx:92 | `[__]` is one blank in the preview and zero blanks for the editor's counter |
| BlankExamples.CountersDisagreeUpward | src/components/ClozeForm.jsx:92 | `[__________]` is one blank in the preview but two for the editor's counter |
| ClozeForm.Load | src/components/ClozeForm.jsx:11-14 | with no initial data the editor starts empty, otherwise it starts from the saved sentence, image and options |
| ClozeForm.AddIfNew | src/components/ClozeForm.jsx:37-39 | the value ends up in the list; the list changes exactly when it was absent, and only by appending it |
| ClozeForm.AddOption | src/components/ClozeForm.jsx:17-22 | a non-blank new trimmed option is appended and the input cleared; otherwise nothing changes; the list stays duplicate-free and trimmed |
| ClozeForm.RemoveOption | src/components/ClozeForm.jsx:24-26 | exactly position `index` is dropped, the rest in order; the list stays duplicate-free and trimmed |
| ClozeForm.Splice | src/components/ClozeForm.jsx:42-44 | the result is the text before `start`, then the marker, then the text from `end` |
| ClozeForm.InsertMarker | src/components/ClozeForm.jsx:28-83 | the selection is replaced by the marker; the trimmed selection, when non-blank and new, is appended to the options, and otherwise the options are unchanged |
| ClozeForm.OfferSelection | src/components/ClozeForm.jsx:35-40 | the trimmed selection joins the options when non-blank and new; otherwise the list is unchanged |
| ClozeForm.InsertBlank | src/components/ClozeForm.jsx:28-54 | `[blank]` sits at `start` and the text around it is kept; the trimmed selection is appended to the options exactly when it is non-blank and not already there, otherwise the options are unchanged; image and option input are kept |
| ClozeForm.InsertUnderscore | src/components/ClozeForm.jsx:56-83 | `_____` sits at `start` and the text around it is kept; the trimmed selection is appended to the options exactly when it is non-blank and not already there, otherwise the options are unchanged; image and option input are kept |
| ClozeForm.InsertedMarkerIsCounted | src/components/ClozeForm.jsx:92 | an inserted `[blank]` or `_____` is a marker for both the editor's counter and the preview |
| ClozeForm.ResetForm | src/components/ClozeForm.jsx:85-89 | the sentence, options and new-option input are emptied and the image is kept |
| ClozeForm.HandleSave | src/components/ClozeForm.jsx:91-122 | refuses, in this order, a blank sentence, a sentence the save grammar finds no blank in, and fewer options than blanks; otherwise emits the sentence, image and options unchanged with the fixed prompt |
| ClozeForm.ResetThenSaveRejects | src/components/ClozeForm.jsx:85-96 | after a reset the save refuses for want of a sentence |
| ClozeForm.BracketedBlankRefused | src/components/ClozeForm.jsx:92-101 | a sentence whose only marker is `[__]` shows a blank in the preview but is refused for having none |
| ClozeForm.AcceptedWithFewerOptionsThanPreviewBlanks | src/components/ClozeForm.jsx:92-109 | `[__]_____` with one option passes the save although the preview shows two blanks |
| ClozeForm.SaveIsStableUnderReload | src/components/ClozeForm.jsx:11-13 | reopening a saved cloze question and saving again gives the same record |
| ClozeForm.Step | src/components/ClozeForm.jsx:17-89 | every editor action keeps the option list duplicate-free and trimmed |
| ClozeForm.Run | src/components/ClozeForm.jsx:17-89 | any sequence of editor actions keeps the option list duplicate-free and trimmed |
| CategorizeForm.Initial | src/components/CategorizeForm.jsx:11-14 | the editor starts with an empty question and image, categories `[""]` and items `[{name: "", belongsTo: ""}]` |
| CategorizeForm.Load | src/components/CategorizeForm.jsx:17-30 | loaded lists are used when non-empty, and a missing or empty list falls back to one blank row |
| CategorizeForm.AddCategory | src/components/CategorizeForm.jsx:32-34 | one blank category is appended and the items are unchanged |
| CategorizeForm.UpdateCategory | src/components/CategorizeForm.jsx:36-40 | only position `index` changes |
| CategorizeForm.RemoveCategory | src/components/CategorizeForm.jsx:42-44 | exactly position `index` is dropped, the rest in order, the items unchanged |
| CategorizeForm.AddItem | src/components/CategorizeForm.jsx:46-48 | one empty item is appended and the categories are unchanged |
| CategorizeForm.UpdateItem | src/components/CategorizeForm.jsx:50-54 | only the named field of item `index` changes |
| CategorizeForm.RemoveItem | src/components/CategorizeForm.jsx:56-58 | exactly position `index` is dropped, the rest in order, the categories unchanged |
| CategorizeForm.CategoryChoices | src/components/CategorizeForm.jsx:246-252 | the item's select offers exactly the non-blank categories |
| CategorizeForm.HandleSave | src/components/CategorizeForm.jsx:60-87 | refuses exactly when the question is blank, no category is named, or no item is complete; otherwise emits the named categories and complete items in order |
| CategorizeForm.SavedRowsAreTheFilledOnes | src/components/CategorizeForm.jsx:61-64 | each saved category and item occurs as often as it was entered if it is filled, and never otherwise |
| CategorizeForm.SaveSeesOnlyFilledRows | src/components/CategorizeForm.jsx:61-80 | two editors with the same filled rows save the same thing |
| CategorizeForm.EmptyCategoryRowIsIgnored | src/components/CategorizeForm.jsx:32-34 | adding a blank category row does not change what is saved |
| CategorizeForm.EmptyItemRowIsIgnored | src/components/CategorizeForm.jsx:46-48 | adding an empty item row does not change what is saved |
| CategorizeForm.SaveIsStableUnderReload | src/components/CategorizeForm.jsx:17-30 | reopening a saved categorize question and saving again gives the same record |
| CategorizeForm.SingleRowsSaved | src/components/CategorizeForm.jsx:75-80 | one named category and one complete item are saved as they are |
| CategorizeForm.StaleCategoryIsSaved | src/components/CategorizeForm.jsx:42-80 | an item whose category was removed is still saved pointing at a category the record does not contain |
| CategorizeForm.Step | src/components/CategorizeForm.jsx:32-58 | an editor action never empties the category or item list |
| CategorizeForm.RowsNeverRunOut | src/components/CategorizeForm.jsx:171 | whatever the author does through the screen, both lists keep at least one row |
| ComprehensionForm.Initial | src/components/ComprehensionForm.jsx:11-15 | the editor starts with an empty paragraph and image and one sub-question with empty text, four empty options and no answer marked |
| ComprehensionForm.Load | src/components/ComprehensionForm.jsx:18-28 | loaded sub-questions are used when there are any, else one fresh sub-question |
| ComprehensionForm.AddSubQuestion | src/components/ComprehensionForm.jsx:30-35 | one fresh sub-question is appended |
| ComprehensionForm.RemoveSubQuestion | src/components/ComprehensionForm.jsx:37-39 | exactly position `index` is dropped, the rest in order |
| ComprehensionForm.WithSub | src/components/ComprehensionForm.jsx:41-45 | only sub-question `index` is replaced |
| ComprehensionForm.UpdateSubQuestion | src/components/ComprehensionForm.jsx:41-45 | only that sub-question's text changes |
| ComprehensionForm.UpdateOption | src/components/ComprehensionForm.jsx:47-51 | only that option's text changes, and the marked answer is left as it was |
| ComprehensionForm.AddOption | src/components/ComprehensionForm.jsx:53-57 | an empty option is appended to that sub-question only |
| ComprehensionForm.RemoveOption | src/components/ComprehensionForm.jsx:59-65 | with more than two options exactly position `o` is dropped, the rest in order; with two or fewer nothing changes |
| ComprehensionForm.MarkCorrect | src/components/ComprehensionForm.jsx:67-71 | the option's current text becomes that sub-question's answer and nothing else changes |
| ComprehensionForm.HandleSave | src/components/ComprehensionForm.jsx:73-104 | refuses a blank paragraph first, then a list with no valid sub-question; otherwise emits exactly the valid sub-questions in order |
| ComprehensionForm.SavedSubQuestionsAreTheValidOnes | src/components/ComprehensionForm.jsx:79-84 | each saved sub-question occurs as often as it was entered if it is valid, and never otherwise |
| ComprehensionForm.FreshSubIsIgnored | src/components/ComprehensionForm.jsx:30-35 | adding a fresh sub-question does not change what is saved |
| ComprehensionForm.SaveIsStableUnderReload | src/components/ComprehensionForm.jsx:18-28 | reopening a saved comprehension question and saving again gives the same record |
| ComprehensionForm.SingleValidSubSaved | src/components/ComprehensionForm.jsx:93-97 | one valid sub-question is saved as it is |
| ComprehensionForm.RetypedAnswerStays | src/components/ComprehensionForm.jsx:47-51 | marking an option correct and then retyping it leaves the old text as the answer |
| ComprehensionForm.StaleAnswerIsSaved | src/components/ComprehensionForm.jsx:47-84 | such a sub-question is still saved, with an answer that is none of its options |
| ComprehensionForm.Step | src/components/ComprehensionForm.jsx:161-212 | an editor action never empties the sub-question list nor takes a sub-question below two options |
| ComprehensionForm.NewQuestionStaysWellFormed | src/components/ComprehensionForm.jsx:59-65 | from a new editor, any sequence of actions keeps at least one sub-question and at least two options each |
| FormBuilder.Initial | src/components/FormBuilder.jsx:8-12 | the page starts with an empty title and header image, no questions and no open editor |
| FormBuilder.IndexOfId | src/components/FormBuilder.jsx:66 | the position of the first question with that id, or none when no question has it |
| FormBuilder.FindById | src/components/FormBuilder.jsx:66 | `questions.find` returns the first question with that id, or nothing |
| FormBuilder.AddQuestion | src/components/FormBuilder.jsx:60-63 | opens the editor for a type with no question being edited, list unchanged |
| FormBuilder.EditQuestion | src/components/FormBuilder.jsx:65-71 | with a known id, records it and opens that question's type; with an unknown id, changes nothing |
| FormBuilder.EditorInitialData | src/components/FormBuilder.jsx:179-181 | when editing, the editor is handed the first question with the edited id exactly when one exists; when adding, nothing |
| FormBuilder.MergeById | src/components/FormBuilder.jsx:76-80 | only the question with that id gets the new data; length, order, ids, numbers and types are kept |
| FormBuilder.Append | src/components/FormBuilder.jsx:83-89 | one question is appended with `questionNo = length + 1` and the current type; dense numbering and unique ids are kept |
| FormBuilder.SaveQuestion | src/components/FormBuilder.jsx:73-95 | merges when editing and appends otherwise, then closes the editor |
| FormBuilder.SaveQuestionAndContinue | src/components/FormBuilder.jsx:97-118 | behaves as the plain save when editing; when adding it appends and keeps the editor open on the same type |
| FormBuilder.Receive | src/components/FormBuilder.jsx:73-119 | adding appends one question numbered after the rest, with the open type and the old list as prefix; editing keeps the length, ids, numbers and types and gives the edited id the new data; the editor stays open on its type exactly when a new question came through the continue callback, and numbering and id uniqueness are kept |
| FormBuilder.CancelQuestion | src/components/FormBuilder.jsx:120-123 | closes the editor and leaves the list alone |
| FormBuilder.Renumber | src/components/FormBuilder.jsx:129 | numbers become `1..n` in order, with ids, types and data kept |
| FormBuilder.DeleteQuestion | src/components/FormBuilder.jsx:125-132 | if confirmed, every question with that id is removed and the rest renumbered `1..n`, with the title, image and editor state kept; if not confirmed, nothing changes |
| FormBuilder.SaveForm | src/components/FormBuilder.jsx:134-149 | refuses a blank title first, then an empty list, else sends title, header image and questions |
| FormBuilder.SpacesTitleEnablesButtonOnly | src/components/FormBuilder.jsx:135-138 | a title of spaces enables the button (`!formTitle` is false) but the save refuses it |
| FormBuilder.AddedQuestionReopens | src/components/FormBuilder.jsx:65-89 | a newly added question can be reopened and the editor gets it back as saved |
| FormBuilder.EditReplacesOnlyThatQuestion | src/components/FormBuilder.jsx:74-80 | editing one question changes only its data and keeps numbering and ids |
| FormBuilder.DropOneId | src/components/FormBuilder.jsx:127-128 | with unique ids, filtering out a present id removes exactly one question |
| FormBuilder.DeleteRemovesOne | src/components/FormBuilder.jsx:125-131 | deleting a present id leaves one question fewer, densely numbered, without that id |
| FormBuilder.FilterKeepsIdsUnique | src/components/FormBuilder.jsx:127-128 | filtering keeps ids unique |
| FormBuilder.Step | src/components/FormBuilder.jsx:60-132 | with fresh ids for new questions, every action keeps the numbers `1..n` and the ids unique |
| FormBuilderFixed.AddQuestion | src/components/FormBuilder_fixed.jsx:61-63 | opens the editor for a type; questions, title and image unchanged |
| FormBuilderFixed.NewQuestion | src/components/FormBuilder_fixed.jsx:66-71 | the new question has the fresh id, is numbered `length + 1` and carries the current type and the editor's data |
| FormBuilderFixed.SaveQuestion | src/components/FormBuilder_fixed.jsx:65-74 | appends and keeps the editor open on the same type |
| FormBuilderFixed.SaveQuestionAndAddAnother | src/components/FormBuilder_fixed.jsx:76-86 | appends as the plain save does and closes the editor, keeping title and image |
| FormBuilderFixed.CancelQuestion | src/components/FormBuilder_fixed.jsx:88-90 | resets the type; questions, title and image unchanged |
| FormBuilderFixed.Receive | src/components/FormBuilder_fixed.jsx:64-73 | whatever route the editor asked for, the submission is appended numbered `length + 1` with the open type, and the editor stays open on that type |
| FormBuilderFixed.DeleteQuestion | src/components/FormBuilder_fixed.jsx:505-509 | removes the questions with that id and keeps the old numbers; type, title and image unchanged |
| FormBuilderFixed.SaveForm | src/components/FormBuilder_fixed.jsx:92-97 | sends title, header image and questions with no checks |
| FormBuilderFixed.EveryRouteIsOnSave | src/components/FormBuilder_fixed.jsx:131-132 | an editor given no continue callback routes every save to `onSave` and shows no second button |
| FormBuilderFixed.SpacesTitleIsSent | src/components/FormBuilder_fixed.jsx:563 | a title of spaces enables the button and is sent, where the main builder refuses it |
| FormBuilderFixed.DropFirst | src/components/FormBuilder_fixed.jsx:507 | with unique ids, deleting the first question's id removes just it |
| FormBuilderFixed.DeleteThenAddRepeatsNumber | src/components/FormBuilder_fixed.jsx:68 | delete-then-add gives the last two questions the same number, so numbering is no longer dense |
| FormBuilderFixed.ThreeQuestionsExample | src/components/FormBuilder_fixed.jsx:505-509 | numbers 1, 2, 3, then delete the first, then add: the numbers read 2, 3, 3 |
| Answers.ClozeSentence | src/components/FormPreview.jsx:71-72 | the sentence is "" exactly when none of the three fields is a non-empty string, and the first non-empty field of `sentence`, `previewText`, `question` wins |
| Answers.ClozeOptions | src/components/FormPreview.jsx:75-76 | the first present list of `options`, `choices`, `answers` wins, even when empty; with none of them the list is empty |
| Answers.ViewOf | src/components/FormPreview.jsx:89-110 | the setup error shows exactly when the sentence is empty, and the missing-options notice exactly when it is not and there are no options |
| Answers.UnmarkedSentenceIsReady | src/components/FormPreview.jsx:38-43 | a sentence without markers is shown as one text with no blanks |
| Answers.AcceptedClozeIsReady | src/components/FormPreview.jsx:71-110 | a cloze question the editor accepted is shown with its own sentence and options, ready to answer |
| Answers.SlotsFor | src/components/FormPreview.jsx:513-533 | the slots are exactly the given keys, all empty |
| Answers.SlotsForSize | src/components/FormPreview.jsx:514-516 | there are at most as many slots as keys, and exactly as many iff the keys are distinct |
| Answers.BlankKeys | src/components/FormPreview.jsx:526 | `blank_0 .. blank_{k-1}`, all different |
| Answers.IndexKeys | src/components/FormPreview.jsx:532 | the keys `"0" .. "n-1"`, all different |
| Answers.InitializeAnswers | src/components/FormPreview.jsx:509-537 | a question gets slots exactly when its type is recognised, and every slot is empty |
| Answers.LastRecognisedWins | src/components/FormPreview.jsx:511-535 | a question's slots are its own when no later recognised question shares its id |
| Answers.ClozeSlotsAreTheBlanks | src/components/FormPreview.jsx:517-528 | a cloze question's slot keys are exactly the ids of its parsed blank segments, one per blank |
| Answers.CategorizeSlotsAreTheNames | src/components/FormPreview.jsx:512-516 | a categorize question's slot keys are exactly its item names, with one slot per item iff the names are distinct |
| Answers.ComprehensionSlotsAreTheIndices | src/components/FormPreview.jsx:529-533 | a comprehension question's slot keys are exactly the indices of its sub-questions |
| Answers.AnswerChange | src/components/FormPreview.jsx:539-547 | the slot takes the value; every other slot of that question and every other question is unchanged |
| Answers.ClearSlot | src/components/FormPreview.jsx:66-68 | removal is the same change with "" |
| Answers.ChangeOverwrites | src/components/FormPreview.jsx:539-547 | a second change of the same slot overrides the first |
| Answers.ChangesCommute | src/components/FormPreview.jsx:539-547 | changes of different slots can happen in either order |
| Answers.ChangeToSameIsNoOp | src/components/FormPreview.jsx:539-547 | writing back what a slot holds changes nothing |
| Answers.ClearUndoesFill | src/components/FormPreview.jsx:58-68 | clearing a slot that was empty before a fill restores the answers |
| Answers.FilledKeys | src/components/FormPreview.jsx:85-87 | the slots whose value is non-empty |
| Answers.UsedValues | src/components/FormPreview.jsx:85-87 | the used options are exactly the non-empty slot values |
| Answers.NothingFilledAtStart | src/components/FormPreview.jsx:509-537 | right after initialisation no slot is filled and no option is used |
| Responses.DragStart | src/components/FormPreview.jsx:48-51 | the dragged value is latched and the answers are unchanged |
| Responses.Drop | src/components/FormPreview.jsx:58-64 | with nothing latched, nothing changes; otherwise the latched value is written to that slot only and the latch is cleared |
| Responses.Remove | src/components/FormPreview.jsx:66-68 | the slot is cleared and the latch is kept |
| Responses.UsedMatchesFilled | src/components/FormPreview.jsx:85-87 | when no option sits in two blanks, there are as many used options as filled blanks |
| Responses.ClozeStartsGood | src/components/FormPreview.jsx:509-537 | after initialisation a cloze panel's slots are its blanks, all empty, with nothing latched |
| Responses.FillKeeps | src/components/FormPreview.jsx:58-64 | dropping a latched, unused option into a blank keeps every option in at most one blank |
| Responses.ClearKeeps | src/components/FormPreview.jsx:66-68 | clearing a blank keeps every option in at most one blank |
| Responses.ClozeStep | src/components/FormPreview.jsx:48-68 | each offered action keeps the cloze invariant (slots are the blanks; each value is an option used at most once; the latch holds an unused option) and leaves other questions' answers alone |
| Responses.DropKeepsCloze | src/components/FormPreview.jsx:58-64 | a drop onto a rendered blank keeps the cloze invariant |
| Responses.RemoveKeepsCloze | src/components/FormPreview.jsx:66-68 | clearing a rendered blank keeps the cloze invariant |
| Responses.ClozeRun | src/components/FormPreview.jsx:227-232 | with only unused options draggable, any sequence of actions keeps the cloze invariant |
| Responses.ClozeProgress | src/components/FormPreview.jsx:286-302 | the numerator is the number of filled slots (`usedOptions.length`) and the denominator is the blank count, or 1 when there are no blanks |
| Responses.ClozeFullIffAllFilled | src/components/FormPreview.jsx:286-302 | under the panel invariant with at least one blank, the bar is full exactly when every rendered blank holds a value |
| Responses.ClozeProgressBounded | src/components/FormPreview.jsx:286-302 | the cloze count never exceeds the blanks or the options, and equals the number of used options |
| Responses.TooFewOptionsNeverComplete | src/components/FormPreview.jsx:227-302 | with fewer options than blanks, no sequence of actions fills every blank |
| Responses.CategorizeStartsGood | src/components/FormPreview.jsx:509-537 | after initialisation a categorize panel's slots are its item names, all empty |
| Responses.CategorizeStep | src/components/FormPreview.jsx:314-334 | each offered action keeps the categorize invariant: slots are the item names, and every assignment and latched value is a category |
| Responses.DropKeepsCategorize | src/components/FormPreview.jsx:324-330 | a drop onto an item keeps the categorize invariant |
| Responses.RemoveKeepsCategorize | src/components/FormPreview.jsx:332-334 | clearing an item's assignment keeps the categorize invariant |
| Responses.CategorizeRun | src/components/FormPreview.jsx:354-358 | any sequence of actions keeps the categorize invariant |
| Responses.CategorizeBar | src/components/FormPreview.jsx:453-469 | the bar uses the label's count over `items.length`, or over 1 when there are no items |
| Responses.CategorizeProgressBounded | src/components/FormPreview.jsx:453-469 | the count never exceeds the bar's denominator, and with two items of one name it stays below the number of items |
| Responses.AssignCategory | src/components/FormPreview.jsx:314-330 | dragging a category and dropping it on an item assigns it to that item and clears the latch |
| Responses.CategoryReused | src/components/FormPreview.jsx:357 | one category can be dropped on two items, so a category is not single-use |
| Responses.Choose | src/components/FormPreview.jsx:669-682 | picking a radio writes the option under the sub-question's index key |
| Responses.ComprehensionStartsGood | src/components/FormPreview.jsx:529-533 | after initialisation a comprehension question's slots are its sub-question indices, all empty |
| Responses.ChooseKeeps | src/components/FormPreview.jsx:669-682 | a choice keeps every answer among its sub-question's options and changes no other sub-question's answer |

## Left out

- The network: loading a form, submitting answers, and `saveForm`'s POST are left out. `saveForm` is modelled up to the payload it would send. This also leaves out resetting the answers after a successful submit.
- Image upload through `FileReader`, the DOM drag events (`dataTransfer`, `preventDefault`), rendering, styling and the `console.log` debugging are left out. Only the resulting state changes are modelled.
- `Date.now()` ids are a `freshId` parameter. Uniqueness is assumed at the builder's `Step` (a save needs an id no question has), because the clock does not guarantee it.
- The textarea's selection is a pair of indices with `start <= end <= |sentence|`. A missing textarea (`textareaRef.current` null) is not modelled.
- The percentage widths are kept as a numerator and denominator (`Fraction`), because floating point is out of scope.
- Shared-object mutation is modelled as functional update. `updateItem`, `updateSubQuestion`, `updateOption`, `addOption`, `removeOption` and `setCorrectAnswer` write into objects that the previous state also references. Any aliasing this creates across renders is not modelled.
- Indices are in range, as the screen only calls these functions for rows it draws. This is a `requires` on `CategorizeForm.UpdateCategory`, `CategorizeForm.UpdateItem`, `ComprehensionForm.UpdateSubQuestion`, `ComprehensionForm.UpdateOption`, `ComprehensionForm.AddOption`, `ComprehensionForm.RemoveOption` and `ComprehensionForm.MarkCorrect`. An out-of-range write in the source would extend or break the array.
- Responses.ClozeStep: the panel invariant is proved for one question's panel on its own. The preview shares one latch variable per panel but one answer map across all panels. Two questions that share an id write into the same slots, and that interaction is not modelled beyond the frame condition.
- Responses.ClozeRun: a drag can start from an option chip only while that option is unused (`draggable={!isUsed}`). An option dragged in from another question's panel is not modelled.
- The categorize panel's `question.categories?.map` and `question.items?.map` are modelled as empty lists when the field is missing.
- The Dashboard page and the router are not part of this model.
- JavaScript's `trim` is modelled with the ECMAScript white-space and line-terminator set, character by character. There is no surrogate-pair handling.
- `handleSave` in the categorize editor does not check that an item's `belongsTo` names one of the saved categories (src/components/CategorizeForm.jsx:60-80). `CategorizeForm.StaleCategoryIsSaved` shows such a record being saved.
- The preview shows its setup error only for an empty sentence. A non-empty sentence without markers parses to one text segment, so `sentenceParts.length === 0` never holds for it (src/components/FormPreview.jsx:90). `Answers.UnmarkedSentenceIsReady` states this.
- The preview pattern's underscore marker is exactly five underscores (src/components/FormPreview.jsx:12). A longer run is one blank plus the leftover underscores, as `BlankExamples.SevenUnderscores` shows.

## Findings

| source | as written | input that shows it | evidently intended | confidence | as-written member | corrected member |
|---|---|---|---|---|---|---|
| src/components/FormBuilder_fixed.jsx:505-509 | delete filters by id and keeps the old `questionNo`; the next add numbers from `questions.length + 1` | numbers 1, 2, 3; delete the first; add one: 2, 3, 3 | numbers stay `1..n` after a delete, as the main builder does by renumbering | not executed | FormBuilderFixed.DeleteThenAddRepeatsNumber | FormBuilder.DeleteRemovesOne |

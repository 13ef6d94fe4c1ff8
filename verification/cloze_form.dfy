/** The cloze-question editor: a sentence with blank markers, an optional
    image URL, the list of draggable answer options and the text box for a
    new option. The textarea's selection is passed in as `start`/`end`. */
module ClozeForm {
  import opened Outcomes
  import opened Strings
  import opened Seqs
  import opened Blanks
  import opened Questions
  import BlankExamples

  datatype Editor = Editor(sentence: string, image: string, options: seq<string>, newOption: string)

  /** The instruction every saved cloze question carries. */
  const Prompt: string := "Fill in the blanks with the correct words:"

  /** Why `handleSave` refused, in the order it checks. */
  datatype ClozeError =
    | EmptySentence            // "Please enter a sentence"
    | NoBlanks                 // "Please add at least one blank in the sentence"
    | TooFewOptions(needed: nat)  // "Please add at least N answer options ..."

  /** The editor's state on mount: `initialData?.field || default`. */
  function Load(initial: Option<ClozeData>): (e: Editor)
    ensures e.newOption == ""
    ensures initial.None? ==> e.sentence == "" && e.image == "" && e.options == []
    ensures initial.Some? ==>
      e.sentence == initial.value.sentence && e.image == initial.value.image
      && e.options == initial.value.options
  {
    match initial
    case None => Editor("", "", [], "")
    case Some(d) => Editor(d.sentence, d.image, d.options, "")
  }

  /** Every option is non-empty and already trimmed: what `addOption` and
      the blank-inserting buttons put into the list. */
  predicate CleanOptions(options: seq<string>) {
    forall o :: o in options ==> o != "" && Trim(o) == o
  }

  /** `options.includes(t) ? options : [...options, t]`: the option list
      after `t` is offered to it. */
  function AddIfNew(options: seq<string>, t: string): (r: seq<string>)
    ensures options <= r && |r| <= |options| + 1 && t in r
    ensures t in options <==> r == options
    ensures NoDuplicates(options) ==> NoDuplicates(r)
    ensures CleanOptions(options) && t != "" && Trim(t) == t ==> CleanOptions(r)
  {
    if t !in options then options + [t] else options
  }

  /** `s.substring(0, start) + marker + s.substring(end)`. */
  function Splice(s: string, start: nat, end: nat, marker: string): (r: string)
    requires start <= end <= |s|
    ensures |r| == |s| - (end - start) + |marker|
    ensures r[..start] == s[..start]
    ensures r[start..start + |marker|] == marker
    ensures r[start + |marker|..] == s[end..]
  {
    var r := s[..start] + marker + s[end..];
    assert r[start..start + |marker|] == marker;
    assert r[start + |marker|..] == s[end..];
    r
  }

  /** `addOption`: appends the trimmed text box if it is non-blank and not
      yet an option, then clears the box; otherwise nothing changes. */
  function AddOption(e: Editor): (r: Editor)
    ensures r.sentence == e.sentence && r.image == e.image
    ensures IsBlank(e.newOption) || Trim(e.newOption) in e.options ==> r == e
    ensures !IsBlank(e.newOption) && Trim(e.newOption) !in e.options ==>
      && r.options == e.options + [Trim(e.newOption)]
      && r.newOption == ""
    ensures NoDuplicates(e.options) ==> NoDuplicates(r.options)
    ensures CleanOptions(e.options) ==> CleanOptions(r.options)
  {
    var t := Trim(e.newOption);
    if t != "" && t !in e.options then
      TrimIdempotent(e.newOption);
      var options := AddIfNew(e.options, t);
      assert options == e.options + [t];
      e.(options := options, newOption := "")
    else
      e
  }

  /** `removeOption(index)`: drops exactly that position, keeping the order
      of the others. */
  function RemoveOption(e: Editor, index: int): (r: Editor)
    ensures r.sentence == e.sentence && r.image == e.image && r.newOption == e.newOption
    ensures 0 <= index < |e.options| ==>
      |r.options| == |e.options| - 1
      && multiset(r.options) + multiset{e.options[index]} == multiset(e.options)
    ensures !(0 <= index < |e.options|) ==> r == e
    ensures NoDuplicates(e.options) ==> NoDuplicates(r.options)
    ensures CleanOptions(e.options) ==> CleanOptions(r.options)
    ensures 0 <= index < |e.options| ==> Without(r.options, e.options, index)
  {
    RemoveAtNoDuplicates(e.options, index);
    var r := e.(options := RemoveAt(e.options, index));
    if 0 <= index < |e.options| then
      RemoveAtMultiset(e.options, index);
      r
    else
      r
  }

  /** The shared body of `insertBlank` and `insertUnderscore`: the selection
      `[start, end)` is replaced by `marker`, and the trimmed selection, when
      non-blank and new, becomes an option. Both branches of the source build
      the same sentence. */
  function InsertMarker(e: Editor, start: nat, end: nat, marker: string): (r: Editor)
    requires start <= end <= |e.sentence|
    ensures |r.sentence| == |e.sentence| - (end - start) + |marker|
    ensures r.sentence[..start] == e.sentence[..start]
    ensures r.sentence[start..start + |marker|] == marker
    ensures r.sentence[start + |marker|..] == e.sentence[end..]
    ensures r.image == e.image && r.newOption == e.newOption
    ensures var sel := Trim(e.sentence[start..end]);
      && (sel != "" ==> sel in r.options)
      && e.options <= r.options && |r.options| <= |e.options| + 1
      && (sel == "" || sel in e.options ==> r.options == e.options)
    ensures NoDuplicates(e.options) ==> NoDuplicates(r.options)
    ensures CleanOptions(e.options) ==> CleanOptions(r.options)
  {
    e.(sentence := Splice(e.sentence, start, end, marker), options := OfferSelection(e.options, e.sentence[start..end]))
  }

  /** The option list after a selected text is turned into a blank: the
      trimmed selection joins it when non-blank and new. */
  function OfferSelection(options: seq<string>, selected: string): (r: seq<string>)
    ensures var sel := Trim(selected);
      && (sel != "" ==> sel in r)
      && options <= r && |r| <= |options| + 1
      && (sel == "" || sel in options ==> r == options)
    ensures NoDuplicates(options) ==> NoDuplicates(r)
    ensures CleanOptions(options) ==> CleanOptions(r)
  {
    var t := Trim(selected);
    TrimIdempotent(selected);
    if t != "" then AddIfNew(options, t) else options
  }

  /** `insertBlank`: the selection becomes `[blank]`. */
  function InsertBlank(e: Editor, start: nat, end: nat): (r: Editor)
    requires start <= end <= |e.sentence|
    ensures HasAt(r.sentence, start, BlankToken)
    ensures r.sentence[..start] == e.sentence[..start]
    ensures r.sentence[start + 7..] == e.sentence[end..]
    ensures r.image == e.image && r.newOption == e.newOption
    ensures var sel := Trim(e.sentence[start..end]);
      && (sel != "" ==> sel in r.options)
      && e.options <= r.options && |r.options| <= |e.options| + 1
      && (sel == "" || sel in e.options ==> r.options == e.options)
    ensures NoDuplicates(e.options) ==> NoDuplicates(r.options)
  {
    InsertMarker(e, start, end, BlankToken)
  }

  /** `insertUnderscore`: the selection becomes `_____`. */
  function InsertUnderscore(e: Editor, start: nat, end: nat): (r: Editor)
    requires start <= end <= |e.sentence|
    ensures HasAt(r.sentence, start, Underscores)
    ensures r.sentence[..start] == e.sentence[..start]
    ensures r.sentence[start + 5..] == e.sentence[end..]
    ensures r.image == e.image && r.newOption == e.newOption
    ensures var sel := Trim(e.sentence[start..end]);
      && (sel != "" ==> sel in r.options)
      && e.options <= r.options && |r.options| <= |e.options| + 1
      && (sel == "" || sel in e.options ==> r.options == e.options)
    ensures NoDuplicates(e.options) ==> NoDuplicates(r.options)
  {
    InsertMarker(e, start, end, Underscores)
  }

  /** A marker typed into a sentence with the cursor anywhere is a marker
      the save-time counter finds at that position. */
  lemma InsertedMarkerIsCounted(e: Editor, start: nat, end: nat)
    requires start <= end <= |e.sentence|
    ensures MarkerLen(SaveMarkers, InsertBlank(e, start, end).sentence, start) == 7
    ensures MarkerLen(SaveMarkers, InsertUnderscore(e, start, end).sentence, start) == 5
    ensures MarkerLen(PreviewMarkers, InsertBlank(e, start, end).sentence, start) == 7
    ensures MarkerLen(PreviewMarkers, InsertUnderscore(e, start, end).sentence, start) == 5
  {
    BlankTokenAt(SaveMarkers, InsertBlank(e, start, end).sentence, start);
    BlankTokenAt(PreviewMarkers, InsertBlank(e, start, end).sentence, start);
  }

  /** `resetForm`: sentence, options and text box are emptied; the image
      stays. */
  function ResetForm(e: Editor): (r: Editor)
    ensures r.image == e.image
    ensures r.sentence == "" && r.options == [] && r.newOption == ""
  {
    e.(sentence := "", options := [], newOption := "")
  }

  /** `handleSave`: rejects a blank sentence, then a sentence without a
      `_____` or `[blank]` marker, then fewer options than such markers;
      otherwise emits the sentence, image and options unchanged with the
      fixed prompt. */
  function HandleSave(e: Editor, continueWithSameType: bool, hasContinueHandler: bool)
    : (r: Result<Submission, ClozeError>)
    ensures r == Err(EmptySentence) <==> AllSpace(e.sentence)
    ensures r == Err(NoBlanks) <==> !AllSpace(e.sentence) && SaveBlankCount(e.sentence) == 0
    ensures r.Err? && r.error.TooFewOptions? <==>
      !AllSpace(e.sentence) && 0 < SaveBlankCount(e.sentence) && |e.options| < SaveBlankCount(e.sentence)
    ensures r.Err? && r.error.TooFewOptions? ==> r.error.needed == SaveBlankCount(e.sentence)
    ensures r.Ok? ==>
      && r.value.data == Cloze(ClozeData(e.sentence, e.image, e.options, Prompt))
      && r.value.route == RouteSave(continueWithSameType, hasContinueHandler)
      && 0 < SaveBlankCount(e.sentence) <= |e.options|
  {
    BlankIffAllSpace(e.sentence);
    var blankCount := SaveBlankCount(e.sentence);
    if IsBlank(e.sentence) then Err(EmptySentence)
    else if blankCount == 0 then Err(NoBlanks)
    else if |e.options| < blankCount then Err(TooFewOptions(blankCount))
    else Ok(Submission(Cloze(ClozeData(e.sentence, e.image, e.options, Prompt)),
                       RouteSave(continueWithSameType, hasContinueHandler)))
  }

  /** After `resetForm` the editor refuses to save for want of a sentence. */
  lemma ResetThenSaveRejects(e: Editor, continueWithSameType: bool, hasContinueHandler: bool)
    ensures HandleSave(ResetForm(e), continueWithSameType, hasContinueHandler) == Err(EmptySentence)
  {
  }

  /** A sentence whose only marker is the bracketed form `[__]` is refused
      for having no blank, although the preview would show one blank. */
  lemma BracketedBlankRefused(image: string, options: seq<string>, newOption: string, c: bool, h: bool)
    ensures PreviewBlankCount("[__]") == 1
    ensures HandleSave(Editor("[__]", image, options, newOption), c, h) == Err(NoBlanks)
  {
    BlankExamples.BracketedOnlyInPreview();
    assert !AllSpace("[__]") by { assert !IsSpace("[__]"[0]); }
  }

  /** `[__]_____` passes the save-time check with a single option, yet the
      preview shows two blanks to fill. */
  lemma AcceptedWithFewerOptionsThanPreviewBlanks(image: string, newOption: string, c: bool, h: bool)
    ensures PreviewBlankCount("[__]_____") == 2
    ensures HandleSave(Editor("[__]_____", image, ["a"], newOption), c, h).Ok?
  {
    ExamplePreviewCount();
    ExampleSaveCount();
    var s := "[__]_____";
    assert !AllSpace(s) by { assert !IsSpace(s[0]); }
  }

  lemma ExamplePreviewCount()
    ensures PreviewBlankCount("[__]_____") == 2
  {
    var s := "[__]_____";
    RunEndsAt(s, 1, 3);
    BracketAt(s, 0);
    assert HasAt(s, 4, Underscores);
    var lens := MarkerLens(PreviewMarkers, s);
    assert lens[0] == 4 && lens[4] == 5;
    assert ScanFrom(lens, 9) == [];
    assert ScanFrom(lens, 4) == [Match(4, 5)];
  }

  lemma ExampleSaveCount()
    ensures SaveBlankCount("[__]_____") == 1
  {
    var s := "[__]_____";
    assert HasAt(s, 4, Underscores);
    var slens := MarkerLens(SaveMarkers, s);
    BracketAt(s, 0);
    assert !HasAt(s, 1, Underscores) by { assert s[1..6][2] == ']'; }
    assert !HasAt(s, 2, Underscores) by { assert s[2..7][1] == ']'; }
    NoMarkerAt(SaveMarkers, s, 1);
    NoMarkerAt(SaveMarkers, s, 2);
    NoMarkerAt(SaveMarkers, s, 3);
    assert slens[0] == 0 && slens[1] == 0 && slens[2] == 0 && slens[3] == 0 && slens[4] == 5;
    assert ScanFrom(slens, 9) == [];
    assert ScanFrom(slens, 4) == [Match(4, 5)];
    assert ScanFrom(slens, 3) == ScanFrom(slens, 4);
    assert ScanFrom(slens, 2) == ScanFrom(slens, 3);
    assert ScanFrom(slens, 1) == ScanFrom(slens, 2);
    assert ScanFrom(slens, 0) == ScanFrom(slens, 1);
  }

  /** Reopening a saved cloze question and saving it again gives back the
      same record. */
  lemma SaveIsStableUnderReload(e: Editor, c: bool, h: bool)
    requires HandleSave(e, c, h).Ok?
    ensures var d := HandleSave(e, c, h).value.data.cloze;
      HandleSave(Load(Some(d)), c, h) == HandleSave(e, c, h)
  {
  }

  /** The interactions the editor's screen offers; the two insert buttons
      carry the textarea's selection. */
  datatype Event =
    | SentenceTyped(value: string)
    | ImageTyped(value: string)
    | NewOptionTyped(value: string)
    | AddOptionClicked
    | RemoveOptionClicked(index: nat)
    | InsertBlankClicked(start: nat, end: nat)
    | InsertUnderscoreClicked(start: nat, end: nat)
    | ResetClicked

  /** Whether the screen offers `ev`: a remove button belongs to an option
      on screen, and a selection lies within the sentence. */
  predicate Offered(e: Editor, ev: Event) {
    match ev
    case RemoveOptionClicked(i) => i < |e.options|
    case InsertBlankClicked(s, t) => s <= t <= |e.sentence|
    case InsertUnderscoreClicked(s, t) => s <= t <= |e.sentence|
    case _ => true
  }

  /** One interaction. Whatever the author does through the screen, an option
      list without repeats keeps none, and one holding only trimmed,
      non-empty options keeps that form. */
  function Step(e: Editor, ev: Event): (r: Editor)
    requires Offered(e, ev)
    ensures NoDuplicates(e.options) ==> NoDuplicates(r.options)
    ensures CleanOptions(e.options) ==> CleanOptions(r.options)
  {
    match ev
    case SentenceTyped(v) => e.(sentence := v)
    case ImageTyped(v) => e.(image := v)
    case NewOptionTyped(v) => e.(newOption := v)
    case AddOptionClicked => AddOption(e)
    case RemoveOptionClicked(i) => RemoveOption(e, i)
    case InsertBlankClicked(s, t) => InsertMarker(e, s, t, BlankToken)
    case InsertUnderscoreClicked(s, t) => InsertMarker(e, s, t, Underscores)
    case ResetClicked => ResetForm(e)
  }

  /** A run of interactions; one the screen does not offer at that moment
      changes nothing. Starting from a new question's editor, which has no
      options, the option list never holds a repeat or a blank or untrimmed
      entry. */
  function Run(e: Editor, evs: seq<Event>): (r: Editor)
    ensures NoDuplicates(e.options) ==> NoDuplicates(r.options)
    ensures CleanOptions(e.options) ==> CleanOptions(r.options)
    decreases |evs|
  {
    if evs == [] then e
    else Run(if Offered(e, evs[0]) then Step(e, evs[0]) else e, evs[1..])
  }
}

/** The categorize-question editor: a question, an optional image URL, a
    list of category names and a list of items, each naming the category it
    belongs to. Rows are edited in place; `handleSave` drops the blank ones. */
module CategorizeForm {
  import opened Outcomes
  import opened Strings
  import opened Seqs
  import opened Questions

  datatype Editor = Editor(question: string, image: string, categories: seq<string>, items: seq<Item>)

  /** The two inputs of an item row. */
  datatype ItemField = Name | BelongsTo

  /** `handleSave` shows one message, "Please fill all required fields",
      whichever of its three checks fails. */
  datatype CategorizeError = Incomplete

  /** A fresh item row. */
  const BlankItem: Item := Item("", "")

  /** The editor on mount: one empty category row and one empty item row. */
  function Initial(): (e: Editor)
    ensures |e.categories| == 1 && |e.items| == 1
    ensures forall c :: c in e.categories ==> IsBlank(c)
    ensures e.categories == [""] && e.items == [Item("", "")]
    ensures e.question == "" && e.image == ""
  {
    Editor("", "", [""], [BlankItem])
  }

  /** The editor once `initialData` has been applied: its lists are used only
      when non-empty, otherwise the single empty row stays. */
  function Load(initial: Option<CategorizeData>): (e: Editor)
    ensures initial.None? ==> e == Initial()
    ensures initial.Some? ==> e.question == initial.value.question && e.image == initial.value.image
    ensures initial.Some? && initial.value.categories != [] ==> e.categories == initial.value.categories
    ensures initial.Some? && initial.value.items != [] ==> e.items == initial.value.items
    ensures e.categories != [] && e.items != []
  {
    match initial
    case None => Initial()
    case Some(d) =>
      Editor(d.question, d.image,
             if |d.categories| > 0 then d.categories else [""],
             if |d.items| > 0 then d.items else [BlankItem])
  }

  function AddCategory(e: Editor): (r: Editor)
    ensures |r.categories| == |e.categories| + 1 && e.categories <= r.categories
    ensures IsBlank(r.categories[|e.categories|])
    ensures r.question == e.question && r.image == e.image && r.items == e.items
  {
    e.(categories := e.categories + [""])
  }

  /** `updateCategory(index, value)`; the rows on screen are the only
      callers, so `index` is a row that exists. */
  function UpdateCategory(e: Editor, index: nat, value: string): (r: Editor)
    requires index < |e.categories|
    ensures |r.categories| == |e.categories| && r.categories[index] == value
    ensures forall j :: 0 <= j < |e.categories| && j != index ==> r.categories[j] == e.categories[j]
    ensures r.question == e.question && r.image == e.image && r.items == e.items
  {
    e.(categories := e.categories[index := value])
  }

  function RemoveCategory(e: Editor, index: int): (r: Editor)
    ensures 0 <= index < |e.categories| ==>
      |r.categories| == |e.categories| - 1
      && multiset(r.categories) + multiset{e.categories[index]} == multiset(e.categories)
    ensures !(0 <= index < |e.categories|) ==> r == e
    ensures r.question == e.question && r.image == e.image && r.items == e.items
    ensures 0 <= index < |e.categories| ==> Without(r.categories, e.categories, index)
  {
    var r := e.(categories := RemoveAt(e.categories, index));
    if 0 <= index < |e.categories| then
      RemoveAtMultiset(e.categories, index);
      r
    else
      r
  }

  function AddItem(e: Editor): (r: Editor)
    ensures |r.items| == |e.items| + 1 && e.items <= r.items
    ensures r.items[|e.items|].name == "" && r.items[|e.items|].belongsTo == ""
    ensures r.question == e.question && r.image == e.image && r.categories == e.categories
  {
    e.(items := e.items + [BlankItem])
  }

  /** `updateItem(index, field, value)`: one field of one row changes. */
  function UpdateItem(e: Editor, index: nat, field: ItemField, value: string): (r: Editor)
    requires index < |e.items|
    ensures |r.items| == |e.items|
    ensures forall j :: 0 <= j < |e.items| && j != index ==> r.items[j] == e.items[j]
    ensures field == Name ==> r.items[index] == Item(value, e.items[index].belongsTo)
    ensures field == BelongsTo ==> r.items[index] == Item(e.items[index].name, value)
    ensures r.question == e.question && r.image == e.image && r.categories == e.categories
  {
    var it := e.items[index];
    var updated := match field
      case Name => it.(name := value)
      case BelongsTo => it.(belongsTo := value);
    e.(items := e.items[index := updated])
  }

  function RemoveItem(e: Editor, index: int): (r: Editor)
    ensures 0 <= index < |e.items| ==>
      |r.items| == |e.items| - 1
      && multiset(r.items) + multiset{e.items[index]} == multiset(e.items)
    ensures !(0 <= index < |e.items|) ==> r == e
    ensures r.question == e.question && r.image == e.image && r.categories == e.categories
    ensures 0 <= index < |e.items| ==> Without(r.items, e.items, index)
  {
    var r := e.(items := RemoveAt(e.items, index));
    if 0 <= index < |e.items| then
      RemoveAtMultiset(e.items, index);
      r
    else
      r
  }

  /** A category row the save keeps. */
  function NamedCategory(c: string): bool {
    !IsBlank(c)
  }

  /** An item row the save keeps: both its name and its category are filled
      in. Whether the category is still in the list is not checked. */
  function CompleteItem(it: Item): bool {
    !IsBlank(it.name) && !IsBlank(it.belongsTo)
  }

  /** The categories the item dropdown offers. */
  function CategoryChoices(e: Editor): (r: seq<string>)
    ensures forall c :: c in r <==> c in e.categories && NamedCategory(c)
  {
    Filter(NamedCategory, e.categories)
  }

  /** `handleSave`: refuses when the question is blank or no category or no
      complete item survives the clean-up; otherwise emits the question and
      image as typed and the surviving rows in their original order. */
  function HandleSave(e: Editor, continueWithSameType: bool, hasContinueHandler: bool)
    : (r: Result<Submission, CategorizeError>)
    ensures r.Err? <==>
      || IsBlank(e.question)
      || (forall i :: 0 <= i < |e.categories| ==> !NamedCategory(e.categories[i]))
      || (forall i :: 0 <= i < |e.items| ==> !CompleteItem(e.items[i]))
    ensures r.Ok? ==>
      && r.value.route == RouteSave(continueWithSameType, hasContinueHandler)
      && r.value.data.Categorize?
      && var d := r.value.data.categorize;
      && d.question == e.question && d.image == e.image
      && d.categories == Filter(NamedCategory, e.categories)
      && d.items == Filter(CompleteItem, e.items)
      && d.categories != [] && d.items != []
  {
    var categories := Filter(NamedCategory, e.categories);
    var items := Filter(CompleteItem, e.items);
    FilterEmpty(NamedCategory, e.categories);
    FilterEmpty(CompleteItem, e.items);
    if IsBlank(e.question) || |categories| == 0 || |items| == 0 then Err(Incomplete)
    else Ok(Submission(Categorize(CategorizeData(e.question, e.image, categories, items)),
                       RouteSave(continueWithSameType, hasContinueHandler)))
  }

  /** The saved lists hold exactly the rows that pass the clean-up, each as
      often as it was entered, and nothing else. */
  lemma SavedRowsAreTheFilledOnes(e: Editor, c: bool, h: bool, cat: string, it: Item)
    requires HandleSave(e, c, h).Ok?
    ensures var d := HandleSave(e, c, h).value.data.categorize;
      && multiset(d.categories)[cat] == (if NamedCategory(cat) then multiset(e.categories)[cat] else 0)
      && multiset(d.items)[it] == (if CompleteItem(it) then multiset(e.items)[it] else 0)
  {
    FilterMultiset(NamedCategory, e.categories, cat);
    FilterMultiset(CompleteItem, e.items, it);
  }

  /** What `handleSave` does depends only on the question, the image and
      the rows that survive the clean-up. */
  lemma SaveSeesOnlyFilledRows(e: Editor, f: Editor, c: bool, h: bool)
    requires e.question == f.question && e.image == f.image
    requires Filter(NamedCategory, e.categories) == Filter(NamedCategory, f.categories)
    requires Filter(CompleteItem, e.items) == Filter(CompleteItem, f.items)
    ensures HandleSave(e, c, h) == HandleSave(f, c, h)
  {
  }

  /** Pressing "Add Category" adds an empty row that the save throws away,
      so it never changes what is saved. */
  lemma {:induction false} EmptyCategoryRowIsIgnored(e: Editor, c: bool, h: bool)
    ensures HandleSave(AddCategory(e), c, h) == HandleSave(e, c, h)
  {
    var f := AddCategory(e);
    FilterConcat(NamedCategory, e.categories, [""]);
    assert !NamedCategory("");
    assert Filter(NamedCategory, [""]) == [];
    SaveSeesOnlyFilledRows(f, e, c, h);
  }

  /** Likewise for "Add Item". */
  lemma {:induction false} EmptyItemRowIsIgnored(e: Editor, c: bool, h: bool)
    ensures HandleSave(AddItem(e), c, h) == HandleSave(e, c, h)
  {
    var f := AddItem(e);
    FilterConcat(CompleteItem, e.items, [BlankItem]);
    assert !CompleteItem(BlankItem);
    assert Filter(CompleteItem, [BlankItem]) == [];
    SaveSeesOnlyFilledRows(f, e, c, h);
  }

  /** Reopening a saved question in the editor and saving it again gives
      back the same question: the saved lists are already clean. */
  lemma {:induction false} SaveIsStableUnderReload(e: Editor, c: bool, h: bool)
    requires HandleSave(e, c, h).Ok?
    ensures HandleSave(Load(Some(HandleSave(e, c, h).value.data.categorize)), c, h) == HandleSave(e, c, h)
  {
    var d := HandleSave(e, c, h).value.data.categorize;
    FilterExtremes(NamedCategory, d.categories);
    FilterExtremes(CompleteItem, d.items);
  }

  /** One named category and one complete item are saved as they are. */
  lemma SingleRowsSaved(q: string, image: string, b: string, it: Item, c: bool, h: bool)
    requires !IsBlank(q) && NamedCategory(b) && CompleteItem(it)
    ensures HandleSave(Editor(q, image, [b], [it]), c, h)
         == Ok(Submission(Categorize(CategorizeData(q, image, [b], [it])), RouteSave(c, h)))
  {
    FilterExtremes(NamedCategory, [b]);
    FilterExtremes(CompleteItem, [it]);
  }

  /** Removing a category leaves the items that name it untouched, and the
      save still accepts them: a saved item can name a category the saved
      question does not have. */
  lemma StaleCategoryIsSaved(q: string, image: string, a: string, b: string, x: string, c: bool, h: bool)
    requires !IsBlank(q) && NamedCategory(b) && CompleteItem(Item(x, a)) && a != b
    ensures var r := HandleSave(RemoveCategory(Editor(q, image, [a, b], [Item(x, a)]), 0), c, h);
      && r.Ok?
      && r.value.data.categorize.items == [Item(x, a)]
      && a !in r.value.data.categorize.categories
  {
    var e := RemoveCategory(Editor(q, image, [a, b], [Item(x, a)]), 0);
    assert e.categories == [b];
    SingleRowsSaved(q, image, b, Item(x, a), c, h);
  }

  /** The interactions the editor's screen offers. Row events carry the
      index of a row on screen. */
  datatype Event =
    | QuestionTyped(value: string)
    | ImageTyped(value: string)
    | AddCategoryClicked
    | CategoryTyped(index: nat, value: string)
    | RemoveCategoryClicked(index: nat)
    | AddItemClicked
    | ItemTyped(index: nat, field: ItemField, value: string)
    | RemoveItemClicked(index: nat)

  /** Whether the screen offers `ev`: the row exists, and a row's remove
      button is only drawn while its list has more than one row. */
  predicate Offered(e: Editor, ev: Event) {
    match ev
    case CategoryTyped(i, _) => i < |e.categories|
    case RemoveCategoryClicked(i) => i < |e.categories| && |e.categories| > 1
    case ItemTyped(i, _, _) => i < |e.items|
    case RemoveItemClicked(i) => i < |e.items| && |e.items| > 1
    case _ => true
  }

  /** One interaction. Whatever the author does through the screen, neither
      list ever becomes empty. */
  function Step(e: Editor, ev: Event): (r: Editor)
    requires Offered(e, ev)
    ensures e.categories != [] ==> r.categories != []
    ensures e.items != [] ==> r.items != []
  {
    match ev
    case QuestionTyped(v) => e.(question := v)
    case ImageTyped(v) => e.(image := v)
    case AddCategoryClicked => AddCategory(e)
    case CategoryTyped(i, v) => UpdateCategory(e, i, v)
    case RemoveCategoryClicked(i) => RemoveCategory(e, i)
    case AddItemClicked => AddItem(e)
    case ItemTyped(i, f, v) => UpdateItem(e, i, f, v)
    case RemoveItemClicked(i) => RemoveItem(e, i)
  }

  /** A run of interactions; one the screen does not offer at that moment
      changes nothing. Since the editor always opens with at least one row in
      each list, neither list is ever empty while it is open. */
  function Run(e: Editor, evs: seq<Event>): (r: Editor)
    ensures e.categories != [] ==> r.categories != []
    ensures e.items != [] ==> r.items != []
    decreases |evs|
  {
    if evs == [] then e
    else Run(if Offered(e, evs[0]) then Step(e, evs[0]) else e, evs[1..])
  }

  /** Every editor the screen can reach from opening a question, new or
      existing, has a category row and an item row. */
  lemma {:induction false} RowsNeverRunOut(initial: Option<CategorizeData>, evs: seq<Event>)
    ensures Run(Load(initial), evs).categories != [] && Run(Load(initial), evs).items != []
  {
  }
}

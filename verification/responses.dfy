/** The respondent's side of the preview page: the drag-and-drop cloze and
    categorize panels, each with its own latch holding the value being
    dragged (`draggedOption`, `draggedCategory`), and the radio buttons of a
    comprehension question. Every change goes through `handleAnswerChange`
    on the page's answer map. */
module Responses {
  import opened Outcomes
  import opened Seqs
  import opened Strings
  import opened Blanks
  import opened Answers

  /** The page's answers together with one panel's latch. */
  datatype Panel = Panel(answers: AnswerMap, latch: Option<string>)

  /** The latch holds something a drop will act on: `if (draggedOption)`
      refuses both `null` and "". */
  predicate Latched(p: Panel) {
    p.latch.Some? && p.latch.value != ""
  }

  /** `onDragStart`: remember the value picked up. */
  function DragStart(p: Panel, value: string): (r: Panel)
    ensures r.answers == p.answers && r.latch == Some(value)
  {
    p.(latch := Some(value))
  }

  /** `handleDropOnBlank` and `handleDropOnCategory`: with a value latched,
      write it to the slot under the drop and forget it; otherwise nothing
      happens. */
  function Drop(p: Panel, id: int, key: string): (r: Panel)
    ensures !Latched(p) ==> r == p
    ensures Latched(p) ==> r.latch == None && Lookup(r.answers, id, key) == p.latch.value
    ensures Latched(p) ==> r.answers == AnswerChange(p.answers, id, key, p.latch.value)
  {
    if Latched(p) then Panel(AnswerChange(p.answers, id, key, p.latch.value), None) else p
  }

  /** `removeAnswer` and `removeAssignment`: empty the slot, keep the
      latch. */
  function Remove(p: Panel, id: int, key: string): (r: Panel)
    ensures r.answers == ClearSlot(p.answers, id, key) && r.latch == p.latch
  {
    p.(answers := ClearSlot(p.answers, id, key))
  }

  /** No non-empty value sits in two slots. */
  predicate SingleUse(m: Slots) {
    forall k1, k2 :: k1 in m && k2 in m && m[k1] != "" && m[k1] == m[k2] ==> k1 == k2
  }

  /** Under single use the filled slots and the values in use are in
      one-to-one correspondence. */
  lemma {:induction false} UsedMatchesFilled(m: Slots, ks: set<string>)
    requires SingleUse(m) && ks <= FilledKeys(m)
    ensures |set k | k in ks :: m[k]| == |ks|
    decreases |ks|
  {
    if ks != {} {
      var x :| x in ks;
      var rest := ks - {x};
      UsedMatchesFilled(m, rest);
      assert (set k | k in ks :: m[k]) == (set k | k in rest :: m[k]) + {m[x]};
      assert m[x] !in (set k | k in rest :: m[k]);
    }
  }

  // ---- the cloze panel ----

  /** What a respondent does in one cloze panel, and answer changes made by
      the other panels of the page. */
  datatype ClozeEvent =
    | OptionDragged(option: string)
    | DroppedOnBlank(blank: nat)
    | AnswerRemoved(blank: nat)
    | ChangedElsewhere(id: int, key: string, value: string)

  /** Only the ready face has drag sources and drop targets; an option is
      draggable only while it is not in use (`draggable={!isUsed}`); the
      remove button shows only on a filled blank. */
  predicate ClozeOffered(q: FormQuestion, p: Panel, ev: ClozeEvent) {
    match ev
    case OptionDragged(o) =>
      ViewOf(q) == Ready && o in ClozeOptions(q) && o !in UsedValues(Current(p.answers, q.id))
    case DroppedOnBlank(i) => ViewOf(q) == Ready && i < BlankCount(q)
    case AnswerRemoved(i) =>
      ViewOf(q) == Ready && i < BlankCount(q) && Lookup(p.answers, q.id, BlankId(i)) != ""
    case ChangedElsewhere(id, _, _) => id != q.id
  }

  /** The blank ids the panel renders. */
  function BlankKeySet(q: FormQuestion): set<string> {
    SlotsFor(BlankKeys(BlankCount(q))).Keys
  }

  /** What stays true of a cloze panel: its slots are its blanks, every
      filled slot holds an option, no option fills two blanks, and a
      latched option is one not yet in use. */
  predicate ClozeInv(q: FormQuestion, p: Panel) {
    q.id in p.answers && SingleUseSlots(p.answers[q.id], BlankKeySet(q), ClozeOptions(q), p.latch)
  }

  /** The same, for slots `m` with key set `keys`, option list `options`
      and latch `latch`. */
  predicate SingleUseSlots(m: Slots, keys: set<string>, options: seq<string>, latch: Option<string>) {
    && m.Keys == keys
    && SingleUse(m)
    && (forall k :: k in m && m[k] != "" ==> m[k] in options)
    && (latch.Some? && latch.value != "" ==> latch.value in options && latch.value !in UsedValues(m))
  }

  /** Putting the latched, unused option into a slot and emptying the
      latch keeps single use. */
  lemma FillKeeps(m: Slots, keys: set<string>, options: seq<string>, v: string, key: string)
    requires SingleUseSlots(m, keys, options, Some(v)) && v != "" && key in keys
    ensures SingleUseSlots(m[key := v], keys, options, None)
  {
    var m' := m[key := v];
    forall k1, k2 | k1 in m' && k2 in m' && m'[k1] != "" && m'[k1] == m'[k2]
      ensures k1 == k2
    {
      if k1 != key && k2 != key {
        assert m[k1] == m[k2];
      }
    }
  }

  /** Emptying a slot keeps single use, whatever is latched. */
  lemma ClearKeeps(m: Slots, keys: set<string>, options: seq<string>, latch: Option<string>, key: string)
    requires SingleUseSlots(m, keys, options, latch) && key in keys
    ensures SingleUseSlots(m[key := ""], keys, options, latch)
  {
    var m' := m[key := ""];
    forall v | v in UsedValues(m') ensures v in UsedValues(m) {
      var k :| k in m' && m'[k] != "" && m'[k] == v;
      assert m[k] == v;
    }
  }

  /** The panel as the page starts it: the initial slots, nothing latched. */
  lemma ClozeStartsGood(qs: seq<FormQuestion>, i: nat)
    requires i < |qs| && qs[i].kind == "cloze"
    requires forall j :: i < j < |qs| && qs[j].id == qs[i].id ==> !Recognised(qs[j].kind)
    ensures ClozeInv(qs[i], Panel(InitializeAnswers(qs), None))
  {
    LastRecognisedWins(qs, i);
    ClozeInitialGood(qs[i], InitializeAnswers(qs));
  }

  /** Any answer map whose entry for `q` is its initial slots. */
  lemma ClozeInitialGood(q: FormQuestion, a: AnswerMap)
    requires q.kind == "cloze" && q.id in a && a[q.id] == InitialSlots(q)
    ensures ClozeInv(q, Panel(a, None))
  {
    AllEmptyIsSingleUse(a[q.id]);
  }

  /** Slots that are all empty hold no value twice. */
  lemma AllEmptyIsSingleUse(m: Slots)
    requires forall k :: k in m ==> m[k] == ""
    ensures SingleUse(m) && FilledKeys(m) == {}
  {
  }

  /** One event of the cloze panel. */
  function ClozeStep(q: FormQuestion, p: Panel, ev: ClozeEvent): (r: Panel)
    requires ClozeOffered(q, p, ev)
    ensures ClozeInv(q, p) ==> ClozeInv(q, r)
    ensures forall id :: id in p.answers && id != q.id && !(ev.ChangedElsewhere? && ev.id == id) ==>
      id in r.answers && r.answers[id] == p.answers[id]
  {
    match ev
    case OptionDragged(o) => DragStart(p, o)
    case DroppedOnBlank(i) =>
      var r := Drop(p, q.id, BlankId(i));
      if ClozeInv(q, p) then DropKeepsCloze(q, p, i); r else r
    case AnswerRemoved(i) =>
      var r := Remove(p, q.id, BlankId(i));
      if ClozeInv(q, p) then RemoveKeepsCloze(q, p, i); r else r
    case ChangedElsewhere(id, key, value) => p.(answers := AnswerChange(p.answers, id, key, value))
  }

  /** A drop onto a rendered blank keeps the cloze invariant. */
  lemma DropKeepsCloze(q: FormQuestion, p: Panel, i: nat)
    requires ClozeInv(q, p) && i < BlankCount(q)
    ensures ClozeInv(q, Drop(p, q.id, BlankId(i)))
  {
    if Latched(p) {
      var key := BlankId(i);
      assert BlankKeys(BlankCount(q))[i] == key;
      FillKeeps(p.answers[q.id], BlankKeySet(q), ClozeOptions(q), p.latch.value, key);
      assert Drop(p, q.id, key).answers[q.id] == p.answers[q.id][key := p.latch.value];
    }
  }

  /** Emptying a rendered blank keeps the cloze invariant. */
  lemma RemoveKeepsCloze(q: FormQuestion, p: Panel, i: nat)
    requires ClozeInv(q, p) && i < BlankCount(q)
    ensures ClozeInv(q, Remove(p, q.id, BlankId(i)))
  {
    var key := BlankId(i);
    assert BlankKeys(BlankCount(q))[i] == key;
    ClearKeeps(p.answers[q.id], BlankKeySet(q), ClozeOptions(q), p.latch, key);
    assert Remove(p, q.id, key).answers[q.id] == p.answers[q.id][key := ""];
  }

  /** A run of cloze events; ones the screen does not offer are skipped. */
  function ClozeRun(q: FormQuestion, p: Panel, evs: seq<ClozeEvent>): (r: Panel)
    ensures ClozeInv(q, p) ==> ClozeInv(q, r)
    decreases |evs|
  {
    if evs == [] then p
    else ClozeRun(q, if ClozeOffered(q, p, evs[0]) then ClozeStep(q, p, evs[0]) else p, evs[1..])
  }

  /** `usedOptions.length / Math.max(blanks, 1)`, kept as a fraction. */
  datatype Fraction = Fraction(num: nat, den: nat)

  function ClozeProgress(q: FormQuestion, a: AnswerMap): (f: Fraction)
    ensures f.num == |FilledKeys(Current(a, q.id))|
    ensures f.den >= 1 && (BlankCount(q) >= 1 ==> f.den == BlankCount(q))
  {
    var k := BlankCount(q);
    Fraction(FilledCount(Current(a, q.id)), if k > 1 then k else 1)
  }

  /** Under the invariant the bar never passes full, the count of used
      options never exceeds the blanks, and it never exceeds the number of
      different options either. */
  lemma ClozeProgressBounded(q: FormQuestion, p: Panel)
    requires ClozeInv(q, p)
    ensures ClozeProgress(q, p.answers).num <= ClozeProgress(q, p.answers).den
    ensures FilledCount(p.answers[q.id]) <= BlankCount(q)
    ensures FilledCount(p.answers[q.id]) == |UsedValues(p.answers[q.id])|
    ensures FilledCount(p.answers[q.id]) <= |ClozeOptions(q)|
  {
    var m := p.answers[q.id];
    SlotsForSize(BlankKeys(BlankCount(q)));
    SubsetSize(FilledKeys(m), m.Keys);
    UsedMatchesFilled(m, FilledKeys(m));
    assert UsedValues(m) == set k | k in FilledKeys(m) :: m[k];
    var opts := ClozeOptions(q);
    SubsetSize(UsedValues(m), set i | 0 <= i < |opts| :: opts[i]);
    ElementsSize(opts);
  }

  /** Under the invariant, with at least one blank, the bar is full exactly
      when every blank the panel shows holds an option. */
  lemma ClozeFullIffAllFilled(q: FormQuestion, p: Panel)
    requires ClozeInv(q, p) && BlankCount(q) >= 1
    ensures var f := ClozeProgress(q, p.answers);
      f.num == f.den <==> forall i :: 0 <= i < BlankCount(q) ==> p.answers[q.id][BlankId(i)] != ""
  {
    var m := p.answers[q.id];
    var keys := BlankKeys(BlankCount(q));
    SlotsForSize(keys);
    assert m.Keys == SlotsFor(keys).Keys;
    assert |m.Keys| == BlankCount(q);
    if forall i :: 0 <= i < BlankCount(q) ==> m[BlankId(i)] != "" {
      assert FilledKeys(m) == m.Keys by {
        forall k | k in m.Keys ensures k in FilledKeys(m) {
          var i :| 0 <= i < |keys| && keys[i] == k;
        }
      }
    }
    if FilledCount(m) == BlankCount(q) {
      SubsetEqualSize(FilledKeys(m), m.Keys);
      forall i | 0 <= i < BlankCount(q) ensures m[BlankId(i)] != "" {
        assert keys[i] in m.Keys;
      }
    }
  }

  /** With fewer options than blanks the panel can never be completed. */
  lemma TooFewOptionsNeverComplete(q: FormQuestion, p: Panel, evs: seq<ClozeEvent>)
    requires ClozeInv(q, p) && |ClozeOptions(q)| < BlankCount(q)
    ensures FilledCount(ClozeRun(q, p, evs).answers[q.id]) < BlankCount(q)
  {
    ClozeProgressBounded(q, ClozeRun(q, p, evs));
  }

  // ---- the categorize panel ----

  /** What a respondent does in one categorize panel, and changes made by
      the other panels. */
  datatype CategorizeEvent =
    | CategoryDragged(category: string)
    | DroppedOnItem(item: nat)
    | AssignmentRemoved(item: nat)
    | OtherChange(id: int, key: string, value: string)

  /** Every category chip is draggable, used or not; drop targets and
      remove buttons sit on the items. */
  predicate CategorizeOffered(q: FormQuestion, p: Panel, ev: CategorizeEvent) {
    match ev
    case CategoryDragged(c) => c in CategoriesOf(q)
    case DroppedOnItem(i) => i < |ItemsOf(q)|
    case AssignmentRemoved(i) => i < |ItemsOf(q)| && Lookup(p.answers, q.id, ItemsOf(q)[i].name) != ""
    case OtherChange(id, _, _) => id != q.id
  }

  /** The item names, the slot keys of a categorize question. */
  function NameSet(q: FormQuestion): set<string> {
    SlotsFor(ItemNames(ItemsOf(q))).Keys
  }

  /** What stays true of a categorize panel: its slots are its item names
      and every assignment and latched value is one of its categories. */
  predicate CategorizeInv(q: FormQuestion, p: Panel) {
    && q.id in p.answers
    && p.answers[q.id].Keys == NameSet(q)
    && (forall k :: k in p.answers[q.id] && p.answers[q.id][k] != "" ==> p.answers[q.id][k] in CategoriesOf(q))
    && (Latched(p) ==> p.latch.value in CategoriesOf(q))
  }

  lemma CategorizeStartsGood(qs: seq<FormQuestion>, i: nat)
    requires i < |qs| && qs[i].kind == "categorize"
    requires forall j :: i < j < |qs| && qs[j].id == qs[i].id ==> !Recognised(qs[j].kind)
    ensures CategorizeInv(qs[i], Panel(InitializeAnswers(qs), None))
  {
    LastRecognisedWins(qs, i);
    CategorizeInitialGood(qs[i], InitializeAnswers(qs));
  }

  lemma CategorizeInitialGood(q: FormQuestion, a: AnswerMap)
    requires q.kind == "categorize" && q.id in a && a[q.id] == InitialSlots(q)
    ensures CategorizeInv(q, Panel(a, None))
  {
    AllEmptyIsSingleUse(a[q.id]);
  }

  /** One event of the categorize panel. */
  function CategorizeStep(q: FormQuestion, p: Panel, ev: CategorizeEvent): (r: Panel)
    requires CategorizeOffered(q, p, ev)
    ensures CategorizeInv(q, p) ==> CategorizeInv(q, r)
  {
    match ev
    case CategoryDragged(c) => DragStart(p, c)
    case DroppedOnItem(i) =>
      var r := Drop(p, q.id, ItemsOf(q)[i].name);
      if CategorizeInv(q, p) then DropKeepsCategorize(q, p, i); r else r
    case AssignmentRemoved(i) =>
      var r := Remove(p, q.id, ItemsOf(q)[i].name);
      if CategorizeInv(q, p) then RemoveKeepsCategorize(q, p, i); r else r
    case OtherChange(id, key, value) => p.(answers := AnswerChange(p.answers, id, key, value))
  }

  /** A drop onto an item keeps the categorize invariant. */
  lemma DropKeepsCategorize(q: FormQuestion, p: Panel, i: nat)
    requires CategorizeInv(q, p) && i < |ItemsOf(q)|
    ensures CategorizeInv(q, Drop(p, q.id, ItemsOf(q)[i].name))
  {
    if Latched(p) {
      var key := ItemsOf(q)[i].name;
      assert ItemNames(ItemsOf(q))[i] == key;
      var m := p.answers[q.id];
      assert key in m;
      assert Drop(p, q.id, key).answers[q.id] == m[key := p.latch.value];
    }
  }

  /** Clearing an item's assignment keeps the categorize invariant. */
  lemma RemoveKeepsCategorize(q: FormQuestion, p: Panel, i: nat)
    requires CategorizeInv(q, p) && i < |ItemsOf(q)|
    ensures CategorizeInv(q, Remove(p, q.id, ItemsOf(q)[i].name))
  {
    var key := ItemsOf(q)[i].name;
    assert ItemNames(ItemsOf(q))[i] == key;
    var m := p.answers[q.id];
    assert key in m;
    assert Remove(p, q.id, key).answers[q.id] == m[key := ""];
  }

  function CategorizeRun(q: FormQuestion, p: Panel, evs: seq<CategorizeEvent>): (r: Panel)
    ensures CategorizeInv(q, p) ==> CategorizeInv(q, r)
    decreases |evs|
  {
    if evs == [] then p
    else CategorizeRun(q, if CategorizeOffered(q, p, evs[0]) then CategorizeStep(q, p, evs[0]) else p, evs[1..])
  }

  /** `items?.length || 0` under the counter, `items?.length || 1` under the
      bar. */
  function CategorizeLabel(q: FormQuestion, a: AnswerMap): Fraction {
    Fraction(FilledCount(Current(a, q.id)), |ItemsOf(q)|)
  }

  function CategorizeBar(q: FormQuestion, a: AnswerMap): (f: Fraction)
    ensures f.den >= 1
    ensures f.num == CategorizeLabel(q, a).num
    ensures |ItemsOf(q)| > 0 ==> f.den == CategorizeLabel(q, a).den
  {
    Fraction(FilledCount(Current(a, q.id)), if |ItemsOf(q)| > 0 then |ItemsOf(q)| else 1)
  }

  /** The bar never passes full; and when two items share a name they
      share a slot, so the count stays below the item count and the bar
      can never fill. */
  lemma CategorizeProgressBounded(q: FormQuestion, p: Panel)
    requires CategorizeInv(q, p)
    ensures CategorizeBar(q, p.answers).num <= CategorizeBar(q, p.answers).den
    ensures !NoDuplicates(ItemNames(ItemsOf(q))) ==> CategorizeLabel(q, p.answers).num < |ItemsOf(q)|
  {
    var m := p.answers[q.id];
    SlotsForSize(ItemNames(ItemsOf(q)));
    SubsetSize(FilledKeys(m), m.Keys);
  }

  /** Dragging a category onto an item assigns it there and empties the
      latch, before whatever comes next. */
  lemma AssignCategory(q: FormQuestion, p: Panel, c: string, i: nat, more: seq<CategorizeEvent>)
    requires c != "" && c in CategoriesOf(q) && i < |ItemsOf(q)|
    ensures CategorizeRun(q, p, [CategoryDragged(c), DroppedOnItem(i)] + more)
         == CategorizeRun(q, Panel(AnswerChange(p.answers, q.id, ItemsOf(q)[i].name, c), None), more)
  {
    var evs := [CategoryDragged(c), DroppedOnItem(i)] + more;
    var p1 := DragStart(p, c);
    assert CategorizeRun(q, p, evs) == CategorizeRun(q, p1, evs[1..]);
    assert evs[1..][1..] == more;
  }

  /** Unlike cloze options, one category can be given to several items. */
  lemma CategoryReused(q: FormQuestion, p: Panel, c: string)
    requires c != "" && c in CategoriesOf(q)
    requires |ItemsOf(q)| >= 2 && ItemsOf(q)[0].name != ItemsOf(q)[1].name
    ensures var r := CategorizeRun(q, p, [CategoryDragged(c), DroppedOnItem(0), CategoryDragged(c), DroppedOnItem(1)]);
      && Lookup(r.answers, q.id, ItemsOf(q)[0].name) == c
      && Lookup(r.answers, q.id, ItemsOf(q)[1].name) == c
      && !SingleUse(r.answers[q.id])
  {
    var second := [CategoryDragged(c), DroppedOnItem(1)];
    assert [CategoryDragged(c), DroppedOnItem(0), CategoryDragged(c), DroppedOnItem(1)]
        == [CategoryDragged(c), DroppedOnItem(0)] + second;
    AssignCategory(q, p, c, 0, second);
    var a2 := AnswerChange(p.answers, q.id, ItemsOf(q)[0].name, c);
    assert second == second + [];
    AssignCategory(q, Panel(a2, None), c, 1, []);
    var a4 := AnswerChange(a2, q.id, ItemsOf(q)[1].name, c);
    assert a4[q.id][ItemsOf(q)[0].name] == a4[q.id][ItemsOf(q)[1].name];
  }

  // ---- the comprehension radios ----

  /** `onChange` of a radio button: sub-question `sub`, one of its
      options. */
  predicate ChoiceOffered(q: FormQuestion, sub: nat, option: string) {
    sub < |SubQuestionsOf(q)| && option in SubQuestionsOf(q)[sub].options
  }

  /** `handleAnswerChange(question.id, subIdx, e.target.value)`; the index
      becomes the object key `"0"`, `"1"`, .... */
  function Choose(q: FormQuestion, a: AnswerMap, sub: nat, option: string): (r: AnswerMap)
    requires ChoiceOffered(q, sub, option)
    ensures Lookup(r, q.id, NatToDecimal(sub)) == option
  {
    AnswerChange(a, q.id, NatToDecimal(sub), option)
  }

  /** What stays true of a comprehension question's slots: one per
      sub-question, each empty or one of that sub-question's options. */
  predicate ComprehensionInv(q: FormQuestion, a: AnswerMap) {
    && q.id in a
    && a[q.id].Keys == SlotsFor(IndexKeys(|SubQuestionsOf(q)|)).Keys
    && (forall n :: 0 <= n < |SubQuestionsOf(q)| && Lookup(a, q.id, NatToDecimal(n)) != "" ==>
          Lookup(a, q.id, NatToDecimal(n)) in SubQuestionsOf(q)[n].options)
  }

  lemma ComprehensionStartsGood(qs: seq<FormQuestion>, i: nat)
    requires i < |qs| && qs[i].kind == "comprehension"
    requires forall j :: i < j < |qs| && qs[j].id == qs[i].id ==> !Recognised(qs[j].kind)
    ensures ComprehensionInv(qs[i], InitializeAnswers(qs))
  {
    LastRecognisedWins(qs, i);
    ComprehensionInitialGood(qs[i], InitializeAnswers(qs));
  }

  lemma ComprehensionInitialGood(q: FormQuestion, a: AnswerMap)
    requires q.kind == "comprehension" && q.id in a && a[q.id] == InitialSlots(q)
    ensures ComprehensionInv(q, a)
  {
    AllEmptyIsSingleUse(a[q.id]);
  }

  /** A choice keeps the invariant and touches only its own sub-question. */
  lemma ChooseKeeps(q: FormQuestion, a: AnswerMap, sub: nat, option: string)
    requires ComprehensionInv(q, a) && ChoiceOffered(q, sub, option)
    ensures ComprehensionInv(q, Choose(q, a, sub, option))
    ensures forall n: nat :: n != sub ==> Lookup(Choose(q, a, sub, option), q.id, NatToDecimal(n)) == Lookup(a, q.id, NatToDecimal(n))
  {
    var r := Choose(q, a, sub, option);
    forall n: nat | n != sub ensures NatToDecimal(n) != NatToDecimal(sub) {
      NatToDecimalInjective(n, sub);
    }
  }
}

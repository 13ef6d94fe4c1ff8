/** The preview page's answer state (`FormPreview`): for each question id a
    map from slot key to what the respondent put there, "" meaning an empty
    slot. The page builds it in `initializeAnswers` and changes it only
    through `handleAnswerChange`; this module also holds the record the page
    reads questions from and the field fallbacks of the cloze panel. */
module Answers {
  import opened Outcomes
  import opened Strings
  import opened Seqs
  import opened Blanks
  import opened Questions
  import ClozeForm

  /** A question as the page receives it from the server. Every field but
      the id, the number and the type may be missing; the cloze panel also
      looks for its sentence and options under older field names. */
  datatype FormQuestion = FormQuestion(
    id: int, questionNo: int, kind: string,
    sentence: Option<string>, previewText: Option<string>, question: Option<string>,
    options: Option<seq<string>>, choices: Option<seq<string>>, answers: Option<seq<string>>,
    categories: Option<seq<string>>, items: Option<seq<Item>>,
    subQuestions: Option<seq<SubQuestion>>)

  /** One question's slots: blank ids, item names or sub-question indices. */
  type Slots = map<string, string>

  /** The whole answer state, keyed by question id. */
  type AnswerMap = map<int, Slots>

  /** A string field counts in a `||` chain only when present and non-empty. */
  predicate Truthy(o: Option<string>) {
    o.Some? && o.value != ""
  }

  /** `question.sentence || question.previewText || question.question || ""`. */
  function ClozeSentence(q: FormQuestion): (r: string)
    ensures r == "" <==> !Truthy(q.sentence) && !Truthy(q.previewText) && !Truthy(q.question)
    ensures Truthy(q.sentence) ==> r == q.sentence.value
    ensures !Truthy(q.sentence) && Truthy(q.previewText) ==> r == q.previewText.value
    ensures !Truthy(q.sentence) && !Truthy(q.previewText) && Truthy(q.question) ==> r == q.question.value
  {
    if Truthy(q.sentence) then q.sentence.value
    else if Truthy(q.previewText) then q.previewText.value
    else if Truthy(q.question) then q.question.value
    else ""
  }

  /** `question.options || question.choices || question.answers || []`: a
      list, even an empty one, is truthy, so the first present list wins. */
  function ClozeOptions(q: FormQuestion): (r: seq<string>)
    ensures q.options.Some? ==> r == q.options.value
    ensures q.options.None? && q.choices.Some? ==> r == q.choices.value
    ensures q.options.None? && q.choices.None? && q.answers.Some? ==> r == q.answers.value
    ensures q.options.None? && q.choices.None? && q.answers.None? ==> r == []
  {
    if q.options.Some? then q.options.value
    else if q.choices.Some? then q.choices.value
    else if q.answers.Some? then q.answers.value
    else []
  }

  /** Which of its three faces the cloze panel shows. */
  datatype ClozeView = SetupError | MissingOptions | Ready

  /** `!sentence || sentenceParts.length === 0` gives the setup error, then
      an empty option list the missing-options notice. */
  function ViewOf(q: FormQuestion): (v: ClozeView)
    ensures v == SetupError <==> ClozeSentence(q) == ""
    ensures v == MissingOptions <==> ClozeSentence(q) != "" && ClozeOptions(q) == []
  {
    var s := ClozeSentence(q);
    if s == "" || Parse(s) == [] then SetupError
    else if |ClozeOptions(q)| == 0 then MissingOptions
    else Ready
  }

  /** A sentence without any marker is shown as one text segment, with no
      blank to fill, and not as a setup error. */
  lemma UnmarkedSentenceIsReady(q: FormQuestion)
    requires ClozeSentence(q) != "" && ClozeOptions(q) != []
    requires GapFree(MarkerLens(PreviewMarkers, ClozeSentence(q)), 0, |ClozeSentence(q)|)
    ensures ViewOf(q) == Ready
    ensures Parse(ClozeSentence(q)) == [Text(ClozeSentence(q))]
    ensures PreviewBlankCount(ClozeSentence(q)) == 0
  {
    NoMarkerSingleText(ClozeSentence(q));
  }

  /** The record the server hands back for a question the builder stored:
      the editor's fields under their own names, nothing under the older
      ones. The cloze editor's fixed prompt travels as `question`. */
  function FromSaved(q: Question): (f: FormQuestion)
    ensures f.id == q.id && f.questionNo == q.questionNo && f.kind == q.kind
  {
    match q.data
    case Cloze(d) =>
      FormQuestion(q.id, q.questionNo, q.kind, Some(d.sentence), None, Some(d.prompt),
                   Some(d.options), None, None, None, None, None)
    case Categorize(d) =>
      FormQuestion(q.id, q.questionNo, q.kind, None, None, Some(d.question),
                   None, None, None, Some(d.categories), Some(d.items), None)
    case Comprehension(d) =>
      FormQuestion(q.id, q.questionNo, q.kind, None, None, None,
                   None, None, None, None, None, Some(d.subQuestions))
  }

  /** A cloze question the editor accepted reaches the respondent ready to
      fill: its own sentence and options are shown, never an error. */
  lemma AcceptedClozeIsReady(e: ClozeForm.Editor, c: bool, h: bool, id: int, no: int)
    requires ClozeForm.HandleSave(e, c, h).Ok?
    ensures var f := FromSaved(Question(id, no, "cloze", ClozeForm.HandleSave(e, c, h).value.data));
      && ClozeSentence(f) == e.sentence
      && ClozeOptions(f) == e.options
      && ViewOf(f) == Ready
  {
    assert e.sentence != "" by {
      assert !AllSpace(e.sentence);
    }
  }

  /** The three question types that get an entry. */
  predicate Recognised(kind: string) {
    kind == "categorize" || kind == "cloze" || kind == "comprehension"
  }

  /** A slot map built by setting each key in turn to "", as the
      initialisation loops do; a repeated key is set twice. */
  function SlotsFor(keys: seq<string>): (m: Slots)
    ensures m.Keys == set i | 0 <= i < |keys| :: keys[i]
    ensures forall k :: k in m ==> m[k] == ""
    decreases |keys|
  {
    if keys == [] then map[]
    else
      var m := SlotsFor(keys[..|keys| - 1]);
      assert forall i :: 0 <= i < |keys| - 1 ==> keys[..|keys| - 1][i] == keys[i];
      m[keys[|keys| - 1] := ""]
  }

  /** Each key holds one slot, so the map has one slot per key exactly when
      no key repeats. */
  lemma {:induction false} SlotsForSize(keys: seq<string>)
    ensures |SlotsFor(keys)| <= |keys|
    ensures |SlotsFor(keys)| == |keys| <==> NoDuplicates(keys)
    decreases |keys|
  {
    if keys != [] {
      var init := keys[..|keys| - 1];
      var x := keys[|keys| - 1];
      SlotsForSize(init);
      assert keys == init + [x];
      assert SlotsFor(keys) == SlotsFor(init)[x := ""];
      if x in init {
        var i :| 0 <= i < |init| && init[i] == x;
        assert SlotsFor(keys).Keys == SlotsFor(init).Keys;
        assert keys[i] == keys[|keys| - 1];
      } else {
        assert x !in SlotsFor(init);
        SnocNoDuplicates(init, x);
      }
    }
  }

  /** `blank_0`, ..., `blank_{k-1}`. */
  function BlankKeys(k: nat): (r: seq<string>)
    ensures |r| == k && NoDuplicates(r)
    ensures forall i :: 0 <= i < k ==> r[i] == BlankId(i)
  {
    var r := seq(k, i requires 0 <= i < k => BlankId(i));
    assert forall i, j :: 0 <= i < j < k ==> r[i] != r[j] by {
      forall i, j | 0 <= i < j < k ensures r[i] != r[j] {
        BlankIdInjective(i, j);
      }
    }
    r
  }

  /** The object keys `0`, ..., `n-1` of the sub-question slots, as
      strings. */
  function IndexKeys(n: nat): (r: seq<string>)
    ensures |r| == n && NoDuplicates(r)
    ensures forall i :: 0 <= i < n ==> r[i] == NatToDecimal(i)
  {
    var r := seq(n, i requires 0 <= i < n => NatToDecimal(i));
    assert forall i, j :: 0 <= i < j < n ==> r[i] != r[j] by {
      forall i, j | 0 <= i < j < n ensures r[i] != r[j] {
        NatToDecimalInjective(i, j);
      }
    }
    r
  }

  /** `item.name` of every item, in order. */
  function ItemNames(items: seq<Item>): (r: seq<string>)
    ensures |r| == |items| && forall i :: 0 <= i < |items| ==> r[i] == items[i].name
  {
    seq(|items|, i requires 0 <= i < |items| => items[i].name)
  }

  function ItemsOf(q: FormQuestion): seq<Item> {
    if q.items.Some? then q.items.value else []
  }

  function SubQuestionsOf(q: FormQuestion): seq<SubQuestion> {
    if q.subQuestions.Some? then q.subQuestions.value else []
  }

  function CategoriesOf(q: FormQuestion): seq<string> {
    if q.categories.Some? then q.categories.value else []
  }

  /** The number of blanks the cloze panel shows for `q`. */
  function BlankCount(q: FormQuestion): nat {
    PreviewBlankCount(ClozeSentence(q))
  }

  /** The slot keys one recognised question starts with. */
  function SlotKeys(q: FormQuestion): (r: seq<string>)
    requires Recognised(q.kind)
  {
    if q.kind == "categorize" then ItemNames(ItemsOf(q))
    else if q.kind == "cloze" then BlankKeys(BlankCount(q))
    else IndexKeys(|SubQuestionsOf(q)|)
  }

  /** One question's entry in `initializeAnswers`. */
  function InitialSlots(q: FormQuestion): (m: Slots)
    requires Recognised(q.kind)
    ensures forall k :: k in m ==> m[k] == ""
  {
    SlotsFor(SlotKeys(q))
  }

  /** `initializeAnswers(questions)`: one entry per id of a recognised
      question, every slot "". */
  function InitializeAnswers(qs: seq<FormQuestion>): (a: AnswerMap)
    ensures forall id :: id in a <==> exists i :: 0 <= i < |qs| && qs[i].id == id && Recognised(qs[i].kind)
    ensures forall id, k :: id in a && k in a[id] ==> a[id][k] == ""
    decreases |qs|
  {
    if qs == [] then map[]
    else
      var init := qs[..|qs| - 1];
      var q := qs[|qs| - 1];
      var a := InitializeAnswers(init);
      assert forall i :: 0 <= i < |init| ==> init[i] == qs[i];
      if Recognised(q.kind) then a[q.id := InitialSlots(q)] else a
  }

  /** A later recognised question with the same id replaces the entry of an
      earlier one; the last one wins. */
  lemma {:induction false} LastRecognisedWins(qs: seq<FormQuestion>, i: nat)
    requires i < |qs| && Recognised(qs[i].kind)
    requires forall j :: i < j < |qs| && qs[j].id == qs[i].id ==> !Recognised(qs[j].kind)
    ensures qs[i].id in InitializeAnswers(qs)
    ensures InitializeAnswers(qs)[qs[i].id] == InitialSlots(qs[i])
    decreases |qs|
  {
    if i < |qs| - 1 {
      var init := qs[..|qs| - 1];
      assert init[i] == qs[i];
      LastRecognisedWins(init, i);
    }
  }

  /** The cloze entry has exactly the ids of the blanks the panel renders
      for the same sentence, one slot per blank. */
  lemma ClozeSlotsAreTheBlanks(q: FormQuestion)
    requires q.kind == "cloze"
    ensures var m := InitialSlots(q);
      var segs := Parse(ClozeSentence(q));
      && (forall key :: key in m <==> exists j :: 0 <= j < |segs| && segs[j].Blank? && key == BlankId(segs[j].index))
      && |m| == CountBlanks(segs)
  {
    var segs := Parse(ClozeSentence(q));
    var k := BlankCount(q);
    var keys := BlankKeys(k);
    var m := InitialSlots(q);
    assert m == SlotsFor(keys);
    SlotsForSize(keys);
    forall key | key in m
      ensures exists j :: 0 <= j < |segs| && segs[j].Blank? && key == BlankId(segs[j].index)
    {
      var i :| 0 <= i < k && keys[i] == key;
      assert BlankIndices(segs)[i] == i;
      BlankIndexAt(segs, i);
    }
    forall j | 0 <= j < |segs| && segs[j].Blank?
      ensures BlankId(segs[j].index) in m
    {
      BlankIndexIn(segs, j);
      var t :| 0 <= t < |BlankIndices(segs)| && BlankIndices(segs)[t] == segs[j].index;
      assert Range(0, k)[t] == t;
      assert keys[t] == BlankId(t);
    }
  }

  /** Position `n` of `BlankIndices(segs)` comes from some blank segment. */
  lemma {:induction false} BlankIndexAt(segs: seq<Segment>, n: nat)
    requires n < |BlankIndices(segs)|
    ensures exists j :: 0 <= j < |segs| && segs[j].Blank? && segs[j].index == BlankIndices(segs)[n]
    decreases |segs|
  {
    if segs[0].Blank? && n == 0 {
      assert BlankIndices(segs)[0] == segs[0].index;
    } else {
      var n' := if segs[0].Blank? then n - 1 else n;
      BlankIndexAt(segs[1..], n');
      var j :| 0 <= j < |segs[1..]| && segs[1..][j].Blank? && segs[1..][j].index == BlankIndices(segs[1..])[n'];
      assert segs[j + 1] == segs[1..][j];
    }
  }

  /** Every blank segment's index occurs in `BlankIndices(segs)`. */
  lemma {:induction false} BlankIndexIn(segs: seq<Segment>, j: nat)
    requires j < |segs| && segs[j].Blank?
    ensures segs[j].index in BlankIndices(segs)
    decreases |segs|
  {
    if j > 0 {
      BlankIndexIn(segs[1..], j - 1);
      assert segs[1..][j - 1] == segs[j];
    }
  }

  /** Categorize slots are keyed by item name: one per distinct name, so
      items sharing a name share a slot. */
  lemma CategorizeSlotsAreTheNames(q: FormQuestion)
    requires q.kind == "categorize"
    ensures var m := InitialSlots(q);
      && (forall key :: key in m <==> exists j :: 0 <= j < |ItemsOf(q)| && ItemsOf(q)[j].name == key)
      && |m| <= |ItemsOf(q)|
      && (|m| == |ItemsOf(q)| <==> NoDuplicates(ItemNames(ItemsOf(q))))
  {
    SlotsForSize(ItemNames(ItemsOf(q)));
  }

  /** Comprehension slots are keyed by the decimal sub-question index, one
      per sub-question. */
  lemma ComprehensionSlotsAreTheIndices(q: FormQuestion)
    requires q.kind == "comprehension"
    ensures var m := InitialSlots(q);
      && (forall n: nat :: NatToDecimal(n) in m <==> n < |SubQuestionsOf(q)|)
      && |m| == |SubQuestionsOf(q)|
  {
    var n := |SubQuestionsOf(q)|;
    var keys := IndexKeys(n);
    assert InitialSlots(q) == SlotsFor(keys);
    SlotsForSize(keys);
    forall x: nat | NatToDecimal(x) in InitialSlots(q) ensures x < n {
      var i :| 0 <= i < n && keys[i] == NatToDecimal(x);
      NatToDecimalInjective(i, x);
    }
    forall x: nat | x < n ensures NatToDecimal(x) in InitialSlots(q) {
      assert keys[x] == NatToDecimal(x);
    }
  }

  /** `answers[questionId] || {}`. */
  function Current(a: AnswerMap, id: int): Slots {
    if id in a then a[id] else map[]
  }

  /** `answers[questionId]?.[key] || ""`. */
  function Lookup(a: AnswerMap, id: int, key: string): string {
    var m := Current(a, id);
    if key in m then m[key] else ""
  }

  /** `handleAnswerChange(questionId, subKey, value)`: a fresh outer map
      whose entry for `questionId` is its old slots (or none) with `subKey`
      set to `value`. */
  function AnswerChange(a: AnswerMap, id: int, key: string, value: string): (r: AnswerMap)
    ensures r.Keys == a.Keys + {id}
    ensures r[id].Keys == Current(a, id).Keys + {key}
    ensures Lookup(r, id, key) == value
    ensures forall k :: k != key ==> Lookup(r, id, k) == Lookup(a, id, k)
    ensures forall other :: other != id && other in a ==> r[other] == a[other]
  {
    a[id := Current(a, id)[key := value]]
  }

  /** Clearing a slot is the same change with "". */
  function ClearSlot(a: AnswerMap, id: int, key: string): (r: AnswerMap)
    ensures r == AnswerChange(a, id, key, "")
    ensures Lookup(r, id, key) == ""
  {
    AnswerChange(a, id, key, "")
  }

  /** A second change of the same slot overrides the first. */
  lemma ChangeOverwrites(a: AnswerMap, id: int, key: string, v: string, w: string)
    ensures AnswerChange(AnswerChange(a, id, key, v), id, key, w) == AnswerChange(a, id, key, w)
  {
    var c := Current(a, id);
    assert c[key := v][key := w] == c[key := w];
  }

  /** Changes of two different slots do not interfere: either order gives
      the same state. */
  lemma ChangesCommute(a: AnswerMap, id1: int, key1: string, v1: string, id2: int, key2: string, v2: string)
    requires id1 != id2 || key1 != key2
    ensures AnswerChange(AnswerChange(a, id1, key1, v1), id2, key2, v2)
         == AnswerChange(AnswerChange(a, id2, key2, v2), id1, key1, v1)
  {
    if id1 == id2 {
      SameQuestionCommute(a, id1, key1, v1, key2, v2);
    } else {
      OtherQuestionsCommute(a, id1, key1, v1, id2, key2, v2);
    }
  }

  lemma SameQuestionCommute(a: AnswerMap, id: int, key1: string, v1: string, key2: string, v2: string)
    requires key1 != key2
    ensures AnswerChange(AnswerChange(a, id, key1, v1), id, key2, v2)
         == AnswerChange(AnswerChange(a, id, key2, v2), id, key1, v1)
  {
    var c := Current(a, id);
    var both := c[key1 := v1][key2 := v2];
    var left := AnswerChange(a, id, key1, v1);
    var right := AnswerChange(a, id, key2, v2);
    assert AnswerChange(left, id, key2, v2) == a[id := both] by {
      assert Current(left, id) == c[key1 := v1];
    }
    assert AnswerChange(right, id, key1, v1) == a[id := both] by {
      assert Current(right, id) == c[key2 := v2];
      UpdatesCommute(c, key1, v1, key2, v2);
    }
  }

  /** Two updates of different keys of one map can be made in either
      order. */
  lemma UpdatesCommute<K, V>(m: map<K, V>, k1: K, v1: V, k2: K, v2: V)
    requires k1 != k2
    ensures m[k1 := v1][k2 := v2] == m[k2 := v2][k1 := v1]
  {
  }

  lemma OtherQuestionsCommute(a: AnswerMap, id1: int, key1: string, v1: string, id2: int, key2: string, v2: string)
    requires id1 != id2
    ensures AnswerChange(AnswerChange(a, id1, key1, v1), id2, key2, v2)
         == AnswerChange(AnswerChange(a, id2, key2, v2), id1, key1, v1)
  {
    var c1 := Current(a, id1)[key1 := v1];
    var c2 := Current(a, id2)[key2 := v2];
    var left := AnswerChange(a, id1, key1, v1);
    var right := AnswerChange(a, id2, key2, v2);
    assert left == a[id1 := c1];
    assert right == a[id2 := c2];
    assert Current(left, id2) == Current(a, id2);
    assert Current(right, id1) == Current(a, id1);
    assert AnswerChange(left, id2, key2, v2) == a[id1 := c1][id2 := c2];
    assert AnswerChange(right, id1, key1, v1) == a[id2 := c2][id1 := c1];
    UpdatesCommute(a, id1, c1, id2, c2);
  }

  /** Writing back what an existing slot already holds changes nothing. */
  lemma ChangeToSameIsNoOp(a: AnswerMap, id: int, key: string)
    requires id in a && key in a[id]
    ensures AnswerChange(a, id, key, a[id][key]) == a
  {
    assert a[id][key := a[id][key]] == a[id];
  }

  /** Clearing a slot that was empty before a fill undoes the fill. */
  lemma ClearUndoesFill(a: AnswerMap, id: int, key: string, v: string)
    requires id in a && key in a[id] && a[id][key] == ""
    ensures ClearSlot(AnswerChange(a, id, key, v), id, key) == a
  {
    assert a[id][key := v][key := ""] == a[id];
  }

  /** The slots holding something: `Object.values(...).filter(v => v !== "")`
      counts one value per such key. */
  function FilledKeys(m: Slots): (r: set<string>)
    ensures r <= m.Keys
    ensures forall k :: k in r <==> k in m && m[k] != ""
  {
    set k | k in m && m[k] != ""
  }

  function FilledCount(m: Slots): nat {
    |FilledKeys(m)|
  }

  /** The values in use, which `usedOptions.includes(option)` tests. */
  function UsedValues(m: Slots): (r: set<string>)
    ensures forall v :: v in r <==> exists k :: k in m && m[k] != "" && m[k] == v
  {
    set k | k in m && m[k] != "" :: m[k]
  }

  /** Right after initialisation nothing is filled and nothing is in use. */
  lemma NothingFilledAtStart(qs: seq<FormQuestion>, id: int)
    requires id in InitializeAnswers(qs)
    ensures FilledCount(InitializeAnswers(qs)[id]) == 0
    ensures UsedValues(InitializeAnswers(qs)[id]) == {}
  {
    assert FilledKeys(InitializeAnswers(qs)[id]) == {};
  }
}

/** Blank markers in a cloze sentence and the preview's `parseSentence`.

    Two marker grammars are in use. The preview (and the answer-map
    initialisation) recognises `_____` (exactly five underscores),
    `[blank]`, and `[` followed by one or more underscores and `]`. The
    cloze editor's save-time counter recognises only the first two. Both
    scan the sentence globally, left to right: the earliest position where
    a marker starts wins, and the scan resumes right after it. The three
    alternatives differ in their first two characters, so at most one of
    them can start at any position and their order does not matter. */
module Blanks {
  import opened Strings

  datatype Grammar =
    | PreviewMarkers  // `_____`, `[blank]` or `[` `_`+ `]`
    | SaveMarkers     // `_____` or `[blank]` only

  const Underscores: string := "_____"
  const BlankToken: string := "[blank]"

  /** `t` occurs in `s` starting at position `p`. */
  predicate HasAt(s: string, p: nat, t: string) {
    p + |t| <= |s| && s[p..p + |t|] == t
  }

  /** The end of the run of underscores that starts at `q`. */
  function UnderscoreRunEnd(s: string, q: nat): (e: nat)
    requires q <= |s|
    ensures q <= e <= |s|
    ensures forall i :: q <= i < e ==> s[i] == '_'
    ensures e == |s| || s[e] != '_'
    decreases |s| - q
  {
    if q < |s| && s[q] == '_' then UnderscoreRunEnd(s, q + 1) else q
  }

  /** The length of a `[` `_`+ `]` match at `p`, or 0. The underscore run is
      taken greedily; giving back underscores never helps, because the
      character after a shorter run is another underscore, not `]`. */
  function BracketedLen(s: string, p: nat): (n: nat)
    requires p <= |s|
    ensures p + n <= |s|
  {
    if p < |s| && s[p] == '[' then
      var e := UnderscoreRunEnd(s, p + 1);
      if e > p + 1 && e < |s| && s[e] == ']' then e + 1 - p else 0
    else
      0
  }

  /** The length of the marker of grammar `g` that starts at `p`, or 0 when
      none does. */
  function MarkerLen(g: Grammar, s: string, p: nat): (n: nat)
    requires p <= |s|
    ensures p + n <= |s|
  {
    if HasAt(s, p, Underscores) then 5
    else if HasAt(s, p, BlankToken) then 7
    else if g == PreviewMarkers then BracketedLen(s, p)
    else 0
  }

  /** The strings grammar `g` accepts as one marker. */
  predicate IsMarker(g: Grammar, t: string) {
    || t == Underscores
    || t == BlankToken
    || (&& g == PreviewMarkers && |t| >= 3 && t[0] == '[' && t[|t| - 1] == ']'
        && forall i :: 1 <= i < |t| - 1 ==> t[i] == '_')
  }

  /** What the scanner matches at a position is a marker of the grammar. */
  lemma MatchedTextIsMarker(g: Grammar, s: string, p: nat)
    requires p <= |s| && MarkerLen(g, s, p) > 0
    ensures IsMarker(g, s[p..p + MarkerLen(g, s, p)])
  {
    var n := MarkerLen(g, s, p);
    if !HasAt(s, p, Underscores) && !HasAt(s, p, BlankToken) {
      var t := s[p..p + n];
      assert forall i :: 1 <= i < |t| - 1 ==> t[i] == s[p + i];
    }
  }

  /** A run of underscores from `q` that stops at `e` ends at `e`. */
  lemma {:induction false} RunEndsAt(s: string, q: nat, e: nat)
    requires q <= e <= |s|
    requires forall i :: q <= i < e ==> s[i] == '_'
    requires e == |s| || s[e] != '_'
    ensures UnderscoreRunEnd(s, q) == e
    decreases e - q
  {
    if q < e {
      RunEndsAt(s, q + 1, e);
    }
  }

  /** Where `[blank]` stands, the marker is seven characters long. */
  lemma BlankTokenAt(g: Grammar, s: string, p: nat)
    requires HasAt(s, p, BlankToken)
    ensures MarkerLen(g, s, p) == 7
  {
    assert s[p] == s[p..p + 7][0] == '[';
    if p + 5 <= |s| {
      assert s[p..p + 5][0] == s[p];
    }
  }

  /** At `[_` only the bracketed form can match: the preview takes the
      bracketed length there and the save-time counter finds nothing. */
  lemma BracketAt(s: string, p: nat)
    requires p + 1 < |s| && s[p] == '[' && s[p + 1] == '_'
    ensures MarkerLen(PreviewMarkers, s, p) == BracketedLen(s, p)
    ensures MarkerLen(SaveMarkers, s, p) == 0
  {
    if p + 5 <= |s| {
      assert s[p..p + 5][0] == s[p];
    }
    if p + 7 <= |s| {
      assert s[p..p + 7][1] == s[p + 1];
    }
  }

  /** A position holding neither `_` nor `[` starts no marker, and neither
      does an underscore run too short for `_____`. */
  lemma NoMarkerAt(g: Grammar, s: string, p: nat)
    requires p < |s|
    requires (s[p] != '_' && s[p] != '[') || (s[p] == '_' && !HasAt(s, p, Underscores))
    ensures MarkerLen(g, s, p) == 0
  {
    if s[p] != '_' && p + 5 <= |s| {
      assert s[p..p + 5][0] == s[p];
    }
    if s[p] != '[' && p + 7 <= |s| {
      assert s[p..p + 7][0] == s[p];
    }
  }

  /** One marker occurrence: where it starts and how long it is. */
  datatype Match = Match(start: nat, len: nat)

  function End(m: Match): nat {
    m.start + m.len
  }

  /** A table of marker lengths, one entry per position of a sentence
      (0 where no marker starts), in which every marker ends inside the
      sentence. The scan and its specification below read only this table. */
  predicate Fits(lens: seq<nat>) {
    forall p :: 0 <= p < |lens| ==> p + lens[p] <= |lens|
  }

  /** What the regular expression finds when it is tried at each position
      of `s`. */
  function MarkerLens(g: Grammar, s: string): (lens: seq<nat>)
    ensures |lens| == |s| && Fits(lens)
    ensures forall p :: 0 <= p < |s| ==> lens[p] == MarkerLen(g, s, p)
  {
    seq(|s|, p requires 0 <= p < |s| => MarkerLen(g, s, p))
  }

  /** No marker starts anywhere in `[a, b)`. */
  predicate GapFree(lens: seq<nat>, a: nat, b: nat)
    requires b <= |lens|
  {
    forall p :: a <= p < b ==> lens[p] == 0
  }

  /** The specification of a global left-to-right search from `from`:
      each match is a marker, none overlaps the previous one, no marker
      starts in the gap before a match, and none starts after the last. */
  predicate Leftmost(lens: seq<nat>, ms: seq<Match>, from: nat)
    requires from <= |lens|
    decreases |ms|
  {
    if ms == [] then
      GapFree(lens, from, |lens|)
    else
      var m := ms[0];
      && from <= m.start < |lens|
      && 0 < m.len
      && End(m) <= |lens|
      && lens[m.start] == m.len
      && GapFree(lens, from, m.start)
      && Leftmost(lens, ms[1..], End(m))
  }

  /** The scan itself, as `RegExp.prototype.exec` with the `g` flag runs
      it: try a marker at `p`; on success record it and continue after it,
      otherwise move one character on. */
  function ScanFrom(lens: seq<nat>, p: nat): (ms: seq<Match>)
    requires p <= |lens| && Fits(lens)
    decreases |lens| - p
  {
    if p == |lens| then []
    else if lens[p] > 0 then [Match(p, lens[p])] + ScanFrom(lens, p + lens[p])
    else ScanFrom(lens, p + 1)
  }

  /** All marker occurrences of `g` in `s`, in order. */
  function Matches(g: Grammar, s: string): seq<Match> {
    ScanFrom(MarkerLens(g, s), 0)
  }

  /** The scan meets the specification of a leftmost search. */
  lemma {:induction false} ScanIsLeftmost(lens: seq<nat>, p: nat)
    requires p <= |lens| && Fits(lens)
    ensures Leftmost(lens, ScanFrom(lens, p), p)
    decreases |lens| - p
  {
    if p < |lens| {
      if lens[p] > 0 {
        var rest := ScanFrom(lens, p + lens[p]);
        ScanIsLeftmost(lens, p + lens[p]);
        assert ([Match(p, lens[p])] + rest)[1..] == rest;
      } else {
        ScanIsLeftmost(lens, p + 1);
      }
    }
  }

  /** Only the scan meets that specification: any list of matches that
      satisfies `Leftmost` is the scan's list. */
  lemma {:induction false} LeftmostIsScan(lens: seq<nat>, ms: seq<Match>, p: nat)
    requires p <= |lens| && Fits(lens) && Leftmost(lens, ms, p)
    ensures ms == ScanFrom(lens, p)
    decreases |lens| - p
  {
    if p < |lens| {
      if lens[p] > 0 {
        assert ms != [] && ms[0].start == p;
        LeftmostIsScan(lens, ms[1..], p + lens[p]);
        assert ms == [ms[0]] + ms[1..];
      } else {
        assert Leftmost(lens, ms, p + 1);
        LeftmostIsScan(lens, ms, p + 1);
      }
    }
  }

  /** A sentence has no marker at all exactly when the scan finds none. */
  lemma NoMatchesIffGapFree(g: Grammar, s: string)
    ensures Matches(g, s) == [] <==> GapFree(MarkerLens(g, s), 0, |s|)
  {
    ScanIsLeftmost(MarkerLens(g, s), 0);
    if GapFree(MarkerLens(g, s), 0, |s|) {
      LeftmostIsScan(MarkerLens(g, s), [], 0);
    }
  }

  /** The blank count the preview shows and the answer map is sized by. */
  function PreviewBlankCount(s: string): nat {
    |Matches(PreviewMarkers, s)|
  }

  /** `(sentence.match(/(_____|\[blank\])/g) || []).length` in the cloze
      editor. */
  function SaveBlankCount(s: string): nat {
    |Matches(SaveMarkers, s)|
  }

  /** One piece of a parsed sentence. */
  datatype Segment =
    | Text(content: string)
    | Blank(index: nat)

  /** `blank_${index}`: the answer-map key of a blank. */
  function BlankId(index: nat): string {
    "blank_" + NatToDecimal(index)
  }

  lemma BlankIdInjective(i: nat, j: nat)
    ensures BlankId(i) == BlankId(j) ==> i == j
  {
    if BlankId(i) == BlankId(j) {
      assert NatToDecimal(i) == BlankId(i)[6..];
      assert NatToDecimal(j) == BlankId(j)[6..];
      NatToDecimalInjective(i, j);
    }
  }

  function CountBlanks(segs: seq<Segment>): nat {
    if segs == [] then 0
    else (if segs[0].Blank? then 1 else 0) + CountBlanks(segs[1..])
  }

  /** The indices the blank segments carry, left to right. */
  function BlankIndices(segs: seq<Segment>): seq<nat> {
    if segs == [] then []
    else (if segs[0].Blank? then [segs[0].index] else []) + BlankIndices(segs[1..])
  }

  /** `k, k + 1, ..., k + n - 1`. */
  function Range(k: nat, n: nat): (r: seq<nat>)
    ensures |r| == n && forall i :: 0 <= i < n ==> r[i] == k + i
  {
    seq(n, i requires 0 <= i < n => k + i)
  }

  predicate TextsNonEmpty(segs: seq<Segment>) {
    forall j :: 0 <= j < |segs| && segs[j].Text? ==> segs[j].content != ""
  }

  predicate NoAdjacentTexts(segs: seq<Segment>) {
    forall j :: 0 <= j < |segs| - 1 ==> !(segs[j].Text? && segs[j + 1].Text?)
  }

  /** Matches in increasing, non-overlapping order from `from`, each inside
      a string of length `n`: what the assembling loop relies on. */
  predicate Ordered(n: nat, ms: seq<Match>, from: nat)
    decreases |ms|
  {
    ms == [] || (from <= ms[0].start && 0 < ms[0].len && End(ms[0]) <= n && Ordered(n, ms[1..], End(ms[0])))
  }

  lemma {:induction false} LeftmostOrdered(lens: seq<nat>, ms: seq<Match>, from: nat)
    requires from <= |lens| && Leftmost(lens, ms, from)
    ensures Ordered(|lens|, ms, from)
    decreases |ms|
  {
    if ms != [] {
      LeftmostOrdered(lens, ms[1..], End(ms[0]));
    }
  }

  /** The body of the `while ((match = blankPattern.exec(sentence)))` loop:
      `last` is `lastIndex` and `k` is `blankIndex`. Text before a match is
      emitted only when it is non-empty, and the text after the last match
      only when some remains. */
  function Assemble(s: string, ms: seq<Match>, last: nat, k: nat): (r: seq<Segment>)
    requires last <= |s| && Ordered(|s|, ms, last)
    ensures CountBlanks(r) == |ms|
    ensures BlankIndices(r) == Range(k, |ms|)
    ensures TextsNonEmpty(r)
    ensures NoAdjacentTexts(r)
    ensures r == [] <==> last == |s| && ms == []
    decreases |ms|
  {
    if ms == [] then
      if last < |s| then [Text(s[last..])] else []
    else
      var m := ms[0];
      var rest := Assemble(s, ms[1..], End(m), k + 1);
      var tail := [Blank(k)] + rest;
      assert Range(k, |ms|) == [k] + Range(k + 1, |ms| - 1);
      ConsSegment(Blank(k), rest);
      ConsShape(Blank(k), rest);
      if m.start > last then
        var t := s[last..m.start];
        ConsSegment(Text(t), tail);
        ConsShape(Text(t), tail);
        [Text(t)] + tail
      else
        tail
  }

  /** Counting and listing blanks over one more segment at the front. */
  lemma ConsSegment(x: Segment, c: seq<Segment>)
    ensures CountBlanks([x] + c) == (if x.Blank? then 1 else 0) + CountBlanks(c)
    ensures BlankIndices([x] + c) == (if x.Blank? then [x.index] else []) + BlankIndices(c)
  {
    assert ([x] + c)[1..] == c;
  }

  /** A blank, or a non-empty text before a blank, keeps texts non-empty
      and apart. */
  lemma ConsShape(x: Segment, c: seq<Segment>)
    requires x.Blank? || (x.content != "" && c != [] && c[0].Blank?)
    ensures TextsNonEmpty(c) ==> TextsNonEmpty([x] + c)
    ensures NoAdjacentTexts(c) ==> NoAdjacentTexts([x] + c)
  {
    var t := [x] + c;
    assert forall j :: 1 <= j < |t| ==> t[j] == c[j - 1];
  }

  /** `parseSentence`: a falsy (empty) sentence gives no segments; otherwise
      the gaps between markers become text segments and each marker a blank,
      numbered from 0 left to right. */
  function Parse(sentence: string): (r: seq<Segment>)
    ensures r == [] <==> sentence == ""
    ensures CountBlanks(r) == PreviewBlankCount(sentence)
    ensures BlankIndices(r) == Range(0, PreviewBlankCount(sentence))
    ensures TextsNonEmpty(r) && NoAdjacentTexts(r)
  {
    if sentence == "" then []
    else
      var lens := MarkerLens(PreviewMarkers, sentence);
      ScanIsLeftmost(lens, 0);
      LeftmostOrdered(lens, Matches(PreviewMarkers, sentence), 0);
      Assemble(sentence, Matches(PreviewMarkers, sentence), 0, 0)
  }

  /** The text of each match, in order (a match past the end of `s`, which
      the scan never produces, reads as ""). */
  function MarkerTexts(s: string, ms: seq<Match>): seq<string> {
    seq(|ms|, i requires 0 <= i < |ms| =>
      if End(ms[i]) <= |s| then s[ms[i].start..End(ms[i])] else "")
  }

  /** Puts a sentence back together: each blank is replaced by the next of
      `fills` (or by nothing once they run out). */
  function Unparse(segs: seq<Segment>, fills: seq<string>): string {
    if segs == [] then ""
    else match segs[0]
      case Text(c) => c + Unparse(segs[1..], fills)
      case Blank(_) =>
        if fills == [] then Unparse(segs[1..], fills)
        else fills[0] + Unparse(segs[1..], fills[1..])
  }

  lemma UnparseText(c: string, rest: seq<Segment>, fills: seq<string>)
    ensures Unparse([Text(c)] + rest, fills) == c + Unparse(rest, fills)
  {
    assert ([Text(c)] + rest)[1..] == rest;
  }

  lemma UnparseBlank(k: nat, rest: seq<Segment>, fills: seq<string>)
    requires fills != []
    ensures Unparse([Blank(k)] + rest, fills) == fills[0] + Unparse(rest, fills[1..])
  {
    assert ([Blank(k)] + rest)[1..] == rest;
  }

  /** Re-inserting the matched markers at the blanks gives back the part of
      the sentence from `last` on. */
  lemma {:induction false} AssembleRoundTrip(s: string, ms: seq<Match>, last: nat, k: nat)
    requires last <= |s| && Ordered(|s|, ms, last)
    ensures Unparse(Assemble(s, ms, last, k), MarkerTexts(s, ms)) == s[last..]
    decreases |ms|
  {
    var fills := MarkerTexts(s, ms);
    if ms == [] {
      if last < |s| {
        UnparseText(s[last..], [], []);
      }
    } else {
      var m := ms[0];
      var rest := Assemble(s, ms[1..], End(m), k + 1);
      var tail := [Blank(k)] + rest;
      assert Unparse(tail, fills) == s[m.start..] by {
        AssembleRoundTrip(s, ms[1..], End(m), k + 1);
        MarkerTextsTail(s, ms);
        UnparseBlank(k, rest, fills);
        assert fills[0] == s[m.start..End(m)];
        SliceJoin(s, m.start, End(m));
      }
      AssembleStep(s, ms, last, k);
      if m.start > last {
        UnparseText(s[last..m.start], tail, fills);
        SliceJoin(s, last, m.start);
      }
    }
  }

  lemma SliceJoin(s: string, i: nat, j: nat)
    requires i <= j <= |s|
    ensures s[i..j] + s[j..] == s[i..]
  {
  }

  /** One turn of the loop: the gap before the first match (if any), its
      blank, then the rest. */
  lemma AssembleStep(s: string, ms: seq<Match>, last: nat, k: nat)
    requires last <= |s| && Ordered(|s|, ms, last) && ms != []
    ensures var m := ms[0];
      var tail := [Blank(k)] + Assemble(s, ms[1..], End(m), k + 1);
      Assemble(s, ms, last, k) == if m.start > last then [Text(s[last..m.start])] + tail else tail
  {
  }

  /** The marker texts of a sentence, in order. */
  function SentenceMarkers(s: string): seq<string> {
    MarkerTexts(s, Matches(PreviewMarkers, s))
  }

  lemma {:induction false} OrderedMarkers(g: Grammar, s: string, ms: seq<Match>, from: nat)
    requires from <= |s| && Leftmost(MarkerLens(g, s), ms, from)
    ensures forall i :: 0 <= i < |ms| ==>
      End(ms[i]) <= |s| && IsMarker(g, MarkerTexts(s, ms)[i])
    decreases |ms|
  {
    if ms != [] {
      var rest := ms[1..];
      OrderedMarkers(g, s, rest, End(ms[0]));
      FirstMarker(g, s, ms, from);
      MarkerTextsTail(s, ms);
      var texts := MarkerTexts(s, ms);
      forall i | 1 <= i < |ms| ensures End(ms[i]) <= |s| && IsMarker(g, texts[i]) {
        assert ms[i] == rest[i - 1];
        assert texts[i] == texts[1..][i - 1];
      }
    }
  }

  /** Dropping the first match drops the first marker text. */
  lemma MarkerTextsTail(s: string, ms: seq<Match>)
    requires ms != []
    ensures MarkerTexts(s, ms)[1..] == MarkerTexts(s, ms[1..])
  {
  }

  /** The first match of a leftmost search is a marker inside `s`. */
  lemma FirstMarker(g: Grammar, s: string, ms: seq<Match>, from: nat)
    requires from <= |s| && Leftmost(MarkerLens(g, s), ms, from) && ms != []
    ensures End(ms[0]) <= |s| && IsMarker(g, MarkerTexts(s, ms)[0])
  {
    MatchedTextIsMarker(g, s, ms[0].start);
    assert MarkerTexts(s, ms)[0] == s[ms[0].start..ms[0].start + MarkerLen(g, s, ms[0].start)];
  }

  /** Text segments are exactly the gaps between the markers: putting each
      matched marker back at its blank reproduces the sentence, and there is
      one marker per blank, each a marker of the preview grammar. */
  lemma ParseRoundTrip(s: string)
    ensures |SentenceMarkers(s)| == CountBlanks(Parse(s))
    ensures forall i :: 0 <= i < |SentenceMarkers(s)| ==> IsMarker(PreviewMarkers, SentenceMarkers(s)[i])
    ensures Unparse(Parse(s), SentenceMarkers(s)) == s
  {
    var lens := MarkerLens(PreviewMarkers, s);
    var ms := Matches(PreviewMarkers, s);
    ScanIsLeftmost(lens, 0);
    LeftmostOrdered(lens, ms, 0);
    OrderedMarkers(PreviewMarkers, s, ms, 0);
    if s != "" {
      AssembleRoundTrip(s, ms, 0, 0);
    }
  }

  /** A sentence parses to no blank exactly when it contains no marker, and
      a non-empty sentence without any marker parses to one text segment
      holding the whole sentence. */
  lemma NoMarkerSingleText(s: string)
    ensures CountBlanks(Parse(s)) == 0 <==> GapFree(MarkerLens(PreviewMarkers, s), 0, |s|)
    ensures s != "" && GapFree(MarkerLens(PreviewMarkers, s), 0, |s|) ==> Parse(s) == [Text(s)]
  {
    NoMatchesIffGapFree(PreviewMarkers, s);
  }
}

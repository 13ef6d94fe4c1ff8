/** Worked inputs for the two blank counters. Each one pins down an edge of
    the marker grammar: exactly five underscores per `_____` marker, the
    bracketed form only the preview knows, adjacent markers, and a sentence
    on which the two counters disagree in both directions. */
module BlankExamples {
  import opened Blanks

  /** Seven underscores are one blank followed by the text `__`. */
  lemma SevenUnderscores()
    ensures Parse("_______") == [Blank(0), Text("__")]
  {
    var s := "_______";
    var lens := MarkerLens(PreviewMarkers, s);
    assert HasAt(s, 0, Underscores);
    NoMarkerAt(PreviewMarkers, s, 5);
    NoMarkerAt(PreviewMarkers, s, 6);
    assert ScanFrom(lens, 7) == [];
    assert ScanFrom(lens, 6) == [];
    assert ScanFrom(lens, 5) == [];
    assert Matches(PreviewMarkers, s) == [Match(0, 5)];
    assert s[5..] == "__";
  }

  /** Ten underscores are two blanks, not one long blank. */
  lemma TenUnderscores()
    ensures Parse("__________") == [Blank(0), Blank(1)]
  {
    var s := "__________";
    var lens := MarkerLens(PreviewMarkers, s);
    assert HasAt(s, 0, Underscores);
    assert HasAt(s, 5, Underscores);
    assert ScanFrom(lens, 10) == [];
    assert Matches(PreviewMarkers, s) == [Match(0, 5), Match(5, 5)];
  }

  /** Adjacent markers give adjacent blanks with no text between them. */
  lemma AdjacentMarkers()
    ensures Parse("[blank][blank]") == [Blank(0), Blank(1)]
  {
    var s := "[blank][blank]";
    var lens := MarkerLens(PreviewMarkers, s);
    BlankTokenAt(PreviewMarkers, s, 0);
    BlankTokenAt(PreviewMarkers, s, 7);
    assert ScanFrom(lens, 14) == [];
    assert Matches(PreviewMarkers, s) == [Match(0, 7), Match(7, 7)];
  }

  /** `[__]` is a blank to the preview but not to the save-time counter. */
  lemma BracketedOnlyInPreview()
    ensures Parse("[__]") == [Blank(0)]
    ensures SaveBlankCount("[__]") == 0
  {
    var s := "[__]";
    RunEndsAt(s, 1, 3);
    BracketAt(s, 0);
    var lens := MarkerLens(PreviewMarkers, s);
    assert lens[0] == 4;
    assert ScanFrom(lens, 4) == [];
    var slens := MarkerLens(SaveMarkers, s);
    NoMarkerAt(SaveMarkers, s, 1);
    NoMarkerAt(SaveMarkers, s, 2);
    NoMarkerAt(SaveMarkers, s, 3);
    assert ScanFrom(slens, 4) == [];
    assert ScanFrom(slens, 3) == [];
    assert ScanFrom(slens, 2) == [];
    assert ScanFrom(slens, 1) == [];
  }

  /** A bracket around ten underscores is one blank to the preview but two
      to the save-time counter, so the editor asks for more options than the
      respondent will see blanks. */
  lemma CountersDisagreeUpward()
    ensures PreviewBlankCount("[__________]") == 1
    ensures SaveBlankCount("[__________]") == 2
  {
    var s := "[__________]";
    RunEndsAt(s, 1, 11);
    BracketAt(s, 0);
    var lens := MarkerLens(PreviewMarkers, s);
    assert lens[0] == 12;
    assert ScanFrom(lens, 12) == [];
    var slens := MarkerLens(SaveMarkers, s);
    assert HasAt(s, 1, Underscores);
    assert HasAt(s, 6, Underscores);
    NoMarkerAt(SaveMarkers, s, 11);
    assert slens[0] == 0 && slens[1] == 5 && slens[6] == 5 && slens[11] == 0;
    assert ScanFrom(slens, 12) == [];
    assert ScanFrom(slens, 11) == [];
    assert ScanFrom(slens, 6) == [Match(6, 5)];
    assert ScanFrom(slens, 1) == [Match(1, 5), Match(6, 5)];
    assert ScanFrom(slens, 0) == ScanFrom(slens, 1);
  }
}

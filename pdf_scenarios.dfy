/**
 * Two small documents worked through the scan of utils/parsepdfs/parsepdfs.py:
 * a row found by keyword, and a row found by the integer tier.
 */
module PdfScenarios {
  import opened PyStr
  import opened PdfTokens
  import opened PdfAnchor
  import opened ParsePdfs

  /** A line whose first character is not whitespace is kept as text. */
  lemma KeptAsText(line: string)
    requires |line| > 0 && !IsSpaceChar(line[0])
    ensures Normalize(line) == Str(line)
  {
    BlankIffAllSpace(line);
  }

  /** A document whose index 7 is an anchor and whose lines after it are
      digit strings has that one row. */
  lemma SoleRowAtSeven(lines: seq<string>, ncolBefore: nat, ncolAfter: nat, p: NumberSyntax)
    requires 8 <= |lines| && Anchored(lines, 7, p)
    requires Consistent(p) && ReadsDigits(p)
    requires forall k :: 8 <= k < |lines| ==> IsDigits(lines[k])
    ensures DocumentRows(lines, ncolBefore, ncolAfter, p) == [Row(7, RowCells(lines, 7, ncolBefore, ncolAfter))]
  {
    DigitTailAddsNoRows(lines, 8, ncolBefore, ncolAfter, p);
    RowsUpToStep(lines, 7, ncolBefore, ncolAfter, p);
    assert RowsUpTo(lines, 7, ncolBefore, ncolAfter, p) == [];
  }

  const HeaderLine: string := "Header"
  const ZilaLine: string := "Zila Dhaka"

  /** Seven header lines, a `Zila` line and eight numbers. */
  function KeywordDocument(): seq<string>
  {
    [HeaderLine, HeaderLine, HeaderLine, HeaderLine, HeaderLine, HeaderLine, HeaderLine,
     ZilaLine, "100", "200", "300", "400", "500", "600", "700", "800"]
  }

  lemma KeywordDocumentDigits()
    ensures |KeywordDocument()| == 16
    ensures forall k :: 8 <= k < 16 ==> IsDigits(KeywordDocument()[k])
  {
    var lines := KeywordDocument();
    forall k | 8 <= k < 16
      ensures IsDigits(lines[k])
    {
      assert |lines[k]| == 3 && lines[k][1] == lines[k][2] == '0';
    }
  }

  /** The header lines and the `Zila` line are kept as text. */
  lemma KeywordDocumentText()
    ensures Normalize(HeaderLine) == Str(HeaderLine)
    ensures Normalize(ZilaLine) == Str(ZilaLine)
  {
    KeptAsText(HeaderLine);
    KeptAsText(ZilaLine);
  }

  lemma KeywordDocumentLines(lines: seq<string>)
    requires lines == KeywordDocument()
    ensures |lines| == 16
    ensures forall i :: 0 <= i < 7 ==> lines[i] == HeaderLine
    ensures lines[7] == ZilaLine && lines[8] == "100" && lines[9] == "200"
  {
  }

  /** The cells of the row at index 7 of any document that starts like the
      keyword document, one by one. */
  lemma KeywordShapeCellValues(lines: seq<string>)
    requires |lines| == 16
    requires forall i :: 0 <= i < 7 ==> lines[i] == HeaderLine
    requires lines[7] == ZilaLine && lines[8] == "100" && lines[9] == "200"
    ensures |RowCells(lines, 7, 6, 3)| == 9
    ensures forall i :: 0 <= i < 6 ==> RowCells(lines, 7, 6, 3)[i] == Str(HeaderLine)
    ensures RowCells(lines, 7, 6, 3)[6] == Str(ZilaLine)
    ensures RowCells(lines, 7, 6, 3)[7] == Str("100") && RowCells(lines, 7, 6, 3)[8] == Str("200")
  {
    var state := Normalized(lines, 8);
    var cells := RowCells(lines, 7, 6, 3);
    assert cells == state[1..10];
    KeywordDocumentText();
    forall i | 0 <= i < 6
      ensures cells[i] == Str(HeaderLine)
    {
      NormalizedAt(lines, 8, i + 1);
    }
    NormalizedAt(lines, 8, 7);
  }

  /** The row at index 7 of any document that starts like the keyword
      document. */
  lemma KeywordShapeCells(lines: seq<string>)
    requires |lines| == 16
    requires forall i :: 0 <= i < 7 ==> lines[i] == HeaderLine
    requires lines[7] == ZilaLine && lines[8] == "100" && lines[9] == "200"
    ensures RowCells(lines, 7, 6, 3)
            == [Str(HeaderLine), Str(HeaderLine), Str(HeaderLine), Str(HeaderLine), Str(HeaderLine), Str(HeaderLine),
                Str(ZilaLine), Str("100"), Str("200")]
  {
    KeywordShapeCellValues(lines);
    var cells := RowCells(lines, 7, 6, 3);
    assert cells == [cells[0], cells[1], cells[2], cells[3], cells[4], cells[5], cells[6], cells[7], cells[8]];
  }

  /** With six columns before and three after, the row at index 7 is the
      nine lines from index 1, all read as text. */
  lemma KeywordDocumentCells(lines: seq<string>)
    requires lines == KeywordDocument()
    ensures RowCells(lines, 7, 6, 3)
            == [Str(HeaderLine), Str(HeaderLine), Str(HeaderLine), Str(HeaderLine), Str(HeaderLine), Str(HeaderLine),
                Str(ZilaLine), Str("100"), Str("200")]
  {
    KeywordDocumentLines(lines);
    KeywordShapeCells(lines);
  }

  /** The `Zila` line passes the anchor test by keyword. */
  lemma KeywordDocumentAnchor(lines: seq<string>, p: NumberSyntax)
    requires lines == KeywordDocument()
    ensures Anchored(lines, 7, p)
  {
    assert lines[7] == ZilaLine;
    assert HasKeyword(lines[7]) by {
      assert "Zila" <= ZilaLine;
      assert Contains(ZilaLine, Keywords[0]);
    }
  }

  /** The `Zila` line is the only anchor (the numbers after it are labels made
      of digits), so the document has exactly one row. */
  lemma KeywordDocumentRows(lines: seq<string>, p: NumberSyntax)
    requires lines == KeywordDocument()
    requires Consistent(p) && ReadsDigits(p)
    ensures DocumentRows(lines, 6, 3, p)
            == [Row(7, [Str(HeaderLine), Str(HeaderLine), Str(HeaderLine), Str(HeaderLine), Str(HeaderLine), Str(HeaderLine),
                        Str(ZilaLine), Str("100"), Str("200")])]
  {
    KeywordDocumentDigits();
    KeywordDocumentAnchor(lines, p);
    SoleRowAtSeven(lines, 6, 3, p);
    KeywordDocumentCells(lines);
  }

  const DhakaLine: string := "Dhaka"

  /** Seven zeros, a non-numeric label and the numbers one to eight. */
  function NumericDocument(): seq<string>
  {
    ["0", "0", "0", "0", "0", "0", "0", DhakaLine, "1", "2", "3", "4", "5", "6", "7", "8"]
  }

  /** The lines of the numeric document the scan looks at. */
  lemma NumericDocumentLines(lines: seq<string>)
    requires lines == NumericDocument()
    ensures |lines| == 16 && lines[7] == DhakaLine
    ensures forall k :: 0 <= k < 16 && k != 7 ==> IsDigits(lines[k])
    ensures lines[3] == "0" && lines[4] == "0" && lines[5] == "0" && lines[6] == "0"
    ensures lines[8] == "1" && lines[9] == "2" && lines[10] == "3" && lines[11] == "4"
  {
  }

  /** The window at index 7 of any document that starts like the numeric
      document. */
  lemma NumericShapeWindow(lines: seq<string>)
    requires |lines| == 16 && lines[7] == DhakaLine
    requires lines[3] == "0" && lines[4] == "0" && lines[5] == "0" && lines[6] == "0"
    requires lines[8] == "1" && lines[9] == "2" && lines[10] == "3" && lines[11] == "4"
    ensures Candidates(Normalized(lines, 8), 7) == NumericWindow()
  {
    var state := Normalized(lines, 8);
    forall i | 3 <= i < 12
      ensures state[i] == Str(lines[i])
    {
      if i < 8 {
        KeptAsText(lines[i]);
      }
    }
    assert state[3..7] == [state[3], state[4], state[5], state[6]];
    assert state[8..12] == [state[8], state[9], state[10], state[11]];
  }

  /** The window at index 7: the four zeros before it and the numbers one to
      four after it, with `Dhaka` as the label. */
  lemma NumericDocumentWindow(lines: seq<string>)
    requires lines == NumericDocument()
    ensures Candidates(Normalized(lines, 8), 7) == NumericWindow()
  {
    NumericDocumentLines(lines);
    NumericShapeWindow(lines);
  }

  function NumericWindow(): Window
  {
    Window(Str(DhakaLine), [Str("0"), Str("0"), Str("0"), Str("0"), Str("1"), Str("2"), Str("3"), Str("4")])
  }

  /** The integer tier runs on that window and accepts it. */
  lemma NumericWindowAccepted(w: Window, p: NumberSyntax)
    requires w == NumericWindow()
    requires ReadsDigits(p)
    ensures IntTierApplies(w, p) && IntTierAccepts(w, p)
  {
    forall i | 0 <= i < |w.values|
      ensures IntOf(w.values[i], p).Some? && IntOf(w.values[i], p).value >= 0
    {
      assert IsDigits(w.values[i].text);
    }
    IntTierMeaning(w, p);
    assert !IsAsciiDigit(w.geo.text[0]);
  }

  /** The label line of the numeric document holds no keyword. */
  lemma NoKeyword(line: string)
    requires line == DhakaLine
    ensures !HasKeyword(line)
  {
    forall i | 0 <= i < |Keywords|
      ensures !Contains(line, Keywords[i])
    {
      FirstCharAbsent(line, Keywords[i]);
    }
  }

  /** In any document that starts like the numeric document, index 7 is an
      anchor through the integer tier and not through a keyword. */
  lemma NumericShapeAnchor(lines: seq<string>, p: NumberSyntax)
    requires |lines| == 16 && lines[7] == DhakaLine
    requires lines[3] == "0" && lines[4] == "0" && lines[5] == "0" && lines[6] == "0"
    requires lines[8] == "1" && lines[9] == "2" && lines[10] == "3" && lines[11] == "4"
    requires ReadsDigits(p)
    ensures var w := Candidates(Normalized(lines, 8), 7);
            IntTierApplies(w, p) && IntTierAccepts(w, p) && !HasKeyword(lines[7])
    ensures Anchored(lines, 7, p)
  {
    NumericShapeWindow(lines);
    NumericWindowAccepted(Candidates(Normalized(lines, 8), 7), p);
    NoKeyword(lines[7]);
  }

  /** In any document that starts like the numeric document and holds digit
      strings everywhere but at index 7, index 7 is found by the integer tier
      and is the only anchor. */
  lemma NumericShapeRows(lines: seq<string>, p: NumberSyntax, ncolBefore: nat, ncolAfter: nat)
    requires |lines| == 16 && lines[7] == DhakaLine
    requires forall k :: 0 <= k < 16 && k != 7 ==> IsDigits(lines[k])
    requires lines[3] == "0" && lines[4] == "0" && lines[5] == "0" && lines[6] == "0"
    requires lines[8] == "1" && lines[9] == "2" && lines[10] == "3" && lines[11] == "4"
    requires Consistent(p) && ReadsDigits(p)
    ensures var w := Candidates(Normalized(lines, 8), 7);
            IntTierApplies(w, p) && IntTierAccepts(w, p) && !HasKeyword(lines[7])
    ensures AnchorsOf(DocumentRows(lines, ncolBefore, ncolAfter, p)) == [7]
  {
    NumericShapeAnchor(lines, p);
    SoleRowAtSeven(lines, ncolBefore, ncolAfter, p);
  }

  /** Index 7 is found by the integer tier, not by a keyword, and it is the
      only anchor. */
  lemma NumericDocumentRows(lines: seq<string>, p: NumberSyntax, ncolBefore: nat, ncolAfter: nat)
    requires lines == NumericDocument()
    requires Consistent(p) && ReadsDigits(p)
    ensures var w := Candidates(Normalized(lines, 8), 7);
            IntTierApplies(w, p) && IntTierAccepts(w, p) && !HasKeyword(lines[7])
    ensures AnchorsOf(DocumentRows(lines, ncolBefore, ncolAfter, p)) == [7]
  {
    NumericDocumentLines(lines);
    NumericShapeRows(lines, p, ncolBefore, ncolAfter);
  }
}

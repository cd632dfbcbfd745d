/**
 * utils/parsepdfs/parsepdfs.py: the scan of `parse_files` over the `pages`
 * list (updated in place), the file selection of `get_pdf_files` and the
 * per-program grouping of `write_data`.
 *
 * Reading a PDF is a parameter (`extract` gives the page texts of a path) and
 * the directory walk is a list of (directory, file name) entries in walk order.
 */
module ParsePdfs {
  import opened PyStr
  import opened PdfTokens
  import opened PdfAnchor

  // ---------------------------------------------------------------------------
  // parse_files

  /** One entry of `subset`: the anchor index and the row stored for it. */
  datatype Row = Row(anchor: nat, cells: seq<Token>)

  /** `pages[k-ncolBefore : k+ncolAfter]` as the scan sees it at anchor k. */
  function RowCells(lines: seq<string>, k: nat, ncolBefore: nat, ncolAfter: nat): seq<Token>
  {
    Slice(Normalized(lines, k + 1), k - ncolBefore, k + ncolAfter)
  }

  /** Whether the scan stores a row at index k. */
  predicate Anchored(lines: seq<string>, k: nat, p: NumberSyntax)
  {
    6 < k < |lines| && IsAnchor(Normalized(lines, k + 1), k, lines[k], p)
  }

  /** The rows a scan stores once it has visited every index below n, given
      which indices pass the anchor test and the row each one stores. Only
      indices above 6 are tested. */
  function RowsBelow(n: nat, anchored: nat -> bool, cells: nat -> seq<Token>): seq<Row>
  {
    if n <= 7 then []
    else
      RowsBelow(n - 1, anchored, cells) + (if anchored(n - 1) then [Row(n - 1, cells(n - 1))] else [])
  }

  /** Index k adds its row when it is tested and passes, and nothing else. */
  lemma RowsBelowStep(k: nat, anchored: nat -> bool, cells: nat -> seq<Token>)
    ensures 6 < k && anchored(k) ==> RowsBelow(k + 1, anchored, cells) == RowsBelow(k, anchored, cells) + [Row(k, cells(k))]
    ensures !(6 < k && anchored(k)) ==> RowsBelow(k + 1, anchored, cells) == RowsBelow(k, anchored, cells)
  {
    if 6 < k && !anchored(k) {
      var prev := RowsBelow(k, anchored, cells);
      assert prev + [] == prev;
    }
  }

  /** Anchors are above 6 and below n, in strictly increasing order. */
  lemma {:induction false} RowsBelowIncreasing(n: nat, anchored: nat -> bool, cells: nat -> seq<Token>)
    ensures forall i :: 0 <= i < |RowsBelow(n, anchored, cells)| ==> 6 < RowsBelow(n, anchored, cells)[i].anchor < n
    ensures forall i, j :: 0 <= i < j < |RowsBelow(n, anchored, cells)| ==>
              RowsBelow(n, anchored, cells)[i].anchor < RowsBelow(n, anchored, cells)[j].anchor
  {
    if n > 7 {
      RowsBelowIncreasing(n - 1, anchored, cells);
    }
  }

  /** Every stored row is a tested index that passes, with its own cells. */
  lemma {:induction false} RowsBelowSound(n: nat, anchored: nat -> bool, cells: nat -> seq<Token>)
    ensures forall r :: r in RowsBelow(n, anchored, cells) ==>
              6 < r.anchor < n && anchored(r.anchor) && r.cells == cells(r.anchor)
  {
    if n > 7 {
      RowsBelowSound(n - 1, anchored, cells);
    }
  }

  /** Every tested index that passes has a stored row. */
  lemma {:induction false} RowsBelowComplete(n: nat, anchored: nat -> bool, cells: nat -> seq<Token>)
    ensures forall k: nat :: 6 < k < n && anchored(k) ==> k in AnchorsOf(RowsBelow(n, anchored, cells))
  {
    if n > 7 {
      RowsBelowComplete(n - 1, anchored, cells);
      var prev := RowsBelow(n - 1, anchored, cells);
      var extra := if anchored(n - 1) then [Row(n - 1, cells(n - 1))] else [];
      AnchorsOfConcat(prev, extra);
      forall k: nat | 6 < k < n && anchored(k)
        ensures k in AnchorsOf(prev) + AnchorsOf(extra)
      {
        if k == n - 1 {
          assert AnchorsOf(extra)[0] == k;
        }
      }
    }
  }

  /** Indices that do not pass add no rows. */
  lemma {:induction false} RowsBelowSkip(m: nat, n: nat, anchored: nat -> bool, cells: nat -> seq<Token>)
    requires m <= n
    requires forall k: nat :: m <= k < n ==> !anchored(k)
    ensures RowsBelow(n, anchored, cells) == RowsBelow(m, anchored, cells)
    decreases n - m
  {
    if m < n {
      RowsBelowSkip(m, n - 1, anchored, cells);
      RowsBelowStep(n - 1, anchored, cells);
    }
  }

  /** The anchor test of the scan over `lines`, index by index. */
  function AnchorTest(lines: seq<string>, p: NumberSyntax): nat -> bool
  {
    (k: nat) => Anchored(lines, k, p)
  }

  /** The row the scan over `lines` stores at each index. */
  function CellsAt(lines: seq<string>, ncolBefore: nat, ncolAfter: nat): nat -> seq<Token>
  {
    (k: nat) => RowCells(lines, k, ncolBefore, ncolAfter)
  }

  /** The rows stored once the scan has visited every index below n. */
  function RowsUpTo(lines: seq<string>, n: nat, ncolBefore: nat, ncolAfter: nat, p: NumberSyntax): seq<Row>
    requires n <= |lines|
  {
    RowsBelow(n, AnchorTest(lines, p), CellsAt(lines, ncolBefore, ncolAfter))
  }

  /** Index k adds its row when it is an anchor, and nothing else. */
  lemma RowsUpToStep(lines: seq<string>, k: nat, ncolBefore: nat, ncolAfter: nat, p: NumberSyntax)
    requires k < |lines|
    ensures Anchored(lines, k, p) ==>
              RowsUpTo(lines, k + 1, ncolBefore, ncolAfter, p)
              == RowsUpTo(lines, k, ncolBefore, ncolAfter, p) + [Row(k, RowCells(lines, k, ncolBefore, ncolAfter))]
    ensures !Anchored(lines, k, p) ==>
              RowsUpTo(lines, k + 1, ncolBefore, ncolAfter, p) == RowsUpTo(lines, k, ncolBefore, ncolAfter, p)
  {
    RowsBelowStep(k, AnchorTest(lines, p), CellsAt(lines, ncolBefore, ncolAfter));
  }

  /** Visiting index k, with the stream as it stands after the sentinel
      write there, adds its row when k is an anchor, and nothing else. */
  lemma ScanRowsStep(lines: seq<string>, k: nat, state: seq<Token>, rows: seq<Row>,
                     ncolBefore: nat, ncolAfter: nat, p: NumberSyntax)
    requires k < |lines| && state == Normalized(lines, k + 1)
    requires rows == RowsUpTo(lines, k, ncolBefore, ncolAfter, p)
    ensures |state| == |lines|
    ensures RowsUpTo(lines, k + 1, ncolBefore, ncolAfter, p)
            == rows + (if k > 6 && IsAnchor(state, k, lines[k], p)
                       then [Row(k, Slice(state, k - ncolBefore, k + ncolAfter))] else [])
  {
    RowsUpToStep(lines, k, ncolBefore, ncolAfter, p);
    if !(k > 6 && IsAnchor(state, k, lines[k], p)) {
      assert rows + [] == rows;
    }
  }

  /** The rows of one document, in the order `subset` holds them. */
  function DocumentRows(lines: seq<string>, ncolBefore: nat, ncolAfter: nat, p: NumberSyntax): seq<Row>
  {
    RowsUpTo(lines, |lines|, ncolBefore, ncolAfter, p)
  }

  function AnchorsOf(rows: seq<Row>): seq<nat>
  {
    seq(|rows|, i requires 0 <= i < |rows| => rows[i].anchor)
  }

  /** The scan over `pages`: the lazy sentinel write at each index, then for
      k > 6 the anchor test and the stored slice. It leaves every blank line
      replaced by the sentinel and every other line untouched. */
  method Scan(pages: array<Token>, ghost lines: seq<string>, ncolBefore: nat, ncolAfter: nat, p: NumberSyntax)
    returns (rows: seq<Row>)
    requires pages[..] == Normalized(lines, 0)
    modifies pages
    ensures pages[..] == Normalized(lines, |lines|)
    ensures rows == DocumentRows(lines, ncolBefore, ncolAfter, p)
  {
    rows := [];
    var key := 0;
    while key < pages.Length
      invariant key <= pages.Length == |lines|
      invariant pages[..] == Normalized(lines, key)
      invariant rows == RowsUpTo(lines, key, ncolBefore, ncolAfter, p)
    {
      rows := VisitIndex(pages, lines, key, rows, ncolBefore, ncolAfter, p);
      key := key + 1;
    }
  }

  /** One pass of the scan's loop at index `key`: the sentinel write, then
      the anchor test on the updated list and the stored slice. */
  method VisitIndex(pages: array<Token>, ghost lines: seq<string>, key: nat, rows: seq<Row>,
                    ncolBefore: nat, ncolAfter: nat, p: NumberSyntax)
    returns (next: seq<Row>)
    requires key < pages.Length == |lines|
    requires pages[..] == Normalized(lines, key)
    requires rows == RowsUpTo(lines, key, ncolBefore, ncolAfter, p)
    modifies pages
    ensures pages[..] == Normalized(lines, key + 1)
    ensures next == RowsUpTo(lines, key + 1, ncolBefore, ncolAfter, p)
  {
    var element := pages[key];
    assert element == Str(lines[key]);
    if IsBlank(element.text) {
      pages[key] := Int(MissingCode);
    }
    NormalizedStep(lines, key);
    ghost var state := pages[..];
    assert state == Normalized(lines, key + 1);
    var anchor := key > 6 && IsAnchor(pages[..], key, element.text, p);
    ScanRowsStep(lines, key, state, rows, ncolBefore, ncolAfter, p);
    next := rows;
    if anchor {
      next := next + [Row(key, Slice(pages[..], key - ncolBefore, key + ncolAfter))];
    }
  }

  /** `parse_files` on the page texts of one document. */
  method ParseFile(pageTexts: seq<string>, ncolBefore: nat, ncolAfter: nat, p: NumberSyntax)
    returns (rows: seq<Row>)
    ensures rows == DocumentRows(Tokenize(pageTexts), ncolBefore, ncolAfter, p)
    ensures forall i, j :: 0 <= i < j < |rows| ==> 6 < rows[i].anchor < rows[j].anchor < |Tokenize(pageTexts)|
  {
    var lines := Tokenize(pageTexts);
    var pages := new Token[|lines|](i requires 0 <= i < |lines| => Str(lines[i]));
    assert pages[..] == Normalized(lines, 0);
    rows := Scan(pages, lines, ncolBefore, ncolAfter, p);
    AnchorsIncreasing(lines, |lines|, ncolBefore, ncolAfter, p);
  }

  /** Anchors are taken above 6 and below n, in strictly increasing order, so
      no index is used twice. */
  lemma AnchorsIncreasing(lines: seq<string>, n: nat, ncolBefore: nat, ncolAfter: nat, p: NumberSyntax)
    requires n <= |lines|
    ensures forall i :: 0 <= i < |RowsUpTo(lines, n, ncolBefore, ncolAfter, p)| ==>
              6 < RowsUpTo(lines, n, ncolBefore, ncolAfter, p)[i].anchor < n
    ensures forall i, j :: 0 <= i < j < |RowsUpTo(lines, n, ncolBefore, ncolAfter, p)| ==>
              RowsUpTo(lines, n, ncolBefore, ncolAfter, p)[i].anchor < RowsUpTo(lines, n, ncolBefore, ncolAfter, p)[j].anchor
  {
    RowsBelowIncreasing(n, AnchorTest(lines, p), CellsAt(lines, ncolBefore, ncolAfter));
  }

  /** Every stored row belongs to an index that passes the anchor test, and
      holds the slice taken when the scan was at that index. */
  lemma RowsAreAnchors(lines: seq<string>, n: nat, ncolBefore: nat, ncolAfter: nat, p: NumberSyntax)
    requires n <= |lines|
    ensures forall r :: r in RowsUpTo(lines, n, ncolBefore, ncolAfter, p) ==>
              r.anchor < n && Anchored(lines, r.anchor, p) && r.cells == RowCells(lines, r.anchor, ncolBefore, ncolAfter)
  {
    RowsBelowSound(n, AnchorTest(lines, p), CellsAt(lines, ncolBefore, ncolAfter));
  }

  lemma AnchorsOfConcat(a: seq<Row>, b: seq<Row>)
    ensures AnchorsOf(a + b) == AnchorsOf(a) + AnchorsOf(b)
  {
  }

  /** Every index that passes the anchor test has a stored row. */
  lemma AnchorsAreRows(lines: seq<string>, n: nat, ncolBefore: nat, ncolAfter: nat, p: NumberSyntax)
    requires n <= |lines|
    ensures forall k: nat :: k < n && Anchored(lines, k, p) ==> k in AnchorsOf(RowsUpTo(lines, n, ncolBefore, ncolAfter, p))
  {
    RowsBelowComplete(n, AnchorTest(lines, p), CellsAt(lines, ncolBefore, ncolAfter));
  }

  /** A blank line never starts a row. */
  lemma BlankLineNotAnchored(lines: seq<string>, k: nat, p: NumberSyntax)
    requires 6 < k < |lines| && IsBlank(lines[k])
    ensures !Anchored(lines, k, p)
  {
    NormalizedAt(lines, k + 1, k);
    BlankNeverAnchor(Normalized(lines, k + 1), k, lines[k], p);
  }

  /** With Python's `int` and `float`, a line of plain digits never starts a
      row. */
  lemma DigitLineNotAnchored(lines: seq<string>, k: nat, p: NumberSyntax)
    requires 6 < k < |lines| && IsDigits(lines[k])
    requires Consistent(p) && ReadsDigits(p)
    ensures !Anchored(lines, k, p)
  {
    assert !IsBlank(lines[k]) by {
      BlankIffAllSpace(lines[k]);
      assert !IsSpaceChar(lines[k][0]);
    }
    NormalizedAt(lines, k + 1, k);
    DigitLabelNeverAnchor(Normalized(lines, k + 1), k, lines[k], p);
  }

  /** Indices that are not anchors add no rows. */
  lemma NoAnchorsAdded(lines: seq<string>, m: nat, n: nat, ncolBefore: nat, ncolAfter: nat, p: NumberSyntax)
    requires m <= n <= |lines|
    requires forall k :: m <= k < n ==> !Anchored(lines, k, p)
    ensures RowsUpTo(lines, n, ncolBefore, ncolAfter, p) == RowsUpTo(lines, m, ncolBefore, ncolAfter, p)
  {
    RowsBelowSkip(m, n, AnchorTest(lines, p), CellsAt(lines, ncolBefore, ncolAfter));
  }

  /** With Python's `int` and `float`, lines of plain digits from index m on
      add no rows. */
  lemma DigitTailAddsNoRows(lines: seq<string>, m: nat, ncolBefore: nat, ncolAfter: nat, p: NumberSyntax)
    requires m <= |lines|
    requires Consistent(p) && ReadsDigits(p)
    requires forall k :: m <= k < |lines| ==> IsDigits(lines[k])
    ensures DocumentRows(lines, ncolBefore, ncolAfter, p) == RowsUpTo(lines, m, ncolBefore, ncolAfter, p)
  {
    forall k | m <= k < |lines|
      ensures !Anchored(lines, k, p)
    {
      if 6 < k {
        DigitLineNotAnchored(lines, k, p);
      }
    }
    NoAnchorsAdded(lines, m, |lines|, ncolBefore, ncolAfter, p);
  }

  /** The cells of a row are the stream as the scan sees it at the anchor:
      cells at or before the anchor show blank lines as the sentinel, cells
      after it still hold the raw line, blank or not. */
  lemma RowCellsAt(lines: seq<string>, k: nat, ncolBefore: nat, ncolAfter: nat, j: nat)
    requires ncolBefore <= k < |lines|
    requires j < |RowCells(lines, k, ncolBefore, ncolAfter)|
    ensures k - ncolBefore + j < |lines|
    ensures var idx := k - ncolBefore + j;
            RowCells(lines, k, ncolBefore, ncolAfter)[j]
            == if idx <= k then Normalize(lines[idx]) else Str(lines[idx])
  {
    var state := Normalized(lines, k + 1);
    var e := if k + ncolAfter <= |lines| then k + ncolAfter else |lines|;
    assert RowCells(lines, k, ncolBefore, ncolAfter) == state[k - ncolBefore..e];
  }

  /** Row length: `ncolBefore + ncolAfter` when the whole window lies inside
      the stream; at the end of the stream the row is cut short instead. */
  lemma RowLength(lines: seq<string>, k: nat, ncolBefore: nat, ncolAfter: nat)
    requires ncolBefore <= k < |lines|
    ensures k + ncolAfter <= |lines| ==> |RowCells(lines, k, ncolBefore, ncolAfter)| == ncolBefore + ncolAfter
    ensures k + ncolAfter > |lines| ==> |RowCells(lines, k, ncolBefore, ncolAfter)| == |lines| - k + ncolBefore
  {
  }

  /** A blank line among the four lines before the anchor candidate has
      already become the sentinel -9 when the window is read, so if the other
      values convert with `int()` and the label is a line of text, the integer
      tier runs and rejects, and the index is an anchor only by keyword. */
  lemma BlankBehindBlocksNumericTest(lines: seq<string>, k: nat, d: nat, p: NumberSyntax)
    requires 6 < k < |lines| && 1 <= d <= 4
    requires IsBlank(lines[k - d]) && !IsBlank(lines[k])
    requires forall i :: k - 4 <= i < WindowEnd(k, |lines|) && i != k && i != k - d ==> p.parseInt(lines[i]).Some?
    ensures Anchored(lines, k, p) <==> HasKeyword(lines[k])
  {
    var state := Normalized(lines, k + 1);
    var w := Candidates(state, k);
    assert w.values[4 - d] == Int(MissingCode);
    forall i | 0 <= i < |w.values|
      ensures IntOf(w.values[i], p).Some?
    {
      var idx := if i < 4 then k - 4 + i else k + i - 3;
      assert w.values[i] == state[idx];
    }
    NegativeValueBlocksFloatTier(state, k, lines[k], p, 4 - d);
  }

  /** The same blank line placed after the candidate is still raw text when
      the window is read: it goes through `int()` and `float()` as a string. */
  lemma BlankAheadIsRawText(lines: seq<string>, k: nat, d: nat)
    requires 6 < k && k + d < |lines| && 1 <= d <= 4
    ensures Candidates(Normalized(lines, k + 1), k).values[3 + d] == Str(lines[k + d])
  {
  }

  // ---------------------------------------------------------------------------
  // get_pdf_files

  /** One row of the frame `get_pdf_files` returns. */
  datatype PdfFile = PdfFile(path: string, program: string)

  /** `_C[0-9][0-9].pdf` matching at position i; the dot is unescaped, so it
      matches any character but a newline. */
  predicate PdfPatternAt(name: string, i: nat)
    requires i + 8 <= |name|
  {
    name[i] == '_' && name[i + 1] == 'C' && IsAsciiDigit(name[i + 2]) && IsAsciiDigit(name[i + 3])
    && name[i + 4] != '\n' && name[i + 5..i + 8] == "pdf"
  }

  /** `re.search(r'_C[0-9][0-9].pdf', name)` */
  predicate MatchesPdfName(name: string)
  {
    exists i: nat :: i + 8 <= |name| && PdfPatternAt(name, i)
  }

  /** `name[-7:-4]` */
  function ProgramCode(name: string): string
  {
    Slice(name, -7, -4)
  }

  /** `name[-7:-4]` by the length of the name: the three characters seven to
      five from the end; for a shorter name the lower bound is clamped to
      the start; a name of at most four characters gives the empty text. */
  lemma ProgramCodeClamps(name: string)
    ensures |name| >= 7 ==> ProgramCode(name) == name[|name| - 7..|name| - 4]
    ensures 4 <= |name| < 7 ==> ProgramCode(name) == name[..|name| - 4]
    ensures |name| <= 4 ==> ProgramCode(name) == ""
    ensures ProgramCode("abcde") == "a"
  {
    assert "abcde"[..1] == "a";
  }

  /** A selected name has a three-character program code; when the match sits
      at the end of the name (`..._C05.pdf`) the code is the `C` and its two
      digits. */
  lemma ProgramCodeShape(name: string)
    requires MatchesPdfName(name)
    ensures |ProgramCode(name)| == 3
    ensures PdfPatternAt(name, |name| - 8) ==>
              ProgramCode(name)[0] == 'C' && IsAsciiDigit(ProgramCode(name)[1]) && IsAsciiDigit(ProgramCode(name)[2])
  {
    var i: nat :| i + 8 <= |name| && PdfPatternAt(name, i);
    ProgramCodeClamps(name);
  }

  /** Because the dot is unescaped, a name with any character in its place is
      selected too. */
  lemma UnescapedDotMatches()
    ensures MatchesPdfName("r_C05xpdf")
    ensures ProgramCode("r_C05xpdf") == "C05"
  {
    assert PdfPatternAt("r_C05xpdf", 1);
  }

  /** The frame `get_pdf_files` builds from the walk, in walk order. */
  function SelectPdfs(entries: seq<DirEntry>): seq<PdfFile>
  {
    if |entries| == 0 then []
    else
      var e := entries[|entries| - 1];
      SelectPdfs(entries[..|entries| - 1])
      + (if MatchesPdfName(e.name) then [PdfFile(PathJoin(e.dir, e.name), ProgramCode(e.name))] else [])
  }

  /** Every selected file comes from a matching entry, with the path joined and
      the program taken from its name; and every matching entry is selected. */
  lemma {:induction false} SelectPdfsExactly(entries: seq<DirEntry>)
    ensures forall f :: f in SelectPdfs(entries) ==>
              exists e :: e in entries && MatchesPdfName(e.name) && f == PdfFile(PathJoin(e.dir, e.name), ProgramCode(e.name))
    ensures forall e :: e in entries && MatchesPdfName(e.name) ==>
              PdfFile(PathJoin(e.dir, e.name), ProgramCode(e.name)) in SelectPdfs(entries)
  {
    if |entries| > 0 {
      var init := entries[..|entries| - 1];
      SelectPdfsExactly(init);
      assert forall e :: e in entries <==> e in init || e == entries[|entries| - 1];
    }
  }

  /** `get_pdf_files`: the walk's files whose name matches, each with its
      program code. */
  method GetPdfFiles(entries: seq<DirEntry>) returns (files: seq<PdfFile>)
    ensures files == SelectPdfs(entries)
    ensures forall i :: 0 <= i < |files| ==> |files[i].program| == 3
  {
    files := [];
    var i := 0;
    while i < |entries|
      invariant i <= |entries|
      invariant files == SelectPdfs(entries[..i])
      invariant forall j :: 0 <= j < |files| ==> |files[j].program| == 3
    {
      var e := entries[i];
      if MatchesPdfName(e.name) {
        ProgramCodeShape(e.name);
        files := files + [PdfFile(PathJoin(e.dir, e.name), ProgramCode(e.name))];
      }
      assert entries[..i + 1][..i] == entries[..i];
      i := i + 1;
    }
    assert entries[..i] == entries;
  }

  // ---------------------------------------------------------------------------
  // write_data

  /** The window sizes the configuration gives a program. */
  datatype Schema = Schema(ncolBefore: nat, ncolAfter: nat)

  /** One CSV file written by `write_data`. */
  datatype ProgramCsv = ProgramCsv(path: string, rows: seq<seq<Token>>)

  /** What `write_data` writes, and the program whose configuration lookup
      raised `KeyError`, if one did (nothing after it is written). */
  datatype WriteOutcome = WriteOutcome(written: seq<ProgramCsv>, missingSchema: Option<string>)

  /** The rows of a frame written with `index=False`. */
  function Cells(rows: seq<Row>): (cells: seq<seq<Token>>)
    ensures |cells| == |rows|
  {
    seq(|rows|, i requires 0 <= i < |rows| => rows[i].cells)
  }

  function FileRows(f: PdfFile, s: Schema, extract: string -> seq<string>, p: NumberSyntax): seq<seq<Token>>
  {
    Cells(DocumentRows(Tokenize(extract(f.path)), s.ncolBefore, s.ncolAfter, p))
  }

  /** The table of each file under one program's window sizes. */
  function FileTable(s: Schema, extract: string -> seq<string>, p: NumberSyntax): PdfFile -> seq<seq<Token>>
  {
    f => FileRows(f, s, extract, p)
  }

  /** `pd.concat` of the tables of the files of one program, in listed order. */
  function ProgramRows(files: seq<PdfFile>, program: string, rowsOf: PdfFile -> seq<seq<Token>>): seq<seq<Token>>
  {
    if |files| == 0 then []
    else
      var f := files[|files| - 1];
      ProgramRows(files[..|files| - 1], program, rowsOf) + (if f.program == program then rowsOf(f) else [])
  }

  /** Number of rows of each file of the program, summed. */
  function RowCount(files: seq<PdfFile>, program: string, rowsOf: PdfFile -> seq<seq<Token>>): nat
  {
    if |files| == 0 then 0
    else
      var f := files[|files| - 1];
      RowCount(files[..|files| - 1], program, rowsOf) + (if f.program == program then |rowsOf(f)| else 0)
  }

  /** A program's table is the concatenation of its files' tables: splitting
      the file list splits the table the same way. */
  lemma {:induction false} ProgramRowsConcat(a: seq<PdfFile>, b: seq<PdfFile>, program: string,
                                             rowsOf: PdfFile -> seq<seq<Token>>)
    ensures ProgramRows(a + b, program, rowsOf) == ProgramRows(a, program, rowsOf) + ProgramRows(b, program, rowsOf)
    decreases |b|
  {
    if |b| == 0 {
      assert a + b == a;
    } else {
      var last := b[|b| - 1];
      var extra := if last.program == program then rowsOf(last) else [];
      assert (a + b)[..|a + b| - 1] == a + b[..|b| - 1];
      assert (a + b)[|a + b| - 1] == last;
      ProgramRowsConcat(a, b[..|b| - 1], program, rowsOf);
      assert ProgramRows(a + b, program, rowsOf) == ProgramRows(a + b[..|b| - 1], program, rowsOf) + extra;
      assert ProgramRows(b, program, rowsOf) == ProgramRows(b[..|b| - 1], program, rowsOf) + extra;
    }
  }

  /** The row count of a program's table is the sum of its files' row counts;
      each file contributes one row per anchor of its document. */
  lemma {:induction false} ProgramRowCount(files: seq<PdfFile>, program: string, s: Schema,
                                           extract: string -> seq<string>, p: NumberSyntax)
    ensures |ProgramRows(files, program, FileTable(s, extract, p))| == RowCount(files, program, FileTable(s, extract, p))
    ensures forall f :: |FileTable(s, extract, p)(f)| == |DocumentRows(Tokenize(extract(f.path)), s.ncolBefore, s.ncolAfter, p)|
  {
    if |files| > 0 {
      ProgramRowCount(files[..|files| - 1], program, s, extract, p);
    }
  }

  function ProgramsOf(files: seq<PdfFile>): seq<string>
  {
    seq(|files|, i requires 0 <= i < |files| => files[i].program)
  }

  function OutputPath(outDir: string, program: string): string
  {
    PathJoin(outDir, program + ".csv")
  }

  /** The table each program's CSV holds: its files' rows under its window
      sizes. */
  function ProgramTables(files: seq<PdfFile>, extract: string -> seq<string>, p: NumberSyntax)
    : (string, Schema) -> seq<seq<Token>>
  {
    (program: string, s: Schema) => ProgramRows(files, program, FileTable(s, extract, p))
  }

  /** What the loop over `programs` writes: one CSV per program, until a
      program without configuration raises. */
  function WriteSpec(programs: seq<string>, outDir: string, schemas: map<string, Schema>,
                     tableOf: (string, Schema) -> seq<seq<Token>>): WriteOutcome
  {
    if |programs| == 0 then WriteOutcome([], None)
    else
      var before := WriteSpec(programs[..|programs| - 1], outDir, schemas, tableOf);
      var program := programs[|programs| - 1];
      if before.missingSchema.Some? then before
      else if program !in schemas then WriteOutcome(before.written, Some(program))
      else
        WriteOutcome(before.written + [ProgramCsv(OutputPath(outDir, program), tableOf(program, schemas[program]))], None)
  }

  /** Until a lookup fails, the i-th CSV belongs to the i-th program and holds
      that program's rows. */
  lemma {:induction false} WriteSpecWritten(programs: seq<string>, outDir: string, schemas: map<string, Schema>,
                                            tableOf: (string, Schema) -> seq<seq<Token>>)
    ensures |WriteSpec(programs, outDir, schemas, tableOf).written| <= |programs|
    ensures forall i :: 0 <= i < |WriteSpec(programs, outDir, schemas, tableOf).written| ==>
              programs[i] in schemas
              && WriteSpec(programs, outDir, schemas, tableOf).written[i]
                 == ProgramCsv(OutputPath(outDir, programs[i]), tableOf(programs[i], schemas[programs[i]]))
  {
    if |programs| > 0 {
      var init, last := programs[..|programs| - 1], programs[|programs| - 1];
      WriteSpecWritten(init, outDir, schemas, tableOf);
      WriteSpecComplete(init, outDir, schemas, tableOf);
      var before := WriteSpec(init, outDir, schemas, tableOf);
      var out := WriteSpec(programs, outDir, schemas, tableOf);
      forall i | 0 <= i < |out.written|
        ensures programs[i] in schemas
        ensures out.written[i] == ProgramCsv(OutputPath(outDir, programs[i]), tableOf(programs[i], schemas[programs[i]]))
      {
        if i < |before.written| {
          assert programs[i] == init[i];
          assert out.written[i] == before.written[i];
        } else {
          assert before.missingSchema.None? && last in schemas && i == |init|;
        }
      }
    }
  }

  /** The run fails exactly when some program has no configuration; otherwise
      every program gets its CSV. */
  lemma {:induction false} WriteSpecComplete(programs: seq<string>, outDir: string, schemas: map<string, Schema>,
                                             tableOf: (string, Schema) -> seq<seq<Token>>)
    ensures WriteSpec(programs, outDir, schemas, tableOf).missingSchema.None?
            <==> forall q :: q in programs ==> q in schemas
    ensures WriteSpec(programs, outDir, schemas, tableOf).missingSchema.None? ==>
              |WriteSpec(programs, outDir, schemas, tableOf).written| == |programs|
  {
    if |programs| > 0 {
      var init, last := programs[..|programs| - 1], programs[|programs| - 1];
      assert programs == init + [last];
      WriteSpecComplete(init, outDir, schemas, tableOf);
      var before := WriteSpec(init, outDir, schemas, tableOf);
      var out := WriteSpec(programs, outDir, schemas, tableOf);
      if before.missingSchema.Some? {
        assert out == before;
        var q :| q in init && q !in schemas;
        assert q in programs;
      } else if last !in schemas {
        assert out.missingSchema == Some(last);
      } else {
        assert out.missingSchema.None? && |out.written| == |before.written| + 1;
      }
    }
  }

  /** `write_data`: for each program in order of first appearance, parse its
      files with the program's window sizes and write the concatenation. */
  method WriteData(files: seq<PdfFile>, outDir: string, schemas: map<string, Schema>,
                   extract: string -> seq<string>, p: NumberSyntax)
    returns (out: WriteOutcome)
    ensures out == WriteSpec(Unique(ProgramsOf(files)), outDir, schemas, ProgramTables(files, extract, p))
  {
    var programs := Unique(ProgramsOf(files));
    ghost var tableOf := ProgramTables(files, extract, p);
    var written: seq<ProgramCsv> := [];
    var i := 0;
    while i < |programs|
      invariant i <= |programs|
      invariant WriteSpec(programs[..i], outDir, schemas, tableOf) == WriteOutcome(written, None)
    {
      var program := programs[i];
      WriteSpecNext(programs, i, outDir, schemas, tableOf);
      if program !in schemas {
        out := WriteOutcome(written, Some(program));
        WriteSpecStops(programs, i + 1, outDir, schemas, tableOf);
        return;
      }
      var table := BuildProgramTable(files, program, schemas[program], extract, p);
      assert table == tableOf(program, schemas[program]);
      written := written + [ProgramCsv(OutputPath(outDir, program), table)];
      i := i + 1;
    }
    assert programs[..i] == programs;
    out := WriteOutcome(written, None);
  }

  /** The loop over `programs` one program further, while no lookup has
      failed. */
  lemma WriteSpecNext(programs: seq<string>, i: nat, outDir: string, schemas: map<string, Schema>,
                      tableOf: (string, Schema) -> seq<seq<Token>>)
    requires i < |programs| && WriteSpec(programs[..i], outDir, schemas, tableOf).missingSchema.None?
    ensures programs[i] !in schemas ==>
              WriteSpec(programs[..i + 1], outDir, schemas, tableOf)
              == WriteOutcome(WriteSpec(programs[..i], outDir, schemas, tableOf).written, Some(programs[i]))
    ensures programs[i] in schemas ==>
              WriteSpec(programs[..i + 1], outDir, schemas, tableOf)
              == WriteOutcome(WriteSpec(programs[..i], outDir, schemas, tableOf).written
                              + [ProgramCsv(OutputPath(outDir, programs[i]), tableOf(programs[i], schemas[programs[i]]))], None)
  {
    assert programs[..i + 1][..i] == programs[..i];
  }

  /** The inner loop of `write_data`: parse each file of the program with its
      window sizes and append its rows. */
  method BuildProgramTable(files: seq<PdfFile>, program: string, schema: Schema,
                           extract: string -> seq<string>, p: NumberSyntax)
    returns (table: seq<seq<Token>>)
    ensures table == ProgramRows(files, program, FileTable(schema, extract, p))
  {
    table := [];
    var j := 0;
    while j < |files|
      invariant j <= |files|
      invariant table == ProgramRows(files[..j], program, FileTable(schema, extract, p))
    {
      if files[j].program == program {
        var rows := ParseFile(extract(files[j].path), schema.ncolBefore, schema.ncolAfter, p);
        table := table + Cells(rows);
      }
      assert files[..j + 1][..j] == files[..j];
      j := j + 1;
    }
    assert files[..j] == files;
  }

  /** Once a lookup has failed, later programs change nothing. */
  lemma {:induction false} WriteSpecStops(programs: seq<string>, n: nat, outDir: string, schemas: map<string, Schema>,
                                          tableOf: (string, Schema) -> seq<seq<Token>>)
    requires n <= |programs|
    requires WriteSpec(programs[..n], outDir, schemas, tableOf).missingSchema.Some?
    ensures WriteSpec(programs, outDir, schemas, tableOf) == WriteSpec(programs[..n], outDir, schemas, tableOf)
    decreases |programs| - n
  {
    if n < |programs| {
      assert programs[..n + 1][..n] == programs[..n];
      WriteSpecStops(programs, n + 1, outDir, schemas, tableOf);
    } else {
      assert programs[..n] == programs;
    }
  }
}

# Census table extraction: a Dafny model

This project models the two data-preparation scripts at the core of the
repository's census pipeline, and proves properties of the model.

`utils/parsepdfs/parsepdfs.py` turns census report PDFs into CSV tables, one per program:

- **File selection.** `get_pdf_files` walks a directory and keeps every file whose name matches
  `_C[0-9][0-9].pdf`. It takes the program code from the name.
- **Tokenising.** `parse_files` joins the text of a document's pages, splits it into lines and
  deletes every comma.
- **Scanning.** While it scans, `parse_files` replaces each blank line by the integer `-9`. Every
  index above 6 whose window passes a two-tier numeric test, or whose line holds a geography
  keyword, starts a row. That row is the slice `[k - ncol_before, k + ncol_after)`.
- **Writing.** `write_data` parses the files of each program with the window sizes configured for
  it, and writes their rows, concatenated, to one CSV.

`utils/dp_bbs_census2011/dp_bbs_census2011.py` splits census CSV tables by geography level:

- **File selection.** `collect_filenames` keeps every file whose name matches `.csv`.
- **Column clean-up.** `process_files` rewrites the five geography columns. Every `-9` becomes a
  run of `X`, and the value is left-padded with zeros. The columns are `UZ`, `UN/WA`, `MZ/MH`,
  `Vill` and `RMO`, or, failing those, `1` to `5`.
- **Level code.** Each row gets a five-character code that says which levels are missing.
- **Routing.** The rows of each recognised code go to their own CSV. For three of the codes, the
  rows are split further by the `RMO` value `01`, `02` or `03`.

Modules:

- `PyStr` (`pystr.dfy`): the parts of Python's string, list and path semantics that the scripts rely
  on. These are:
  - slices with negative bounds;
  - `in` on strings and `str.replace`;
  - `split` and `join`;
  - `isspace`, `strip` and `isdigit`;
  - `str(int)` and pandas `str.pad`;
  - `os.path.join` and `os.path.split`;
  - the first-appearance order of pandas `unique`.
- `PdfTokens` (`pdf_tokens.dfy`): the token stream, and the lazy sentinel.
- `PdfAnchor` (`pdf_anchor.dfy`): the window and the anchor test.
- `ParsePdfs` (`parsepdfs.dfy`):
  - the scan: an in-place method over an `array` of tokens, proved against the function
    `DocumentRows`;
  - `get_pdf_files`;
  - `write_data`.
- `PdfScenarios` (`pdf_scenarios.dfy`): two documents worked through the scan.
- `CensusFrame` (`census_frame.dfy`):
  - data frames as values;
  - the column clean-up, as loops that rebuild the frame column by column;
  - the level code `check_var`.
- `CensusOutput` (`census_output.dfy`):
  - `collect_filenames`;
  - routing codes to output files;
  - the loops of `process_files` over codes and over files.

Python's `int()` and `float()` are a parameter of type `NumberSyntax`. Two properties of it are stated
as predicates:

- `Consistent`: whatever `int()` accepts, `float()` accepts.
- `ReadsDigits`: `int()` reads a plain digit string as a non-negative number.

Lemmas that need either property say so in their `requires` clause.

The clean-up rule of the numbered layout (columns `1` to `5`) is a parameter, `fallback`, of the
clean-up, of one file's processing and of the loop over files. The code as written is the instance
`FallbackRuleAsWritten`. `FallbackRule` is the corrected rule described under Findings, and lemmas
that compare the two name the instance they use.

## Model

| member | source | states |
|---|---|---|
| PyStr.Slice | utils/parsepdfs/parsepdfs.py:46 | A Python slice is never longer than the list. It is the ordinary sub-sequence when the bounds are in range. It reaches to the end when the upper bound overshoots. A negative lower bound counts from the end. |
| PyStr.ReplaceAll | utils/dp_bbs_census2011/dp_bbs_census2011.py:26 | `str.replace` leaves a text without the pattern unchanged. |
| PyStr.ReplaceAllRemovesPair | utils/dp_bbs_census2011/dp_bbs_census2011.py:29 | Replacing a two-character pattern by text that holds neither of its characters leaves no occurrence of it. |
| PyStr.Contains | utils/parsepdfs/parsepdfs.py:52-53 | Python's `pattern in line`: the pattern occurs at some position of the text. |
| PyStr.Join | utils/parsepdfs/parsepdfs.py:39 | `sep.join(parts)`: the parts with the separator between neighbours, the inverse partner of `Split`. |
| PyStr.Split | utils/parsepdfs/parsepdfs.py:39 | `split` yields at least one part. No part holds the separator, and joining the parts gives the text back. |
| PyStr.SplitJoin | utils/parsepdfs/parsepdfs.py:39 | The converse round trip: parts without the separator are recovered exactly by splitting their join. |
| PyStr.IsSpace | utils/parsepdfs/parsepdfs.py:42 | `str.isspace()`: the text is non-empty and every character is Python whitespace. |
| PyStr.Strip | utils/parsepdfs/parsepdfs.py:42 | `str.strip()`: leading and trailing Python whitespace removed. |
| PyStr.IsDigits | utils/parsepdfs/parsepdfs.py:49-50 | `str.isdigit()` on ASCII: the text is non-empty and every character is `0`-`9` (see Left out). |
| PyStr.IntToStr | utils/parsepdfs/parsepdfs.py:50 | `str(n)` for an integer: a `-` before the decimal digits when negative. |
| PyStr.IntToStrIsDigits | utils/parsepdfs/parsepdfs.py:50 | `str(n).isdigit()` holds exactly when n is not negative. |
| PyStr.PadLeft | utils/dp_bbs_census2011/dp_bbs_census2011.py:27 | Left padding gives the width, or keeps a longer text as it is. It ends with the original text, and everything before that is the fill character. |
| PyStr.PathJoin | utils/parsepdfs/parsepdfs.py:25 | `os.path.join` ends with its second argument, and an absolute second argument replaces the first. |
| PyStr.PathJoinRelative | utils/dp_bbs_census2011/dp_bbs_census2011.py:16 | With a relative second name, the result starts with the whole directory and ends with the whole name. At most one character lies between them. It is there exactly when the directory is non-empty and does not end with `/`, and it is then a `/`. |
| PyStr.Basename | utils/dp_bbs_census2011/dp_bbs_census2011.py:53 | `os.path.split(p)[1]` holds no `/`. It is a suffix of p, preceded in p by a `/` when it is shorter than p. |
| PyStr.Unique | utils/parsepdfs/parsepdfs.py:74 | `unique()` holds exactly the values of the column, each once. |
| PyStr.UniqueSingle | utils/dp_bbs_census2011/dp_bbs_census2011.py:50 | A one-value column has itself as its `unique()`. |
| PyStr.UniqueOrder | utils/dp_bbs_census2011/dp_bbs_census2011.py:50 | `unique()` lists the values in the order of their first appearance. |
| PdfTokens.IsBlank | utils/parsepdfs/parsepdfs.py:42 | The blank test `element.isspace() or not element.strip()`. |
| PdfTokens.BlankIffAllSpace | utils/parsepdfs/parsepdfs.py:42 | `isspace() or not strip()` holds exactly when every character is whitespace, the empty line included. |
| PdfTokens.Concat | utils/parsepdfs/parsepdfs.py:34-38 | The text `pages` after the page loop: the page texts joined in page order, with no separator between pages. |
| PdfTokens.Tokenize | utils/parsepdfs/parsepdfs.py:36-40 | There is one line per newline-separated piece of the concatenated page texts, and no line holds a comma or a newline. |
| PdfTokens.TokenizeLossless | utils/parsepdfs/parsepdfs.py:36-40 | Tokenising loses only the commas: the lines joined with newlines are the document without commas, and that text splits back into exactly these lines. |
| PdfTokens.Normalize | utils/parsepdfs/parsepdfs.py:42-43 | A line becomes the sentinel -9 exactly when it is blank. Any other line is kept as text. |
| PdfTokens.Normalized | utils/parsepdfs/parsepdfs.py:41-43 | The token list after the scan has visited the indices below k: those lines normalised, the rest still raw text. |
| PdfTokens.NormalizedAt | utils/parsepdfs/parsepdfs.py:41-43 | The sentinel appears only behind the scan. An index holds -9 exactly when the scan has passed it and its line is blank. |
| PdfTokens.NormalizedStep | utils/parsepdfs/parsepdfs.py:41-43 | One step of the scan rewrites the current index and nothing else. |
| PdfAnchor.IntOf | utils/parsepdfs/parsepdfs.py:48 | `int(digit)` on one token: an integer stays itself, a text is parsed by the `int()` of the number syntax, and `None` is a `ValueError`. |
| PdfAnchor.CheckFloat | utils/parsepdfs/parsepdfs.py:12-17 | `check_float`: an integer token passes, a text passes exactly when `float()` accepts it. |
| PdfAnchor.IntOfImpliesFloat | utils/parsepdfs/parsepdfs.py:12-17 | Under a consistent number syntax, any token `int()` accepts also passes `check_float`, the sentinel included. |
| PdfAnchor.Candidates | utils/parsepdfs/parsepdfs.py:46-47 | The label is the token at k. The values are the four tokens before it and up to four after it. There are 4 to 8 values, and exactly 8 when the window lies inside the stream. |
| PdfAnchor.IntTierApplies | utils/parsepdfs/parsepdfs.py:45-51 | The `try` branch completes: the label is text, so `isdigit` does not raise `AttributeError`, and every value converts with `int()`, so no `ValueError`. |
| PdfAnchor.IntTierAccepts | utils/parsepdfs/parsepdfs.py:49-51 | `geoname_check and values_check_int`: the label is not a digit string, and every converted value prints as a digit string. |
| PdfAnchor.FloatTierAccepts | utils/parsepdfs/parsepdfs.py:57-61 | `geoname_check and values_check_float` of the `except` branch: the label fails `check_float`, and every value passes it. |
| PdfAnchor.HasKeyword | utils/parsepdfs/parsepdfs.py:52-53 | `pattern_check`: the raw line holds one of the `patterns` list, the constant `Keywords`: `Zila`, `Upazila`, `Ward`, `Union`, `*`. |
| PdfAnchor.IsAnchor | utils/parsepdfs/parsepdfs.py:44-65 | The decision at index k: the integer tier when it completes, otherwise the float tier, or else a keyword in the raw line. |
| PdfAnchor.IntTierMeaning | utils/parsepdfs/parsepdfs.py:48-51 | When every value converts, the integer tier accepts exactly when the label is not a digit string and no value is negative. |
| PdfAnchor.NegativeValueBlocksFloatTier | utils/parsepdfs/parsepdfs.py:45-65 | A negative value makes the integer tier reject without raising. The float tier is then skipped, and only a keyword can make k an anchor. |
| PdfAnchor.BlankNeverAnchor | utils/parsepdfs/parsepdfs.py:42-65 | A blank line at k is never an anchor. |
| PdfAnchor.DigitsHaveNoKeyword | utils/parsepdfs/parsepdfs.py:52-53 | A digit string holds none of the five keywords. |
| PdfAnchor.DigitLabelNeverAnchor | utils/parsepdfs/parsepdfs.py:44-65 | With Python's `int` and `float`, a label that is a digit string never starts a row. |
| ParsePdfs.RowCells | utils/parsepdfs/parsepdfs.py:55 | `pages[k - ncol_before:k + ncol_after]` taken on the token list as it stands when index k is visited. |
| ParsePdfs.Anchored | utils/parsepdfs/parsepdfs.py:44-55 | Index k is above 6, inside the stream, and passes `IsAnchor` on the list as normalised up to k, with its raw line. |
| ParsePdfs.RowsBelow | utils/parsepdfs/parsepdfs.py:41-56 | The rows stored by the loop for the indices below n, for any anchor test and cell function, in index order. |
| ParsePdfs.RowsUpTo | utils/parsepdfs/parsepdfs.py:41-56 | `RowsBelow` with the document's own anchor test and cells. |
| ParsePdfs.DocumentRows | utils/parsepdfs/parsepdfs.py:41-70 | The `subset` dictionary of `parse_files` once the loop has finished: one row per anchor, in index order. |
| ParsePdfs.Scan | utils/parsepdfs/parsepdfs.py:41-65 | The in-place scan over the token array leaves the array equal to `Normalized(lines, n)`: by `NormalizedAt`, every blank line is replaced by -9 and every other line is kept. It returns the rows of `DocumentRows`: one per index that passes the anchor test, holding the window taken at that moment. |
| ParsePdfs.VisitIndex | utils/parsepdfs/parsepdfs.py:42-56 | One pass of the loop writes the sentinel at the current index and nothing else. It then adds that index's row exactly when the index passes the anchor test. |
| ParsePdfs.RowsBelowIncreasing | utils/parsepdfs/parsepdfs.py:41-55 | For any anchor test, stored anchors lie in `(6, n)` in strictly increasing order. |
| ParsePdfs.RowsBelowSound | utils/parsepdfs/parsepdfs.py:54-65 | For any anchor test, every stored row belongs to an index above 6 that passes, with that index's cells. |
| ParsePdfs.RowsBelowComplete | utils/parsepdfs/parsepdfs.py:54-65 | For any anchor test, every index above 6 that passes has a stored row. |
| ParsePdfs.RowsBelowSkip | utils/parsepdfs/parsepdfs.py:41-65 | A run of indices that do not pass adds no rows. |
| ParsePdfs.RowsUpToStep | utils/parsepdfs/parsepdfs.py:44-56 | Index k adds exactly its own row when it is an anchor, and nothing otherwise. |
| ParsePdfs.ParseFile | utils/parsepdfs/parsepdfs.py:30-70 | A document's rows are those of its token stream. Their anchors lie above 6 and inside the stream, in strictly increasing order. |
| ParsePdfs.AnchorsIncreasing | utils/parsepdfs/parsepdfs.py:41-55 | Anchors lie in `(6, n)` and strictly increase, so no index yields two rows. |
| ParsePdfs.RowsAreAnchors | utils/parsepdfs/parsepdfs.py:54-65 | Every stored row belongs to an index that passes the anchor test, and holds that index's window. |
| ParsePdfs.AnchorsAreRows | utils/parsepdfs/parsepdfs.py:54-65 | Every index that passes the anchor test has a row (the converse of `RowsAreAnchors`). |
| ParsePdfs.BlankLineNotAnchored | utils/parsepdfs/parsepdfs.py:42-65 | A blank line never starts a row. |
| ParsePdfs.DigitLineNotAnchored | utils/parsepdfs/parsepdfs.py:44-65 | With Python's `int` and `float`, a line of digits never starts a row. |
| ParsePdfs.NoAnchorsAdded | utils/parsepdfs/parsepdfs.py:41-65 | Indices that are not anchors add no rows. |
| ParsePdfs.DigitTailAddsNoRows | utils/parsepdfs/parsepdfs.py:41-65 | A run of digit lines at the end of a document adds no rows. |
| ParsePdfs.RowCellsAt | utils/parsepdfs/parsepdfs.py:55 | A row cell at or before the anchor shows a blank line as -9. A cell after the anchor still holds the raw line. |
| ParsePdfs.RowLength | utils/parsepdfs/parsepdfs.py:55 | A row has `ncol_before + ncol_after` cells when its window fits in the stream. Near the end of the stream it is cut short by the overhang. |
| ParsePdfs.BlankBehindBlocksNumericTest | utils/parsepdfs/parsepdfs.py:43-56 | A blank line among the four before k is already -9. If the other values convert, the integer tier rejects, and k is an anchor exactly when its line has a keyword. |
| ParsePdfs.BlankAheadIsRawText | utils/parsepdfs/parsepdfs.py:41-48 | A line after k is still raw text when k's window is read. |
| ParsePdfs.PdfPatternAt | utils/parsepdfs/parsepdfs.py:24 | The pattern `_C[0-9][0-9].pdf` matches at position i. The unescaped dot is any character but a newline. |
| ParsePdfs.MatchesPdfName | utils/parsepdfs/parsepdfs.py:24 | `re.search` finds the pattern somewhere in the name. |
| ParsePdfs.ProgramCode | utils/parsepdfs/parsepdfs.py:26 | `name[-7:-4]`, with Python's slice rules. |
| ParsePdfs.ProgramCodeClamps | utils/parsepdfs/parsepdfs.py:26 | `name[-7:-4]` is the three characters seven to five from the end of a name of 7 or more characters. A shorter name has its lower bound clamped to the start, so `abcde` gives `a`. A name of at most four characters gives the empty text. |
| ParsePdfs.ProgramCodeShape | utils/parsepdfs/parsepdfs.py:24-26 | A selected name has a three-character program code. When the match ends the name, the code is `C` and two digits. |
| ParsePdfs.UnescapedDotMatches | utils/parsepdfs/parsepdfs.py:24 | The unescaped dot lets `r_C05xpdf` through, with program `C05`. |
| ParsePdfs.SelectPdfs | utils/parsepdfs/parsepdfs.py:20-27 | The `get_pdf_files` table: for each walk entry whose name matches, in walk order, its joined path and its program code. |
| ParsePdfs.SelectPdfsExactly | utils/parsepdfs/parsepdfs.py:22-26 | Exactly the matching walk entries are selected, each with its joined path and program code. |
| ParsePdfs.GetPdfFiles | utils/parsepdfs/parsepdfs.py:20-27 | The appending loop yields the selection in walk order, and every program code has three characters. |
| ParsePdfs.FileRows | utils/parsepdfs/parsepdfs.py:30-70 | `parse_files` for one file under a program's window sizes: the cells of the document's rows. |
| ParsePdfs.ProgramRows | utils/parsepdfs/parsepdfs.py:75-84 | `pd.concat(out_list)` for one program: the rows of its files, in file order. |
| ParsePdfs.ProgramsOf | utils/parsepdfs/parsepdfs.py:74 | The `program` column of the file table. |
| ParsePdfs.ProgramTables | utils/parsepdfs/parsepdfs.py:75-84 | The table of a program under its configuration: `ProgramRows` with each file parsed by `FileRows`. |
| ParsePdfs.OutputPath | utils/parsepdfs/parsepdfs.py:86 | `os.path.join(output_dir, subset + ".csv")`. |
| ParsePdfs.ProgramRowsConcat | utils/parsepdfs/parsepdfs.py:84 | Concatenating file lists concatenates the program tables. |
| ParsePdfs.BuildProgramTable | utils/parsepdfs/parsepdfs.py:75-84 | The inner loop collects the rows of the program's files, in file order, each parsed with the program's window sizes. |
| ParsePdfs.ProgramRowCount | utils/parsepdfs/parsepdfs.py:77-84 | A program table's row count is the sum of its files' row counts. |
| ParsePdfs.WriteSpec | utils/parsepdfs/parsepdfs.py:73-87 | The CSVs `write_data` writes for the given programs in order. It stops with the first program whose configuration lookup raises `KeyError`. |
| ParsePdfs.WriteSpecWritten | utils/parsepdfs/parsepdfs.py:74-86 | Until a configuration lookup fails, the i-th CSV goes to `<out>/<program>.csv` for the i-th program. It holds the table built for that program under its own configuration. |
| ParsePdfs.WriteSpecComplete | utils/parsepdfs/parsepdfs.py:79-82 | The run fails exactly when some program has no configuration. Otherwise every program gets its CSV. |
| ParsePdfs.WriteData | utils/parsepdfs/parsepdfs.py:73-87 | The nested loops write one CSV per program, in first-appearance order, and stop at the first missing configuration. Each table is `ProgramTables`: the program's files, in order, each parsed with the program's window sizes. |
| ParsePdfs.WriteSpecStops | utils/parsepdfs/parsepdfs.py:79-82 | After a failed lookup, later programs write nothing. |
| ParsePdfs.WriteSpecNext | utils/parsepdfs/parsepdfs.py:74-86 | Each further program either ends the run with its failed lookup, or appends its CSV to those already written. |
| PdfScenarios.KeptAsText | utils/parsepdfs/parsepdfs.py:42-43 | A line that starts with a non-space character is kept as text. |
| PdfScenarios.KeywordShapeCells | utils/parsepdfs/parsepdfs.py:55 | In any document that starts like the keyword document, the row at index 7 with windows 6 and 3 is the nine lines from index 1, read as text. |
| PdfScenarios.KeywordDocumentCells | utils/parsepdfs/parsepdfs.py:55 | In the keyword document, with windows 6 and 3, the row at index 7 is the nine lines from index 1. |
| PdfScenarios.KeywordDocumentRows | utils/parsepdfs/parsepdfs.py:41-65 | The keyword document, seven `Header` lines, `Zila Dhaka` and eight numbers, has exactly one row, at index 7, of length 9. |
| PdfScenarios.NumericDocumentWindow | utils/parsepdfs/parsepdfs.py:46-47 | In the numeric document, index 7's window is `Dhaka` with the values `0 0 0 0 1 2 3 4`. |
| PdfScenarios.NumericWindowAccepted | utils/parsepdfs/parsepdfs.py:48-51 | The integer tier runs on that window and accepts it. |
| PdfScenarios.SoleRowAtSeven | utils/parsepdfs/parsepdfs.py:41-65 | A document whose index 7 is an anchor and whose later lines are digit strings has exactly one row, at index 7. |
| PdfScenarios.NumericShapeRows | utils/parsepdfs/parsepdfs.py:41-65 | In any document that starts like the numeric document, with digit strings elsewhere, index 7 is found by the integer tier and is the only anchor. |
| PdfScenarios.NumericDocumentRows | utils/parsepdfs/parsepdfs.py:41-65 | In the numeric document, index 7 is found by the integer tier, not by a keyword, and it is the only anchor. |
| CensusFrame.NamedRule | utils/dp_bbs_census2011/dp_bbs_census2011.py:24-30 | The named layout's rule: `XXX` and width 3 for `MZ/MH`, `XX` and width 2 for the others. |
| CensusFrame.FallbackRuleAsWritten | utils/dp_bbs_census2011/dp_bbs_census2011.py:32-38 | The numbered layout's rule as written: `XX` and width 2 for every column, since `var == 3` never holds. |
| CensusFrame.FallbackRule | utils/dp_bbs_census2011/dp_bbs_census2011.py:32-38 | The corrected numbered rule: `XXX` and width 3 for column `3`, `XX` and width 2 for the others. |
| CensusFrame.FixText | utils/dp_bbs_census2011/dp_bbs_census2011.py:26-30 | One cell's clean-up: replace every `-9` by the rule's marker, then left-pad with `0` to the rule's width. |
| CensusFrame.HasAll | utils/dp_bbs_census2011/dp_bbs_census2011.py:23 | `all([var in list(data.columns) for var in ...])`. |
| CensusFrame.FixColumn | utils/dp_bbs_census2011/dp_bbs_census2011.py:26-27 | Rewriting one column keeps the frame well-formed, with the same columns and the same row count. |
| CensusFrame.FixAll | utils/dp_bbs_census2011/dp_bbs_census2011.py:24-30 | Rewriting the listed columns keeps the frame's shape. |
| CensusFrame.FixAllCell | utils/dp_bbs_census2011/dp_bbs_census2011.py:24-38 | A value of a listed column is cleaned with its column's rule. Every other value is unchanged. |
| CensusFrame.FirstMissing | utils/dp_bbs_census2011/dp_bbs_census2011.py:32-38 | The result is none exactly when all names are columns. Otherwise it is a listed name that is not a column. |
| CensusFrame.FirstMissingAt | utils/dp_bbs_census2011/dp_bbs_census2011.py:32-38 | The reported name is the first absent one in processing order. |
| CensusFrame.Prepare | utils/dp_bbs_census2011/dp_bbs_census2011.py:23-38 | The clean-up keeps the columns and the row count. It raises `KeyError` exactly when neither the named columns (the constant `GeoColumns`: `UZ`, `UN/WA`, `MZ/MH`, `Vill`, `RMO`) nor the numbered columns (the constant `NumberedColumns`: `1` to `5`) are all present, and the key is a missing numbered column. |
| CensusFrame.FixColumns | utils/dp_bbs_census2011/dp_bbs_census2011.py:24-38 | The column loop, which updates the frame one column after another, produces the clean-up of every listed column under its own rule. It raises `KeyError` for the first listed column that is absent, and its result is that `KeyError`. |
| CensusFrame.PrepareColumns | utils/dp_bbs_census2011/dp_bbs_census2011.py:22-38 | The clean-up step equals `Prepare` for any rule of the numbered layout. The code as written is the instance `FallbackRuleAsWritten` (see Findings). |
| CensusFrame.FixTextMissing | utils/dp_bbs_census2011/dp_bbs_census2011.py:26-27 | A missing code `-9` becomes exactly the marker. |
| CensusFrame.FixTextDigits | utils/dp_bbs_census2011/dp_bbs_census2011.py:29-30 | A digit code is only zero-padded, and stays a digit string. |
| CensusFrame.FixTextNoSentinel | utils/dp_bbs_census2011/dp_bbs_census2011.py:26-30 | No `-9` survives the clean-up. |
| CensusFrame.FixTextIdempotent | utils/dp_bbs_census2011/dp_bbs_census2011.py:26-30 | Cleaning a cleaned value changes nothing. |
| CensusFrame.FixTextMatches | utils/dp_bbs_census2011/dp_bbs_census2011.py:26-30 | A value that is `-9` or digits cleans to a given `X…` text exactly when it was `-9` and the marker is that text. |
| CensusFrame.CheckIsMarker | utils/dp_bbs_census2011/dp_bbs_census2011.py:40 | The constant `Check`, the list `check`, is `XX`, `XX`, `XXX`, `XX`, `XX`: `XXX` at position 2, `XX` elsewhere. |
| CensusFrame.MatchCode | utils/dp_bbs_census2011/dp_bbs_census2011.py:43-47 | The code has one `0`/`1` character per geography position that exists, 5 for a full row. A `1` marks exactly a position whose value is the string `check` expects there. |
| CensusFrame.Codes | utils/dp_bbs_census2011/dp_bbs_census2011.py:41-48 | The `check_var` list: one code per row, in row order. |
| CensusFrame.CodesSingle | utils/dp_bbs_census2011/dp_bbs_census2011.py:41-48 | A one-row frame has its row's code as its only code. |
| CensusFrame.BuildCheckVar | utils/dp_bbs_census2011/dp_bbs_census2011.py:41-48 | The appending loop yields one code per row, in row order. |
| CensusFrame.LayoutCell | utils/dp_bbs_census2011/dp_bbs_census2011.py:23-47 | After clean-up, a clean geography value matches `check` exactly when it was `-9` and its rule's marker is the one compared. |
| CensusFrame.LayoutCode | utils/dp_bbs_census2011/dp_bbs_census2011.py:23-47 | When each rule gives the marker that `check` compares with, a clean row's code is its missing pattern. |
| CensusFrame.NamedLayoutCode | utils/dp_bbs_census2011/dp_bbs_census2011.py:23-47 | In the named layout, a clean row's code marks exactly its missing levels. |
| CensusFrame.NumberedLayoutCode | utils/dp_bbs_census2011/dp_bbs_census2011.py:31-47 | In the numbered layout with the corrected rule, a clean row's code marks exactly its missing levels. |
| CensusFrame.AsWrittenCode | utils/dp_bbs_census2011/dp_bbs_census2011.py:31-47 | In the numbered layout with the rule as written, a clean row's code is its missing pattern with position 2 forced to `0`. |
| CensusFrame.SetColumnKeepsIndex | utils/dp_bbs_census2011/dp_bbs_census2011.py:49 | Assigning one column leaves every other column at its position. |
| CensusFrame.SetColumn | utils/dp_bbs_census2011/dp_bbs_census2011.py:49 | Assigning a column keeps the frame well-formed and the column present. The column holds the given values, and every other column is unchanged. |
| CensusFrame.CellIs | utils/dp_bbs_census2011/dp_bbs_census2011.py:52 | The mask `data[c] == v` for the column at position j. |
| CensusFrame.Filter | utils/dp_bbs_census2011/dp_bbs_census2011.py:52 | A boolean mask selects at most as many rows as the frame has. |
| CensusFrame.FilterMembers | utils/dp_bbs_census2011/dp_bbs_census2011.py:52 | A row is selected exactly when it is in the frame and the mask accepts it. |
| CensusFrame.FilterCount | utils/dp_bbs_census2011/dp_bbs_census2011.py:52 | A selected row appears as often as in the frame. A rejected row does not appear. |
| CensusFrame.FilterKeepsRow | utils/dp_bbs_census2011/dp_bbs_census2011.py:52 | A row the mask accepts is among the kept rows. |
| CensusFrame.FilterKeepsAll | utils/dp_bbs_census2011/dp_bbs_census2011.py:52 | A mask that accepts every row leaves the frame's rows as they are. |
| CensusFrame.FilterKeepsSingle | utils/dp_bbs_census2011/dp_bbs_census2011.py:52 | A one-row frame whose row the mask accepts is kept whole. |
| CensusFrame.FilterConcat | utils/dp_bbs_census2011/dp_bbs_census2011.py:52 | Filtering two consecutive blocks of rows gives the two filtered blocks in the same order: a mask keeps the frame's row order. |
| CensusFrame.FilterTwice | utils/dp_bbs_census2011/dp_bbs_census2011.py:52-57 | Filtering by one mask and then another is filtering once by the conjunction of both, with the same rows in the same order. |
| CensusFrame.Where | utils/dp_bbs_census2011/dp_bbs_census2011.py:52 | A boolean filter on one column keeps the columns. Its rows are the frame's rows whose value in that column equals the given one: in frame order, with repeats, and no others. |
| CensusOutput.MatchesCsvName | utils/dp_bbs_census2011/dp_bbs_census2011.py:15 | `re.search('.csv', file)`: some character other than a newline followed by `csv`. |
| CensusOutput.CsvPaths | utils/dp_bbs_census2011/dp_bbs_census2011.py:13-17 | The list `collect_filenames` returns: the joined path of each matching walk entry, in walk order. |
| CensusOutput.CsvSuffixMatches | utils/dp_bbs_census2011/dp_bbs_census2011.py:15 | Any name ending in `.csv` is collected. |
| CensusOutput.UnescapedDotCsv | utils/dp_bbs_census2011/dp_bbs_census2011.py:15 | `notes_csv.txt` is collected because the dot is unescaped. `csv` alone and `table.CSV` are not. |
| CensusOutput.CsvPathsExactly | utils/dp_bbs_census2011/dp_bbs_census2011.py:13-16 | Exactly the matching walk entries are collected, each as its joined path. |
| CensusOutput.CollectFilenames | utils/dp_bbs_census2011/dp_bbs_census2011.py:11-17 | The appending loop yields the matching paths in walk order. |
| CensusOutput.Targets | utils/dp_bbs_census2011/dp_bbs_census2011.py:50-103 | The `elif` chain: for each recognised code, the output prefixes it writes, each with the `RMO` value it filters on, or none. |
| CensusOutput.TargetsByCode | utils/dp_bbs_census2011/dp_bbs_census2011.py:50-103 | Five codes write one unsplit file. Three codes write three files filtered on `RMO` 01, 02 and 03. Every other code writes nothing. |
| CensusOutput.RouteOfTargets | utils/dp_bbs_census2011/dp_bbs_census2011.py:51-103 | Each output prefix identifies its code and target, and is a non-empty relative name. |
| CensusOutput.PrefixesDistinct | utils/dp_bbs_census2011/dp_bbs_census2011.py:51-103 | Distinct code/target pairs have distinct prefixes. |
| CensusOutput.OutputName | utils/dp_bbs_census2011/dp_bbs_census2011.py:53 | `os.path.join(out_dir, prefix + os.path.split(file.replace('.pdf', '.csv'))[1])`. |
| CensusOutput.PrefixedNamesDiffer | utils/dp_bbs_census2011/dp_bbs_census2011.py:53 | Different prefixes stay different in front of a common file name. |
| CensusOutput.OutputNamesDistinct | utils/dp_bbs_census2011/dp_bbs_census2011.py:53 | For one input file, distinct relative prefixes give distinct output paths. |
| CensusOutput.OutputPathsDistinct | utils/dp_bbs_census2011/dp_bbs_census2011.py:51-103 | No output of a file overwrites another output of the same file. |
| CensusOutput.RmoKeeps | utils/dp_bbs_census2011/dp_bbs_census2011.py:57-63 | A target's `RMO` mask: `tmp['RMO'] == value` when split, every row otherwise. |
| CensusOutput.NeedsRmo | utils/dp_bbs_census2011/dp_bbs_census2011.py:57-63 | Some target of the code filters on `RMO`. |
| CensusOutput.Routed | utils/dp_bbs_census2011/dp_bbs_census2011.py:57-63 | A split target's frame is the filter of the code's frame on its `RMO` value, in order and with repeats. An unsplit target keeps all rows. |
| CensusOutput.SubsetWrites | utils/dp_bbs_census2011/dp_bbs_census2011.py:50-103 | A code raises `KeyError('RMO')` exactly when it is split and the frame lacks `RMO`, and nothing is written then. Otherwise it writes one output per target. |
| CensusOutput.SubsetWritesSound | utils/dp_bbs_census2011/dp_bbs_census2011.py:51-103 | Each output of a code goes to its target's path. Its rows are the frame's rows filtered on that `check_var`, and on the target's `RMO` when split: in frame order, each as often as in the frame, and no others. |
| CensusOutput.Selecting | utils/dp_bbs_census2011/dp_bbs_census2011.py:52-63 | A target's combined mask: `check_var` equal to the code, and the target's `RMO` mask. |
| CensusOutput.SelectingAccepts | utils/dp_bbs_census2011/dp_bbs_census2011.py:52-63 | A target's mask accepts a row exactly when it holds the code in `check_var`, and the target's `RMO` when split. |
| CensusOutput.SelectedRowWritten | utils/dp_bbs_census2011/dp_bbs_census2011.py:51-103 | A row holding the code, and the target's `RMO` when split, is in that target's output. |
| CensusOutput.UnsplitSingleRowWritten | utils/dp_bbs_census2011/dp_bbs_census2011.py:51-54 | A one-row frame with code `11111` is written whole to the `ZilaTotal_` file, and only there. |
| CensusOutput.SubsetsWritesSingle | utils/dp_bbs_census2011/dp_bbs_census2011.py:50-103 | A loop over one code produces just that code's writes. |
| CensusOutput.SubsetWritesUnrouted | utils/dp_bbs_census2011/dp_bbs_census2011.py:50-103 | A code that no branch recognises writes nothing and raises nothing. |
| CensusOutput.SubsetsWrites | utils/dp_bbs_census2011/dp_bbs_census2011.py:50-103 | The outputs of the loop over the given codes, in order, ending at the first `KeyError`. |
| CensusOutput.SubsetsWritesComplete | utils/dp_bbs_census2011/dp_bbs_census2011.py:50-103 | Without an error, every output of every listed code is written. |
| CensusOutput.NeedsRmoSplit | utils/dp_bbs_census2011/dp_bbs_census2011.py:50-103 | A code needs the `RMO` column exactly when it is one of the three split codes. |
| CensusOutput.SubsetsWritesError | utils/dp_bbs_census2011/dp_bbs_census2011.py:57 | An error is always `KeyError('RMO')`, from a split code on a frame without `RMO`. |
| CensusOutput.WriteSubsets | utils/dp_bbs_census2011/dp_bbs_census2011.py:50-103 | The loop over the distinct codes produces the outputs of the codes in turn, stopping at the first error. |
| CensusOutput.SubsetsWritesStop | utils/dp_bbs_census2011/dp_bbs_census2011.py:50-103 | After an error, later codes write nothing. |
| CensusOutput.Labelled | utils/dp_bbs_census2011/dp_bbs_census2011.py:49 | Setting `check_var` keeps the frame well-formed and the row count, and the column is present. |
| CensusOutput.LabelledKeepsRmo | utils/dp_bbs_census2011/dp_bbs_census2011.py:49 | Adding `check_var` leaves `RMO` at its position. |
| CensusOutput.LabelledCodes | utils/dp_bbs_census2011/dp_bbs_census2011.py:41-49 | Every row holds its own code in `check_var`. |
| CensusOutput.FileOutcome | utils/dp_bbs_census2011/dp_bbs_census2011.py:22-103 | One file's outcome: the clean-up's `KeyError`, or the writes of its distinct codes in first-appearance order. |
| CensusOutput.ProcessFile | utils/dp_bbs_census2011/dp_bbs_census2011.py:22-103 | One file's processing, for any rule of the numbered layout: the clean-up, the codes, and the writes for each distinct code in first-appearance order. |
| CensusOutput.SingleRowOutcome | utils/dp_bbs_census2011/dp_bbs_census2011.py:22-103 | A one-row file that survives the clean-up writes exactly what its row's code writes. |
| CensusOutput.PreparedRowRouted | utils/dp_bbs_census2011/dp_bbs_census2011.py:42-103 | On a cleaned frame, a row with a recognised code reaches the output of each target whose `RMO` it holds, unless the loop over codes raised. |
| CensusOutput.RowRouted | utils/dp_bbs_census2011/dp_bbs_census2011.py:42-103 | For any rule of the numbered layout, a row with a recognised code reaches the output of each target whose `RMO` it holds, unless the file raised. |
| CensusOutput.Sequenced | utils/dp_bbs_census2011/dp_bbs_census2011.py:21-103 | Running outcomes one after another: their outputs concatenated, up to and including the first that raises. |
| CensusOutput.SequencedStops | utils/dp_bbs_census2011/dp_bbs_census2011.py:21-22 | Once an outcome in the sequence raises, the later outcomes change nothing. |
| CensusOutput.SequencedCollects | utils/dp_bbs_census2011/dp_bbs_census2011.py:21-103 | Without an error, no outcome raised, and every output of every outcome is among the run's outputs. |
| CensusOutput.FileOutcomes | utils/dp_bbs_census2011/dp_bbs_census2011.py:21-103 | Each file's outcome, in list order, with its frame from `read`. |
| CensusOutput.RunOutcome | utils/dp_bbs_census2011/dp_bbs_census2011.py:20-103 | The outcome of `process_files`: the file outcomes sequenced. |
| CensusOutput.RunStops | utils/dp_bbs_census2011/dp_bbs_census2011.py:21-22 | Once a file raises, the later files are not processed. |
| CensusOutput.RunCollects | utils/dp_bbs_census2011/dp_bbs_census2011.py:21-103 | Without an error, every output of every file is written. |
| CensusOutput.ProcessFiles | utils/dp_bbs_census2011/dp_bbs_census2011.py:20-103 | For any rule of the numbered layout, the code as written included, the loop over files produces the outputs of each file in turn, stopping at the first `KeyError`. |
| CensusOutput.ThirdLevelZeroRoutes | utils/dp_bbs_census2011/dp_bbs_census2011.py:50-103 | A code with `0` at position 2 reaches only the mouza/mahalla or village totals. |
| CensusOutput.DistrictWithoutThirdLevelUnrouted | utils/dp_bbs_census2011/dp_bbs_census2011.py:50-103 | A code with `1` at position 0 and `0` at position 2 is recognised by no branch. |
| CensusOutput.AllMissingRow | utils/dp_bbs_census2011/dp_bbs_census2011.py:40-47 | A row whose five geography values are all `-9` is clean, and its missing pattern is `11111`. |
| CensusOutput.ZilaTotalFrameShape | utils/dp_bbs_census2011/dp_bbs_census2011.py:31-38 | The example frame is in the numbered layout, with one clean row whose missing pattern is `11111`. |
| CensusOutput.AsWrittenDropsZilaTotal | utils/dp_bbs_census2011/dp_bbs_census2011.py:33-53 | As written, a numbered-layout zila total gets `11011` and is written nowhere. With the corrected rule it gets `11111` and goes to the `ZilaTotal_` file. |
| CensusOutput.AsWrittenFileOutcome | utils/dp_bbs_census2011/dp_bbs_census2011.py:31-54 | As written, a numbered-layout file whose one clean row has all five levels missing writes nothing and raises nothing. |
| CensusOutput.CorrectedFileOutcome | utils/dp_bbs_census2011/dp_bbs_census2011.py:31-54 | With the corrected rule, the same file writes one output, to `ZilaTotal_<file>`, holding the whole labelled frame. |
| CensusOutput.ZilaTotalCodes | utils/dp_bbs_census2011/dp_bbs_census2011.py:50-103 | `11111` with position 2 forced to `0` is `11011`, which no branch routes. `11111` itself goes to the `ZilaTotal_` file alone. |

## Left out

- Reading PDFs (`open`, `PyPDF2`, `getNumPages`, `extractText`) is replaced by the parameter `extract`, which gives the page texts of a path.
- The grammars of `int()` and `float()` (signs, blanks, underscores, `inf`, `nan`, non-ASCII digits) are not modelled. They are the parameter `NumberSyntax`, and lemmas that need Python's behaviour on digit strings assume `Consistent` and `ReadsDigits`.
- `pd.DataFrame.from_dict(subset, orient='index', columns=col_names)` and `Config.cols_dict` are not modelled. pandas widens the frame to its widest row and pads shorter rows with empty cells. It raises when the widest row's length differs from `len(col_names)`. The model keeps each row as its slice, so a row cut short near the end of the stream (`ParsePdfs.RowLength`) stays short. It captures neither the padding nor that error.
- `Config.parse_parameters` is a map from program to window sizes. Only a missing program is modelled as a failure; a program entry without `ncol_before` or `ncol_after` is not.
- `read_csv` and `to_csv` are not modelled. The frame of a path is the parameter `read`, and writes are `Output` records in call order. How pandas renders a non-string value with `astype(str)` is abstract (the `shown` field of `Cell`), and so is the file content.
- `os.walk` is replaced by the list of `(directory, name)` entries it yields, in walk order.
- `print`, `sys.argv`, `main` and I/O errors (missing or unreadable files) are not modelled.
- ParsePdfs.RowCellsAt: stated only for anchors with `ncol_before <= k`. A larger `ncol_before` makes Python's negative slice bound count from the end; `Slice` models that, but no lemma is stated about it.
- PyStr.IsDigits: accepts ASCII digits only. Python's `str.isdigit` also accepts other Unicode digits, such as Bengali `১২` or `²`. A label made of such digits is rejected by the integer tier in the code but accepted in the model. This affects `PdfAnchor.IntTierAccepts`, `PdfAnchor.IntTierMeaning`, `PdfAnchor.DigitLabelNeverAnchor` and `ParsePdfs.DigitLineNotAnchored`.

Facts about the code that the model follows:

- **Windows near the end.** A window near the end of the stream is cut short: 4 to 8 value candidates, and rows shorter than `ncol_before + ncol_after` (`PdfAnchor.Candidates`, `ParsePdfs.RowLength`).
- **Window position.** The value candidates are the four tokens before the label and the four after it.
- **Program order.** Programs are processed in order of first appearance (pandas `unique`).
- **Missing values.** The only sentinel is the integer `-9`.

## Findings

| source | as written | input that shows it | evidently intended | confidence | as-written member | corrected member |
|---|---|---|---|---|---|---|
| utils/dp_bbs_census2011/dp_bbs_census2011.py:33 | `var == 3` compares the column name, a string, with the integer 3. It never holds, so column `3` gets `XX` and width 2 like the others. The code of any row whose third level is missing then has `0` at position 2. | `ZilaTotalFrame`: columns `Zila, 1..5`, one row `Dhaka, -9, -9, -9, -9, -9`. It gets code `11011`, which no branch recognises, so the district total is written nowhere. | Column `3` is the third geography level, like `MZ/MH`: it gets `XXX` and width 3, and the row's code is `11111`, written to `ZilaTotal_<file>` | not executed; high | CensusOutput.AsWrittenFileOutcome | CensusOutput.CorrectedFileOutcome |

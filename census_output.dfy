/**
 * The file selection and the output routing of
 * utils/dp_bbs_census2011/dp_bbs_census2011.py: `collect_filenames`, and the
 * part of `process_files` that sets `check_var`, sends the rows of each
 * recognised code to their own CSV (split three ways by `RMO` for three of
 * the codes) and names that CSV after the input file.
 *
 * Reading and writing CSV files are parameters and results: `read` gives the
 * frame of a path, and every `to_csv` call is an `Output` in the order made.
 */
module CensusOutput {
  import opened PyStr
  import opened CensusFrame

  // ---------------------------------------------------------------------------
  // collect_filenames

  /** `re.search('.csv', name)`: any character but a newline followed by
      `csv`, anywhere in the name; the dot is not escaped. */
  predicate MatchesCsvName(name: string)
  {
    exists i: nat :: i + 4 <= |name| && name[i] != '\n' && name[i + 1..i + 4] == "csv"
  }

  /** A name ending in `.csv` is collected. */
  lemma CsvSuffixMatches(name: string)
    requires |name| >= 4 && name[|name| - 4..] == ".csv"
    ensures MatchesCsvName(name)
  {
    var i := |name| - 4;
    assert name[i] == name[i..][0] == '.';
    assert name[i + 1..i + 4] == name[i..][1..];
  }

  /** Because the dot is unescaped, `csv` after any other character is
      collected too; `csv` on its own and an upper-case `.CSV` are not. */
  lemma UnescapedDotCsv()
    ensures MatchesCsvName("notes_csv.txt")
    ensures !MatchesCsvName("csv") && !MatchesCsvName("table.CSV")
  {
    var notes := "notes_csv.txt";
    assert notes[5] == '_' && notes[6..9] == "csv";
    var upper := "table.CSV";
    forall i: nat | i + 4 <= |upper| && upper[i] != '\n'
      ensures upper[i + 1..i + 4] != "csv"
    {
      assert upper[i + 1..i + 4][2] == upper[i + 3] != 'v';
    }
  }

  /** The paths `collect_filenames` returns, in walk order. */
  function CsvPaths(entries: seq<DirEntry>): seq<string>
  {
    if |entries| == 0 then []
    else
      var e := entries[|entries| - 1];
      CsvPaths(entries[..|entries| - 1]) + (if MatchesCsvName(e.name) then [PathJoin(e.dir, e.name)] else [])
  }

  /** Exactly the matching entries are collected, each as its joined path. */
  lemma {:induction false} CsvPathsExactly(entries: seq<DirEntry>)
    ensures forall f :: f in CsvPaths(entries) ==>
              exists e :: e in entries && MatchesCsvName(e.name) && f == PathJoin(e.dir, e.name)
    ensures forall e :: e in entries && MatchesCsvName(e.name) ==> PathJoin(e.dir, e.name) in CsvPaths(entries)
  {
    if |entries| > 0 {
      var init := entries[..|entries| - 1];
      CsvPathsExactly(init);
      assert forall e :: e in entries <==> e in init || e == entries[|entries| - 1];
    }
  }

  /** `collect_filenames`: the appending loop over the walk. */
  method CollectFilenames(entries: seq<DirEntry>) returns (files: seq<string>)
    ensures files == CsvPaths(entries)
  {
    files := [];
    for i := 0 to |entries|
      invariant files == CsvPaths(entries[..i])
    {
      var e := entries[i];
      if MatchesCsvName(e.name) {
        files := files + [PathJoin(e.dir, e.name)];
      }
      assert entries[..i + 1][..i] == entries[..i];
    }
    assert entries[..|entries|] == entries;
  }

  // ---------------------------------------------------------------------------
  // Routing codes to files

  /** Where the rows of a code go: a file-name prefix and, for a code split by
      `RMO`, the `RMO` value the rows must hold. */
  datatype Target = Target(prefix: string, rmo: Option<string>)

  /** The branch of the `subset` chain a code takes; an unrecognised code
      writes nothing. */
  function Targets(code: string): seq<Target>
  {
    if code == "11111" then [Target("ZilaTotal_", None)]
    else if code == "11110" then
      [Target("ZilaTotal_Urban_", Some("01")), Target("ZilaTotal_Rural_", Some("02")), Target("ZilaTotal_Other_", Some("03"))]
    else if code == "01111" then [Target("UpazilaTotal_", None)]
    else if code == "01110" then
      [Target("UpazilaTotal_Urban_", Some("01")), Target("UpazilaTotal_Rural_", Some("02")),
       Target("UpazilaTotal_Other_", Some("03"))]
    else if code == "00111" then [Target("UnionWardsTotal_", None)]
    else if code == "00110" then
      [Target("UnionWardsTotal_Urban_", Some("01")), Target("UnionWardsTotal_Rural_", Some("02")),
       Target("UnionWardsTotal_Other_", Some("03"))]
    else if code == "00010" then [Target("MouzaMahallaTotal_", None)]
    else if code == "00000" then [Target("VillageTotal_", None)]
    else []
  }

  const UnsplitCodes: seq<string> := ["11111", "01111", "00111", "00010", "00000"]
  const SplitCodes: seq<string> := ["11110", "01110", "00110"]

  /** Five codes write all their rows to one file, three codes split theirs
      into `RMO` 01, 02 and 03, and every other code writes nothing. */
  lemma TargetsByCode(code: string)
    ensures code in UnsplitCodes ==> |Targets(code)| == 1 && Targets(code)[0].rmo.None?
    ensures code in SplitCodes ==>
              |Targets(code)| == 3 && Targets(code)[0].rmo == Some("01")
              && Targets(code)[1].rmo == Some("02") && Targets(code)[2].rmo == Some("03")
    ensures code !in UnsplitCodes && code !in SplitCodes <==> Targets(code) == []
  {
    if code in UnsplitCodes {
      assert |Targets(code)| == 1;
    } else if code in SplitCodes {
      assert |Targets(code)| == 3;
    }
  }

  /** The code and target index a prefix was made for: the inverse of
      `Targets`, read off the file name. */
  function RouteOf(prefix: string): (string, nat)
  {
    if prefix == "ZilaTotal_" then ("11111", 0)
    else if prefix == "ZilaTotal_Urban_" then ("11110", 0)
    else if prefix == "ZilaTotal_Rural_" then ("11110", 1)
    else if prefix == "ZilaTotal_Other_" then ("11110", 2)
    else if prefix == "UpazilaTotal_" then ("01111", 0)
    else if prefix == "UpazilaTotal_Urban_" then ("01110", 0)
    else if prefix == "UpazilaTotal_Rural_" then ("01110", 1)
    else if prefix == "UpazilaTotal_Other_" then ("01110", 2)
    else if prefix == "UnionWardsTotal_" then ("00111", 0)
    else if prefix == "UnionWardsTotal_Urban_" then ("00110", 0)
    else if prefix == "UnionWardsTotal_Rural_" then ("00110", 1)
    else if prefix == "UnionWardsTotal_Other_" then ("00110", 2)
    else if prefix == "MouzaMahallaTotal_" then ("00010", 0)
    else if prefix == "VillageTotal_" then ("00000", 0)
    else ("", 0)
  }

  lemma RouteOfZila()
    ensures RouteOf("ZilaTotal_") == ("11111", 0)
    ensures RouteOf("ZilaTotal_Urban_") == ("11110", 0)
    ensures RouteOf("ZilaTotal_Rural_") == ("11110", 1)
    ensures RouteOf("ZilaTotal_Other_") == ("11110", 2)
  {
  }

  lemma RouteOfUpazila()
    ensures RouteOf("UpazilaTotal_") == ("01111", 0)
    ensures RouteOf("UpazilaTotal_Urban_") == ("01110", 0)
    ensures RouteOf("UpazilaTotal_Rural_") == ("01110", 1)
    ensures RouteOf("UpazilaTotal_Other_") == ("01110", 2)
  {
  }

  lemma RouteOfUnionWards()
    ensures RouteOf("UnionWardsTotal_") == ("00111", 0)
    ensures RouteOf("UnionWardsTotal_Urban_") == ("00110", 0)
    ensures RouteOf("UnionWardsTotal_Rural_") == ("00110", 1)
    ensures RouteOf("UnionWardsTotal_Other_") == ("00110", 2)
  {
  }

  lemma RouteOfLowest()
    ensures RouteOf("MouzaMahallaTotal_") == ("00010", 0)
    ensures RouteOf("VillageTotal_") == ("00000", 0)
  {
  }

  /** Every prefix names its code and target: `RouteOf` undoes `Targets`. */
  lemma RouteOfTargets(code: string, i: nat)
    requires i < |Targets(code)|
    ensures RouteOf(Targets(code)[i].prefix) == (code, i)
    ensures |Targets(code)[i].prefix| > 0 && Targets(code)[i].prefix[0] != '/'
  {
    if code == "11111" || code == "11110" {
      RouteOfZila();
    } else if code == "01111" || code == "01110" {
      RouteOfUpazila();
    } else if code == "00111" || code == "00110" {
      RouteOfUnionWards();
    } else {
      RouteOfLowest();
    }
  }

  /** Distinct (code, target) pairs have distinct prefixes. */
  lemma PrefixesDistinct(c1: string, i: nat, c2: string, j: nat)
    requires i < |Targets(c1)| && j < |Targets(c2)| && (c1 != c2 || i != j)
    ensures Targets(c1)[i].prefix != Targets(c2)[j].prefix
  {
    RouteOfTargets(c1, i);
    RouteOfTargets(c2, j);
  }

  /** `os.path.join(out_dir, prefix + os.path.split(file.replace('.pdf', '.csv'))[1])` */
  function OutputName(outDir: string, file: string, prefix: string): string
  {
    PathJoin(outDir, prefix + Basename(ReplaceAll(file, ".pdf", ".csv")))
  }

  /** Two different prefixes stay different in front of a common suffix. */
  lemma PrefixedNamesDiffer(p1: string, p2: string, base: string)
    requires p1 != p2
    ensures p1 + base != p2 + base
  {
    var n1, n2 := p1 + base, p2 + base;
    if |p1| == |p2| {
      var t :| 0 <= t < |p1| && p1[t] != p2[t];
      assert n1[t] == p1[t] && n2[t] == p2[t];
    } else {
      assert |n1| != |n2|;
    }
  }

  /** For one input file, different prefixes give different output paths. */
  lemma OutputNamesDistinct(outDir: string, file: string, p1: string, p2: string)
    requires |p1| > 0 && |p2| > 0 && p1[0] != '/' && p2[0] != '/' && p1 != p2
    ensures OutputName(outDir, file, p1) != OutputName(outDir, file, p2)
  {
    var base := Basename(ReplaceAll(file, ".pdf", ".csv"));
    var b1, b2 := p1 + base, p2 + base;
    assert b1[0] == p1[0] && b2[0] == p2[0];
    PathJoinRelative(outDir, b1);
    PathJoinRelative(outDir, b2);
    PrefixedNamesDiffer(p1, p2, base);
    var r1, r2 := PathJoin(outDir, b1), PathJoin(outDir, b2);
    if |b1| != |b2| {
      assert |r1| != |r2|;
    } else {
      assert r1[|r1| - |b1|..] != r2[|r2| - |b2|..];
    }
  }

  /** For one input file, distinct (code, target) pairs write distinct
      paths, so no output of a file overwrites another. */
  lemma OutputPathsDistinct(outDir: string, file: string, c1: string, i: nat, c2: string, j: nat)
    requires i < |Targets(c1)| && j < |Targets(c2)| && (c1 != c2 || i != j)
    ensures OutputName(outDir, file, Targets(c1)[i].prefix) != OutputName(outDir, file, Targets(c2)[j].prefix)
  {
    PrefixesDistinct(c1, i, c2, j);
    RouteOfTargets(c1, i);
    RouteOfTargets(c2, j);
    OutputNamesDistinct(outDir, file, Targets(c1)[i].prefix, Targets(c2)[j].prefix);
  }

  // ---------------------------------------------------------------------------
  // Writing one file's outputs

  const CheckVar: string := "check_var"

  /** One `to_csv` call: the path and the frame written. */
  datatype Output = Output(path: string, table: Table)

  /** The outputs made so far and the column whose `KeyError` ended the run,
      if one did. */
  datatype Written = Written(outputs: seq<Output>, error: Option<string>)

  /** The mask a target puts on the rows of its code: every row when the
      code is not split, else the rows whose `RMO` is the target's value. */
  function RmoKeeps(columns: seq<string>, t: Target): seq<Cell> -> bool
    requires t.rmo.Some? ==> "RMO" in columns
  {
    match t.rmo
    case None => row => true
    case Some(v) => CellIs(FirstIndex(columns, "RMO"), Str(v))
  }

  /** `tmp` or `tmp[tmp['RMO'] == value]`, as the target asks. */
  function Routed(tmp: Table, t: Target): (r: Table)
    requires WellFormed(tmp) && (t.rmo.Some? ==> "RMO" in tmp.columns)
    ensures WellFormed(r) && r.columns == tmp.columns
    ensures r.rows == Filter(tmp.rows, RmoKeeps(tmp.columns, t))
    ensures forall row :: row in r.rows <==>
              row in tmp.rows && (t.rmo.Some? ==> row[FirstIndex(tmp.columns, "RMO")] == Str(t.rmo.value))
  {
    match t.rmo
    case None =>
      FilterKeepsAll(tmp.rows, RmoKeeps(tmp.columns, t));
      tmp
    case Some(v) => Where(tmp, FirstIndex(tmp.columns, "RMO"), Str(v))
  }

  predicate NeedsRmo(code: string)
  {
    exists i :: 0 <= i < |Targets(code)| && Targets(code)[i].rmo.Some?
  }

  /** Only the three split codes need the `RMO` column. */
  lemma NeedsRmoSplit(code: string)
    ensures NeedsRmo(code) <==> code in SplitCodes
  {
    TargetsByCode(code);
    if code in SplitCodes {
      assert Targets(code)[0].rmo.Some?;
    }
  }

  /** The branch for one value of `check_var`: the rows holding it, written
      once per target; a split code on a frame without `RMO` raises
      `KeyError` before anything is written. */
  function SubsetWrites(data: Table, file: string, outDir: string, code: string): (w: Written)
    requires WellFormed(data) && CheckVar in data.columns
    ensures w.error.Some? <==> NeedsRmo(code) && "RMO" !in data.columns
    ensures w.error.Some? ==> w.outputs == [] && w.error == Some("RMO")
    ensures w.error.None? ==> |w.outputs| == |Targets(code)|
  {
    var ts := Targets(code);
    if NeedsRmo(code) && "RMO" !in data.columns then Written([], Some("RMO"))
    else
      var tmp := Where(data, FirstIndex(data.columns, CheckVar), Str(code));
      Written(seq(|ts|, i requires 0 <= i < |ts| => Output(OutputName(outDir, file, ts[i].prefix), Routed(tmp, ts[i]))), None)
  }

  /** The mask for the output of target `t` of `code`: the rows holding the
      code in `check_var` and, when split, the target's `RMO`. */
  function Selecting(columns: seq<string>, code: string, t: Target): seq<Cell> -> bool
    requires CheckVar in columns && (t.rmo.Some? ==> "RMO" in columns)
  {
    var hasCode, hasRmo := CellIs(FirstIndex(columns, CheckVar), Str(code)), RmoKeeps(columns, t);
    row => hasCode(row) && hasRmo(row)
  }

  /** Each output of a code goes to its target's path and holds the rows of
      the frame with that code (and, when split, that `RMO`): all of them,
      each as often as in the frame, in frame order, and no other. */
  lemma SubsetWritesSound(data: Table, file: string, outDir: string, code: string, k: nat)
    requires WellFormed(data) && CheckVar in data.columns
    requires SubsetWrites(data, file, outDir, code).error.None? && k < |Targets(code)|
    ensures k < |SubsetWrites(data, file, outDir, code).outputs|
    ensures Targets(code)[k].rmo.Some? ==> "RMO" in data.columns
    ensures SubsetWrites(data, file, outDir, code).outputs[k].path == OutputName(outDir, file, Targets(code)[k].prefix)
    ensures SubsetWrites(data, file, outDir, code).outputs[k].table.rows
            == Filter(data.rows, Selecting(data.columns, code, Targets(code)[k]))
  {
    var t := Targets(code)[k];
    var hasCode := CellIs(FirstIndex(data.columns, CheckVar), Str(code));
    var tmp := Where(data, FirstIndex(data.columns, CheckVar), Str(code));
    if t.rmo.Some? {
      assert NeedsRmo(code);
    }
    assert SubsetWrites(data, file, outDir, code).outputs[k] == Output(OutputName(outDir, file, t.prefix), Routed(tmp, t));
    FilterTwice(data.rows, hasCode, RmoKeeps(data.columns, t), Selecting(data.columns, code, t));
  }

  /** The mask of a target accepts exactly a row holding the code, and the
      target's `RMO` when split. */
  lemma SelectingAccepts(columns: seq<string>, code: string, t: Target, row: seq<Cell>)
    requires CheckVar in columns && (t.rmo.Some? ==> "RMO" in columns) && |row| == |columns|
    ensures Selecting(columns, code, t)(row) <==>
              row[FirstIndex(columns, CheckVar)] == Str(code)
              && (t.rmo.Some? ==> row[FirstIndex(columns, "RMO")] == Str(t.rmo.value))
  {
  }

  /** A row holding the code, and the target's `RMO` when split, is in that
      target's output. */
  lemma SelectedRowWritten(data: Table, file: string, outDir: string, code: string, k: nat, i: nat)
    requires WellFormed(data) && CheckVar in data.columns
    requires SubsetWrites(data, file, outDir, code).error.None? && k < |Targets(code)|
    requires i < |data.rows| && data.rows[i][FirstIndex(data.columns, CheckVar)] == Str(code)
    requires Targets(code)[k].rmo.Some? ==>
               "RMO" in data.columns && data.rows[i][FirstIndex(data.columns, "RMO")] == Str(Targets(code)[k].rmo.value)
    ensures k < |SubsetWrites(data, file, outDir, code).outputs|
    ensures SubsetWrites(data, file, outDir, code).outputs[k].path == OutputName(outDir, file, Targets(code)[k].prefix)
    ensures data.rows[i] in SubsetWrites(data, file, outDir, code).outputs[k].table.rows
  {
    SubsetWritesSound(data, file, outDir, code, k);
    SelectingAccepts(data.columns, code, Targets(code)[k], data.rows[i]);
    FilterKeepsRow(data.rows, Selecting(data.columns, code, Targets(code)[k]), i);
  }

  /** The loop over `data['check_var'].unique()`, up to the first error. */
  function SubsetsWrites(data: Table, file: string, outDir: string, subsets: seq<string>): Written
    requires WellFormed(data) && CheckVar in data.columns
  {
    if |subsets| == 0 then Written([], None)
    else
      var before := SubsetsWrites(data, file, outDir, subsets[..|subsets| - 1]);
      if before.error.Some? then before
      else
        var w := SubsetWrites(data, file, outDir, subsets[|subsets| - 1]);
        Written(before.outputs + w.outputs, w.error)
  }

  /** Without an error, every output of every listed code is written. */
  lemma {:induction false} SubsetsWritesComplete(data: Table, file: string, outDir: string, subsets: seq<string>, s: string)
    requires WellFormed(data) && CheckVar in data.columns
    requires SubsetsWrites(data, file, outDir, subsets).error.None?
    requires s in subsets
    ensures SubsetWrites(data, file, outDir, s).error.None?
    ensures forall o :: o in SubsetWrites(data, file, outDir, s).outputs ==> o in SubsetsWrites(data, file, outDir, subsets).outputs
  {
    var init := subsets[..|subsets| - 1];
    if SubsetsWrites(data, file, outDir, init).error.Some? {
      assert false;
    }
    if s != subsets[|subsets| - 1] {
      assert s in init;
      SubsetsWritesComplete(data, file, outDir, init, s);
    }
  }

  /** An error comes from a split code met on a frame without `RMO`. */
  lemma {:induction false} SubsetsWritesError(data: Table, file: string, outDir: string, subsets: seq<string>)
    requires WellFormed(data) && CheckVar in data.columns
    requires SubsetsWrites(data, file, outDir, subsets).error.Some?
    ensures SubsetsWrites(data, file, outDir, subsets).error == Some("RMO") && "RMO" !in data.columns
    ensures exists s :: s in subsets && s in SplitCodes
  {
    var init := subsets[..|subsets| - 1];
    var last := subsets[|subsets| - 1];
    if SubsetsWrites(data, file, outDir, init).error.Some? {
      SubsetsWritesError(data, file, outDir, init);
      var s :| s in init && s in SplitCodes;
      assert s in subsets;
    } else {
      assert SubsetWrites(data, file, outDir, last).error.Some?;
      NeedsRmoSplit(last);
    }
  }

  /** The loop over the distinct codes. */
  method WriteSubsets(data: Table, file: string, outDir: string, subsets: seq<string>) returns (w: Written)
    requires WellFormed(data) && CheckVar in data.columns
    ensures w == SubsetsWrites(data, file, outDir, subsets)
  {
    w := Written([], None);
    var i := 0;
    while i < |subsets|
      invariant i <= |subsets|
      invariant w == SubsetsWrites(data, file, outDir, subsets[..i]) && w.error.None?
    {
      assert subsets[..i + 1][..i] == subsets[..i];
      var s := SubsetWrites(data, file, outDir, subsets[i]);
      w := Written(w.outputs + s.outputs, s.error);
      i := i + 1;
      if w.error.Some? {
        SubsetsWritesStop(data, file, outDir, subsets, i);
        return;
      }
    }
    assert subsets[..i] == subsets;
  }

  /** Once an error is raised, later codes add nothing. */
  lemma {:induction false} SubsetsWritesStop(data: Table, file: string, outDir: string, subsets: seq<string>, n: nat)
    requires WellFormed(data) && CheckVar in data.columns
    requires n <= |subsets| && SubsetsWrites(data, file, outDir, subsets[..n]).error.Some?
    ensures SubsetsWrites(data, file, outDir, subsets) == SubsetsWrites(data, file, outDir, subsets[..n])
    decreases |subsets| - n
  {
    if n < |subsets| {
      assert subsets[..n + 1][..n] == subsets[..n];
      SubsetsWritesStop(data, file, outDir, subsets, n + 1);
    } else {
      assert subsets[..n] == subsets;
    }
  }

  // ---------------------------------------------------------------------------
  // One file, then the whole list

  /** The frame with `check_var` set to the row codes. */
  function Labelled(data: Table): (r: Table)
    requires WellFormed(data)
    ensures WellFormed(r) && CheckVar in r.columns && |r.rows| == |data.rows|
  {
    var codes := Codes(data.rows);
    SetColumn(data, CheckVar, seq(|codes|, i requires 0 <= i < |codes| => Str(codes[i])))
  }

  /** Every row of the labelled frame holds its own code in `check_var`. */
  lemma LabelledCodes(data: Table, i: nat)
    requires WellFormed(data) && i < |data.rows|
    ensures Labelled(data).rows[i][FirstIndex(Labelled(data).columns, CheckVar)] == Str(MatchCode(data.rows[i]))
  {
  }

  /** What `process_files` does with one file's frame, with `fallback` the
      rule of the numbered layout. */
  function FileOutcome(raw: Table, file: string, outDir: string, fallback: string -> Rule): Written
    requires WellFormed(raw)
  {
    match Prepare(raw, fallback)
    case KeyError(c) => Written([], Some(c))
    case Ok(data) => SubsetsWrites(Labelled(data), file, outDir, Unique(Codes(data.rows)))
  }

  /** The body of the loop of `process_files` for one frame. */
  method ProcessFile(raw: Table, file: string, outDir: string, fallback: string -> Rule) returns (w: Written)
    requires WellFormed(raw)
    ensures w == FileOutcome(raw, file, outDir, fallback)
  {
    var prepared := PrepareColumns(raw, fallback);
    if prepared.KeyError? {
      return Written([], Some(prepared.column));
    }
    var data := prepared.value;
    var checkVar := BuildCheckVar(data.rows);
    var labelled := SetColumn(data, CheckVar, seq(|checkVar|, i requires 0 <= i < |checkVar| => Str(checkVar[i])));
    w := WriteSubsets(labelled, file, outDir, Unique(checkVar));
  }

  /** Labelling a frame with `RMO` leaves `RMO` where it was. */
  lemma LabelledKeepsRmo(data: Table)
    requires WellFormed(data) && "RMO" in data.columns
    ensures "RMO" in Labelled(data).columns
    ensures FirstIndex(Labelled(data).columns, "RMO") == FirstIndex(data.columns, "RMO")
  {
    var codes := Codes(data.rows);
    assert |CheckVar| != |"RMO"|;
    SetColumnKeepsIndex(data, CheckVar, seq(|codes|, i requires 0 <= i < |codes| => Str(codes[i])), "RMO");
  }

  /** On a prepared frame: a row whose code is recognised reaches the output
      of each of its targets whose `RMO` it holds, unless the loop raised. */
  lemma PreparedRowRouted(data: Table, file: string, outDir: string, i: nat, k: nat)
    requires WellFormed(data) && i < |data.rows|
    requires SubsetsWrites(Labelled(data), file, outDir, Unique(Codes(data.rows))).error.None?
    requires var t := Targets(MatchCode(data.rows[i]));
             k < |t|
             && (t[k].rmo.Some? ==>
                   "RMO" in data.columns && Labelled(data).rows[i][FirstIndex(data.columns, "RMO")] == Str(t[k].rmo.value))
    ensures var code := MatchCode(data.rows[i]);
            exists o :: o in SubsetsWrites(Labelled(data), file, outDir, Unique(Codes(data.rows))).outputs
                        && o.path == OutputName(outDir, file, Targets(code)[k].prefix)
                        && Labelled(data).rows[i] in o.table.rows
  {
    var labelled := Labelled(data);
    var code := MatchCode(data.rows[i]);
    var codes := Codes(data.rows);
    assert code == codes[i] && code in Unique(codes);
    SubsetsWritesComplete(labelled, file, outDir, Unique(codes), code);
    var sw := SubsetWrites(labelled, file, outDir, code);
    LabelledCodes(data, i);
    if Targets(code)[k].rmo.Some? {
      LabelledKeepsRmo(data);
    }
    SelectedRowWritten(labelled, file, outDir, code, k, i);
    assert sw.outputs[k] in sw.outputs;
  }

  /** A one-row frame whose code goes to a single unsplit file is written
      there whole. */
  lemma UnsplitSingleRowWritten(data: Table, file: string, outDir: string, code: string)
    requires WellFormed(data) && CheckVar in data.columns && |data.rows| == 1
    requires data.rows[0][FirstIndex(data.columns, CheckVar)] == Str(code)
    requires Targets(code) == [Target("ZilaTotal_", None)]
    ensures SubsetWrites(data, file, outDir, code).error.None?
    ensures |SubsetWrites(data, file, outDir, code).outputs| == 1
    ensures SubsetWrites(data, file, outDir, code).outputs[0].path == OutputName(outDir, file, "ZilaTotal_")
    ensures SubsetWrites(data, file, outDir, code).outputs[0].table == data
  {
    assert !NeedsRmo(code);
    SubsetWritesSound(data, file, outDir, code, 0);
    var keep := Selecting(data.columns, code, Targets(code)[0]);
    assert keep(data.rows[0]);
    FilterKeepsSingle(data.rows, keep);
  }

  /** A row whose code is recognised reaches the output of each of its
      targets whose `RMO` it holds, unless the file raised `KeyError`. */
  lemma RowRouted(raw: Table, file: string, outDir: string, fallback: string -> Rule, i: nat, k: nat)
    requires WellFormed(raw) && Prepare(raw, fallback).Ok?
    requires FileOutcome(raw, file, outDir, fallback).error.None?
    requires i < |raw.rows|
    requires var data := Prepare(raw, fallback).value;
             var t := Targets(MatchCode(data.rows[i]));
             k < |t|
             && (t[k].rmo.Some? ==>
                   "RMO" in data.columns && Labelled(data).rows[i][FirstIndex(data.columns, "RMO")] == Str(t[k].rmo.value))
    ensures var data := Prepare(raw, fallback).value;
            var code := MatchCode(data.rows[i]);
            exists o :: o in FileOutcome(raw, file, outDir, fallback).outputs
                        && o.path == OutputName(outDir, file, Targets(code)[k].prefix)
                        && Labelled(data).rows[i] in o.table.rows
  {
    var data := Prepare(raw, fallback).value;
    PreparedRowRouted(data, file, outDir, i, k);
  }

  /** The loop of `process_files` over the outcomes of its files, in order:
      outputs accumulate until the first `KeyError`, which ends the run. */
  function Sequenced(ws: seq<Written>): Written
  {
    if |ws| == 0 then Written([], None)
    else
      var before := Sequenced(ws[..|ws| - 1]);
      if before.error.Some? then before
      else Written(before.outputs + ws[|ws| - 1].outputs, ws[|ws| - 1].error)
  }

  /** Once an outcome raises, the later outcomes change nothing. */
  lemma {:induction false} SequencedStops(ws: seq<Written>, n: nat)
    requires n <= |ws| && Sequenced(ws[..n]).error.Some?
    ensures Sequenced(ws) == Sequenced(ws[..n])
    decreases |ws| - n
  {
    if n < |ws| {
      assert ws[..n + 1][..n] == ws[..n];
      SequencedStops(ws, n + 1);
    } else {
      assert ws[..n] == ws;
    }
  }

  /** Without an error, no outcome raised and every output of every outcome
      is among the outputs of the run. */
  lemma {:induction false} SequencedCollects(ws: seq<Written>, j: nat)
    requires Sequenced(ws).error.None? && j < |ws|
    ensures ws[j].error.None?
    ensures forall o :: o in ws[j].outputs ==> o in Sequenced(ws).outputs
  {
    var init := ws[..|ws| - 1];
    if Sequenced(init).error.Some? {
      assert false;
    }
    if j < |ws| - 1 {
      assert init[j] == ws[j];
      SequencedCollects(init, j);
    }
  }

  /** What `process_files` does with each path, in order. */
  function FileOutcomes(files: seq<string>, read: string -> Table, outDir: string, fallback: string -> Rule): (ws: seq<Written>)
    requires forall i :: 0 <= i < |files| ==> WellFormed(read(files[i]))
    ensures |ws| == |files|
  {
    seq(|files|, i requires 0 <= i < |files| => FileOutcome(read(files[i]), files[i], outDir, fallback))
  }

  /** `process_files`: the files in order, until the first `KeyError`. */
  function RunOutcome(files: seq<string>, read: string -> Table, outDir: string, fallback: string -> Rule): Written
    requires forall i :: 0 <= i < |files| ==> WellFormed(read(files[i]))
  {
    Sequenced(FileOutcomes(files, read, outDir, fallback))
  }

  /** Once a file raises, the files after it are not processed. */
  lemma RunStops(files: seq<string>, read: string -> Table, outDir: string, fallback: string -> Rule, n: nat)
    requires forall i :: 0 <= i < |files| ==> WellFormed(read(files[i]))
    requires n <= |files| && RunOutcome(files[..n], read, outDir, fallback).error.Some?
    ensures RunOutcome(files, read, outDir, fallback) == RunOutcome(files[..n], read, outDir, fallback)
  {
    var ws := FileOutcomes(files, read, outDir, fallback);
    assert FileOutcomes(files[..n], read, outDir, fallback) == ws[..n];
    SequencedStops(ws, n);
  }

  /** Without an error, every file was processed without raising and its
      outputs are among the outputs of the run. */
  lemma RunCollects(files: seq<string>, read: string -> Table, outDir: string, fallback: string -> Rule, j: nat)
    requires forall i :: 0 <= i < |files| ==> WellFormed(read(files[i]))
    requires RunOutcome(files, read, outDir, fallback).error.None? && j < |files|
    ensures FileOutcome(read(files[j]), files[j], outDir, fallback).error.None?
    ensures forall o :: o in FileOutcome(read(files[j]), files[j], outDir, fallback).outputs ==> o in RunOutcome(files, read, outDir, fallback).outputs
  {
    SequencedCollects(FileOutcomes(files, read, outDir, fallback), j);
  }

  /** `process_files` over the list of paths. */
  method ProcessFiles(files: seq<string>, read: string -> Table, outDir: string, fallback: string -> Rule) returns (w: Written)
    requires forall i :: 0 <= i < |files| ==> WellFormed(read(files[i]))
    ensures w == RunOutcome(files, read, outDir, fallback)
  {
    ghost var ws := FileOutcomes(files, read, outDir, fallback);
    w := Written([], None);
    var i := 0;
    while i < |files|
      invariant i <= |files|
      invariant w == Sequenced(ws[..i]) && w.error.None?
    {
      assert ws[..i + 1][..i] == ws[..i];
      var f := ProcessFile(read(files[i]), files[i], outDir, fallback);
      assert f == ws[i];
      w := Written(w.outputs + f.outputs, f.error);
      i := i + 1;
      if w.error.Some? {
        SequencedStops(ws, i);
        return;
      }
    }
    assert ws[..i] == ws;
  }

  // ---------------------------------------------------------------------------
  // The numbered layout as written

  /** A code with `0` at position 2 reaches only the mouza/mahalla and village
      totals. */
  lemma ThirdLevelZeroRoutes(code: string)
    requires |code| >= 3 && code[2] == '0' && Targets(code) != []
    ensures code == "00010" || code == "00000"
  {
  }

  /** A code with `1` at position 0 (district level missing) and `0` at
      position 2 (third level present) is recognised by no branch. */
  lemma DistrictWithoutThirdLevelUnrouted(code: string)
    requires |code| >= 3 && code[0] == '1' && code[2] == '0'
    ensures Targets(code) == []
  {
    assert code != "11111" && code != "11110" by {
      assert "11111"[2] == "11110"[2] == '1';
    }
    assert code !in ["01111", "01110", "00111", "00110", "00010", "00000"] by {
      assert forall c :: c in ["01111", "01110", "00111", "00110", "00010", "00000"] ==> c[0] == '0';
    }
  }

  /** A numbered-layout frame holding one district (zila) total: all five
      geography values are the missing code. */
  function ZilaTotalFrame(): Table
  {
    Table(["Zila", "1", "2", "3", "4", "5"],
          [[Str("Dhaka"), Other("-9"), Other("-9"), Other("-9"), Other("-9"), Other("-9")]])
  }

  /** The frame has the numbered layout's columns and not the named ones. */
  lemma ZilaTotalFrameColumns(t: Table)
    requires t == ZilaTotalFrame()
    ensures WellFormed(t) && |t.columns| >= 6 && t.columns[1..6] == NumberedColumns
    ensures !HasAll(t.columns, GeoColumns)
  {
    var cols := t.columns;
    assert |cols| == 6 && |cols[0]| == 4;
    assert forall j :: 1 <= j < 6 ==> |cols[j]| == 1 && cols[j][0] == ('0' as int + j) as char;
    forall i, j | 0 <= i < j < 6
      ensures cols[i] != cols[j]
    {
      if i > 0 {
        assert cols[i][0] != cols[j][0];
      }
    }
    assert forall j :: 0 <= j < 6 ==> |cols[j]| != |GeoColumns[0]|;
  }

  /** A row whose five geography values all show `-9` is clean and has the
      missing pattern `11111`. */
  lemma AllMissingRow(row: seq<Cell>)
    requires |row| >= 6 && forall i :: 1 <= i < 6 ==> AsStr(row[i]) == "-9"
    ensures CleanGeography(row) && MissingPattern(row) == "11111"
  {
    var code := MissingPattern(row);
    assert code == [code[0], code[1], code[2], code[3], code[4]];
  }

  lemma ZilaTotalFrameShape(t: Table)
    requires t == ZilaTotalFrame()
    ensures WellFormed(t) && |t.columns| >= 6 && t.columns[1..6] == NumberedColumns
    ensures !HasAll(t.columns, GeoColumns)
    ensures |t.rows| == 1 && CleanGeography(t.rows[0]) && MissingPattern(t.rows[0]) == "11111"
  {
    ZilaTotalFrameColumns(t);
    var row := t.rows[0];
    assert |row| == 6 && forall i :: 1 <= i < 6 ==> row[i] == Other("-9");
    AllMissingRow(row);
  }

  /** The district-total code with position 2 forced to `0` is `11011`,
      which no branch recognises. */
  lemma ZilaTotalCodes(code: string)
    requires code == "11111"
    ensures code[2 := '0'] == "11011" && Targets("11011") == []
    ensures Targets(code) == [Target("ZilaTotal_", None)]
  {
    assert code[2 := '0'] == "11011";
    DistrictWithoutThirdLevelUnrouted("11011");
  }

  /** As written, a district (zila) total of the numbered layout (all five
      geography values missing, as in `ZilaTotalFrame`) gets the code
      `11011`, which no branch recognises, so it is written nowhere; with
      column `3` given `XXX` it gets `11111` and goes to the `ZilaTotal_`
      file. */
  lemma AsWrittenDropsZilaTotal(t: Table, i: nat)
    requires WellFormed(t) && |t.columns| >= 6 && t.columns[1..6] == NumberedColumns
    requires !HasAll(t.columns, GeoColumns)
    requires i < |t.rows| && CleanGeography(t.rows[i]) && MissingPattern(t.rows[i]) == "11111"
    ensures Prepare(t, FallbackRuleAsWritten).Ok? && Prepare(t, FallbackRule).Ok?
    ensures MatchCode(Prepare(t, FallbackRuleAsWritten).value.rows[i]) == "11011"
    ensures Targets("11011") == []
    ensures MatchCode(Prepare(t, FallbackRule).value.rows[i]) == "11111"
    ensures Targets("11111") == [Target("ZilaTotal_", None)]
  {
    AsWrittenCode(t, i);
    NumberedLayoutCode(t, i);
    ZilaTotalCodes(MissingPattern(t.rows[i]));
  }

  /** The loop over a single code does what that code's branch does. */
  lemma SubsetsWritesSingle(data: Table, file: string, outDir: string, code: string)
    requires WellFormed(data) && CheckVar in data.columns
    ensures SubsetsWrites(data, file, outDir, [code]) == SubsetWrites(data, file, outDir, code)
  {
    assert [code][..0] == [];
    var w := SubsetWrites(data, file, outDir, code);
    assert [] + w.outputs == w.outputs;
  }

  /** A frame with a single row, whose code is `code`, writes what
      `SubsetWrites` writes for that code. */
  lemma SingleRowOutcome(raw: Table, file: string, outDir: string, fallback: string -> Rule, code: string)
    requires WellFormed(raw) && Prepare(raw, fallback).Ok? && |raw.rows| == 1
    requires MatchCode(Prepare(raw, fallback).value.rows[0]) == code
    ensures FileOutcome(raw, file, outDir, fallback)
            == SubsetWrites(Labelled(Prepare(raw, fallback).value), file, outDir, code)
  {
    var data := Prepare(raw, fallback).value;
    CodesSingle(data.rows);
    UniqueSingle(code);
    SubsetsWritesSingle(Labelled(data), file, outDir, code);
  }

  /** A code that no branch recognises writes nothing and raises nothing. */
  lemma SubsetWritesUnrouted(data: Table, file: string, outDir: string, code: string)
    requires WellFormed(data) && CheckVar in data.columns && Targets(code) == []
    ensures SubsetWrites(data, file, outDir, code) == Written([], None)
  {
  }

  /** As written, `process_files` on a numbered-layout frame whose only row
      is a district (zila) total writes no file and raises nothing. */
  lemma AsWrittenFileOutcome(t: Table, file: string, outDir: string)
    requires WellFormed(t) && |t.columns| >= 6 && t.columns[1..6] == NumberedColumns
    requires !HasAll(t.columns, GeoColumns)
    requires |t.rows| == 1 && CleanGeography(t.rows[0]) && MissingPattern(t.rows[0]) == "11111"
    ensures FileOutcome(t, file, outDir, FallbackRuleAsWritten) == Written([], None)
  {
    AsWrittenDropsZilaTotal(t, 0);
    SingleRowOutcome(t, file, outDir, FallbackRuleAsWritten, "11011");
    SubsetWritesUnrouted(Labelled(Prepare(t, FallbackRuleAsWritten).value), file, outDir, "11011");
  }

  /** With column `3` given `XXX`, the same frame writes exactly one file,
      `ZilaTotal_<file>`. */
  lemma CorrectedFileOutcome(t: Table, file: string, outDir: string)
    requires WellFormed(t) && |t.columns| >= 6 && t.columns[1..6] == NumberedColumns
    requires !HasAll(t.columns, GeoColumns)
    requires |t.rows| == 1 && CleanGeography(t.rows[0]) && MissingPattern(t.rows[0]) == "11111"
    ensures FileOutcome(t, file, outDir, FallbackRule).error.None?
    ensures |FileOutcome(t, file, outDir, FallbackRule).outputs| == 1
    ensures FileOutcome(t, file, outDir, FallbackRule).outputs[0].path == OutputName(outDir, file, "ZilaTotal_")
    ensures FileOutcome(t, file, outDir, FallbackRule).outputs[0].table == Labelled(Prepare(t, FallbackRule).value)
  {
    var data := Prepare(t, FallbackRule).value;
    NumberedLayoutCode(t, 0);
    ZilaTotalCodes(MissingPattern(t.rows[0]));
    SingleRowOutcome(t, file, outDir, FallbackRule, "11111");
    LabelledCodes(data, 0);
    UnsplitSingleRowWritten(Labelled(data), file, outDir, "11111");
  }
}

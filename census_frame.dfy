/**
 * The column clean-up and the level code of `process_files` in
 * utils/dp_bbs_census2011/dp_bbs_census2011.py: in the five geography columns
 * every `-9` becomes a run of `X` and the value is left-padded with zeros;
 * then each row gets a code of up to five characters saying which of its
 * geography positions hold the missing marker.
 */
module CensusFrame {
  import opened PyStr

  /** A value of the frame `read_csv` returns: a string, or a value of another
      type (a number, a missing value) whose `astype(str)` form is `shown`.
      Only a string compares equal to a string. */
  datatype Cell = Str(text: string) | Other(shown: string)

  /** `astype(str)` of one value. */
  function AsStr(c: Cell): string
  {
    match c
    case Str(s) => s
    case Other(s) => s
  }

  /** A data frame: its column names and its rows, in order. */
  datatype Table = Table(columns: seq<string>, rows: seq<seq<Cell>>)

  /** What `read_csv` produces: distinct column names (it renames duplicates)
      and every row as wide as the header. */
  predicate WellFormed(t: Table)
  {
    (forall i, j :: 0 <= i < j < |t.columns| ==> t.columns[i] != t.columns[j])
    && forall i :: 0 <= i < |t.rows| ==> |t.rows[i]| == |t.columns|
  }

  /** A step that looks columns up by name: a missing one raises `KeyError`,
      which ends the whole run. */
  datatype Outcome<T> = Ok(value: T) | KeyError(column: string)

  // ---------------------------------------------------------------------------
  // Column clean-up

  /** The text a missing code turns into and the width a value is padded to. */
  datatype Rule = Rule(marker: string, width: nat)

  /** The geography columns of the named layout, in the order they are
      processed. */
  const GeoColumns: seq<string> := ["UZ", "UN/WA", "MZ/MH", "Vill", "RMO"]

  /** The columns of the numbered layout, in the order they are processed. */
  const NumberedColumns: seq<string> := ["1", "2", "3", "4", "5"]

  /** Named layout: `MZ/MH` gets `XXX` and width 3, the others `XX` and 2. */
  function NamedRule(name: string): Rule
  {
    if name == "MZ/MH" then Rule("XXX", 3) else Rule("XX", 2)
  }

  /** Numbered layout: column `3`, the third geography level like `MZ/MH`,
      gets `XXX` and width 3, the others `XX` and 2. */
  function FallbackRule(name: string): Rule
  {
    if name == "3" then Rule("XXX", 3) else Rule("XX", 2)
  }

  /** The numbered layout's rule as the script has it: its test for the
      `XXX` case compares the column name, a string, with the integer 3,
      which never holds, so every column gets `XX` and width 2. */
  function FallbackRuleAsWritten(name: string): Rule
  {
    Rule("XX", 2)
  }

  /** `astype(str).str.replace('-9', marker)` followed by
      `str.pad(width, side='left', fillchar='0')`. */
  function FixText(s: string, rule: Rule): string
  {
    PadLeft(ReplaceAll(s, "-9", rule.marker), rule.width, '0')
  }

  /** `data[var] = ...` for the column at index j. */
  function FixColumn(t: Table, j: nat, rule: Rule): (r: Table)
    requires WellFormed(t) && j < |t.columns|
    ensures WellFormed(r) && r.columns == t.columns && |r.rows| == |t.rows|
  {
    Table(t.columns, seq(|t.rows|, i requires 0 <= i < |t.rows| => t.rows[i][j := Str(FixText(AsStr(t.rows[i][j]), rule))]))
  }

  predicate HasAll(columns: seq<string>, names: seq<string>)
  {
    forall i :: 0 <= i < |names| ==> names[i] in columns
  }

  /** The columns of `names` fixed one after the other, each with the rule
      for its name. */
  function FixAll(t: Table, names: seq<string>, ruleOf: string -> Rule): (r: Table)
    requires WellFormed(t) && HasAll(t.columns, names)
    ensures WellFormed(r) && r.columns == t.columns && |r.rows| == |t.rows|
    decreases |names|
  {
    if |names| == 0 then t
    else
      var last := names[|names| - 1];
      FixColumn(FixAll(t, names[..|names| - 1], ruleOf), FirstIndex(t.columns, last), ruleOf(last))
  }

  /** One more name fixes one more column, on top of the columns before it. */
  lemma FixAllStep(t: Table, names: seq<string>, ruleOf: string -> Rule, n: nat)
    requires WellFormed(t) && n < |names| && HasAll(t.columns, names[..n]) && names[n] in t.columns
    ensures HasAll(t.columns, names[..n + 1])
    ensures FixAll(t, names[..n + 1], ruleOf)
            == FixColumn(FixAll(t, names[..n], ruleOf), FirstIndex(t.columns, names[n]), ruleOf(names[n]))
  {
    var prefix := names[..n + 1];
    assert prefix[..n] == names[..n] && prefix[n] == names[n];
    assert forall m :: 0 <= m < n + 1 ==> prefix[m] in t.columns by {
      forall m | 0 <= m < n + 1
        ensures prefix[m] in t.columns
      {
        if m < n {
          assert prefix[m] == names[..n][m];
        }
      }
    }
  }

  /** Fixing a list of distinct columns rewrites each listed column with its
      own rule and leaves every other value as it was. */
  lemma {:induction false} FixAllCell(t: Table, names: seq<string>, ruleOf: string -> Rule, i: nat, j: nat)
    requires WellFormed(t) && HasAll(t.columns, names)
    requires forall a, b :: 0 <= a < b < |names| ==> names[a] != names[b]
    requires i < |t.rows| && j < |t.columns|
    ensures FixAll(t, names, ruleOf).rows[i][j]
            == if t.columns[j] in names then Str(FixText(AsStr(t.rows[i][j]), ruleOf(t.columns[j]))) else t.rows[i][j]
    decreases |names|
  {
    if |names| > 0 {
      var init, last := names[..|names| - 1], names[|names| - 1];
      FixAllCell(t, init, ruleOf, i, j);
      assert forall x :: x in names <==> x in init || x == last;
      if j == FirstIndex(t.columns, last) {
        assert last !in init;
      }
    }
  }

  /** The first of `names` that is not a column. */
  function FirstMissing(columns: seq<string>, names: seq<string>): (m: Option<string>)
    ensures m.None? <==> HasAll(columns, names)
    ensures m.Some? ==> m.value in names && m.value !in columns
  {
    if |names| == 0 then None
    else if names[0] !in columns then Some(names[0])
    else
      var m := FirstMissing(columns, names[1..]);
      assert forall i :: 1 <= i < |names| ==> names[i] == names[1..][i - 1];
      m
  }

  /** A name absent from the columns after names that are all present is the
      one reported. */
  lemma {:induction false} FirstMissingAt(columns: seq<string>, names: seq<string>, k: nat)
    requires k < |names| && HasAll(columns, names[..k]) && names[k] !in columns
    ensures FirstMissing(columns, names) == Some(names[k])
    decreases k
  {
    if k > 0 {
      assert names[0] == names[..k][0];
      assert names[1..][..k - 1] == names[..k][1..];
      FirstMissingAt(columns, names[1..], k - 1);
    }
  }

  /** The clean-up branch of `process_files`: the named layout when all five
      geography names are columns, the numbered layout otherwise, where a
      missing numbered column raises `KeyError`. `fallback` is the rule of
      the numbered layout. */
  function Prepare(t: Table, fallback: string -> Rule): (o: Outcome<Table>)
    requires WellFormed(t)
    ensures o.Ok? ==> WellFormed(o.value) && o.value.columns == t.columns && |o.value.rows| == |t.rows|
    ensures o.KeyError? <==> !HasAll(t.columns, GeoColumns) && !HasAll(t.columns, NumberedColumns)
    ensures o.KeyError? ==> o.column in NumberedColumns && o.column !in t.columns
  {
    if HasAll(t.columns, GeoColumns) then Ok(FixAll(t, GeoColumns, NamedRule))
    else
      match FirstMissing(t.columns, NumberedColumns)
      case Some(c) => KeyError(c)
      case None => Ok(FixAll(t, NumberedColumns, fallback))
  }

  /** The loop `for var in names: data[var] = ...` on the frame updated
      column by column, each column with the rule for its name; the first
      absent column raises `KeyError`. */
  method FixColumns(data: Table, names: seq<string>, ruleOf: string -> Rule) returns (out: Outcome<Table>)
    requires WellFormed(data)
    ensures out == match FirstMissing(data.columns, names)
                   case Some(c) => KeyError(c)
                   case None => Ok(FixAll(data, names, ruleOf))
  {
    var t := data;
    var i := 0;
    while i < |names|
      invariant i <= |names|
      invariant HasAll(data.columns, names[..i])
      invariant t == FixAll(data, names[..i], ruleOf)
    {
      var name := names[i];
      if name !in data.columns {
        FirstMissingAt(data.columns, names, i);
        return KeyError(name);
      }
      FixAllStep(data, names, ruleOf, i);
      t := FixColumn(t, FirstIndex(data.columns, name), ruleOf(name));
      i := i + 1;
    }
    assert names[..i] == names;
    return Ok(t);
  }

  /** The clean-up step of `process_files`, with `fallback` the rule of the
      numbered layout (`FallbackRuleAsWritten` for the code as written). */
  method PrepareColumns(data: Table, fallback: string -> Rule) returns (out: Outcome<Table>)
    requires WellFormed(data)
    ensures out == Prepare(data, fallback)
  {
    if HasAll(data.columns, GeoColumns) {
      out := FixColumns(data, GeoColumns, NamedRule);
    } else {
      out := FixColumns(data, NumberedColumns, fallback);
    }
  }

  // ---------------------------------------------------------------------------
  // What the clean-up does to one value

  /** A value that is exactly the missing code becomes exactly the marker. */
  lemma FixTextMissing(rule: Rule)
    requires |rule.marker| == rule.width
    ensures FixText("-9", rule) == rule.marker
  {
    assert "-9" <= "-9";
    assert ReplaceAll("-9", "-9", rule.marker) == rule.marker + ReplaceAll("", "-9", rule.marker);
  }

  /** A code made of digits is only padded: it stays a digit string. */
  lemma FixTextDigits(s: string, rule: Rule)
    requires IsDigits(s)
    ensures FixText(s, rule) == PadLeft(s, rule.width, '0')
    ensures IsDigits(FixText(s, rule))
  {
    FirstCharAbsent(s, "-9");
    var r := FixText(s, rule);
    forall i | 0 <= i < |r|
      ensures IsAsciiDigit(r[i])
    {
      if i >= |r| - |s| {
        assert r[i] == r[|r| - |s|..][i - (|r| - |s|)];
      }
    }
  }

  /** Zeros put in front of a text never complete a `-9`. */
  lemma {:induction false} ZerosKeepNoSentinel(zeros: string, s: string)
    requires forall i :: 0 <= i < |zeros| ==> zeros[i] == '0'
    requires !Contains(s, "-9")
    ensures !Contains(zeros + s, "-9")
    decreases |zeros|
  {
    if |zeros| > 0 {
      ZerosKeepNoSentinel(zeros[1..], s);
      assert (zeros + s)[1..] == zeros[1..] + s;
      assert (zeros + s)[0] == '0' != "-9"[0];
      assert !("-9" <= zeros + s);
    } else {
      assert zeros + s == s;
    }
  }

  /** With a marker that holds neither `-` nor `9`, no `-9` is left. */
  lemma FixTextNoSentinel(s: string, rule: Rule)
    requires |rule.marker| > 0 && '-' !in rule.marker && '9' !in rule.marker
    ensures !Contains(FixText(s, rule), "-9")
  {
    var replaced := ReplaceAll(s, "-9", rule.marker);
    ReplaceAllRemovesPair(s, "-9", rule.marker);
    var r := FixText(s, rule);
    var zeros := r[..|r| - |replaced|];
    assert r == zeros + r[|r| - |replaced|..];
    ZerosKeepNoSentinel(zeros, replaced);
  }

  /** Running the clean-up on a value it already cleaned changes nothing. */
  lemma FixTextIdempotent(s: string, rule: Rule)
    requires |rule.marker| > 0 && '-' !in rule.marker && '9' !in rule.marker
    ensures FixText(FixText(s, rule), rule) == FixText(s, rule)
  {
    FixTextNoSentinel(s, rule);
  }

  /** For a value that is the missing code or a digit string, the cleaned
      value equals a text starting with `X` exactly when the value was the
      missing code and the marker is that text. */
  lemma FixTextMatches(s: string, rule: Rule, c: string)
    requires s == "-9" || IsDigits(s)
    requires |rule.marker| == rule.width
    requires |c| > 0 && c[0] == 'X'
    ensures FixText(s, rule) == c <==> rule.marker == c && s == "-9"
  {
    if s == "-9" {
      FixTextMissing(rule);
    } else {
      FixTextDigits(s, rule);
      var f := FixText(s, rule);
      assert IsAsciiDigit(f[0]);
    }
  }

  // ---------------------------------------------------------------------------
  // The level code

  /** What each geography position is compared with. */
  const Check: seq<string> := ["XX", "XX", "XXX", "XX", "XX"]

  /** Every entry of `check` is `XX` or `XXX`. */
  lemma CheckIsMarker(k: nat)
    requires k < 5
    ensures Check[k] == if k == 2 then "XXX" else "XX"
    ensures |Check[k]| > 0 && Check[k][0] == 'X'
  {
    if k == 2 {
      assert Check[k] == "XXX";
    } else {
      assert Check[k] == "XX";
    }
  }

  /** The `geo_check` string of one row: positions 1 to 5 compared with
      `check`, `1` for equal and `0` otherwise, cut short when the row has
      fewer than six values. */
  function MatchCode(row: seq<Cell>): (code: string)
    ensures |code| == if |row| >= 6 then 5 else if |row| == 0 then 0 else |row| - 1
    ensures forall i :: 0 <= i < |code| ==>
              (code[i] == '1' <==> row[i + 1] == Str(Check[i])) && (code[i] == '1' || code[i] == '0')
  {
    var geos := Slice(row, 1, 6);
    var n := if |geos| < 5 then |geos| else 5;
    seq(n, i requires 0 <= i < n => if geos[i] == Str(Check[i]) then '1' else '0')
  }

  /** The `check_var` list: one code per row, in row order. */
  function Codes(rows: seq<seq<Cell>>): (codes: seq<string>)
    ensures |codes| == |rows|
  {
    seq(|rows|, i requires 0 <= i < |rows| => MatchCode(rows[i]))
  }

  /** A single row has the single code of that row. */
  lemma CodesSingle(rows: seq<seq<Cell>>)
    requires |rows| == 1
    ensures Codes(rows) == [MatchCode(rows[0])]
  {
  }

  /** The loop over `data.values` that appends one code per row. */
  method BuildCheckVar(rows: seq<seq<Cell>>) returns (checkVar: seq<string>)
    ensures checkVar == Codes(rows)
  {
    checkVar := [];
    for key := 0 to |rows|
      invariant checkVar == Codes(rows[..key])
    {
      checkVar := checkVar + [MatchCode(rows[key])];
    }
    assert rows[..|rows|] == rows;
  }

  /** The level a row describes, read off its raw geography values: `1` where
      the value at position i + 1 is the missing code, `0` elsewhere. */
  function MissingPattern(row: seq<Cell>): (code: string)
    requires |row| >= 6
    ensures |code| == 5
  {
    seq(5, i requires 0 <= i < 5 => if AsStr(row[i + 1]) == "-9" then '1' else '0')
  }

  /** Every geography value of the row is the missing code or a code of
      digits. */
  predicate CleanGeography(row: seq<Cell>)
    requires |row| >= 6
  {
    forall i :: 1 <= i < 6 ==> AsStr(row[i]) == "-9" || IsDigits(AsStr(row[i]))
  }

  /** One geography value of a clean row after the clean-up of a layout
      whose columns sit at positions 1 to 5: it matches `check` exactly when
      it was the missing code and its rule's marker is the one compared
      with. */
  lemma LayoutCell(t: Table, names: seq<string>, ruleOf: string -> Rule, i: nat, k: nat)
    requires WellFormed(t) && |t.columns| >= 6 && t.columns[1..6] == names
    requires i < |t.rows| && CleanGeography(t.rows[i]) && k < 5
    requires var r := ruleOf(names[k]); |r.marker| == r.width && |r.marker| > 0 && r.marker[0] == 'X'
    ensures HasAll(t.columns, names)
    ensures FixAll(t, names, ruleOf).rows[i][k + 1] == Str(Check[k])
            <==> ruleOf(names[k]).marker == Check[k] && AsStr(t.rows[i][k + 1]) == "-9"
  {
    LayoutValue(t, names, ruleOf, i, k);
    var s := AsStr(t.rows[i][k + 1]);
    assert s == "-9" || IsDigits(s);
    CheckIsMarker(k);
    FixTextMatches(s, ruleOf(names[k]), Check[k]);
  }

  /** After the clean-up of a layout whose columns sit at positions 1 to 5,
      the value at position k + 1 is the original one cleaned with the rule
      of the k-th name. */
  lemma LayoutValue(t: Table, names: seq<string>, ruleOf: string -> Rule, i: nat, k: nat)
    requires WellFormed(t) && |t.columns| >= 6 && t.columns[1..6] == names
    requires i < |t.rows| && k < 5
    ensures HasAll(t.columns, names)
    ensures FixAll(t, names, ruleOf).rows[i][k + 1] == Str(FixText(AsStr(t.rows[i][k + 1]), ruleOf(names[k])))
  {
    LayoutNames(t, names);
    FixAllCell(t, names, ruleOf, i, k + 1);
    assert t.columns[k + 1] == names[k];
  }

  /** The five names at positions 1 to 5 of a well-formed frame are columns
      and are distinct. */
  lemma LayoutNames(t: Table, names: seq<string>)
    requires WellFormed(t) && |t.columns| >= 6 && t.columns[1..6] == names
    ensures HasAll(t.columns, names)
    ensures forall a, b :: 0 <= a < b < |names| ==> names[a] != names[b]
  {
    forall a, b | 0 <= a < b < |names|
      ensures names[a] != names[b]
    {
      assert names[a] == t.columns[a + 1] && names[b] == t.columns[b + 1];
    }
    forall m | 0 <= m < |names|
      ensures names[m] in t.columns
    {
      assert names[m] == t.columns[m + 1];
    }
  }

  /** When a layout's five columns sit at positions 1 to 5 and each gets the
      marker the code compares it with, the code of a clean row is its
      missing pattern. */
  lemma LayoutCode(t: Table, names: seq<string>, ruleOf: string -> Rule, i: nat)
    requires WellFormed(t) && |t.columns| >= 6 && t.columns[1..6] == names
    requires forall k :: 0 <= k < 5 ==> ruleOf(names[k]) == Rule(Check[k], |Check[k]|)
    requires i < |t.rows| && CleanGeography(t.rows[i])
    ensures HasAll(t.columns, names)
    ensures MatchCode(FixAll(t, names, ruleOf).rows[i]) == MissingPattern(t.rows[i])
  {
    LayoutNames(t, names);
    var code := MatchCode(FixAll(t, names, ruleOf).rows[i]);
    var want := MissingPattern(t.rows[i]);
    forall k | 0 <= k < 5
      ensures k < |code| && code[k] == want[k]
    {
      CheckIsMarker(k);
      LayoutCodeAt(t, names, ruleOf, i, k);
    }
  }

  /** One position of the code of a clean row, for any rules whose markers
      are runs of `X` as wide as the padding: the missing pattern where the
      column's marker is the one compared with, `0` where it is not. */
  lemma LayoutCodeAt(t: Table, names: seq<string>, ruleOf: string -> Rule, i: nat, k: nat)
    requires WellFormed(t) && |t.columns| >= 6 && t.columns[1..6] == names
    requires i < |t.rows| && CleanGeography(t.rows[i]) && k < 5
    requires var r := ruleOf(names[k]); |r.marker| == r.width && |r.marker| > 0 && r.marker[0] == 'X'
    ensures HasAll(t.columns, names)
    ensures |MatchCode(FixAll(t, names, ruleOf).rows[i])| == 5
    ensures MatchCode(FixAll(t, names, ruleOf).rows[i])[k]
            == if ruleOf(names[k]).marker == Check[k] then MissingPattern(t.rows[i])[k] else '0'
  {
    LayoutCell(t, names, ruleOf, i, k);
    assert |FixAll(t, names, ruleOf).rows[i]| == |t.columns|;
  }

  /** Named layout (`UZ`, `UN/WA`, `MZ/MH`, `Vill`, `RMO` at positions 1 to
      5): a clean row's code marks exactly its missing levels. */
  lemma NamedLayoutCode(t: Table, i: nat, fallback: string -> Rule)
    requires WellFormed(t) && |t.columns| >= 6 && t.columns[1..6] == GeoColumns
    requires i < |t.rows| && CleanGeography(t.rows[i])
    ensures Prepare(t, fallback).Ok?
    ensures MatchCode(Prepare(t, fallback).value.rows[i]) == MissingPattern(t.rows[i])
  {
    LayoutCode(t, GeoColumns, NamedRule, i);
  }

  /** Numbered layout (`1` to `5` at positions 1 to 5, the named columns not
      all present), with column `3` given `XXX`: a clean row's code marks
      exactly its missing levels. */
  lemma NumberedLayoutCode(t: Table, i: nat)
    requires WellFormed(t) && |t.columns| >= 6 && t.columns[1..6] == NumberedColumns
    requires !HasAll(t.columns, GeoColumns)
    requires i < |t.rows| && CleanGeography(t.rows[i])
    ensures Prepare(t, FallbackRule).Ok?
    ensures MatchCode(Prepare(t, FallbackRule).value.rows[i]) == MissingPattern(t.rows[i])
  {
    LayoutCode(t, NumberedColumns, FallbackRule, i);
  }

  // ---------------------------------------------------------------------------
  // Selecting and adding columns

  /** `data['check_var'] = values`: an existing column of that name is
      overwritten in place, otherwise the column is added at the end. */
  function SetColumn(t: Table, name: string, values: seq<Cell>): (r: Table)
    requires WellFormed(t) && |values| == |t.rows|
    ensures WellFormed(r) && |r.rows| == |t.rows|
    ensures name in r.columns
    ensures forall i :: 0 <= i < |r.rows| ==> r.rows[i][FirstIndex(r.columns, name)] == values[i]
    ensures |t.columns| <= |r.columns|
    ensures forall j :: 0 <= j < |t.columns| && t.columns[j] != name ==>
              r.columns[j] == t.columns[j] && forall i :: 0 <= i < |r.rows| ==> r.rows[i][j] == t.rows[i][j]
  {
    if name in t.columns then
      var j := FirstIndex(t.columns, name);
      Table(t.columns, seq(|t.rows|, i requires 0 <= i < |t.rows| => t.rows[i][j := values[i]]))
    else
      var r := Table(t.columns + [name], seq(|t.rows|, i requires 0 <= i < |t.rows| => t.rows[i] + [values[i]]));
      assert FirstIndex(r.columns, name) == |t.columns|;
      r
  }

  /** Setting one column leaves every other column where it was. */
  lemma SetColumnKeepsIndex(t: Table, name: string, values: seq<Cell>, c: string)
    requires WellFormed(t) && |values| == |t.rows| && c in t.columns && c != name
    ensures c in SetColumn(t, name, values).columns
    ensures FirstIndex(SetColumn(t, name, values).columns, c) == FirstIndex(t.columns, c)
  {
    var r := SetColumn(t, name, values);
    if name !in t.columns {
      assert r.columns == t.columns + [name];
      assert r.columns[..|t.columns|] == t.columns;
      FirstIndexPrefix(r.columns, |t.columns|, c);
    }
  }

  /** The rows `keep` accepts, in frame order and with repeats: what a
      boolean mask selects from a frame. */
  function Filter(rows: seq<seq<Cell>>, keep: seq<Cell> -> bool): (r: seq<seq<Cell>>)
    ensures |r| <= |rows|
  {
    if |rows| == 0 then []
    else
      var init, last := rows[..|rows| - 1], rows[|rows| - 1];
      Filter(init, keep) + (if keep(last) then [last] else [])
  }

  /** A row is kept exactly when it is in the frame and the mask accepts it. */
  lemma {:induction false} FilterMembers(rows: seq<seq<Cell>>, keep: seq<Cell> -> bool)
    ensures forall row :: row in Filter(rows, keep) <==> row in rows && keep(row)
  {
    if |rows| > 0 {
      var init, last := rows[..|rows| - 1], rows[|rows| - 1];
      assert rows == init + [last];
      FilterMembers(init, keep);
    }
  }

  /** The row at `i`, when the mask accepts it, is among the kept rows. */
  lemma FilterKeepsRow(rows: seq<seq<Cell>>, keep: seq<Cell> -> bool, i: nat)
    requires i < |rows| && keep(rows[i])
    ensures rows[i] in Filter(rows, keep)
  {
    FilterMembers(rows, keep);
  }

  /** A kept row appears as often as in the frame; any other row, never. */
  lemma {:induction false} FilterCount(rows: seq<seq<Cell>>, keep: seq<Cell> -> bool)
    ensures forall row :: multiset(Filter(rows, keep))[row] == if keep(row) then multiset(rows)[row] else 0
  {
    if |rows| > 0 {
      var init, last := rows[..|rows| - 1], rows[|rows| - 1];
      assert rows == init + [last];
      FilterCount(init, keep);
    }
  }

  /** A mask that accepts every row of the frame keeps the frame as it is. */
  lemma {:induction false} FilterKeepsAll(rows: seq<seq<Cell>>, keep: seq<Cell> -> bool)
    requires forall i :: 0 <= i < |rows| ==> keep(rows[i])
    ensures Filter(rows, keep) == rows
  {
    if |rows| > 0 {
      var init, last := rows[..|rows| - 1], rows[|rows| - 1];
      assert rows == init + [last];
      FilterKeepsAll(init, keep);
    }
  }

  /** A one-row frame whose row the mask accepts is kept whole. */
  lemma FilterKeepsSingle(rows: seq<seq<Cell>>, keep: seq<Cell> -> bool)
    requires |rows| == 1 && keep(rows[0])
    ensures Filter(rows, keep) == rows
  {
    FilterKeepsAll(rows, keep);
  }

  /** Filtering a frame split in two filters each part: the kept rows keep
      the order they have in the frame. */
  lemma {:induction false} FilterConcat(a: seq<seq<Cell>>, b: seq<seq<Cell>>, keep: seq<Cell> -> bool)
    ensures Filter(a + b, keep) == Filter(a, keep) + Filter(b, keep)
    decreases |b|
  {
    if |b| == 0 {
      assert a + b == a;
    } else {
      var init, last := b[..|b| - 1], b[|b| - 1];
      assert (a + b)[..|a + b| - 1] == a + init;
      FilterConcat(a, init, keep);
    }
  }

  /** Two masks applied one after the other select what their conjunction
      selects. */
  lemma {:induction false} FilterTwice(rows: seq<seq<Cell>>, f: seq<Cell> -> bool, g: seq<Cell> -> bool,
                                       both: seq<Cell> -> bool)
    requires forall row :: row in rows ==> both(row) == (f(row) && g(row))
    ensures Filter(Filter(rows, f), g) == Filter(rows, both)
    decreases |rows|
  {
    if |rows| > 0 {
      var init, last := rows[..|rows| - 1], rows[|rows| - 1];
      assert rows == init + [last];
      FilterTwice(init, f, g, both);
      var extra := if f(last) then [last] else [];
      FilterConcat(Filter(init, f), extra, g);
      if f(last) {
        assert [last][..0] == [];
      }
    }
  }

  /** The mask `t[column] == v` for the column at index j. */
  function CellIs(j: nat, v: Cell): seq<Cell> -> bool
  {
    row => j < |row| && row[j] == v
  }

  /** `t[t[column] == v]` for the column at index j: the rows holding v
      there, in frame order and with repeats. */
  function Where(t: Table, j: nat, v: Cell): (r: Table)
    requires WellFormed(t) && j < |t.columns|
    ensures WellFormed(r) && r.columns == t.columns
    ensures r.rows == Filter(t.rows, CellIs(j, v))
    ensures forall row :: row in r.rows <==> row in t.rows && row[j] == v
  {
    var rows := Filter(t.rows, CellIs(j, v));
    FilterMembers(t.rows, CellIs(j, v));
    assert forall i :: 0 <= i < |rows| ==> rows[i] in t.rows;
    Table(t.columns, rows)
  }

  // ---------------------------------------------------------------------------
  // The numbered layout as written

  /** With the rule as written, the code of a clean row in the numbered
      layout is its missing pattern with position 2 forced to `0`: a missing
      third level becomes `XX`, never the `XXX` it is compared with. */
  lemma AsWrittenCode(t: Table, i: nat)
    requires WellFormed(t) && |t.columns| >= 6 && t.columns[1..6] == NumberedColumns
    requires !HasAll(t.columns, GeoColumns)
    requires i < |t.rows| && CleanGeography(t.rows[i])
    ensures Prepare(t, FallbackRuleAsWritten).Ok?
    ensures MatchCode(Prepare(t, FallbackRuleAsWritten).value.rows[i]) == MissingPattern(t.rows[i])[2 := '0']
  {
    assert Prepare(t, FallbackRuleAsWritten) == Ok(FixAll(t, NumberedColumns, FallbackRuleAsWritten)) by {
      LayoutNames(t, NumberedColumns);
    }
    assert forall k :: 0 <= k < 5 ==> (FallbackRuleAsWritten(NumberedColumns[k]).marker == Check[k] <==> k != 2) by {
      forall k | 0 <= k < 5
        ensures FallbackRuleAsWritten(NumberedColumns[k]).marker == Check[k] <==> k != 2
      {
        CheckIsMarker(k);
      }
    }
    ForcedCode(t, NumberedColumns, FallbackRuleAsWritten, i, 2);
  }

  /** When every column gets the marker `check` compares it with except the
      one at position j, which never matches, the code of a clean row is its
      missing pattern with position j forced to `0`. */
  lemma ForcedCode(t: Table, names: seq<string>, ruleOf: string -> Rule, i: nat, j: nat)
    requires WellFormed(t) && |t.columns| >= 6 && t.columns[1..6] == names
    requires i < |t.rows| && CleanGeography(t.rows[i]) && j < 5
    requires forall k :: 0 <= k < 5 ==>
               var r := ruleOf(names[k]); |r.marker| == r.width && |r.marker| > 0 && r.marker[0] == 'X'
    requires forall k :: 0 <= k < 5 ==> (ruleOf(names[k]).marker == Check[k] <==> k != j)
    ensures HasAll(t.columns, names)
    ensures MatchCode(FixAll(t, names, ruleOf).rows[i]) == MissingPattern(t.rows[i])[j := '0']
  {
    LayoutNames(t, names);
    var code := MatchCode(FixAll(t, names, ruleOf).rows[i]);
    var want := MissingPattern(t.rows[i])[j := '0'];
    forall k | 0 <= k < 5
      ensures k < |code| && code[k] == want[k]
    {
      ForcedCodeAt(t, names, ruleOf, i, j, k);
    }
  }

  /** One position of `ForcedCode`. */
  lemma ForcedCodeAt(t: Table, names: seq<string>, ruleOf: string -> Rule, i: nat, j: nat, k: nat)
    requires WellFormed(t) && |t.columns| >= 6 && t.columns[1..6] == names
    requires i < |t.rows| && CleanGeography(t.rows[i]) && j < 5 && k < 5
    requires var r := ruleOf(names[k]); |r.marker| == r.width && |r.marker| > 0 && r.marker[0] == 'X'
    requires ruleOf(names[k]).marker == Check[k] <==> k != j
    ensures HasAll(t.columns, names)
    ensures |MatchCode(FixAll(t, names, ruleOf).rows[i])| == 5
    ensures MatchCode(FixAll(t, names, ruleOf).rows[i])[k] == MissingPattern(t.rows[i])[j := '0'][k]
  {
    LayoutCodeAt(t, names, ruleOf, i, k);
  }
}

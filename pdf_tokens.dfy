/**
 * The token stream of `parse_files` in utils/parsepdfs/parsepdfs.py: the page
 * texts of one document joined in page order, split into lines, with every
 * comma removed; and the lazy replacement of blank lines by the integer
 * sentinel -9 as the scan reaches them.
 */
module PdfTokens {
  import opened PyStr

  /** The integer the scan writes over a blank line. */
  const MissingCode: int := -9

  /** An element of the `pages` list: a line of text, or an integer (only the
      sentinel is ever written). */
  datatype Token = Str(text: string) | Int(value: int)

  /** `element.isspace() or not element.strip()` */
  predicate IsBlank(line: string)
  {
    IsSpace(line) || Strip(line) == ""
  }

  /** A line is blank exactly when it holds nothing but whitespace (the empty
      line included). */
  lemma BlankIffAllSpace(line: string)
    ensures IsBlank(line) <==> forall i :: 0 <= i < |line| ==> IsSpaceChar(line[i])
  {
    StripEmpty(line);
  }

  /** The page texts glued together in page order (no separator is added
      between pages). */
  function Concat(pageTexts: seq<string>): string
  {
    if |pageTexts| == 0 then "" else Concat(pageTexts[..|pageTexts| - 1]) + pageTexts[|pageTexts| - 1]
  }

  /** Removing one character never brings in a character that was not there. */
  lemma {:induction false} RemoveCharKeeps(s: string, c: char, d: char)
    requires d !in s
    ensures d !in ReplaceAll(s, [c], "")
    decreases |s|
  {
    if |s| > 0 {
      RemoveCharKeeps(s[1..], c, d);
    }
  }

  /** `pages.split("\n")` followed by `element.replace(",", "")` on every line. */
  function Tokenize(pageTexts: seq<string>): (lines: seq<string>)
    ensures |lines| == |Split(Concat(pageTexts), '\n')| > 0
    ensures forall i :: 0 <= i < |lines| ==> ',' !in lines[i] && '\n' !in lines[i]
  {
    var raw := Split(Concat(pageTexts), '\n');
    assert forall i :: 0 <= i < |raw| ==> ',' !in ReplaceAll(raw[i], ",", "") && '\n' !in ReplaceAll(raw[i], ",", "") by {
      forall i | 0 <= i < |raw|
        ensures ',' !in ReplaceAll(raw[i], ",", "") && '\n' !in ReplaceAll(raw[i], ",", "")
      {
        ReplaceAllRemovesChar(raw[i], ',', "");
        RemoveCharKeeps(raw[i], ',', '\n');
      }
    }
    seq(|raw|, i requires 0 <= i < |raw| => ReplaceAll(raw[i], ",", ""))
  }

  /** Deleting a character distributes over concatenation. */
  lemma {:induction false} RemoveCharConcat(a: string, b: string, c: char)
    ensures ReplaceAll(a + b, [c], "") == ReplaceAll(a, [c], "") + ReplaceAll(b, [c], "")
    decreases |a|
  {
    if |a| == 0 {
      assert a + b == b;
    } else {
      assert (a + b)[1..] == a[1..] + b;
      RemoveCharConcat(a[1..], b, c);
      assert (a + b)[0] == a[0];
      if a[0] == c {
        assert [c] <= a + b && [c] <= a;
      } else {
        assert !([c] <= a + b) && !([c] <= a);
      }
    }
  }

  /** Deleting commas commutes with splitting into lines. */
  lemma {:induction false} RemoveCommasJoin(parts: seq<string>)
    requires |parts| > 0
    ensures Join(seq(|parts|, i requires 0 <= i < |parts| => ReplaceAll(parts[i], ",", "")), '\n')
            == ReplaceAll(Join(parts, '\n'), ",", "")
    decreases |parts|
  {
    var cleaned := seq(|parts|, i requires 0 <= i < |parts| => ReplaceAll(parts[i], ",", ""));
    if |parts| > 1 {
      var tail := seq(|parts| - 1, i requires 0 <= i < |parts| - 1 => ReplaceAll(parts[1..][i], ",", ""));
      RemoveCommasJoin(parts[1..]);
      assert cleaned[1..] == tail;
      RemoveCharConcat(parts[0], [('\n')] + Join(parts[1..], '\n'), ',');
      RemoveCharConcat([('\n')], Join(parts[1..], '\n'), ',');
      assert ReplaceAll("\n", ",", "") == "\n";
      assert parts[0] + ['\n'] + Join(parts[1..], '\n') == parts[0] + (['\n'] + Join(parts[1..], '\n'));
    }
  }

  /** Tokenising loses nothing but the commas: the lines joined back with
      newlines are the document text with its commas deleted, and that text
      splits back into exactly these lines. */
  lemma TokenizeLossless(pageTexts: seq<string>)
    ensures Join(Tokenize(pageTexts), '\n') == ReplaceAll(Concat(pageTexts), ",", "")
    ensures Split(ReplaceAll(Concat(pageTexts), ",", ""), '\n') == Tokenize(pageTexts)
  {
    var raw := Split(Concat(pageTexts), '\n');
    RemoveCommasJoin(raw);
    SplitJoin(Tokenize(pageTexts), '\n');
  }

  /** What the scan turns one line into when it reaches it. */
  function Normalize(line: string): (t: Token)
    ensures t == Int(MissingCode) <==> IsBlank(line)
    ensures !IsBlank(line) ==> t == Str(line)
  {
    if IsBlank(line) then Int(MissingCode) else Str(line)
  }

  /** The `pages` list after the scan has visited the indices below `k`:
      blank lines there hold the sentinel, everything else is the raw line. */
  function Normalized(lines: seq<string>, k: nat): (state: seq<Token>)
    ensures |state| == |lines|
  {
    seq(|lines|, i requires 0 <= i < |lines| => if i < k then Normalize(lines[i]) else Str(lines[i]))
  }

  /** The sentinel shows only behind the scan: an index at or beyond `k` still
      holds its raw line, an index below holds the normalised one. */
  lemma NormalizedAt(lines: seq<string>, k: nat, i: nat)
    requires i < |lines|
    ensures i >= k ==> Normalized(lines, k)[i] == Str(lines[i])
    ensures i < k ==> Normalized(lines, k)[i] == Normalize(lines[i])
    ensures Normalized(lines, k)[i] == Int(MissingCode) <==> i < k && IsBlank(lines[i])
  {
  }

  /** Advancing the scan by one index rewrites that index and nothing else. */
  lemma NormalizedStep(lines: seq<string>, k: nat)
    requires k < |lines|
    ensures Normalized(lines, k + 1) == Normalized(lines, k)[k := Normalize(lines[k])]
  {
  }
}

/**
 * The row-anchor test of `parse_files` (utils/parsepdfs/parsepdfs.py): for an
 * index k > 6, the window `pages[k-4:k+5]` with its fifth element popped as
 * the label candidate, an integer tier, a float tier entered only when the
 * integer tier raises, and a keyword test on the raw line at k.
 */
module PdfAnchor {
  import opened PyStr
  import opened PdfTokens

  /** Python's `int(s)` and `float(s)` on a line of text. Their grammars
      (signs, blanks, underscores, `inf`, `nan`, non-ASCII digits) are not
      modelled: a parse either yields a value or raises `ValueError`. */
  datatype NumberSyntax = NumberSyntax(parseInt: string -> Option<int>, parsesFloat: string -> bool)

  /** Everything `int()` accepts, `float()` accepts too. */
  ghost predicate Consistent(p: NumberSyntax)
  {
    forall s :: p.parseInt(s).Some? ==> p.parsesFloat(s)
  }

  /** `int()` reads a plain ASCII digit string as a non-negative number. */
  ghost predicate ReadsDigits(p: NumberSyntax)
  {
    forall s :: IsDigits(s) ==> p.parseInt(s).Some? && p.parseInt(s).value >= 0
  }

  /** `int(t)`: the sentinel converts to itself, a line goes through `int()`. */
  function IntOf(t: Token, p: NumberSyntax): Option<int>
  {
    match t
    case Int(v) => Some(v)
    case Str(s) => p.parseInt(s)
  }

  /** `check_float(t)`: True when `float(t)` succeeds; the integer sentinel
      always converts. */
  predicate CheckFloat(t: Token, p: NumberSyntax)
  {
    match t
    case Int(_) => true
    case Str(s) => p.parsesFloat(s)
  }

  /** Under a consistent number syntax, every token `int()` accepts also
      passes `check_float`. */
  lemma IntOfImpliesFloat(t: Token, p: NumberSyntax)
    requires Consistent(p)
    requires IntOf(t, p).Some?
    ensures CheckFloat(t, p)
  {
    if t.Str? {
      assert p.parseInt(t.text).Some?;
    }
  }

  /** The label candidate and the value candidates of one window. */
  datatype Window = Window(geo: Token, values: seq<Token>)

  /** Index at which the window `[k-4, k+5)` ends once clipped to the stream. */
  function WindowEnd(k: nat, n: nat): nat
  {
    if k + 5 <= n then k + 5 else n
  }

  /** `digits_check = pages[k-4:k+5]; string_check = digits_check.pop(4)`.
      The label candidate `geo` is the token at k itself; the values are the four tokens
      before it and the up to four after it, so there are eight of them except
      within four tokens of the end of the stream, where the window is cut
      short rather than skipped. */
  function Candidates(state: seq<Token>, k: nat): (w: Window)
    requires 6 < k < |state|
    ensures w.geo == state[k]
    ensures |w.values| == WindowEnd(k, |state|) - k + 3
    ensures 4 <= |w.values| <= 8
    ensures |w.values| == 8 <==> k + 5 <= |state|
    ensures w.values == state[k - 4..k] + state[k + 1..WindowEnd(k, |state|)]
  {
    var window := Slice(state, k - 4, k + 5);
    assert window == state[k - 4..WindowEnd(k, |state|)];
    assert window[5..] == state[k + 1..WindowEnd(k, |state|)];
    Window(window[4], window[..4] + window[5..])
  }

  /** The integer tier runs to completion (does not raise): every value
      converts with `int()` and the label is a string, so `isdigit` exists. */
  predicate IntTierApplies(w: Window, p: NumberSyntax)
  {
    w.geo.Str? && forall i :: 0 <= i < |w.values| ==> IntOf(w.values[i], p).Some?
  }

  /** `geoname_check and values_check_int`: the label is not a digit string
      and every converted value prints as a digit string. */
  predicate IntTierAccepts(w: Window, p: NumberSyntax)
    requires IntTierApplies(w, p)
  {
    !IsDigits(w.geo.text)
    && forall i :: 0 <= i < |w.values| ==> IsDigits(IntToStr(IntOf(w.values[i], p).value))
  }

  /** The same test with `check_float`, used after `ValueError` or
      `AttributeError`. */
  predicate FloatTierAccepts(w: Window, p: NumberSyntax)
  {
    !CheckFloat(w.geo, p) && forall i :: 0 <= i < |w.values| ==> CheckFloat(w.values[i], p)
  }

  const Keywords: seq<string> := ["Zila", "Upazila", "Ward", "Union", "*"]

  /** `any([pattern in element for pattern in patterns])` */
  predicate HasKeyword(line: string)
  {
    exists i :: 0 <= i < |Keywords| && Contains(line, Keywords[i])
  }

  /** Whether index k starts a row, given the `pages` list as it stands when
      the scan is at k (`state`) and the raw line at k (`line`). */
  predicate IsAnchor(state: seq<Token>, k: nat, line: string, p: NumberSyntax)
    requires 6 < k < |state|
  {
    var w := Candidates(state, k);
    (if IntTierApplies(w, p) then IntTierAccepts(w, p) else FloatTierAccepts(w, p))
    || HasKeyword(line)
  }

  /** When the integer tier runs, it accepts exactly when the label is not a
      digit string and no converted value is negative. */
  lemma IntTierMeaning(w: Window, p: NumberSyntax)
    requires IntTierApplies(w, p)
    ensures IntTierAccepts(w, p) <==>
              !IsDigits(w.geo.text) && forall i :: 0 <= i < |w.values| ==> IntOf(w.values[i], p).value >= 0
  {
    forall i | 0 <= i < |w.values| {
      IntToStrIsDigits(IntOf(w.values[i], p).value);
    }
  }

  /** A negative value makes the integer tier reject without raising, so the
      float tier is never consulted, even when it would have accepted: the
      index is then an anchor only through a keyword. */
  lemma NegativeValueBlocksFloatTier(state: seq<Token>, k: nat, line: string, p: NumberSyntax, j: nat)
    requires 6 < k < |state|
    requires IntTierApplies(Candidates(state, k), p)
    requires j < |Candidates(state, k).values| && IntOf(Candidates(state, k).values[j], p).value < 0
    ensures IsAnchor(state, k, line, p) <==> HasKeyword(line)
  {
    IntTierMeaning(Candidates(state, k), p);
  }

  /** A blank line is never an anchor: its label is the sentinel, which makes
      the integer tier raise `AttributeError`, passes `check_float` so the
      float tier rejects, and a blank line holds no keyword. */
  lemma BlankNeverAnchor(state: seq<Token>, k: nat, line: string, p: NumberSyntax)
    requires 6 < k < |state|
    requires IsBlank(line) && state[k] == Normalize(line)
    ensures !IsAnchor(state, k, line, p)
  {
    BlankIffAllSpace(line);
    forall i | 0 <= i < |Keywords|
      ensures !Contains(line, Keywords[i])
    {
      assert !IsSpaceChar(Keywords[i][0]);
      FirstCharAbsent(line, Keywords[i]);
    }
  }

  /** No keyword starts with a digit, so a digit string holds none. */
  lemma DigitsHaveNoKeyword(line: string)
    requires IsDigits(line)
    ensures !HasKeyword(line)
  {
    forall i | 0 <= i < |Keywords|
      ensures !Contains(line, Keywords[i])
    {
      assert !IsAsciiDigit(Keywords[i][0]);
      FirstCharAbsent(line, Keywords[i]);
    }
  }

  /** With Python's `int` and `float`, a label that is a plain digit string
      never starts a row: the integer tier rejects it through `isdigit`, the
      float tier because it converts, and it holds no keyword. */
  lemma DigitLabelNeverAnchor(state: seq<Token>, k: nat, line: string, p: NumberSyntax)
    requires 6 < k < |state|
    requires Consistent(p) && ReadsDigits(p)
    requires state[k] == Str(line) && IsDigits(line)
    ensures !IsAnchor(state, k, line, p)
  {
    assert p.parseInt(line).Some?;
    IntOfImpliesFloat(state[k], p);
    DigitsHaveNoKeyword(line);
  }
}

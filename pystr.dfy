/**
 * The pieces of Python's string, list and path semantics that both scripts
 * rely on: slicing with negative bounds, substring tests, `str.replace`,
 * `str.split`, `str.strip`, `str.isdigit`, `str(int)`, `str.pad` as pandas
 * applies it, `os.path.join` / `os.path.split`, and the first-appearance
 * order of `pandas.unique`.
 */
module PyStr {

  datatype Option<+T> = None | Some(value: T)

  // ---------------------------------------------------------------------------
  // Slicing

  /** How Python normalises one bound of `s[i:j]` against a length `n`. */
  function SliceBound(i: int, n: nat): nat
  {
    if i < 0 then (if i + n < 0 then 0 else i + n)
    else if i > n then n
    else i
  }

  /** `s[i:j]` with step 1: negative bounds count from the end, both bounds are
      clamped to the sequence, and an empty range gives an empty slice. */
  function Slice<T>(s: seq<T>, i: int, j: int): (r: seq<T>)
    ensures |r| <= |s|
    ensures 0 <= i <= j <= |s| ==> r == s[i..j]
    ensures 0 <= i <= |s| <= j ==> r == s[i..]
    ensures -|s| <= i < 0 && |s| <= j ==> r == s[|s| + i..]
  {
    var a, b := SliceBound(i, |s|), SliceBound(j, |s|);
    if a < b then s[a..b] else []
  }

  // ---------------------------------------------------------------------------
  // Substrings and replacement

  /** Python's `pat in s`. */
  predicate Contains(s: string, pat: string)
    decreases |s|
  {
    pat <= s || (|s| > 0 && Contains(s[1..], pat))
  }

  /** A `Contains` fact always has a position where the pattern sits. */
  lemma {:induction false} ContainsAt(s: string, pat: string) returns (i: nat)
    requires Contains(s, pat)
    ensures i + |pat| <= |s| && s[i..i + |pat|] == pat
    decreases |s|
  {
    if pat <= s {
      i := 0;
    } else {
      var j := ContainsAt(s[1..], pat);
      i := j + 1;
      assert s[i..i + |pat|] == s[1..][j..j + |pat|];
    }
  }

  /** Conversely, a pattern sitting at some position is contained. */
  lemma {:induction false} AtContains(s: string, pat: string, i: nat)
    requires i + |pat| <= |s| && s[i..i + |pat|] == pat
    ensures Contains(s, pat)
    decreases i
  {
    if i == 0 {
      assert pat == s[..|pat|];
    } else {
      assert s[1..][i - 1..i - 1 + |pat|] == s[i..i + |pat|];
      AtContains(s[1..], pat, i - 1);
    }
  }

  /** A pattern whose first character does not occur in a string is not
      contained in it. */
  lemma {:induction false} FirstCharAbsent(s: string, pat: string)
    requires |pat| > 0 && pat[0] !in s
    ensures !Contains(s, pat)
    decreases |s|
  {
    if |s| > 0 {
      assert s[0] != pat[0];
      FirstCharAbsent(s[1..], pat);
    }
  }

  /** Python's `s.replace(pat, rep)`: every non-overlapping occurrence of `pat`,
      scanning left to right, is replaced by `rep`. */
  function ReplaceAll(s: string, pat: string, rep: string): (r: string)
    requires |pat| > 0
    ensures !Contains(s, pat) ==> r == s
    decreases |s|
  {
    if |s| == 0 then s
    else if pat <= s then rep + ReplaceAll(s[|pat|..], pat, rep)
    else [s[0]] + ReplaceAll(s[1..], pat, rep)
  }

  /** Replacing a single character by text that does not hold it leaves no
      occurrence of that character behind. */
  lemma {:induction false} ReplaceAllRemovesChar(s: string, c: char, rep: string)
    requires c !in rep
    ensures c !in ReplaceAll(s, [c], rep)
    decreases |s|
  {
    if |s| > 0 {
      if [c] <= s {
        ReplaceAllRemovesChar(s[1..], c, rep);
      } else {
        assert s[0] != c;
        ReplaceAllRemovesChar(s[1..], c, rep);
      }
    }
  }

  /** The first character of a replacement result, when there is one. */
  lemma ReplaceAllHead(s: string, pat: string, rep: string)
    requires |pat| > 0 && |rep| > 0 && |s| > 0
    ensures |ReplaceAll(s, pat, rep)| > 0
    ensures ReplaceAll(s, pat, rep)[0] == if pat <= s then rep[0] else s[0]
  {
  }

  /** Replacing a two-character pattern by non-empty text that holds neither of
      its characters leaves no occurrence of the pattern behind (a replacement
      can neither contain it nor complete it with a neighbour). */
  lemma {:induction false} ReplaceAllRemovesPair(s: string, pat: string, rep: string)
    requires |pat| == 2 && |rep| > 0
    requires pat[0] !in rep && pat[1] !in rep
    ensures !Contains(ReplaceAll(s, pat, rep), pat)
    decreases |s|
  {
    if |s| > 0 {
      if pat <= s {
        var r, tail := ReplaceAll(s, pat, rep), ReplaceAll(s[2..], pat, rep);
        ReplaceAllRemovesPair(s[2..], pat, rep);
        assert r == rep + tail;
        if Contains(r, pat) {
          var i := ContainsAt(r, pat);
          if i >= |rep| {
            assert tail[i - |rep|..i - |rep| + 2] == r[i..i + 2];
            AtContains(tail, pat, i - |rep|);
          }
        }
      } else {
        var r, tail := ReplaceAll(s, pat, rep), ReplaceAll(s[1..], pat, rep);
        ReplaceAllRemovesPair(s[1..], pat, rep);
        assert r == [s[0]] + tail && r[1..] == tail;
        if |s| > 1 {
          ReplaceAllHead(s[1..], pat, rep);
          assert r[0] == s[0] && r[1] == tail[0];
          if pat <= s[1..] {
            assert tail[0] == rep[0];
          } else {
            assert tail[0] == s[1];
          }
        }
      }
    }
  }

  // ---------------------------------------------------------------------------
  // Lines: str.split and its inverse

  /** `sep.join(parts)` for a one-character separator. */
  function Join(parts: seq<string>, sep: char): string
    requires |parts| > 0
  {
    if |parts| == 1 then parts[0] else parts[0] + [sep] + Join(parts[1..], sep)
  }

  /** `s.split(sep)` for a one-character separator: always at least one part,
      no part holds the separator, and joining the parts gives `s` back. */
  function Split(s: string, sep: char): (parts: seq<string>)
    ensures |parts| > 0
    ensures forall i :: 0 <= i < |parts| ==> sep !in parts[i]
    ensures Join(parts, sep) == s
    decreases |s|
  {
    if |s| == 0 then [""]
    else
      var rest := Split(s[1..], sep);
      if s[0] == sep then
        [""] + rest
      else
        var parts := [[s[0]] + rest[0]] + rest[1..];
        assert parts[1..] == rest[1..];
        assert Join(parts, sep) == [s[0]] + Join(rest, sep);
        parts
  }

  /** Splitting text that starts with a separator-free piece glues that piece
      to the first part of the rest. */
  lemma {:induction false} SplitPrefix(p: string, t: string, sep: char)
    requires sep !in p
    ensures Split(p + t, sep) == [p + Split(t, sep)[0]] + Split(t, sep)[1..]
    decreases |p|
  {
    if |p| > 0 {
      var st := Split(t, sep);
      assert (p + t)[0] == p[0] != sep;
      assert (p + t)[1..] == p[1..] + t;
      SplitPrefix(p[1..], t, sep);
      var rest := Split(p[1..] + t, sep);
      assert rest[0] == p[1..] + st[0] && rest[1..] == st[1..];
      assert [p[0]] + (p[1..] + st[0]) == p + st[0];
    } else {
      assert p == "" && p + t == t;
      assert p + Split(t, sep)[0] == Split(t, sep)[0];
      assert [p + Split(t, sep)[0]] + Split(t, sep)[1..] == Split(t, sep);
    }
  }

  /** The other direction of the round trip: parts without the separator are
      recovered exactly by splitting their join. */
  lemma {:induction false} SplitJoin(parts: seq<string>, sep: char)
    requires |parts| > 0
    requires forall i :: 0 <= i < |parts| ==> sep !in parts[i]
    ensures Split(Join(parts, sep), sep) == parts
    decreases |parts|
  {
    if |parts| == 1 {
      SplitPrefix(parts[0], "", sep);
      assert parts[0] + "" == parts[0];
    } else {
      var rest := Join(parts[1..], sep);
      SplitJoin(parts[1..], sep);
      assert parts[0] + [sep] + rest == parts[0] + ([sep] + rest);
      SplitPrefix(parts[0], [sep] + rest, sep);
      assert ([sep] + rest)[1..] == rest;
      assert Split([sep] + rest, sep) == [""] + parts[1..];
      assert parts[0] + "" == parts[0];
    }
  }

  // ---------------------------------------------------------------------------
  // Whitespace, digits and numbers rendered as text

  /** The characters Python's `str.isspace` and `str.strip()` treat as
      whitespace. */
  predicate IsSpaceChar(c: char)
  {
    var n := c as int;
    (9 <= n <= 13) || (28 <= n <= 32) || n == 0x85 || n == 0xA0 || n == 0x1680
    || (0x2000 <= n <= 0x200A) || n == 0x2028 || n == 0x2029 || n == 0x202F
    || n == 0x205F || n == 0x3000
  }

  /** `s.strip()` with no argument. */
  function Strip(s: string): string
    decreases |s|
  {
    if |s| > 0 && IsSpaceChar(s[0]) then Strip(s[1..])
    else if |s| > 0 && IsSpaceChar(s[|s| - 1]) then Strip(s[..|s| - 1])
    else s
  }

  /** `s.isspace()`: non-empty and whitespace only. */
  predicate IsSpace(s: string)
  {
    |s| > 0 && forall i :: 0 <= i < |s| ==> IsSpaceChar(s[i])
  }

  /** `s.strip()` is empty exactly when every character of `s` is whitespace. */
  lemma {:induction false} StripEmpty(s: string)
    ensures Strip(s) == "" <==> forall i :: 0 <= i < |s| ==> IsSpaceChar(s[i])
    decreases |s|
  {
    if |s| > 0 && IsSpaceChar(s[0]) {
      StripEmpty(s[1..]);
      assert forall i :: 1 <= i < |s| ==> s[i] == s[1..][i - 1];
    } else if |s| > 0 && IsSpaceChar(s[|s| - 1]) {
      StripEmpty(s[..|s| - 1]);
      assert forall i :: 0 <= i < |s| - 1 ==> s[i] == s[..|s| - 1][i];
    }
  }

  predicate IsAsciiDigit(c: char)
  {
    '0' <= c <= '9'
  }

  /** `s.isdigit()`, restricted to the ASCII digits. */
  predicate IsDigits(s: string)
  {
    |s| > 0 && forall i :: 0 <= i < |s| ==> IsAsciiDigit(s[i])
  }

  function DigitChar(d: nat): char
    requires d < 10
  {
    ['0', '1', '2', '3', '4', '5', '6', '7', '8', '9'][d]
  }

  /** `str(n)` for a non-negative integer. */
  function NatToStr(n: nat): string
  {
    if n < 10 then [DigitChar(n)] else NatToStr(n / 10) + [DigitChar(n % 10)]
  }

  /** `str(n)` for any integer: a minus sign before the magnitude. */
  function IntToStr(n: int): string
  {
    if n < 0 then "-" + NatToStr(-n) else NatToStr(n)
  }

  lemma {:induction false} NatToStrDigits(n: nat)
    ensures IsDigits(NatToStr(n))
  {
    if n >= 10 {
      NatToStrDigits(n / 10);
    }
  }

  /** `str(n).isdigit()` holds exactly for the non-negative integers. */
  lemma IntToStrIsDigits(n: int)
    ensures IsDigits(IntToStr(n)) <==> n >= 0
  {
    if n < 0 {
      assert IntToStr(n)[0] == '-';
    } else {
      NatToStrDigits(n);
    }
  }

  // ---------------------------------------------------------------------------
  // Padding as `Series.str.pad(width, side='left', fillchar=...)` does it

  function PadLeft(s: string, width: nat, fill: char): (r: string)
    ensures |r| == if |s| < width then width else |s|
    ensures r[|r| - |s|..] == s
    ensures forall i :: 0 <= i < |r| - |s| ==> r[i] == fill
  {
    if |s| < width then seq(width - |s|, _ => fill) + s else s
  }

  // ---------------------------------------------------------------------------
  // Paths (POSIX rules of os.path)

  /** `os.path.join(a, b)`: an absolute `b` wins, otherwise a single `/` is
      put between the two unless `a` is empty or already ends with one. */
  function PathJoin(a: string, b: string): (r: string)
    ensures |r| >= |b| && r[|r| - |b|..] == b
    ensures (|b| > 0 && b[0] == '/') ==> r == b
  {
    if |b| > 0 && b[0] == '/' then b
    else if a == "" || a[|a| - 1] == '/' then a + b
    else a + "/" + b
  }

  /** One file reported by `os.walk`: the directory it was found in and its
      name. A walk is the list of these in the order the walk yields them. */
  datatype DirEntry = DirEntry(dir: string, name: string)

  /** A relative name keeps the whole of `a` in front and the whole of `b`
      at the end; one character is put between them, a `/`, exactly when
      `a` is not empty and does not already end with `/`. */
  lemma PathJoinRelative(a: string, b: string)
    requires |b| > 0 && b[0] != '/'
    ensures |a| <= |PathJoin(a, b)| && PathJoin(a, b)[..|a|] == a
    ensures |PathJoin(a, b)| == |a| + |b| || |PathJoin(a, b)| == |a| + |b| + 1
    ensures |PathJoin(a, b)| == |a| + |b| + 1 <==> a != "" && a[|a| - 1] != '/'
    ensures |PathJoin(a, b)| == |a| + |b| + 1 ==> PathJoin(a, b)[|a|] == '/'
  {
  }

  /** `os.path.split(p)[1]`: what follows the last `/`. */
  function Basename(p: string): (r: string)
    ensures '/' !in r
    ensures |r| <= |p| && p[|p| - |r|..] == r
    ensures |r| < |p| ==> p[|p| - |r| - 1] == '/'
    decreases |p|
  {
    if |p| == 0 || p[|p| - 1] == '/' then ""
    else
      var r := Basename(p[..|p| - 1]) + [p[|p| - 1]];
      assert p[|p| - |r|..] == p[..|p| - 1][|p| - |r|..] + [p[|p| - 1]];
      r
  }

  // ---------------------------------------------------------------------------
  // pandas `unique()`: distinct values in order of first appearance

  function Unique<T(==,!new)>(s: seq<T>): (u: seq<T>)
    ensures forall x :: x in u <==> x in s
    ensures forall i, j :: 0 <= i < j < |u| ==> u[i] != u[j]
  {
    if |s| == 0 then []
    else
      var u := Unique(s[..|s| - 1]);
      assert forall x :: x in s <==> x in s[..|s| - 1] || x == s[|s| - 1];
      if s[|s| - 1] in u then u else u + [s[|s| - 1]]
  }

  /** A single value is its own `unique()`. */
  lemma UniqueSingle<T(!new)>(x: T)
    ensures Unique([x]) == [x]
  {
    assert [x][..0] == [];
  }

  /** Index of the first occurrence of `x` in `s`. */
  function FirstIndex<T(==)>(s: seq<T>, x: T): (i: nat)
    requires x in s
    ensures i < |s| && s[i] == x && x !in s[..i]
  {
    if s[0] == x then 0
    else
      var j := FirstIndex(s[1..], x);
      assert s[..j + 1] == [s[0]] + s[1..][..j];
      j + 1
  }

  lemma {:induction false} FirstIndexPrefix<T>(s: seq<T>, n: nat, x: T)
    requires n <= |s| && x in s[..n]
    ensures FirstIndex(s, x) == FirstIndex(s[..n], x)
  {
    var i, j := FirstIndex(s, x), FirstIndex(s[..n], x);
    assert s[..n][..j] == s[..j];
  }

  /** `Unique` lists the values in the order of their first appearance. */
  lemma {:induction false} UniqueOrder<T(!new)>(s: seq<T>)
    ensures forall i, j :: 0 <= i < j < |Unique(s)| ==>
              FirstIndex(s, Unique(s)[i]) < FirstIndex(s, Unique(s)[j])
  {
    if |s| > 0 {
      var init, last := s[..|s| - 1], s[|s| - 1];
      var u0 := Unique(init);
      UniqueOrder(init);
      forall x | x in u0
        ensures FirstIndex(s, x) == FirstIndex(init, x) < |init|
      {
        FirstIndexPrefix(s, |init|, x);
      }
      if last !in u0 {
        assert last !in init;
        assert FirstIndex(s, last) == |init|;
      }
    }
  }
}

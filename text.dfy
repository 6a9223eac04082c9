/**
  Python string operations used by the dataset utilities: `in` (substring),
  `startswith`, `str()` of a non-negative int, `zfill`, `rjust`, `find` and `rfind`.
  Strings are sequences of characters.
 */
module Text {

  /** `s.startswith(p)` */
  predicate StartsWith(s: string, p: string) {
    |p| <= |s| && s[..|p|] == p
  }

  /** `p in s`: some occurrence of `p` starts at some position of `s` (the empty string occurs everywhere). */
  predicate Contains(s: string, p: string)
    decreases |s|
  {
    StartsWith(s, p) || (|s| > 0 && Contains(s[1..], p))
  }

  /** `p` occurs in `s` at position `i`. */
  ghost predicate OccursAt(s: string, p: string, i: int) {
    0 <= i && i + |p| <= |s| && s[i..i + |p|] == p
  }

  /** An occurrence at any position makes the recursive test succeed. */
  lemma {:induction false} OccurrenceContained(s: string, p: string, i: int)
    requires OccursAt(s, p, i)
    ensures Contains(s, p)
    decreases i
  {
    if i == 0 {
      assert s[..|p|] == p;
    } else {
      assert s[1..][i - 1..i - 1 + |p|] == s[i..i + |p|];
      OccurrenceContained(s[1..], p, i - 1);
    }
  }

  /** The recursive test succeeds only when there is an occurrence. */
  lemma {:induction false} ContainedOccurrence(s: string, p: string)
    requires Contains(s, p)
    ensures exists i :: OccursAt(s, p, i)
    decreases |s|
  {
    if StartsWith(s, p) {
      assert OccursAt(s, p, 0);
    } else {
      ContainedOccurrence(s[1..], p);
      var i :| OccursAt(s[1..], p, i);
      assert s[1..][i..i + |p|] == s[i + 1..i + 1 + |p|];
      assert OccursAt(s, p, i + 1);
    }
  }

  /** Python's `p in s`: the recursive test agrees with the definition of a substring occurrence. */
  lemma ContainsIff(s: string, p: string)
    ensures Contains(s, p) <==> exists i :: OccursAt(s, p, i)
  {
    if Contains(s, p) {
      ContainedOccurrence(s, p);
    }
    if exists i :: OccursAt(s, p, i) {
      var i :| OccursAt(s, p, i);
      OccurrenceContained(s, p, i);
    }
  }

  /** Index of the first `c` in `s`, or `|s|` when there is none (Python's `find`, with -1 read as `|s|`). */
  function IndexOf(s: string, c: char): (i: nat)
    ensures i <= |s|
    ensures i < |s| ==> s[i] == c
    ensures forall j :: 0 <= j < i ==> s[j] != c
    decreases |s|
  {
    if |s| == 0 then 0
    else if s[0] == c then 0
    else 1 + IndexOf(s[1..], c)
  }

  /** Searching past a prefix that lacks `c` continues into the rest. */
  lemma {:induction false} IndexOfAppend(s: string, t: string, c: char)
    requires c !in s
    ensures IndexOf(s + t, c) == |s| + IndexOf(t, c)
    decreases |s|
  {
    if |s| > 0 {
      assert (s + t)[1..] == s[1..] + t;
      IndexOfAppend(s[1..], t, c);
    } else {
      assert s + t == t;
    }
  }

  /** Index of the last `c` in `s`, or -1 when there is none (Python's `rfind`). */
  function LastIndexOf(s: string, c: char): (i: int)
    ensures -1 <= i < |s|
    ensures i >= 0 ==> s[i] == c
    ensures forall j :: i < j < |s| ==> s[j] != c
    decreases |s|
  {
    if |s| == 0 then -1
    else if s[|s| - 1] == c then |s| - 1
    else LastIndexOf(s[..|s| - 1], c)
  }

  /** Appending text that lacks `c` does not move the last `c`. */
  lemma {:induction false} LastIndexOfAppend(s: string, t: string, c: char)
    requires c !in t
    ensures LastIndexOf(s + t, c) == LastIndexOf(s, c)
    decreases |t|
  {
    if |t| == 0 {
      assert s + t == s;
    } else {
      assert (s + t)[..|s + t| - 1] == s + t[..|t| - 1];
      LastIndexOfAppend(s, t[..|t| - 1], c);
    }
  }

  /** The decimal digit character for `d`. */
  function DigitChar(d: nat): char
    requires d < 10
  {
    "0123456789"[d]
  }

  /** `str(n)` for a non-negative integer: its decimal digits, most significant first. */
  function Decimal(n: nat): (r: string)
    ensures 1 <= |r|
    ensures n < 10 ==> |r| == 1
    ensures 10 <= n < 100 ==> |r| == 2
    decreases n
  {
    if n < 10 then [DigitChar(n)] else Decimal(n / 10) + [DigitChar(n % 10)]
  }

  /** `n` times the character `c`. */
  function Repeat(c: char, n: nat): (r: string)
    ensures |r| == n
    ensures forall i :: 0 <= i < n ==> r[i] == c
  {
    seq(n, _ => c)
  }

  /** `s` padded on the left with `fill` up to width `w`; a string already that wide is kept whole. */
  function PadLeft(s: string, w: nat, fill: char): (r: string)
    ensures |r| == if |s| < w then w else |s|
  {
    if |s| < w then Repeat(fill, w - |s|) + s else s
  }

  /** Padding keeps `s` whole at the right end and puts only `fill` before it. */
  lemma PadLeftParts(s: string, w: nat, fill: char)
    ensures PadLeft(s, w, fill)[|PadLeft(s, w, fill)| - |s|..] == s
    ensures forall i :: 0 <= i < |PadLeft(s, w, fill)| - |s| ==> PadLeft(s, w, fill)[i] == fill
  {
  }

  /** `s.zfill(w)` for a string that does not begin with a sign: zeros on the left up to width `w`. */
  function ZFill(s: string, w: nat): string {
    PadLeft(s, w, '0')
  }

  /** `s.rjust(w)`: spaces on the left up to width `w`. */
  function RJust(s: string, w: nat): string {
    PadLeft(s, w, ' ')
  }
}

/**
 * The pieces of Python's `str` behaviour that the core relies on: whitespace and digit
 * classes, ASCII case mapping, `strip`, `find`/`rfind`, `split("/")[-1]`, `sep.join`,
 * `str(n)` for a non-negative integer, and the substring test `a in b`.
 */
module Strings {
  import opened Wrappers

  /** Python's `str.isspace()`; the class matched by `\s` in a `str` regular expression is the same. */
  predicate IsSpace(c: char) {
    var n := c as int;
    (9 <= n <= 13) || (28 <= n <= 32) || n == 0x85 || n == 0xA0 || n == 0x1680
    || (0x2000 <= n <= 0x200A) || n == 0x2028 || n == 0x2029 || n == 0x202F
    || n == 0x205F || n == 0x3000
  }

  /** An ASCII decimal digit (what `\d` matches in the texts the model considers). */
  predicate IsDigit(c: char) {
    '0' <= c <= '9'
  }

  predicate AllDigits(s: string) {
    forall i :: 0 <= i < |s| ==> IsDigit(s[i])
  }

  predicate NoSpace(s: string) {
    forall i :: 0 <= i < |s| ==> !IsSpace(s[i])
  }

  function LowerChar(c: char): char {
    if 'A' <= c <= 'Z' then (c as int + 32) as char else c
  }

  function UpperChar(c: char): char {
    if 'a' <= c <= 'z' then (c as int - 32) as char else c
  }

  /** `s.lower()` restricted to the ASCII letters. */
  function Lower(s: string): (r: string)
    ensures |r| == |s| && forall i :: 0 <= i < |s| ==> r[i] == LowerChar(s[i])
  {
    if s == [] then [] else [LowerChar(s[0])] + Lower(s[1..])
  }

  /** `s.upper()` restricted to the ASCII letters. */
  function Upper(s: string): (r: string)
    ensures |r| == |s| && forall i :: 0 <= i < |s| ==> r[i] == UpperChar(s[i])
  {
    if s == [] then [] else [UpperChar(s[0])] + Upper(s[1..])
  }

  function StripLeft(s: string): string
  {
    if |s| > 0 && IsSpace(s[0]) then StripLeft(s[1..]) else s
  }

  function StripRight(s: string): string
  {
    if |s| > 0 && IsSpace(s[|s| - 1]) then StripRight(s[..|s| - 1]) else s
  }

  /** `s.strip()`: whitespace removed from both ends, nothing else touched. */
  function Strip(s: string): string
  {
    StripRight(StripLeft(s))
  }

  /** Stripping the left end removes a prefix made only of whitespace. */
  lemma {:induction false} StripLeftSuffix(s: string)
    ensures var t := StripLeft(s);
            |t| <= |s| && t == s[|s| - |t|..]
            && (forall k :: 0 <= k < |s| - |t| ==> IsSpace(s[k]))
            && (t != [] ==> !IsSpace(t[0]))
  {
    if |s| > 0 && IsSpace(s[0]) {
      StripLeftSuffix(s[1..]);
    }
  }

  /** Stripping the right end removes a suffix made only of whitespace. */
  lemma {:induction false} StripRightPrefix(s: string)
    ensures var t := StripRight(s);
            |t| <= |s| && t == s[..|t|]
            && (forall k :: |t| <= k < |s| ==> IsSpace(s[k]))
            && (t != [] ==> !IsSpace(t[|t| - 1]))
  {
    if |s| > 0 && IsSpace(s[|s| - 1]) {
      StripRightPrefix(s[..|s| - 1]);
    }
  }

  /**
   * `strip` keeps one contiguous slice of the text: everything cut from either end is
   * whitespace, and what is kept neither opens nor closes with whitespace.
   */
  lemma StripTrims(s: string)
    ensures exists i, j :: 0 <= i <= j <= |s| && Strip(s) == s[i..j]
              && (forall k :: 0 <= k < i ==> IsSpace(s[k]))
              && (forall k :: j <= k < |s| ==> IsSpace(s[k]))
    ensures Strip(s) != [] ==> !IsSpace(Strip(s)[0]) && !IsSpace(Strip(s)[|Strip(s)| - 1])
  {
    var u := StripLeft(s);
    StripLeftSuffix(s);
    StripRightPrefix(u);
    var t := StripRight(u);
    var i := |s| - |u|;
    var j := i + |t|;
    assert t == s[i..j];
    forall k | j <= k < |s| ensures IsSpace(s[k]) {
      assert s[k] == u[k - i];
    }
    if t != [] {
      assert t[0] == u[0];
    }
  }

  /** `re.sub(r'\s+', '', s)`: every whitespace character deleted. */
  function DeleteSpace(s: string): string
  {
    if s == [] then []
    else (if IsSpace(s[0]) then [] else [s[0]]) + DeleteSpace(s[1..])
  }

  lemma {:induction false} DeleteSpaceConcat(a: string, b: string)
    ensures DeleteSpace(a + b) == DeleteSpace(a) + DeleteSpace(b)
  {
    if a != [] {
      assert (a + b)[1..] == a[1..] + b;
      DeleteSpaceConcat(a[1..], b);
    } else {
      assert a + b == b;
    }
  }

  lemma {:induction false} DeleteSpaceNoSpace(s: string)
    ensures NoSpace(DeleteSpace(s))
    ensures NoSpace(s) ==> DeleteSpace(s) == s
  {
    if s != [] {
      DeleteSpaceNoSpace(s[1..]);
    }
  }

  /** Whitespace at the ends is deleted anyway, so stripping first makes no difference. */
  lemma {:induction false} DeleteSpaceIgnoresStrip(s: string)
    ensures DeleteSpace(Strip(s)) == DeleteSpace(s)
  {
    DeleteSpaceIgnoresStripLeft(s);
    DeleteSpaceIgnoresStripRight(StripLeft(s));
  }

  lemma {:induction false} DeleteSpaceIgnoresStripLeft(s: string)
    ensures DeleteSpace(StripLeft(s)) == DeleteSpace(s)
  {
    if |s| > 0 && IsSpace(s[0]) {
      DeleteSpaceIgnoresStripLeft(s[1..]);
    }
  }

  lemma {:induction false} DeleteSpaceIgnoresStripRight(s: string)
    ensures DeleteSpace(StripRight(s)) == DeleteSpace(s)
  {
    if |s| > 0 && IsSpace(s[|s| - 1]) {
      var init := s[..|s| - 1];
      DeleteSpaceIgnoresStripRight(init);
      assert s == init + [s[|s| - 1]];
      DeleteSpaceConcat(init, [s[|s| - 1]]);
    }
  }

  lemma {:induction false} LowerConcat(a: string, b: string)
    ensures Lower(a + b) == Lower(a) + Lower(b)
  {
    if a == [] {
      assert a + b == b;
    } else {
      assert (a + b)[1..] == a[1..] + b;
      LowerConcat(a[1..], b);
    }
  }

  /** Case mapping neither creates nor removes whitespace, so the two steps commute. */
  lemma {:induction false} DeleteSpaceLower(s: string)
    ensures DeleteSpace(Lower(s)) == Lower(DeleteSpace(s))
  {
    if s != [] {
      var head: string := if IsSpace(s[0]) then [] else [s[0]];
      assert IsSpace(LowerChar(s[0])) == IsSpace(s[0]);
      assert Lower(s)[1..] == Lower(s[1..]);
      DeleteSpaceLower(s[1..]);
      LowerConcat(head, DeleteSpace(s[1..]));
    }
  }

  lemma LowerIdempotent(s: string)
    ensures Lower(Lower(s)) == Lower(s)
  {
  }

  /** `sep.join(parts)`. */
  function Join(parts: seq<string>, sep: string): string
  {
    if |parts| == 0 then ""
    else if |parts| == 1 then parts[0]
    else parts[0] + sep + Join(parts[1..], sep)
  }

  /** Joining one more part appends the separator and that part. */
  lemma {:induction false} JoinAppend(parts: seq<string>, p: string, sep: string)
    requires parts != []
    ensures Join(parts + [p], sep) == Join(parts, sep) + sep + p
  {
    if |parts| > 1 {
      assert (parts + [p])[1..] == parts[1..] + [p];
      JoinAppend(parts[1..], p, sep);
    }
  }

  /** A joined text opens with its first part. */
  lemma {:induction false} JoinStartsWithFirst(parts: seq<string>, sep: string)
    requires parts != []
    ensures parts[0] <= Join(parts, sep)
  {
    if |parts| > 1 {
      assert Join(parts, sep) == parts[0] + (sep + Join(parts[1..], sep));
    }
  }

  /** The digit character for `d`. */
  function DigitChar(d: nat): (c: char)
    requires d < 10
    ensures IsDigit(c) && c as int - '0' as int == d
  {
    (d + '0' as int) as char
  }

  /** The number written by a string of decimal digits. */
  function DigitsValue(s: string): nat
    requires AllDigits(s)
  {
    if s == [] then 0 else DigitsValue(s[..|s| - 1]) * 10 + (s[|s| - 1] as int - '0' as int)
  }

  /** `str(n)` for a non-negative integer: its decimal digits, with no leading zero. */
  function NatToString(n: nat): (r: string)
    ensures |r| > 0 && AllDigits(r)
    ensures r[0] == '0' ==> n == 0
  {
    if n < 10 then [DigitChar(n)] else NatToString(n / 10) + [DigitChar(n % 10)]
  }

  /** Reading the digits back gives the number: `int(str(n)) == n`. */
  lemma {:induction false} NatToStringRoundTrip(n: nat)
    ensures DigitsValue(NatToString(n)) == n
  {
    if n >= 10 {
      NatToStringRoundTrip(n / 10);
      var s := NatToString(n);
      assert s[..|s| - 1] == NatToString(n / 10);
    }
  }

  lemma NatToStringInjective(m: nat, n: nat)
    requires NatToString(m) == NatToString(n)
    ensures m == n
  {
    NatToStringRoundTrip(m);
    NatToStringRoundTrip(n);
  }

  /** `s.find(c)`: the first position of `c`, or `None` for Python's -1. */
  function IndexOf(s: string, c: char): (r: Option<nat>)
    ensures r.Some? ==> r.value < |s| && s[r.value] == c && c !in s[..r.value]
    ensures r.None? <==> c !in s
  {
    if s == [] then None
    else if s[0] == c then Some(0)
    else match IndexOf(s[1..], c)
      case None => None
      case Some(k) => Some(k + 1)
  }

  /** `s.rfind(c)`: the last position of `c`, or `None` for Python's -1. */
  function LastIndexOf(s: string, c: char): (r: Option<nat>)
    ensures r.Some? ==> r.value < |s| && s[r.value] == c && c !in s[r.value + 1..]
    ensures r.None? <==> c !in s
  {
    if s == [] then None
    else if s[|s| - 1] == c then Some(|s| - 1)
    else LastIndexOf(s[..|s| - 1], c)
  }

  /** A position holding `c` with no `c` before it is what `find` returns. */
  lemma IndexOfAt(s: string, c: char, i: nat)
    requires i < |s| && s[i] == c && c !in s[..i]
    ensures IndexOf(s, c) == Some(i)
  {
  }

  /** A position holding `c` with no `c` after it is what `rfind` returns. */
  lemma LastIndexOfAt(s: string, c: char, i: nat)
    requires i < |s| && s[i] == c && c !in s[i + 1..]
    ensures LastIndexOf(s, c) == Some(i)
  {
  }

  /** `s.split(c)[-1]`: the text after the last `c`, or all of `s` when there is none. */
  function LastSegment(s: string, c: char): (r: string)
    ensures c !in r
    ensures |r| <= |s| && r == s[|s| - |r|..]
    ensures |r| < |s| ==> s[|s| - |r| - 1] == c
    ensures c !in s ==> r == s
  {
    match LastIndexOf(s, c)
    case None => s
    case Some(k) => s[k + 1..]
  }

  /** `a` occurs in `b` starting at `i`. */
  predicate OccursAt(a: string, b: string, i: nat) {
    i + |a| <= |b| && b[i..i + |a|] == a
  }

  /** Python's substring test `a in b`. */
  predicate IsSubstring(a: string, b: string) {
    a <= b || (|b| > 0 && IsSubstring(a, b[1..]))
  }

  lemma {:induction false} IsSubstringIff(a: string, b: string)
    ensures IsSubstring(a, b) <==> exists i: nat :: OccursAt(a, b, i)
  {
    if a <= b {
      assert OccursAt(a, b, 0);
    } else if |b| > 0 {
      IsSubstringIff(a, b[1..]);
      if IsSubstring(a, b[1..]) {
        var i: nat :| OccursAt(a, b[1..], i);
        assert b[1..][i..i + |a|] == b[i + 1..i + 1 + |a|];
        assert OccursAt(a, b, i + 1);
      }
      if i: nat :| OccursAt(a, b, i) {
        assert OccursAt(a, b, 0) ==> a <= b;
        assert b[1..][i - 1..i - 1 + |a|] == b[i..i + |a|];
        assert OccursAt(a, b[1..], i - 1);
      }
    }
  }

  /** A substring is never longer than the text it occurs in. */
  lemma {:induction false} IsSubstringLength(a: string, b: string)
    requires IsSubstring(a, b)
    ensures |a| <= |b|
  {
    if !(a <= b) {
      IsSubstringLength(a, b[1..]);
    }
  }

  /** `xs` with repeats removed, each kept where it is first seen (the key order of a dict filled from `xs`). */
  function Dedup(xs: seq<string>): seq<string>
    decreases |xs|
  {
    if xs == [] then []
    else
      var p := xs[..|xs| - 1];
      Dedup(p) + (if xs[|xs| - 1] in p then [] else [xs[|xs| - 1]])
  }
  /** Dropping repeats never lengthens a list. */
  lemma {:induction false} DedupShorter(xs: seq<string>)
    ensures |Dedup(xs)| <= |xs|
    decreases |xs|
  {
    if xs != [] {
      DedupShorter(xs[..|xs| - 1]);
    }
  }


  lemma {:induction false} DedupMembers(xs: seq<string>)
    ensures forall s :: s in Dedup(xs) <==> s in xs
    ensures forall i, j :: 0 <= i < j < |Dedup(xs)| ==> Dedup(xs)[i] != Dedup(xs)[j]
    decreases |xs|
  {
    if xs != [] {
      var p := xs[..|xs| - 1];
      DedupMembers(p);
      assert xs == p + [xs[|xs| - 1]];
    }
  }
}

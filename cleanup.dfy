/**
 * Post-processing of the editor model's raw reply (app.py): `remove_markdown_headers`,
 * `normalize_references` and `extract_json`, modelled as the left-to-right, non-overlapping
 * scans that `re.sub` performs and as the brace-span selection in front of `json.loads`.
 */
module Cleanup {
  import opened Wrappers
  import opened Strings

  // ---------------------------------------------------------------------------------
  // normalize_references: re.sub(r'\[ID:\s*(\d+)\]', r'[\1]', t, flags=re.IGNORECASE)

  /** Length of the run of whitespace at the start of `s` (the greedy `\s*`). */
  function SpaceRun(s: string): (r: nat)
    ensures r <= |s| && (forall k :: 0 <= k < r ==> IsSpace(s[k])) && (r < |s| ==> !IsSpace(s[r]))
  {
    if s == [] || !IsSpace(s[0]) then 0 else 1 + SpaceRun(s[1..])
  }

  /** Length of the run of digits at the start of `s` (the greedy `\d+`). */
  function DigitRun(s: string): (r: nat)
    ensures r <= |s| && (forall k :: 0 <= k < r ==> IsDigit(s[k])) && (r < |s| ==> !IsDigit(s[r]))
  {
    if s == [] || !IsDigit(s[0]) then 0 else 1 + DigitRun(s[1..])
  }

  predicate IsLetterI(c: char) { c == 'I' || c == 'i' }
  predicate IsLetterD(c: char) { c == 'D' || c == 'd' }

  /**
   * `s` opens with a citation marker `[ID:` + `w` whitespace characters + `d > 0` digits + `]`,
   * letters in either case.
   */
  predicate Marker(s: string, w: nat, d: nat) {
    5 + w + d <= |s| && d > 0
    && s[0] == '[' && IsLetterI(s[1]) && IsLetterD(s[2]) && s[3] == ':'
    && (forall k :: 4 <= k < 4 + w ==> IsSpace(s[k]))
    && (forall k :: 4 + w <= k < 4 + w + d ==> IsDigit(s[k]))
    && s[4 + w + d] == ']'
  }

  /** The match of the pattern at the start of `s`, as its whitespace and digit counts. */
  function MarkerAt(s: string): (r: Option<(nat, nat)>)
    ensures r.Some? ==> Marker(s, r.value.0, r.value.1)
    ensures r.None? ==> forall w: nat, d: nat :: !Marker(s, w, d)
  {
    if |s| >= 4 && s[0] == '[' && IsLetterI(s[1]) && IsLetterD(s[2]) && s[3] == ':' then
      var w := SpaceRun(s[4..]);
      var d := DigitRun(s[4 + w..]);
      if d > 0 && 4 + w + d < |s| && s[4 + w + d] == ']' then
        assert forall k :: 4 + w <= k < 4 + w + d ==> s[k] == s[4 + w..][k - 4 - w];
        Some((w, d))
      else
        MarkerCounts(s, w, d);
        None
    else None
  }

  lemma MarkerCounts(s: string, w: nat, d: nat)
    requires |s| >= 4 && w == SpaceRun(s[4..]) && d == DigitRun(s[4 + w..])
    ensures forall w': nat, d': nat :: Marker(s, w', d') ==> w' == w && d' == d
  {
    forall w': nat, d': nat | Marker(s, w', d') ensures w' == w && d' == d {
      assert s[4..][w'] == s[4 + w'];
      assert w' == w;
      assert s[4 + w..][d'] == s[4 + w + d'];
    }
  }

  /**
   * `normalize_references`: every marker becomes `[` + its digits + `]`; all other text is
   * copied.
   */
  function NormalizeReferences(s: string): string
    decreases |s|
  {
    if s == [] then []
    else match MarkerAt(s)
      case Some((w, d)) => "[" + s[4 + w..4 + w + d] + "]" + NormalizeReferences(s[5 + w + d..])
      case None => [s[0]] + NormalizeReferences(s[1..])
  }

  /** Every character of the normalised text comes from the input: the brackets and digits of a marker are its own. */
  lemma {:induction false} NormalizeReferencesChars(s: string)
    ensures forall c :: c in NormalizeReferences(s) ==> c in s
    decreases |s|
  {
    if s != [] {
      match MarkerAt(s)
      case Some((w, d)) =>
        var digits, rest := s[4 + w..4 + w + d], s[5 + w + d..];
        NormalizeReferencesChars(rest);
        NormalizeAtMarker(s, w, d);
        assert forall c :: c in digits ==> c in s;
        assert forall c :: c in rest ==> c in s;
      case None =>
        NormalizeReferencesChars(s[1..]);
        assert forall c :: c in s[1..] ==> c in s;
    }
  }

  /** No citation marker starts anywhere in `s`. */
  predicate NoMarker(s: string) {
    forall i :: 0 <= i <= |s| ==> MarkerAt(s[i..]).None?
  }

  /** The rewrite itself: a marker with any letter case and any whitespace becomes `[digits]`. */
  lemma NormalizeReferencesRewrites(i: char, d: char, spaces: string, digits: string, rest: string)
    requires IsLetterI(i) && IsLetterD(d)
    requires forall k :: 0 <= k < |spaces| ==> IsSpace(spaces[k])
    requires AllDigits(digits) && digits != []
    ensures NormalizeReferences("[" + [i, d] + ":" + spaces + digits + "]" + rest)
            == "[" + digits + "]" + NormalizeReferences(rest)
  {
    var s := "[" + [i, d] + ":" + spaces + digits + "]" + rest;
    var w, n := |spaces|, |digits|;
    var p, q := "[" + [i, d] + ":" + spaces, "]" + rest;
    assert s == p + digits + q;
    MarkerOf(s, i, d, spaces, digits, rest);
    MarkerAtOf(s, w, n);
    NormalizeAtMarker(s, w, n);
    ConcatSlices(p, digits, q);
    assert q[1..] == rest;
  }

  lemma ConcatSlices(p: string, m: string, q: string)
    ensures (p + m + q)[|p|..|p| + |m|] == m && (p + m + q)[|p| + |m|..] == q
  {
  }

  lemma MarkerOf(s: string, i: char, d: char, spaces: string, digits: string, rest: string)
    requires IsLetterI(i) && IsLetterD(d)
    requires forall k :: 0 <= k < |spaces| ==> IsSpace(spaces[k])
    requires AllDigits(digits) && digits != []
    requires s == "[" + [i, d] + ":" + spaces + digits + "]" + rest
    ensures Marker(s, |spaces|, |digits|)
  {
    var w, n := |spaces|, |digits|;
    forall k | 4 <= k < 4 + w ensures IsSpace(s[k]) {
      assert s[k] == spaces[k - 4];
    }
    forall k | 4 + w <= k < 4 + w + n ensures IsDigit(s[k]) {
      assert s[k] == digits[k - 4 - w];
    }
  }

  /** A marker at the start of `s` is the one the scan finds. */
  lemma MarkerAtOf(s: string, w: nat, d: nat)
    requires Marker(s, w, d)
    ensures MarkerAt(s) == Some((w, d))
  {
    var (w', d') := MarkerAt(s).value;
    MarkerUnique(s, w, d, w', d');
  }

  lemma MarkerUnique(s: string, w: nat, d: nat, w': nat, d': nat)
    requires Marker(s, w, d) && Marker(s, w', d')
    ensures w == w' && d == d'
  {
    var w0 := SpaceRun(s[4..]);
    MarkerCounts(s, w0, DigitRun(s[4 + w0..]));
  }

  /** A reply without markers passes through unchanged. */
  lemma {:induction false} NormalizeReferencesUnchanged(s: string)
    requires NoMarker(s)
    ensures NormalizeReferences(s) == s
    decreases |s|
  {
    if s != [] {
      assert s[0..] == s;
      assert NoMarker(s[1..]) by {
        forall i | 0 <= i <= |s[1..]| ensures MarkerAt(s[1..][i..]).None? {
          assert s[1..][i..] == s[i + 1..];
        }
      }
      NormalizeReferencesUnchanged(s[1..]);
    }
  }

  /** A text sharing a marker's first `5 + w + d` characters opens with the same marker. */
  lemma MarkerPrefix(x: string, y: string, w: nat, d: nat)
    requires Marker(x, w, d) && 5 + w + d <= |y| && x[..5 + w + d] == y[..5 + w + d]
    ensures Marker(y, w, d)
  {
    forall k | 0 <= k < 5 + w + d ensures y[k] == x[k] {
      assert x[..5 + w + d][k] == x[k] && y[..5 + w + d][k] == y[k];
    }
  }

  /** Up to its first `[`, the output is a copy of the input. */
  lemma {:induction false} OutputPrefixCopied(t: string, k: nat)
    requires k <= |NormalizeReferences(t)|
    requires forall j :: 0 <= j < k ==> NormalizeReferences(t)[j] != '['
    ensures k <= |t| && t[..k] == NormalizeReferences(t)[..k]
    decreases k
  {
    if k > 0 {
      var r := NormalizeReferences(t);
      assert t != [];
      NormalizeReferencesHead(t);
      var u := NormalizeReferences(t[1..]);
      assert r == [t[0]] + u;
      forall j | 0 <= j < k - 1 ensures u[j] != '[' {
        assert u[j] == r[j + 1];
      }
      OutputPrefixCopied(t[1..], k - 1);
      assert t[..k] == [t[0]] + t[1..][..k - 1];
      assert r[..k] == [t[0]] + u[..k - 1];
    }
  }

  /** The first step of the scan: a marker opens the output with `[`, anything else is copied. */
  lemma NormalizeReferencesHead(t: string)
    requires t != []
    ensures MarkerAt(t).Some? ==> NormalizeReferences(t)[0] == '['
    ensures MarkerAt(t).None? ==> NormalizeReferences(t) == [t[0]] + NormalizeReferences(t[1..])
  {
  }

  /** A marker can only open the output where one opened the input. */
  lemma MarkerAfterCopiedChar(s: string, w: nat, d: nat)
    requires s != [] && Marker([s[0]] + NormalizeReferences(s[1..]), w, d)
    ensures Marker(s, w, d)
  {
    var c, t := s[0], s[1..];
    assert [c] + t == s;
    var x := [c] + NormalizeReferences(t);
    var n := 4 + w + d;
    forall j | 0 <= j < n ensures NormalizeReferences(t)[j] != '[' {
      assert NormalizeReferences(t)[j] == x[j + 1];
      assert 1 <= j + 1 <= 4 + w + d;
      if j + 1 >= 4 + w && j + 1 < 4 + w + d {
        assert IsDigit(x[j + 1]);
      }
    }
    OutputPrefixCopied(t, n);
    assert x[..n + 1] == ([c] + t)[..n + 1];
    MarkerPrefix(x, [c] + t, w, d);
  }

  /** After normalisation no marker remains anywhere. */
  lemma {:induction false} NormalizeReferencesNoMarker(s: string)
    ensures NoMarker(NormalizeReferences(s))
    decreases |s|
  {
    if s == [] {
      assert NormalizeReferences(s)[0..] == [];
    } else {
      match MarkerAt(s)
      case Some((w, d)) =>
        NormalizeReferencesNoMarker(s[5 + w + d..]);
        NoMarkerAfterRewrite(s, w, d);
      case None =>
        NormalizeReferencesNoMarker(s[1..]);
        NoMarkerAfterCopy(s);
    }
  }

  lemma NoMarkerAfterRewrite(s: string, w: nat, d: nat)
    requires s != [] && MarkerAt(s) == Some((w, d))
    requires NoMarker(NormalizeReferences(s[5 + w + d..]))
    ensures NoMarker(NormalizeReferences(s))
  {
    MarkerDigits(s, w, d);
    NormalizeAtMarker(s, w, d);
    NoMarkerInRewritten(s[4 + w..4 + w + d], NormalizeReferences(s[5 + w + d..]));
  }

  /** The digits a marker captures. */
  lemma MarkerDigits(s: string, w: nat, d: nat)
    requires Marker(s, w, d)
    ensures AllDigits(s[4 + w..4 + w + d])
  {
    var digits := s[4 + w..4 + w + d];
    forall k | 0 <= k < d ensures IsDigit(digits[k]) {
      assert digits[k] == s[4 + w + k];
    }
  }

  /** One step of the scan at a marker. */
  lemma NormalizeAtMarker(s: string, w: nat, d: nat)
    requires s != [] && MarkerAt(s) == Some((w, d))
    ensures NormalizeReferences(s) == "[" + s[4 + w..4 + w + d] + "]" + NormalizeReferences(s[5 + w + d..])
  {
  }

  /** A rewritten citation `[digits]` holds no marker, so none starts before the rest of the text. */
  lemma NoMarkerInRewritten(digits: string, tail: string)
    requires digits != [] && AllDigits(digits)
    requires NoMarker(tail)
    ensures NoMarker("[" + digits + "]" + tail)
  {
    var head := "[" + digits + "]";
    var r := head + tail;
    forall i | 0 <= i <= |r| ensures MarkerAt(r[i..]).None? {
      if i == 0 {
        assert r[0..][1] == digits[0];
      } else if i < |head| {
        assert r[i..][0] == head[i];
      } else {
        assert r[i..] == tail[i - |head|..];
      }
    }
  }

  lemma NoMarkerAfterCopy(s: string)
    requires s != [] && MarkerAt(s).None?
    requires NoMarker(NormalizeReferences(s[1..]))
    ensures NoMarker(NormalizeReferences(s))
  {
    var r := NormalizeReferences(s);
    assert r == [s[0]] + NormalizeReferences(s[1..]);
    if MarkerAt(r).Some? {
      var (w, d) := MarkerAt(r).value;
      MarkerAfterCopiedChar(s, w, d);
    }
    NoMarkerCons(s[0], NormalizeReferences(s[1..]));
  }

  /** A character with no marker at it, in front of marker-free text, leaves it marker-free. */
  lemma NoMarkerCons(c: char, tail: string)
    requires NoMarker(tail) && MarkerAt([c] + tail).None?
    ensures NoMarker([c] + tail)
  {
    var r := [c] + tail;
    forall i | 0 <= i <= |r| ensures MarkerAt(r[i..]).None? {
      if i == 0 {
        assert r[0..] == r;
      } else {
        assert r[i..] == tail[i - 1..];
      }
    }
  }

  /** Normalising twice changes nothing more. */
  lemma NormalizeReferencesIdempotent(s: string)
    ensures NormalizeReferences(NormalizeReferences(s)) == NormalizeReferences(s)
  {
    NormalizeReferencesNoMarker(s);
    NormalizeReferencesUnchanged(NormalizeReferences(s));
  }

  /**
   * The code rewrites every cited number, whatever it is: a citation of a document that
   * was never retrieved becomes `[99]` and stays in the text.
   */
  lemma NormalizeReferencesKeepsAnyNumber(n: nat, rest: string)
    ensures NormalizeReferences("[ID: " + NatToString(n) + "]" + rest) == "[" + NatToString(n) + "]" + NormalizeReferences(rest)
  {
    assert "[ID: " + NatToString(n) + "]" + rest == "[" + ['I', 'D'] + ":" + " " + NatToString(n) + "]" + rest;
    NormalizeReferencesRewrites('I', 'D', " ", NatToString(n), rest);
  }

  // ---------------------------------------------------------------------------------
  // remove_markdown_headers: re.sub(r'^#+\s*', '', t, flags=re.MULTILINE)

  /** Length of the run of `#` at the start of `s` (the greedy `#+`). */
  function HashRun(s: string): (r: nat)
    ensures r <= |s| && (forall k :: 0 <= k < r ==> s[k] == '#') && (r < |s| ==> s[r] != '#')
  {
    if s == [] || s[0] != '#' then 0 else 1 + HashRun(s[1..])
  }

  /**
   * The scan from a position that is (`lineStart`) or is not a line start (`^` in multiline
   * mode: the start of the text or just after a newline of the original text). A match is
   * `#`s and then every following whitespace character, newlines included; the scan resumes
   * after it, at a line start exactly when the match ended with a newline.
   */
  function RemoveHeadersFrom(t: string, lineStart: bool): (r: string)
    ensures |r| <= |t|
    ensures forall c :: c in r ==> c in t
    decreases |t|
  {
    if t == [] then []
    else if lineStart && t[0] == '#' then
      var n := HashRun(t) + SpaceRun(t[HashRun(t)..]);
      RemoveHeadersFrom(t[n..], t[n - 1] == '\n')
    else [t[0]] + RemoveHeadersFrom(t[1..], t[0] == '\n')
  }

  /** `remove_markdown_headers`: it only deletes, so the text never grows and gains no character. */
  function RemoveMarkdownHeaders(t: string): (r: string)
    ensures |r| <= |t|
    ensures forall c :: c in r ==> c in t
  {
    RemoveHeadersFrom(t, true)
  }

  /** `r` is `t` with some `#` and whitespace characters deleted and nothing else changed. */
  predicate DeletesOnlyHeaderChars(t: string, r: string)
    decreases |t|
  {
    if t == [] then r == []
    else (r != [] && r[0] == t[0] && DeletesOnlyHeaderChars(t[1..], r[1..]))
         || ((t[0] == '#' || IsSpace(t[0])) && DeletesOnlyHeaderChars(t[1..], r))
  }

  lemma {:induction false} DeletesOnlyRun(t: string, n: nat, r: string)
    requires n <= |t| && forall k :: 0 <= k < n ==> t[k] == '#' || IsSpace(t[k])
    requires DeletesOnlyHeaderChars(t[n..], r)
    ensures DeletesOnlyHeaderChars(t, r)
    decreases n
  {
    if n > 0 {
      assert t[1..][n - 1..] == t[n..];
      DeletesOnlyRun(t[1..], n - 1, r);
    }
  }

  /** Header removal deletes only `#` and whitespace characters, and keeps the rest in order. */
  lemma {:induction false} RemoveHeadersDeletesOnly(t: string, lineStart: bool)
    ensures DeletesOnlyHeaderChars(t, RemoveHeadersFrom(t, lineStart))
    decreases |t|
  {
    if t != [] {
      if lineStart && t[0] == '#' {
        var h := HashRun(t);
        var n := h + SpaceRun(t[h..]);
        assert forall k :: h <= k < n ==> t[k] == t[h..][k - h];
        RemoveHeadersDeletesOnly(t[n..], t[n - 1] == '\n');
        DeletesOnlyRun(t, n, RemoveHeadersFrom(t[n..], t[n - 1] == '\n'));
      } else {
        RemoveHeadersDeletesOnly(t[1..], t[0] == '\n');
      }
    }
  }

  /** No line of `t` (after the first, when `lineStart` is false) opens with `#`. */
  predicate NoHeaderLine(t: string, lineStart: bool) {
    (lineStart && t != [] ==> t[0] != '#')
    && forall i :: 0 <= i < |t| - 1 && t[i] == '\n' ==> t[i + 1] != '#'
  }

  /** Text in which no line opens with `#` passes through unchanged; `#` elsewhere is kept. */
  lemma {:induction false} RemoveHeadersUnchanged(t: string, lineStart: bool)
    requires NoHeaderLine(t, lineStart)
    ensures RemoveHeadersFrom(t, lineStart) == t
    decreases |t|
  {
    if t != [] {
      assert NoHeaderLine(t[1..], t[0] == '\n') by {
        forall i | 0 <= i < |t[1..]| - 1 && t[1..][i] == '\n' ensures t[1..][i + 1] != '#' {
          assert t[i + 1] == '\n';
        }
        if t[0] == '\n' && |t| > 1 {
          assert t[1..][0] == t[1];
        }
      }
      RemoveHeadersUnchanged(t[1..], t[0] == '\n');
    }
  }

  /**
   * One header match, stated on the shape of the input: a run of `#` at a line start,
   * then all the whitespace after it, is deleted, and the scan goes on after it, at a
   * line start exactly when the deleted run ended with a newline.
   */
  lemma HeaderMatchRemoved(h: string, w: string, rest: string)
    requires |h| > 0 && forall k :: 0 <= k < |h| ==> h[k] == '#'
    requires forall k :: 0 <= k < |w| ==> IsSpace(w[k])
    requires rest != [] ==> !IsSpace(rest[0])
    requires w == [] && rest != [] ==> rest[0] != '#'
    ensures RemoveHeadersFrom(h + w + rest, true)
            == RemoveHeadersFrom(rest, (h + w)[|h + w| - 1] == '\n')
  {
    var t := h + w + rest;
    HashRunOf(h, w + rest);
    SpaceRunOf(w, rest);
    HeaderSlices(h, w, rest);
    HeaderStep(t);
  }

  lemma HeaderSlices(h: string, w: string, rest: string)
    ensures var t := h + w + rest;
            t == h + (w + rest) && t[|h|..] == w + rest && t[|h| + |w|..] == rest
            && (|h| > 0 ==> t[|h| + |w| - 1] == (h + w)[|h + w| - 1])
  {
  }

  lemma HeaderStep(t: string)
    requires t != [] && t[0] == '#'
    ensures var n := HashRun(t) + SpaceRun(t[HashRun(t)..]);
            RemoveHeadersFrom(t, true) == RemoveHeadersFrom(t[n..], t[n - 1] == '\n')
  {
  }

  lemma HashRunOf(h: string, s: string)
    requires forall k :: 0 <= k < |h| ==> h[k] == '#'
    requires s != [] ==> s[0] != '#'
    ensures HashRun(h + s) == |h|
  {
    var t := h + s;
    assert forall k :: 0 <= k < |h| ==> t[k] == h[k];
    assert s != [] ==> t[|h|] == s[0];
  }

  lemma SpaceRunOf(w: string, s: string)
    requires forall k :: 0 <= k < |w| ==> IsSpace(w[k])
    requires s != [] ==> !IsSpace(s[0])
    ensures SpaceRun(w + s) == |w|
  {
    var t := w + s;
    assert forall k :: 0 <= k < |w| ==> t[k] == w[k];
    assert s != [] ==> t[|w|] == s[0];
  }

  /**
   * The match is taken once per line start and the scan does not go back: a second run of
   * `#` after the blank is kept, so the function is not idempotent.
   */
  lemma SecondRunKeptExample()
    ensures RemoveMarkdownHeaders("# #x") == "#x"
    ensures RemoveMarkdownHeaders(RemoveMarkdownHeaders("# #x")) == "x"
  {
    HeaderMatchRemoved("#", " ", "#x");
    assert "#" + " " + "#x" == "# #x";
    assert NoHeaderLine("#x", false);
    RemoveHeadersUnchanged("#x", false);
    HeaderMatchRemoved("#", "", "x");
    assert "#" + "" + "x" == "#x";
    RemoveHeadersUnchanged("x", false);
  }

  /** A header line loses its marks and the blank after them. */
  lemma HeaderLineExample()
    ensures RemoveMarkdownHeaders("## 제목\n본문") == "제목\n본문"
  {
    assert HashRun("## 제목\n본문") == 2;
    assert SpaceRun("## 제목\n본문"[2..]) == 1;
    var rest := "## 제목\n본문"[3..];
    assert rest == "제목\n본문";
    assert NoHeaderLine(rest, false);
    RemoveHeadersUnchanged(rest, false);
  }

  /** `\s*` runs over newlines: a bare `#` line is removed together with the line break after it. */
  lemma SwallowsNewlineExample()
    ensures RemoveMarkdownHeaders("#\n본문") == "본문"
  {
    assert HashRun("#\n본문") == 1;
    assert SpaceRun("#\n본문"[1..]) == 1;
    var rest := "#\n본문"[2..];
    assert rest == "본문";
    assert NoHeaderLine(rest, true);
    RemoveHeadersUnchanged(rest, true);
  }

  // ---------------------------------------------------------------------------------
  // extract_json

  /**
   * The text from the first `{` to the last `}` (`text[s:e+1]`); `None` when either is
   * missing, or when the last `}` comes before the first `{` (the span is then empty,
   * which `json.loads` rejects).
   */
  function JsonSpan(text: string): (r: Option<string>)
    ensures r.None? <==> '{' !in text || '}' !in text
                         || IndexOf(text, '{').value > LastIndexOf(text, '}').value
    ensures r.Some? ==> r.value == text[IndexOf(text, '{').value..LastIndexOf(text, '}').value + 1]
  {
    match (IndexOf(text, '{'), LastIndexOf(text, '}'))
    case (Some(s), Some(e)) => if s <= e then Some(text[s..e + 1]) else None
    case _ => None
  }

  /**
   * `extract_json`, with `json.loads` as the given partial `parse`: the parse of the brace
   * span, and `None` wherever the code catches an exception or returns `None`.
   */
  function ExtractJson<J>(text: string, parse: string -> Option<J>): (r: Option<J>)
    ensures '{' !in text || '}' !in text ==> r.None?
    ensures r.Some? ==> JsonSpan(text).Some? && parse(JsonSpan(text).value) == r
  {
    match JsonSpan(text)
    case None => None
    case Some(span) => parse(span)
  }

  /** An object embedded in surrounding prose is cut out exactly, braces included. */
  lemma JsonSpanEmbedded(before: string, obj: string, after: string)
    requires '{' !in before && '}' !in after
    requires |obj| >= 2 && obj[0] == '{' && obj[|obj| - 1] == '}'
    ensures JsonSpan(before + obj + after) == Some(obj)
  {
    var text := before + obj + after;
    var s := |before|;
    var e := |before| + |obj| - 1;
    assert text[s] == '{' && text[..s] == before;
    assert text[e] == '}' && text[e + 1..] == after;
    IndexOfAt(text, '{', s);
    LastIndexOfAt(text, '}', e);
    assert text[s..e + 1] == obj;
  }

  /** The extracted span always runs from a `{` to a `}`, with no `{` before it and no `}` after it. */
  lemma JsonSpanBraces(text: string)
    ensures JsonSpan(text).Some? ==>
              exists s, e :: 0 <= s < e < |text| && text[s] == '{' && text[e] == '}'
                             && '{' !in text[..s] && '}' !in text[e + 1..]
                             && JsonSpan(text).value == text[s..e + 1]
  {
  }

  /**
   * The cleanup chain of `rag_answer_chain`: headers removed, references normalised, then
   * the payload extracted. Neither rewrite adds a brace, so a reply without one yields nothing.
   */
  function CleanReply<J>(raw: string, parse: string -> Option<J>): (r: Option<J>)
    ensures '{' !in raw || '}' !in raw ==> r.None?
  {
    NormalizeReferencesChars(RemoveMarkdownHeaders(raw));
    ExtractJson(NormalizeReferences(RemoveMarkdownHeaders(raw)), parse)
  }
}

/**
 * The Python string built-ins that the research agent's core relies on:
 * case mapping, `str.isspace`, `strip`/`lstrip`, `startswith`, `find`,
 * `splitlines`, `split()`, `join`, `str(int)` and slicing with Python's
 * index clamping. Case mapping covers ASCII letters only.
 */
module PyStr {
  import opened Options

  // ---------------------------------------------------------------- characters

  /** `c.isspace()`: the characters Python treats as whitespace (and that `\s` matches). */
  predicate IsSpace(c: char) {
    ('\t' <= c <= '\r') || ('\U{1C}' <= c <= ' ') || c == '\U{85}' || c == '\U{A0}'
    || c == '\U{1680}' || ('\U{2000}' <= c <= '\U{200A}') || c == '\U{2028}' || c == '\U{2029}'
    || c == '\U{202F}' || c == '\U{205F}' || c == '\U{3000}'
  }

  /** The characters at which `str.splitlines` ends a line. */
  predicate IsLineBreak(c: char) {
    ('\n' <= c <= '\r') || ('\U{1C}' <= c <= '\U{1E}') || c == '\U{85}' || c == '\U{2028}' || c == '\U{2029}'
  }

  predicate AllSpace(s: string) {
    forall i | 0 <= i < |s| :: IsSpace(s[i])
  }

  function LowerChar(c: char): char {
    if 'A' <= c <= 'Z' then (c as int + 32) as char else c
  }

  /**
   * `s.lower()` for ASCII text: the length never changes, no upper-case
   * letter is left, each upper-case letter becomes its lower-case partner
   * and every other character is kept.
   */
  function Lower(s: string): (r: string)
    ensures |r| == |s|
    ensures forall i | 0 <= i < |r| :: !('A' <= r[i] <= 'Z')
    ensures forall i | 0 <= i < |s| && 'A' <= s[i] <= 'Z' :: r[i] as int == s[i] as int + 32
    ensures forall i | 0 <= i < |s| && !('A' <= s[i] <= 'Z') :: r[i] == s[i]
  {
    seq(|s|, i requires 0 <= i < |s| => LowerChar(s[i]))
  }

  /** Lower-casing twice is lower-casing once. */
  lemma LowerIdempotent(s: string)
    ensures Lower(Lower(s)) == Lower(s)
  {
  }

  /** Concatenation is associative. */
  lemma AppendAssoc<T>(x: seq<T>, y: seq<T>, z: seq<T>)
    ensures x + (y + z) == (x + y) + z
  {
  }

  /** A sequence is its three slices at `i` and `j`, put back together. */
  lemma SliceThree<T>(s: seq<T>, i: nat, j: nat)
    requires i <= j <= |s|
    ensures s == s[..i] + s[i..j] + s[j..]
  {
    assert s[..j] == s[..i] + s[i..j];
    assert s == s[..j] + s[j..];
  }

  lemma LowerAppend(a: string, b: string)
    ensures Lower(a + b) == Lower(a) + Lower(b)
  {
  }

  lemma LowerSlice(s: string, i: nat, j: nat)
    requires i <= j <= |s|
    ensures Lower(s[i..j]) == Lower(s)[i..j]
  {
  }

  // ---------------------------------------------------------------- strip

  /** The length of the whitespace run that `lstrip` removes. */
  function LeadingSpaces(s: string): (n: nat)
    ensures n <= |s|
    ensures forall i | 0 <= i < n :: IsSpace(s[i])
    ensures n < |s| ==> !IsSpace(s[n])
  {
    if s == [] || !IsSpace(s[0]) then 0 else 1 + LeadingSpaces(s[1..])
  }

  /** The length of the whitespace run that `rstrip` removes. */
  function TrailingSpaces(s: string): (n: nat)
    ensures n <= |s|
    ensures forall i | |s| - n <= i < |s| :: IsSpace(s[i])
    ensures n < |s| ==> !IsSpace(s[|s| - n - 1])
  {
    if s == [] || !IsSpace(s[|s| - 1]) then 0 else 1 + TrailingSpaces(s[..|s| - 1])
  }

  function LStrip(s: string): string {
    s[LeadingSpaces(s)..]
  }

  function RStrip(s: string): string {
    s[..|s| - TrailingSpaces(s)]
  }

  /** `s.strip()`: an infix of `s` that neither starts nor ends with whitespace. */
  function Strip(s: string): (r: string)
    ensures LeadingSpaces(s) + |r| <= |s|
    ensures r != [] ==> !IsSpace(r[0]) && !IsSpace(r[|r| - 1])
    ensures r == s[LeadingSpaces(s)..LeadingSpaces(s) + |r|]
    ensures AllSpace(s[..LeadingSpaces(s)]) && AllSpace(s[LeadingSpaces(s) + |r|..])
  {
    var l := LStrip(s);
    var r := RStrip(l);
    assert r != [] ==> r[0] == l[0];
    r
  }

  /** Stripping is idempotent. */
  lemma StripIdempotent(s: string)
    ensures Strip(Strip(s)) == Strip(s)
  {
    var r := Strip(s);
    if r != [] {
      assert LeadingSpaces(r) == 0;
      assert TrailingSpaces(r) == 0;
    }
  }

  lemma StripOfUnpadded(s: string)
    requires s == [] || (!IsSpace(s[0]) && !IsSpace(s[|s| - 1]))
    ensures Strip(s) == s
  {
    if s != [] {
      assert LeadingSpaces(s) == 0;
      assert TrailingSpaces(s) == 0;
    }
  }

  /** Whitespace around a text that is already stripped is exactly what strip removes. */
  lemma StripPadded(w1: string, x: string, w2: string)
    requires AllSpace(w1) && AllSpace(w2)
    requires x == [] || (!IsSpace(x[0]) && !IsSpace(x[|x| - 1]))
    requires x != [] || w1 + w2 == []
    ensures Strip(w1 + x + w2) == x
  {
    var s := w1 + x + w2;
    if x != [] {
      LeadingSpacesOfPadded(w1, x + w2);
      assert s == w1 + (x + w2);
      assert LStrip(s) == x + w2;
      TrailingSpacesOfPadded(x, w2);
    }
  }

  lemma LeadingSpacesOfPadded(w: string, x: string)
    requires AllSpace(w)
    requires x != [] && !IsSpace(x[0])
    ensures LeadingSpaces(w + x) == |w|
  {
    if w != [] {
      assert (w + x)[1..] == w[1..] + x;
      LeadingSpacesOfPadded(w[1..], x);
    }
  }

  lemma TrailingSpacesOfPadded(x: string, w: string)
    requires AllSpace(w)
    requires x != [] && !IsSpace(x[|x| - 1])
    ensures TrailingSpaces(x + w) == |w|
  {
    if w != [] {
      assert (x + w)[..|x + w| - 1] == x + w[..|w| - 1];
      TrailingSpacesOfPadded(x, w[..|w| - 1]);
    }
  }

  // ---------------------------------------------------------------- searching

  predicate StartsWith(s: string, p: string) {
    |p| <= |s| && s[..|p|] == p
  }

  /** `s` starts with the lower-case literal `lit`, ignoring (ASCII) case. */
  predicate CiPrefix(s: string, lit: string) {
    |lit| <= |s| && forall i | 0 <= i < |lit| :: LowerChar(s[i]) == lit[i]
  }

  /** `s.lower().startswith(lit)` is the case-blind prefix test. */
  lemma CiPrefixIsLowerPrefix(s: string, lit: string)
    ensures CiPrefix(s, lit) <==> StartsWith(Lower(s), lit)
  {
    if |lit| <= |s| {
      var l := Lower(s)[..|lit|];
      if CiPrefix(s, lit) {
        assert forall i | 0 <= i < |lit| :: l[i] == lit[i];
        assert l == lit;
      }
    }
  }

  /** `p` occurs in `s` at index `i`. */
  predicate OccursAt(s: string, p: string, i: nat) {
    i + |p| <= |s| && s[i..i + |p|] == p
  }

  /**
   * `s.find(p, pos)`: the least index at or after `pos` where `p` occurs, or
   * `None` (Python's -1) when there is none.
   */
  function FindFrom(s: string, p: string, pos: nat): (r: Option<nat>)
    ensures r.Some? ==> pos <= r.value && OccursAt(s, p, r.value)
    ensures r.Some? ==> forall j: nat | pos <= j < r.value :: !OccursAt(s, p, j)
    ensures r.None? ==> forall j: nat | pos <= j :: !OccursAt(s, p, j)
    decreases |s| - pos
  {
    if pos + |p| > |s| then None
    else if s[pos..pos + |p|] == p then Some(pos)
    else FindFrom(s, p, pos + 1)
  }

  /** `p in s` for strings. */
  predicate Contains(s: string, p: string) {
    FindFrom(s, p, 0).Some?
  }

  lemma ContainsIff(s: string, p: string)
    ensures Contains(s, p) <==> exists i: nat :: OccursAt(s, p, i)
  {
    var r := FindFrom(s, p, 0);
    if r.Some? {
      assert OccursAt(s, p, r.value);
    }
  }

  lemma ContainsAt(s: string, p: string, i: nat)
    requires OccursAt(s, p, i)
    ensures Contains(s, p)
  {
    ContainsIff(s, p);
  }

  // ---------------------------------------------------------------- splitting

  /** The index of the first line break at or after `i`, or `|s|`. */
  function LineEnd(s: string, i: nat): (e: nat)
    requires i <= |s|
    ensures i <= e <= |s|
    ensures forall j | i <= j < e :: !IsLineBreak(s[j])
    ensures e < |s| ==> IsLineBreak(s[e])
    decreases |s| - i
  {
    if i == |s| || IsLineBreak(s[i]) then i else LineEnd(s, i + 1)
  }

  /**
   * `s.splitlines()`: the lines of `s` without their terminators; `\r\n`
   * ends a single line, and a final terminator does not open an empty line.
   */
  function SplitLines(s: string): (lines: seq<string>)
    ensures forall k | 0 <= k < |lines| :: forall j | 0 <= j < |lines[k]| :: !IsLineBreak(lines[k][j])
    decreases |s|
  {
    if s == [] then []
    else
      var e := LineEnd(s, 0);
      if e == |s| then [s]
      else
        var next := if s[e] == '\r' && e + 1 < |s| && s[e + 1] == '\n' then e + 2 else e + 1;
        [s[..e]] + SplitLines(s[next..])
  }

  /** A line terminator `splitlines` recognises: one break character, or `\r\n`. */
  predicate IsTerminator(t: string) {
    t == "\r\n" || (|t| == 1 && IsLineBreak(t[0]))
  }

  /** The terminator `splitlines` removes after each of the lines of `s` ("" after an unterminated last line). */
  function Terminators(s: string): seq<string>
    decreases |s|
  {
    if s == [] then []
    else
      var e := LineEnd(s, 0);
      if e == |s| then [""]
      else
        var next := if s[e] == '\r' && e + 1 < |s| && s[e + 1] == '\n' then e + 2 else e + 1;
        [s[e..next]] + Terminators(s[next..])
  }

  /** Each line followed by its terminator, all concatenated. */
  function Rejoin(lines: seq<string>, terms: seq<string>): string
    requires |lines| == |terms|
    decreases |lines|
  {
    if lines == [] then "" else lines[0] + terms[0] + Rejoin(lines[1..], terms[1..])
  }

  /** The lines of `s` after its first break, and their terminators. */
  lemma SplitLinesStep(s: string)
    requires s != [] && LineEnd(s, 0) < |s|
    ensures var e := LineEnd(s, 0);
      var next := if s[e] == '\r' && e + 1 < |s| && s[e + 1] == '\n' then e + 2 else e + 1;
      && SplitLines(s) == [s[..e]] + SplitLines(s[next..])
      && Terminators(s) == [s[e..next]] + Terminators(s[next..])
      && s == s[..e] + s[e..next] + s[next..]
  {
    var e := LineEnd(s, 0);
    var next := if s[e] == '\r' && e + 1 < |s| && s[e + 1] == '\n' then e + 2 else e + 1;
    SliceThree(s, e, next);
  }

  /** The break that ends a line, with the `\n` of a `\r\n`, is a terminator. */
  lemma TerminatorAt(s: string, e: nat)
    requires e < |s| && IsLineBreak(s[e])
    ensures var next := if s[e] == '\r' && e + 1 < |s| && s[e + 1] == '\n' then e + 2 else e + 1;
      IsTerminator(s[e..next])
  {
    if s[e] == '\r' && e + 1 < |s| && s[e + 1] == '\n' {
      assert s[e..e + 2] == "\r\n";
    }
  }

  /** `splitlines` loses nothing but the terminators: putting them back after their lines gives `s`. */
  lemma {:induction false} SplitLinesLossless(s: string)
    ensures |Terminators(s)| == |SplitLines(s)| && Rejoin(SplitLines(s), Terminators(s)) == s
    decreases |s|
  {
    if s != [] && LineEnd(s, 0) < |s| {
      var e := LineEnd(s, 0);
      var next := if s[e] == '\r' && e + 1 < |s| && s[e + 1] == '\n' then e + 2 else e + 1;
      SplitLinesStep(s);
      SplitLinesLossless(s[next..]);
    }
  }

  /**
   * Every line ended in a terminator, except a non-empty last line that ran
   * to the end of the text.
   */
  predicate Terminated(lines: seq<string>, terms: seq<string>)
    requires |lines| == |terms|
  {
    forall k | 0 <= k < |terms| :: IsTerminator(terms[k]) || (k == |terms| - 1 && terms[k] == "" && lines[k] != "")
  }

  /** No `\r` terminator is followed by an empty line ended by `\n`: that `\r\n` would have been one terminator. */
  predicate KeepsCrLf(lines: seq<string>, terms: seq<string>)
    requires |lines| == |terms|
  {
    forall k | 0 <= k < |terms| - 1 :: terms[k] == "\r" && lines[k + 1] == "" ==> terms[k + 1] != "\n"
  }

  /** Every line `splitlines` returns ended in a terminator, except a non-empty last line that ran to the end of `s`. */
  lemma {:induction false} SplitLinesTerminated(s: string)
    ensures |Terminators(s)| == |SplitLines(s)| && Terminated(SplitLines(s), Terminators(s))
    decreases |s|
  {
    SplitLinesLossless(s);
    if s != [] && LineEnd(s, 0) < |s| {
      var e := LineEnd(s, 0);
      var next := if s[e] == '\r' && e + 1 < |s| && s[e + 1] == '\n' then e + 2 else e + 1;
      SplitLinesStep(s);
      SplitLinesTerminated(s[next..]);
      TerminatorAt(s, e);
      TerminatedCons(s[..e], s[e..next], SplitLines(s[next..]), Terminators(s[next..]));
    }
  }

  lemma TerminatedCons(line: string, term: string, lines: seq<string>, terms: seq<string>)
    requires |lines| == |terms| && IsTerminator(term) && Terminated(lines, terms)
    ensures Terminated([line] + lines, [term] + terms)
  {
    var ls, ts := [line] + lines, [term] + terms;
    forall k | 0 < k < |ts|
      ensures ts[k] == terms[k - 1] && ls[k] == lines[k - 1]
    {
    }
  }

  /** `splitlines` never separates a `\r` from a `\n` that follows it. */
  lemma {:induction false} SplitLinesKeepsCrLf(s: string)
    ensures |Terminators(s)| == |SplitLines(s)| && KeepsCrLf(SplitLines(s), Terminators(s))
    decreases |s|
  {
    SplitLinesLossless(s);
    if s != [] && LineEnd(s, 0) < |s| {
      var e := LineEnd(s, 0);
      var next := if s[e] == '\r' && e + 1 < |s| && s[e + 1] == '\n' then e + 2 else e + 1;
      var rest := s[next..];
      SplitLinesStep(s);
      SplitLinesKeepsCrLf(rest);
      SplitLinesLossless(rest);
      if s[e..next] == "\r" && rest != [] {
        assert next == e + 1 && rest[0] != '\n';
        SplitLinesLead(rest);
      }
      KeepsCrLfCons(s[..e], s[e..next], SplitLines(rest), Terminators(rest));
    }
  }

  lemma KeepsCrLfCons(line: string, term: string, lines: seq<string>, terms: seq<string>)
    requires |lines| == |terms| && KeepsCrLf(lines, terms)
    requires term == "\r" && lines != [] && lines[0] == "" ==> terms[0] != "\n"
    ensures KeepsCrLf([line] + lines, [term] + terms)
  {
    var ls, ts := [line] + lines, [term] + terms;
    forall k | 0 < k < |ts|
      ensures ts[k] == terms[k - 1] && ls[k] == lines[k - 1]
    {
    }
  }

  /** A first line that is empty is ended by the text's first character. */
  lemma SplitLinesLead(s: string)
    requires s != [] && s[0] != '\n'
    ensures |Terminators(s)| > 0 && (SplitLines(s)[0] == "" ==> Terminators(s)[0] != "\n")
  {
  }

  /** The length of the run of non-whitespace characters that starts `s`. */
  function WordLength(s: string): (n: nat)
    ensures n <= |s|
    ensures forall i | 0 <= i < n :: !IsSpace(s[i])
    ensures n < |s| ==> IsSpace(s[n])
  {
    if s == [] || IsSpace(s[0]) then 0 else 1 + WordLength(s[1..])
  }

  /** `s.split()`: the maximal runs of non-whitespace characters, in order. */
  function SplitWords(s: string): (words: seq<string>)
    ensures forall k | 0 <= k < |words| :: words[k] != [] && forall j | 0 <= j < |words[k]| :: !IsSpace(words[k][j])
    decreases |s|
  {
    if s == [] then []
    else if IsSpace(s[0]) then SplitWords(s[1..])
    else
      var n := WordLength(s);
      [s[..n]] + SplitWords(s[n..])
  }

  /** The whitespace runs around and between the words of `s`, including an empty one at either end. */
  function Gaps(s: string): (gaps: seq<string>)
    ensures |gaps| > 0
    decreases |s|
  {
    if s == [] then [""]
    else if IsSpace(s[0]) then
      var g := Gaps(s[1..]);
      [[s[0]] + g[0]] + g[1..]
    else
      [""] + Gaps(s[WordLength(s)..])
  }

  /** `gaps[0] + words[0] + gaps[1] + … + words[n - 1] + gaps[n]`. */
  function Weave(gaps: seq<string>, words: seq<string>): string
    requires |gaps| == |words| + 1
    decreases |words|
  {
    if words == [] then gaps[0] else gaps[0] + words[0] + Weave(gaps[1..], words[1..])
  }

  lemma WeaveCons(c: string, gaps: seq<string>, words: seq<string>)
    requires |gaps| == |words| + 1
    ensures Weave([c + gaps[0]] + gaps[1..], words) == c + Weave(gaps, words)
  {
    var g := [c + gaps[0]] + gaps[1..];
    assert g[1..] == gaps[1..];
  }

  lemma WeaveWord(w: string, gaps: seq<string>, words: seq<string>)
    requires |gaps| == |words| + 1
    ensures Weave([""] + gaps, [w] + words) == w + Weave(gaps, words)
  {
    var g, ws := [""] + gaps, [w] + words;
    assert g[0] == "" && ws[0] == w;
    assert g[1..] == gaps && ws[1..] == words;
    assert Weave(g, ws) == "" + w + Weave(gaps, words);
  }

  /** `split()` loses nothing but whitespace: putting back the runs around and between the words gives `s`. */
  lemma {:induction false} SplitWordsLossless(s: string)
    ensures |Gaps(s)| == |SplitWords(s)| + 1 && Weave(Gaps(s), SplitWords(s)) == s
    decreases |s|
  {
    if s != [] {
      if IsSpace(s[0]) {
        SplitWordsLossless(s[1..]);
        WeaveCons([s[0]], Gaps(s[1..]), SplitWords(s[1..]));
        assert s == [s[0]] + s[1..];
      } else {
        var n := WordLength(s);
        SplitWordsLossless(s[n..]);
        WeaveWord(s[..n], Gaps(s[n..]), SplitWords(s[n..]));
        assert s == s[..n] + s[n..];
      }
    }
  }

  /** Every run is whitespace only. */
  predicate SpaceRuns(gaps: seq<string>) {
    forall k | 0 <= k < |gaps| :: AllSpace(gaps[k])
  }

  /** Every run but the first and the last is non-empty. */
  predicate Separating(gaps: seq<string>) {
    forall k | 0 < k < |gaps| - 1 :: gaps[k] != []
  }

  /**
   * The words `split()` finds are the maximal runs of non-whitespace: what
   * lies around them is whitespace, and between two words there is some.
   */
  lemma {:induction false} SplitWordsMaximal(s: string)
    ensures |Gaps(s)| == |SplitWords(s)| + 1 && SpaceRuns(Gaps(s)) && Separating(Gaps(s))
    decreases |s|
  {
    SplitWordsLossless(s);
    if s != [] {
      if IsSpace(s[0]) {
        SplitWordsMaximal(s[1..]);
        SpaceCons(Gaps(s[1..]), s[0]);
      } else {
        var rest := s[WordLength(s)..];
        SplitWordsMaximal(rest);
        GapsLead(rest);
        WordCons(Gaps(rest), rest != []);
      }
    }
  }

  lemma SpaceCons(g: seq<string>, c: char)
    requires |g| > 0 && IsSpace(c) && SpaceRuns(g) && Separating(g)
    ensures SpaceRuns([[c] + g[0]] + g[1..]) && Separating([[c] + g[0]] + g[1..])
  {
    var gaps := [[c] + g[0]] + g[1..];
    assert AllSpace(g[0]);
    assert AllSpace([c] + g[0]);
    forall k | 0 < k < |gaps|
      ensures gaps[k] == g[k]
    {
    }
  }

  lemma WordCons(g: seq<string>, more: bool)
    requires |g| > 0 && SpaceRuns(g) && Separating(g)
    requires |g| > 1 ==> more
    requires more ==> g[0] != []
    ensures SpaceRuns([""] + g) && Separating([""] + g)
  {
    var gaps := [""] + g;
    forall k | 0 < k < |gaps|
      ensures gaps[k] == g[k - 1]
    {
    }
  }

  /** Text that starts with whitespace starts with a non-empty gap, and has words only when it is not empty. */
  lemma GapsLead(s: string)
    ensures s != [] && IsSpace(s[0]) ==> Gaps(s)[0] != []
    ensures |Gaps(s)| > 1 ==> s != []
  {
  }

  lemma SplitWordsOfSpace(s: string)
    requires AllSpace(s)
    ensures SplitWords(s) == []
  {
    if s != [] {
      SplitWordsOfSpace(s[1..]);
    }
  }

  /** `sep.join(parts)`. */
  function Join(sep: string, parts: seq<string>): string
    decreases |parts|
  {
    if |parts| == 0 then ""
    else if |parts| == 1 then parts[0]
    else parts[0] + sep + Join(sep, parts[1..])
  }

  /** An occurrence stays one when text is added on either side. */
  lemma OccursWithin(a: string, b: string, c: string, p: string, i: nat)
    requires OccursAt(b, p, i)
    ensures OccursAt(a + b + c, p, |a| + i)
  {
    assert (a + b + c)[|a| + i..|a| + i + |p|] == b[i..i + |p|];
  }

  /** Every part occurs in the joined string. */
  lemma {:induction false} JoinHasPart(sep: string, parts: seq<string>, k: nat)
    requires k < |parts|
    ensures exists i: nat :: OccursAt(Join(sep, parts), parts[k], i)
    decreases |parts|
  {
    if |parts| == 1 {
      assert OccursAt(Join(sep, parts), parts[0], 0);
    } else if k == 0 {
      var rest := sep + Join(sep, parts[1..]);
      assert OccursAt(parts[0], parts[0], 0);
      OccursWithin([], parts[0], rest, parts[0], 0);
      assert Join(sep, parts) == [] + parts[0] + rest;
    } else {
      var tail := Join(sep, parts[1..]);
      JoinHasPart(sep, parts[1..], k - 1);
      var i: nat :| OccursAt(tail, parts[1..][k - 1], i);
      OccursWithin(parts[0] + sep, tail, [], parts[k], i);
      assert Join(sep, parts) == parts[0] + sep + tail + [];
    }
  }

  // ---------------------------------------------------------------- numbers

  function DigitChar(d: nat): char
    requires d < 10
  {
    ('0' as int + d) as char
  }

  /** `str(n)` for a non-negative integer. */
  function NatToString(n: nat): (s: string)
    ensures s != []
    ensures forall i | 0 <= i < |s| :: '0' <= s[i] <= '9'
  {
    if n < 10 then [DigitChar(n)] else NatToString(n / 10) + [DigitChar(n % 10)]
  }

  /** The value of a string of decimal digits (the inverse of `NatToString`). */
  function DecimalValue(s: string): nat
    requires forall i | 0 <= i < |s| :: '0' <= s[i] <= '9'
  {
    if s == [] then 0 else 10 * DecimalValue(s[..|s| - 1]) + (s[|s| - 1] as int - '0' as int)
  }

  lemma {:induction false} DecimalRoundTrip(n: nat)
    ensures DecimalValue(NatToString(n)) == n
  {
    if n >= 10 {
      var s := NatToString(n);
      assert s[..|s| - 1] == NatToString(n / 10);
      DecimalRoundTrip(n / 10);
    }
  }

  // ---------------------------------------------------------------- slicing

  /** Python's normalisation of a slice bound against a length. */
  function ClampIndex(k: int, len: nat): (r: nat)
    ensures r <= len
    ensures 0 <= k <= len ==> r == k
  {
    if k < 0 then (if len + k < 0 then 0 else len + k) else if k > len then len else k
  }

  /** `s[i:j]` with Python's handling of negative and out-of-range bounds. */
  function Slice<T>(s: seq<T>, i: int, j: int): (r: seq<T>)
    ensures |r| <= |s|
    ensures 0 <= i <= j <= |s| ==> r == s[i..j]
  {
    var a := ClampIndex(i, |s|);
    var b := ClampIndex(j, |s|);
    if a < b then s[a..b] else []
  }

  /** `s[:k]`. */
  function Prefix<T>(s: seq<T>, k: int): (r: seq<T>)
    ensures k >= 0 ==> r == s[..if k < |s| then k else |s|]
    ensures k >= 0 ==> |r| <= k
  {
    Slice(s, 0, k)
  }
}

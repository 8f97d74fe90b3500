/**
 * The text helpers of parser.py: the sentence splitter, the query-word
 * sentence filter that builds evidence snippets, and the keyword-in-context
 * finder. `parse_html` is not part of this model: its markup-to-text work is
 * an oracle wherever the model calls it.
 */
module Parser {
  import opened Options
  import opened PyStr

  // ---------------------------------------------------------------- sentences

  predicate IsTerminator(c: char) {
    c == '.' || c == '!' || c == '?'
  }

  /** `re.split(r"(?<=[.!?])\s+", s)` splits at index `i` of `s` here. */
  predicate IsSplitPoint(s: string, i: nat) {
    1 <= i < |s| && IsTerminator(s[i - 1]) && IsSpace(s[i])
  }

  /** The leftmost split point at or after `from`. */
  function FirstSplit(s: string, from: nat): (r: Option<nat>)
    ensures r.Some? ==> from <= r.value && IsSplitPoint(s, r.value)
    ensures r.Some? ==> forall j: nat | from <= j < r.value :: !IsSplitPoint(s, j)
    ensures r.None? ==> forall j: nat | from <= j :: !IsSplitPoint(s, j)
    decreases |s| - from
  {
    if from >= |s| then None
    else if IsSplitPoint(s, from) then Some(from)
    else FirstSplit(s, from + 1)
  }

  /**
   * `_sentence_tokens(text)`: cut `text` at every whitespace run that follows
   * '.', '!' or '?'; the run is dropped, the punctuation stays with the piece
   * before it.
   */
  function SentenceTokens(text: string): (pieces: seq<string>)
    ensures |pieces| >= 1
    decreases |text|
  {
    match FirstSplit(text, 1)
    case None => [text]
    case Some(i) =>
      var j := i + LeadingSpaces(text[i..]);
      [text[..i]] + SentenceTokens(text[j..])
  }

  /** The whitespace runs that `SentenceTokens` removes, in order. */
  function SentenceGaps(text: string): seq<string>
    decreases |text|
  {
    match FirstSplit(text, 1)
    case None => []
    case Some(i) =>
      var j := i + LeadingSpaces(text[i..]);
      [text[i..j]] + SentenceGaps(text[j..])
  }

  /** `pieces[0] + gaps[0] + pieces[1] + ... + pieces[|pieces| - 1]`. */
  function Interleave(pieces: seq<string>, gaps: seq<string>): string
    requires |pieces| == |gaps| + 1
    decreases |gaps|
  {
    if gaps == [] then pieces[0] else pieces[0] + gaps[0] + Interleave(pieces[1..], gaps[1..])
  }

  /**
   * The splitter loses nothing but the whitespace runs it cuts at: putting
   * those runs back between the pieces gives the text again.
   */
  lemma {:induction false} SentenceTokensLossless(text: string)
    ensures |SentenceGaps(text)| + 1 == |SentenceTokens(text)|
    ensures Interleave(SentenceTokens(text), SentenceGaps(text)) == text
    decreases |text|
  {
    match FirstSplit(text, 1)
    case None =>
    case Some(i) =>
      var j := i + LeadingSpaces(text[i..]);
      var rest := text[j..];
      SentenceTokensLossless(rest);
      var p, g := SentenceTokens(text), SentenceGaps(text);
      assert p[0] == text[..i] && p[1..] == SentenceTokens(rest) by {
        assert p == [text[..i]] + SentenceTokens(rest);
      }
      assert g[0] == text[i..j] && g[1..] == SentenceGaps(rest) by {
        assert g == [text[i..j]] + SentenceGaps(rest);
      }
      calc {
        Interleave(p, g);
        p[0] + g[0] + Interleave(p[1..], g[1..]);
        text[..i] + text[i..j] + rest;
        { SliceThree(text, i, j); }
        text;
      }
  }

  predicate NonEmptySpaceRuns(g: seq<string>) {
    forall k | 0 <= k < |g| :: g[k] != [] && AllSpace(g[k])
  }

  /** Every removed run is non-empty whitespace. */
  lemma {:induction false} SentenceGapsAreWhitespace(text: string)
    ensures NonEmptySpaceRuns(SentenceGaps(text))
    decreases |text|
  {
    match FirstSplit(text, 1)
    case None =>
    case Some(i) =>
      var j := i + LeadingSpaces(text[i..]);
      SentenceGapsAreWhitespace(text[j..]);
      var g := SentenceGaps(text);
      var h := SentenceGaps(text[j..]);
      assert g == [text[i..j]] + h;
      assert text[i..][0] == text[i];
      assert forall m | 0 <= m < j - i :: text[i..j][m] == text[i..][m];
      assert forall k | 1 <= k < |g| :: g[k] == h[k - 1];
  }

  ghost predicate NoSplitPointInside(p: seq<string>) {
    forall k: nat, i: nat | k < |p| :: !IsSplitPoint(p[k], i)
  }

  predicate EndsTerminatedButLast(p: seq<string>) {
    forall k | 0 <= k < |p| - 1 :: p[k] != [] && IsTerminator(p[k][|p[k]| - 1])
  }

  predicate NoLeadingSpaceAfterFirst(p: seq<string>) {
    forall k | 1 <= k < |p| :: p[k] == [] || !IsSpace(p[k][0])
  }

  /** No piece contains a place where the splitter would cut. */
  lemma {:induction false} SentencePiecesUnsplittable(text: string)
    ensures NoSplitPointInside(SentenceTokens(text))
    decreases |text|
  {
    match FirstSplit(text, 1)
    case None =>
      forall i: nat ensures !IsSplitPoint(text, i) {
        if i >= 1 {
          assert !IsSplitPoint(text, i);
        }
      }
    case Some(i) =>
      var j := i + LeadingSpaces(text[i..]);
      var rest := text[j..];
      SentencePiecesUnsplittable(rest);
      var head := text[..i];
      var p := SentenceTokens(text);
      var q := SentenceTokens(rest);
      assert p == [head] + q;
      forall m: nat ensures !IsSplitPoint(head, m) {
        if 1 <= m < |head| {
          assert !IsSplitPoint(text, m);
        }
      }
      forall k: nat, m: nat | k < |p| ensures !IsSplitPoint(p[k], m) {
        if k > 0 {
          assert p[k] == q[k - 1];
        }
      }
  }

  /** Every piece but the last ends in '.', '!' or '?'. */
  lemma {:induction false} SentencePiecesTerminated(text: string)
    ensures EndsTerminatedButLast(SentenceTokens(text))
    decreases |text|
  {
    match FirstSplit(text, 1)
    case None =>
    case Some(i) =>
      var j := i + LeadingSpaces(text[i..]);
      var rest := text[j..];
      SentencePiecesTerminated(rest);
      var p := SentenceTokens(text);
      var q := SentenceTokens(rest);
      assert p == [text[..i]] + q;
      forall k | 0 <= k < |p| - 1
        ensures p[k] != [] && IsTerminator(p[k][|p[k]| - 1])
      {
        if k == 0 {
          assert p[0] == text[..i] && text[..i][i - 1] == text[i - 1];
        } else {
          assert p[k] == q[k - 1];
        }
      }
  }

  /** No piece after the first starts with whitespace: each cut takes the whole run. */
  lemma {:induction false} SentencePiecesUnpadded(text: string)
    ensures NoLeadingSpaceAfterFirst(SentenceTokens(text))
    decreases |text|
  {
    match FirstSplit(text, 1)
    case None =>
    case Some(i) =>
      var j := i + LeadingSpaces(text[i..]);
      var rest := text[j..];
      SentencePiecesUnpadded(rest);
      var p := SentenceTokens(text);
      var q := SentenceTokens(rest);
      assert p == [text[..i]] + q;
      SentenceTokensHead(rest);
      assert q[0] == [] || !IsSpace(q[0][0]) by {
        if q[0] != [] {
          assert q[0][0] == text[j];
        }
      }
      assert forall k | 1 <= k < |p| :: p[k] == q[k - 1];
  }

  /** The first piece is a prefix of the text. */
  lemma SentenceTokensHead(text: string)
    ensures |SentenceTokens(text)[0]| <= |text|
    ensures SentenceTokens(text)[0] == text[..|SentenceTokens(text)[0]|]
  {
  }

  // ---------------------------------------------------------------- snippets

  /** The separator `extract_relevant_snippets` joins with: " â€¢ " (a mis-decoded bullet). */
  const SNIPPET_SEPARATOR: string := " \U{E2}\U{20AC}\U{A2} "

  /** Some query word occurs in the lower-cased sentence. */
  predicate Relevant(sentence: string, words: seq<string>) {
    exists k | 0 <= k < |words| :: Contains(Lower(sentence), words[k])
  }

  /** The relevant sentences, in order. */
  function Hits(sentences: seq<string>, words: seq<string>): seq<string>
    decreases |sentences|
  {
    if sentences == [] then []
    else (if Relevant(sentences[0], words) then [sentences[0]] else []) + Hits(sentences[1..], words)
  }

  function QueryWords(query: string): seq<string> {
    var ws := SplitWords(query);
    seq(|ws|, k requires 0 <= k < |ws| => Lower(ws[k]))
  }

  /** `extract_relevant_snippets(text, query, n)`. */
  function ExtractRelevantSnippets(text: string, query: string, n: int): string {
    Join(SNIPPET_SEPARATOR, Prefix(Hits(SentenceTokens(text), QueryWords(query)), n))
  }

  /** `a` is obtained from `b` by deleting elements. */
  predicate IsSubsequence<T(==)>(a: seq<T>, b: seq<T>)
    decreases |b|
  {
    a == [] || (b != [] && ((a[0] == b[0] && IsSubsequence(a[1..], b[1..])) || IsSubsequence(a, b[1..])))
  }

  /**
   * The kept sentences are an ordered subsequence of the sentences, and a
   * sentence is kept exactly when some query word occurs in its lower-cased text.
   */
  lemma {:induction false} HitsExactlyRelevant(sentences: seq<string>, words: seq<string>)
    ensures IsSubsequence(Hits(sentences, words), sentences)
    ensures forall s :: s in Hits(sentences, words) <==>
      s in sentences && exists k: nat, i: nat | k < |words| :: OccursAt(Lower(s), words[k], i)
    decreases |sentences|
  {
    if sentences != [] {
      HitsExactlyRelevant(sentences[1..], words);
      var s0 := sentences[0];
      var h := Hits(sentences, words);
      var t := Hits(sentences[1..], words);
      forall k | 0 <= k < |words| ensures Contains(Lower(s0), words[k]) <==> exists i: nat :: OccursAt(Lower(s0), words[k], i) {
        ContainsIff(Lower(s0), words[k]);
      }
      forall s ensures s in h <==> s in sentences && exists k: nat, i: nat | k < |words| :: OccursAt(Lower(s), words[k], i) {
        assert s in sentences <==> s == s0 || s in sentences[1..];
      }
      if Relevant(s0, words) {
        assert h == [s0] + t;
        assert h[1..] == t;
      } else {
        assert h == t;
      }
    }
  }

  predicate NoneRelevant(sentences: seq<string>, words: seq<string>) {
    forall k | 0 <= k < |sentences| :: !Relevant(sentences[k], words)
  }

  lemma HitsEmpty(sentences: seq<string>, words: seq<string>)
    requires NoneRelevant(sentences, words)
    ensures Hits(sentences, words) == []
    decreases |sentences|
  {
    if sentences != [] {
      HitsEmpty(sentences[1..], words);
    }
  }

  /**
   * No matching sentence gives the empty snippet; in particular an empty or
   * whitespace-only query matches nothing.
   */
  lemma {:induction false} SnippetsEmptyWithoutMatch(text: string, query: string, n: int)
    requires AllSpace(query) || NoneRelevant(SentenceTokens(text), QueryWords(query))
    ensures ExtractRelevantSnippets(text, query, n) == ""
  {
    var sents := SentenceTokens(text);
    var words := QueryWords(query);
    if AllSpace(query) {
      SplitWordsOfSpace(query);
      assert words == [];
      forall k | 0 <= k < |sents| ensures !Relevant(sents[k], words) {
      }
    }
    HitsEmpty(sents, words);
  }

  lemma {:induction false} HitsHeadRelevant(sentences: seq<string>, words: seq<string>)
    requires exists k | 0 <= k < |sentences| :: Relevant(sentences[k], words)
    ensures Hits(sentences, words) != [] && Relevant(Hits(sentences, words)[0], words)
    decreases |sentences|
  {
    if !Relevant(sentences[0], words) {
      var k :| 0 <= k < |sentences| && Relevant(sentences[k], words);
      assert sentences[1..][k - 1] == sentences[k];
      HitsHeadRelevant(sentences[1..], words);
    }
  }

  /** A matching sentence makes the snippet non-empty (when at least one may be kept). */
  lemma {:induction false} SnippetsNonEmptyWithMatch(text: string, query: string, n: int)
    requires n >= 1
    requires exists k | 0 <= k < |SentenceTokens(text)| :: Relevant(SentenceTokens(text)[k], QueryWords(query))
    ensures ExtractRelevantSnippets(text, query, n) != ""
  {
    var words := QueryWords(query);
    var h := Hits(SentenceTokens(text), words);
    HitsHeadRelevant(SentenceTokens(text), words);
    var kept := Prefix(h, n);
    assert kept[0] == h[0];
    RelevantNonEmpty(h[0], words);
  }

  lemma RelevantNonEmpty(s: string, words: seq<string>)
    requires Relevant(s, words)
    requires forall k | 0 <= k < |words| :: words[k] != []
    ensures s != []
  {
    var k :| 0 <= k < |words| && Contains(Lower(s), words[k]);
    ContainsIff(Lower(s), words[k]);
  }

  // ---------------------------------------------------------------- find_chunks

  function Max(a: int, b: int): int { if a < b then b else a }
  function Min(a: int, b: int): int { if a < b then a else b }

  /** `text[max(0, idx - context) : min(len(text), idx + needleLen + context)].strip()`. */
  function Excerpt(text: string, idx: nat, needleLen: nat, context: int): string {
    Strip(Slice(text, Max(0, idx - context), Min(|text|, idx + needleLen + context)))
  }

  /**
   * The occurrence indices the find loop visits: the search starts at `pos`
   * and resumes just past each hit, for at most `budget` hits.
   */
  function HitStarts(lowered: string, needle: string, pos: nat, budget: nat): seq<nat>
    decreases budget
  {
    if budget == 0 then []
    else match FindFrom(lowered, needle, pos)
      case None => []
      case Some(i) => [i] + HitStarts(lowered, needle, i + |needle|, budget - 1)
  }

  /** One excerpt per start index, in order. */
  function Excerpts(text: string, starts: seq<nat>, needleLen: nat, context: int): (r: seq<string>)
    ensures |r| == |starts|
  {
    if starts == [] then []
    else Excerpts(text, starts[..|starts| - 1], needleLen, context) + [Excerpt(text, starts[|starts| - 1], needleLen, context)]
  }

  lemma ExcerptsSnoc(text: string, starts: seq<nat>, i: nat, needleLen: nat, context: int)
    ensures Excerpts(text, starts + [i], needleLen, context)
      == Excerpts(text, starts, needleLen, context) + [Excerpt(text, i, needleLen, context)]
  {
    assert (starts + [i])[..|starts|] == starts;
  }

  lemma {:induction false} ExcerptsAt(text: string, starts: seq<nat>, needleLen: nat, context: int, j: nat)
    requires j < |starts|
    ensures Excerpts(text, starts, needleLen, context)[j] == Excerpt(text, starts[j], needleLen, context)
    decreases |starts|
  {
    if j < |starts| - 1 {
      ExcerptsAt(text, starts[..|starts| - 1], needleLen, context, j);
    }
  }

  lemma HitStartsStep(l: string, n: string, pos: nat, budget: nat)
    requires budget > 0
    ensures FindFrom(l, n, pos).None? ==> HitStarts(l, n, pos, budget) == []
    ensures FindFrom(l, n, pos).Some? ==> var i := FindFrom(l, n, pos).value;
      HitStarts(l, n, pos, budget) == [i] + HitStarts(l, n, i + |n|, budget - 1)
  {
  }

  /** One more step of the find loop, seen from the indices visited so far. */
  lemma HitStartsAdvance(all: seq<nat>, starts: seq<nat>, l: string, n: string, pos: nat, left: nat,
                         starts': seq<nat>, pos': nat, left': nat)
    requires left > 0 && FindFrom(l, n, pos).Some?
    requires all == starts + HitStarts(l, n, pos, left)
    requires starts' == starts + [FindFrom(l, n, pos).value]
    requires pos' == FindFrom(l, n, pos).value + |n| && left' == left - 1
    ensures all == starts' + HitStarts(l, n, pos', left')
  {
    var i := FindFrom(l, n, pos).value;
    var rest := HitStarts(l, n, pos', left');
    HitStartsStep(l, n, pos, left);
    calc {
      all;
      starts + HitStarts(l, n, pos, left);
      starts + ([i] + rest);
      { AppendAssoc(starts, [i], rest); }
      (starts + [i]) + rest;
    }
  }

  /** The find loop has stopped: the indices visited so far are all of them. */
  lemma HitStartsDone(all: seq<nat>, starts: seq<nat>, l: string, n: string, pos: nat, left: nat)
    requires left == 0 || FindFrom(l, n, pos).None?
    requires all == starts + HitStarts(l, n, pos, left)
    ensures all == starts
  {
    assert HitStarts(l, n, pos, left) == [];
  }

  /** A `max_hits` below one lets the loop run no times. */
  function HitBudget(maxHits: int): nat { if maxHits < 0 then 0 else maxHits }

  /** What `find_chunks(text, needle, context, max_hits)` returns. */
  function Chunks(text: string, needle: string, context: int, maxHits: int): seq<string> {
    Excerpts(text, HitStarts(Lower(text), Lower(needle), 0, HitBudget(maxHits)), |needle|, context)
  }

  /** At most `budget` indices are visited. */
  lemma {:induction false} HitStartsBound(l: string, n: string, pos: nat, budget: nat)
    ensures |HitStarts(l, n, pos, budget)| <= budget
    decreases budget
  {
    if budget > 0 {
      match FindFrom(l, n, pos)
      case None =>
      case Some(i) => HitStartsBound(l, n, i + |n|, budget - 1);
    }
  }

  /** Every index in `s` is an occurrence of `n` in `l` at or after `pos`. */
  predicate OccurrencesFrom(l: string, n: string, pos: nat, s: seq<nat>) {
    forall j | 0 <= j < |s| :: OccursAt(l, n, s[j]) && pos <= s[j]
  }

  /** Consecutive indices in `s` are at least `|n|` apart. */
  predicate NonOverlapping(n: string, s: seq<nat>) {
    forall j | 0 <= j < |s| - 1 :: s[j] + |n| <= s[j + 1]
  }

  /** No occurrence lies between the end of one index's occurrence and the next index. */
  predicate NoneSkipped(l: string, n: string, s: seq<nat>) {
    forall j | 0 <= j < |s| - 1 :: forall m: nat | s[j] + |n| <= m < s[j + 1] :: !OccursAt(l, n, m)
  }

  ghost predicate NoneFrom(l: string, n: string, from: nat) {
    forall m: nat | from <= m :: !OccursAt(l, n, m)
  }

  /** Each visited index is an occurrence at or after `pos`. */
  lemma {:induction false} HitStartsOccur(l: string, n: string, pos: nat, budget: nat)
    ensures OccurrencesFrom(l, n, pos, HitStarts(l, n, pos, budget))
    decreases budget
  {
    if budget > 0 && FindFrom(l, n, pos).Some? {
      var i := FindFrom(l, n, pos).value;
      HitStartsOccur(l, n, i + |n|, budget - 1);
      var t := HitStarts(l, n, i + |n|, budget - 1);
      var s := [i] + t;
      assert HitStarts(l, n, pos, budget) == s;
      assert forall j | 1 <= j < |s| :: s[j] == t[j - 1];
    }
  }

  /** Consecutive visited occurrences do not overlap. */
  lemma {:induction false} HitStartsApart(l: string, n: string, pos: nat, budget: nat)
    ensures NonOverlapping(n, HitStarts(l, n, pos, budget))
    decreases budget
  {
    if budget > 0 && FindFrom(l, n, pos).Some? {
      var i := FindFrom(l, n, pos).value;
      HitStartsApart(l, n, i + |n|, budget - 1);
      HitStartsOccur(l, n, i + |n|, budget - 1);
      var t := HitStarts(l, n, i + |n|, budget - 1);
      var s := [i] + t;
      assert HitStarts(l, n, pos, budget) == s;
      assert forall j | 1 <= j < |s| :: s[j] == t[j - 1];
      if t != [] {
        assert s[1] == t[0];
      }
    }
  }

  /** No occurrence lies between `pos` and the first visited index. */
  lemma HitStartsFirst(l: string, n: string, pos: nat, budget: nat)
    requires HitStarts(l, n, pos, budget) != []
    ensures forall m: nat | pos <= m < HitStarts(l, n, pos, budget)[0] :: !OccursAt(l, n, m)
  {
  }

  /** No occurrence lies between the end of one visited occurrence and the next. */
  lemma {:induction false} HitStartsNoneSkipped(l: string, n: string, pos: nat, budget: nat)
    ensures NoneSkipped(l, n, HitStarts(l, n, pos, budget))
    decreases budget
  {
    if budget > 0 && FindFrom(l, n, pos).Some? {
      var i := FindFrom(l, n, pos).value;
      HitStartsNoneSkipped(l, n, i + |n|, budget - 1);
      var t := HitStarts(l, n, i + |n|, budget - 1);
      var s := [i] + t;
      assert HitStarts(l, n, pos, budget) == s;
      assert forall j | 1 <= j < |s| :: s[j] == t[j - 1];
      if t != [] {
        HitStartsFirst(l, n, i + |n|, budget - 1);
        assert s[1] == t[0];
      }
    }
  }

  /** When fewer than `budget` indices were visited, no occurrence follows the last one. */
  lemma {:induction false} HitStartsExhaustive(l: string, n: string, pos: nat, budget: nat)
    requires |HitStarts(l, n, pos, budget)| < budget
    ensures var s := HitStarts(l, n, pos, budget);
      NoneFrom(l, n, if s == [] then pos else s[|s| - 1] + |n|)
    decreases budget
  {
    if FindFrom(l, n, pos).Some? {
      var i := FindFrom(l, n, pos).value;
      var t := HitStarts(l, n, i + |n|, budget - 1);
      var s := [i] + t;
      assert HitStarts(l, n, pos, budget) == s;
      HitStartsExhaustive(l, n, i + |n|, budget - 1);
      if t != [] {
        assert s[|s| - 1] == t[|t| - 1];
      }
    }
  }

  /** `find_chunks` returns at most `max_hits` excerpts (none when `max_hits` is below one). */
  lemma ChunksBound(text: string, needle: string, context: int, maxHits: int)
    ensures |Chunks(text, needle, context, maxHits)| <= HitBudget(maxHits)
  {
    HitStartsBound(Lower(text), Lower(needle), 0, HitBudget(maxHits));
  }

  /** `find_chunks` finds nothing exactly when the needle does not occur (case-insensitively). */
  lemma {:induction false} ChunksEmptyIffAbsent(text: string, needle: string, context: int, maxHits: int)
    requires maxHits >= 1
    ensures Chunks(text, needle, context, maxHits) == [] <==> !Contains(Lower(text), Lower(needle))
  {
    var l, n := Lower(text), Lower(needle);
    var s := HitStarts(l, n, 0, maxHits);
    ContainsIff(l, n);
    if s != [] {
      HitStartsOccur(l, n, 0, maxHits);
      assert OccursAt(l, n, s[0]);
    } else {
      HitStartsExhaustive(l, n, 0, maxHits);
    }
  }

  /**
   * `find_chunks`: each excerpt is the stripped window of `context`
   * characters around one visited occurrence of the needle.
   */
  method FindChunks(text: string, needle: string, context: int, maxHits: int) returns (out: seq<string>)
    ensures out == Chunks(text, needle, context, maxHits)
  {
    var lowered, needleL := Lower(text), Lower(needle);
    var pos: nat := 0;
    out := [];
    ghost var starts: seq<nat> := [];
    ghost var left: nat := HitBudget(maxHits);
    ghost var all := HitStarts(lowered, needleL, 0, left);
    while |out| < maxHits
      invariant out == Excerpts(text, starts, |needle|, context)
      invariant all == starts + HitStarts(lowered, needleL, pos, left)
      invariant left == HitBudget(maxHits - |out|)
      decreases left
    {
      var idx := FindFrom(lowered, needleL, pos);
      if idx.None? {
        HitStartsStep(lowered, needleL, pos, left);
        break;
      }
      var i := idx.value;
      ExcerptsSnoc(text, starts, i, |needle|, context);
      out := out + [Excerpt(text, i, |needle|, context)];
      ghost var hit: seq<nat> := [i];
      ghost var starts': seq<nat> := starts + hit;
      ghost var left': nat := left - 1;
      var pos': nat := i + |needleL|;
      HitStartsAdvance(all, starts, lowered, needleL, pos, left, starts', pos', left');
      starts, pos, left := starts', pos', left';
    }
    HitStartsDone(all, starts, lowered, needleL, pos, left);
  }
}

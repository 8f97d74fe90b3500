/**
 * The mini TF-IDF store of rag.py: the word tokenizer, term-frequency
 * vectors weighted by an idf table, the zero-guarded cosine, and the
 * `MiniVectorStore` class with its document-frequency bookkeeping, its lazy
 * finalisation and its stable top-k search.
 *
 * Weights are Dafny reals. `math.log` and `math.sqrt` are oracles passed in
 * as functions, so nothing here depends on their values.
 */
module Rag {
  import opened Options
  import opened PyStr

  // ---------------------------------------------------------------- tokens

  /** A character of the token pattern `[A-Za-z0-9']`. */
  predicate IsTokenChar(c: char) {
    ('A' <= c <= 'Z') || ('a' <= c <= 'z') || ('0' <= c <= '9') || c == '\''
  }

  predicate AllTokenChars(s: string) {
    forall i | 0 <= i < |s| :: IsTokenChar(s[i])
  }

  predicate NoUpper(s: string) {
    forall i | 0 <= i < |s| :: !('A' <= s[i] <= 'Z')
  }

  /** Length of the run of token characters at the start of `s`. */
  function TokenRun(s: string): (n: nat)
    ensures n <= |s|
    ensures AllTokenChars(s[..n])
    ensures n < |s| ==> !IsTokenChar(s[n])
  {
    if s == [] || !IsTokenChar(s[0]) then 0
    else
      var m := TokenRun(s[1..]);
      assert s[..m + 1] == [s[0]] + s[1..][..m];
      m + 1
  }

  /** `_tokens(text)`: the lower-cased maximal runs of token characters, in order. */
  function Tokens(text: string): (toks: seq<string>)
    ensures forall k | 0 <= k < |toks| :: toks[k] != [] && AllTokenChars(toks[k]) && NoUpper(toks[k])
    decreases |text|
  {
    if text == [] then []
    else if !IsTokenChar(text[0]) then Tokens(text[1..])
    else
      var n := TokenRun(text);
      var w := Lower(text[..n]);
      assert forall i | 0 <= i < |w| :: IsTokenChar(text[..n][i]);
      [w] + Tokens(text[n..])
  }

  /** A single run of token characters is one token, lower-cased. */
  lemma TokensOfRun(w: string)
    requires w != [] && AllTokenChars(w)
    ensures Tokens(w) == [Lower(w)]
  {
    TokenRunAll(w);
    assert w[..|w|] == w;
  }

  lemma {:induction false} TokenRunAll(w: string)
    requires AllTokenChars(w)
    ensures TokenRun(w) == |w|
    decreases |w|
  {
    if w != [] {
      TokenRunAll(w[1..]);
    }
  }

  lemma {:induction false} TokenRunStops(a: string, c: char, b: string)
    requires AllTokenChars(a) && !IsTokenChar(c)
    ensures TokenRun(a + [c] + b) == |a|
    decreases |a|
  {
    if a == [] {
      assert (a + [c] + b)[0] == c;
    } else {
      assert (a + [c] + b)[1..] == a[1..] + [c] + b;
      TokenRunStops(a[1..], c, b);
    }
  }

  /** A non-token character separates: tokens of the two sides, concatenated. */
  lemma {:induction false} TokensSplit(a: string, c: char, b: string)
    requires !IsTokenChar(c)
    ensures Tokens(a + [c] + b) == Tokens(a) + Tokens(b)
    decreases |a|
  {
    if a == [] {
      TokensSplitEmpty(c, b);
    } else if !IsTokenChar(a[0]) {
      TokensSplit(a[1..], c, b);
      TokensSplitSkip(a, c, b);
    } else if TokenRun(a) == |a| {
      TokensSplitRun(a, c, b);
    } else {
      TokensSplit(a[TokenRun(a)..], c, b);
      TokensSplitStep(a, c, b);
    }
  }

  lemma TokensSplitEmpty(c: char, b: string)
    requires !IsTokenChar(c)
    ensures Tokens([] + [c] + b) == Tokens([]) + Tokens(b)
  {
    var s := [] + [c] + b;
    assert s[0] == c && s[1..] == b;
    assert Tokens(s) == Tokens(b);
  }

  lemma TokensSplitSkip(a: string, c: char, b: string)
    requires a != [] && !IsTokenChar(a[0])
    requires Tokens(a[1..] + [c] + b) == Tokens(a[1..]) + Tokens(b)
    ensures Tokens(a + [c] + b) == Tokens(a) + Tokens(b)
  {
    var s := a + [c] + b;
    assert s[0] == a[0];
    assert s[1..] == a[1..] + [c] + b;
    assert Tokens(s) == Tokens(s[1..]);
    assert Tokens(a) == Tokens(a[1..]);
  }

  /** A run of token characters followed by a separator. */
  lemma TokensSplitRun(a: string, c: char, b: string)
    requires a != [] && IsTokenChar(a[0]) && TokenRun(a) == |a| && !IsTokenChar(c)
    ensures Tokens(a + [c] + b) == Tokens(a) + Tokens(b)
  {
    var s := a + [c] + b;
    var n := |a|;
    var w := Lower(a[..n]);
    assert a[n..] == [];
    assert Tokens(a) == [w] + Tokens(a[n..]);
    assert Tokens(a) == [w];
    TokenRunStops(a, c, b);
    assert s[0] == a[0] && s[..n] == a[..n];
    assert s[n..] == [c] + b;
    assert s[n..][0] == c && s[n..][1..] == b;
    assert Tokens(s[n..]) == Tokens(b);
    assert Tokens(s) == [w] + Tokens(s[n..]);
  }

  /** A run of token characters that stops before the end of `a`. */
  lemma TokensSplitStep(a: string, c: char, b: string)
    requires a != [] && IsTokenChar(a[0]) && TokenRun(a) < |a| && !IsTokenChar(c)
    requires var r := a[TokenRun(a)..]; Tokens(r + [c] + b) == Tokens(r) + Tokens(b)
    ensures Tokens(a + [c] + b) == Tokens(a) + Tokens(b)
  {
    var s := a + [c] + b;
    var n := TokenRun(a);
    var r := a[n..];
    var w := Lower(a[..n]);
    assert Tokens(a) == [w] + Tokens(r);
    assert a == a[..n] + r;
    assert s == a[..n] + (r + [c] + b);
    TokenRunPrefix(a[..n], r + [c] + b);
    assert s[0] == a[0] && s[..n] == a[..n];
    assert s[n..] == r + [c] + b;
    assert Tokens(s) == [w] + (Tokens(r) + Tokens(b));
    AppendAssoc([w], Tokens(r), Tokens(b));
  }

  /** A run followed by a non-token character ends there, whatever follows. */
  lemma {:induction false} TokenRunPrefix(w: string, rest: string)
    requires AllTokenChars(w)
    requires rest != [] && !IsTokenChar(rest[0])
    ensures TokenRun(w + rest) == |w|
    decreases |w|
  {
    if w == [] {
      assert w + rest == rest;
    } else {
      var s := w + rest;
      assert s[0] == w[0] && IsTokenChar(s[0]);
      assert s[1..] == w[1..] + rest;
      assert AllTokenChars(w[1..]) by {
        forall i | 0 <= i < |w| - 1 ensures IsTokenChar(w[1..][i]) {
          assert w[1..][i] == w[i + 1];
        }
      }
      TokenRunPrefix(w[1..], rest);
      assert TokenRun(s) == 1 + TokenRun(s[1..]);
    }
  }

  /** A text has no tokens exactly when it has no token character. */
  lemma {:induction false} TokensEmptyIff(text: string)
    ensures Tokens(text) == [] <==> forall i | 0 <= i < |text| :: !IsTokenChar(text[i])
    decreases |text|
  {
    if text != [] && !IsTokenChar(text[0]) {
      TokensEmptyIff(text[1..]);
      assert forall i | 1 <= i < |text| :: text[i] == text[1..][i - 1];
    }
  }

  // ---------------------------------------------------------------- counting

  /** Number of occurrences of `t` in `s` (`Counter(s)[t]`). */
  function Count(s: seq<string>, t: string): nat {
    if s == [] then 0 else (if s[0] == t then 1 else 0) + Count(s[1..], t)
  }

  lemma {:induction false} CountPositive(s: seq<string>, t: string)
    ensures Count(s, t) > 0 <==> t in s
    decreases |s|
  {
    if s != [] {
      CountPositive(s[1..], t);
    }
  }

  /** The position of the first occurrence of `t` in `s`. */
  function FirstIndex(s: seq<string>, t: string): (i: nat)
    requires t in s
    ensures i < |s| && s[i] == t && t !in s[..i]
  {
    if s[0] == t then 0
    else
      assert s[1..][..FirstIndex(s[1..], t)] == s[1..1 + FirstIndex(s[1..], t)];
      1 + FirstIndex(s[1..], t)
  }

  /** Adding elements at the end does not move a first occurrence. */
  lemma {:induction false} FirstIndexPrefix(s: seq<string>, n: nat, t: string)
    requires n <= |s| && t in s[..n]
    ensures FirstIndex(s, t) == FirstIndex(s[..n], t)
    decreases n
  {
    assert s[..n][0] == s[0];
    if s[0] != t {
      assert s[..n][1..] == s[1..][..n - 1];
      FirstIndexPrefix(s[1..], n - 1, t);
    }
  }

  /** An element that does not occur earlier occurs first at the end. */
  lemma {:induction false} FirstIndexLast(s: seq<string>)
    requires s != [] && s[|s| - 1] !in s[..|s| - 1]
    ensures FirstIndex(s, s[|s| - 1]) == |s| - 1
    decreases |s|
  {
    var n := |s| - 1;
    if n > 0 {
      assert s[..n][0] == s[0];
      assert s[1..][..n - 1] == s[..n][1..];
      assert s[1..][n - 1] == s[n];
      FirstIndexLast(s[1..]);
    }
  }

  /** The distinct elements of `s` in order of first occurrence (a `Counter`'s key order). */
  function Dedup(s: seq<string>): (r: seq<string>)
    ensures forall t :: t in r <==> t in s
    ensures forall i, j | 0 <= i < j < |r| :: r[i] != r[j]
    ensures forall i, j | 0 <= i < j < |r| :: FirstIndex(s, r[i]) < FirstIndex(s, r[j])
    decreases |s|
  {
    if s == [] then []
    else
      var init := s[..|s| - 1];
      var rest := Dedup(init);
      var last := s[|s| - 1];
      assert forall t :: t in s <==> t in init || t == last;
      DedupPositions(s, rest);
      if last in rest then rest else rest + [last]
  }

  /** The step of Dedup's order proof: the earlier elements keep their first positions, and a new one comes last. */
  lemma DedupPositions(s: seq<string>, rest: seq<string>)
    requires s != [] && forall t :: t in rest <==> t in s[..|s| - 1]
    requires forall i | 0 <= i < |rest| :: rest[i] in s[..|s| - 1] && rest[i] in s
    requires forall i, j | 0 <= i < j < |rest| :: FirstIndex(s[..|s| - 1], rest[i]) < FirstIndex(s[..|s| - 1], rest[j])
    ensures forall i | 0 <= i < |rest| :: FirstIndex(s, rest[i]) < |s| - 1
    ensures forall i, j | 0 <= i < j < |rest| :: FirstIndex(s, rest[i]) < FirstIndex(s, rest[j])
    ensures s[|s| - 1] !in rest ==> FirstIndex(s, s[|s| - 1]) == |s| - 1
  {
    var n := |s| - 1;
    forall i | 0 <= i < |rest|
      ensures FirstIndex(s, rest[i]) == FirstIndex(s[..n], rest[i])
    {
      FirstIndexPrefix(s, n, rest[i]);
    }
    if s[n] !in rest {
      FirstIndexLast(s);
    }
  }

  // ---------------------------------------------------------------- vectors

  /** A sparse vector: (term, weight) pairs in key order, as a Python dict is iterated. */
  type Vector = seq<(string, real)>

  function Keys(v: Vector): seq<string> {
    seq(|v|, i requires 0 <= i < |v| => v[i].0)
  }

  /** `d.get(t, 0.0)`. */
  function Get(v: Vector, t: string): real {
    if v == [] then 0.0 else if v[0].0 == t then v[0].1 else Get(v[1..], t)
  }

  /** `idf[t]` on a `Counter`: 0 for a missing term. */
  function Weight(idf: map<string, real>, t: string): real {
    if t in idf then idf[t] else 0.0
  }

  /** `_tfidf_vector(doc_tokens, idf)`. */
  function TfIdf(toks: seq<string>, idf: map<string, real>): (v: Vector) {
    var keys := Dedup(toks);
    seq(|keys|, i requires 0 <= i < |keys| => (keys[i], Count(toks, keys[i]) as real * Weight(idf, keys[i])))
  }

  /** The vector has exactly the distinct tokens as keys, once each and in order of first occurrence. */
  lemma TfIdfKeys(toks: seq<string>, idf: map<string, real>)
    ensures var v := TfIdf(toks, idf);
      && Keys(v) == Dedup(toks)
      && (forall t :: t in Keys(v) <==> t in toks)
  {
    var v := TfIdf(toks, idf);
    var keys := Dedup(toks);
    assert |v| == |keys| && forall i | 0 <= i < |v| :: v[i].0 == keys[i];
    assert Keys(v) == keys;
  }

  /** Each weight is the count times the idf weight (0 for a term the table lacks). */
  lemma TfIdfWeights(toks: seq<string>, idf: map<string, real>)
    ensures var v := TfIdf(toks, idf);
      && (forall i | 0 <= i < |v| :: v[i].1 == Count(toks, v[i].0) as real * Weight(idf, v[i].0))
      && (forall i | 0 <= i < |v| :: v[i].0 !in idf ==> v[i].1 == 0.0)
  {
    var v := TfIdf(toks, idf);
    forall i | 0 <= i < |v|
      ensures v[i].1 == Count(toks, v[i].0) as real * Weight(idf, v[i].0)
      ensures v[i].0 !in idf ==> v[i].1 == 0.0
    {
      var c := Count(toks, v[i].0) as real;
      var w := Weight(idf, v[i].0);
      assert v[i].1 == c * w;
      if v[i].0 !in idf {
        MulZero(c, w);
      }
    }
  }

  lemma MulZero(c: real, w: real)
    requires w == 0.0
    ensures c * w == 0.0
  {
  }

  lemma TfIdfEmpty(toks: seq<string>, idf: map<string, real>)
    ensures TfIdf(toks, idf) == [] <==> toks == []
  {
    if toks != [] {
      assert toks[0] in Dedup(toks);
    }
  }

  /** `sum(a[t] * b.get(t, 0.0) for t in a)`. */
  function Dot(a: Vector, b: Vector): real {
    if a == [] then 0.0 else a[0].1 * Get(b, a[0].0) + Dot(a[1..], b)
  }

  /** `sum(v * v for v in a.values())`. */
  function SumSq(a: Vector): real {
    if a == [] then 0.0 else a[0].1 * a[0].1 + SumSq(a[1..])
  }

  /** `_cosine(a, b)` with `math.sqrt` as the oracle `sqrt`. */
  function Cosine(a: Vector, b: Vector, sqrt: real -> real): (r: real)
    ensures a == [] || b == [] ==> r == 0.0
    ensures sqrt(SumSq(a)) * sqrt(SumSq(b)) == 0.0 ==> r == 0.0
    ensures a != [] && b != [] && sqrt(SumSq(a)) * sqrt(SumSq(b)) != 0.0 ==>
      r * (sqrt(SumSq(a)) * sqrt(SumSq(b))) == Dot(a, b)
  {
    if a == [] || b == [] then 0.0
    else
      var den := sqrt(SumSq(a)) * sqrt(SumSq(b));
      if den == 0.0 then 0.0 else Dot(a, b) / den
  }

  lemma {:induction false} GetMissing(b: Vector, t: string)
    requires t !in Keys(b)
    ensures Get(b, t) == 0.0
    decreases |b|
  {
    if b != [] {
      assert Keys(b[1..]) == Keys(b)[1..];
      assert Keys(b)[0] == b[0].0;
      GetMissing(b[1..], t);
    }
  }

  /** Vectors with no key in common have dot product 0. */
  lemma {:induction false} DotDisjoint(a: Vector, b: Vector)
    requires forall i | 0 <= i < |a| :: a[i].0 !in Keys(b)
    ensures Dot(a, b) == 0.0
    decreases |a|
  {
    if a != [] {
      GetMissing(b, a[0].0);
      DotDisjoint(a[1..], b);
    }
  }

  /** Vectors that share no term have cosine 0, whatever the square-root oracle. */
  lemma CosineDisjoint(a: Vector, b: Vector, sqrt: real -> real)
    requires forall i | 0 <= i < |a| :: a[i].0 !in Keys(b)
    ensures Cosine(a, b, sqrt) == 0.0
  {
    DotDisjoint(a, b);
  }

  // ---------------------------------------------------------------- document frequency

  /** A stored document: URL, tokens and (once finalised) its vector. */
  datatype Doc = Doc(url: string, toks: seq<string>, vec: Option<Vector>)

  function TokenSet(toks: seq<string>): set<string> {
    set t | t in toks
  }

  /** `counter.update(s)` for a set `s`: every member's count goes up by one. */
  function Bump(m: map<string, real>, s: set<string>): (r: map<string, real>)
    ensures r.Keys == m.Keys + s
  {
    map t | t in m.Keys + s :: Weight(m, t) + (if t in s then 1.0 else 0.0)
  }

  /** The table after adding the documents in order, starting from `m`. */
  function AddCounts(m: map<string, real>, docs: seq<Doc>): map<string, real>
    decreases |docs|
  {
    if docs == [] then m else AddCounts(Bump(m, TokenSet(docs[0].toks)), docs[1..])
  }

  /** Number of documents whose token list contains `t`. */
  function DocsContaining(docs: seq<Doc>, t: string): nat
    decreases |docs|
  {
    if docs == [] then 0 else (if t in docs[0].toks then 1 else 0) + DocsContaining(docs[1..], t)
  }

  ghost predicate OccursInSome(docs: seq<Doc>, t: string) {
    exists i | 0 <= i < |docs| :: t in docs[i].toks
  }

  /**
   * Adding documents raises each term's entry by the number of those
   * documents containing it, and creates entries for exactly their terms.
   */
  lemma {:induction false} AddCountsValues(m: map<string, real>, docs: seq<Doc>, t: string)
    ensures t in AddCounts(m, docs) <==> t in m || OccursInSome(docs, t)
    ensures Weight(AddCounts(m, docs), t) == Weight(m, t) + DocsContaining(docs, t) as real
    decreases |docs|
  {
    if docs != [] {
      AddCountsValues(Bump(m, TokenSet(docs[0].toks)), docs[1..], t);
      if OccursInSome(docs, t) && !(t in docs[0].toks) {
        var i :| 0 <= i < |docs| && t in docs[i].toks;
        assert docs[1..][i - 1] == docs[i];
      }
      if OccursInSome(docs[1..], t) {
        var i :| 0 <= i < |docs[1..]| && t in docs[1..][i].toks;
        assert docs[i + 1] == docs[1..][i];
      }
    }
  }

  lemma {:induction false} AddCountsSnoc(m: map<string, real>, docs: seq<Doc>, d: Doc)
    ensures AddCounts(m, docs + [d]) == Bump(AddCounts(m, docs), TokenSet(d.toks))
    decreases |docs|
  {
    if docs == [] {
      assert [d][1..] == [];
    } else {
      assert (docs + [d])[1..] == docs[1..] + [d];
      AddCountsSnoc(Bump(m, TokenSet(docs[0].toks)), docs[1..], d);
    }
  }

  /** A table built from non-negative counts has only non-negative entries. */
  lemma {:induction false} AddCountsNonNegative(m: map<string, real>, docs: seq<Doc>)
    requires forall t | t in m :: m[t] >= 0.0
    ensures forall t | t in AddCounts(m, docs) :: AddCounts(m, docs)[t] >= 0.0
    decreases |docs|
  {
    if docs != [] {
      AddCountsNonNegative(Bump(m, TokenSet(docs[0].toks)), docs[1..]);
    }
  }

  /** The document-frequency table of `docs`: how many documents contain each term. */
  lemma DocFreqCounts(docs: seq<Doc>, t: string)
    ensures t in AddCounts(map[], docs) <==> OccursInSome(docs, t)
    ensures t in AddCounts(map[], docs) ==> AddCounts(map[], docs)[t] == DocsContaining(docs, t) as real
  {
    AddCountsValues(map[], docs, t);
  }

  // ---------------------------------------------------------------- sorting

  type Hit = (string, real)

  /** Insert `x` after every element whose score is at least `x`'s. */
  function Insert(x: Hit, s: seq<Hit>): seq<Hit>
    decreases |s|
  {
    if s == [] then [x]
    else if s[0].1 >= x.1 then [s[0]] + Insert(x, s[1..])
    else [x] + s
  }

  /** `sorted(s, key=lambda x: x[1], reverse=True)`: a stable descending sort. */
  function SortDesc(s: seq<Hit>): seq<Hit>
    decreases |s|
  {
    if s == [] then [] else Insert(s[|s| - 1], SortDesc(s[..|s| - 1]))
  }

  predicate SortedDesc(s: seq<Hit>) {
    forall i, j | 0 <= i < j < |s| :: s[i].1 >= s[j].1
  }

  /** The elements of `s` whose score is `v`, in order. */
  function WithScore(s: seq<Hit>, v: real): seq<Hit>
    decreases |s|
  {
    if s == [] then [] else (if s[0].1 == v then [s[0]] else []) + WithScore(s[1..], v)
  }

  lemma {:induction false} InsertPermutes(x: Hit, s: seq<Hit>)
    ensures multiset(Insert(x, s)) == multiset(s) + multiset{x}
    decreases |s|
  {
    if s != [] && s[0].1 >= x.1 {
      InsertPermutes(x, s[1..]);
      assert s == [s[0]] + s[1..];
    }
  }

  lemma {:induction false} InsertSorted(x: Hit, s: seq<Hit>)
    requires SortedDesc(s)
    ensures SortedDesc(Insert(x, s))
    decreases |s|
  {
    if s != [] && s[0].1 >= x.1 {
      InsertSorted(x, s[1..]);
      InsertPermutes(x, s[1..]);
      var r := Insert(x, s[1..]);
      forall k | 0 <= k < |r| ensures s[0].1 >= r[k].1 {
        assert r[k] in multiset(r);
        assert r[k] == x || r[k] in multiset(s[1..]);
      }
      assert Insert(x, s) == [s[0]] + r;
    }
  }

  lemma {:induction false} WithScoreAppend(a: seq<Hit>, b: seq<Hit>, v: real)
    ensures WithScore(a + b, v) == WithScore(a, v) + WithScore(b, v)
    decreases |a|
  {
    if a != [] {
      assert (a + b)[0] == a[0];
      assert (a + b)[1..] == a[1..] + b;
      WithScoreAppend(a[1..], b, v);
      var h := if a[0].1 == v then [a[0]] else [];
      assert WithScore(a + b, v) == h + WithScore(a[1..] + b, v);
      assert WithScore(a, v) == h + WithScore(a[1..], v);
    } else {
      assert a + b == b;
    }
  }

  lemma {:induction false} InsertStable(x: Hit, s: seq<Hit>, v: real)
    requires SortedDesc(s)
    ensures WithScore(Insert(x, s), v) == WithScore(s, v) + WithScore([x], v)
    decreases |s|
  {
    if s == [] {
    } else if s[0].1 >= x.1 {
      assert SortedDesc(s[1..]) by {
        forall i, j | 0 <= i < j < |s| - 1 ensures s[1..][i].1 >= s[1..][j].1 {
          assert s[1..][i] == s[i + 1] && s[1..][j] == s[j + 1];
        }
      }
      InsertStable(x, s[1..], v);
      InsertStableStep(x, s, v);
    } else {
      forall k | 0 <= k < |s| ensures s[k].1 != x.1 {
        assert k == 0 || s[0].1 >= s[k].1;
      }
      InsertStableFront(x, s, v);
    }
  }

  /** Inserting behind the head keeps the head's contribution in front. */
  lemma InsertStableStep(x: Hit, s: seq<Hit>, v: real)
    requires s != [] && s[0].1 >= x.1
    requires WithScore(Insert(x, s[1..]), v) == WithScore(s[1..], v) + WithScore([x], v)
    ensures WithScore(Insert(x, s), v) == WithScore(s, v) + WithScore([x], v)
  {
    var h := if s[0].1 == v then [s[0]] else [];
    var r := Insert(x, s[1..]);
    assert Insert(x, s) == [s[0]] + r;
    assert ([s[0]] + r)[0] == s[0] && ([s[0]] + r)[1..] == r;
    assert WithScore(Insert(x, s), v) == h + WithScore(r, v);
    assert WithScore(s, v) == h + WithScore(s[1..], v);
  }

  /** Inserting in front of elements with other scores. */
  lemma InsertStableFront(x: Hit, s: seq<Hit>, v: real)
    requires s != [] && s[0].1 < x.1
    requires forall k | 0 <= k < |s| :: s[k].1 != x.1
    ensures WithScore(Insert(x, s), v) == WithScore(s, v) + WithScore([x], v)
  {
    assert Insert(x, s) == [x] + s;
    WithScoreAppend([x], s, v);
    if v == x.1 {
      WithScoreAbsent(s, x.1);
    } else {
      assert WithScore([x], v) == [];
    }
  }

  lemma {:induction false} WithScoreAbsent(s: seq<Hit>, v: real)
    requires forall k | 0 <= k < |s| :: s[k].1 != v
    ensures WithScore(s, v) == []
    decreases |s|
  {
    if s != [] {
      WithScoreAbsent(s[1..], v);
    }
  }

  /**
   * The result is sorted by descending score, is a permutation of the input,
   * and keeps equal scores in their input order.
   */
  lemma {:induction false} SortDescCorrect(s: seq<Hit>)
    ensures SortedDesc(SortDesc(s))
    ensures multiset(SortDesc(s)) == multiset(s)
    ensures forall v :: WithScore(SortDesc(s), v) == WithScore(s, v)
    decreases |s|
  {
    if s != [] {
      var init, last := s[..|s| - 1], s[|s| - 1];
      SortDescCorrect(init);
      InsertSorted(last, SortDesc(init));
      InsertPermutes(last, SortDesc(init));
      assert s == init + [last];
      forall v ensures WithScore(SortDesc(s), v) == WithScore(s, v) {
        InsertStable(last, SortDesc(init), v);
        WithScoreAppend(init, [last], v);
      }
    }
  }

  // ---------------------------------------------------------------- the store

  /** `(url, cosine)` for each document with a non-empty vector, in document order. */
  function Scored(docs: seq<Doc>, q: Vector, sqrt: real -> real): seq<Hit>
    decreases |docs|
  {
    if docs == [] then []
    else
      var d := docs[|docs| - 1];
      Scored(docs[..|docs| - 1], q, sqrt)
        + (if d.vec.Some? && d.vec.value != [] then [(d.url, Cosine(d.vec.value, q, sqrt))] else [])
  }

  /** Only documents with a vector are scored, and each under its own URL. */
  lemma {:induction false} ScoredFrom(docs: seq<Doc>, q: Vector, sqrt: real -> real, h: Hit)
    requires h in Scored(docs, q, sqrt)
    ensures exists i | 0 <= i < |docs| :: docs[i].vec.Some? && docs[i].vec.value != [] && h.0 == docs[i].url
    decreases |docs|
  {
    var init := docs[..|docs| - 1];
    if h in Scored(init, q, sqrt) {
      ScoredFrom(init, q, sqrt, h);
      var i :| 0 <= i < |init| && init[i].vec.Some? && init[i].vec.value != [] && h.0 == init[i].url;
      assert docs[i] == init[i];
    }
  }

  /** `log(N / (1 + df))` for every entry of the table. */
  function FinalIdf(idf: map<string, real>, n: nat, ln: real -> real): map<string, real>
    requires forall t | t in idf :: idf[t] >= 0.0
  {
    map t | t in idf :: ln((n as real) / (1.0 + idf[t]))
  }

  /** The loop of `_finalize` over the idf table: every count becomes `log(n / (1 + count))`. */
  method FinaliseWeights(counts: map<string, real>, n: nat, ln: real -> real) returns (idf: map<string, real>)
    requires forall t | t in counts :: counts[t] >= 0.0
    ensures idf == FinalIdf(counts, n, ln)
  {
    idf := counts;
    var remaining := idf.Keys;
    while remaining != {}
      invariant remaining <= counts.Keys
      invariant idf.Keys == counts.Keys
      invariant forall t | t in counts :: idf[t] == if t in remaining then counts[t] else ln((n as real) / (1.0 + counts[t]))
      decreases remaining
    {
      var t :| t in remaining;
      idf := idf[t := ln((n as real) / (1.0 + idf[t]))];
      remaining := remaining - {t};
    }
  }

  /** Every document with its vector under `idf`. */
  function Vectorised(docs: seq<Doc>, idf: map<string, real>): seq<Doc> {
    seq(|docs|, j requires 0 <= j < |docs| => docs[j].(vec := Some(TfIdf(docs[j].toks, idf))))
  }

  /** The loop of `_finalize` over the documents: each gets its vector under `idf`. */
  method Vectorise(before: seq<Doc>, idf: map<string, real>) returns (docs: seq<Doc>)
    ensures |docs| == |before|
    ensures forall j | 0 <= j < |docs| :: docs[j] == before[j].(vec := Some(TfIdf(before[j].toks, idf)))
    ensures docs == Vectorised(before, idf)
  {
    docs := before;
    var i := 0;
    while i < |docs|
      invariant 0 <= i <= |docs| == |before|
      invariant forall j | 0 <= j < i :: docs[j] == before[j].(vec := Some(TfIdf(before[j].toks, idf)))
      invariant forall j | i <= j < |docs| :: docs[j] == before[j]
    {
      docs := docs[i := docs[i].(vec := Some(TfIdf(docs[i].toks, idf)))];
      i := i + 1;
    }
  }

  /**
   * The store's invariant: every document has tokens; exactly the first
   * `vectorised` carry a vector, computed under `baseIdf`; before the
   * finalisation `baseIdf` is empty; and `idf` is `baseIdf` with the document
   * frequencies of the documents without a vector added.
   */
  ghost predicate StoreInv(docs: seq<Doc>, idf: map<string, real>, vectorised: nat, baseIdf: map<string, real>) {
    && (forall i | 0 <= i < |docs| :: docs[i].toks != [])
    && vectorised <= |docs|
    && (forall i | 0 <= i < |docs| :: docs[i].vec.Some? <==> i < vectorised)
    && (forall i | 0 <= i < vectorised :: docs[i].vec == Some(TfIdf(docs[i].toks, baseIdf)))
    && (vectorised == 0 ==> baseIdf == map[])
    && idf == AddCounts(baseIdf, docs[vectorised..])
  }

  lemma FinalisedInv(before: seq<Doc>, docs: seq<Doc>, idf: map<string, real>)
    requires (before != [] || idf == map[]) && |docs| == |before|
    requires forall i | 0 <= i < |before| :: before[i].toks != []
    requires forall j | 0 <= j < |docs| :: docs[j] == before[j].(vec := Some(TfIdf(before[j].toks, idf)))
    ensures StoreInv(docs, idf, |docs|, idf)
  {
    assert docs[|docs|..] == [];
  }

  /** Before the finalisation every idf entry is a (non-negative) document count. */
  lemma UnfinalisedCounts(docs: seq<Doc>, idf: map<string, real>, baseIdf: map<string, real>)
    requires StoreInv(docs, idf, 0, baseIdf)
    ensures forall t | t in idf :: idf[t] >= 0.0
  {
    assert docs[0..] == docs;
    AddCountsNonNegative(map[], docs);
  }

  /** A search may finalise the store only while its table still holds document counts. */
  predicate Searchable(docs: seq<Doc>, idf: map<string, real>) {
    docs != [] && docs[0].vec.None? ==> forall t | t in idf :: idf[t] >= 0.0
  }

  lemma StoreSearchable(docs: seq<Doc>, idf: map<string, real>, vectorised: nat, baseIdf: map<string, real>)
    requires StoreInv(docs, idf, vectorised, baseIdf)
    ensures Searchable(docs, idf)
  {
    if docs != [] && docs[0].vec.None? {
      UnfinalisedCounts(docs, idf, baseIdf);
    }
  }

  /**
   * The documents and table after `similarity_search`: finalised, every
   * document vectorised under the new table, when the first document has no
   * vector yet, and untouched otherwise.
   */
  function StoreAfterSearch(docs: seq<Doc>, idf: map<string, real>, ln: real -> real): (seq<Doc>, map<string, real>)
    requires Searchable(docs, idf)
  {
    if docs != [] && docs[0].vec.None? then
      var w := FinalIdf(idf, |docs|, ln);
      (Vectorised(docs, w), w)
    else (docs, idf)
  }

  class MiniVectorStore {
    var docs: seq<Doc>
    var idf: map<string, real>
    /** How many documents carry a vector: all of them as of the one finalisation, or 0. */
    ghost var vectorised: nat
    /** The idf table as the finalisation left it (empty before). */
    ghost var baseIdf: map<string, real>

    ghost predicate Valid()
      reads this
    {
      StoreInv(docs, idf, vectorised, baseIdf)
    }

    constructor ()
      ensures Valid()
      ensures docs == [] && idf == map[] && vectorised == 0
    {
      docs := [];
      idf := map[];
      vectorised := 0;
      baseIdf := map[];
    }

    /**
     * `add(url, text)`: a text without tokens changes nothing; otherwise one
     * document without a vector is appended and every distinct token's
     * document frequency goes up by one.
     */
    method Add(url: string, text: string)
      requires Valid()
      modifies this
      ensures Valid()
      ensures Tokens(text) == [] ==> docs == old(docs) && idf == old(idf)
      ensures Tokens(text) != [] ==>
        && docs == old(docs) + [Doc(url, Tokens(text), None)]
        && idf == Bump(old(idf), TokenSet(Tokens(text)))
      ensures vectorised == old(vectorised) && baseIdf == old(baseIdf)
    {
      var toks := Tokens(text);
      if toks == [] {
        return;
      }
      var d := Doc(url, toks, None);
      ghost var tail := docs[vectorised..];
      docs := docs + [d];
      idf := Bump(idf, TokenSet(toks));
      assert docs[vectorised..] == tail + [d];
      AddCountsSnoc(baseIdf, tail, d);
    }

    /**
     * `_finalize()`: every idf entry becomes `log(N / (1 + df))` and every
     * document receives its vector under the new table. It runs only while
     * no document has a vector, so the entries are still document counts.
     */
    method Finalize(ln: real -> real)
      requires Valid() && vectorised == 0
      modifies this
      ensures Valid()
      ensures vectorised == |docs| && baseIdf == idf
      ensures forall t | t in old(idf) :: old(idf)[t] >= 0.0
      ensures idf == FinalIdf(old(idf), if |old(docs)| == 0 then 1 else |old(docs)|, ln)
      ensures |docs| == |old(docs)|
      ensures forall i | 0 <= i < |docs| :: docs[i] == old(docs[i]).(vec := Some(TfIdf(old(docs[i]).toks, idf)))
      ensures docs == Vectorised(old(docs), idf)
    {
      UnfinalisedCounts(docs, idf, baseIdf);
      var n: nat := if |docs| == 0 then 1 else |docs|;
      ghost var counts := idf;
      idf := FinaliseWeights(idf, n, ln);
      if docs == [] {
        assert counts == map[];
        assert idf.Keys == {};
      }
      docs := Vectorise(docs, idf);
      FinalisedInv(old(docs), docs, idf);
      vectorised := |docs|;
      baseIdf := idf;
    }

    /** The documents a search scores, in order, with their cosine to `q`. */
    method ScoreDocs(q: Vector, sqrt: real -> real) returns (scored: seq<Hit>)
      ensures scored == Scored(docs, q, sqrt)
    {
      scored := [];
      var i := 0;
      while i < |docs|
        invariant 0 <= i <= |docs|
        invariant scored == Scored(docs[..i], q, sqrt)
      {
        var d := docs[i];
        assert docs[..i + 1][..i] == docs[..i];
        if d.vec.Some? && d.vec.value != [] {
          scored := scored + [(d.url, Cosine(d.vec.value, q, sqrt))];
        }
        i := i + 1;
      }
      assert docs[..|docs|] == docs;
    }

    /**
     * `similarity_search(query, k)`: finalise first if the first document
     * has no vector, then score every vectorised document against the
     * query's vector and keep the first `k` by descending score.
     */
    method SimilaritySearch(query: string, k: int, ln: real -> real, sqrt: real -> real) returns (hits: seq<Hit>)
      requires Valid()
      modifies this
      ensures Valid()
      ensures old(docs) != [] && old(docs[0].vec).None? ==>
        && old(vectorised) == 0
        && vectorised == |docs| == |old(docs)|
        && (forall t | t in old(idf) :: old(idf)[t] >= 0.0)
        && idf == FinalIdf(old(idf), |old(docs)|, ln)
        && forall i | 0 <= i < |docs| :: docs[i] == old(docs[i]).(vec := Some(TfIdf(old(docs[i]).toks, idf)))
      ensures !(old(docs) != [] && old(docs[0].vec).None?) ==>
        docs == old(docs) && idf == old(idf) && vectorised == old(vectorised)
      ensures Searchable(old(docs), old(idf)) && (docs, idf) == StoreAfterSearch(old(docs), old(idf), ln)
      ensures hits == Prefix(SortDesc(Scored(docs, TfIdf(Tokens(query), idf), sqrt)), k)
    {
      StoreSearchable(docs, idf, vectorised, baseIdf);
      if |docs| > 0 && docs[0].vec.None? {
        Finalize(ln);
      }
      var qVec := TfIdf(Tokens(query), idf);
      var scored := ScoreDocs(qVec, sqrt);
      hits := Prefix(SortDesc(scored), k);
    }
  }

  /**
   * A search returns at most `k` hits, sorted by descending score, each the
   * URL of a document that carries a non-empty vector. An empty store gives
   * no hits.
   */
  lemma SearchResultShape(docs: seq<Doc>, q: Vector, sqrt: real -> real, k: int, h: Hit)
    ensures var r := Prefix(SortDesc(Scored(docs, q, sqrt)), k);
      && (k >= 0 ==> |r| <= k)
      && SortedDesc(r)
      && (docs == [] ==> r == [])
      && (h in r ==> exists i | 0 <= i < |docs| :: docs[i].vec.Some? && docs[i].vec.value != [] && h.0 == docs[i].url)
  {
    var all := SortDesc(Scored(docs, q, sqrt));
    SortDescCorrect(Scored(docs, q, sqrt));
    var r := Prefix(all, k);
    if k >= 0 {
      assert r == all[..if k < |all| then k else |all|];
    } else {
      assert r == all[..ClampIndex(k, |all|)];
    }
    if h in r {
      assert h in multiset(all);
      ScoredFrom(docs, q, sqrt, h);
    }
  }

  /**
   * Documents added after the finalisation never get a vector, so a search
   * can only return URLs of documents present at that time.
   */
  lemma LateDocsNeverScored(store: MiniVectorStore, q: Vector, sqrt: real -> real, h: Hit)
    requires store.Valid()
    requires h in Scored(store.docs, q, sqrt)
    ensures exists i | 0 <= i < store.vectorised :: h.0 == store.docs[i].url
    ensures forall i | store.vectorised <= i < |store.docs| :: store.docs[i].vec.None?
  {
    ScoredFrom(store.docs, q, sqrt, h);
  }
}

/**
 * The generic helpers the search tool and the reply checker use: a printable
 * view of search hits, a loose parser for `Action:` lines (any word is
 * accepted as the verb, the argument may be quoted, bare or absent), a
 * multi-line action extractor with a limit, and the reply format check.
 *
 * The two regular expressions of the source are replaced by hand-written
 * matchers. Where a regular expression could backtrack, the greedy first
 * choice is the only one that can succeed, so each matcher takes it
 * directly; the comments on `ParseAction` say why.
 */
module Utils {
  import opened Options
  import opened PyStr
  import opened Collecting

  /** The limit `parse_actions` uses when its caller gives none. */
  const DEFAULT_ACTION_LIMIT: int := 3

  // ---------------------------------------------------------------- search hits

  /** One search hit as a dictionary: each key may be missing. */
  datatype SearchHit = SearchHit(title: Option<string>, href: Option<string>, body: Option<string>)

  /** `d.get(key, default)`. */
  function GetOr(o: Option<string>, default: string): string {
    if o.Some? then o.value else default
  }

  const NO_RESULTS: string := "No results found."

  /** The printed block of the `i`-th hit (numbered from 1). */
  function HitBlock(i: nat, h: SearchHit): string {
    NatToString(i + 1) + ". " + GetOr(h.title, "N/A") + "\n   " + GetOr(h.href, "N/A") + "\n   "
    + GetOr(h.body, "") + "\n"
  }

  function HitBlocks(hits: seq<SearchHit>): (r: seq<string>)
    ensures |r| == |hits|
    ensures forall i | 0 <= i < |hits| :: r[i] == HitBlock(i, hits[i])
  {
    seq(|hits|, i requires 0 <= i < |hits| => HitBlock(i, hits[i]))
  }

  /** `format_search_results(results)`. */
  function FormatSearchResults(hits: seq<SearchHit>): string {
    if hits == [] then NO_RESULTS else Join("\n", HitBlocks(hits))
  }

  lemma JoinHead(sep: string, parts: seq<string>)
    requires parts != [] && parts[0] != []
    ensures Join(sep, parts) != [] && Join(sep, parts)[0] == parts[0][0]
  {
  }

  lemma {:induction false} JoinSnoc(sep: string, parts: seq<string>, x: string)
    requires parts != []
    ensures Join(sep, parts + [x]) == Join(sep, parts) + sep + x
    decreases |parts|
  {
    if |parts| > 1 {
      assert (parts + [x])[1..] == parts[1..] + [x];
      JoinSnoc(sep, parts[1..], x);
    }
  }

  /** The "no results" text is printed exactly when there are no hits. */
  lemma FormatEmptyIff(hits: seq<SearchHit>)
    ensures FormatSearchResults(hits) == NO_RESULTS <==> hits == []
  {
    if hits != [] {
      var b := HitBlocks(hits);
      assert b[0] == HitBlock(0, hits[0]);
      assert NatToString(1) == "1";
      assert b[0][0] == '1';
      JoinHead("\n", b);
      assert FormatSearchResults(hits)[0] == '1';
    }
  }

  /**
   * A further hit adds its own block, numbered after the others and
   * separated from them by one line break.
   */
  lemma FormatAppend(hits: seq<SearchHit>, h: SearchHit)
    requires hits != []
    ensures FormatSearchResults(hits + [h]) == FormatSearchResults(hits) + "\n" + HitBlock(|hits|, h)
  {
    assert HitBlocks(hits + [h]) == HitBlocks(hits) + [HitBlock(|hits|, h)];
    JoinSnoc("\n", HitBlocks(hits), HitBlock(|hits|, h));
  }

  /** A single hit prints as its own block. */
  lemma FormatSingle(h: SearchHit)
    ensures FormatSearchResults([h]) == "1. " + GetOr(h.title, "N/A") + "\n   " + GetOr(h.href, "N/A") + "\n   "
                                        + GetOr(h.body, "") + "\n"
  {
    assert HitBlocks([h]) == [HitBlock(0, h)];
    assert FormatSearchResults([h]) == HitBlock(0, h);
    assert NatToString(1) == "1";
  }

  // ---------------------------------------------------------------- one action

  type ActionPair = (string, string)

  /** `\w` for ASCII text. */
  predicate IsWordChar(c: char) {
    ('a' <= c <= 'z') || ('A' <= c <= 'Z') || ('0' <= c <= '9') || c == '_'
  }

  /** The length of the run of word characters that starts `s`. */
  function WordRun(s: string): (n: nat)
    ensures n <= |s|
    ensures forall i | 0 <= i < n :: IsWordChar(s[i])
    ensures n < |s| ==> !IsWordChar(s[n])
  {
    if s == [] || !IsWordChar(s[0]) then 0 else 1 + WordRun(s[1..])
  }

  /** The line matches `^Action:\s*Done!?$` ignoring case (`$` also matches before a final line break). */
  predicate IsDoneLine(line: string) {
    CiPrefix(line, "action:")
    && var x := LStrip(line[7..]);
       CiPrefix(x, "done") && DoneEnd(x, 4)
  }

  /** From `k` on, `x` holds an optional `!` and at most a final line break. */
  predicate DoneEnd(x: string, k: nat) {
    k == |x|
    || (k + 1 == |x| && (x[k] == '!' || x[k] == '\n'))
    || (k + 2 == |x| && x[k] == '!' && x[k + 1] == '\n')
  }

  /** The rest is `\s*\)?$`: whitespace, then an optional `)` and at most a final line break. */
  predicate TailOk(e: string) {
    var n := LeadingSpaces(e);
    n == |e| || (e[n] == ')' && (n + 1 == |e| || (n + 2 == |e| && e[n + 1] == '\n')))
  }

  /** The characters a bare argument cannot contain. */
  predicate BareStop(c: char) {
    c == '\n' || c == ')' || c == '"'
  }

  /**
   * The lazy bare argument `[^\n)"]+?`: the shortest length at least `m`
   * after which the rest satisfies `TailOk`, or `None` when a stop
   * character or the end comes first.
   */
  function BareArgEnd(z: string, m: nat): (r: Option<nat>)
    requires 1 <= m <= |z|
    requires forall i | 0 <= i < m :: !BareStop(z[i])
    ensures r.Some? ==> m <= r.value <= |z| && TailOk(z[r.value..])
    ensures r.Some? ==> forall i | 0 <= i < r.value :: !BareStop(z[i])
    ensures r.Some? ==> forall j | m <= j < r.value :: !TailOk(z[j..])
    decreases |z| - m
  {
    if TailOk(z[m..]) then Some(m)
    else if m < |z| && !BareStop(z[m]) then BareArgEnd(z, m + 1)
    else None
  }

  /**
   * The optional argument and the tail, matched against `z`, the text after
   * the verb, its whitespace and an optional `(` with its whitespace. A
   * quoted argument runs to the next `"` and may not be empty; a bare one
   * is the shortest that leaves a valid tail; with neither, `z` itself must
   * be a valid tail. When the quoted form fails nothing else can match,
   * since a bare argument cannot contain the quote.
   */
  function ArgumentOf(z: string): Option<string> {
    if z != [] && z[0] == '"' then
      match FindFrom(z, "\"", 1)
      case None => None
      case Some(q) => if q >= 2 && TailOk(z[q + 1..]) then Some(z[1..q]) else None
    else if z != [] && !BareStop(z[0]) then
      match BareArgEnd(z, 1)
      case None => None
      case Some(m) => Some(z[..m])
    else if TailOk(z) then Some("")
    else None
  }

  /**
   * `parse_action(line)`: `("done", "")` for a Done line, otherwise the
   * lower-cased verb and the stripped argument, or `None`.
   *
   * The verb is the whole run of word characters: a shorter verb would
   * leave word characters that only a bare argument can absorb, and every
   * such match is also a match for the whole run. The whitespace runs are
   * taken whole and the `(` is taken when present for the same reason.
   */
  function ParseAction(line: string): (r: Option<ActionPair>)
    ensures r.Some? ==> CiPrefix(line, "action:")
    ensures r.Some? ==> IsVerb(r.value.0) && r.value.1 == Strip(r.value.1)
  {
    if IsDoneLine(line) then DoneVerb(); Some(("done", ""))
    else if !CiPrefix(line, "action:") then None
    else ParseCall(line[7..])
  }

  /** A verb as `parse_action` returns it: a non-empty run of lower-case word characters. */
  predicate IsVerb(v: string) {
    v != [] && forall i | 0 <= i < |v| :: IsWordChar(v[i]) && !('A' <= v[i] <= 'Z')
  }

  /** What follows the verb once its whitespace and an optional `(` with its whitespace are skipped. */
  function ArgumentText(afterVerb: string): string {
    var z0 := LStrip(afterVerb);
    if z0 != [] && z0[0] == '(' then LStrip(z0[1..]) else z0
  }

  /** The verb of a Done line is a verb, and its empty argument is stripped. */
  lemma DoneVerb()
    ensures IsVerb("done") && Strip("") == ""
  {
    var v := "done";
    assert v[0] == 'd' && v[1] == 'o' && v[2] == 'n' && v[3] == 'e';
  }

  /** The verb and the argument after `Action:`. */
  function ParseCall(rest: string): (r: Option<ActionPair>)
    ensures r.Some? ==> IsVerb(r.value.0) && r.value.1 == Strip(r.value.1)
  {
    var r0 := LStrip(rest);
    var v := WordRun(r0);
    if v == 0 then None
    else
      match ArgumentOf(ArgumentText(r0[v..]))
      case None => None
      case Some(a) =>
        var verb := Lower(r0[..v]);
        assert IsVerb(verb) by {
          forall i | 0 <= i < |verb|
            ensures IsWordChar(verb[i]) && !('A' <= verb[i] <= 'Z')
          {
            assert verb[i] == LowerChar(r0[i]);
          }
        }
        StripIdempotent(a);
        Some((verb, Strip(a)))
  }

  lemma {:induction false} WordRunOf(w: string, rest: string)
    requires forall i | 0 <= i < |w| :: IsWordChar(w[i])
    requires rest == [] || !IsWordChar(rest[0])
    ensures WordRun(w + rest) == |w|
    decreases |w|
  {
    if w == [] {
      assert w + rest == rest;
    } else {
      var s := w + rest;
      assert s[0] == w[0] && IsWordChar(s[0]);
      assert s[1..] == w[1..] + rest;
      forall i | 0 <= i < |w| - 1 ensures IsWordChar(w[1..][i]) {
        assert w[1..][i] == w[i + 1];
      }
      WordRunOf(w[1..], rest);
      assert WordRun(s) == 1 + WordRun(s[1..]);
    }
  }

  lemma LeadingSpacesNone(s: string)
    requires s != [] && !IsSpace(s[0])
    ensures LStrip(s) == s
  {
  }

  lemma ParseCallOf(rest: string, verb: string, after: string, a: string)
    requires LStrip(rest) == verb + after
    requires verb != [] && forall i | 0 <= i < |verb| :: IsWordChar(verb[i])
    requires after == [] || !IsWordChar(after[0])
    requires ArgumentOf(ArgumentText(after)) == Some(a)
    ensures ParseCall(rest) == Some((Lower(verb), Strip(a)))
  {
    WordRunOf(verb, after);
    assert (verb + after)[..|verb|] == verb;
    assert (verb + after)[|verb|..] == after;
  }

  lemma ParseActionOfCall(line: string)
    requires CiPrefix(line, "action:") && !IsDoneLine(line)
    ensures ParseAction(line) == ParseCall(line[7..])
  {
  }

  lemma DoneLetterAt(x: string, i: nat)
    ensures CiPrefix(x, "done") && i < 4 ==> LowerChar(x[i]) == "done"[i]
  {
  }

  lemma NotDoneLine(verb: string, tail: string)
    requires verb != [] && forall i | 0 <= i < |verb| :: IsWordChar(verb[i])
    requires tail != [] && !IsWordChar(tail[0]) && tail[0] != '!' && tail[0] != '\n'
    ensures !CiPrefix(verb + tail, "done") || !DoneEnd(verb + tail, 4)
  {
    var x := verb + tail;
    if CiPrefix(x, "done") {
      if |verb| < 4 {
        DoneLetterAt(x, |verb|);
        assert false;
      } else if |verb| == 4 {
        assert x[4] == tail[0];
      } else {
        assert x[4] == verb[4];
      }
    }
  }

  /**
   * A line `Action: <verb><tail>` whose tail cannot continue the verb or
   * spell a Done line parses exactly as its argument text does.
   */
  lemma ParseOfCall(verb: string, tail: string)
    requires verb != [] && forall i | 0 <= i < |verb| :: IsWordChar(verb[i])
    requires tail != [] && !IsWordChar(tail[0]) && tail[0] != '!' && tail[0] != '\n'
    ensures ArgumentOf(ArgumentText(tail)).None? ==> ParseAction("Action: " + verb + tail) == None
    ensures ArgumentOf(ArgumentText(tail)).Some? ==>
      ParseAction("Action: " + verb + tail) == Some((Lower(verb), Strip(ArgumentOf(ArgumentText(tail)).value)))
  {
    var line := "Action: " + verb + tail;
    assert line[..7] == "Action:";
    ActionTagOf(line);
    var r0 := verb + tail;
    assert line[7..] == " " + r0;
    assert r0[0] == verb[0];
    LeadingSpacesOfPadded(" ", r0);
    assert LStrip(line[7..]) == r0;
    NotDoneLine(verb, tail);
    assert !IsDoneLine(line);
    WordRunOf(verb, tail);
    assert r0[..|verb|] == verb;
    assert r0[|verb|..] == tail;
  }

  /** A quoted call parses back to its verb and argument. */
  lemma ParseQuotedRoundTrip(verb: string, arg: string)
    requires verb != [] && forall i | 0 <= i < |verb| :: IsWordChar(verb[i])
    requires arg != [] && Strip(arg) == arg && forall i | 0 <= i < |arg| :: arg[i] != '"'
    ensures ParseAction("Action: " + verb + "(\"" + arg + "\")") == Some((Lower(verb), arg))
  {
    var z := "\"" + arg + "\")";
    var tail := "(" + z;
    assert "(\"" + arg + "\")" == tail;
    assert "Action: " + verb + "(\"" + arg + "\")" == "Action: " + verb + tail;
    ParenText(z);
    QuotedArgument(arg);
    ParseOfCall(verb, tail);
  }

  /** A quoted argument without quotes inside, closed by `)`, is that argument. */
  lemma QuotedArgument(arg: string)
    requires arg != [] && forall i | 0 <= i < |arg| :: arg[i] != '"'
    ensures ArgumentOf("\"" + arg + "\")") == Some(arg)
  {
    var z := "\"" + arg + "\")";
    assert OccursAt(z, "\"", 1 + |arg|);
    assert forall j: nat | 1 <= j < 1 + |arg| :: !OccursAt(z, "\"", j) by {
      forall j: nat | 1 <= j < 1 + |arg|
        ensures !OccursAt(z, "\"", j)
      {
        assert z[j] == arg[j - 1];
        assert z[j..j + 1] == [z[j]];
      }
    }
    assert FindFrom(z, "\"", 1) == Some(1 + |arg|);
    assert z[2 + |arg|..] == ")";
    assert z[1..1 + |arg|] == arg;
  }

  lemma TailOkFails(z: string, j: nat)
    requires j < |z| && !IsSpace(z[|z| - 1])
    requires forall i | j <= i < |z| :: z[i] != ')'
    ensures !TailOk(z[j..])
  {
    var e := z[j..];
    var n := LeadingSpaces(e);
    assert e[|e| - 1] == z[|z| - 1];
    assert n < |e|;
    var d := LStrip(e);
    assert d[0] == z[j + n];
  }

  lemma {:induction false} BareArgWhole(z: string, m: nat)
    requires 1 <= m <= |z|
    requires forall i | 0 <= i < |z| :: !BareStop(z[i])
    requires !IsSpace(z[|z| - 1])
    ensures BareArgEnd(z, m) == Some(|z|)
    decreases |z| - m
  {
    if m < |z| {
      TailOkFails(z, m);
      BareArgWhole(z, m + 1);
    } else {
      assert z[m..] == [];
    }
  }

  /** A bare argument after a space parses back whole. */
  lemma ParseBareRoundTrip(verb: string, arg: string)
    requires verb != [] && forall i | 0 <= i < |verb| :: IsWordChar(verb[i])
    requires arg != [] && !IsSpace(arg[0]) && !IsSpace(arg[|arg| - 1]) && arg[0] != '('
    requires forall i | 0 <= i < |arg| :: !BareStop(arg[i])
    ensures ParseAction("Action: " + verb + " " + arg) == Some((Lower(verb), arg))
  {
    var tail := " " + arg;
    assert "Action: " + verb + " " + arg == "Action: " + verb + tail;
    LeadingSpacesOfPadded(" ", arg);
    assert LStrip(tail) == arg;
    assert ArgumentText(tail) == arg;
    BareArgWhole(arg, 1);
    assert arg[..|arg|] == arg;
    assert ArgumentOf(arg) == Some(arg);
    StripOfUnpadded(arg);
    ParseOfCall(verb, tail);
  }

  /** A Done line, with or without `!`, parses as Done. */
  lemma ParseDoneLine(ws: string, bang: bool)
    requires AllSpace(ws)
    ensures ParseAction("Action:" + ws + "Done" + (if bang then "!" else "")) == Some(("done", ""))
  {
    DoneLineShape(ws, if bang then "!" else "");
    DoneLineParses("Action:" + ws + "Done" + (if bang then "!" else ""));
  }

  lemma DoneLineParses(line: string)
    requires IsDoneLine(line)
    ensures ParseAction(line) == Some(("done", ""))
  {
  }

  /** A line that starts `Action:` passes the case-blind `action:` test. */
  lemma ActionTagOf(line: string)
    requires |line| >= 7 && line[..7] == "Action:"
    ensures CiPrefix(line, "action:")
  {
    var p := line[..7];
    assert p[0] == 'A' && p[1] == 'c' && p[2] == 't' && p[3] == 'i';
    assert p[4] == 'o' && p[5] == 'n' && p[6] == ':';
    assert LowerChar(line[0]) == 'a';
    forall i | 0 <= i < 7 ensures LowerChar(line[i]) == "action:"[i] {
      assert line[i] == p[i];
    }
  }

  /** A text that starts `Done` passes the case-blind `done` test. */
  lemma DoneTagOf(x: string)
    requires |x| >= 4 && x[..4] == "Done"
    ensures CiPrefix(x, "done")
  {
    var p := x[..4];
    assert p[0] == 'D' && p[1] == 'o' && p[2] == 'n' && p[3] == 'e';
    assert LowerChar(x[0]) == 'd';
    forall i | 0 <= i < 4 ensures LowerChar(x[i]) == "done"[i] {
      assert x[i] == p[i];
    }
  }

  lemma DoneLineShape(ws: string, b: string)
    requires AllSpace(ws) && (b == "" || b == "!")
    ensures IsDoneLine("Action:" + ws + "Done" + b)
  {
    var line := "Action:" + ws + "Done" + b;
    assert line[..7] == "Action:";
    assert line[7..] == ws + ("Done" + b);
    LeadingSpacesOfPadded(ws, "Done" + b);
    var x := LStrip(line[7..]);
    assert x == "Done" + b;
    assert x[..4] == "Done";
    DoneTagOf(x);
    assert x[4..] == b;
    ActionTagOf(line);
  }

  /** An empty quoted argument is rejected: the quoted form needs at least one character. */
  lemma EmptyQuotedRejected(verb: string)
    requires verb != [] && forall i | 0 <= i < |verb| :: IsWordChar(verb[i])
    ensures ParseAction("Action: " + verb + "(\"\")") == None
  {
    EmptyQuotedText();
    ParseOfCall(verb, "(\"\")");
  }

  lemma EmptyQuotedText()
    ensures ArgumentOf(ArgumentText("(\"\")")) == None
  {
    ParenText("\"\")");
    var z := "\"\")";
    assert OccursAt(z, "\"", 1);
    assert FindFrom(z, "\"", 1) == Some(1);
  }

  /** After an opening parenthesis, text that does not start with whitespace is the argument text. */
  lemma ParenText(z: string)
    requires z != [] && !IsSpace(z[0])
    ensures ArgumentText("(" + z) == z
  {
    var tail := "(" + z;
    LeadingSpacesNone(tail);
    assert tail[1..] == z;
    LeadingSpacesNone(z);
  }

  /** Empty parentheses are accepted and give an empty argument. */
  lemma EmptyParensAccepted(verb: string)
    requires verb != [] && forall i | 0 <= i < |verb| :: IsWordChar(verb[i])
    ensures ParseAction("Action: " + verb + "()") == Some((Lower(verb), ""))
  {
    EmptyParensText();
    assert Strip("") == "";
    ParseOfCall(verb, "()");
  }

  lemma EmptyParensText()
    ensures ArgumentOf(ArgumentText("()")) == Some("")
  {
    ParenText(")");
    assert "(" + ")" == "()";
    assert LeadingSpaces(")") == 0;
    assert TailOk(")");
  }

  // ---------------------------------------------------------------- many actions

  /** The limit `parse_actions` applies: the caller's, or the default. */
  function EffectiveLimit(limit: Option<int>): int {
    if limit.Some? then limit.value else DEFAULT_ACTION_LIMIT
  }

  /** The parse of each stripped line. */
  function LineParses(lines: seq<string>): (ps: seq<Option<ActionPair>>)
    ensures |ps| == |lines|
    ensures forall i | 0 <= i < |lines| :: ps[i] == ParseAction(Strip(lines[i]))
  {
    seq(|lines|, i requires 0 <= i < |lines| => ParseAction(Strip(lines[i])))
  }

  /** An action that ends the collection. */
  predicate IsDoneAction(a: ActionPair) {
    a.0 == "done"
  }

  /** The collected actions of a whole text. */
  function ParsedActions(text: string, limit: Option<int>): seq<ActionPair> {
    Collect(LineParses(SplitLines(text)), EffectiveLimit(limit), IsDoneAction, [])
  }

  /** Every action of a whole text. */
  function AllActions(text: string): seq<ActionPair> {
    Somes(LineParses(SplitLines(text)))
  }

  lemma ParsedActionsShape(text: string, limit: Option<int>)
    ensures CollectedShape(ParsedActions(text, limit), AllActions(text), EffectiveLimit(limit), IsDoneAction)
  {
    CollectShapeFromStart(LineParses(SplitLines(text)), EffectiveLimit(limit), IsDoneAction);
  }

  /** The parse of one stripped line. */
  function StrippedAction(line: string): Option<ActionPair> {
    ParseAction(Strip(line))
  }

  lemma LineParsesByLine(lines: seq<string>)
    ensures Parses(lines, StrippedAction) == LineParses(lines)
  {
    forall i | 0 <= i < |lines|
      ensures Parses(lines, StrippedAction)[i] == LineParses(lines)[i]
    {
      ParsesAt(lines, StrippedAction, i);
    }
  }

  /** `parse_actions(text, limit)`. */
  method ParseActions(text: string, limit: Option<int>) returns (out: seq<ActionPair>)
    ensures out == ParsedActions(text, limit)
    ensures CollectedShape(out, AllActions(text), EffectiveLimit(limit), IsDoneAction)
  {
    var lim := if limit.None? then DEFAULT_ACTION_LIMIT else limit.value;
    var lines := SplitLines(text);
    out := CollectLines(lines, StrippedAction, lim, IsDoneAction);
    LineParsesByLine(lines);
    ParsedActionsShape(text, limit);
  }

  // ---------------------------------------------------------------- reply check

  /** `validate_action_format(text, find_allowed, limit)`. */
  predicate ValidateActionFormat(text: string, findAllowed: bool, limit: Option<int>) {
    var t := LStrip(text);
    var lim := if limit.None? || limit.value == 0 then DEFAULT_ACTION_LIMIT else limit.value;
    StartsWith(t, "Thought:")
    && var acts := ParsedActions(t, Some(lim));
       acts != [] && (findAllowed || acts[0].0 != "find")
  }

  /**
   * A reply passes exactly when, after leading whitespace, it starts with
   * `Thought:`, some line holds an action, and the first action is not a
   * Find unless Find is allowed. The limit cannot change the verdict.
   */
  lemma ValidateIff(text: string, findAllowed: bool, limit: Option<int>)
    ensures var t := LStrip(text);
      var all := AllActions(t);
      ValidateActionFormat(text, findAllowed, limit)
      <==> StartsWith(t, "Thought:") && all != [] && (findAllowed || all[0].0 != "find")
  {
    var t := LStrip(text);
    var lim := if limit.None? || limit.value == 0 then DEFAULT_ACTION_LIMIT else limit.value;
    ParsedActionsShape(t, Some(lim));
  }
}

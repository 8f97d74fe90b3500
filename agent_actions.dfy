/**
 * The agent's strict action grammar and the reply handling around it: the
 * single-line parser (`Action: Search("…")` and the four other tools, or
 * `Action: Done!`), the multi-line extractor with its limit and its
 * stop-at-Done rule, the reply format check, the selection policy, and the
 * streaming consumer that stops the generation once enough action lines
 * have gone by.
 *
 * The two regular expressions are replaced by hand-written matchers, with
 * case-insensitive matching of ASCII letters. Where the expressions could
 * backtrack, the greedy first choice is the only one that can succeed:
 * the whitespace runs cannot give characters back (a verb, `(` or `)`
 * would then have to match whitespace), and when the argument starts
 * with a quote, a match that lets the argument keep that quote is also a
 * match, with a shorter argument by one, that drops it.
 */
module AgentActions {
  import opened Options
  import opened PyStr
  import opened Collecting

  /** The most actions one reply is read for. */
  const ACTION_LIMIT: int := 3

  datatype Verb = Search | Open | Find | Crawl | Recall | Done

  /** The verb as `_parse_single_action` returns it: lower-cased. */
  function VerbName(v: Verb): string {
    match v
    case Search => "search"
    case Open => "open"
    case Find => "find"
    case Crawl => "crawl"
    case Recall => "recall"
    case Done => "done"
  }

  /**
   * A parsed action. Python's pair of strings becomes a verb of the closed
   * set the grammar admits and the argument, so a verb outside the tools
   * cannot be represented.
   */
  datatype Action = Action(verb: Verb, arg: string)

  // ---------------------------------------------------------------- one line

  /** The regular expressions' `.`: anything but a line feed. */
  predicate NoNewline(s: string) {
    forall i | 0 <= i < |s| :: s[i] != '\n'
  }

  predicate IsQuote(c: char) {
    c == '"' || c == '\''
  }

  /** The optional quote `["']?` taken off the front. */
  function DropQuote(u: string): string {
    if u != [] && IsQuote(u[0]) then u[1..] else u
  }

  /** The line matches `^Action:\s*Done!\s*$`, ignoring case. */
  predicate IsAgentDoneLine(line: string) {
    CiPrefix(line, "action:")
    && var x := LStrip(line[7..]);
       CiPrefix(x, "done!") && AllSpace(x[5..])
  }

  /**
   * The tool name the text starts with, ignoring case. The names start with
   * different letters, so at most one alternative can match.
   */
  function VerbAt(r0: string): (r: Option<Verb>)
    ensures r.Some? ==> r.value != Done && CiPrefix(r0, VerbName(r.value))
  {
    if CiPrefix(r0, "search") then Some(Search)
    else if CiPrefix(r0, "open") then Some(Open)
    else if CiPrefix(r0, "find") then Some(Find)
    else if CiPrefix(r0, "crawl") then Some(Crawl)
    else if CiPrefix(r0, "recall") then Some(Recall)
    else None
  }

  /** The rest is `["']?\s*\)\s*$`: an optional quote, a `)` and nothing but whitespace around it. */
  predicate ArgTail(u: string) {
    var v := DropQuote(u);
    var n := LeadingSpaces(v);
    n < |v| && v[n] == ')' && AllSpace(v[n + 1..])
  }

  /**
   * A lazy `(.*?)` followed by a pattern `tail` that must reach the end:
   * the shortest length at least `g` after which the rest satisfies
   * `tail`, or `None` when a line feed or the end comes first.
   */
  function LazyEnd(t: string, g: nat, tail: string -> bool): (r: Option<nat>)
    requires g <= |t|
    requires forall i | 0 <= i < g :: t[i] != '\n'
    ensures r.Some? ==> g <= r.value <= |t|
    ensures r.Some? ==> forall i | 0 <= i < r.value :: t[i] != '\n'
    decreases |t| - g
  {
    if tail(t[g..]) then Some(g)
    else if g < |t| && t[g] != '\n' then LazyEnd(t, g + 1, tail)
    else None
  }

  /** The lazy match ends where the rest first satisfies `tail`, from `g` on. */
  lemma {:induction false} LazyEndFirst(t: string, g: nat, tail: string -> bool)
    requires g <= |t|
    requires forall i | 0 <= i < g :: t[i] != '\n'
    ensures var r := LazyEnd(t, g, tail);
      r.Some? ==> tail(t[r.value..]) && forall j | g <= j < r.value :: !tail(t[j..])
    decreases |t| - g
  {
    if !tail(t[g..]) && g < |t| && t[g] != '\n' {
      LazyEndFirst(t, g + 1, tail);
    }
  }

  /** Conversely, the first place from `g` on where `tail` holds, with no line feed before it, is where the match ends. */
  lemma {:induction false} LazyEndAt(t: string, g: nat, k: nat, tail: string -> bool)
    requires g <= k <= |t| && forall i | 0 <= i < k :: t[i] != '\n'
    requires tail(t[k..]) && forall j | g <= j < k :: !tail(t[j..])
    ensures LazyEnd(t, g, tail) == Some(k)
    decreases k - g
  {
    if g < k {
      LazyEndAt(t, g + 1, k, tail);
    }
  }

  /** The argument of a call: `(.*?)` followed by `["']?\s*\)\s*$`. */
  function ArgEnd(t: string): Option<nat> {
    LazyEnd(t, 0, ArgTail)
  }

  /**
   * What follows the tool name: whitespace, `(`, whitespace, the argument
   * after an optional quote, and the tail. The argument is stripped.
   */
  function CallArgument(z: string): (r: Option<string>)
    ensures r.Some? ==> Strip(r.value) == r.value && NoNewline(r.value)
  {
    var r1 := LStrip(z);
    if r1 == [] || r1[0] != '(' then None
    else
      var t := DropQuote(LStrip(r1[1..]));
      match ArgEnd(t)
      case None => None
      case Some(g) =>
        StripIdempotent(t[..g]);
        assert NoNewline(t[..g]);
        StripNoNewline(t[..g]);
        Some(Strip(t[..g]))
  }

  lemma StripNoNewline(s: string)
    requires NoNewline(s)
    ensures NoNewline(Strip(s))
  {
    var a := Strip(s);
    assert forall i | 0 <= i < |a| :: a[i] == s[LeadingSpaces(s) + i];
  }

  /** The tool call after `Action:`: a tool name and its argument. */
  function ParseToolCall(rest: string): (r: Option<Action>)
    ensures r.Some? ==> r.value.verb != Done && CiPrefix(LStrip(rest), VerbName(r.value.verb))
    ensures r.Some? ==> Strip(r.value.arg) == r.value.arg && NoNewline(r.value.arg)
  {
    var r0 := LStrip(rest);
    match VerbAt(r0)
    case None => None
    case Some(v) =>
      match CallArgument(r0[|VerbName(v)|..])
      case None => None
      case Some(a) => Some(Action(v, a))
  }

  /**
   * `_parse_single_action(line)`: Done for a Done line, otherwise the tool
   * and its stripped argument, or `None`. Every action comes from a line
   * that starts with `Action:` (ignoring case), and a tool action names its
   * tool right after it.
   */
  function ParseSingleAction(line: string): (r: Option<Action>)
    ensures r.Some? ==> CiPrefix(line, "action:")
    ensures r.Some? ==> Strip(r.value.arg) == r.value.arg && NoNewline(r.value.arg)
    ensures r.Some? && r.value.verb != Done ==> CiPrefix(LStrip(line[7..]), VerbName(r.value.verb))
  {
    if IsAgentDoneLine(line) then Some(Action(Done, ""))
    else if !CiPrefix(line, "action:") then None
    else ParseToolCall(line[7..])
  }

  /** A line parses as Done exactly when it is a Done line, and Done never carries an argument. */
  lemma ParseDoneIff(line: string)
    ensures var r := ParseSingleAction(line);
      (r.Some? && r.value.verb == Done <==> IsAgentDoneLine(line))
      && (r.Some? && r.value.verb == Done ==> r.value.arg == "")
  {
  }

  /** `Action:`, any whitespace, `Done!` and any whitespace parse as Done. */
  lemma ParseDoneLine(ws: string, trail: string)
    requires AllSpace(ws) && AllSpace(trail)
    ensures ParseSingleAction("Action:" + ws + "Done!" + trail) == Some(Action(Done, ""))
  {
    var line := "Action:" + ws + "Done!" + trail;
    assert line[..7] == "Action:";
    assert line[7..] == ws + ("Done!" + trail);
    LeadingSpacesOfPadded(ws, "Done!" + trail);
    var x := LStrip(line[7..]);
    assert x == "Done!" + trail;
    assert x[5..] == trail;
    assert IsAgentDoneLine(line);
  }

  /**
   * A tail that ends in `)` after a character that is not whitespace is not
   * valid unless that character is the optional quote right at its front:
   * the `)` is then the only one the tail can use, and something other
   * than whitespace stands before it.
   */
  lemma NotArgTail(u: string)
    requires |u| >= 2 && u[|u| - 1] == ')' && !IsSpace(u[|u| - 2])
    requires |u| >= 3 || !IsQuote(u[0])
    ensures !ArgTail(u)
  {
    var v := DropQuote(u);
    assert |v| >= 2 && v[|v| - 1] == ')' && v[|v| - 2] == u[|u| - 2];
    var n := LeadingSpaces(v);
    assert n <= |v| - 2;
    if n < |v| - 2 {
      assert v[n + 1..][|v| - 2 - (n + 1)] == v[|v| - 2];
    } else {
      assert v[n + 1..] == [')'];
    }
  }

  /** `w` spells the tool's name in any mix of cases. */
  predicate SpellsVerb(w: string, v: Verb) {
    v != Done && |w| == |VerbName(v)| && CiPrefix(w, VerbName(v))
  }

  lemma ParseOfToolCall(line: string)
    requires CiPrefix(line, "action:") && !IsAgentDoneLine(line)
    ensures ParseSingleAction(line) == ParseToolCall(line[7..])
  {
  }

  lemma VerbAtSpelled(w: string, v: Verb, after: string)
    requires SpellsVerb(w, v)
    ensures VerbAt(w + after) == Some(v)
  {
    var x := w + after;
    assert forall i | 0 <= i < |w| :: x[i] == w[i];
    assert LowerChar(x[0]) == VerbName(v)[0];
    match v
    case Search =>
    case Open => assert LowerChar(x[0]) == 'o';
    case Find => assert LowerChar(x[0]) == 'f';
    case Crawl => assert LowerChar(x[0]) == 'c';
    case Recall => assert LowerChar(x[0]) == 'r';
  }

  /** After a space, a spelled tool name is followed by its argument text. */
  lemma ToolCallOfVerb(w: string, v: Verb, after: string)
    requires SpellsVerb(w, v)
    ensures CallArgument(after).None? ==> ParseToolCall(" " + w + after) == None
    ensures CallArgument(after).Some? ==> ParseToolCall(" " + w + after) == Some(Action(v, CallArgument(after).value))
  {
    var x := w + after;
    assert " " + w + after == " " + x;
    assert LowerChar(x[0]) == VerbName(v)[0];
    LeadingSpacesOfPadded(" ", x);
    VerbAtSpelled(w, v, after);
    assert x[|VerbName(v)|..] == after;
  }

  lemma CallArgumentOfParen(z: string)
    requires z != [] && !IsSpace(z[0])
    ensures var t := DropQuote(z);
      && (ArgEnd(t).None? ==> CallArgument("(" + z) == None)
      && (ArgEnd(t).Some? ==> CallArgument("(" + z) == Some(Strip(t[..ArgEnd(t).value])))
  {
    var after := "(" + z;
    LeadingSpacesNone(after);
    assert after[1..] == z;
    LeadingSpacesNone(z);
  }

  /**
   * A line `Action: <tool>(<z>` whose `z` does not start with whitespace
   * parses exactly as the argument text after an optional quote does.
   */
  lemma ToolCallOf(w: string, v: Verb, z: string)
    requires SpellsVerb(w, v)
    requires z != [] && !IsSpace(z[0])
    ensures var t := DropQuote(z);
      && (ArgEnd(t).None? ==> ParseSingleAction("Action: " + w + "(" + z) == None)
      && (ArgEnd(t).Some? ==>
            ParseSingleAction("Action: " + w + "(" + z) == Some(Action(v, Strip(t[..ArgEnd(t).value]))))
  {
    var after := "(" + z;
    ToolLineNotDone(w, v, after);
    ParseOfToolCall("Action: " + w + after);
    assert "Action: " + w + "(" + z == "Action: " + w + after;
    ToolCallOfVerb(w, v, after);
    CallArgumentOfParen(z);
  }

  /** A line `Action: <tool>…` is a tool line, not a Done line. */
  lemma ToolLineNotDone(w: string, v: Verb, after: string)
    requires SpellsVerb(w, v)
    ensures var line := "Action: " + w + after;
      CiPrefix(line, "action:") && !IsAgentDoneLine(line) && line[7..] == " " + w + after
  {
    var line := "Action: " + w + after;
    assert line[..7] == "Action:";
    assert line[7..] == " " + w + after;
    var x := w + after;
    assert " " + w + after == " " + x;
    assert LowerChar(x[0]) == VerbName(v)[0];
    LeadingSpacesOfPadded(" ", x);
    assert LStrip(line[7..]) == x;
    assert LowerChar(x[0]) != 'd';
  }

  lemma LeadingSpacesNone(s: string)
    requires s != [] && !IsSpace(s[0])
    ensures LStrip(s) == s
  {
  }

  /** After a quoted argument, only the final `")` can end it. */
  lemma QuotedArgEnd(q1: char, arg: string, q2: char)
    requires IsQuote(q1) && IsQuote(q2) && NoNewline(arg)
    ensures var t := DropQuote([q1] + arg + [q2] + ")");
      t[..|arg|] == arg && ArgEnd(t) == Some(|arg|)
  {
    var z := [q1] + arg + [q2] + ")";
    assert z[1..] == arg + [q2] + ")";
    var t := arg + [q2] + ")";
    NoTailInside(arg, q2, t);
    QuoteTail(q2, t[|arg|..]);
    LazyEndAt(t, 0, |arg|, ArgTail);
  }

  /** Inside `arg` followed by a closing quote and `)`, no position starts an argument tail. */
  lemma NoTailInside(arg: string, q2: char, t: string)
    requires IsQuote(q2) && NoNewline(arg) && t == arg + [q2] + ")"
    ensures forall j | 0 <= j < |arg| :: !ArgTail(t[j..])
    ensures forall i | 0 <= i < |arg| :: t[i] != '\n'
    ensures t[..|arg|] == arg && t[|arg|..] == [q2] + ")"
  {
    forall j | 0 <= j < |arg|
      ensures !ArgTail(t[j..])
    {
      NoTailAt(arg, q2, t, j);
    }
    forall i | 0 <= i < |arg| ensures t[i] != '\n' {
      assert t[i] == arg[i];
    }
  }

  lemma NoTailAt(arg: string, q2: char, t: string, j: nat)
    requires IsQuote(q2) && t == arg + [q2] + ")" && j < |arg|
    ensures !ArgTail(t[j..])
  {
    var u := t[j..];
    assert |u| == |arg| - j + 2;
    assert u[|u| - 1] == t[|t| - 1] == ')';
    assert u[|u| - 2] == t[|t| - 2] == q2;
    NotArgTail(u);
  }

  /** A closing quote and `)` end an argument. */
  lemma QuoteTail(q: char, u: string)
    requires IsQuote(q) && u == [q] + ")"
    ensures ArgTail(u)
  {
    var v := DropQuote(u);
    assert v == ")";
    assert !IsSpace(v[0]);
    assert LeadingSpaces(v) == 0;
    assert v[1..] == [];
  }

  /**
   * A quoted call parses back to its tool and its stripped argument, for
   * any argument without a line feed: the argument may even hold quotes
   * and parentheses, since only the final `")` can end it.
   */
  lemma QuotedCallRoundTrip(w: string, v: Verb, q1: char, arg: string, q2: char)
    requires SpellsVerb(w, v) && IsQuote(q1) && IsQuote(q2) && NoNewline(arg)
    ensures ParseSingleAction("Action: " + w + "(" + [q1] + arg + [q2] + ")") == Some(Action(v, Strip(arg)))
  {
    var z := [q1] + arg + [q2] + ")";
    assert "Action: " + w + "(" + [q1] + arg + [q2] + ")" == "Action: " + w + "(" + z;
    QuotedArgEnd(q1, arg, q2);
    ToolCallOf(w, v, z);
  }

  /** An unquoted argument that ends in neither whitespace nor a quote is ended only by the final `)`. */
  lemma BareArgEnd(arg: string)
    requires NoNewline(arg) && arg != [] && !IsSpace(arg[0]) && !IsSpace(arg[|arg| - 1])
    requires !IsQuote(arg[0]) && !IsQuote(arg[|arg| - 1])
    ensures var t := DropQuote(arg + ")");
      t[..|arg|] == arg && ArgEnd(t) == Some(|arg|)
  {
    var t := DropQuote(arg + ")");
    assert t == arg + ")";
    forall j | 0 <= j < |arg|
      ensures !ArgTail(t[j..])
    {
      NotArgTail(t[j..]);
    }
    assert t[|arg|..] == ")";
    assert t[..|arg|] == arg;
    LazyEndAt(t, 0, |arg|, ArgTail);
  }

  /**
   * An unquoted argument that is already stripped and neither starts nor
   * ends with a quote parses back whole.
   */
  lemma BareCallRoundTrip(w: string, v: Verb, arg: string)
    requires SpellsVerb(w, v) && NoNewline(arg)
    requires arg != [] && !IsSpace(arg[0]) && !IsSpace(arg[|arg| - 1])
    requires !IsQuote(arg[0]) && !IsQuote(arg[|arg| - 1])
    ensures ParseSingleAction("Action: " + w + "(" + arg + ")") == Some(Action(v, arg))
  {
    var z := arg + ")";
    assert "Action: " + w + "(" + arg + ")" == "Action: " + w + "(" + z;
    BareArgEnd(arg);
    StripOfUnpadded(arg);
    ToolCallOf(w, v, z);
  }

  // ---------------------------------------------------------------- many lines

  predicate IsDone(a: Action) {
    a.verb == Done
  }

  /** How the agent reads one line: stripped, then parsed. */
  function LineAction(line: string): Option<Action> {
    ParseSingleAction(Strip(line))
  }

  /** How `_extract_actions` reads one line: stripped, and parsed only when it starts with `action:`. */
  function ExtractLine(line: string): Option<Action> {
    var raw := Strip(line);
    if CiPrefix(raw, "action:") then ParseSingleAction(raw) else None
  }

  /** The `action:` pre-filter changes nothing: the parser already rejects every other line. */
  lemma FilterRedundant(lines: seq<string>)
    ensures Parses(lines, ExtractLine) == Parses(lines, LineAction)
  {
    forall i | 0 <= i < |lines|
      ensures ExtractLine(lines[i]) == LineAction(lines[i])
    {
    }
    ParsesAgree(lines, ExtractLine, LineAction);
  }

  /** The actions `_extract_actions(block, limit)` returns. */
  function ExtractedActions(block: string, limit: int): seq<Action> {
    Collect(Parses(SplitLines(block), ExtractLine), limit, IsDone, [])
  }

  /** Every action line of a block, in order, with no limit. */
  function BlockActions(block: string): seq<Action> {
    Somes(Parses(SplitLines(block), LineAction))
  }

  /**
   * The extracted actions are the first action lines of the block, in
   * order, at most `limit` of them (one when the limit is below one), with
   * a Done only in the last place; fewer than all are taken only when the
   * limit or a Done stopped the scan.
   */
  lemma ExtractedShape(block: string, limit: int)
    ensures CollectedShape(ExtractedActions(block, limit), BlockActions(block), limit, IsDone)
  {
    FilterRedundant(SplitLines(block));
    CollectShapeFromStart(Parses(SplitLines(block), LineAction), limit, IsDone);
  }

  /** `_extract_actions(block, limit)`. */
  method ExtractActions(block: string, limit: int) returns (actions: seq<Action>)
    ensures actions == ExtractedActions(block, limit)
    ensures CollectedShape(actions, BlockActions(block), limit, IsDone)
  {
    var lines := SplitLines(block);
    actions := CollectLines(lines, ExtractLine, limit, IsDone);
    ExtractedShape(block, limit);
  }

  /** `_has_valid_format(block)`. */
  predicate HasValidFormat(block: string) {
    StartsWith(LStrip(block), "Thought:") && ExtractedActions(block, ACTION_LIMIT) != []
  }

  /** Some action is collected from a list of lines exactly when one of them, stripped, parses. */
  lemma ActionLineIff(block: string)
    ensures var lines := SplitLines(block);
      Collect(Parses(lines, ExtractLine), ACTION_LIMIT, IsDone, []) != [] <==>
        exists i | 0 <= i < |lines| :: LineAction(lines[i]).Some?
  {
    var lines := SplitLines(block);
    FilterRedundant(lines);
    CollectNonEmptyIff(lines, LineAction, ACTION_LIMIT, IsDone);
  }

  /**
   * A reply is well formed exactly when, after leading whitespace, it
   * starts with `Thought:` (case matters) and one of its lines, stripped,
   * parses as an action.
   */
  lemma ValidFormatIff(block: string)
    ensures var lines := SplitLines(block);
      HasValidFormat(block) <==>
        StartsWith(LStrip(block), "Thought:")
        && exists i | 0 <= i < |lines| :: LineAction(lines[i]).Some?
  {
    ActionLineIff(block);
    assert ExtractedActions(block, ACTION_LIMIT) == Collect(Parses(SplitLines(block), ExtractLine), ACTION_LIMIT, IsDone, []);
  }

  /** No action is extracted exactly when no line holds one. */
  lemma ExtractedNone(block: string)
    ensures ExtractedActions(block, ACTION_LIMIT) == [] <==> BlockActions(block) == []
  {
    FilterRedundant(SplitLines(block));
    CollectFirst(Parses(SplitLines(block), LineAction), ACTION_LIMIT, IsDone);
  }

  // ---------------------------------------------------------------- selection

  /** The index of the first Search, if any. */
  function FirstSearch(actions: seq<Action>): (r: Option<nat>)
    ensures r.Some? ==> r.value < |actions| && actions[r.value].verb == Search
    ensures r.Some? ==> forall j | 0 <= j < r.value :: actions[j].verb != Search
    ensures r.None? ==> forall j | 0 <= j < |actions| :: actions[j].verb != Search
  {
    if actions == [] then None
    else if actions[0].verb == Search then Some(0)
    else match FirstSearch(actions[1..])
      case None => None
      case Some(i) => Some(i + 1)
  }

  /**
   * `_select_actions(actions)`: exactly one action, the first Search when
   * there is one and otherwise the first action. (Python fails on an empty
   * list; the agent only calls it with actions.)
   */
  function SelectActions(actions: seq<Action>): (r: seq<Action>)
    requires actions != []
    ensures |r| == 1
    ensures (forall j | 0 <= j < |actions| :: actions[j].verb != Search) ==> r[0] == actions[0]
    ensures (exists j | 0 <= j < |actions| :: actions[j].verb == Search) ==>
      exists i | 0 <= i < |actions| ::
        r[0] == actions[i] && r[0].verb == Search && forall j | 0 <= j < i :: actions[j].verb != Search
  {
    match FirstSearch(actions)
    case Some(i) => [actions[i]]
    case None => [actions[0]]
  }

  // ---------------------------------------------------------------- streaming

  predicate EndsWithNewline(tok: string) {
    tok != [] && tok[|tok| - 1] == '\n'
  }

  /** The concatenation of the tokens. */
  function Concat(ts: seq<string>): string {
    if ts == [] then "" else Concat(ts[..|ts| - 1]) + ts[|ts| - 1]
  }

  /** The text since the last token that ended in a line feed: the consumer's current line. */
  function Pending(ts: seq<string>): string {
    if ts == [] then ""
    else if EndsWithNewline(ts[|ts| - 1]) then ""
    else Pending(ts[..|ts| - 1]) + ts[|ts| - 1]
  }

  /** The lines the consumer checks: one each time a token ends in a line feed. */
  function StreamLines(ts: seq<string>): seq<string> {
    if ts == [] then []
    else
      var last := ts[|ts| - 1];
      StreamLines(ts[..|ts| - 1]) + (if EndsWithNewline(last) then [Pending(ts[..|ts| - 1]) + last] else [])
  }

  /** The checked lines and the current line are the stream, cut after each token ending in a line feed. */
  lemma {:induction false} StreamLinesLossless(ts: seq<string>)
    ensures Concat(ts) == Concat(StreamLines(ts)) + Pending(ts)
    decreases |ts|
  {
    if ts == [] {
      assert Concat(StreamLines(ts)) == "" && Pending(ts) == "";
    } else {
      var init, last := ts[..|ts| - 1], ts[|ts| - 1];
      StreamLinesLossless(init);
      var ls := StreamLines(init);
      assert Concat(ts) == Concat(init) + last;
      assert Concat(init) == Concat(ls) + Pending(init);
      if EndsWithNewline(last) {
        var l := Pending(init) + last;
        assert StreamLines(ts) == ls + [l];
        assert Pending(ts) == "";
        assert (ls + [l])[..|ls|] == ls;
        assert Concat(ls + [l]) == Concat(ls) + l;
        assert Concat(ts) == Concat(ls) + l + "";
      } else {
        assert StreamLines(ts) == ls + [] == ls;
        assert Pending(ts) == Pending(init) + last;
        assert Concat(ts) == Concat(ls) + (Pending(init) + last);
      }
    }
  }

  /** Every checked line ends in a line feed. */
  lemma {:induction false} StreamLinesEnd(ts: seq<string>)
    ensures forall k | 0 <= k < |StreamLines(ts)| :: EndsWithNewline(StreamLines(ts)[k])
    decreases |ts|
  {
    if ts != [] {
      var init, last := ts[..|ts| - 1], ts[|ts| - 1];
      StreamLinesEnd(init);
      var ls := StreamLines(init);
      if EndsWithNewline(last) {
        var l := Pending(init) + last;
        assert StreamLines(ts) == ls + [l];
        assert l[|l| - 1] == last[|last| - 1];
        forall k | 0 <= k < |ls| + 1
          ensures EndsWithNewline((ls + [l])[k])
        {
          if k < |ls| {
            assert (ls + [l])[k] == ls[k];
          }
        }
      } else {
        assert StreamLines(ts) == ls + [] == ls;
      }
    }
  }

  /** A stream with no token ending in a line feed has no line checked. */
  lemma {:induction false} NoNewlineNoLines(ts: seq<string>)
    requires forall i | 0 <= i < |ts| :: !EndsWithNewline(ts[i])
    ensures StreamLines(ts) == [] && Pending(ts) == Concat(ts)
    decreases |ts|
  {
    if ts != [] {
      NoNewlineNoLines(ts[..|ts| - 1]);
    }
  }

  lemma StreamLinesSnoc(ts: seq<string>, i: nat)
    requires i < |ts|
    ensures StreamLines(ts[..i + 1]) == StreamLines(ts[..i])
      + (if EndsWithNewline(ts[i]) then [Pending(ts[..i]) + ts[i]] else [])
    ensures Pending(ts[..i + 1]) == if EndsWithNewline(ts[i]) then "" else Pending(ts[..i]) + ts[i]
    ensures Concat(ts[..i + 1]) == Concat(ts[..i]) + ts[i]
  {
    assert ts[..i + 1][..i] == ts[..i];
  }

  lemma {:induction false} StreamLinesPrefix(ts: seq<string>, j: nat)
    requires j <= |ts|
    ensures StreamLines(ts[..j]) <= StreamLines(ts)
    decreases |ts|
  {
    if j < |ts| {
      var init := ts[..|ts| - 1];
      assert init[..j] == ts[..j];
      StreamLinesPrefix(init, j);
    } else {
      assert ts[..j] == ts;
    }
  }

  /**
   * `_stream_until_actions(prompt)` over the tokens the model streams: the
   * stripped text of the tokens consumed, and the actions seen. A line is checked only when a
   * token ends in a line feed; the stream is left once `ACTION_LIMIT`
   * checked lines held actions or one held Done. The actions are the first
   * ones of the checked lines by the same rule as `_extract_actions`, and
   * every action of the lines consumed; the ghost result is the number of
   * tokens consumed.
   */
  method StreamUntilActions(tokens: seq<string>) returns (text: string, actions: seq<Action>, ghost consumed: nat)
    ensures consumed <= |tokens| && text == Strip(Concat(tokens[..consumed]))
    ensures Consumed(tokens, LineAction, actions, consumed)
    ensures actions == Collect(Parses(StreamLines(tokens), LineAction), ACTION_LIMIT, IsDone, [])
    ensures CollectedShape(actions, Somes(Parses(StreamLines(tokens), LineAction)), ACTION_LIMIT, IsDone)
  {
    var out;
    out, actions, consumed := ConsumeStream(tokens, LineAction);
    text := Strip(out);
  }

  /**
   * What the consumer leaves behind, for a line parser `f`: it read the
   * first `consumed` tokens, and `actions` are the actions the whole stream gives under the limit and
   * the Done rule, which are also every action of the lines read. When it
   * stopped early it did so on a token that ends a line, on a line whose
   * action hit the limit or was Done.
   */
  ghost predicate Consumed(tokens: seq<string>, f: string -> Option<Action>, actions: seq<Action>, consumed: nat) {
    && consumed <= |tokens|
    && actions == Collect(Parses(StreamLines(tokens), f), ACTION_LIMIT, IsDone, [])
    && actions == Somes(Parses(StreamLines(tokens[..consumed]), f))
    && (consumed < |tokens| ==>
          && consumed >= 1 && EndsWithNewline(tokens[consumed - 1])
          && var la := Parses(StreamLines(tokens[..consumed]), f);
             la != [] && la[|la| - 1].Some?
             && (|actions| >= ACTION_LIMIT || la[|la| - 1].value.verb == Done))
  }

  /** The consumer loop of `_stream_until_actions`, for a line parser `f` applied to each checked line. */
  method ConsumeStream(tokens: seq<string>, f: string -> Option<Action>)
    returns (out: string, actions: seq<Action>, ghost consumed: nat)
    ensures consumed <= |tokens| && out == Concat(tokens[..consumed])
    ensures Consumed(tokens, f, actions, consumed)
    ensures actions == Collect(Parses(StreamLines(tokens), f), ACTION_LIMIT, IsDone, [])
    ensures CollectedShape(actions, Somes(Parses(StreamLines(tokens), f)), ACTION_LIMIT, IsDone)
  {
    CollectShapeFromStart(Parses(StreamLines(tokens), f), ACTION_LIMIT, IsDone);
    var curr := "";
    out := "";
    actions := [];
    var i := 0;
    while i < |tokens|
      invariant 0 <= i <= |tokens|
      invariant out == Concat(tokens[..i]) && curr == Pending(tokens[..i])
      invariant actions == Somes(Parses(StreamLines(tokens[..i]), f))
      invariant |actions| < ACTION_LIMIT && NoStop(actions, IsDone)
    {
      var tok := tokens[i];
      ghost var out0, curr0, actions0 := out, curr, actions;
      out := out + tok;
      curr := curr + tok;
      var stop := false;
      if EndsWithNewline(tok) {
        var maybe := f(curr);
        if maybe.Some? {
          actions := actions + [maybe.value];
          stop := |actions| >= ACTION_LIMIT || maybe.value.verb == Done;
        }
        curr := "";
      }
      StreamStep(tokens, i, f, out0, curr0, actions0, out, curr, actions, stop);
      if stop {
        consumed := i + 1;
        return;
      }
      i := i + 1;
    }
    StreamEnd(tokens, f, actions);
    consumed := i;
  }

  /** A stream read to its end without stopping gave every action of its lines. */
  lemma StreamEnd(tokens: seq<string>, f: string -> Option<Action>, actions: seq<Action>)
    requires actions == Somes(Parses(StreamLines(tokens[..|tokens|]), f))
    requires |actions| < ACTION_LIMIT && NoStop(actions, IsDone)
    ensures Consumed(tokens, f, actions, |tokens|)
  {
    TakeAll(tokens);
    assert [] + actions == actions;
    CollectAll(Parses(StreamLines(tokens), f), ACTION_LIMIT, IsDone, []);
  }

  /**
   * One token of the consumer, for any line parser `f`: the buffers and
   * the actions seen follow the stream one token further, and either the
   * consumer goes on within the limit and without a Done, or it stops with
   * the actions the whole stream would give.
   */
  lemma StreamStep(tokens: seq<string>, i: nat, f: string -> Option<Action>,
                   out: string, curr: string, actions: seq<Action>,
                   out': string, curr': string, actions': seq<Action>, stop: bool)
    requires i < |tokens|
    requires out == Concat(tokens[..i]) && curr == Pending(tokens[..i])
    requires actions == Somes(Parses(StreamLines(tokens[..i]), f))
    requires |actions| < ACTION_LIMIT && NoStop(actions, IsDone)
    requires out' == out + tokens[i]
    requires curr' == if EndsWithNewline(tokens[i]) then "" else curr + tokens[i]
    requires var m := f(curr + tokens[i]);
      && actions' == actions + (if EndsWithNewline(tokens[i]) && m.Some? then [m.value] else [])
      && (stop <==> EndsWithNewline(tokens[i]) && m.Some? && (|actions'| >= ACTION_LIMIT || m.value.verb == Done))
    ensures out' == Concat(tokens[..i + 1]) && curr' == Pending(tokens[..i + 1])
    ensures actions' == Somes(Parses(StreamLines(tokens[..i + 1]), f))
    ensures !stop ==> |actions'| < ACTION_LIMIT && NoStop(actions', IsDone)
    ensures stop ==> Consumed(tokens, f, actions', i + 1)
  {
    StreamLinesSnoc(tokens, i);
    if EndsWithNewline(tokens[i]) {
      var m := f(curr + tokens[i]);
      CheckedLine(tokens, i, f, m);
      if stop {
        assert actions'[..|actions'| - 1] == actions;
        StreamStopped(tokens, i + 1, f, actions');
      }
    } else {
      assert StreamLines(tokens[..i + 1]) == StreamLines(tokens[..i]);
    }
  }

  /** A token ending in a line feed adds the parse of the current line to the parses of the stream. */
  lemma CheckedLine(tokens: seq<string>, i: nat, f: string -> Option<Action>, m: Option<Action>)
    requires i < |tokens| && EndsWithNewline(tokens[i])
    requires m == f(Pending(tokens[..i]) + tokens[i])
    ensures var la, la' := Parses(StreamLines(tokens[..i]), f), Parses(StreamLines(tokens[..i + 1]), f);
      && la' == la + [m]
      && Somes(la') == Somes(la) + (if m.Some? then [m.value] else [])
  {
    StreamLinesSnoc(tokens, i);
    var ls := StreamLines(tokens[..i]);
    var l := Pending(tokens[..i]) + tokens[i];
    assert StreamLines(tokens[..i + 1]) == ls + [l];
    ParsesSnoc(ls, l, f);
    SomesSnoc(Parses(ls, f), m);
  }

  /** Where the consumer stops, the later lines of the stream no longer matter. */
  lemma StreamStopped(tokens: seq<string>, c: nat, f: string -> Option<Action>, actions: seq<Action>)
    requires 1 <= c <= |tokens|
    requires var la := Parses(StreamLines(tokens[..c]), f);
      la != [] && la[|la| - 1].Some? && actions == Somes(la)
    requires 1 <= |actions| <= ACTION_LIMIT && NoStop(actions[..|actions| - 1], IsDone)
    requires |actions| >= ACTION_LIMIT || IsDone(actions[|actions| - 1])
    requires EndsWithNewline(tokens[c - 1])
    ensures Consumed(tokens, f, actions, c)
  {
    var seen, all := StreamLines(tokens[..c]), StreamLines(tokens);
    SomesLast(Parses(seen, f));
    StreamLinesPrefix(tokens, c);
    ParsesPrefix(seen, all, f);
    CollectStoppedPrefix(Parses(seen, f), Parses(all, f), ACTION_LIMIT, IsDone);
  }
}

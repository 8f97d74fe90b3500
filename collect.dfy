/**
 * The collection rule both action extractors share: walk the parses of the
 * lines in order, keep every action, and stop once the limit is reached
 * or an action that ends the turn (a Done) has been kept. The limit is
 * checked after an append, so one action fits even under a limit below 1.
 */
module Collecting {
  import opened Options

  function Max(a: int, b: int): int { if a < b then b else a }

  /**
   * The actions collected from the parses `ps` after the ones in `acc`,
   * where `stop` tells the actions that end the collection.
   */
  function Collect<A(==)>(ps: seq<Option<A>>, limit: int, stop: A -> bool, acc: seq<A>): seq<A>
    decreases |ps|
  {
    if ps == [] then acc
    else if ps[0].None? then Collect(ps[1..], limit, stop, acc)
    else
      var a := ps[0].value;
      if |acc + [a]| >= limit || stop(a) then acc + [a]
      else Collect(ps[1..], limit, stop, acc + [a])
  }

  /** Every action among the parses, with no limit and no stop. */
  function Somes<A>(ps: seq<Option<A>>): seq<A>
    decreases |ps|
  {
    if ps == [] then []
    else (if ps[0].Some? then [ps[0].value] else []) + Somes(ps[1..])
  }

  predicate NoStop<A>(acts: seq<A>, stop: A -> bool) {
    forall j | 0 <= j < |acts| :: !stop(acts[j])
  }

  /** The walk collecting `all` ends with its last action: the limit or a stopping action ends it there and not before. */
  predicate EndsWalk<A>(all: seq<A>, limit: int, stop: A -> bool) {
    && 1 <= |all| <= Max(limit, 1)
    && NoStop(all[..|all| - 1], stop)
    && (|all| >= limit || stop(all[|all| - 1]))
  }

  /**
   * The collected actions, characterised without the walk: a prefix of all
   * the actions, no longer than the limit (at least one always fits), with
   * a stopping action only in the last place, and cut short only by the
   * limit or a stopping action.
   */
  predicate CollectedShape<A(==)>(r: seq<A>, all: seq<A>, limit: int, stop: A -> bool) {
    && r <= all
    && |r| <= Max(limit, 1)
    && NoStop(r[..if r == [] then 0 else |r| - 1], stop)
    && (|r| < |all| ==> r != [] && (|r| >= limit || stop(r[|r| - 1])))
  }

  lemma {:induction false} CollectShape<A>(ps: seq<Option<A>>, limit: int, stop: A -> bool, acc: seq<A>)
    requires acc == [] || |acc| < limit
    requires NoStop(acc, stop)
    ensures CollectedShape(Collect(ps, limit, stop, acc), acc + Somes(ps), limit, stop)
    decreases |ps|
  {
    var r := Collect(ps, limit, stop, acc);
    var all := acc + Somes(ps);
    if ps == [] {
      assert all == acc;
    } else if ps[0].None? {
      assert Somes(ps) == [] + Somes(ps[1..]) == Somes(ps[1..]);
      assert r == Collect(ps[1..], limit, stop, acc);
      CollectShape(ps[1..], limit, stop, acc);
    } else {
      var a := ps[0].value;
      assert Somes(ps) == [a] + Somes(ps[1..]);
      assert all == (acc + [a]) + Somes(ps[1..]);
      if |acc + [a]| >= limit || stop(a) {
        assert r == acc + [a];
        StoppedShape(acc, a, Somes(ps[1..]), limit, stop);
      } else {
        assert r == Collect(ps[1..], limit, stop, acc + [a]);
        assert NoStop(acc + [a], stop) by {
          assert forall j | 0 <= j < |acc| :: (acc + [a])[j] == acc[j];
        }
        CollectShape(ps[1..], limit, stop, acc + [a]);
      }
    }
  }

  /** The walk stopped right after appending `a`. */
  lemma StoppedShape<A>(acc: seq<A>, a: A, rest: seq<A>, limit: int, stop: A -> bool)
    requires acc == [] || |acc| < limit
    requires NoStop(acc, stop)
    requires |acc + [a]| >= limit || stop(a)
    ensures CollectedShape(acc + [a], (acc + [a]) + rest, limit, stop)
  {
    var r := acc + [a];
    assert r[..|r| - 1] == acc;
    assert r[|r| - 1] == a;
  }

  /** The shape of a collection that starts with nothing collected. */
  lemma CollectShapeFromStart<A>(ps: seq<Option<A>>, limit: int, stop: A -> bool)
    ensures CollectedShape(Collect(ps, limit, stop, []), Somes(ps), limit, stop)
  {
    CollectShape(ps, limit, stop, []);
    assert [] + Somes(ps) == Somes(ps);
  }

  /** With a positive limit, the first action is collected whenever there is one. */
  lemma CollectFirst<A>(ps: seq<Option<A>>, limit: int, stop: A -> bool)
    ensures var r := Collect(ps, limit, stop, []);
      (r == [] <==> Somes(ps) == []) && (r != [] ==> r[0] == Somes(ps)[0])
  {
    CollectShape(ps, limit, stop, []);
  }

  lemma {:induction false} SomesAppend<A>(a: seq<Option<A>>, b: seq<Option<A>>)
    ensures Somes(a + b) == Somes(a) + Somes(b)
    decreases |a|
  {
    if a == [] {
      assert a + b == b;
    } else {
      var h := if a[0].Some? then [a[0].value] else [];
      assert (a + b)[1..] == a[1..] + b;
      assert (a + b)[0] == a[0];
      assert Somes(a + b) == h + Somes(a[1..] + b);
      SomesAppend(a[1..], b);
      assert Somes(a) == h + Somes(a[1..]);
      assert h + (Somes(a[1..]) + Somes(b)) == (h + Somes(a[1..])) + Somes(b);
    }
  }

  lemma SomesSnoc<A>(ps: seq<Option<A>>, x: Option<A>)
    ensures Somes(ps + [x]) == Somes(ps) + (if x.Some? then [x.value] else [])
  {
    SomesAppend(ps, [x]);
    assert Somes([x]) == (if x.Some? then [x.value] else []) + Somes([]);
  }

  /** There are no actions exactly when no parse succeeded. */
  lemma {:induction false} SomesEmptyIff<A>(ps: seq<Option<A>>)
    ensures Somes(ps) == [] <==> forall i | 0 <= i < |ps| :: ps[i].None?
    decreases |ps|
  {
    if ps != [] {
      SomesEmptyIff(ps[1..]);
      assert forall i | 1 <= i < |ps| :: ps[i] == ps[1..][i - 1];
    }
  }

  /** A walk that never meets the limit or a stopping action keeps every action. */
  lemma {:induction false} CollectAll<A>(ps: seq<Option<A>>, limit: int, stop: A -> bool, acc: seq<A>)
    requires |acc + Somes(ps)| < limit && NoStop(acc + Somes(ps), stop)
    ensures Collect(ps, limit, stop, acc) == acc + Somes(ps)
    decreases |ps|
  {
    if ps != [] {
      if ps[0].None? {
        assert [] + Somes(ps[1..]) == Somes(ps[1..]);
        CollectAll(ps[1..], limit, stop, acc);
      } else {
        var a := ps[0].value;
        assert acc + Somes(ps) == (acc + [a]) + Somes(ps[1..]);
        assert (acc + Somes(ps))[|acc|] == a;
        CollectAll(ps[1..], limit, stop, acc + [a]);
      }
    }
  }

  /** A last parse that succeeded gives the last action. */
  lemma {:induction false} SomesLast<A>(p: seq<Option<A>>)
    requires p != [] && p[|p| - 1].Some?
    ensures Somes(p) != [] && Somes(p)[|Somes(p)| - 1] == p[|p| - 1].value
    decreases |p|
  {
    if |p| > 1 {
      assert p[1..][|p[1..]| - 1] == p[|p| - 1];
      SomesLast(p[1..]);
    } else {
      assert Somes(p) == [p[0].value] + Somes(p[1..]);
    }
  }

  /**
   * A walk that meets its stopping point at the last parse of `p` ignores
   * whatever parses follow.
   */
  lemma {:induction false} CollectStopped<A>(p: seq<Option<A>>, q: seq<Option<A>>, limit: int, stop: A -> bool, acc: seq<A>)
    requires p != [] && p[|p| - 1].Some?
    requires EndsWalk(acc + Somes(p), limit, stop)
    ensures Collect(p + q, limit, stop, acc) == acc + Somes(p)
    decreases |p|
  {
    assert (p + q)[1..] == p[1..] + q;
    assert (p + q)[0] == p[0];
    if |p| == 1 {
      assert Somes(p) == [p[0].value] + Somes([]);
    } else if p[0].None? {
      CollectSkip(p, q, limit, stop, acc);
    } else {
      CollectGoesOn(p, q, limit, stop, acc);
    }
  }

  lemma CollectSkip<A>(p: seq<Option<A>>, q: seq<Option<A>>, limit: int, stop: A -> bool, acc: seq<A>)
    requires |p| > 1 && p[0].None? && p[|p| - 1].Some?
    requires EndsWalk(acc + Somes(p), limit, stop)
    ensures Collect(p + q, limit, stop, acc) == acc + Somes(p)
    decreases |p|, 0
  {
    var r := p[1..];
    assert (p + q)[1..] == r + q;
    assert (p + q)[0] == p[0];
    assert Somes(p) == [] + Somes(r);
    assert [] + Somes(r) == Somes(r);
    assert r[|r| - 1] == p[|p| - 1];
    assert acc + Somes(p) == acc + Somes(r);
    CollectStopped(r, q, limit, stop, acc);
  }

  lemma CollectGoesOn<A>(p: seq<Option<A>>, q: seq<Option<A>>, limit: int, stop: A -> bool, acc: seq<A>)
    requires |p| > 1 && p[0].Some? && p[|p| - 1].Some?
    requires EndsWalk(acc + Somes(p), limit, stop)
    ensures Collect(p + q, limit, stop, acc) == acc + Somes(p)
    decreases |p|, 0
  {
    var a := p[0].value;
    var rest := p[1..];
    assert (p + q)[1..] == rest + q;
    assert (p + q)[0] == p[0];
    assert rest[|rest| - 1] == p[|p| - 1];
    SomesLast(rest);
    assert Somes(p) == [a] + Somes(rest);
    var all := acc + Somes(p);
    assert all == (acc + [a]) + Somes(rest);
    assert all[|acc|] == a;
    assert !stop(all[..|all| - 1][|acc|]);
    CollectStopped(rest, q, limit, stop, acc + [a]);
  }

  /** The parse of each line by `f`, in order. */
  function Parses<A>(lines: seq<string>, f: string -> Option<A>): (ps: seq<Option<A>>)
    ensures |ps| == |lines|
  {
    if lines == [] then []
    else Parses(lines[..|lines| - 1], f) + [f(lines[|lines| - 1])]
  }

  lemma {:induction false} ParsesAt<A>(lines: seq<string>, f: string -> Option<A>, i: nat)
    requires i < |lines|
    ensures Parses(lines, f)[i] == f(lines[i])
    decreases |lines|
  {
    if i < |lines| - 1 {
      ParsesAt(lines[..|lines| - 1], f, i);
    }
  }

  /** Two parsers that agree on every line give the same parses. */
  lemma ParsesAgree<A>(lines: seq<string>, f: string -> Option<A>, g: string -> Option<A>)
    requires forall i | 0 <= i < |lines| :: f(lines[i]) == g(lines[i])
    ensures Parses(lines, f) == Parses(lines, g)
  {
    forall i | 0 <= i < |lines|
      ensures Parses(lines, f)[i] == Parses(lines, g)[i]
    {
      ParsesAt(lines, f, i);
      ParsesAt(lines, g, i);
    }
  }

  lemma ParsesSnoc<A>(lines: seq<string>, l: string, f: string -> Option<A>)
    ensures Parses(lines + [l], f) == Parses(lines, f) + [f(l)]
  {
    assert (lines + [l])[..|lines|] == lines;
  }

  lemma {:induction false} ParsesPrefix<A>(a: seq<string>, b: seq<string>, f: string -> Option<A>)
    requires a <= b
    ensures Parses(a, f) <= Parses(b, f)
    decreases |b|
  {
    if |a| < |b| {
      assert a <= b[..|b| - 1];
      ParsesPrefix(a, b[..|b| - 1], f);
    } else {
      assert a == b;
    }
  }

  /**
   * The walk over the parses of `lines`, one line at a time: parse it, keep
   * the action if there is one, and stop once `limit` are kept or `stop`
   * holds of the one just kept.
   */
  method CollectLines<A(==)>(lines: seq<string>, f: string -> Option<A>, limit: int, stop: A -> bool)
    returns (acts: seq<A>)
    ensures acts == Collect(Parses(lines, f), limit, stop, [])
  {
    ghost var ps := Parses(lines, f);
    acts := [];
    var i := 0;
    while i < |lines|
      invariant 0 <= i <= |lines|
      invariant Collect(ps[i..], limit, stop, acts) == Collect(ps, limit, stop, [])
    {
      CollectLineStep(lines, f, limit, stop, i, acts);
      var maybe := f(lines[i]);
      if maybe.Some? {
        acts := acts + [maybe.value];
        if |acts| >= limit || stop(maybe.value) {
          return;
        }
      }
      i := i + 1;
    }
    assert ps[i..] == [];
  }

  /** One step of `CollectLines`: the walk from line `i` on, by the parse of line `i`. */
  lemma CollectLineStep<A>(lines: seq<string>, f: string -> Option<A>, limit: int, stop: A -> bool,
                               i: nat, acc: seq<A>)
    requires i < |lines|
    ensures var ps, m := Parses(lines, f), f(lines[i]);
      Collect(ps[i..], limit, stop, acc) ==
        if m.None? then Collect(ps[i + 1..], limit, stop, acc)
        else if |acc + [m.value]| >= limit || stop(m.value) then acc + [m.value]
        else Collect(ps[i + 1..], limit, stop, acc + [m.value])
  {
    var ps := Parses(lines, f);
    ParsesAt(lines, f, i);
    var t := ps[i..];
    assert t[0] == f(lines[i]);
    assert t[1..] == ps[i + 1..];
  }

  /** A prefix as long as the whole sequence is the sequence. */
  lemma TakeAll<T>(s: seq<T>)
    ensures s[..|s|] == s
  {
  }

  /** With a positive limit, nothing is collected exactly when no line parses. */
  lemma CollectNonEmptyIff<A>(lines: seq<string>, f: string -> Option<A>, limit: int, stop: A -> bool)
    ensures Collect(Parses(lines, f), limit, stop, []) != [] <==> exists i | 0 <= i < |lines| :: f(lines[i]).Some?
  {
    var ps := Parses(lines, f);
    CollectFirst(ps, limit, stop);
    SomesEmptyIff(ps);
    forall i | 0 <= i < |lines|
      ensures ps[i] == f(lines[i])
    {
      ParsesAt(lines, f, i);
    }
    if Collect(ps, limit, stop, []) != [] {
      var i :| 0 <= i < |ps| && ps[i].Some?;
      assert f(lines[i]).Some?;
    }
  }

  /** A walk that stops at the last parse of a prefix `p` of `ps` collects the actions of `p`. */
  lemma CollectStoppedPrefix<A>(p: seq<Option<A>>, ps: seq<Option<A>>, limit: int, stop: A -> bool)
    requires p <= ps && p != [] && p[|p| - 1].Some?
    requires EndsWalk(Somes(p), limit, stop)
    ensures Collect(ps, limit, stop, []) == Somes(p)
  {
    var q := ps[|p|..];
    assert p + q == ps;
    assert [] + Somes(p) == Somes(p);
    CollectStopped(p, q, limit, stop, []);
  }
}

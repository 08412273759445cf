// State merging of reverx/src/automata/Operations.java: the work-queue `merge`,
// the two-state overload that seeds it, and `replace_all`.
//
// States are arena indices (Automata), the representative map is a
// `map<nat, nat>` (StateMapping) and the work queue `pairs_to_merge` is a flat
// sequence of states read two at a time.
module Merging {
  import opened Wrappers
  import opened Automata
  import opened StateMapping
  import Determinization

  // ---------------------------------------------------------------------
  // Taking state1's transitions into state0
  // ---------------------------------------------------------------------

  /**
   * One transition `t1` of state1 meets state0's list `ts`. If state0 has an
   * equal symbol, the frequencies are added and the two destinations are
   * queued unless they coincide or form the pair being merged; otherwise `t1`
   * moves to state0. The second component is what is queued.
   */
  function AbsorbOne<T>(ts: seq<Transition<T>>, t1: Transition<T>, s0: nat, s1: nat, eq: (T, T) -> bool): (seq<Transition<T>>, seq<nat>)
  {
    match GetTransition(ts, t1.symbol, eq)
    case None => (ts + [t1], [])
    case Some(j) =>
      (ts[j := ts[j].(freq := ts[j].freq + t1.freq)],
       if ts[j].dest != t1.dest && !SamePairOfStates(s0, s1, ts[j].dest, t1.dest) then [ts[j].dest, t1.dest] else [])
  }

  /** State1's transitions taken one by one, in list order. */
  function Absorb<T>(ts0: seq<Transition<T>>, ts1: seq<Transition<T>>, s0: nat, s1: nat, eq: (T, T) -> bool): (seq<Transition<T>>, seq<nat>)
    decreases |ts1|
  {
    if ts1 == [] then (ts0, [])
    else
      var p := Absorb(ts0, ts1[..|ts1| - 1], s0, s1, eq);
      var q := AbsorbOne(p.0, ts1[|ts1| - 1], s0, s1, eq);
      (q.0, p.1 + q.1)
  }

  /** The `for (Transition t1 : state1)` loop of `merge`. */
  method AbsorbTransitions<T>(ts0: seq<Transition<T>>, ts1: seq<Transition<T>>, s0: nat, s1: nat, eq: (T, T) -> bool)
    returns (ts: seq<Transition<T>>, pushed: seq<nat>)
    ensures (ts, pushed) == Absorb(ts0, ts1, s0, s1, eq)
  {
    ts, pushed := ts0, [];
    for k := 0 to |ts1|
      invariant (ts, pushed) == Absorb(ts0, ts1[..k], s0, s1, eq)
    {
      assert ts1[..k + 1][..k] == ts1[..k] && ts1[..k + 1][k] == ts1[k];
      var more;
      ts, more := AbsorbTransition(ts, ts1[k], s0, s1, eq);
      pushed := pushed + more;
    }
    assert ts1[..|ts1|] == ts1;
  }

  /** One pass of the loop over `state1`'s transitions. */
  method AbsorbTransition<T>(ts: seq<Transition<T>>, t1: Transition<T>, s0: nat, s1: nat, eq: (T, T) -> bool)
    returns (ts': seq<Transition<T>>, pushed: seq<nat>)
    ensures (ts', pushed) == AbsorbOne(ts, t1, s0, s1, eq)
  {
    pushed := [];
    match GetTransition(ts, t1.symbol, eq)
    case Some(j) =>
      var t0 := ts[j];
      ts' := ts[j := t0.(freq := t0.freq + t1.freq)];
      if t0.dest != t1.dest && !SamePairOfStates(s0, s1, t0.dest, t1.dest) {
        pushed := [t0.dest, t1.dest];
      }
    case None =>
      ts' := ts + [t1];
  }

  lemma AbsorbOneFreq<T>(ts: seq<Transition<T>>, t1: Transition<T>, s0: nat, s1: nat, eq: (T, T) -> bool)
    ensures SumFreq(AbsorbOne(ts, t1, s0, s1, eq).0) == SumFreq(ts) + t1.freq
  {
    match GetTransition(ts, t1.symbol, eq)
    case None =>
      SumFreqAppend(ts, [t1]);
    case Some(j) =>
      SumFreqUpdate(ts, j, ts[j].(freq := ts[j].freq + t1.freq));
  }

  /** No frequency is lost or invented: state0 ends with the sum of both states' frequencies. */
  lemma {:induction false} AbsorbFreq<T>(ts0: seq<Transition<T>>, ts1: seq<Transition<T>>, s0: nat, s1: nat, eq: (T, T) -> bool)
    ensures SumFreq(Absorb(ts0, ts1, s0, s1, eq).0) == SumFreq(ts0) + SumFreq(ts1)
    decreases |ts1|
  {
    if ts1 != [] {
      var n := |ts1| - 1;
      AbsorbFreq(ts0, ts1[..n], s0, s1, eq);
      AbsorbOneFreq(Absorb(ts0, ts1[..n], s0, s1, eq).0, ts1[n], s0, s1, eq);
      SumFreqAppend(ts1[..n], [ts1[n]]);
      assert ts1[..n] + [ts1[n]] == ts1;
    }
  }

  /** Some transition of `ts` carries a symbol equal to `x` (`getTransition(x) != null`). */
  predicate Defines<T>(ts: seq<Transition<T>>, x: T, eq: (T, T) -> bool)
  {
    exists k :: 0 <= k < |ts| && eq(ts[k].symbol, x)
  }

  lemma AbsorbOneDefines<T(!new)>(ts: seq<Transition<T>>, t1: Transition<T>, s0: nat, s1: nat, eq: (T, T) -> bool, x: T)
    requires Determinization.Equivalence(eq)
    ensures Defines(AbsorbOne(ts, t1, s0, s1, eq).0, x, eq) <==> Defines(ts, x, eq) || eq(t1.symbol, x)
  {
    var r := AbsorbOne(ts, t1, s0, s1, eq).0;
    match GetTransition(ts, t1.symbol, eq)
    case None =>
      if eq(t1.symbol, x) {
        assert r[|ts|] == t1;
      }
      if Defines(r, x, eq) {
        var k :| 0 <= k < |r| && eq(r[k].symbol, x);
        if k < |ts| {
          assert r[k] == ts[k];
        }
      }
      if Defines(ts, x, eq) {
        var k :| 0 <= k < |ts| && eq(ts[k].symbol, x);
        assert r[k] == ts[k];
      }
    case Some(j) =>
      assert forall k :: 0 <= k < |ts| ==> r[k].symbol == ts[k].symbol;
      if eq(t1.symbol, x) {
        Determinization.EqTrans(eq, ts[j].symbol, t1.symbol, x);
      }
  }

  /** State0 ends up defining exactly the symbols that state0 or state1 defined. */
  lemma {:induction false} AbsorbDefines<T(!new)>(ts0: seq<Transition<T>>, ts1: seq<Transition<T>>, s0: nat, s1: nat, eq: (T, T) -> bool, x: T)
    requires Determinization.Equivalence(eq)
    ensures Defines(Absorb(ts0, ts1, s0, s1, eq).0, x, eq) <==> Defines(ts0, x, eq) || Defines(ts1, x, eq)
    decreases |ts1|
  {
    if ts1 != [] {
      var n := |ts1| - 1;
      AbsorbDefines(ts0, ts1[..n], s0, s1, eq, x);
      AbsorbOneDefines(Absorb(ts0, ts1[..n], s0, s1, eq).0, ts1[n], s0, s1, eq, x);
      if Defines(ts1, x, eq) {
        var k :| 0 <= k < |ts1| && eq(ts1[k].symbol, x);
        if k < n {
          assert ts1[..n][k] == ts1[k];
        }
      }
      if Defines(ts1[..n], x, eq) {
        var k :| 0 <= k < n && eq(ts1[..n][k].symbol, x);
        assert ts1[k] == ts1[..n][k];
      }
    }
  }

  /** The states `0 .. n-1`. */
  function Below(n: nat): set<nat>
  {
    if n == 0 then {} else Below(n - 1) + {n - 1}
  }

  lemma {:induction false} BelowMembers(n: nat)
    ensures forall x: nat :: x in Below(n) <==> x < n
  {
    if n > 0 {
      BelowMembers(n - 1);
      assert Below(n) == Below(n - 1) + {n - 1};
    }
  }

  /** Every destination in `ts` belongs to `S`. */
  predicate LeadsInto<T>(ts: seq<Transition<T>>, S: set<nat>)
  {
    forall k :: 0 <= k < |ts| ==> ts[k].dest in S
  }

  /** Pushed states and the destinations of the merged list come from the two states' destinations; pairs are pushed whole. */
  lemma {:induction false} AbsorbDests<T>(ts0: seq<Transition<T>>, ts1: seq<Transition<T>>, s0: nat, s1: nat, eq: (T, T) -> bool, S: set<nat>)
    requires LeadsInto(ts0, S) && LeadsInto(ts1, S)
    ensures LeadsInto(Absorb(ts0, ts1, s0, s1, eq).0, S)
    ensures forall k :: 0 <= k < |Absorb(ts0, ts1, s0, s1, eq).1| ==> Absorb(ts0, ts1, s0, s1, eq).1[k] in S
    ensures |Absorb(ts0, ts1, s0, s1, eq).1| % 2 == 0
    decreases |ts1|
  {
    if ts1 != [] {
      var n := |ts1| - 1;
      assert LeadsInto(ts1[..n], S) by {
        forall k | 0 <= k < n ensures ts1[..n][k].dest in S {
          assert ts1[..n][k] == ts1[k];
        }
      }
      AbsorbDests(ts0, ts1[..n], s0, s1, eq, S);
      var p := Absorb(ts0, ts1[..n], s0, s1, eq);
      var t1 := ts1[n];
      assert t1.dest in S;
      match GetTransition(p.0, t1.symbol, eq)
      case None =>
        assert LeadsInto(p.0 + [t1], S);
      case Some(j) =>
        assert p.0[j].dest in S;
        assert LeadsInto(p.0[j := p.0[j].(freq := p.0[j].freq + t1.freq)], S);
    }
  }

  // ---------------------------------------------------------------------
  // replace_all
  // ---------------------------------------------------------------------

  /** A reference to `s` becomes a reference to `r`. */
  function Redirected(x: nat, s: nat, r: nat): nat
  {
    if x == s then r else x
  }

  /** The transition list after `t._dest_state = replace_with` on every transition into `s`. */
  function Redirect<T>(ts: seq<Transition<T>>, s: nat, r: nat): seq<Transition<T>>
  {
    seq(|ts|, k requires 0 <= k < |ts| => ts[k].(dest := Redirected(ts[k].dest, s, r)))
  }

  /** The list after `iter.set(replace_with)` at every entry `s`. */
  function Replace(list: seq<nat>, s: nat, r: nat): seq<nat>
  {
    seq(|list|, i requires 0 <= i < |list| => Redirected(list[i], s, r))
  }

  /** The arena after redirecting the transitions of every listed state other than `s`. */
  function RedirectListed<T>(a: Arena<T>, list: seq<nat>, s: nat, r: nat): Arena<T>
  {
    seq(|a|, x requires 0 <= x < |a| =>
      if x in list && x != s then a[x].(transitions := Redirect(a[x].transitions, s, r)) else a[x])
  }

  /** The inner loop of `replace_all` over one state's transitions. */
  method RedirectTransitions<T>(ts: seq<Transition<T>>, s: nat, r: nat) returns (us: seq<Transition<T>>)
    ensures us == Redirect(ts, s, r)
  {
    us := ts;
    for k := 0 to |ts|
      invariant |us| == |ts|
      invariant forall i :: 0 <= i < k ==> us[i] == ts[i].(dest := Redirected(ts[i].dest, s, r))
      invariant forall i :: k <= i < |ts| ==> us[i] == ts[i]
    {
      if us[k].dest == s {
        us := us[k := us[k].(dest := r)];
      }
    }
  }

  /**
   * `replace_all(list, search_for, replace_with, replace_in_transitions)`:
   * every entry `search_for` becomes `replace_with`; with the flag, each other
   * listed state (once, through `visited`) has its transitions redirected.
   */
  method ReplaceAll<T>(list: seq<nat>, a: Arena<T>, searchFor: nat, replaceWith: nat, inTransitions: bool)
    returns (list': seq<nat>, a': Arena<T>)
    requires inTransitions ==> InArena(list, a)
    ensures list' == Replace(list, searchFor, replaceWith)
    ensures a' == if inTransitions then RedirectListed(a, list, searchFor, replaceWith) else a
  {
    var visited: set<nat> := {};
    list', a' := list, a;
    for i := 0 to |list|
      invariant |list'| == |list| && |a'| == |a|
      invariant forall k :: 0 <= k < i ==> list'[k] == Redirected(list[k], searchFor, replaceWith)
      invariant forall k :: i <= k < |list| ==> list'[k] == list[k]
      invariant forall x :: x in visited <==> inTransitions && x in list[..i] && x != searchFor
      invariant forall x :: 0 <= x < |a| ==>
        a'[x] == if x in visited then a[x].(transitions := Redirect(a[x].transitions, searchFor, replaceWith)) else a[x]
    {
      assert list[..i + 1] == list[..i] + [list[i]];
      var s := list'[i];
      if s == searchFor {
        list' := list'[i := replaceWith];
      } else if inTransitions && s !in visited {
        visited := visited + {s};
        var ts := RedirectTransitions(a'[s].transitions, searchFor, replaceWith);
        a' := a'[s := a'[s].(transitions := ts)];
      }
    }
    assert list[..|list|] == list;
  }

  lemma RedirectFreq<T>(ts: seq<Transition<T>>, s: nat, r: nat)
    ensures SumFreq(Redirect(ts, s, r)) == SumFreq(ts)
  {
    if ts != [] {
      assert Redirect(ts, s, r)[1..] == Redirect(ts[1..], s, r);
      RedirectFreq(ts[1..], s, r);
    }
  }

  lemma RedirectDefines<T>(ts: seq<Transition<T>>, s: nat, r: nat, x: T, eq: (T, T) -> bool)
    ensures Defines(Redirect(ts, s, r), x, eq) <==> Defines(ts, x, eq)
  {
    if Defines(ts, x, eq) {
      var k :| 0 <= k < |ts| && eq(ts[k].symbol, x);
      assert Redirect(ts, s, r)[k].symbol == ts[k].symbol;
    }
  }

  /** What a replaced list holds: the old entries other than `s`, and `r` where `s` was. */
  lemma ReplaceMembers(list: seq<nat>, s: nat, r: nat)
    ensures forall x :: x in list ==> Redirected(x, s, r) in Replace(list, s, r)
    ensures forall y :: y in Replace(list, s, r) ==> y == r || (y in list && y != s)
  {
    var l' := Replace(list, s, r);
    forall x | x in list ensures Redirected(x, s, r) in l' {
      var i :| 0 <= i < |list| && list[i] == x;
      assert l'[i] == Redirected(x, s, r);
    }
  }

  // ---------------------------------------------------------------------
  // One pass of the work queue
  // ---------------------------------------------------------------------

  /** The automaton fields that `merge` rewrites, with the work queue. */
  datatype Snapshot<T> = Snapshot(states: Arena<T>, initial: nat, allStates: seq<nat>, queue: seq<nat>)

  /**
   * One productive pass of the `merge` loop on the representatives `s0` and
   * `s1`, once the pair has been taken off the queue.
   */
  function Step<T>(g: Snapshot<T>, s0: nat, s1: nat, eq: (T, T) -> bool): Snapshot<T>
    requires s0 < |g.states| && s1 < |g.states|
  {
    var a := g.states;
    var p := Absorb(a[s0].transitions, a[s1].transitions, s0, s1, eq);
    var merged := StateRec(a[s0].isFinal || a[s1].isFinal, p.0, if a[s0].id < a[s1].id then a[s0].id else a[s1].id);
    Snapshot(RedirectListed(a[s0 := merged], g.allStates, s1, s0),
             Redirected(g.initial, s1, s0),
             Replace(g.allStates, s1, s0),
             Replace(g.queue + p.1, s1, s0))
  }

  /**
   * What holds between passes: the listed states are representatives, the
   * initial state is listed, transitions of listed states lead to listed
   * states, and every queued state's representative is listed.
   */
  ghost predicate Canonical<T>(g: Snapshot<T>, m: map<nat, nat>, stamp: map<nat, nat>, clock: nat)
  {
    Ranked(m, stamp, clock) &&
    g.initial < |g.states| && Closed(g.states) && InArena(g.allStates, g.states) &&
    g.initial in g.allStates &&
    (forall x :: x in g.allStates ==>
       x < |g.states| && !Mapped(m, x) && LeadsInto(g.states[x].transitions, set y | y in g.allStates)) &&
    |g.queue| % 2 == 0 &&
    (forall k :: 0 <= k < |g.queue| ==> Root(m, stamp, clock, g.queue[k]) in g.allStates)
  }

  /** Finality is the OR, the id the minimum, and the frequencies add up. */
  lemma StepMerged<T(!new)>(g: Snapshot<T>, s0: nat, s1: nat, eq: (T, T) -> bool, x: T)
    requires Determinization.Equivalence(eq)
    requires s0 < |g.states| && s1 < |g.states| && s0 != s1
    ensures var r := Step(g, s0, s1, eq).states[s0];
      && r.isFinal == (g.states[s0].isFinal || g.states[s1].isFinal)
      && r.id == (if g.states[s0].id < g.states[s1].id then g.states[s0].id else g.states[s1].id)
      && SumFreq(r.transitions) == SumFreq(g.states[s0].transitions) + SumFreq(g.states[s1].transitions)
      && (Defines(r.transitions, x, eq) <==> Defines(g.states[s0].transitions, x, eq) || Defines(g.states[s1].transitions, x, eq))
  {
    var a := g.states;
    var ts := Absorb(a[s0].transitions, a[s1].transitions, s0, s1, eq).0;
    AbsorbFreq(a[s0].transitions, a[s1].transitions, s0, s1, eq);
    AbsorbDefines(a[s0].transitions, a[s1].transitions, s0, s1, eq, x);
    RedirectFreq(ts, s1, s0);
    RedirectDefines(ts, s1, s0, x, eq);
  }

  /** Every other state keeps its finality, id and frequencies. */
  lemma StepOthers<T>(g: Snapshot<T>, s0: nat, s1: nat, eq: (T, T) -> bool, y: nat)
    requires s0 < |g.states| && s1 < |g.states| && y < |g.states| && y != s0
    ensures var r := Step(g, s0, s1, eq).states[y];
      r.isFinal == g.states[y].isFinal && r.id == g.states[y].id &&
      SumFreq(r.transitions) == SumFreq(g.states[y].transitions)
  {
    RedirectFreq(g.states[y].transitions, s1, s0);
  }

  /** After the pass nothing the automaton lists, points to or queues names `state1`. */
  lemma StepNoReferences<T>(g: Snapshot<T>, s0: nat, s1: nat, eq: (T, T) -> bool)
    requires s0 < |g.states| && s1 < |g.states| && s0 != s1 && s0 in g.allStates
    ensures var g' := Step(g, s0, s1, eq);
      && g'.initial != s1 && s1 !in g'.allStates && s1 !in g'.queue
      && forall y, k :: y in g'.allStates && y < |g'.states| && 0 <= k < |g'.states[y].transitions| ==>
           g'.states[y].transitions[k].dest != s1
  {
    var g' := Step(g, s0, s1, eq);
    ReplaceMembers(g.allStates, s1, s0);
    ReplaceMembers(g.queue + Absorb(g.states[s0].transitions, g.states[s1].transitions, s0, s1, eq).1, s1, s0);
    forall y, k | y in g'.allStates && y < |g'.states| && 0 <= k < |g'.states[y].transitions|
      ensures g'.states[y].transitions[k].dest != s1
    {
      assert y in g.allStates && y != s1;
    }
  }

  lemma StepClosed<T>(g: Snapshot<T>, m: map<nat, nat>, stamp: map<nat, nat>, clock: nat, s0: nat, s1: nat, eq: (T, T) -> bool)
    requires Canonical(g, m, stamp, clock) && s0 in g.allStates && s1 in g.allStates && s0 != s1
    ensures Closed(Step(g, s0, s1, eq).states)
  {
    var a := g.states;
    var p := Absorb(a[s0].transitions, a[s1].transitions, s0, s1, eq);
    var merged := StateRec(a[s0].isFinal || a[s1].isFinal, p.0, if a[s0].id < a[s1].id then a[s0].id else a[s1].id);
    var a1 := a[s0 := merged];
    assert Closed(a1) by {
      var N := Below(|a|);
      BelowMembers(|a|);
      assert LeadsInto(a[s0].transitions, N) && LeadsInto(a[s1].transitions, N);
      AbsorbDests(a[s0].transitions, a[s1].transitions, s0, s1, eq, N);
      forall y, k | 0 <= y < |a1| && 0 <= k < |a1[y].transitions| ensures a1[y].transitions[k].dest < |a1| {
        if y == s0 {
          assert a1[y].transitions[k].dest in N;
        }
      }
    }
    RedirectListedClosed(a1, g.allStates, s1, s0);
  }

  /** Redirecting into a state of the arena keeps the arena closed. */
  lemma RedirectListedClosed<T>(a: Arena<T>, list: seq<nat>, s: nat, r: nat)
    requires Closed(a) && r < |a|
    ensures Closed(RedirectListed(a, list, s, r))
  {
    var a' := RedirectListed(a, list, s, r);
    forall y, k | 0 <= y < |a'| && 0 <= k < |a'[y].transitions| ensures a'[y].transitions[k].dest < |a'| {
      if y in list && y != s {
        assert a'[y].transitions[k] == a[y].transitions[k].(dest := Redirected(a[y].transitions[k].dest, s, r));
      }
    }
  }

  lemma StepListed<T>(g: Snapshot<T>, m: map<nat, nat>, stamp: map<nat, nat>, clock: nat, s0: nat, s1: nat, eq: (T, T) -> bool)
    requires Canonical(g, m, stamp, clock) && s0 in g.allStates && s1 in g.allStates && s0 != s1
    ensures var g' := Step(g, s0, s1, eq);
      forall y :: y in g'.allStates ==>
        y < |g'.states| && !Mapped(m[s1 := s0], y) && LeadsInto(g'.states[y].transitions, set z | z in g'.allStates)
  {
    var a := g.states;
    var g' := Step(g, s0, s1, eq);
    var L := set z | z in g.allStates;
    var L' := set z | z in g'.allStates;
    ReplaceMembers(g.allStates, s1, s0);
    AbsorbDests(a[s0].transitions, a[s1].transitions, s0, s1, eq, L);
    var ts := Absorb(a[s0].transitions, a[s1].transitions, s0, s1, eq).0;
    forall y | y in g'.allStates
      ensures y < |g'.states| && !Mapped(m[s1 := s0], y) && LeadsInto(g'.states[y].transitions, L')
    {
      assert y in g.allStates && y != s1;
      var us := if y == s0 then ts else a[y].transitions;
      assert LeadsInto(us, L);
      assert g'.states[y].transitions == Redirect(us, s1, s0);
      forall k | 0 <= k < |us| ensures Redirected(us[k].dest, s1, s0) in L' {
        assert us[k].dest in g.allStates;
      }
    }
  }

  /** A queued state keeps a listed representative across a pass. */
  lemma QueueEntry(m: map<nat, nat>, stamp: map<nat, nat>, clock: nat, list: seq<nat>, s0: nat, s1: nat, w: nat)
    requires Ranked(m, stamp, clock) && !Mapped(m, s0) && !Mapped(m, s1) && s0 != s1 && s0 in list
    requires Root(m, stamp, clock, w) in list
    ensures Ranked(m[s1 := s0], stamp[s1 := clock], clock + 1)
    ensures Root(m[s1 := s0], stamp[s1 := clock], clock + 1, Redirected(w, s1, s0)) in Replace(list, s1, s0)
  {
    PutRoot(m, stamp, clock, s1, s0, Redirected(w, s1, s0));
    RootFixed(m, stamp, clock, s0);
    ReplaceMembers(list, s1, s0);
  }

  /** A queue whose representatives are listed keeps that property once replaced. */
  lemma QueueReplaced(m: map<nat, nat>, stamp: map<nat, nat>, clock: nat, list: seq<nat>, q: seq<nat>, s0: nat, s1: nat)
    requires Ranked(m, stamp, clock) && !Mapped(m, s0) && !Mapped(m, s1) && s0 != s1 && s0 in list
    requires forall k :: 0 <= k < |q| ==> Root(m, stamp, clock, q[k]) in list
    ensures Ranked(m[s1 := s0], stamp[s1 := clock], clock + 1)
    ensures forall k :: 0 <= k < |q| ==>
      Root(m[s1 := s0], stamp[s1 := clock], clock + 1, Replace(q, s1, s0)[k]) in Replace(list, s1, s0)
  {
    PutRanked(m, stamp, clock, s1, s0);
    forall k | 0 <= k < |q|
      ensures Root(m[s1 := s0], stamp[s1 := clock], clock + 1, Replace(q, s1, s0)[k]) in Replace(list, s1, s0)
    {
      QueueEntry(m, stamp, clock, list, s0, s1, q[k]);
    }
  }

  lemma StepQueue<T>(g: Snapshot<T>, m: map<nat, nat>, stamp: map<nat, nat>, clock: nat, s0: nat, s1: nat, eq: (T, T) -> bool)
    requires Canonical(g, m, stamp, clock) && s0 in g.allStates && s1 in g.allStates && s0 != s1
    ensures Ranked(m[s1 := s0], stamp[s1 := clock], clock + 1)
    ensures var g' := Step(g, s0, s1, eq);
      |g'.queue| % 2 == 0 &&
      forall k :: 0 <= k < |g'.queue| ==> Root(m[s1 := s0], stamp[s1 := clock], clock + 1, g'.queue[k]) in g'.allStates
  {
    var a := g.states;
    var L := set z | z in g.allStates;
    var pushed := Absorb(a[s0].transitions, a[s1].transitions, s0, s1, eq).1;
    assert |pushed| % 2 == 0 && forall j :: 0 <= j < |pushed| ==> pushed[j] in L by {
      assert LeadsInto(a[s0].transitions, L) && LeadsInto(a[s1].transitions, L);
      AbsorbDests(a[s0].transitions, a[s1].transitions, s0, s1, eq, L);
    }
    var q := g.queue + pushed;
    assert |q| % 2 == 0 by {
      assert |q| == |g.queue| + |pushed|;
    }
    assert forall k :: 0 <= k < |q| ==> Root(m, stamp, clock, q[k]) in g.allStates by {
      forall k | 0 <= k < |q| ensures Root(m, stamp, clock, q[k]) in g.allStates {
        if k >= |g.queue| {
          assert q[k] == pushed[k - |g.queue|];
          RootFixed(m, stamp, clock, q[k]);
        }
      }
    }
    QueueReplaced(m, stamp, clock, g.allStates, q, s0, s1);
    assert Step(g, s0, s1, eq).queue == Replace(q, s1, s0);
    assert Step(g, s0, s1, eq).allStates == Replace(g.allStates, s1, s0);
  }

  /** A productive pass keeps the automaton canonical for the extended map. */
  lemma StepCanonical<T>(g: Snapshot<T>, m: map<nat, nat>, stamp: map<nat, nat>, clock: nat, s0: nat, s1: nat, eq: (T, T) -> bool)
    requires Canonical(g, m, stamp, clock) && s0 in g.allStates && s1 in g.allStates && s0 != s1
    ensures Canonical(Step(g, s0, s1, eq), m[s1 := s0], stamp[s1 := clock], clock + 1)
  {
    var g' := Step(g, s0, s1, eq);
    StepClosed(g, m, stamp, clock, s0, s1, eq);
    StepListed(g, m, stamp, clock, s0, s1, eq);
    StepQueue(g, m, stamp, clock, s0, s1, eq);
    ReplaceMembers(g.allStates, s1, s0);
    assert InArena(g'.allStates, g'.states) by {
      forall j | 0 <= j < |g'.allStates| ensures g'.allStates[j] < |g'.states| {
        assert g'.allStates[j] in g'.allStates;
      }
    }
  }

  /** The representatives among the states `0 .. n-1`; each productive pass removes one. */
  ghost function Reps(m: map<nat, nat>, n: nat): set<nat>
  {
    set x | x in Below(n) && !Mapped(m, x)
  }

  /** After `put(state1, state0)` every representative is redirected, and one representative fewer remains. */
  lemma PutRoots(m: map<nat, nat>, stamp: map<nat, nat>, clock: nat, s1: nat, s0: nat, n: nat)
    requires Ranked(m, stamp, clock) && !Mapped(m, s1) && !Mapped(m, s0) && s1 != s0 && s1 < n
    ensures Ranked(m[s1 := s0], stamp[s1 := clock], clock + 1)
    ensures forall x :: Root(m[s1 := s0], stamp[s1 := clock], clock + 1, x) == Redirected(Root(m, stamp, clock, x), s1, s0)
    ensures Reps(m[s1 := s0], n) < Reps(m, n)
  {
    PutRanked(m, stamp, clock, s1, s0);
    forall x ensures Root(m[s1 := s0], stamp[s1 := clock], clock + 1, x) == Redirected(Root(m, stamp, clock, x), s1, s0) {
      PutRoot(m, stamp, clock, s1, s0, x);
    }
    BelowMembers(n);
    assert s1 in Reps(m, n) && s1 !in Reps(m[s1 := s0], n);
    forall x | x in Reps(m[s1 := s0], n) ensures x in Reps(m, n) {
      assert x != s1;
    }
  }

  /** One productive pass on the automaton's fields and the rest of the queue. */
  method MergeOne<T>(a: Arena<T>, initial: nat, allStates: seq<nat>, rest: seq<nat>, s0: nat, s1: nat, eq: (T, T) -> bool)
    returns (a': Arena<T>, initial': nat, allStates': seq<nat>, queue: seq<nat>)
    requires InArena(allStates, a) && s0 < |a| && s1 < |a| && s0 != s1
    ensures Snapshot(a', initial', allStates', queue) == Step(Snapshot(a, initial, allStates, rest), s0, s1, eq)
  {
    var ts, pushed := AbsorbTransitions(a[s0].transitions, a[s1].transitions, s0, s1, eq);
    var merged := StateRec(a[s0].isFinal || a[s1].isFinal, ts, if a[s0].id < a[s1].id then a[s0].id else a[s1].id);
    a' := a[s0 := merged];
    queue := rest + pushed;
    initial' := initial;
    if initial' == s1 {
      initial' := s0;
    }
    allStates', a' := ReplaceAll(allStates, a', s1, s0, true);
    var arena;
    queue, arena := ReplaceAll(queue, a', s1, s0, false);
  }

  /** Every representative under `m0` is mapped by `m` to the representative it gives its members. */
  ghost predicate Coarser(m: map<nat, nat>, stamp: map<nat, nat>, clock: nat, m0: map<nat, nat>, stamp0: map<nat, nat>, clock0: nat)
  {
    Ranked(m, stamp, clock) && Ranked(m0, stamp0, clock0) &&
    forall x :: Root(m, stamp, clock, x) == Root(m, stamp, clock, Root(m0, stamp0, clock0, x))
  }

  /** The first `done` pairs of the original queue have one representative each. */
  ghost predicate JoinedUpTo(m: map<nat, nat>, stamp: map<nat, nat>, clock: nat, queue0: seq<nat>, done: nat)
  {
    Ranked(m, stamp, clock) &&
    forall k :: 0 <= k < 2 * done && k % 2 == 0 ==>
      k + 1 < |queue0| && Root(m, stamp, clock, queue0[k]) == Root(m, stamp, clock, queue0[k + 1])
  }

  /** The remaining original pairs sit at the front of the queue, with the same representatives. */
  ghost predicate PendingAt(m: map<nat, nat>, stamp: map<nat, nat>, clock: nat, queue0: seq<nat>, queue: seq<nat>, done: nat)
  {
    Ranked(m, stamp, clock) &&
    |queue0| % 2 == 0 && 2 * done <= |queue0| && |queue0| - 2 * done <= |queue| &&
    forall k :: 2 * done <= k < |queue0| ==>
      Root(m, stamp, clock, queue[k - 2 * done]) == Root(m, stamp, clock, queue0[k])
  }

  ghost predicate Tracked(m: map<nat, nat>, stamp: map<nat, nat>, clock: nat, queue0: seq<nat>, queue: seq<nat>, done: nat)
  {
    JoinedUpTo(m, stamp, clock, queue0, done) && PendingAt(m, stamp, clock, queue0, queue, done)
  }

  /** Done with the original pairs: the next one counts as processed. */
  function Advance(queue0: seq<nat>, done: nat): nat
  {
    if 2 * done < |queue0| then done + 1 else done
  }

  /** Taking off a pair that already has one representative. */
  lemma TrackedSkip(m: map<nat, nat>, stamp: map<nat, nat>, clock: nat, queue0: seq<nat>, queue: seq<nat>, done: nat)
    requires Tracked(m, stamp, clock, queue0, queue, done) && |queue| >= 2
    requires Root(m, stamp, clock, queue[0]) == Root(m, stamp, clock, queue[1])
    ensures Tracked(m, stamp, clock, queue0, queue[2..], Advance(queue0, done))
  {
    JoinedSkip(m, stamp, clock, queue0, queue, done);
    PendingSkip(m, stamp, clock, queue0, queue, done);
  }

  lemma JoinedSkip(m: map<nat, nat>, stamp: map<nat, nat>, clock: nat, queue0: seq<nat>, queue: seq<nat>, done: nat)
    requires Tracked(m, stamp, clock, queue0, queue, done) && |queue| >= 2
    requires Root(m, stamp, clock, queue[0]) == Root(m, stamp, clock, queue[1])
    ensures JoinedUpTo(m, stamp, clock, queue0, Advance(queue0, done))
  {
    var d' := Advance(queue0, done);
    forall k | 0 <= k < 2 * d' && k % 2 == 0
      ensures k + 1 < |queue0| && Root(m, stamp, clock, queue0[k]) == Root(m, stamp, clock, queue0[k + 1])
    {
      if k >= 2 * done {
        assert k == 2 * done && k + 1 < |queue0|;
        assert Root(m, stamp, clock, queue[k - 2 * done]) == Root(m, stamp, clock, queue0[k]);
        assert Root(m, stamp, clock, queue[k + 1 - 2 * done]) == Root(m, stamp, clock, queue0[k + 1]);
      }
    }
  }

  lemma PendingSkip(m: map<nat, nat>, stamp: map<nat, nat>, clock: nat, queue0: seq<nat>, queue: seq<nat>, done: nat)
    requires PendingAt(m, stamp, clock, queue0, queue, done) && |queue| >= 2
    ensures PendingAt(m, stamp, clock, queue0, queue[2..], Advance(queue0, done))
  {
    var d' := Advance(queue0, done);
    forall k | 2 * d' <= k < |queue0|
      ensures Root(m, stamp, clock, queue[2..][k - 2 * d']) == Root(m, stamp, clock, queue0[k])
    {
      assert queue[2..][k - 2 * d'] == queue[k - 2 * done];
    }
  }

  /** Redirecting a state leaves its new representative where the put sends its old one. */
  lemma RootRedirected(m: map<nat, nat>, stamp: map<nat, nat>, clock: nat, s1: nat, s0: nat, w: nat)
    requires Ranked(m, stamp, clock) && !Mapped(m, s1) && !Mapped(m, s0) && s1 != s0
    ensures Ranked(m[s1 := s0], stamp[s1 := clock], clock + 1)
    ensures Root(m[s1 := s0], stamp[s1 := clock], clock + 1, Redirected(w, s1, s0))
         == Redirected(Root(m, stamp, clock, w), s1, s0)
  {
    PutRoot(m, stamp, clock, s1, s0, w);
    PutRoot(m, stamp, clock, s1, s0, s0);
    RootFixed(m, stamp, clock, s0);
    RootFixed(m, stamp, clock, s1);
  }

  lemma JoinedMerge(m: map<nat, nat>, stamp: map<nat, nat>, clock: nat, queue0: seq<nat>, queue: seq<nat>, done: nat,
                    s0: nat, s1: nat)
    requires Tracked(m, stamp, clock, queue0, queue, done) && |queue| >= 2
    requires !Mapped(m, s1) && !Mapped(m, s0) && s1 != s0
    requires Root(m, stamp, clock, queue[0]) == s0 && Root(m, stamp, clock, queue[1]) == s1
    ensures JoinedUpTo(m[s1 := s0], stamp[s1 := clock], clock + 1, queue0, Advance(queue0, done))
  {
    PutRanked(m, stamp, clock, s1, s0);
    var d' := Advance(queue0, done);
    forall k | 0 <= k < 2 * d' && k % 2 == 0
      ensures k + 1 < |queue0| && Root(m[s1 := s0], stamp[s1 := clock], clock + 1, queue0[k])
                               == Root(m[s1 := s0], stamp[s1 := clock], clock + 1, queue0[k + 1])
    {
      PutRoot(m, stamp, clock, s1, s0, queue0[k]);
      PutRoot(m, stamp, clock, s1, s0, queue0[k + 1]);
      if k == 2 * done {
        assert queue[k - 2 * done] == queue[0] && queue[k + 1 - 2 * done] == queue[1];
      }
    }
  }

  lemma PendingMerge(m: map<nat, nat>, stamp: map<nat, nat>, clock: nat, queue0: seq<nat>, queue: seq<nat>, done: nat,
                     s0: nat, s1: nat, pushed: seq<nat>)
    requires PendingAt(m, stamp, clock, queue0, queue, done) && |queue| >= 2
    requires !Mapped(m, s1) && !Mapped(m, s0) && s1 != s0
    ensures PendingAt(m[s1 := s0], stamp[s1 := clock], clock + 1, queue0, Replace(queue[2..] + pushed, s1, s0), Advance(queue0, done))
  {
    PutRanked(m, stamp, clock, s1, s0);
    var d' := Advance(queue0, done);
    var q' := Replace(queue[2..] + pushed, s1, s0);
    forall k | 2 * d' <= k < |queue0|
      ensures Root(m[s1 := s0], stamp[s1 := clock], clock + 1, q'[k - 2 * d'])
           == Root(m[s1 := s0], stamp[s1 := clock], clock + 1, queue0[k])
    {
      assert (queue[2..] + pushed)[k - 2 * d'] == queue[k - 2 * done];
      RootRedirected(m, stamp, clock, s1, s0, queue[k - 2 * done]);
      PutRoot(m, stamp, clock, s1, s0, queue0[k]);
    }
  }

  /** A productive pass joins the pair at the front and keeps the rest tracked. */
  lemma TrackedMerge(m: map<nat, nat>, stamp: map<nat, nat>, clock: nat, queue0: seq<nat>, queue: seq<nat>, done: nat,
                     s0: nat, s1: nat, pushed: seq<nat>)
    requires Tracked(m, stamp, clock, queue0, queue, done) && |queue| >= 2
    requires !Mapped(m, s1) && !Mapped(m, s0) && s1 != s0
    requires Root(m, stamp, clock, queue[0]) == s0 && Root(m, stamp, clock, queue[1]) == s1
    ensures Tracked(m[s1 := s0], stamp[s1 := clock], clock + 1, queue0, Replace(queue[2..] + pushed, s1, s0), Advance(queue0, done))
  {
    JoinedMerge(m, stamp, clock, queue0, queue, done, s0, s1);
    PendingMerge(m, stamp, clock, queue0, queue, done, s0, s1, pushed);
  }

  /** A put of two representatives keeps `m` coarser than `m0`. */
  lemma CoarserPut(m: map<nat, nat>, stamp: map<nat, nat>, clock: nat, m0: map<nat, nat>, stamp0: map<nat, nat>, clock0: nat,
                   s1: nat, s0: nat)
    requires Coarser(m, stamp, clock, m0, stamp0, clock0) && !Mapped(m, s1) && !Mapped(m, s0) && s1 != s0
    ensures Coarser(m[s1 := s0], stamp[s1 := clock], clock + 1, m0, stamp0, clock0)
  {
    PutRanked(m, stamp, clock, s1, s0);
    forall x ensures Root(m[s1 := s0], stamp[s1 := clock], clock + 1, x)
                  == Root(m[s1 := s0], stamp[s1 := clock], clock + 1, Root(m0, stamp0, clock0, x))
    {
      PutRoot(m, stamp, clock, s1, s0, x);
      PutRoot(m, stamp, clock, s1, s0, Root(m0, stamp0, clock0, x));
    }
  }

  /** The queue with its first pair taken off. */
  lemma CanonicalPop<T>(g: Snapshot<T>, m: map<nat, nat>, stamp: map<nat, nat>, clock: nat)
    requires Canonical(g, m, stamp, clock) && |g.queue| >= 2
    ensures Canonical(g.(queue := g.queue[2..]), m, stamp, clock)
    ensures Root(m, stamp, clock, g.queue[0]) in g.allStates && Root(m, stamp, clock, g.queue[1]) in g.allStates
  {
    assert forall k :: 0 <= k < |g.queue[2..]| ==> g.queue[2..][k] == g.queue[k + 2];
  }

  /** What the `merge` loop keeps between passes. */
  ghost predicate DrainInv<T>(g: Snapshot<T>, m: map<nat, nat>, stamp: map<nat, nat>, clock: nat,
                              m0: map<nat, nat>, stamp0: map<nat, nat>, clock0: nat, queue0: seq<nat>, done: nat)
  {
    Canonical(g, m, stamp, clock) && Coarser(m, stamp, clock, m0, stamp0, clock0) && Tracked(m, stamp, clock, queue0, g.queue, done)
  }

  lemma DrainStart<T>(g: Snapshot<T>, m: map<nat, nat>, stamp: map<nat, nat>, clock: nat)
    requires Canonical(g, m, stamp, clock)
    ensures DrainInv(g, m, stamp, clock, m, stamp, clock, g.queue, 0)
  {
    forall x ensures Root(m, stamp, clock, x) == Root(m, stamp, clock, Root(m, stamp, clock, x)) {
      RootFixed(m, stamp, clock, Root(m, stamp, clock, x));
    }
  }

  /** The loop's front pair exists and its representatives are live states. */
  lemma DrainFront<T>(g: Snapshot<T>, m: map<nat, nat>, stamp: map<nat, nat>, clock: nat)
    requires Canonical(g, m, stamp, clock) && g.queue != []
    ensures |g.queue| >= 2 && Ranked(m, stamp, clock) && InArena(g.allStates, g.states)
    ensures Root(m, stamp, clock, g.queue[0]) < |g.states| && Root(m, stamp, clock, g.queue[1]) < |g.states|
  {
    assert Root(m, stamp, clock, g.queue[0]) in g.allStates && Root(m, stamp, clock, g.queue[1]) in g.allStates;
  }

  /** A productive pass keeps the loop invariant and removes a representative. */
  lemma DrainMerge<T>(g: Snapshot<T>, m: map<nat, nat>, stamp: map<nat, nat>, clock: nat,
                      m0: map<nat, nat>, stamp0: map<nat, nat>, clock0: nat, queue0: seq<nat>, done: nat,
                      s0: nat, s1: nat, eq: (T, T) -> bool)
    requires DrainInv(g, m, stamp, clock, m0, stamp0, clock0, queue0, done) && |g.queue| >= 2
    requires s0 == Root(m, stamp, clock, g.queue[0]) && s1 == Root(m, stamp, clock, g.queue[1]) && s0 != s1
    ensures InArena(g.allStates, g.states) && s0 < |g.states| && s1 < |g.states|
    ensures |Step(g.(queue := g.queue[2..]), s0, s1, eq).states| == |g.states|
    ensures DrainInv(Step(g.(queue := g.queue[2..]), s0, s1, eq), m[s1 := s0], stamp[s1 := clock], clock + 1,
                     m0, stamp0, clock0, queue0, Advance(queue0, done))
    ensures Reps(m[s1 := s0], |g.states|) < Reps(m, |g.states|)
  {
    CanonicalPop(g, m, stamp, clock);
    var g1 := g.(queue := g.queue[2..]);
    StepCanonical(g1, m, stamp, clock, s0, s1, eq);
    PutRoots(m, stamp, clock, s1, s0, |g.states|);
    TrackedMerge(m, stamp, clock, queue0, g.queue, done, s0, s1,
                 Absorb(g.states[s0].transitions, g.states[s1].transitions, s0, s1, eq).1);
    CoarserPut(m, stamp, clock, m0, stamp0, clock0, s1, s0);
  }

  /** A pair whose two states already share a representative is dropped. */
  lemma DrainSkip<T>(g: Snapshot<T>, m: map<nat, nat>, stamp: map<nat, nat>, clock: nat,
                     m0: map<nat, nat>, stamp0: map<nat, nat>, clock0: nat, queue0: seq<nat>, done: nat)
    requires DrainInv(g, m, stamp, clock, m0, stamp0, clock0, queue0, done) && |g.queue| >= 2
    requires Root(m, stamp, clock, g.queue[0]) == Root(m, stamp, clock, g.queue[1])
    ensures DrainInv(g.(queue := g.queue[2..]), m, stamp, clock, m0, stamp0, clock0, queue0, Advance(queue0, done))
  {
    CanonicalPop(g, m, stamp, clock);
    TrackedSkip(m, stamp, clock, queue0, g.queue, done);
  }

  /** An empty queue means every original pair has been joined. */
  lemma DrainDone<T>(g: Snapshot<T>, m: map<nat, nat>, stamp: map<nat, nat>, clock: nat,
                     m0: map<nat, nat>, stamp0: map<nat, nat>, clock0: nat, queue0: seq<nat>, done: nat)
    requires DrainInv(g, m, stamp, clock, m0, stamp0, clock0, queue0, done) && g.queue == []
    ensures forall k :: 0 <= k < |queue0| && k % 2 == 0 ==>
      k + 1 < |queue0| && Root(m, stamp, clock, queue0[k]) == Root(m, stamp, clock, queue0[k + 1])
  {
  }

  /** Entry `i` of the state list is the representative of entry `i` of `list0`. */
  ghost predicate Tracks(list0: seq<nat>, list: seq<nat>, m: map<nat, nat>, stamp: map<nat, nat>, clock: nat)
  {
    Ranked(m, stamp, clock) && |list| == |list0| &&
    forall i :: 0 <= i < |list0| ==> list[i] == Root(m, stamp, clock, list0[i])
  }

  /** A list of representatives tracks itself. */
  lemma TracksStart(list: seq<nat>, m: map<nat, nat>, stamp: map<nat, nat>, clock: nat)
    requires Ranked(m, stamp, clock) && forall x :: x in list ==> !Mapped(m, x)
    ensures Tracks(list, list, m, stamp, clock)
  {
    forall i | 0 <= i < |list| ensures list[i] == Root(m, stamp, clock, list[i]) {
      RootFixed(m, stamp, clock, list[i]);
    }
  }

  /** `replace_all` on the state list keeps it tracking representatives after the put. */
  lemma TracksMerge(list0: seq<nat>, list: seq<nat>, m: map<nat, nat>, stamp: map<nat, nat>, clock: nat, s0: nat, s1: nat)
    requires Tracks(list0, list, m, stamp, clock) && !Mapped(m, s1) && !Mapped(m, s0) && s1 != s0
    ensures Tracks(list0, Replace(list, s1, s0), m[s1 := s0], stamp[s1 := clock], clock + 1)
  {
    PutRanked(m, stamp, clock, s1, s0);
    forall i | 0 <= i < |list0|
      ensures Replace(list, s1, s0)[i] == Root(m[s1 := s0], stamp[s1 := clock], clock + 1, list0[i])
    {
      PutRoot(m, stamp, clock, s1, s0, list0[i]);
    }
  }

  // ---------------------------------------------------------------------
  // What the merged states hold
  // ---------------------------------------------------------------------

  /** Some transition of `ts` reads symbol `x` into `d`. */
  ghost predicate Carries<T>(ts: seq<Transition<T>>, x: T, d: nat)
  {
    exists i :: 0 <= i < |ts| && ts[i].symbol == x && ts[i].dest == d
  }

  lemma CarriesPrefix<T>(ts: seq<Transition<T>>, n: nat, x: T, d: nat)
    requires n <= |ts| && Carries(ts[..n], x, d)
    ensures Carries(ts, x, d)
  {
    var i :| 0 <= i < n && ts[..n][i].symbol == x && ts[..n][i].dest == d;
    assert ts[i] == ts[..n][i];
  }

  /** Each transition of `ts` reads a symbol into a state as one of `ts0` or `ts1` did. */
  ghost predicate CarriedFrom<T>(ts: seq<Transition<T>>, ts0: seq<Transition<T>>, ts1: seq<Transition<T>>)
  {
    forall k :: 0 <= k < |ts| ==> Carries(ts0, ts[k].symbol, ts[k].dest) || Carries(ts1, ts[k].symbol, ts[k].dest)
  }

  /** Each transition of the merged list reads a symbol into a state as one of state0's or state1's did. */
  lemma {:induction false} AbsorbCarries<T>(ts0: seq<Transition<T>>, ts1: seq<Transition<T>>, s0: nat, s1: nat, eq: (T, T) -> bool)
    ensures CarriedFrom(Absorb(ts0, ts1, s0, s1, eq).0, ts0, ts1)
    decreases |ts1|
  {
    if ts1 != [] {
      var n := |ts1| - 1;
      AbsorbCarries(ts0, ts1[..n], s0, s1, eq);
      var p := Absorb(ts0, ts1[..n], s0, s1, eq).0;
      var t1 := ts1[n];
      var ts := Absorb(ts0, ts1, s0, s1, eq).0;
      assert ts == AbsorbOne(p, t1, s0, s1, eq).0;
      forall k | 0 <= k < |ts| ensures Carries(ts0, ts[k].symbol, ts[k].dest) || Carries(ts1, ts[k].symbol, ts[k].dest) {
        if k < |p| {
          assert ts[k].symbol == p[k].symbol && ts[k].dest == p[k].dest;
          assert Carries(ts0, p[k].symbol, p[k].dest) || Carries(ts1[..n], p[k].symbol, p[k].dest);
          if !Carries(ts0, p[k].symbol, p[k].dest) {
            CarriesPrefix(ts1, n, p[k].symbol, p[k].dest);
          }
        } else {
          assert ts[k] == t1;
        }
      }
    }
  }

  /**
   * The pairs queued while absorbing: the first state of each pair is reached
   * from state0 or state1, the second from state1, on equal symbols.
   */
  ghost predicate PushedFrom<T(!new)>(ts0: seq<Transition<T>>, ts1: seq<Transition<T>>, pushed: seq<nat>, eq: (T, T) -> bool)
  {
    |pushed| % 2 == 0 &&
    forall k :: 0 <= k < |pushed| && k % 2 == 0 ==>
      exists x, y :: (Carries(ts0, x, pushed[k]) || Carries(ts1, x, pushed[k])) && Carries(ts1, y, pushed[k + 1]) && eq(x, y)
  }

  /** A pair pushed for a prefix of `ts1` is still carried by the whole of it. */
  lemma PushedWiden<T(!new)>(ts0: seq<Transition<T>>, ts1: seq<Transition<T>>, n: nat, u: nat, v: nat, eq: (T, T) -> bool)
    requires n <= |ts1|
    requires exists x, y :: (Carries(ts0, x, u) || Carries(ts1[..n], x, u)) && Carries(ts1[..n], y, v) && eq(x, y)
    ensures exists x, y :: (Carries(ts0, x, u) || Carries(ts1, x, u)) && Carries(ts1, y, v) && eq(x, y)
  {
    var x, y :| (Carries(ts0, x, u) || Carries(ts1[..n], x, u)) && Carries(ts1[..n], y, v) && eq(x, y);
    if !Carries(ts0, x, u) {
      CarriesPrefix(ts1, n, x, u);
    }
    CarriesPrefix(ts1, n, y, v);
  }

  /** The pair a new transition of `s1` pushes, with the kept transition it met. */
  lemma PushedJoin<T(!new)>(ts0: seq<Transition<T>>, ts1: seq<Transition<T>>, n: nat, w: Transition<T>, t1: Transition<T>,
                            eq: (T, T) -> bool)
    requires n <= |ts1| && (Carries(ts0, w.symbol, w.dest) || Carries(ts1[..n], w.symbol, w.dest))
    requires Carries(ts1, t1.symbol, t1.dest) && eq(w.symbol, t1.symbol)
    ensures exists x, y :: (Carries(ts0, x, w.dest) || Carries(ts1, x, w.dest)) && Carries(ts1, y, t1.dest) && eq(x, y)
  {
    if !Carries(ts0, w.symbol, w.dest) {
      CarriesPrefix(ts1, n, w.symbol, w.dest);
    }
  }

  lemma {:induction false} AbsorbPushed<T(!new)>(ts0: seq<Transition<T>>, ts1: seq<Transition<T>>, s0: nat, s1: nat, eq: (T, T) -> bool)
    ensures PushedFrom(ts0, ts1, Absorb(ts0, ts1, s0, s1, eq).1, eq)
    decreases |ts1|
  {
    if ts1 != [] {
      var n := |ts1| - 1;
      AbsorbPushed(ts0, ts1[..n], s0, s1, eq);
      AbsorbCarries(ts0, ts1[..n], s0, s1, eq);
      var p := Absorb(ts0, ts1[..n], s0, s1, eq);
      AbsorbPushedStep(ts0, ts1, n, p.0, p.1, s0, s1, eq);
      assert Absorb(ts0, ts1, s0, s1, eq).1 == p.1 + AbsorbOne(p.0, ts1[n], s0, s1, eq).1;
    }
  }

  /** Taking the last transition of `ts1` pushes only pairs carried by `ts0` or `ts1`. */
  lemma AbsorbPushedStep<T(!new)>(ts0: seq<Transition<T>>, ts1: seq<Transition<T>>, n: nat,
                                  kept: seq<Transition<T>>, before: seq<nat>, s0: nat, s1: nat, eq: (T, T) -> bool)
    requires n + 1 == |ts1| && PushedFrom(ts0, ts1[..n], before, eq) && CarriedFrom(kept, ts0, ts1[..n])
    ensures PushedFrom(ts0, ts1, before + AbsorbOne(kept, ts1[n], s0, s1, eq).1, eq)
  {
    var t1 := ts1[n];
    var q := AbsorbOne(kept, t1, s0, s1, eq).1;
    var pushed := before + q;
    assert Carries(ts1, t1.symbol, t1.dest);
    assert |q| % 2 == 0;
    forall k | 0 <= k < |pushed| && k % 2 == 0
      ensures exists x, y :: (Carries(ts0, x, pushed[k]) || Carries(ts1, x, pushed[k])) && Carries(ts1, y, pushed[k + 1]) && eq(x, y)
    {
      if k < |before| {
        assert pushed[k] == before[k] && pushed[k + 1] == before[k + 1];
        PushedWiden(ts0, ts1, n, before[k], before[k + 1], eq);
      } else {
        var j := GetTransition(kept, t1.symbol, eq).value;
        assert k == |before| && pushed[k] == kept[j].dest && pushed[k + 1] == t1.dest;
        assert Carries(ts0, kept[j].symbol, kept[j].dest) || Carries(ts1[..n], kept[j].symbol, kept[j].dest);
        PushedJoin(ts0, ts1, n, kept[j], t1, eq);
      }
    }
  }

  /** The summed outgoing frequency in `a0` of the states `y < n` of `L0` whose representative is `r`. */
  ghost function ClassFreq<T>(a0: Arena<T>, L0: set<nat>, m: map<nat, nat>, stamp: map<nat, nat>, clock: nat, r: nat, n: nat): int
    requires Ranked(m, stamp, clock)
  {
    if n == 0 then 0
    else
      var own := if n - 1 in L0 && n - 1 < |a0| && Root(m, stamp, clock, n - 1) == r then SumFreq(a0[n - 1].transitions) else 0;
      ClassFreq(a0, L0, m, stamp, clock, r, n - 1) + own
  }

  /** After `put(state1, state0)` the class of `state0` carries both classes' frequencies. */
  lemma {:induction false} ClassFreqPut<T>(a0: Arena<T>, L0: set<nat>, m: map<nat, nat>, stamp: map<nat, nat>, clock: nat,
                                           s1: nat, s0: nat, n: nat)
    requires Ranked(m, stamp, clock) && !Mapped(m, s1) && !Mapped(m, s0) && s1 != s0
    ensures Ranked(m[s1 := s0], stamp[s1 := clock], clock + 1)
    ensures ClassFreq(a0, L0, m[s1 := s0], stamp[s1 := clock], clock + 1, s0, n)
         == ClassFreq(a0, L0, m, stamp, clock, s0, n) + ClassFreq(a0, L0, m, stamp, clock, s1, n)
  {
    PutRanked(m, stamp, clock, s1, s0);
    if n > 0 {
      ClassFreqPut(a0, L0, m, stamp, clock, s1, s0, n - 1);
      PutRoot(m, stamp, clock, s1, s0, n - 1);
    }
  }

  /** The other classes keep their frequencies. */
  lemma {:induction false} ClassFreqOther<T>(a0: Arena<T>, L0: set<nat>, m: map<nat, nat>, stamp: map<nat, nat>, clock: nat,
                                             s1: nat, s0: nat, r: nat, n: nat)
    requires Ranked(m, stamp, clock) && !Mapped(m, s1) && !Mapped(m, s0) && s1 != s0 && r != s0 && r != s1
    ensures Ranked(m[s1 := s0], stamp[s1 := clock], clock + 1)
    ensures ClassFreq(a0, L0, m[s1 := s0], stamp[s1 := clock], clock + 1, r, n) == ClassFreq(a0, L0, m, stamp, clock, r, n)
  {
    PutRanked(m, stamp, clock, s1, s0);
    if n > 0 {
      ClassFreqOther(a0, L0, m, stamp, clock, s1, s0, r, n - 1);
      PutRoot(m, stamp, clock, s1, s0, n - 1);
    }
  }

  /** With every state of `L0` its own representative, a class is one state. */
  lemma {:induction false} ClassFreqAlone<T>(a0: Arena<T>, L0: set<nat>, m: map<nat, nat>, stamp: map<nat, nat>, clock: nat, r: nat, n: nat)
    requires Ranked(m, stamp, clock) && forall y :: y in L0 ==> !Mapped(m, y)
    requires r in L0 && r < n <= |a0|
    ensures ClassFreq(a0, L0, m, stamp, clock, r, n) == SumFreq(a0[r].transitions)
  {
    if n - 1 == r {
      ClassFreqNone(a0, L0, m, stamp, clock, r, n - 1);
      RootFixed(m, stamp, clock, r);
    } else {
      ClassFreqAlone(a0, L0, m, stamp, clock, r, n - 1);
      RootFixed(m, stamp, clock, n - 1);
    }
  }

  lemma {:induction false} ClassFreqNone<T>(a0: Arena<T>, L0: set<nat>, m: map<nat, nat>, stamp: map<nat, nat>, clock: nat, r: nat, n: nat)
    requires Ranked(m, stamp, clock) && forall y :: y in L0 ==> !Mapped(m, y)
    requires n <= r
    ensures ClassFreq(a0, L0, m, stamp, clock, r, n) == 0
  {
    if n > 0 {
      ClassFreqNone(a0, L0, m, stamp, clock, r, n - 1);
      RootFixed(m, stamp, clock, n - 1);
    }
  }

  /**
   * The states of `L0` (listed in `a0` once) and the current automaton: the
   * initial state is the representative of the old one, every old state's
   * representative is listed, and only old states are listed.
   */
  ghost predicate Based<T>(a0: Arena<T>, L0: set<nat>, i0: nat, initial: nat, list: seq<nat>,
                           m: map<nat, nat>, stamp: map<nat, nat>, clock: nat)
    requires Ranked(m, stamp, clock)
  {
    Closed(a0) && i0 in L0 && initial == Root(m, stamp, clock, i0) &&
    (forall y :: y in L0 ==> y < |a0| && LeadsInto(a0[y].transitions, L0) && Root(m, stamp, clock, y) in list) &&
    (forall x :: x in list ==> x in L0)
  }

  /** A listed state is final exactly when one of the old states it stands for was. */
  ghost predicate FinalOr<T>(a0: Arena<T>, L0: set<nat>, a: Arena<T>, list: seq<nat>, m: map<nat, nat>, stamp: map<nat, nat>, clock: nat)
    requires Ranked(m, stamp, clock)
  {
    forall r :: r in list && r < |a| ==> (a[r].isFinal <==> HasFinal(a0, L0, m, stamp, clock, r))
  }

  /** One of the old states that `r` stands for is final. */
  ghost predicate HasFinal<T>(a0: Arena<T>, L0: set<nat>, m: map<nat, nat>, stamp: map<nat, nat>, clock: nat, r: nat)
    requires Ranked(m, stamp, clock)
  {
    exists y {:trigger a0[y].isFinal} :: y in L0 && y < |a0| && Root(m, stamp, clock, y) == r && a0[y].isFinal
  }

  /** After `put(state1, state0)` the class of `state0` holds a final state when either class did. */
  lemma HasFinalPut<T>(a0: Arena<T>, L0: set<nat>, m: map<nat, nat>, stamp: map<nat, nat>, clock: nat, s1: nat, s0: nat, r: nat)
    requires Ranked(m, stamp, clock) && !Mapped(m, s1) && !Mapped(m, s0) && s1 != s0 && r != s1
    ensures Ranked(m[s1 := s0], stamp[s1 := clock], clock + 1)
    ensures HasFinal(a0, L0, m[s1 := s0], stamp[s1 := clock], clock + 1, r)
        <==> HasFinal(a0, L0, m, stamp, clock, r) || (r == s0 && HasFinal(a0, L0, m, stamp, clock, s1))
  {
    var m', stamp', clock' := m[s1 := s0], stamp[s1 := clock], clock + 1;
    PutRanked(m, stamp, clock, s1, s0);
    if HasFinal(a0, L0, m', stamp', clock', r) {
      var y :| y in L0 && y < |a0| && Root(m', stamp', clock', y) == r && a0[y].isFinal;
      PutRoot(m, stamp, clock, s1, s0, y);
    }
    if HasFinal(a0, L0, m, stamp, clock, r) {
      var y :| y in L0 && y < |a0| && Root(m, stamp, clock, y) == r && a0[y].isFinal;
      PutRoot(m, stamp, clock, s1, s0, y);
    }
    if r == s0 && HasFinal(a0, L0, m, stamp, clock, s1) {
      var y :| y in L0 && y < |a0| && Root(m, stamp, clock, y) == s1 && a0[y].isFinal;
      PutRoot(m, stamp, clock, s1, s0, y);
    }
  }

  /** A listed state other than `state1` after the pass: its finality and its transitions, redirected. */
  lemma StepState<T>(g: Snapshot<T>, s0: nat, s1: nat, eq: (T, T) -> bool, r: nat)
    requires s0 < |g.states| && s1 < |g.states| && s0 != s1 && s0 in g.allStates && r in g.allStates && r < |g.states| && r != s1
    ensures r < |Step(g, s0, s1, eq).states|
    ensures var a, r' := g.states, Step(g, s0, s1, eq).states[r];
      && r'.isFinal == (if r == s0 then a[s0].isFinal || a[s1].isFinal else a[r].isFinal)
      && r'.transitions == Redirect(if r == s0 then Absorb(a[s0].transitions, a[s1].transitions, s0, s1, eq).0 else a[r].transitions, s1, s0)
  {
  }

  /** Some old state that `r` stands for reads `x` into a state whose representative is `d`. */
  ghost predicate Origin<T>(a0: Arena<T>, L0: set<nat>, m: map<nat, nat>, stamp: map<nat, nat>, clock: nat, r: nat, x: T, d: nat)
    requires Ranked(m, stamp, clock)
  {
    exists y, j :: y in L0 && y < |a0| && Root(m, stamp, clock, y) == r && 0 <= j < |a0[y].transitions| &&
      a0[y].transitions[j].symbol == x && Root(m, stamp, clock, a0[y].transitions[j].dest) == d
  }

  /** Every transition of a listed state is an old transition of one of its old states, redirected. */
  ghost predicate Originate<T>(a0: Arena<T>, L0: set<nat>, a: Arena<T>, list: seq<nat>, m: map<nat, nat>, stamp: map<nat, nat>, clock: nat)
    requires Ranked(m, stamp, clock)
  {
    forall r, k {:trigger Origin(a0, L0, m, stamp, clock, r, a[r].transitions[k].symbol, a[r].transitions[k].dest)} ::
      r in list && r < |a| && 0 <= k < |a[r].transitions| ==>
      Origin(a0, L0, m, stamp, clock, r, a[r].transitions[k].symbol, a[r].transitions[k].dest)
  }

  /** Every symbol an old state read is still read by its representative. */
  ghost predicate Complete<T>(a0: Arena<T>, L0: set<nat>, a: Arena<T>, m: map<nat, nat>, stamp: map<nat, nat>, clock: nat, eq: (T, T) -> bool)
    requires Ranked(m, stamp, clock)
  {
    forall y, j :: y in L0 && y < |a0| && 0 <= j < |a0[y].transitions| ==>
      Root(m, stamp, clock, y) < |a| && Defines(a[Root(m, stamp, clock, y)].transitions, a0[y].transitions[j].symbol, eq)
  }

  /** A listed state's outgoing frequencies sum to those of the old states it stands for. */
  ghost predicate FreqSum<T>(a0: Arena<T>, L0: set<nat>, a: Arena<T>, list: seq<nat>, m: map<nat, nat>, stamp: map<nat, nat>, clock: nat)
    requires Ranked(m, stamp, clock)
  {
    forall r :: r in list && r < |a| ==> SumFreq(a[r].transitions) == ClassFreq(a0, L0, m, stamp, clock, r, |a0|)
  }

  /**
   * How the automaton `(a, initial, list)` under the map `m` stands to the
   * automaton `a0` with the states `L0` and initial state `i0` it was merged
   * from: each listed state is the merge of the old states it represents.
   */
  ghost predicate History<T>(a0: Arena<T>, L0: set<nat>, i0: nat, a: Arena<T>, initial: nat, list: seq<nat>,
                             m: map<nat, nat>, stamp: map<nat, nat>, clock: nat, eq: (T, T) -> bool)
  {
    Ranked(m, stamp, clock) && Based(a0, L0, i0, initial, list, m, stamp, clock) &&
    FinalOr(a0, L0, a, list, m, stamp, clock) && Originate(a0, L0, a, list, m, stamp, clock) &&
    Complete(a0, L0, a, m, stamp, clock, eq) && FreqSum(a0, L0, a, list, m, stamp, clock)
  }

  /** The states a list holds. */
  function Elements(list: seq<nat>): set<nat>
  {
    set y | y in list
  }

  /** A canonical automaton stands to itself as its own history. */
  lemma HistoryStart<T(!new)>(g: Snapshot<T>, m: map<nat, nat>, stamp: map<nat, nat>, clock: nat, eq: (T, T) -> bool)
    requires Canonical(g, m, stamp, clock) && Determinization.Equivalence(eq)
    ensures History(g.states, (set y | y in g.allStates), g.initial, g.states, g.initial, g.allStates, m, stamp, clock, eq)
  {
    var a, L0 := g.states, set y | y in g.allStates;
    StartBased(g, m, stamp, clock);
    StartFinal(g, m, stamp, clock);
    StartOriginate(g, m, stamp, clock);
    StartComplete(g, m, stamp, clock, eq);
    StartFreq(g, m, stamp, clock);
  }

  lemma StartRoots<T>(g: Snapshot<T>, m: map<nat, nat>, stamp: map<nat, nat>, clock: nat)
    requires Canonical(g, m, stamp, clock)
    ensures forall y :: y in g.allStates ==> Root(m, stamp, clock, y) == y
  {
    forall y | y in g.allStates ensures Root(m, stamp, clock, y) == y {
      RootFixed(m, stamp, clock, y);
    }
  }

  lemma StartBased<T>(g: Snapshot<T>, m: map<nat, nat>, stamp: map<nat, nat>, clock: nat)
    requires Canonical(g, m, stamp, clock)
    ensures Based(g.states, (set y | y in g.allStates), g.initial, g.initial, g.allStates, m, stamp, clock)
  {
    StartRoots(g, m, stamp, clock);
  }

  lemma StartFinal<T>(g: Snapshot<T>, m: map<nat, nat>, stamp: map<nat, nat>, clock: nat)
    requires Canonical(g, m, stamp, clock)
    ensures FinalOr(g.states, (set y | y in g.allStates), g.states, g.allStates, m, stamp, clock)
  {
    var a, L0 := g.states, set y | y in g.allStates;
    StartRoots(g, m, stamp, clock);
    forall r | r in g.allStates && r < |a| ensures a[r].isFinal <==> HasFinal(a, L0, m, stamp, clock, r) {
      assert r in L0;
    }
  }

  lemma StartOriginate<T>(g: Snapshot<T>, m: map<nat, nat>, stamp: map<nat, nat>, clock: nat)
    requires Canonical(g, m, stamp, clock)
    ensures Originate(g.states, (set y | y in g.allStates), g.states, g.allStates, m, stamp, clock)
  {
    var a, L0 := g.states, set y | y in g.allStates;
    StartRoots(g, m, stamp, clock);
    forall r, k | r in g.allStates && r < |a| && 0 <= k < |a[r].transitions|
      ensures Origin(a, L0, m, stamp, clock, r, a[r].transitions[k].symbol, a[r].transitions[k].dest)
    {
      assert r in L0 && a[r].transitions[k].dest in L0;
      assert Root(m, stamp, clock, a[r].transitions[k].dest) == a[r].transitions[k].dest;
    }
  }

  lemma StartComplete<T(!new)>(g: Snapshot<T>, m: map<nat, nat>, stamp: map<nat, nat>, clock: nat, eq: (T, T) -> bool)
    requires Canonical(g, m, stamp, clock) && Determinization.Equivalence(eq)
    ensures Complete(g.states, (set y | y in g.allStates), g.states, m, stamp, clock, eq)
  {
    var a, L0 := g.states, set y | y in g.allStates;
    StartRoots(g, m, stamp, clock);
    forall y, j | y in L0 && y < |a| && 0 <= j < |a[y].transitions|
      ensures Root(m, stamp, clock, y) < |a| && Defines(a[Root(m, stamp, clock, y)].transitions, a[y].transitions[j].symbol, eq)
    {
      assert Root(m, stamp, clock, y) == y;
      assert eq(a[y].transitions[j].symbol, a[y].transitions[j].symbol);
    }
  }

  lemma StartFreq<T>(g: Snapshot<T>, m: map<nat, nat>, stamp: map<nat, nat>, clock: nat)
    requires Canonical(g, m, stamp, clock)
    ensures FreqSum(g.states, (set y | y in g.allStates), g.states, g.allStates, m, stamp, clock)
  {
    var a, L0 := g.states, set y | y in g.allStates;
    forall r | r in g.allStates && r < |a| ensures SumFreq(a[r].transitions) == ClassFreq(a, L0, m, stamp, clock, r, |a|) {
      assert r in L0;
      ClassFreqAlone(a, L0, m, stamp, clock, r, |a|);
    }
  }

  /** The states of `L0` and the initial state keep listed representatives across a pass. */
  lemma BasedStep<T>(a0: Arena<T>, L0: set<nat>, i0: nat, g: Snapshot<T>, m: map<nat, nat>, stamp: map<nat, nat>, clock: nat,
                     s0: nat, s1: nat, eq: (T, T) -> bool)
    requires Canonical(g, m, stamp, clock) && s0 in g.allStates && s1 in g.allStates && s0 != s1
    requires Based(a0, L0, i0, g.initial, g.allStates, m, stamp, clock)
    ensures Ranked(m[s1 := s0], stamp[s1 := clock], clock + 1)
    ensures Based(a0, L0, i0, Step(g, s0, s1, eq).initial, Step(g, s0, s1, eq).allStates, m[s1 := s0], stamp[s1 := clock], clock + 1)
  {
    var g' := Step(g, s0, s1, eq);
    PutRoots(m, stamp, clock, s1, s0, |g.states|);
    ReplaceMembers(g.allStates, s1, s0);
    forall y | y in L0 ensures Root(m[s1 := s0], stamp[s1 := clock], clock + 1, y) in g'.allStates {
      assert Root(m, stamp, clock, y) in g.allStates;
    }
  }

  lemma FinalStep<T>(a0: Arena<T>, L0: set<nat>, g: Snapshot<T>, m: map<nat, nat>, stamp: map<nat, nat>, clock: nat,
                     s0: nat, s1: nat, eq: (T, T) -> bool)
    requires Canonical(g, m, stamp, clock) && s0 in g.allStates && s1 in g.allStates && s0 != s1
    requires FinalOr(a0, L0, g.states, g.allStates, m, stamp, clock)
    ensures Ranked(m[s1 := s0], stamp[s1 := clock], clock + 1)
    ensures FinalOr(a0, L0, Step(g, s0, s1, eq).states, Step(g, s0, s1, eq).allStates, m[s1 := s0], stamp[s1 := clock], clock + 1)
  {
    var g' := Step(g, s0, s1, eq);
    PutRanked(m, stamp, clock, s1, s0);
    ReplaceMembers(g.allStates, s1, s0);
    forall r | r in g'.allStates && r < |g'.states|
      ensures g'.states[r].isFinal <==> HasFinal(a0, L0, m[s1 := s0], stamp[s1 := clock], clock + 1, r)
    {
      assert r == s0 || (r in g.allStates && r != s1);
      StepState(g, s0, s1, eq, r);
      HasFinalPut(a0, L0, m, stamp, clock, s1, s0, r);
    }
  }

  /** An origin survives `put(state1, state0)` with the state and the destination redirected. */
  lemma OriginPut<T>(a0: Arena<T>, L0: set<nat>, m: map<nat, nat>, stamp: map<nat, nat>, clock: nat, s1: nat, s0: nat,
                     r: nat, x: T, d: nat)
    requires Ranked(m, stamp, clock) && !Mapped(m, s1) && !Mapped(m, s0) && s1 != s0
    requires Origin(a0, L0, m, stamp, clock, r, x, d)
    ensures Ranked(m[s1 := s0], stamp[s1 := clock], clock + 1)
    ensures Origin(a0, L0, m[s1 := s0], stamp[s1 := clock], clock + 1, Redirected(r, s1, s0), x, Redirected(d, s1, s0))
  {
    var y, j :| y in L0 && y < |a0| && Root(m, stamp, clock, y) == r && 0 <= j < |a0[y].transitions| &&
      a0[y].transitions[j].symbol == x && Root(m, stamp, clock, a0[y].transitions[j].dest) == d;
    PutRoot(m, stamp, clock, s1, s0, y);
    PutRoot(m, stamp, clock, s1, s0, a0[y].transitions[j].dest);
  }

  lemma OriginHere<T>(a0: Arena<T>, L0: set<nat>, g: Snapshot<T>, m: map<nat, nat>, stamp: map<nat, nat>, clock: nat, r: nat, i: nat)
    requires Ranked(m, stamp, clock) && Originate(a0, L0, g.states, g.allStates, m, stamp, clock)
    requires r in g.allStates && r < |g.states| && i < |g.states[r].transitions|
    ensures Origin(a0, L0, m, stamp, clock, r, g.states[r].transitions[i].symbol, g.states[r].transitions[i].dest)
  {
  }

  lemma OriginWitness<T>(a0: Arena<T>, L0: set<nat>, m: map<nat, nat>, stamp: map<nat, nat>, clock: nat, r: nat, x: T, d: nat)
    returns (y: nat, j: nat)
    requires Ranked(m, stamp, clock) && Origin(a0, L0, m, stamp, clock, r, x, d)
    ensures y in L0 && y < |a0| && Root(m, stamp, clock, y) == r && j < |a0[y].transitions|
    ensures a0[y].transitions[j].symbol == x && Root(m, stamp, clock, a0[y].transitions[j].dest) == d
  {
    y, j :| y in L0 && y < |a0| && Root(m, stamp, clock, y) == r && 0 <= j < |a0[y].transitions| &&
      a0[y].transitions[j].symbol == x && Root(m, stamp, clock, a0[y].transitions[j].dest) == d;
  }

  lemma CarriesWitness<T>(ts: seq<Transition<T>>, x: T, d: nat) returns (i: nat)
    requires Carries(ts, x, d)
    ensures i < |ts| && ts[i].symbol == x && ts[i].dest == d
  {
    i :| 0 <= i < |ts| && ts[i].symbol == x && ts[i].dest == d;
  }

  lemma DefinesWitness<T>(ts: seq<Transition<T>>, x: T, eq: (T, T) -> bool) returns (k: nat)
    requires Defines(ts, x, eq)
    ensures k < |ts| && eq(ts[k].symbol, x)
  {
    k :| 0 <= k < |ts| && eq(ts[k].symbol, x);
  }

  lemma FinalWitness<T>(a0: Arena<T>, L0: set<nat>, m: map<nat, nat>, stamp: map<nat, nat>, clock: nat, r: nat) returns (y: nat)
    requires Ranked(m, stamp, clock) && HasFinal(a0, L0, m, stamp, clock, r)
    ensures y in L0 && y < |a0| && Root(m, stamp, clock, y) == r && a0[y].isFinal
  {
    y :| y in L0 && y < |a0| && Root(m, stamp, clock, y) == r && a0[y].isFinal;
  }

  lemma OriginStep<T>(a0: Arena<T>, L0: set<nat>, g: Snapshot<T>, m: map<nat, nat>, stamp: map<nat, nat>, clock: nat,
                      s0: nat, s1: nat, eq: (T, T) -> bool)
    requires Canonical(g, m, stamp, clock) && s0 in g.allStates && s1 in g.allStates && s0 != s1
    requires Originate(a0, L0, g.states, g.allStates, m, stamp, clock)
    ensures Ranked(m[s1 := s0], stamp[s1 := clock], clock + 1)
    ensures Originate(a0, L0, Step(g, s0, s1, eq).states, Step(g, s0, s1, eq).allStates, m[s1 := s0], stamp[s1 := clock], clock + 1)
  {
    var a, g' := g.states, Step(g, s0, s1, eq);
    var m', stamp', clock' := m[s1 := s0], stamp[s1 := clock], clock + 1;
    PutRanked(m, stamp, clock, s1, s0);
    ReplaceMembers(g.allStates, s1, s0);
    var ts := Absorb(a[s0].transitions, a[s1].transitions, s0, s1, eq).0;
    AbsorbCarries(a[s0].transitions, a[s1].transitions, s0, s1, eq);
    forall r, k | r in g'.allStates && r < |g'.states| && 0 <= k < |g'.states[r].transitions|
      ensures Origin(a0, L0, m', stamp', clock', r, g'.states[r].transitions[k].symbol, g'.states[r].transitions[k].dest)
    {
      assert r == s0 || (r in g.allStates && r != s1);
      StepState(g, s0, s1, eq, r);
      var src := if r == s0 then ts else a[r].transitions;
      var t := src[k];
      assert g'.states[r].transitions[k] == t.(dest := Redirected(t.dest, s1, s0));
      if r == s0 {
        assert Carries(a[s0].transitions, t.symbol, t.dest) || Carries(a[s1].transitions, t.symbol, t.dest);
        var s := if Carries(a[s0].transitions, t.symbol, t.dest) then s0 else s1;
        var i := CarriesWitness(a[s].transitions, t.symbol, t.dest);
        OriginHere(a0, L0, g, m, stamp, clock, s, i);
        OriginPut(a0, L0, m, stamp, clock, s1, s0, s, t.symbol, t.dest);
      } else {
        OriginHere(a0, L0, g, m, stamp, clock, r, k);
        OriginPut(a0, L0, m, stamp, clock, s1, s0, r, t.symbol, t.dest);
      }
    }
  }

  lemma CompleteStep<T(!new)>(a0: Arena<T>, L0: set<nat>, i0: nat, g: Snapshot<T>, m: map<nat, nat>, stamp: map<nat, nat>, clock: nat,
                              s0: nat, s1: nat, eq: (T, T) -> bool)
    requires Determinization.Equivalence(eq)
    requires Canonical(g, m, stamp, clock) && s0 in g.allStates && s1 in g.allStates && s0 != s1
    requires Based(a0, L0, i0, g.initial, g.allStates, m, stamp, clock) && Complete(a0, L0, g.states, m, stamp, clock, eq)
    ensures Ranked(m[s1 := s0], stamp[s1 := clock], clock + 1)
    ensures Complete(a0, L0, Step(g, s0, s1, eq).states, m[s1 := s0], stamp[s1 := clock], clock + 1, eq)
  {
    var a, g' := g.states, Step(g, s0, s1, eq);
    var m', stamp', clock' := m[s1 := s0], stamp[s1 := clock], clock + 1;
    PutRoots(m, stamp, clock, s1, s0, |a|);
    forall y, j | y in L0 && y < |a0| && 0 <= j < |a0[y].transitions|
      ensures Root(m', stamp', clock', y) < |g'.states| && Defines(g'.states[Root(m', stamp', clock', y)].transitions, a0[y].transitions[j].symbol, eq)
    {
      var r, x := Root(m, stamp, clock, y), a0[y].transitions[j].symbol;
      assert r in g.allStates && Defines(a[r].transitions, x, eq);
      if r == s0 || r == s1 {
        StepMerged(g, s0, s1, eq, x);
      } else {
        assert g'.states[r].transitions == Redirect(a[r].transitions, s1, s0);
        RedirectDefines(a[r].transitions, s1, s0, x, eq);
      }
    }
  }

  lemma FreqStep<T(!new)>(a0: Arena<T>, L0: set<nat>, g: Snapshot<T>, m: map<nat, nat>, stamp: map<nat, nat>, clock: nat,
                          s0: nat, s1: nat, eq: (T, T) -> bool)
    requires Determinization.Equivalence(eq)
    requires Canonical(g, m, stamp, clock) && s0 in g.allStates && s1 in g.allStates && s0 != s1
    requires FreqSum(a0, L0, g.states, g.allStates, m, stamp, clock)
    ensures Ranked(m[s1 := s0], stamp[s1 := clock], clock + 1)
    ensures FreqSum(a0, L0, Step(g, s0, s1, eq).states, Step(g, s0, s1, eq).allStates, m[s1 := s0], stamp[s1 := clock], clock + 1)
  {
    var a, g' := g.states, Step(g, s0, s1, eq);
    var m', stamp', clock' := m[s1 := s0], stamp[s1 := clock], clock + 1;
    PutRanked(m, stamp, clock, s1, s0);
    ReplaceMembers(g.allStates, s1, s0);
    forall r | r in g'.allStates && r < |g'.states|
      ensures SumFreq(g'.states[r].transitions) == ClassFreq(a0, L0, m', stamp', clock', r, |a0|)
    {
      assert r == s0 || (r in g.allStates && r != s1);
      if r == s0 {
        AbsorbFreq(a[s0].transitions, a[s1].transitions, s0, s1, eq);
        RedirectFreq(Absorb(a[s0].transitions, a[s1].transitions, s0, s1, eq).0, s1, s0);
        ClassFreqPut(a0, L0, m, stamp, clock, s1, s0, |a0|);
      } else {
        StepOthers(g, s0, s1, eq, r);
        ClassFreqOther(a0, L0, m, stamp, clock, s1, s0, r, |a0|);
      }
    }
  }

  /** A productive pass keeps the history, with `state1`'s class joined to `state0`'s. */
  lemma HistoryStep<T(!new)>(a0: Arena<T>, L0: set<nat>, i0: nat, g: Snapshot<T>, m: map<nat, nat>, stamp: map<nat, nat>, clock: nat,
                             s0: nat, s1: nat, eq: (T, T) -> bool)
    requires Determinization.Equivalence(eq)
    requires Canonical(g, m, stamp, clock) && s0 in g.allStates && s1 in g.allStates && s0 != s1
    requires History(a0, L0, i0, g.states, g.initial, g.allStates, m, stamp, clock, eq)
    ensures var g' := Step(g, s0, s1, eq);
      History(a0, L0, i0, g'.states, g'.initial, g'.allStates, m[s1 := s0], stamp[s1 := clock], clock + 1, eq)
  {
    BasedStep(a0, L0, i0, g, m, stamp, clock, s0, s1, eq);
    FinalStep(a0, L0, g, m, stamp, clock, s0, s1, eq);
    OriginStep(a0, L0, g, m, stamp, clock, s0, s1, eq);
    CompleteStep(a0, L0, i0, g, m, stamp, clock, s0, s1, eq);
    FreqStep(a0, L0, g, m, stamp, clock, s0, s1, eq);
  }

  /** Only which states are listed matters to the history, not their order or repetition. */
  lemma HistoryRelisted<T>(a0: Arena<T>, L0: set<nat>, i0: nat, a: Arena<T>, initial: nat, list: seq<nat>, list': seq<nat>,
                           m: map<nat, nat>, stamp: map<nat, nat>, clock: nat, eq: (T, T) -> bool)
    requires History(a0, L0, i0, a, initial, list, m, stamp, clock, eq) && forall x :: x in list' <==> x in list
    ensures History(a0, L0, i0, a, initial, list', m, stamp, clock, eq)
  {
  }

  // ---------------------------------------------------------------------
  // Which states get joined
  // ---------------------------------------------------------------------

  /** `x` is related to `y` and `y` to `z`: transitivity is applied only where a proof names this chain. */
  ghost predicate RelChain(rel: (nat, nat) -> bool, x: nat, y: nat, z: nat)
  {
    rel(x, y) && rel(y, z)
  }

  /** Transitions `j` of `x` and `k` of `y` read equal symbols, and `x` is related to `y`. */
  ghost predicate Linked<T>(a0: Arena<T>, rel: (nat, nat) -> bool, eq: (T, T) -> bool, x: nat, y: nat, j: nat, k: nat)
  {
    x < |a0| && y < |a0| && rel(x, y) && j < |a0[x].transitions| && k < |a0[y].transitions| &&
    eq(a0[x].transitions[j].symbol, a0[y].transitions[k].symbol)
  }

  /**
   * `rel` is an equivalence on the states `L0` of `a0` that relates the
   * destinations of related states on equal symbols: the relations that are
   * closed under what joining a pair forces `merge` to join next.
   */
  ghost predicate Congruence<T>(a0: Arena<T>, L0: set<nat>, rel: (nat, nat) -> bool, eq: (T, T) -> bool)
  {
    (forall x :: x in L0 ==> rel(x, x)) &&
    (forall x: nat, y: nat :: rel(x, y) ==> rel(y, x)) &&
    (forall x: nat, y: nat, z: nat {:trigger RelChain(rel, x, y, z)} :: RelChain(rel, x, y, z) ==> rel(x, z)) &&
    (forall x: nat, y: nat, j: nat, k: nat {:trigger Linked(a0, rel, eq, x, y, j, k)} ::
       Linked(a0, rel, eq, x, y, j, k) ==> rel(a0[x].transitions[j].dest, a0[y].transitions[k].dest))
  }

  /** States of `L0` that share a representative are related. */
  ghost predicate ClassesWithin(L0: set<nat>, rel: (nat, nat) -> bool, m: map<nat, nat>, stamp: map<nat, nat>, clock: nat)
    requires Ranked(m, stamp, clock)
  {
    forall x, y :: x in L0 && y in L0 && Root(m, stamp, clock, x) == Root(m, stamp, clock, y) ==> rel(x, y)
  }

  /** The representatives of each queued pair are related. */
  ghost predicate QueueWithin(rel: (nat, nat) -> bool, queue: seq<nat>, m: map<nat, nat>, stamp: map<nat, nat>, clock: nat)
    requires Ranked(m, stamp, clock)
  {
    forall k :: 0 <= k < |queue| - 1 && k % 2 == 0 ==> rel(Root(m, stamp, clock, queue[k]), Root(m, stamp, clock, queue[k + 1]))
  }

  /** What the queue drains to stays within `rel`. */
  ghost predicate Faithful(L0: set<nat>, rel: (nat, nat) -> bool, queue: seq<nat>, m: map<nat, nat>, stamp: map<nat, nat>, clock: nat)
  {
    Ranked(m, stamp, clock) && ClassesWithin(L0, rel, m, stamp, clock) && QueueWithin(rel, queue, m, stamp, clock)
  }

  /** The representatives of the states of `L0` are states of `L0`. */
  ghost predicate RootsWithin(L0: set<nat>, m: map<nat, nat>, stamp: map<nat, nat>, clock: nat)
    requires Ranked(m, stamp, clock)
  {
    forall x :: x in L0 ==> Root(m, stamp, clock, x) in L0
  }

  /** Joining two related representatives keeps every class within `rel`. */
  lemma ClassesPut<T>(a0: Arena<T>, L0: set<nat>, rel: (nat, nat) -> bool, eq: (T, T) -> bool,
                      m: map<nat, nat>, stamp: map<nat, nat>, clock: nat, s1: nat, s0: nat)
    requires Ranked(m, stamp, clock) && !Mapped(m, s1) && !Mapped(m, s0) && s1 != s0 && s0 in L0 && s1 in L0
    requires Congruence(a0, L0, rel, eq) && RootsWithin(L0, m, stamp, clock) && ClassesWithin(L0, rel, m, stamp, clock) && rel(s0, s1)
    ensures Ranked(m[s1 := s0], stamp[s1 := clock], clock + 1)
    ensures ClassesWithin(L0, rel, m[s1 := s0], stamp[s1 := clock], clock + 1)
  {
    var m', stamp', clock' := m[s1 := s0], stamp[s1 := clock], clock + 1;
    PutRanked(m, stamp, clock, s1, s0);
    RootFixed(m, stamp, clock, s0);
    RootFixed(m, stamp, clock, s1);
    forall x, y | x in L0 && y in L0 && Root(m', stamp', clock', x) == Root(m', stamp', clock', y) ensures rel(x, y) {
      PutRoot(m, stamp, clock, s1, s0, x);
      PutRoot(m, stamp, clock, s1, s0, y);
      var rx, ry := Root(m, stamp, clock, x), Root(m, stamp, clock, y);
      if rx != ry {
        RootFixed(m, stamp, clock, rx);
        RootFixed(m, stamp, clock, ry);
        assert rx in L0 && ry in L0;
        assert rel(x, rx) && rel(ry, y);
        if rx == s0 {
          assert RelChain(rel, x, s0, s1);
          assert RelChain(rel, x, s1, y);
        } else {
          assert rel(s1, s0);
          assert RelChain(rel, x, s1, s0);
          assert RelChain(rel, x, s0, y);
        }
      }
    }
  }

  /** Redirecting `state1` to `state0` keeps related states related when `state0` and `state1` are. */
  lemma RelRedirected<T>(a0: Arena<T>, L0: set<nat>, rel: (nat, nat) -> bool, eq: (T, T) -> bool, s0: nat, s1: nat, u: nat, v: nat)
    requires Congruence(a0, L0, rel, eq) && rel(s0, s1) && rel(u, v)
    ensures rel(Redirected(u, s1, s0), Redirected(v, s1, s0))
  {
    var u' := Redirected(u, s1, s0);
    if u == s1 {
      assert RelChain(rel, s0, s1, v);
    }
    assert rel(u', v);
    if v == s1 {
      assert rel(s1, s0);
      assert RelChain(rel, u', s1, s0);
    }
  }

  /** A listed state is related to every old state it stands for. */
  lemma ClassRel(L0: set<nat>, rel: (nat, nat) -> bool, m: map<nat, nat>, stamp: map<nat, nat>, clock: nat, r: nat, y: nat)
    requires Ranked(m, stamp, clock) && ClassesWithin(L0, rel, m, stamp, clock)
    requires r in L0 && !Mapped(m, r) && y in L0 && Root(m, stamp, clock, y) == r
    ensures rel(y, r)
  {
    RootFixed(m, stamp, clock, r);
  }

  /**
   * Transitions of related listed states on equal symbols lead to related
   * states: they come from transitions of related old states.
   */
  lemma OriginRel<T(!new)>(a0: Arena<T>, L0: set<nat>, i0: nat, a: Arena<T>, initial: nat, list: seq<nat>,
                           m: map<nat, nat>, stamp: map<nat, nat>, clock: nat, rel: (nat, nat) -> bool, eq: (T, T) -> bool,
                           r: nat, x: T, d: nat, r': nat, x': T, d': nat)
    requires Ranked(m, stamp, clock) && Based(a0, L0, i0, initial, list, m, stamp, clock)
    requires Congruence(a0, L0, rel, eq) && ClassesWithin(L0, rel, m, stamp, clock)
    requires Origin(a0, L0, m, stamp, clock, r, x, d) && Origin(a0, L0, m, stamp, clock, r', x', d')
    requires r in list && r' in list && d in list && d' in list && !Mapped(m, r) && !Mapped(m, r') && !Mapped(m, d) && !Mapped(m, d')
    requires rel(r, r') && eq(x, x')
    ensures rel(d, d')
  {
    var y, j := OriginWitness(a0, L0, m, stamp, clock, r, x, d);
    var y', j' := OriginWitness(a0, L0, m, stamp, clock, r', x', d');
    ClassRel(L0, rel, m, stamp, clock, r, y);
    ClassRel(L0, rel, m, stamp, clock, r', y');
    assert rel(r', y');
    assert RelChain(rel, y, r, r');
    assert RelChain(rel, y, r', y');
    assert Linked(a0, rel, eq, y, y', j, j');
    var e, e' := a0[y].transitions[j].dest, a0[y'].transitions[j'].dest;
    assert e in L0 && e' in L0;
    ClassRel(L0, rel, m, stamp, clock, d, e);
    ClassRel(L0, rel, m, stamp, clock, d', e');
    assert rel(d, e);
    assert RelChain(rel, d, e, e');
    assert RelChain(rel, d, e', d');
  }

  /** The pairs one pass queues are related. */
  lemma PushedRel<T(!new)>(a0: Arena<T>, L0: set<nat>, i0: nat, g: Snapshot<T>, m: map<nat, nat>, stamp: map<nat, nat>, clock: nat,
                           rel: (nat, nat) -> bool, eq: (T, T) -> bool, s0: nat, s1: nat)
    requires Canonical(g, m, stamp, clock) && s0 in g.allStates && s1 in g.allStates && s0 != s1
    requires History(a0, L0, i0, g.states, g.initial, g.allStates, m, stamp, clock, eq)
    requires Congruence(a0, L0, rel, eq) && ClassesWithin(L0, rel, m, stamp, clock) && rel(s0, s1)
    ensures var p := Absorb(g.states[s0].transitions, g.states[s1].transitions, s0, s1, eq).1;
      |p| % 2 == 0 &&
      forall k :: 0 <= k < |p| - 1 && k % 2 == 0 ==> rel(Root(m, stamp, clock, p[k]), Root(m, stamp, clock, p[k + 1]))
  {
    var a := g.states;
    var p := Absorb(a[s0].transitions, a[s1].transitions, s0, s1, eq).1;
    AbsorbPushed(a[s0].transitions, a[s1].transitions, s0, s1, eq);
    forall k | 0 <= k < |p| - 1 && k % 2 == 0 ensures rel(Root(m, stamp, clock, p[k]), Root(m, stamp, clock, p[k + 1])) {
      PairAt(a0, L0, i0, g, m, stamp, clock, rel, eq, s0, s1, p, k);
    }
  }

  lemma PairAt<T(!new)>(a0: Arena<T>, L0: set<nat>, i0: nat, g: Snapshot<T>, m: map<nat, nat>, stamp: map<nat, nat>, clock: nat,
                        rel: (nat, nat) -> bool, eq: (T, T) -> bool, s0: nat, s1: nat, p: seq<nat>, k: nat)
    requires Canonical(g, m, stamp, clock) && s0 in g.allStates && s1 in g.allStates
    requires History(a0, L0, i0, g.states, g.initial, g.allStates, m, stamp, clock, eq)
    requires Congruence(a0, L0, rel, eq) && ClassesWithin(L0, rel, m, stamp, clock) && rel(s0, s1)
    requires PushedFrom(g.states[s0].transitions, g.states[s1].transitions, p, eq) && k < |p| - 1 && k % 2 == 0
    ensures rel(Root(m, stamp, clock, p[k]), Root(m, stamp, clock, p[k + 1]))
  {
    var a := g.states;
    var x, y :| (Carries(a[s0].transitions, x, p[k]) || Carries(a[s1].transitions, x, p[k])) &&
      Carries(a[s1].transitions, y, p[k + 1]) && eq(x, y);
    var s := if Carries(a[s0].transitions, x, p[k]) then s0 else s1;
    PairRel(a0, L0, i0, g, m, stamp, clock, rel, eq, s0, s1, s, x, p[k], y, p[k + 1]);
  }

  /** One queued pair: its states are reached on equal symbols from related listed states. */
  lemma PairRel<T(!new)>(a0: Arena<T>, L0: set<nat>, i0: nat, g: Snapshot<T>, m: map<nat, nat>, stamp: map<nat, nat>, clock: nat,
                         rel: (nat, nat) -> bool, eq: (T, T) -> bool, s0: nat, s1: nat, s: nat, x: T, u: nat, y: T, v: nat)
    requires Ranked(m, stamp, clock) && Based(a0, L0, i0, g.initial, g.allStates, m, stamp, clock)
    requires Originate(a0, L0, g.states, g.allStates, m, stamp, clock) && forall z :: z in g.allStates ==> !Mapped(m, z)
    requires s0 in g.allStates && s1 in g.allStates && (s == s0 || s == s1) && s < |g.states| && s1 < |g.states|
    requires LeadsInto(g.states[s].transitions, set z | z in g.allStates) && LeadsInto(g.states[s1].transitions, set z | z in g.allStates)
    requires Congruence(a0, L0, rel, eq) && ClassesWithin(L0, rel, m, stamp, clock) && rel(s0, s1)
    requires Carries(g.states[s].transitions, x, u) && Carries(g.states[s1].transitions, y, v) && eq(x, y)
    ensures rel(Root(m, stamp, clock, u), Root(m, stamp, clock, v))
  {
    var a := g.states;
    var i := CarriesWitness(a[s].transitions, x, u);
    var i' := CarriesWitness(a[s1].transitions, y, v);
    OriginHere(a0, L0, g, m, stamp, clock, s, i);
    OriginHere(a0, L0, g, m, stamp, clock, s1, i');
    assert u in g.allStates && v in g.allStates;
    assert rel(s, s1) by {
      if s == s1 { assert s1 in L0; }
    }
    OriginRel(a0, L0, i0, g.states, g.initial, g.allStates, m, stamp, clock, rel, eq, s, x, u, s1, y, v);
    RootFixed(m, stamp, clock, u);
    RootFixed(m, stamp, clock, v);
  }

  /** A productive pass keeps the classes and the queue within a congruence that holds the front pair. */
  lemma FaithfulStep<T(!new)>(a0: Arena<T>, L0: set<nat>, i0: nat, g: Snapshot<T>, m: map<nat, nat>, stamp: map<nat, nat>, clock: nat,
                              rel: (nat, nat) -> bool, eq: (T, T) -> bool, s0: nat, s1: nat)
    requires Canonical(g, m, stamp, clock) && |g.queue| >= 2
    requires s0 == Root(m, stamp, clock, g.queue[0]) && s1 == Root(m, stamp, clock, g.queue[1]) && s0 != s1
    requires History(a0, L0, i0, g.states, g.initial, g.allStates, m, stamp, clock, eq)
    requires Congruence(a0, L0, rel, eq) && Faithful(L0, rel, g.queue, m, stamp, clock)
    ensures s0 < |g.states| && s1 < |g.states|
    ensures Faithful(L0, rel, Step(g.(queue := g.queue[2..]), s0, s1, eq).queue, m[s1 := s0], stamp[s1 := clock], clock + 1)
  {
    var m', stamp', clock' := m[s1 := s0], stamp[s1 := clock], clock + 1;
    CanonicalPop(g, m, stamp, clock);
    var g1 := g.(queue := g.queue[2..]);
    assert rel(s0, s1);
    assert RootsWithin(L0, m, stamp, clock);
    ClassesPut(a0, L0, rel, eq, m, stamp, clock, s1, s0);
    PushedRel(a0, L0, i0, g1, m, stamp, clock, rel, eq, s0, s1);
    var p := Absorb(g.states[s0].transitions, g.states[s1].transitions, s0, s1, eq).1;
    QueueJoined(a0, L0, rel, eq, m, stamp, clock, g.queue, p, s0, s1);
    assert Step(g1, s0, s1, eq).queue == Replace(g.queue[2..] + p, s1, s0);
  }

  /** The rest of the queue and the new pairs, redirected, stay related. */
  lemma QueueJoined<T>(a0: Arena<T>, L0: set<nat>, rel: (nat, nat) -> bool, eq: (T, T) -> bool,
                       m: map<nat, nat>, stamp: map<nat, nat>, clock: nat, queue: seq<nat>, p: seq<nat>, s0: nat, s1: nat)
    requires Ranked(m, stamp, clock) && !Mapped(m, s1) && !Mapped(m, s0) && s1 != s0
    requires Congruence(a0, L0, rel, eq) && rel(s0, s1) && |queue| >= 2 && |queue| % 2 == 0
    requires QueueWithin(rel, queue, m, stamp, clock)
    requires forall k :: 0 <= k < |p| - 1 && k % 2 == 0 ==> rel(Root(m, stamp, clock, p[k]), Root(m, stamp, clock, p[k + 1]))
    ensures Ranked(m[s1 := s0], stamp[s1 := clock], clock + 1)
    ensures QueueWithin(rel, Replace(queue[2..] + p, s1, s0), m[s1 := s0], stamp[s1 := clock], clock + 1)
  {
    var m', stamp', clock' := m[s1 := s0], stamp[s1 := clock], clock + 1;
    PutRanked(m, stamp, clock, s1, s0);
    var q := queue[2..] + p;
    var q' := Replace(q, s1, s0);
    forall k | 0 <= k < |q'| - 1 && k % 2 == 0 ensures rel(Root(m', stamp', clock', q'[k]), Root(m', stamp', clock', q'[k + 1])) {
      if k < |queue| - 2 {
        assert q[k] == queue[k + 2] && q[k + 1] == queue[k + 3];
      } else {
        var k' := k - (|queue| - 2);
        assert q[k] == p[k'] && q[k + 1] == p[k' + 1];
      }
      PairRedirected(a0, L0, rel, eq, m, stamp, clock, s1, s0, q[k], q[k + 1]);
      assert q'[k] == Redirected(q[k], s1, s0) && q'[k + 1] == Redirected(q[k + 1], s1, s0);
    }
  }

  /** A related pair of representatives stays related once `s1` is merged into `s0`. */
  lemma PairRedirected<T>(a0: Arena<T>, L0: set<nat>, rel: (nat, nat) -> bool, eq: (T, T) -> bool,
                          m: map<nat, nat>, stamp: map<nat, nat>, clock: nat, s1: nat, s0: nat, x: nat, y: nat)
    requires Ranked(m, stamp, clock) && !Mapped(m, s1) && !Mapped(m, s0) && s1 != s0
    requires Congruence(a0, L0, rel, eq) && rel(s0, s1)
    requires rel(Root(m, stamp, clock, x), Root(m, stamp, clock, y))
    ensures Ranked(m[s1 := s0], stamp[s1 := clock], clock + 1)
    ensures rel(Root(m[s1 := s0], stamp[s1 := clock], clock + 1, Redirected(x, s1, s0)),
                Root(m[s1 := s0], stamp[s1 := clock], clock + 1, Redirected(y, s1, s0)))
  {
    RootRedirected(m, stamp, clock, s1, s0, x);
    RootRedirected(m, stamp, clock, s1, s0, y);
    RelRedirected(a0, L0, rel, eq, s0, s1, Root(m, stamp, clock, x), Root(m, stamp, clock, y));
  }

  /** Dropping a pair that already shares a representative. */
  lemma FaithfulSkip(L0: set<nat>, rel: (nat, nat) -> bool, queue: seq<nat>, m: map<nat, nat>, stamp: map<nat, nat>, clock: nat)
    requires Faithful(L0, rel, queue, m, stamp, clock) && |queue| >= 2 && |queue| % 2 == 0
    ensures Faithful(L0, rel, queue[2..], m, stamp, clock)
  {
    forall k | 0 <= k < |queue[2..]| - 1 && k % 2 == 0
      ensures rel(Root(m, stamp, clock, queue[2..][k]), Root(m, stamp, clock, queue[2..][k + 1]))
    {
      assert queue[2..][k] == queue[k + 2] && queue[2..][k + 1] == queue[k + 3];
    }
  }

  // ---------------------------------------------------------------------
  // The language of the merged automaton
  // ---------------------------------------------------------------------

  /** `x` and `y` accept the same suffixes, with or without finality asked for. */
  ghost predicate SameLanguage<T(!new)>(a0: Arena<T>, x: nat, y: nat, eq: (T, T) -> bool)
  {
    Closed(a0) && x < |a0| && y < |a0| &&
    forall onlyFinal: bool, sq: seq<T>, i: nat {:trigger Accepts(a0, onlyFinal, x, sq, i, eq), Accepts(a0, onlyFinal, y, sq, i, eq)} ::
      i <= |sq| ==> (Accepts(a0, onlyFinal, x, sq, i, eq) <==> Accepts(a0, onlyFinal, y, sq, i, eq))
  }

  /** Related states of `L0` accept the same suffixes. */
  ghost predicate Alike<T(!new)>(a0: Arena<T>, L0: set<nat>, rel: (nat, nat) -> bool, eq: (T, T) -> bool)
  {
    Closed(a0) && forall x, y :: x in L0 && y in L0 && rel(x, y) ==> SameLanguage(a0, x, y, eq)
  }

  /** From offset `i` on, each old state accepts what its representative accepts. */
  ghost predicate AgreeAt<T>(a0: Arena<T>, L0: set<nat>, a: Arena<T>, m: map<nat, nat>, stamp: map<nat, nat>, clock: nat,
                             onlyFinal: bool, sq: seq<T>, i: nat, eq: (T, T) -> bool)
    requires Closed(a0) && Closed(a) && Ranked(m, stamp, clock) && i <= |sq|
  {
    forall d :: d in L0 ==>
      d < |a0| && Root(m, stamp, clock, d) < |a| &&
      (Accepts(a, onlyFinal, Root(m, stamp, clock, d), sq, i, eq) <==> Accepts(a0, onlyFinal, d, sq, i, eq))
  }

  /** The facts the language argument rests on. */
  ghost predicate Merged<T(!new)>(a0: Arena<T>, L0: set<nat>, i0: nat, a: Arena<T>, initial: nat, list: seq<nat>,
                                  m: map<nat, nat>, stamp: map<nat, nat>, clock: nat, rel: (nat, nat) -> bool, eq: (T, T) -> bool)
  {
    Determinization.Equivalence(eq) &&
    Canonical(Snapshot(a, initial, list, []), m, stamp, clock) && History(a0, L0, i0, a, initial, list, m, stamp, clock, eq) &&
    Congruence(a0, L0, rel, eq) && Alike(a0, L0, rel, eq) && ClassesWithin(L0, rel, m, stamp, clock)
  }

  /** At the end of the sequence a representative answers as the states it stands for. */
  lemma FinalAlike<T(!new)>(a0: Arena<T>, L0: set<nat>, i0: nat, a: Arena<T>, initial: nat, list: seq<nat>,
                            m: map<nat, nat>, stamp: map<nat, nat>, clock: nat, rel: (nat, nat) -> bool, eq: (T, T) -> bool,
                            onlyFinal: bool, x: nat, sq: seq<T>)
    requires Merged(a0, L0, i0, a, initial, list, m, stamp, clock, rel, eq) && x in L0
    ensures Root(m, stamp, clock, x) < |a| && x < |a0|
    ensures Accepts(a, onlyFinal, Root(m, stamp, clock, x), sq, |sq|, eq) <==> Accepts(a0, onlyFinal, x, sq, |sq|, eq)
  {
    var r := Root(m, stamp, clock, x);
    assert r in list;
    if onlyFinal {
      if a0[x].isFinal {
        assert HasFinal(a0, L0, m, stamp, clock, r);
      }
      if a[r].isFinal {
        var y := FinalWitness(a0, L0, m, stamp, clock, r);
        assert SameLanguage(a0, x, y, eq);
        assert Accepts(a0, true, y, sq, |sq|, eq);
      }
    }
  }

  /** States with one representative accept alike. */
  lemma AlikeClass<T(!new)>(a0: Arena<T>, L0: set<nat>, rel: (nat, nat) -> bool, eq: (T, T) -> bool,
                            m: map<nat, nat>, stamp: map<nat, nat>, clock: nat, x: nat, y: nat, onlyFinal: bool, sq: seq<T>, i: nat)
    requires Ranked(m, stamp, clock) && Alike(a0, L0, rel, eq) && ClassesWithin(L0, rel, m, stamp, clock)
    requires x in L0 && y in L0 && Root(m, stamp, clock, x) == Root(m, stamp, clock, y) && i <= |sq|
    ensures x < |a0| && y < |a0| && (Accepts(a0, onlyFinal, x, sq, i, eq) <==> Accepts(a0, onlyFinal, y, sq, i, eq))
  {
    assert SameLanguage(a0, x, y, eq);
  }

  /** A transition of a representative that leads to acceptance comes from an old state that accepts. */
  lemma DownEdge<T>(a0: Arena<T>, L0: set<nat>, i0: nat, a: Arena<T>, initial: nat, list: seq<nat>,
                    m: map<nat, nat>, stamp: map<nat, nat>, clock: nat, eq: (T, T) -> bool,
                    onlyFinal: bool, r: nat, sq: seq<T>, i: nat)
    returns (y: nat)
    requires Ranked(m, stamp, clock) && Based(a0, L0, i0, initial, list, m, stamp, clock) && Closed(a)
    requires Originate(a0, L0, a, list, m, stamp, clock) && r in list && r < |a| && i < |sq|
    requires AgreeAt(a0, L0, a, m, stamp, clock, onlyFinal, sq, i + 1, eq) && Accepts(a, onlyFinal, r, sq, i, eq)
    ensures y in L0 && y < |a0| && Root(m, stamp, clock, y) == r && Accepts(a0, onlyFinal, y, sq, i, eq)
  {
    var k := Determinization.ViaExists(a, onlyFinal, r, sq, i, 0, eq);
    var t := a[r].transitions[k];
    assert Origin(a0, L0, m, stamp, clock, r, t.symbol, t.dest);
    var j;
    y, j := OriginWitness(a0, L0, m, stamp, clock, r, t.symbol, t.dest);
    var d := a0[y].transitions[j].dest;
    assert d in L0;
    ViaWitness(a0, onlyFinal, y, sq, i, 0, j, eq);
  }

  /** What a representative accepts, the state it stands for accepts. */
  lemma AcceptsDown<T(!new)>(a0: Arena<T>, L0: set<nat>, i0: nat, a: Arena<T>, initial: nat, list: seq<nat>,
                             m: map<nat, nat>, stamp: map<nat, nat>, clock: nat, rel: (nat, nat) -> bool, eq: (T, T) -> bool,
                             onlyFinal: bool, x: nat, sq: seq<T>, i: nat)
    requires Merged(a0, L0, i0, a, initial, list, m, stamp, clock, rel, eq) && x in L0 && i < |sq|
    requires AgreeAt(a0, L0, a, m, stamp, clock, onlyFinal, sq, i + 1, eq)
    requires Root(m, stamp, clock, x) < |a| && Accepts(a, onlyFinal, Root(m, stamp, clock, x), sq, i, eq)
    ensures x < |a0| && Accepts(a0, onlyFinal, x, sq, i, eq)
  {
    var y := DownEdge(a0, L0, i0, a, initial, list, m, stamp, clock, eq, onlyFinal, Root(m, stamp, clock, x), sq, i);
    AlikeClass(a0, L0, rel, eq, m, stamp, clock, x, y, onlyFinal, sq, i);
  }

  /** A transition of an old state that leads to acceptance, and its representative's transition on an equal symbol. */
  lemma UpTake<T(!new)>(a0: Arena<T>, L0: set<nat>, i0: nat, a: Arena<T>, initial: nat, list: seq<nat>,
                        m: map<nat, nat>, stamp: map<nat, nat>, clock: nat, eq: (T, T) -> bool,
                        onlyFinal: bool, x: nat, sq: seq<T>, i: nat)
    returns (k: nat, j: nat)
    requires Determinization.Equivalence(eq) && Ranked(m, stamp, clock) && Closed(a)
    requires Based(a0, L0, i0, initial, list, m, stamp, clock) && Complete(a0, L0, a, m, stamp, clock, eq)
    requires x in L0 && i < |sq| && x < |a0| && Accepts(a0, onlyFinal, x, sq, i, eq)
    ensures var r := Root(m, stamp, clock, x);
      && r in list && r < |a| && k < |a[r].transitions| && eq(a[r].transitions[k].symbol, sq[i])
      && j < |a0[x].transitions| && Accepts(a0, onlyFinal, a0[x].transitions[j].dest, sq, i + 1, eq)
      && eq(a0[x].transitions[j].symbol, a[r].transitions[k].symbol)
  {
    var r := Root(m, stamp, clock, x);
    assert r in list;
    j := Determinization.ViaExists(a0, onlyFinal, x, sq, i, 0, eq);
    var sigma := a0[x].transitions[j].symbol;
    assert Defines(a[r].transitions, sigma, eq);
    k := DefinesWitness(a[r].transitions, sigma, eq);
    assert Determinization.Chain(eq, a[r].transitions[k].symbol, sigma, sq[i]);
  }

  /**
   * A transition of an old state that leads to acceptance is matched by one of
   * its representative's, taken over from an old state of the same class on an
   * equal symbol.
   */
  lemma UpEdge<T(!new)>(a0: Arena<T>, L0: set<nat>, i0: nat, a: Arena<T>, initial: nat, list: seq<nat>,
                        m: map<nat, nat>, stamp: map<nat, nat>, clock: nat, eq: (T, T) -> bool,
                        onlyFinal: bool, x: nat, sq: seq<T>, i: nat)
    returns (k: nat, j: nat, y: nat, j': nat)
    requires Determinization.Equivalence(eq) && Ranked(m, stamp, clock) && Closed(a) && InArena(list, a)
    requires Based(a0, L0, i0, initial, list, m, stamp, clock)
    requires Originate(a0, L0, a, list, m, stamp, clock) && Complete(a0, L0, a, m, stamp, clock, eq)
    requires x in L0 && i < |sq| && x < |a0| && Accepts(a0, onlyFinal, x, sq, i, eq)
    ensures var r := Root(m, stamp, clock, x);
      && r in list && r < |a| && k < |a[r].transitions| && eq(a[r].transitions[k].symbol, sq[i])
      && j < |a0[x].transitions| && Accepts(a0, onlyFinal, a0[x].transitions[j].dest, sq, i + 1, eq)
      && y in L0 && y < |a0| && Root(m, stamp, clock, y) == r && j' < |a0[y].transitions|
      && eq(a0[x].transitions[j].symbol, a0[y].transitions[j'].symbol)
      && Root(m, stamp, clock, a0[y].transitions[j'].dest) == a[r].transitions[k].dest
  {
    k, j := UpTake(a0, L0, i0, a, initial, list, m, stamp, clock, eq, onlyFinal, x, sq, i);
    var r := Root(m, stamp, clock, x);
    var t := a[r].transitions[k];
    assert Origin(a0, L0, m, stamp, clock, r, t.symbol, t.dest);
    y, j' := OriginWitness(a0, L0, m, stamp, clock, r, t.symbol, t.dest);
  }

  /** What a state accepts, its representative accepts. */
  lemma AcceptsUp<T(!new)>(a0: Arena<T>, L0: set<nat>, i0: nat, a: Arena<T>, initial: nat, list: seq<nat>,
                           m: map<nat, nat>, stamp: map<nat, nat>, clock: nat, rel: (nat, nat) -> bool, eq: (T, T) -> bool,
                           onlyFinal: bool, x: nat, sq: seq<T>, i: nat)
    requires Merged(a0, L0, i0, a, initial, list, m, stamp, clock, rel, eq) && x in L0 && i < |sq|
    requires AgreeAt(a0, L0, a, m, stamp, clock, onlyFinal, sq, i + 1, eq)
    requires x < |a0| && Accepts(a0, onlyFinal, x, sq, i, eq)
    ensures Root(m, stamp, clock, x) < |a| && Accepts(a, onlyFinal, Root(m, stamp, clock, x), sq, i, eq)
  {
    var k, j, y, j' := UpEdge(a0, L0, i0, a, initial, list, m, stamp, clock, eq, onlyFinal, x, sq, i);
    UpJoin(a0, L0, a, m, stamp, clock, rel, eq, onlyFinal, x, sq, i, k, j, y, j');
  }

  /** The matched transition's destination accepts, by the congruence and the agreement one symbol on. */
  lemma UpJoin<T(!new)>(a0: Arena<T>, L0: set<nat>, a: Arena<T>, m: map<nat, nat>, stamp: map<nat, nat>, clock: nat,
                        rel: (nat, nat) -> bool, eq: (T, T) -> bool, onlyFinal: bool, x: nat, sq: seq<T>, i: nat,
                        k: nat, j: nat, y: nat, j': nat)
    requires Ranked(m, stamp, clock) && Closed(a0) && Closed(a) && i < |sq|
    requires Congruence(a0, L0, rel, eq) && Alike(a0, L0, rel, eq) && ClassesWithin(L0, rel, m, stamp, clock)
    requires AgreeAt(a0, L0, a, m, stamp, clock, onlyFinal, sq, i + 1, eq)
    requires forall z :: z in L0 ==> z < |a0| && LeadsInto(a0[z].transitions, L0)
    requires x in L0 && x < |a0| && y in L0 && y < |a0|
    requires var r := Root(m, stamp, clock, x);
      && r < |a| && k < |a[r].transitions| && eq(a[r].transitions[k].symbol, sq[i])
      && j < |a0[x].transitions| && Accepts(a0, onlyFinal, a0[x].transitions[j].dest, sq, i + 1, eq)
      && Root(m, stamp, clock, y) == r && j' < |a0[y].transitions|
      && eq(a0[x].transitions[j].symbol, a0[y].transitions[j'].symbol)
      && Root(m, stamp, clock, a0[y].transitions[j'].dest) == a[r].transitions[k].dest
    ensures Root(m, stamp, clock, x) < |a| && Accepts(a, onlyFinal, Root(m, stamp, clock, x), sq, i, eq)
  {
    var r := Root(m, stamp, clock, x);
    var d, d' := a0[x].transitions[j].dest, a0[y].transitions[j'].dest;
    assert rel(x, y);
    assert Linked(a0, rel, eq, x, y, j, j');
    assert d in L0 && d' in L0;
    assert SameLanguage(a0, d, d', eq);
    assert Accepts(a0, onlyFinal, d', sq, i + 1, eq);
    ViaWitness(a, onlyFinal, r, sq, i, 0, k, eq);
  }

  /**
   * Merging within a congruence whose related states accept alike keeps every
   * language: each old state accepts exactly what its representative accepts.
   */
  lemma {:induction false} MergedAccepts<T(!new)>(a0: Arena<T>, L0: set<nat>, i0: nat, a: Arena<T>, initial: nat, list: seq<nat>,
                                                  m: map<nat, nat>, stamp: map<nat, nat>, clock: nat, rel: (nat, nat) -> bool,
                                                  eq: (T, T) -> bool, onlyFinal: bool, sq: seq<T>, i: nat)
    requires Merged(a0, L0, i0, a, initial, list, m, stamp, clock, rel, eq) && i <= |sq|
    ensures Closed(a0) && Closed(a)
    ensures AgreeAt(a0, L0, a, m, stamp, clock, onlyFinal, sq, i, eq)
    decreases |sq| - i
  {
    if i < |sq| {
      MergedAccepts(a0, L0, i0, a, initial, list, m, stamp, clock, rel, eq, onlyFinal, sq, i + 1);
    }
    AgreeAll(a0, L0, i0, a, initial, list, m, stamp, clock, rel, eq, onlyFinal, sq, i);
  }

  /** Every state at offset `i`, given the agreement at `i + 1`. */
  lemma AgreeAll<T(!new)>(a0: Arena<T>, L0: set<nat>, i0: nat, a: Arena<T>, initial: nat, list: seq<nat>,
                          m: map<nat, nat>, stamp: map<nat, nat>, clock: nat, rel: (nat, nat) -> bool,
                          eq: (T, T) -> bool, onlyFinal: bool, sq: seq<T>, i: nat)
    requires Merged(a0, L0, i0, a, initial, list, m, stamp, clock, rel, eq) && i <= |sq|
    requires i < |sq| ==> AgreeAt(a0, L0, a, m, stamp, clock, onlyFinal, sq, i + 1, eq)
    ensures Closed(a0) && Closed(a)
    ensures AgreeAt(a0, L0, a, m, stamp, clock, onlyFinal, sq, i, eq)
  {
    forall x | x in L0
      ensures x < |a0| && Root(m, stamp, clock, x) < |a| &&
        (Accepts(a, onlyFinal, Root(m, stamp, clock, x), sq, i, eq) <==> Accepts(a0, onlyFinal, x, sq, i, eq))
    {
      AgreeOne(a0, L0, i0, a, initial, list, m, stamp, clock, rel, eq, onlyFinal, x, sq, i);
    }
  }

  /** One state at offset `i`, given the agreement at `i + 1`. */
  lemma AgreeOne<T(!new)>(a0: Arena<T>, L0: set<nat>, i0: nat, a: Arena<T>, initial: nat, list: seq<nat>,
                          m: map<nat, nat>, stamp: map<nat, nat>, clock: nat, rel: (nat, nat) -> bool,
                          eq: (T, T) -> bool, onlyFinal: bool, x: nat, sq: seq<T>, i: nat)
    requires Merged(a0, L0, i0, a, initial, list, m, stamp, clock, rel, eq) && x in L0 && i <= |sq|
    requires i < |sq| ==> AgreeAt(a0, L0, a, m, stamp, clock, onlyFinal, sq, i + 1, eq)
    ensures x < |a0| && Root(m, stamp, clock, x) < |a| &&
      (Accepts(a, onlyFinal, Root(m, stamp, clock, x), sq, i, eq) <==> Accepts(a0, onlyFinal, x, sq, i, eq))
  {
    assert Root(m, stamp, clock, x) in list;
    if i == |sq| {
      FinalAlike(a0, L0, i0, a, initial, list, m, stamp, clock, rel, eq, onlyFinal, x, sq);
    } else {
      if Accepts(a, onlyFinal, Root(m, stamp, clock, x), sq, i, eq) {
        AcceptsDown(a0, L0, i0, a, initial, list, m, stamp, clock, rel, eq, onlyFinal, x, sq, i);
      }
      if Accepts(a0, onlyFinal, x, sq, i, eq) {
        AcceptsUp(a0, L0, i0, a, initial, list, m, stamp, clock, rel, eq, onlyFinal, x, sq, i);
      }
    }
  }

  /** The merged automaton accepts from its initial state what the old one accepted from its own. */
  lemma MergedLanguage<T(!new)>(a0: Arena<T>, L0: set<nat>, i0: nat, a: Arena<T>, initial: nat, list: seq<nat>,
                                m: map<nat, nat>, stamp: map<nat, nat>, clock: nat, rel: (nat, nat) -> bool, eq: (T, T) -> bool)
    requires Merged(a0, L0, i0, a, initial, list, m, stamp, clock, rel, eq)
    ensures Closed(a0) && Closed(a) && i0 < |a0| && initial < |a|
    ensures forall onlyFinal: bool, sq: seq<T> ::
      Accepts(a, onlyFinal, initial, sq, 0, eq) <==> Accepts(a0, onlyFinal, i0, sq, 0, eq)
  {
    forall onlyFinal: bool, sq: seq<T> ensures Accepts(a, onlyFinal, initial, sq, 0, eq) <==> Accepts(a0, onlyFinal, i0, sq, 0, eq) {
      MergedAccepts(a0, L0, i0, a, initial, list, m, stamp, clock, rel, eq, onlyFinal, sq, 0);
    }
  }

  lemma SubsetSize(p: set<nat>, q: set<nat>)
    requires p <= q
    ensures |p| <= |q|
  {
    assert q == p + (q - p);
  }

  lemma ProperSubsetSize(p: set<nat>, q: set<nat>)
    requires p < q
    ensures |p| < |q|
  {
    assert q == p + (q - p);
    assert q - p != {};
  }

  /** What the `merge` loop on the automaton's fields keeps between passes. */
  ghost predicate DrainProgress<T(!new)>(a: Arena<T>, allStates: seq<nat>, queue0: seq<nat>,
                                        m0: map<nat, nat>, stamp0: map<nat, nat>, clock0: nat, eq: (T, T) -> bool,
                                        a0: Arena<T>, L0: set<nat>, i0: nat,
                                        g: Snapshot<T>, m: map<nat, nat>, stamp: map<nat, nat>, clock: nat, done: nat)
  {
    |g.states| == |a| && Tracks(allStates, g.allStates, m, stamp, clock) &&
    DrainInv(g, m, stamp, clock, m0, stamp0, clock0, queue0, done) &&
    History(a0, L0, i0, g.states, g.initial, g.allStates, m, stamp, clock, eq) &&
    forall rel :: Congruence(a0, L0, rel, eq) && Faithful(L0, rel, queue0, m0, stamp0, clock0) ==>
      Faithful(L0, rel, g.queue, m, stamp, clock)
  }

  /**
   * One pass of the `merge` loop: the front pair is taken off the queue and,
   * when its two states have different representatives, those are merged.
   */
  method DrainPass<T(!new)>(ghost a: Arena<T>, ghost allStates: seq<nat>, ghost queue0: seq<nat>,
                      ghost m0: map<nat, nat>, ghost stamp0: map<nat, nat>, ghost clock0: nat, eq: (T, T) -> bool,
                      ghost a0: Arena<T>, ghost L0: set<nat>, ghost i0: nat,
                      b: Arena<T>, initial: nat, list: seq<nat>, queue: seq<nat>,
                      m: map<nat, nat>, ghost stamp: map<nat, nat>, ghost clock: nat, ghost done: nat)
    returns (b': Arena<T>, initial': nat, list': seq<nat>, queue': seq<nat>,
             m': map<nat, nat>, ghost stamp': map<nat, nat>, ghost clock': nat, ghost done': nat)
    requires Determinization.Equivalence(eq) && queue != []
    requires DrainProgress(a, allStates, queue0, m0, stamp0, clock0, eq, a0, L0, i0, Snapshot(b, initial, list, queue), m, stamp, clock, done)
    ensures DrainProgress(a, allStates, queue0, m0, stamp0, clock0, eq, a0, L0, i0, Snapshot(b', initial', list', queue'), m', stamp', clock', done')
    ensures |Reps(m', |a|)| < |Reps(m, |a|)| || (m' == m && |queue'| < |queue|)
  {
    var g := Snapshot(b, initial, list, queue);
    DrainFront(g, m, stamp, clock);
    var s0 := GetMergedState(m, stamp, clock, queue[0]);
    var s1 := GetMergedState(m, stamp, clock, queue[1]);
    done' := Advance(queue0, done);
    if s0 != s1 {
      b', initial', list', queue', m', stamp', clock' :=
        MergePass(a, allStates, queue0, m0, stamp0, clock0, eq, a0, L0, i0, g, m, stamp, clock, done, s0, s1);
    } else {
      DrainSkip(g, m, stamp, clock, m0, stamp0, clock0, queue0, done);
      forall rel | Faithful(L0, rel, queue, m, stamp, clock) ensures Faithful(L0, rel, queue[2..], m, stamp, clock) {
        FaithfulSkip(L0, rel, queue, m, stamp, clock);
      }
      b', initial', list', queue', m', stamp', clock' := b, initial, list, queue[2..], m, stamp, clock;
    }
  }

  /** A productive pass keeps the loop's bookkeeping: lengths, tracking and the canonical form. */
  lemma MergePassShape<T>(a: Arena<T>, allStates: seq<nat>, queue0: seq<nat>,
                          m0: map<nat, nat>, stamp0: map<nat, nat>, clock0: nat, eq: (T, T) -> bool,
                          g: Snapshot<T>, m: map<nat, nat>, stamp: map<nat, nat>, clock: nat, done: nat, s0: nat, s1: nat)
    requires |g.queue| >= 2 && |g.states| == |a| && Tracks(allStates, g.allStates, m, stamp, clock)
    requires DrainInv(g, m, stamp, clock, m0, stamp0, clock0, queue0, done)
    requires s0 == Root(m, stamp, clock, g.queue[0]) && s1 == Root(m, stamp, clock, g.queue[1]) && s0 != s1
    ensures s0 < |g.states| && s1 < |g.states|
    ensures var g' := Step(g.(queue := g.queue[2..]), s0, s1, eq);
      |g'.states| == |a| && Tracks(allStates, g'.allStates, m[s1 := s0], stamp[s1 := clock], clock + 1) &&
      DrainInv(g', m[s1 := s0], stamp[s1 := clock], clock + 1, m0, stamp0, clock0, queue0, Advance(queue0, done)) &&
      Reps(m[s1 := s0], |a|) < Reps(m, |a|)
  {
    DrainMerge(g, m, stamp, clock, m0, stamp0, clock0, queue0, done, s0, s1, eq);
    TracksMerge(allStates, g.allStates, m, stamp, clock, s0, s1);
  }

  /** A productive pass keeps the history against the base automaton and the faithfulness of every congruence. */
  lemma MergePassHistory<T(!new)>(a0: Arena<T>, L0: set<nat>, i0: nat, queue0: seq<nat>,
                                  m0: map<nat, nat>, stamp0: map<nat, nat>, clock0: nat, eq: (T, T) -> bool,
                                  g: Snapshot<T>, m: map<nat, nat>, stamp: map<nat, nat>, clock: nat, s0: nat, s1: nat)
    requires Determinization.Equivalence(eq) && |g.queue| >= 2 && Canonical(g, m, stamp, clock)
    requires s0 == Root(m, stamp, clock, g.queue[0]) && s1 == Root(m, stamp, clock, g.queue[1]) && s0 != s1
    requires History(a0, L0, i0, g.states, g.initial, g.allStates, m, stamp, clock, eq)
    requires forall rel :: Congruence(a0, L0, rel, eq) && Faithful(L0, rel, queue0, m0, stamp0, clock0) ==>
      Faithful(L0, rel, g.queue, m, stamp, clock)
    ensures s0 < |g.states| && s1 < |g.states|
    ensures var g' := Step(g.(queue := g.queue[2..]), s0, s1, eq);
      History(a0, L0, i0, g'.states, g'.initial, g'.allStates, m[s1 := s0], stamp[s1 := clock], clock + 1, eq) &&
      forall rel :: Congruence(a0, L0, rel, eq) && Faithful(L0, rel, queue0, m0, stamp0, clock0) ==>
        Faithful(L0, rel, g'.queue, m[s1 := s0], stamp[s1 := clock], clock + 1)
  {
    CanonicalPop(g, m, stamp, clock);
    var g1 := g.(queue := g.queue[2..]);
    HistoryStep(a0, L0, i0, g1, m, stamp, clock, s0, s1, eq);
    forall rel | Congruence(a0, L0, rel, eq) && Faithful(L0, rel, g.queue, m, stamp, clock)
      ensures Faithful(L0, rel, Step(g1, s0, s1, eq).queue, m[s1 := s0], stamp[s1 := clock], clock + 1)
    {
      FaithfulStep(a0, L0, i0, g, m, stamp, clock, rel, eq, s0, s1);
    }
  }

  /** A productive pass keeps what the loop keeps, and removes a representative. */
  lemma MergePassProgress<T(!new)>(a: Arena<T>, allStates: seq<nat>, queue0: seq<nat>,
                                   m0: map<nat, nat>, stamp0: map<nat, nat>, clock0: nat, eq: (T, T) -> bool,
                                   a0: Arena<T>, L0: set<nat>, i0: nat,
                                   g: Snapshot<T>, m: map<nat, nat>, stamp: map<nat, nat>, clock: nat, done: nat, s0: nat, s1: nat,
                                   g': Snapshot<T>, m': map<nat, nat>, stamp': map<nat, nat>, clock': nat, done': nat)
    requires Determinization.Equivalence(eq) && |g.queue| >= 2 && Ranked(m, stamp, clock)
    requires DrainProgress(a, allStates, queue0, m0, stamp0, clock0, eq, a0, L0, i0, g, m, stamp, clock, done)
    requires s0 == Root(m, stamp, clock, g.queue[0]) && s1 == Root(m, stamp, clock, g.queue[1]) && s0 != s1
    requires s0 < |g.states| && s1 < |g.states| && g' == Step(g.(queue := g.queue[2..]), s0, s1, eq)
    requires m' == m[s1 := s0] && stamp' == stamp[s1 := clock] && clock' == clock + 1 && done' == Advance(queue0, done)
    ensures DrainProgress(a, allStates, queue0, m0, stamp0, clock0, eq, a0, L0, i0, g', m', stamp', clock', done') == true
    ensures |Reps(m', |a|)| < |Reps(m, |a|)|
  {
    MergePassShape(a, allStates, queue0, m0, stamp0, clock0, eq, g, m, stamp, clock, done, s0, s1);
    MergePassHistory(a0, L0, i0, queue0, m0, stamp0, clock0, eq, g, m, stamp, clock, s0, s1);
    ProperSubsetSize(Reps(m', |a|), Reps(m, |a|));
  }

  /** A productive pass: the representatives `s0` and `s1` of the front pair are merged. */
  method MergePass<T(!new)>(ghost a: Arena<T>, ghost allStates: seq<nat>, ghost queue0: seq<nat>,
                      ghost m0: map<nat, nat>, ghost stamp0: map<nat, nat>, ghost clock0: nat, eq: (T, T) -> bool,
                      ghost a0: Arena<T>, ghost L0: set<nat>, ghost i0: nat,
                      g: Snapshot<T>, m: map<nat, nat>, ghost stamp: map<nat, nat>, ghost clock: nat, ghost done: nat,
                      s0: nat, s1: nat)
    returns (b': Arena<T>, initial': nat, list': seq<nat>, queue': seq<nat>,
             m': map<nat, nat>, ghost stamp': map<nat, nat>, ghost clock': nat)
    requires Determinization.Equivalence(eq) && |g.queue| >= 2 && Ranked(m, stamp, clock)
    requires DrainProgress(a, allStates, queue0, m0, stamp0, clock0, eq, a0, L0, i0, g, m, stamp, clock, done)
    requires s0 == Root(m, stamp, clock, g.queue[0]) && s1 == Root(m, stamp, clock, g.queue[1]) && s0 != s1
    requires s0 < |g.states| && s1 < |g.states| && InArena(g.allStates, g.states)
    ensures DrainProgress(a, allStates, queue0, m0, stamp0, clock0, eq, a0, L0, i0, Snapshot(b', initial', list', queue'),
                          m', stamp', clock', Advance(queue0, done))
    ensures |Reps(m', |a|)| < |Reps(m, |a|)|
  {
    b', initial', list', queue' := MergeOne(g.states, g.initial, g.allStates, g.queue[2..], s0, s1, eq);
    m', stamp', clock' := m[s1 := s0], stamp[s1 := clock], clock + 1;
    MergePassProgress(a, allStates, queue0, m0, stamp0, clock0, eq, a0, L0, i0, g, m, stamp, clock, done, s0, s1,
                      Snapshot(b', initial', list', queue'), m', stamp', clock', Advance(queue0, done));
  }

  /**
   * The `merge` loop on the automaton's fields. Against a base automaton `a0`
   * with states `L0` and initial state `i0` that the input automaton already
   * stands to as its history, the output does too; and the states it joins are
   * related by every congruence that relates the queued pairs.
   */
  method Drain<T(!new)>(a: Arena<T>, initial: nat, allStates: seq<nat>, queue0: seq<nat>,
                  m0: map<nat, nat>, ghost stamp0: map<nat, nat>, ghost clock0: nat, eq: (T, T) -> bool,
                  ghost a0: Arena<T>, ghost L0: set<nat>, ghost i0: nat)
    returns (a': Arena<T>, initial': nat, allStates': seq<nat>, m: map<nat, nat>, ghost stamp: map<nat, nat>, ghost clock: nat)
    requires Canonical(Snapshot(a, initial, allStates, queue0), m0, stamp0, clock0)
    requires Determinization.Equivalence(eq) && History(a0, L0, i0, a, initial, allStates, m0, stamp0, clock0, eq)
    ensures |a'| == |a|
    ensures DrainInv(Snapshot(a', initial', allStates', []), m, stamp, clock, m0, stamp0, clock0, queue0, |queue0| / 2)
    ensures Tracks(allStates, allStates', m, stamp, clock)
    ensures History(a0, L0, i0, a', initial', allStates', m, stamp, clock, eq)
    ensures forall rel :: Congruence(a0, L0, rel, eq) && Faithful(L0, rel, queue0, m0, stamp0, clock0) ==>
      Faithful(L0, rel, [], m, stamp, clock)
  {
    var queue := queue0;
    a', initial', allStates' := a, initial, allStates;
    m, stamp, clock := m0, stamp0, clock0;
    ghost var done: nat := 0;
    DrainBegin(a, initial, allStates, queue0, m0, stamp0, clock0, eq, a0, L0, i0);
    while queue != []
      invariant DrainProgress(a, allStates, queue0, m0, stamp0, clock0, eq, a0, L0, i0,
                              Snapshot(a', initial', allStates', queue), m, stamp, clock, done) == true
      decreases |Reps(m, |a|)|, |queue|
    {
      a', initial', allStates', queue, m, stamp, clock, done :=
        DrainPass(a, allStates, queue0, m0, stamp0, clock0, eq, a0, L0, i0, a', initial', allStates', queue, m, stamp, clock, done);
    }
    DrainEnd(a, allStates, queue0, m0, stamp0, clock0, eq, a0, L0, i0, Snapshot(a', initial', allStates', queue), m, stamp, clock, done);
  }

  /** Before the first pass the automaton is its own history and nothing has been merged. */
  lemma DrainBegin<T(!new)>(a: Arena<T>, initial: nat, allStates: seq<nat>, queue0: seq<nat>,
                            m0: map<nat, nat>, stamp0: map<nat, nat>, clock0: nat, eq: (T, T) -> bool,
                            a0: Arena<T>, L0: set<nat>, i0: nat)
    requires Canonical(Snapshot(a, initial, allStates, queue0), m0, stamp0, clock0)
    requires History(a0, L0, i0, a, initial, allStates, m0, stamp0, clock0, eq)
    ensures DrainProgress(a, allStates, queue0, m0, stamp0, clock0, eq, a0, L0, i0,
                          Snapshot(a, initial, allStates, queue0), m0, stamp0, clock0, 0)
  {
    DrainStart(Snapshot(a, initial, allStates, queue0), m0, stamp0, clock0);
    TracksStart(allStates, m0, stamp0, clock0);
  }

  /** With the queue empty, every pair of the original queue has been joined. */
  lemma DrainEnd<T(!new)>(a: Arena<T>, allStates: seq<nat>, queue0: seq<nat>,
                          m0: map<nat, nat>, stamp0: map<nat, nat>, clock0: nat, eq: (T, T) -> bool,
                          a0: Arena<T>, L0: set<nat>, i0: nat,
                          g: Snapshot<T>, m: map<nat, nat>, stamp: map<nat, nat>, clock: nat, done: nat)
    requires g.queue == []
    requires DrainProgress(a, allStates, queue0, m0, stamp0, clock0, eq, a0, L0, i0, g, m, stamp, clock, done)
    ensures |g.states| == |a|
    ensures DrainInv(g, m, stamp, clock, m0, stamp0, clock0, queue0, |queue0| / 2)
    ensures Tracks(allStates, g.allStates, m, stamp, clock)
    ensures History(a0, L0, i0, g.states, g.initial, g.allStates, m, stamp, clock, eq)
    ensures forall rel :: Congruence(a0, L0, rel, eq) && Faithful(L0, rel, queue0, m0, stamp0, clock0) ==>
      Faithful(L0, rel, [], m, stamp, clock)
  {
  }

  /** The `merge` loop with its outcome: canonical, coarser, and every original pair joined. */
  method DrainAll<T(!new)>(a: Arena<T>, initial: nat, allStates: seq<nat>, queue0: seq<nat>,
                     m0: map<nat, nat>, ghost stamp0: map<nat, nat>, ghost clock0: nat, eq: (T, T) -> bool,
                     ghost a0: Arena<T>, ghost L0: set<nat>, ghost i0: nat)
    returns (a': Arena<T>, initial': nat, allStates': seq<nat>, m: map<nat, nat>, ghost stamp: map<nat, nat>, ghost clock: nat)
    requires Canonical(Snapshot(a, initial, allStates, queue0), m0, stamp0, clock0)
    requires Determinization.Equivalence(eq) && History(a0, L0, i0, a, initial, allStates, m0, stamp0, clock0, eq)
    ensures |a'| == |a|
    ensures Canonical(Snapshot(a', initial', allStates', []), m, stamp, clock)
    ensures Coarser(m, stamp, clock, m0, stamp0, clock0) && Tracks(allStates, allStates', m, stamp, clock)
    ensures forall k :: 0 <= k < |queue0| && k % 2 == 0 ==>
      k + 1 < |queue0| && Root(m, stamp, clock, queue0[k]) == Root(m, stamp, clock, queue0[k + 1])
    ensures History(a0, L0, i0, a', initial', allStates', m, stamp, clock, eq)
    ensures DrainedWithin(a0, L0, eq, queue0, m0, stamp0, clock0, m, stamp, clock)
  {
    a', initial', allStates', m, stamp, clock := Drain(a, initial, allStates, queue0, m0, stamp0, clock0, eq, a0, L0, i0);
    DrainDone(Snapshot(a', initial', allStates', []), m, stamp, clock, m0, stamp0, clock0, queue0, |queue0| / 2);
  }

  /**
   * `merge(automaton, pairs_to_merge, merged_mapping)`: drains the queue two
   * states at a time. Each original pair ends with one representative, the map
   * only ever joins representatives, and the automaton stays canonical. Each
   * listed state is the merge of the old states it represents (finality
   * or-ed, transitions taken over, frequencies summed), and states are joined
   * only as far as every congruence that holds the queued pairs allows.
   */
  method MergeQueue<T(!new)>(aut: Automaton<T>, queue0: seq<nat>, m0: map<nat, nat>, ghost stamp0: map<nat, nat>, ghost clock0: nat,
                       eq: (T, T) -> bool)
    returns (m: map<nat, nat>, ghost stamp: map<nat, nat>, ghost clock: nat)
    requires Canonical(Snapshot(aut.states, aut.initial, aut.allStates, queue0), m0, stamp0, clock0)
    requires Determinization.Equivalence(eq)
    modifies aut
    ensures Canonical(Snapshot(aut.states, aut.initial, aut.allStates, []), m, stamp, clock)
    ensures |aut.states| == old(|aut.states|) && aut.nextId == old(aut.nextId)
    ensures Coarser(m, stamp, clock, m0, stamp0, clock0) && Tracks(old(aut.allStates), aut.allStates, m, stamp, clock)
    ensures forall k :: 0 <= k < |queue0| && k % 2 == 0 ==>
      k + 1 < |queue0| && Root(m, stamp, clock, queue0[k]) == Root(m, stamp, clock, queue0[k + 1])
    ensures History(old(aut.states), Elements(old(aut.allStates)), old(aut.initial), aut.states, aut.initial, aut.allStates, m, stamp, clock, eq)
    ensures forall rel ::
      (Congruence(old(aut.states), Elements(old(aut.allStates)), rel, eq) && QueueWithin(rel, queue0, m0, stamp0, clock0)) ==>
      ClassesWithin(Elements(old(aut.allStates)), rel, m, stamp, clock)
  {
    ghost var g := Snapshot(aut.states, aut.initial, aut.allStates, queue0);
    ghost var L0 := Elements(aut.allStates);
    HistoryStart(g, m0, stamp0, clock0, eq);
    StartClasses(g, m0, stamp0, clock0);
    var a, initial, allStates;
    a, initial, allStates, m, stamp, clock := DrainAll(aut.states, aut.initial, aut.allStates, queue0, m0, stamp0, clock0, eq,
                                                       g.states, L0, g.initial);
    aut.Install(a, initial, allStates);
  }

  /** With every listed state its own representative, each class is within any relation reflexive on the listed states. */
  lemma StartClasses<T>(g: Snapshot<T>, m: map<nat, nat>, stamp: map<nat, nat>, clock: nat)
    requires Canonical(g, m, stamp, clock)
    ensures forall rel: (nat, nat) -> bool :: (forall x :: x in Elements(g.allStates) ==> rel(x, x)) ==>
      ClassesWithin(Elements(g.allStates), rel, m, stamp, clock)
  {
    StartRoots(g, m, stamp, clock);
  }

  /** The state list rebuilt through a `HashSet`: no duplicates, same members, still canonical. */
  method Relist<T>(g: Snapshot<T>, m: map<nat, nat>, ghost stamp: map<nat, nat>, ghost clock: nat) returns (unique: seq<nat>)
    requires Canonical(g, m, stamp, clock)
    ensures Distinct(unique) && forall x :: x in unique <==> x in g.allStates
    ensures Canonical(Snapshot(g.states, g.initial, unique, g.queue), m, stamp, clock)
  {
    unique := Dedupe(g.allStates);
    CanonicalRelisted(g, unique, m, stamp, clock);
  }

  /** Membership is all that `Canonical` looks at in the state list. */
  lemma CanonicalRelisted<T>(g: Snapshot<T>, list: seq<nat>, m: map<nat, nat>, stamp: map<nat, nat>, clock: nat)
    requires Canonical(g, m, stamp, clock) && forall x :: x in list <==> x in g.allStates
    ensures Canonical(Snapshot(g.states, g.initial, list, g.queue), m, stamp, clock)
  {
    var S := set y | y in g.allStates;
    assert (set y | y in list) == S;
    forall j | 0 <= j < |list| ensures list[j] < |g.states| {
      assert list[j] in g.allStates;
    }
    assert InArena(list, g.states);
    forall x | x in list
      ensures x < |g.states| && !Mapped(m, x) && LeadsInto(g.states[x].transitions, set y | y in list)
    {
      assert x in g.allStates;
    }
    forall k | 0 <= k < |g.queue| ensures Root(m, stamp, clock, g.queue[k]) in list {
      assert Root(m, stamp, clock, g.queue[k]) in g.allStates;
    }
  }

  /** The representative of every state of `list0` is in `list`. */
  ghost predicate KeepsListed(list0: seq<nat>, list: seq<nat>, m: map<nat, nat>, stamp: map<nat, nat>, clock: nat)
  {
    Ranked(m, stamp, clock) && forall x :: x in list0 ==> Root(m, stamp, clock, x) in list
  }

  /** A list that tracks representatives holds the representative of each of its original entries. */
  lemma TracksKeepsListed(list0: seq<nat>, list: seq<nat>, unique: seq<nat>, m: map<nat, nat>, stamp: map<nat, nat>, clock: nat)
    requires Tracks(list0, list, m, stamp, clock) && forall x :: x in unique <==> x in list
    ensures KeepsListed(list0, unique, m, stamp, clock)
  {
    forall x | x in list0 ensures Root(m, stamp, clock, x) in unique {
      var i :| 0 <= i < |list0| && list0[i] == x;
      assert list[i] == Root(m, stamp, clock, x);
    }
  }

  /** `merge` of one pair on the automaton's fields, followed by the rebuilt state list. */
  method MergePair<T(!new)>(a: Arena<T>, initial: nat, allStates: seq<nat>, state0: nat, state1: nat,
                      m0: map<nat, nat>, ghost stamp0: map<nat, nat>, ghost clock0: nat, eq: (T, T) -> bool,
                      ghost a0: Arena<T>, ghost L0: set<nat>, ghost i0: nat)
    returns (a': Arena<T>, initial': nat, unique: seq<nat>, m: map<nat, nat>, ghost stamp: map<nat, nat>, ghost clock: nat)
    requires Canonical(Snapshot(a, initial, allStates, [state0, state1]), m0, stamp0, clock0)
    requires Determinization.Equivalence(eq) && History(a0, L0, i0, a, initial, allStates, m0, stamp0, clock0, eq)
    ensures |a'| == |a|
    ensures Canonical(Snapshot(a', initial', unique, []), m, stamp, clock) && Distinct(unique)
    ensures Root(m, stamp, clock, state0) == Root(m, stamp, clock, state1)
    ensures Coarser(m, stamp, clock, m0, stamp0, clock0) && KeepsListed(allStates, unique, m, stamp, clock)
    ensures History(a0, L0, i0, a', initial', unique, m, stamp, clock, eq)
    ensures PairWithin(a0, L0, eq, state0, state1, m0, stamp0, clock0, m, stamp, clock)
  {
    var queue0 := [state0, state1];
    var allStates';
    a', initial', allStates', m, stamp, clock := DrainAll(a, initial, allStates, queue0, m0, stamp0, clock0, eq, a0, L0, i0);
    assert queue0[0] == state0 && queue0[1] == state1;
    unique := Relist(Snapshot(a', initial', allStates', []), m, stamp, clock);
    TracksKeepsListed(allStates, allStates', unique, m, stamp, clock);
    HistoryRelisted(a0, L0, i0, a', initial', allStates', unique, m, stamp, clock, eq);
    DrainedPair(a0, L0, eq, state0, state1, m0, stamp0, clock0, m, stamp, clock);
  }

  /**
   * States of `L0` joined by the drain of `queue0` from `m0` are related by
   * every congruence within which the queue and `m0`'s classes lie.
   */
  ghost predicate DrainedWithin<T(!new)>(a0: Arena<T>, L0: set<nat>, eq: (T, T) -> bool, queue0: seq<nat>,
                                         m0: map<nat, nat>, stamp0: map<nat, nat>, clock0: nat,
                                         m: map<nat, nat>, stamp: map<nat, nat>, clock: nat)
  {
    Ranked(m, stamp, clock) &&
    forall rel: (nat, nat) -> bool {:trigger Congruence(a0, L0, rel, eq)} ::
      Congruence(a0, L0, rel, eq) && Faithful(L0, rel, queue0, m0, stamp0, clock0) ==>
      ClassesWithin(L0, rel, m, stamp, clock)
  }

  /**
   * States of `L0` joined by merging `state0` and `state1` from `m0` are
   * related by every congruence that holds `m0`'s classes and relates the
   * two states' representatives.
   */
  ghost predicate PairWithin<T(!new)>(a0: Arena<T>, L0: set<nat>, eq: (T, T) -> bool, state0: nat, state1: nat,
                                      m0: map<nat, nat>, stamp0: map<nat, nat>, clock0: nat,
                                      m: map<nat, nat>, stamp: map<nat, nat>, clock: nat)
  {
    Ranked(m0, stamp0, clock0) && Ranked(m, stamp, clock) &&
    forall rel: (nat, nat) -> bool {:trigger Congruence(a0, L0, rel, eq)} ::
      (Congruence(a0, L0, rel, eq) && ClassesWithin(L0, rel, m0, stamp0, clock0) &&
       rel(Root(m0, stamp0, clock0, state0), Root(m0, stamp0, clock0, state1))) ==>
      ClassesWithin(L0, rel, m, stamp, clock)
  }

  lemma DrainedPair<T(!new)>(a0: Arena<T>, L0: set<nat>, eq: (T, T) -> bool, s0: nat, s1: nat,
                             m0: map<nat, nat>, stamp0: map<nat, nat>, clock0: nat, m: map<nat, nat>, stamp: map<nat, nat>, clock: nat)
    requires Ranked(m0, stamp0, clock0) && DrainedWithin(a0, L0, eq, [s0, s1], m0, stamp0, clock0, m, stamp, clock)
    ensures PairWithin(a0, L0, eq, s0, s1, m0, stamp0, clock0, m, stamp, clock)
  {
    forall rel: (nat, nat) -> bool | Congruence(a0, L0, rel, eq) && ClassesWithin(L0, rel, m0, stamp0, clock0) &&
      rel(Root(m0, stamp0, clock0, s0), Root(m0, stamp0, clock0, s1))
      ensures ClassesWithin(L0, rel, m, stamp, clock)
    {
      PairFaithful(L0, rel, s0, s1, m0, stamp0, clock0);
      assert Faithful(L0, rel, [s0, s1], m0, stamp0, clock0);
    }
  }

  /** A pair whose representatives are related is a queue that stays within the relation. */
  lemma PairFaithful(L0: set<nat>, rel: (nat, nat) -> bool, s0: nat, s1: nat, m: map<nat, nat>, stamp: map<nat, nat>, clock: nat)
    requires Ranked(m, stamp, clock) && ClassesWithin(L0, rel, m, stamp, clock)
    requires rel(Root(m, stamp, clock, s0), Root(m, stamp, clock, s1))
    ensures Faithful(L0, rel, [s0, s1], m, stamp, clock)
  {
    var q := [s0, s1];
    forall k | 0 <= k < |q| - 1 && k % 2 == 0
      ensures rel(Root(m, stamp, clock, q[k]), Root(m, stamp, clock, q[k + 1]))
    {
      assert k == 0;
    }
  }

  /**
   * States of `L0` joined from `m0` are related by every congruence that
   * relates the representatives of `state0` and `state1`.
   */
  ghost predicate JoinsWithin<T(!new)>(a0: Arena<T>, L0: set<nat>, eq: (T, T) -> bool, state0: nat, state1: nat,
                                       m0: map<nat, nat>, stamp0: map<nat, nat>, clock0: nat,
                                       m: map<nat, nat>, stamp: map<nat, nat>, clock: nat)
  {
    Ranked(m0, stamp0, clock0) && Ranked(m, stamp, clock) &&
    forall rel: (nat, nat) -> bool {:trigger Congruence(a0, L0, rel, eq)} ::
      (Congruence(a0, L0, rel, eq) && rel(Root(m0, stamp0, clock0, state0), Root(m0, stamp0, clock0, state1))) ==>
      ClassesWithin(L0, rel, m, stamp, clock)
  }

  /**
   * What merging `state0` and `state1` into `(a0, i0, list0)` leaves: a
   * canonical automaton with a duplicate-free list, the two states joined,
   * each listed state the merge of the old states it represents (History),
   * and no join beyond what every congruence relating the pair forces.
   */
  ghost predicate MergedPair<T(!new)>(a0: Arena<T>, i0: nat, list0: seq<nat>, a: Arena<T>, initial: nat, list: seq<nat>,
                                      state0: nat, state1: nat, m0: map<nat, nat>, stamp0: map<nat, nat>, clock0: nat,
                                      m: map<nat, nat>, stamp: map<nat, nat>, clock: nat, eq: (T, T) -> bool)
  {
    |a| == |a0| && Canonical(Snapshot(a, initial, list, []), m, stamp, clock) && Distinct(list) &&
    Root(m, stamp, clock, state0) == Root(m, stamp, clock, state1) &&
    Coarser(m, stamp, clock, m0, stamp0, clock0) && KeepsListed(list0, list, m, stamp, clock) &&
    History(a0, Elements(list0), i0, a, initial, list, m, stamp, clock, eq) &&
    JoinsWithin(a0, Elements(list0), eq, state0, state1, m0, stamp0, clock0, m, stamp, clock)
  }

  /** From a canonical start every class lies within any congruence, so `PairWithin` becomes `JoinsWithin`. */
  lemma StartJoins<T(!new)>(g: Snapshot<T>, eq: (T, T) -> bool, state0: nat, state1: nat,
                            m0: map<nat, nat>, stamp0: map<nat, nat>, clock0: nat, m: map<nat, nat>, stamp: map<nat, nat>, clock: nat)
    requires Canonical(g, m0, stamp0, clock0)
    requires PairWithin(g.states, Elements(g.allStates), eq, state0, state1, m0, stamp0, clock0, m, stamp, clock)
    ensures JoinsWithin(g.states, Elements(g.allStates), eq, state0, state1, m0, stamp0, clock0, m, stamp, clock)
  {
    StartClasses(g, m0, stamp0, clock0);
  }

  /** `merge` of one pair on the automaton's parts, from a canonical start. */
  method MergeArena<T(!new)>(a: Arena<T>, initial: nat, allStates: seq<nat>, state0: nat, state1: nat,
                             m0: map<nat, nat>, ghost stamp0: map<nat, nat>, ghost clock0: nat, eq: (T, T) -> bool)
    returns (a': Arena<T>, initial': nat, unique: seq<nat>, m: map<nat, nat>, ghost stamp: map<nat, nat>, ghost clock: nat)
    requires Canonical(Snapshot(a, initial, allStates, [state0, state1]), m0, stamp0, clock0)
    requires Determinization.Equivalence(eq)
    ensures MergedPair(a, initial, allStates, a', initial', unique, state0, state1, m0, stamp0, clock0, m, stamp, clock, eq)
  {
    ghost var g := Snapshot(a, initial, allStates, [state0, state1]);
    HistoryStart(g, m0, stamp0, clock0, eq);
    a', initial', unique, m, stamp, clock := MergePair(a, initial, allStates, state0, state1, m0, stamp0, clock0, eq,
                                                      a, Elements(allStates), initial);
    StartJoins(g, eq, state0, state1, m0, stamp0, clock0, m, stamp, clock);
  }

  /**
   * `merge(automaton, state0, state1, merged_mapping)`: the queue starts with
   * the one pair, and the state list is then rebuilt through a `HashSet`, so
   * it is duplicate-free in some order. Each listed state is the merge of the
   * old states it represents, and two old states share a representative only
   * if every congruence relating `state0` and `state1` relates them.
   */
  method Merge<T(!new)>(aut: Automaton<T>, state0: nat, state1: nat, m0: map<nat, nat>, ghost stamp0: map<nat, nat>, ghost clock0: nat,
                  eq: (T, T) -> bool)
    returns (m: map<nat, nat>, ghost stamp: map<nat, nat>, ghost clock: nat)
    requires Canonical(Snapshot(aut.states, aut.initial, aut.allStates, [state0, state1]), m0, stamp0, clock0)
    requires Determinization.Equivalence(eq)
    modifies aut
    ensures MergedPair(old(aut.states), old(aut.initial), old(aut.allStates), aut.states, aut.initial, aut.allStates,
                       state0, state1, m0, stamp0, clock0, m, stamp, clock, eq)
    ensures aut.nextId == old(aut.nextId)
  {
    var a, initial, unique;
    a, initial, unique, m, stamp, clock := MergeArena(aut.states, aut.initial, aut.allStates, state0, state1, m0, stamp0, clock0, eq);
    aut.Install(a, initial, unique);
  }
}

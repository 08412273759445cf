// The linear-chain pass of reverx/src/Language.java: `_get_paths_to_state`
// counts the transitions of the listed states into a state, and
// `concatUniqueLinearTransitions` / `concatUniqueLinearStates` walk the
// automaton depth-first, folding every transition `s0 -A-> s1 -B-> s2` whose
// middle state has one way in and one way out into `s0 -AB-> s2`.
module LinearChains {
  import opened Automata
  import opened PatternText
  import R = RegExSymbols
  import L = Languages

  type Symbol = R.RegEx

  // ---------------------------------------------------------------------
  // _get_paths_to_state
  // ---------------------------------------------------------------------

  /** The transitions among `ts` that lead to `d`. */
  function CountTo<T>(ts: seq<Transition<T>>, d: nat): nat
    decreases |ts|
  {
    if ts == [] then 0 else CountTo(ts[..|ts| - 1], d) + (if ts[|ts| - 1].dest == d then 1 else 0)
  }

  /** The transitions of the listed states that lead to `d`; a state listed twice counts twice. */
  function PathsTo<T>(a: Arena<T>, list: seq<nat>, d: nat): nat
    requires InArena(list, a)
    decreases |list|
  {
    if list == [] then 0
    else PathsTo(a, list[..|list| - 1], d) + CountTo(a[list[|list| - 1]].transitions, d)
  }

  /** Transition `k` of the `j`-th listed state leads to `d`. */
  predicate LeadsTo<T>(a: Arena<T>, list: seq<nat>, j: nat, k: nat, d: nat)
    requires InArena(list, a)
  {
    j < |list| && k < |a[list[j]].transitions| && a[list[j]].transitions[k].dest == d
  }

  /** A transition leading to `d` is counted. */
  lemma {:induction false} CountToPositive<T>(ts: seq<Transition<T>>, d: nat, k: nat)
    requires k < |ts| && ts[k].dest == d
    ensures CountTo(ts, d) >= 1
    decreases |ts|
  {
    if k < |ts| - 1 {
      CountToPositive(ts[..|ts| - 1], d, k);
    }
  }

  /** Two transitions leading to `d` are both counted. */
  lemma {:induction false} CountToTwo<T>(ts: seq<Transition<T>>, d: nat, k: nat, k': nat)
    requires k < k' < |ts| && ts[k].dest == d && ts[k'].dest == d
    ensures CountTo(ts, d) >= 2
    decreases |ts|
  {
    var p := ts[..|ts| - 1];
    if k' == |ts| - 1 {
      CountToPositive(p, d, k);
    } else {
      CountToTwo(p, d, k, k');
    }
  }

  /** No transition leads to `d` exactly when none is counted. */
  lemma {:induction false} CountToZero<T>(ts: seq<Transition<T>>, d: nat)
    ensures CountTo(ts, d) == 0 <==> forall k :: 0 <= k < |ts| ==> ts[k].dest != d
    decreases |ts|
  {
    if ts != [] {
      var p := ts[..|ts| - 1];
      CountToZero(p, d);
      if CountTo(ts, d) != 0 {
        if ts[|ts| - 1].dest != d {
          var k :| 0 <= k < |p| && p[k].dest == d;
          assert ts[k].dest == d;
        }
      }
    }
  }

  /** The listed states' count over a prefix never exceeds the count over the whole list. */
  lemma {:induction false} PathsToMonotone<T>(a: Arena<T>, list: seq<nat>, n: nat, d: nat)
    requires InArena(list, a) && n <= |list|
    ensures PathsTo(a, list[..n], d) <= PathsTo(a, list, d)
    decreases |list|
  {
    if n < |list| {
      var p := list[..|list| - 1];
      assert p[..n] == list[..n];
      PathsToMonotone(a, p, n, d);
    } else {
      assert list[..n] == list;
    }
  }

  /** The count includes the transitions of each listed state. */
  lemma {:induction false} PathsToAtLeast<T>(a: Arena<T>, list: seq<nat>, j: nat, d: nat)
    requires InArena(list, a) && j < |list|
    ensures PathsTo(a, list, d) >= PathsTo(a, list[..j], d) + CountTo(a[list[j]].transitions, d)
  {
    var q := list[..j + 1];
    assert q[..|q| - 1] == list[..j];
    PathsToMonotone(a, list, j + 1, d);
  }

  /** No listed transition leads to `d` exactly when the count is 0. */
  lemma {:induction false} PathsToNone<T>(a: Arena<T>, list: seq<nat>, d: nat)
    requires InArena(list, a)
    ensures PathsTo(a, list, d) == 0 <==> forall j: nat, k: nat :: !LeadsTo(a, list, j, k, d)
    decreases |list|
  {
    if list != [] {
      var p := list[..|list| - 1];
      var last := list[|list| - 1];
      PathsToNone(a, p, d);
      CountToZero(a[last].transitions, d);
      if PathsTo(a, list, d) == 0 {
        forall j: nat, k: nat ensures !LeadsTo(a, list, j, k, d) {
          if j < |p| {
            assert !LeadsTo(a, p, j, k, d);
          }
        }
      } else if CountTo(a[last].transitions, d) != 0 {
        var k :| 0 <= k < |a[last].transitions| && a[last].transitions[k].dest == d;
        assert LeadsTo(a, list, |list| - 1, k, d);
      } else {
        var j, k :| LeadsTo(a, p, j, k, d);
        assert LeadsTo(a, list, j, k, d);
      }
    }
  }

  /** When the count is 1, the one listed transition leading to `d` is unique. */
  lemma PathsToUnique<T>(a: Arena<T>, list: seq<nat>, d: nat, j: nat, k: nat, j': nat, k': nat)
    requires InArena(list, a) && PathsTo(a, list, d) == 1
    requires LeadsTo(a, list, j, k, d) && LeadsTo(a, list, j', k', d)
    ensures j == j' && k == k'
  {
    if j == j' && k != k' {
      var ts := a[list[j]].transitions;
      if k < k' { CountToTwo(ts, d, k, k'); } else { CountToTwo(ts, d, k', k); }
      PathsToAtLeast(a, list, j, d);
    } else if j != j' {
      var lo, hi, klo, khi := if j < j' then j else j', if j < j' then j' else j, if j < j' then k else k', if j < j' then k' else k;
      CountToPositive(a[list[hi]].transitions, d, khi);
      PathsToAtLeast(a, list, hi, d);
      var p := list[..hi];
      CountToPositive(a[p[lo]].transitions, d, klo);
      PathsToAtLeast(a, p, lo, d);
    }
  }

  /** The inner loop of `_get_paths_to_state`, over one state's transitions. */
  method CountState(ts: seq<Transition<Symbol>>, d: nat) returns (c: int)
    ensures c == CountTo(ts, d)
  {
    c := 0;
    var k := 0;
    while k < |ts|
      invariant k <= |ts| && c == CountTo(ts[..k], d)
    {
      assert ts[..k + 1][..k] == ts[..k];
      if ts[k].dest == d {
        c := c + 1;
      }
      k := k + 1;
    }
    assert ts[..k] == ts;
  }

  /** `_get_paths_to_state(all_states, d)`: the listed transitions into `d`. */
  method GetPathsToState(aut: Automaton<Symbol>, d: nat) returns (total: int)
    requires aut.Valid()
    ensures total == PathsTo(aut.states, aut.allStates, d)
    ensures total == 0 <==> forall j: nat, k: nat :: !LeadsTo(aut.states, aut.allStates, j, k, d)
  {
    var list := aut.allStates;
    total := 0;
    var j := 0;
    while j < |list|
      invariant j <= |list| && total == PathsTo(aut.states, list[..j], d)
    {
      var c := CountState(aut.states[list[j]].transitions, d);
      assert list[..j + 1][..j] == list[..j];
      total := total + c;
      j := j + 1;
    }
    assert list[..j] == list;
    PathsToNone(aut.states, list, d);
  }

  // ---------------------------------------------------------------------
  // concatUniqueLinearTransitions
  // ---------------------------------------------------------------------

  /** `all_states.remove(x)`: the first occurrence of `x` is dropped. */
  function RemoveFirst(list: seq<nat>, x: nat): (r: seq<nat>)
    ensures forall y :: y != x ==> (y in r <==> y in list)
    ensures forall y :: y in r ==> y in list
  {
    if list == [] then []
    else if list[0] == x then
      assert list == [list[0]] + list[1..];
      list[1..]
    else
      assert list == [list[0]] + list[1..];
      [list[0]] + RemoveFirst(list[1..], x)
  }

  /** The removal takes out one occurrence of `x`, if there is one, and nothing else. */
  lemma {:induction false} RemoveFirstMultiset(list: seq<nat>, x: nat)
    ensures multiset(RemoveFirst(list, x)) == multiset(list) - multiset{x}
  {
    if list != [] {
      assert list == [list[0]] + list[1..];
      if list[0] != x {
        RemoveFirstMultiset(list[1..], x);
      }
    }
  }

  /**
   * What the pass never touches: the number of states, and each state's
   * finality, id, number of transitions and their frequencies.
   */
  predicate Skeleton<T>(a: Arena<T>, b: Arena<T>)
  {
    |a| == |b| &&
    forall s :: 0 <= s < |a| ==>
      a[s].isFinal == b[s].isFinal && a[s].id == b[s].id && |a[s].transitions| == |b[s].transitions| &&
      forall k :: 0 <= k < |a[s].transitions| ==> a[s].transitions[k].freq == b[s].transitions[k].freq
  }

  lemma SkeletonTrans<T>(a: Arena<T>, b: Arena<T>, c: Arena<T>)
    requires Skeleton(a, b) && Skeleton(b, c)
    ensures Skeleton(a, c)
  {
  }

  /**
   * The middle state of `s0 -t0-> s1` has exactly one listed transition into
   * it and exactly one transition out of it; finality is not looked at.
   */
  predicate Linear(a: Arena<Symbol>, list: seq<nat>, s0: nat, k: nat)
    requires Closed(a) && InArena(list, a) && s0 < |a| && k < |a[s0].transitions|
  {
    var s1 := a[s0].transitions[k].dest;
    PathsTo(a, list, s1) == 1 && |a[s1].transitions| == 1
  }

  /**
   * One merge: `t0`, transition `k` of `s0`, takes the concatenation of its
   * symbol with that of `t1`, the one transition of its destination, and
   * `t1`'s destination; its frequency stays. Nothing else changes.
   */
  function Concatenated(a: Arena<Symbol>, s0: nat, k: nat): (r: Arena<Symbol>)
    requires Closed(a) && s0 < |a| && k < |a[s0].transitions| && |a[a[s0].transitions[k].dest].transitions| == 1
    ensures Closed(r) && Skeleton(a, r)
    ensures forall s, j :: 0 <= s < |a| && 0 <= j < |a[s].transitions| && (s != s0 || j != k) ==>
      r[s].transitions[j] == a[s].transitions[j]
    ensures var t0 := a[s0].transitions[k]; var t1 := a[t0.dest].transitions[0];
      r[s0].transitions[k].dest == t1.dest &&
      r[s0].transitions[k].symbol.pattern == DeleteJoins(t0.symbol.pattern + t1.symbol.pattern)
  {
    var t0 := a[s0].transitions[k];
    var t1 := a[t0.dest].transitions[0];
    a[s0 := a[s0].(transitions := a[s0].transitions[k := t0.(symbol := R.Concat(t0.symbol, t1.symbol), dest := t1.dest)])]
  }

  /**
   * A merge of a listed `s0` keeps the list closed once its middle state is
   * dropped, provided that state is neither the initial state nor `s0`
   * itself: `concatUniqueLinearTransitions` checks neither.
   */
  lemma ConcatenatedListClosed(a: Arena<Symbol>, initial: nat, list: seq<nat>, s0: nat, k: nat)
    requires L.ListClosed(a, initial, list) && s0 in list && k < |a[s0].transitions| && Linear(a, list, s0, k)
    requires a[s0].transitions[k].dest != initial && a[s0].transitions[k].dest != s0
    ensures L.ListClosed(Concatenated(a, s0, k), initial, RemoveFirst(list, a[s0].transitions[k].dest))
  {
    var s1 := a[s0].transitions[k].dest;
    var b := Concatenated(a, s0, k);
    var r := RemoveFirst(list, s1);
    var j0 :| 0 <= j0 < |list| && list[j0] == s0;
    assert LeadsTo(a, list, j0, k, s1);
    assert s1 in list;
    var j1 :| 0 <= j1 < |list| && list[j1] == s1;
    var t1 := a[s1].transitions[0];
    assert t1.dest in list;
    if t1.dest == s1 {
      assert LeadsTo(a, list, j1, 0, s1);
      PathsToUnique(a, list, s1, j0, k, j1, 0);
      assert false;
    }
    forall j | 0 <= j < |r| ensures r[j] < |b| {
      assert r[j] in r;
    }
    assert initial in r;
    forall j, i | 0 <= j < |r| && 0 <= i < |b[r[j]].transitions|
      ensures b[r[j]].transitions[i].dest in r
    {
      var y := r[j];
      assert y in r;
      var jy :| 0 <= jy < |list| && list[jy] == y;
      if y != s0 || i != k {
        var d := a[y].transitions[i].dest;
        assert d in list;
        if d == s1 {
          assert LeadsTo(a, list, jy, i, s1);
          PathsToUnique(a, list, s1, j0, k, jy, i);
        }
      }
    }
  }

  /**
   * The model of one `all_states` with no finality check: in
   * `0 -a-> 1 -b-> 2` with 1 and 2 final and all three listed, transition 0
   * of state 0 is linear; merging it drops the final state 1, so the
   * message `a` is no longer accepted.
   */
  lemma ConcatDropsFinalState()
    ensures var A, B := R.OfPattern("a"), R.OfPattern("b");
      var a := [StateRec(false, [Transition(A, 1, 1)], 0), StateRec(true, [Transition(B, 2, 1)], 1), StateRec(true, [], 2)];
      Closed(a) && InArena([0, 1, 2], a) && Linear(a, [0, 1, 2], 0, 0) &&
      Accepts(a, true, 0, [A], 0, R.Equals) && !Accepts(Concatenated(a, 0, 0), true, 0, [A], 0, R.Equals)
  {
    var A, B := R.OfPattern("a"), R.OfPattern("b");
    var a := [StateRec(false, [Transition(A, 1, 1)], 0), StateRec(true, [Transition(B, 2, 1)], 1), StateRec(true, [], 2)];
    assert [0, 1, 2][..2] == [0, 1] && [0, 1][..1] == [0] && [0][..0] == [];
    assert a[0].transitions[..0] == [];
    assert Accepts(a, true, 1, [A], 1, R.Equals);
    assert AcceptsVia(a, true, 0, [A], 0, 0, R.Equals);
    ReplaceKeep('b', "");
    ReplaceKeep('a', "b");
    var b := Concatenated(a, 0, 0);
    assert b[0].transitions[0].symbol.pattern == "ab";
    assert !AcceptsVia(b, true, 0, [A], 0, 1, R.Equals);
  }

  /**
   * The word a way through `a` reads once every use of `t0` (transition `k`
   * of `s0`) and the transition after it are read as one concatenated symbol:
   * what the automaton reads along the same way after the merge.
   */
  function Contracted(a: Arena<Symbol>, s0: nat, k: nat, s: nat, path: seq<nat>): seq<Symbol>
    requires Closed(a) && s < |a|
    decreases |path|
  {
    if path == [] || path[0] >= |a[s].transitions| then []
    else
      var t := a[s].transitions[path[0]];
      if s == s0 && path[0] == k && |path| > 1 && path[1] < |a[t.dest].transitions| then
        var u := a[t.dest].transitions[path[1]];
        [R.Concat(t.symbol, u.symbol)] + Contracted(a, s0, k, u.dest, path[2..])
      else [t.symbol] + Contracted(a, s0, k, t.dest, path[1..])
  }

  /** Only `t0` leads into the middle state of a linear transition out of a listed state. */
  lemma OnlyWayIn(a: Arena<Symbol>, list: seq<nat>, s0: nat, k: nat, y: nat, i: nat)
    requires Closed(a) && InArena(list, a) && s0 in list && k < |a[s0].transitions| && Linear(a, list, s0, k)
    requires y in list && i < |a[y].transitions| && a[y].transitions[i].dest == a[s0].transitions[k].dest
    ensures y == s0 && i == k
  {
    var s1 := a[s0].transitions[k].dest;
    var j0 :| 0 <= j0 < |list| && list[j0] == s0;
    var jy :| 0 <= jy < |list| && list[jy] == y;
    assert LeadsTo(a, list, j0, k, s1) && LeadsTo(a, list, jy, i, s1);
    PathsToUnique(a, list, s1, j0, k, jy, i);
  }

  /**
   * A merge of a linear `t0` out of a listed `s0` keeps every way from a
   * listed state that does not end in the dropped middle state: the merged
   * automaton reads the contracted word from the same state and stops at the
   * same state, so the word is accepted alike.
   */
  lemma {:induction false} ContractedAccepted(a: Arena<Symbol>, initial: nat, list: seq<nat>, s0: nat, k: nat, s: nat,
                                              sq: seq<Symbol>, i: nat, path: seq<nat>, onlyFinal: bool, w: seq<Symbol>, iw: nat)
    requires L.ListClosed(a, initial, list) && s0 in list && k < |a[s0].transitions| && Linear(a, list, s0, k)
    requires a[s0].transitions[k].dest != s0
    requires s in list && s != a[s0].transitions[k].dest
    requires IsRun(a, s, sq, i, path, R.Equals) && i + |path| == |sq|
    requires RunEnd(a, s, path) != a[s0].transitions[k].dest && (onlyFinal ==> a[RunEnd(a, s, path)].isFinal)
    requires iw <= |w| && w[iw..] == Contracted(a, s0, k, s, path)
    ensures Accepts(Concatenated(a, s0, k), onlyFinal, s, w, iw, R.Equals)
    decreases |path|, 1
  {
    if path == [] {
      assert |w| - iw == 0;
    } else if s == s0 && path[0] == k {
      ContractedMerged(a, initial, list, s0, k, sq, i, path, onlyFinal, w, iw);
    } else {
      ContractedPlain(a, initial, list, s0, k, s, sq, i, path, onlyFinal, w, iw);
    }
  }

  /** The step of ContractedAccepted that reads `t0` and `t1` as one concatenated symbol. */
  lemma {:induction false} ContractedMerged(a: Arena<Symbol>, initial: nat, list: seq<nat>, s0: nat, k: nat,
                                            sq: seq<Symbol>, i: nat, path: seq<nat>, onlyFinal: bool, w: seq<Symbol>, iw: nat)
    requires L.ListClosed(a, initial, list) && s0 in list && k < |a[s0].transitions| && Linear(a, list, s0, k)
    requires a[s0].transitions[k].dest != s0
    requires IsRun(a, s0, sq, i, path, R.Equals) && i + |path| == |sq| && path != [] && path[0] == k
    requires RunEnd(a, s0, path) != a[s0].transitions[k].dest && (onlyFinal ==> a[RunEnd(a, s0, path)].isFinal)
    requires iw <= |w| && w[iw..] == Contracted(a, s0, k, s0, path)
    ensures Accepts(Concatenated(a, s0, k), onlyFinal, s0, w, iw, R.Equals)
    decreases |path|, 0
  {
    var s1 := a[s0].transitions[k].dest;
    var t := a[s0].transitions[k];
    assert s1 in list;
    assert IsRun(a, s1, sq, i + 1, path[1..], R.Equals);
    assert path[1..] != [];
    var u := a[s1].transitions[path[1]];
    assert u.dest in list;
    if u.dest == s1 {
      OnlyWayIn(a, list, s0, k, s1, path[1]);
      assert false;
    }
    assert path[1..][1..] == path[2..];
    assert w[iw + 1..] == w[iw..][1..];
    ContractedAccepted(a, initial, list, s0, k, u.dest, sq, i + 2, path[2..], onlyFinal, w, iw + 1);
    var r := Concatenated(a, s0, k);
    assert r[s0].transitions[k].symbol == R.Concat(t.symbol, u.symbol) && r[s0].transitions[k].dest == u.dest;
    ViaWitness(r, onlyFinal, s0, w, iw, 0, k, R.Equals);
  }

  /** The step of ContractedAccepted that reads a transition other than `t0`, unchanged by the merge. */
  lemma {:induction false} ContractedPlain(a: Arena<Symbol>, initial: nat, list: seq<nat>, s0: nat, k: nat, s: nat,
                                           sq: seq<Symbol>, i: nat, path: seq<nat>, onlyFinal: bool, w: seq<Symbol>, iw: nat)
    requires L.ListClosed(a, initial, list) && s0 in list && k < |a[s0].transitions| && Linear(a, list, s0, k)
    requires a[s0].transitions[k].dest != s0
    requires s in list && s != a[s0].transitions[k].dest
    requires IsRun(a, s, sq, i, path, R.Equals) && i + |path| == |sq| && path != [] && (s != s0 || path[0] != k)
    requires RunEnd(a, s, path) != a[s0].transitions[k].dest && (onlyFinal ==> a[RunEnd(a, s, path)].isFinal)
    requires iw <= |w| && w[iw..] == Contracted(a, s0, k, s, path)
    ensures Accepts(Concatenated(a, s0, k), onlyFinal, s, w, iw, R.Equals)
    decreases |path|, 0
  {
    var s1 := a[s0].transitions[k].dest;
    var t := a[s].transitions[path[0]];
    assert t.dest in list;
    if t.dest == s1 {
      OnlyWayIn(a, list, s0, k, s, path[0]);
      assert false;
    }
    assert w[iw + 1..] == w[iw..][1..];
    ContractedAccepted(a, initial, list, s0, k, t.dest, sq, i + 1, path[1..], onlyFinal, w, iw + 1);
    var r := Concatenated(a, s0, k);
    assert r[s].transitions[path[0]] == t;
    ViaWitness(r, onlyFinal, s, w, iw, 0, path[0], R.Equals);
  }

  /**
   * What a merge keeps of the language: a word accepted from the initial
   * state along a way that does not stop at the dropped middle state is, read
   * with each `t0 t1` pair as one concatenated symbol, accepted after it.
   */
  lemma ConcatenatedKeepsWords(a: Arena<Symbol>, initial: nat, list: seq<nat>, s0: nat, k: nat, sq: seq<Symbol>, path: seq<nat>,
                               onlyFinal: bool)
    requires L.ListClosed(a, initial, list) && s0 in list && k < |a[s0].transitions| && Linear(a, list, s0, k)
    requires a[s0].transitions[k].dest != s0 && a[s0].transitions[k].dest != initial
    requires IsRun(a, initial, sq, 0, path, R.Equals) && |path| == |sq|
    requires RunEnd(a, initial, path) != a[s0].transitions[k].dest && (onlyFinal ==> a[RunEnd(a, initial, path)].isFinal)
    ensures Accepts(Concatenated(a, s0, k), onlyFinal, initial, Contracted(a, s0, k, initial, path), 0, R.Equals)
  {
    var w := Contracted(a, s0, k, initial, path);
    assert w[0..] == w;
    ContractedAccepted(a, initial, list, s0, k, initial, sq, 0, path, onlyFinal, w, 0);
  }

  /**
   * The `while (true)` loop on transition `k` of `s0`, on values, with at
   * most `fuel` merges: while the transition is linear, merge it and drop its
   * middle state from the list. The arena and list it leaves.
   */
  function Chained(a: Arena<Symbol>, list: seq<nat>, s0: nat, k: nat, fuel: nat): (r: (Arena<Symbol>, seq<nat>))
    requires Closed(a) && InArena(list, a) && s0 < |a| && k < |a[s0].transitions|
    ensures Closed(r.0) && Skeleton(a, r.0) && InArena(r.1, r.0) && multiset(r.1) <= multiset(list)
    ensures forall s, j :: 0 <= s < |a| && 0 <= j < |a[s].transitions| && (s != s0 || j != k) ==>
      r.0[s].transitions[j] == a[s].transitions[j]
    decreases fuel
  {
    if fuel == 0 || !Linear(a, list, s0, k) then (a, list)
    else
      var b, rest := Concatenated(a, s0, k), RemoveFirst(list, a[s0].transitions[k].dest);
      ChainedStep(a, list, s0, k);
      RemoveFirstMultiset(list, a[s0].transitions[k].dest);
      var r := Chained(b, rest, s0, k, fuel - 1);
      SkeletonTrans(a, b, r.0);
      r
  }

  /** A round that finds the transition linear, with fuel left, merges once and goes on. */
  lemma ChainedUnfold(a: Arena<Symbol>, list: seq<nat>, s0: nat, k: nat, fuel: nat, fuel': nat)
    requires Closed(a) && InArena(list, a) && s0 < |a| && k < |a[s0].transitions| && Linear(a, list, s0, k) && fuel == fuel' + 1
    ensures InArena(RemoveFirst(list, a[s0].transitions[k].dest), Concatenated(a, s0, k))
    ensures Chained(a, list, s0, k, fuel) ==
      Chained(Concatenated(a, s0, k), RemoveFirst(list, a[s0].transitions[k].dest), s0, k, fuel')
  {
    ChainedStep(a, list, s0, k);
  }

  /** One merge keeps the list inside the arena. */
  lemma ChainedStep(a: Arena<Symbol>, list: seq<nat>, s0: nat, k: nat)
    requires Closed(a) && InArena(list, a) && s0 < |a| && k < |a[s0].transitions| && Linear(a, list, s0, k)
    ensures InArena(RemoveFirst(list, a[s0].transitions[k].dest), Concatenated(a, s0, k))
  {
    var rest := RemoveFirst(list, a[s0].transitions[k].dest);
    forall j | 0 <= j < |rest| ensures rest[j] < |a| {
      assert rest[j] in rest;
    }
  }

  /** `all_states.remove(s1)` and the rewrite of `t0` in one round of the `while (true)` loop. */
  method ConcatStep(aut: Automaton<Symbol>, s0: nat, k: nat)
    requires aut.Valid() && s0 < |aut.states| && k < |aut.states[s0].transitions|
    requires |aut.states[aut.states[s0].transitions[k].dest].transitions| == 1
    modifies aut
    ensures aut.Valid() && aut.initial == old(aut.initial) && aut.nextId == old(aut.nextId)
    ensures aut.states == Concatenated(old(aut.states), s0, k)
    ensures aut.allStates == RemoveFirst(old(aut.allStates), old(aut.states)[s0].transitions[k].dest)
    ensures multiset(aut.allStates) <= multiset(old(aut.allStates))
  {
    var t0 := aut.states[s0].transitions[k];
    var s1 := t0.dest;
    var t1 := aut.states[s1].transitions[0];
    ghost var ts := aut.states[s0].transitions;
    aut.SetSymbol(s0, k, R.Concat(t0.symbol, t1.symbol));
    ghost var us := aut.states[s0].transitions;
    aut.SetState(s0, k, t1.dest);
    assert us[k := us[k].(dest := t1.dest)] == ts[k := t0.(symbol := R.Concat(t0.symbol, t1.symbol), dest := t1.dest)];
    var r := RemoveFirst(aut.allStates, s1);
    RemoveFirstMultiset(aut.allStates, s1);
    assert forall j :: 0 <= j < |r| ==> r[j] in r;
    aut.allStates := r;
  }

  /**
   * One round of the `while (true)` loop: `stop` when the transition is not
   * linear (`exhausted` false) or no fuel is left (`exhausted` true, the
   * transition still linear), the arena and list being what `Chained` leaves;
   * otherwise one merge, after which `Chained` has one round less to make.
   */
  method ChainRound(aut: Automaton<Symbol>, s0: nat, k: nat, f: nat, ghost target: (Arena<Symbol>, seq<nat>))
    returns (stop: bool, exhausted: bool, f': nat)
    requires aut.Valid() && s0 < |aut.states| && k < |aut.states[s0].transitions|
    requires Chained(aut.states, aut.allStates, s0, k, f) == target
    modifies aut
    ensures aut.Valid() && aut.initial == old(aut.initial) && aut.nextId == old(aut.nextId)
    ensures s0 < |aut.states| && k < |aut.states[s0].transitions|
    ensures stop ==> (aut.states, aut.allStates) == target && (exhausted <==> Linear(aut.states, aut.allStates, s0, k))
    ensures Chained(aut.states, aut.allStates, s0, k, f') == target && f' <= f
    ensures stop ==> aut.states == old(aut.states) && aut.allStates == old(aut.allStates)
    ensures !stop ==> (f' < f && Linear(old(aut.states), old(aut.allStates), s0, k) &&
      aut.states == Concatenated(old(aut.states), s0, k) &&
      aut.allStates == RemoveFirst(old(aut.allStates), old(aut.states)[s0].transitions[k].dest))
  {
    var s1 := aut.states[s0].transitions[k].dest;
    var paths := GetPathsToState(aut, s1);
    if paths != 1 || |aut.states[s1].transitions| != 1 {
      return true, false, f;
    }
    if f == 0 {
      return true, true, f;
    }
    stop, exhausted, f' := false, false, f - 1;
    ChainedUnfold(aut.states, aut.allStates, s0, k, f, f');
    ConcatStep(aut, s0, k);
  }

  /**
   * The `while (true)` loop on transition `k` of `s0`: merge as long as the
   * transition is linear. The source puts no bound on the rounds; here at
   * most `fuel` are made, and `exhausted` says the bound stopped the loop.
   * When it did not, the transition is no longer linear, exactly the
   * source's exit condition. The arena and list it leaves are those of
   * `Chained`.
   */
  method MergeChain(aut: Automaton<Symbol>, s0: nat, k: nat, fuel: nat) returns (exhausted: bool)
    requires aut.Valid() && s0 < |aut.states| && k < |aut.states[s0].transitions|
    modifies aut
    ensures aut.Valid() && aut.initial == old(aut.initial) && aut.nextId == old(aut.nextId)
    ensures (aut.states, aut.allStates) == Chained(old(aut.states), old(aut.allStates), s0, k, fuel)
    ensures Skeleton(old(aut.states), aut.states)
    ensures forall s, j :: 0 <= s < |aut.states| && 0 <= j < |aut.states[s].transitions| && (s != s0 || j != k) ==>
      aut.states[s].transitions[j] == old(aut.states)[s].transitions[j]
    ensures multiset(aut.allStates) <= multiset(old(aut.allStates))
    ensures exhausted <==> Linear(aut.states, aut.allStates, s0, k)
    ensures s0 in aut.allStates ==> KeptBut(old(aut.states), old(aut.allStates), aut.states, aut.allStates, s0, k)
  {
    ghost var target := Chained(aut.states, aut.allStates, s0, k, fuel);
    var f := fuel;
    while true
      invariant aut.Valid() && aut.initial == old(aut.initial) && aut.nextId == old(aut.nextId)
      invariant s0 < |aut.states| && k < |aut.states[s0].transitions|
      invariant Chained(aut.states, aut.allStates, s0, k, f) == target
      invariant Skeleton(old(aut.states), aut.states)
      invariant s0 in aut.allStates ==> KeptBut(old(aut.states), old(aut.allStates), aut.states, aut.allStates, s0, k)
      decreases f
    {
      ghost var a, l := aut.states, aut.allStates;
      var stop;
      stop, exhausted, f := ChainRound(aut, s0, k, f, target);
      if stop {
        return;
      }
      FoldKept(old(aut.states), old(aut.allStates), a, l, s0, k);
      SkeletonTrans(old(aut.states), a, aut.states);
    }
  }

  // ---------------------------------------------------------------------
  // What a fold does to the other transitions' counts
  // ---------------------------------------------------------------------

  /** Counting over two lists one after the other adds up. */
  lemma {:induction false} PathsToAppend<T>(a: Arena<T>, p: seq<nat>, q: seq<nat>, d: nat)
    requires InArena(p, a) && InArena(q, a)
    ensures InArena(p + q, a) && PathsTo(a, p + q, d) == PathsTo(a, p, d) + PathsTo(a, q, d)
    decreases |q|
  {
    if q == [] {
      assert p + q == p;
    } else {
      var q' := q[..|q| - 1];
      assert (p + q)[..|p + q| - 1] == p + q';
      PathsToAppend(a, p, q', d);
    }
  }

  /** `all_states.remove(x)` takes `x`'s own transitions out of the count, if `x` was listed. */
  lemma {:induction false} PathsToRemoveFirst<T>(a: Arena<T>, list: seq<nat>, x: nat, d: nat)
    requires InArena(list, a) && x < |a|
    ensures InArena(RemoveFirst(list, x), a)
    ensures PathsTo(a, RemoveFirst(list, x), d) + (if x in list then CountTo(a[x].transitions, d) else 0) == PathsTo(a, list, d)
    decreases |list|
  {
    if list != [] {
      var h, rest := list[0], list[1..];
      assert list == [h] + rest;
      assert [h][..0] == [];
      PathsToAppend(a, [h], rest, d);
      if h != x {
        PathsToRemoveFirst(a, rest, x, d);
        PathsToAppend(a, [h], RemoveFirst(rest, x), d);
      }
    }
  }

  /** Redirecting transition `k` of `ts` counts its new destination and no longer its old one. */
  lemma {:induction false} CountToUpdate<T>(ts: seq<Transition<T>>, k: nat, t: Transition<T>, d: nat)
    requires k < |ts|
    ensures CountTo(ts[k := t], d) + (if ts[k].dest == d then 1 else 0) == CountTo(ts, d) + (if t.dest == d then 1 else 0)
    decreases |ts|
  {
    var us := ts[k := t];
    if k < |ts| - 1 {
      assert us[..|us| - 1] == ts[..|ts| - 1][k := t];
      CountToUpdate(ts[..|ts| - 1], k, t, d);
    } else {
      assert us[..|us| - 1] == ts[..|ts| - 1];
    }
  }

  /**
   * Redirecting a transition of `s0` away from a destination other than `d`
   * never lowers the count into `d`, and raises it when `s0` is listed and
   * the new destination is `d`.
   */
  lemma {:induction false} PathsToRedirect<T>(a: Arena<T>, list: seq<nat>, s0: nat, k: nat, t: Transition<T>, d: nat)
    requires InArena(list, a) && s0 < |a| && k < |a[s0].transitions| && a[s0].transitions[k].dest != d
    ensures InArena(list, a[s0 := a[s0].(transitions := a[s0].transitions[k := t])])
    ensures PathsTo(a[s0 := a[s0].(transitions := a[s0].transitions[k := t])], list, d) >=
      PathsTo(a, list, d) + (if s0 in list && t.dest == d then 1 else 0)
    decreases |list|
  {
    var b := a[s0 := a[s0].(transitions := a[s0].transitions[k := t])];
    if list != [] {
      var p := list[..|list| - 1];
      var last := list[|list| - 1];
      assert list == p + [last];
      PathsToRedirect(a, p, s0, k, t, d);
      if last == s0 {
        CountToUpdate(a[s0].transitions, k, t, d);
      }
    }
  }

  /**
   * A fold of a linear transition out of a listed `s0` never lowers the
   * count into any state but the dropped middle one: `t0` takes over the
   * middle state's one transition, which leaves the count with the middle
   * state, if it was listed.
   */
  lemma FoldCount(a: Arena<Symbol>, list: seq<nat>, s0: nat, k: nat, d: nat)
    requires Closed(a) && InArena(list, a) && s0 in list && k < |a[s0].transitions| && Linear(a, list, s0, k)
    requires d != a[s0].transitions[k].dest
    ensures InArena(RemoveFirst(list, a[s0].transitions[k].dest), Concatenated(a, s0, k))
    ensures PathsTo(Concatenated(a, s0, k), RemoveFirst(list, a[s0].transitions[k].dest), d) >= PathsTo(a, list, d)
  {
    var m := a[s0].transitions[k].dest;
    var t0 := a[s0].transitions[k];
    var t1 := a[m].transitions[0];
    var b := Concatenated(a, s0, k);
    ChainedStep(a, list, s0, k);
    PathsToRedirect(a, list, s0, k, t0.(symbol := R.Concat(t0.symbol, t1.symbol), dest := t1.dest), d);
    PathsToRemoveFirst(b, list, m, d);
    var us := b[m].transitions;
    assert |us| == 1 && us[0].dest == t1.dest;
    assert us[..0] == [];
  }

  /**
   * A fold keeps every other transition of a listed state that was not
   * linear from becoming linear: a transition into the middle state is
   * `t0` itself, and the count into any other state does not drop.
   */
  lemma FoldKeeps(a: Arena<Symbol>, list: seq<nat>, s0: nat, k: nat, s: nat, j: nat)
    requires Closed(a) && InArena(list, a) && s0 in list && k < |a[s0].transitions| && Linear(a, list, s0, k)
    requires s in RemoveFirst(list, a[s0].transitions[k].dest) && j < |a[s].transitions| && (s != s0 || j != k)
    requires !Linear(a, list, s, j)
    ensures InArena(RemoveFirst(list, a[s0].transitions[k].dest), Concatenated(a, s0, k))
    ensures !Linear(Concatenated(a, s0, k), RemoveFirst(list, a[s0].transitions[k].dest), s, j)
  {
    ChainedStep(a, list, s0, k);
    var d := a[s].transitions[j].dest;
    if d == a[s0].transitions[k].dest {
      OnlyWayIn(a, list, s0, k, s, j);
    }
    if |a[d].transitions| == 1 {
      var js :| 0 <= js < |list| && list[js] == s;
      CountToPositive(a[s].transitions, d, j);
      PathsToAtLeast(a, list, js, d);
      FoldCount(a, list, s0, k, d);
    }
  }

  /**
   * From `a, list` to `b, list'`: every transition other than transition `k`
   * of `s0`, of a state listed in `list'`, that was not linear has stayed
   * so.
   */
  ghost predicate KeptBut(a: Arena<Symbol>, list: seq<nat>, b: Arena<Symbol>, list': seq<nat>, s0: nat, k: nat)
    requires Closed(a) && InArena(list, a) && Closed(b) && InArena(list', b)
  {
    forall s, j: nat | s in list' && (s != s0 || j != k) && s < |a| && s < |b| && j < |a[s].transitions| && j < |b[s].transitions| ::
      !Linear(a, list, s, j) ==> !Linear(b, list', s, j)
  }

  /** One more fold on transition `k` of a still listed `s0` keeps KeptBut. */
  lemma FoldKept(a0: Arena<Symbol>, l0: seq<nat>, a: Arena<Symbol>, list: seq<nat>, s0: nat, k: nat)
    requires Closed(a0) && InArena(l0, a0) && Closed(a) && InArena(list, a) && Skeleton(a0, a)
    requires s0 in list ==> KeptBut(a0, l0, a, list, s0, k)
    requires s0 < |a| && k < |a[s0].transitions| && Linear(a, list, s0, k)
    ensures InArena(RemoveFirst(list, a[s0].transitions[k].dest), Concatenated(a, s0, k))
    ensures s0 in RemoveFirst(list, a[s0].transitions[k].dest) ==>
      KeptBut(a0, l0, Concatenated(a, s0, k), RemoveFirst(list, a[s0].transitions[k].dest), s0, k)
  {
    var b, rest := Concatenated(a, s0, k), RemoveFirst(list, a[s0].transitions[k].dest);
    ChainedStep(a, list, s0, k);
    if s0 in rest {
      forall s, j: nat | s in rest && (s != s0 || j != k) && s < |a0| && s < |b| && j < |a0[s].transitions| && j < |b[s].transitions|
        ensures !Linear(a0, l0, s, j) ==> !Linear(b, rest, s, j)
      {
        if !Linear(a0, l0, s, j) {
          FoldKeeps(a, list, s0, k, s, j);
        }
      }
    }
  }

  // ---------------------------------------------------------------------
  // The depth-first walk
  // ---------------------------------------------------------------------

  /** The states the walk from `s0` enters: `s0` and those it adds to what was visited. */
  function Entered(visited: set<nat>, visited': set<nat>, s0: nat): set<nat>
  {
    (visited' - visited) + {s0}
  }

  /** Outside `E`, `b` has the transitions of `a`. */
  ghost predicate SameOutside<T>(a: Arena<T>, b: Arena<T>, E: set<nat>)
  {
    |a| == |b| && forall s | 0 <= s < |a| && s !in E :: b[s].transitions == a[s].transitions
  }

  /** Every transition of a state of `S` leads into `V`. */
  predicate LeadInto<T>(a: Arena<T>, S: set<nat>, V: set<nat>)
  {
    forall s, k | s in S && 0 <= s < |a| && 0 <= k < |a[s].transitions| :: a[s].transitions[k].dest in V
  }

  /** Every state of `S` is still in the list. */
  predicate Listed(list: seq<nat>, S: set<nat>)
  {
    forall s | s in S :: s in list
  }

  /** No transition of a state of `S` is linear. */
  ghost predicate NoneLinear(a: Arena<Symbol>, list: seq<nat>, S: set<nat>)
    requires Closed(a) && InArena(list, a)
  {
    forall s, k: nat | s in S && s < |a| && k < |a[s].transitions| :: !Linear(a, list, s, k)
  }

  /**
   * From `a, list` to `b, list'`: every transition of a state listed in
   * `list'` outside `E` that was not linear has stayed so.
   */
  ghost predicate KeptOutside(a: Arena<Symbol>, list: seq<nat>, b: Arena<Symbol>, list': seq<nat>, E: set<nat>)
    requires Closed(a) && InArena(list, a) && Closed(b) && InArena(list', b)
  {
    forall s, k: nat | s in list' && s !in E && s < |a| && s < |b| && k < |a[s].transitions| && k < |b[s].transitions| ::
      !Linear(a, list, s, k) ==> !Linear(b, list', s, k)
  }

  /**
   * The walk of `s0` so far, from `a0, l0` with `V0` visited to `a, l` with
   * `V` visited: only entered states changed; the other entered states, and
   * transitions `0 .. kl - 1` of `s0`, lead into `V`; listed states outside
   * kept their non-linear transitions; and unless a chain was cut short
   * (`exh`), the other entered states, and transitions `0 .. kn - 1` of
   * `s0`, have none linear, as long as all entered states are listed.
   */
  ghost predicate Walked(a0: Arena<Symbol>, l0: seq<nat>, a: Arena<Symbol>, l: seq<nat>,
                         V0: set<nat>, V: set<nat>, s0: nat, kl: nat, kn: nat, exh: bool)
    requires Closed(a0) && InArena(l0, a0) && Closed(a) && InArena(l, a) && s0 < |a|
  {
    var E := Entered(V0, V, s0);
    V0 <= V && kl <= |a[s0].transitions| && kn <= |a[s0].transitions| &&
    SameOutside(a0, a, E) &&
    LeadInto(a, E - {s0}, V) && (forall j | 0 <= j < kl :: a[s0].transitions[j].dest in V) &&
    (Listed(l, E) ==> KeptOutside(a0, l0, a, l, E)) &&
    (!exh && Listed(l, E) ==> NoneLinear(a, l, E - {s0}) && forall j: nat | j < kn :: !Linear(a, l, s0, j))
  }

  /** Nothing walked yet. */
  lemma WalkStart(a: Arena<Symbol>, l: seq<nat>, V: set<nat>, s0: nat)
    requires Closed(a) && InArena(l, a) && s0 < |a|
    ensures Walked(a, l, a, l, V, V, s0, 0, 0, false)
  {
    assert Entered(V, V, s0) - {s0} == {};
  }

  /** The chain on transition `k` of `s0` is folded: that transition is non-linear, unless cut short. */
  lemma MergedWalk(a0: Arena<Symbol>, l0: seq<nat>, a: Arena<Symbol>, l: seq<nat>, b: Arena<Symbol>, lb: seq<nat>,
                   V0: set<nat>, V: set<nat>, s0: nat, k: nat, exh: bool, exh': bool)
    requires Closed(a0) && InArena(l0, a0) && Closed(a) && InArena(l, a) && Closed(b) && InArena(lb, b)
    requires s0 < |a| && k < |a[s0].transitions| && Walked(a0, l0, a, l, V0, V, s0, k, k, exh)
    requires Skeleton(a, b) && multiset(lb) <= multiset(l)
    requires forall s, j :: 0 <= s < |a| && 0 <= j < |a[s].transitions| && (s != s0 || j != k) ==>
      b[s].transitions[j] == a[s].transitions[j]
    requires s0 in lb ==> KeptBut(a, l, b, lb, s0, k)
    requires (exh ==> exh') && (!exh' ==> !Linear(b, lb, s0, k))
    ensures Walked(a0, l0, b, lb, V0, V, s0, k, k + 1, exh')
  {
    var E := Entered(V0, V, s0);
    forall s | 0 <= s < |a| && s != s0 ensures b[s].transitions == a[s].transitions {
      assert |b[s].transitions| == |a[s].transitions|;
    }
    if Listed(lb, E) {
      assert Listed(l, E) by {
        forall x | x in E ensures x in l {
          assert x in multiset(lb);
        }
      }
      assert s0 in lb;
      forall s, j: nat | s in lb && s !in E && s < |a0| && s < |b| && j < |a0[s].transitions| && j < |b[s].transitions|
        ensures !Linear(a0, l0, s, j) ==> !Linear(b, lb, s, j)
      {
        assert s in multiset(lb);
      }
      if !exh' {
        forall s, j: nat | s in E - {s0} && s < |b| && j < |b[s].transitions| ensures !Linear(b, lb, s, j) {
          assert s in lb;
        }
        forall j: nat | j < k + 1 ensures !Linear(b, lb, s0, j) {
          if j < k {
            assert !Linear(a, l, s0, j);
          }
        }
      }
    }
  }

  /** The destination of transition `k` of `s0` was already visited. */
  lemma SkippedWalk(a0: Arena<Symbol>, l0: seq<nat>, b: Arena<Symbol>, lb: seq<nat>,
                    V0: set<nat>, V: set<nat>, s0: nat, k: nat, exh: bool)
    requires Closed(a0) && InArena(l0, a0) && Closed(b) && InArena(lb, b)
    requires s0 < |b| && k < |b[s0].transitions| && Walked(a0, l0, b, lb, V0, V, s0, k, k + 1, exh)
    requires b[s0].transitions[k].dest in V
    ensures Walked(a0, l0, b, lb, V0, V, s0, k + 1, k + 1, exh)
  {
  }

  /** The walk entered the destination `child` of transition `k` of `s0`, and came back. */
  lemma VisitedWalk(a0: Arena<Symbol>, l0: seq<nat>, b: Arena<Symbol>, lb: seq<nat>, c: Arena<Symbol>, lc: seq<nat>,
                    V0: set<nat>, V: set<nat>, V2: set<nat>, s0: nat, k: nat, child: nat, exh: bool, exh2: bool)
    requires Closed(a0) && InArena(l0, a0) && Closed(b) && InArena(lb, b) && Closed(c) && InArena(lc, c)
    requires s0 < |b| && k < |b[s0].transitions| && Walked(a0, l0, b, lb, V0, V, s0, k, k + 1, exh)
    requires Skeleton(b, c) && multiset(lc) <= multiset(lb)
    requires child == b[s0].transitions[k].dest && child !in V && V + {child} <= V2
    requires SameOutside(b, c, Entered(V + {child}, V2, child))
    requires LeadInto(c, Entered(V + {child}, V2, child), V2)
    requires Listed(lc, Entered(V + {child}, V2, child)) ==> KeptOutside(b, lb, c, lc, Entered(V + {child}, V2, child))
    requires !exh2 && Listed(lc, Entered(V + {child}, V2, child)) ==> NoneLinear(c, lc, Entered(V + {child}, V2, child))
    ensures Walked(a0, l0, c, lc, V0, V2, s0, k + 1, k + 1, exh || exh2)
  {
    var E, En, E' := Entered(V0, V, s0), Entered(V + {child}, V2, child), Entered(V0, V2, s0);
    assert E' == E + En;
    forall s, j | s in E' - {s0} && 0 <= s < |c| && 0 <= j < |c[s].transitions| ensures c[s].transitions[j].dest in V2 {
      if s !in En {
        assert c[s].transitions == b[s].transitions;
      }
    }
    forall j | 0 <= j < k + 1 ensures c[s0].transitions[j].dest in V2 {
      if s0 !in En {
        assert c[s0].transitions == b[s0].transitions;
      }
    }
    if Listed(lc, E') {
      assert Listed(lb, E) by {
        forall x | x in E ensures x in lb {
          assert x in multiset(lc);
        }
      }
      forall s, j: nat | s in lc && s !in E' && s < |a0| && s < |c| && j < |a0[s].transitions| && j < |c[s].transitions|
        ensures !Linear(a0, l0, s, j) ==> !Linear(c, lc, s, j)
      {
        assert s in multiset(lc);
      }
      if !exh && !exh2 {
        forall s, j: nat | s in E' - {s0} && s < |c| && j < |c[s].transitions| ensures !Linear(c, lc, s, j) {
          if s !in En {
            assert s in lb && !Linear(b, lb, s, j);
          }
        }
        forall j: nat | j < k + 1 ensures !Linear(c, lc, s0, j) {
          if s0 !in En {
            assert s0 in lb && !Linear(b, lb, s0, j);
          }
        }
      }
    }
  }

  /** A walk over all transitions of `s0` has every entered state leading into `V` with none linear. */
  lemma WalkDone(a0: Arena<Symbol>, l0: seq<nat>, a: Arena<Symbol>, l: seq<nat>, V0: set<nat>, V: set<nat>, s0: nat, exh: bool)
    requires Closed(a0) && InArena(l0, a0) && Closed(a) && InArena(l, a) && s0 < |a|
    requires Walked(a0, l0, a, l, V0, V, s0, |a[s0].transitions|, |a[s0].transitions|, exh)
    ensures LeadInto(a, Entered(V0, V, s0), V)
    ensures !exh && Listed(l, Entered(V0, V, s0)) ==> NoneLinear(a, l, Entered(V0, V, s0))
  {
  }

  /** Every state a way from `i` reaches is `i` or entered, when the entered states and `i` lead only into the entered ones. */
  lemma {:induction false} ReachedEntered<T>(a: Arena<T>, i: nat, entered: set<nat>, s: nat, path: seq<nat>)
    requires Closed(a) && s < |a| && s in entered + {i} && LeadInto(a, entered + {i}, entered)
    ensures RunEnd(a, s, path) in entered + {i}
    decreases path
  {
    if path != [] && path[0] < |a[s].transitions| {
      ReachedEntered(a, i, entered, a[s].transitions[path[0]].dest, path[1..]);
    }
  }

  /** The states the walk may still enter. */
  function Unvisited(n: nat, visited: set<nat>): set<nat>
  {
    set x | 0 <= x < n && x !in visited
  }

  /**
   * `concatUniqueLinearTransitions(s0, all_states, visited)`: for each
   * transition of `s0` in order, merge while it is linear, then enter its
   * destination when `visited.add` reports it new. Only symbols,
   * destinations and the state list change, and the list only loses
   * entries. Only the entered states (`s0` and those added to `visited`)
   * change, and every transition of theirs leads to a visited state.
   * A listed state outside keeps its non-linear transitions non-linear;
   * and unless a chain was cut short (`exhausted`), no transition of an
   * entered state is linear any more, as long as all of them are listed.
   */
  method Visit(aut: Automaton<Symbol>, s0: nat, visited: set<nat>, fuel: nat) returns (visited': set<nat>, exhausted: bool)
    requires aut.Valid() && s0 < |aut.states|
    modifies aut
    ensures aut.Valid() && aut.initial == old(aut.initial) && aut.nextId == old(aut.nextId)
    ensures Skeleton(old(aut.states), aut.states)
    ensures multiset(aut.allStates) <= multiset(old(aut.allStates))
    ensures visited <= visited'
    ensures SameOutside(old(aut.states), aut.states, Entered(visited, visited', s0))
    ensures LeadInto(aut.states, Entered(visited, visited', s0), visited')
    ensures Listed(aut.allStates, Entered(visited, visited', s0)) ==>
      KeptOutside(old(aut.states), old(aut.allStates), aut.states, aut.allStates, Entered(visited, visited', s0))
    ensures !exhausted && Listed(aut.allStates, Entered(visited, visited', s0)) ==>
      NoneLinear(aut.states, aut.allStates, Entered(visited, visited', s0))
    decreases Unvisited(|aut.states|, visited)
  {
    visited', exhausted := visited, false;
    WalkStart(aut.states, aut.allStates, visited, s0);
    var k := 0;
    while k < |aut.states[s0].transitions|
      invariant aut.Valid() && aut.initial == old(aut.initial) && aut.nextId == old(aut.nextId)
      invariant Skeleton(old(aut.states), aut.states)
      invariant multiset(aut.allStates) <= multiset(old(aut.allStates))
      invariant Walked(old(aut.states), old(aut.allStates), aut.states, aut.allStates, visited, visited', s0, k, k, exhausted)
    {
      ghost var a, l := aut.states, aut.allStates;
      var cut := MergeChain(aut, s0, k, fuel);
      SkeletonTrans(old(aut.states), a, aut.states);
      MergedWalk(old(aut.states), old(aut.allStates), a, l, aut.states, aut.allStates, visited, visited', s0, k, exhausted, exhausted || cut);
      exhausted := exhausted || cut;
      var child := aut.states[s0].transitions[k].dest;
      if child !in visited' {
        ghost var b, lb, V := aut.states, aut.allStates, visited';
        visited' := visited' + {child};
        assert child in Unvisited(|aut.states|, visited) - Unvisited(|aut.states|, visited');
        var cutBelow;
        visited', cutBelow := Visit(aut, child, visited', fuel);
        SkeletonTrans(old(aut.states), b, aut.states);
        VisitedWalk(old(aut.states), old(aut.allStates), b, lb, aut.states, aut.allStates, visited, V, visited', s0, k, child,
                    exhausted, cutBelow);
        exhausted := exhausted || cutBelow;
      } else {
        SkippedWalk(old(aut.states), old(aut.allStates), aut.states, aut.allStates, visited, visited', s0, k, exhausted);
      }
      k := k + 1;
    }
    WalkDone(old(aut.states), old(aut.allStates), aut.states, aut.allStates, visited, visited', s0, exhausted);
  }

  /**
   * `concatUniqueLinearStates(automaton)`: the walk from the initial state
   * with nothing visited yet (the initial state included). `entered` holds
   * the states the walk added to `visited`: every transition of the initial
   * state or of an entered state leads to an entered state, so every state
   * reachable from the initial state is the initial state or entered
   * (ReachedEntered), and only those changed. Unless a chain was cut short,
   * none of their transitions is linear any more, as long as they are all
   * still listed.
   */
  method ConcatUniqueLinearStates(aut: Automaton<Symbol>, fuel: nat) returns (ghost entered: set<nat>, exhausted: bool)
    requires aut.Valid()
    modifies aut
    ensures aut.Valid() && aut.initial == old(aut.initial) && aut.nextId == old(aut.nextId)
    ensures Skeleton(old(aut.states), aut.states)
    ensures multiset(aut.allStates) <= multiset(old(aut.allStates))
    ensures SameOutside(old(aut.states), aut.states, entered + {aut.initial})
    ensures LeadInto(aut.states, entered + {aut.initial}, entered)
    ensures Listed(aut.allStates, entered + {aut.initial}) ==>
      KeptOutside(old(aut.states), old(aut.allStates), aut.states, aut.allStates, entered + {aut.initial})
    ensures !exhausted && Listed(aut.allStates, entered + {aut.initial}) ==>
      NoneLinear(aut.states, aut.allStates, entered + {aut.initial})
  {
    var visited;
    visited, exhausted := Visit(aut, aut.initial, {}, fuel);
    entered := visited;
    assert Entered({}, visited, aut.initial) == entered + {aut.initial};
  }
}

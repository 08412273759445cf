// The two `generalize` passes of reverx/src/Language.java: every listed state
// with more than one transition that meets a threshold (enough transitions,
// or a high enough ratio of transitions to total frequency) has each of its
// transition symbols generalised, and the pass reports whether any symbol
// changed.
module Generalization {
  import opened Automata
  import R = RegExSymbols
  import L = Languages

  type Symbol = R.RegEx

  /**
   * The two thresholds: `MIN_TRANSITIONS` of the `int` overload, and
   * `MIN_RATIO_TRANSITIONS_OVER_TOTAL_FREQ` of the `float` overload as the
   * fraction `num / den`.
   */
  datatype Threshold = MinTransitions(min: int) | MinRatio(num: int, den: int)

  predicate ValidThreshold(t: Threshold)
  {
    t.MinRatio? ==> t.den > 0
  }

  /**
   * `(float)count / (float)sum >= num / den`, without rounding: a zero sum
   * makes the quotient infinite, so the test passes; a negative sum flips the
   * comparison once both sides are multiplied out.
   */
  predicate RatioAtLeast(count: int, sum: int, num: int, den: int)
    requires den > 0
  {
    if sum == 0 then true
    else if sum > 0 then count * den >= num * sum
    else count * den <= num * sum
  }

  /** A non-zero sum: the test is the quotient comparison over the reals. */
  lemma RatioAtLeastMeaning(count: int, sum: int, num: int, den: int)
    requires den > 0 && sum != 0
    ensures RatioAtLeast(count, sum, num, den) <==> (count as real) / (sum as real) >= (num as real) / (den as real)
  {
    var x := (count as real) / (sum as real);
    var y := (num as real) / (den as real);
    var c, s, n, d := count as real, sum as real, num as real, den as real;
    assert x * s == c && y * d == n;
    assert c * d - n * s == (x - y) * (s * d);
    if sum > 0 {
      assert s * d > 0.0;
    } else {
      assert s * d < 0.0;
    }
  }

  /** Whether the pass generalises a state: more than one transition, and the threshold met. */
  predicate Eligible(r: StateRec<Symbol>, t: Threshold)
    requires ValidThreshold(t)
  {
    |r.transitions| > 1 &&
    match t
    case MinTransitions(min) => |r.transitions| >= min
    case MinRatio(num, den) => RatioAtLeast(|r.transitions|, SumFreq(r.transitions), num, den)
  }

  /**
   * One symbol: with `hasBinarySupport` set, `generalize` on the text;
   * otherwise `generalize_BINARY`. The flag says whether the symbol changed.
   */
  function GeneralizedSymbol(r: Symbol, binarySupport: bool): (res: (Symbol, bool))
    ensures res.1 <==> res.0 != r
    ensures binarySupport && res.1 ==> res.0.pattern == R.GeneralizedPattern(r.pattern)
    ensures binarySupport ==> res.0.generalizedBinary == r.generalizedBinary && res.0.lengthBinary == r.lengthBinary
    ensures !binarySupport ==> res.0.lengthBinary == r.lengthBinary && (res.1 ==> res.0.generalizedBinary && !r.generalizedBinary)
  {
    if binarySupport then
      var p := R.GeneralizedPattern(r.pattern);
      if p != r.pattern then (r.(pattern := p), true) else (r, false)
    else R.GeneralizeBinary(r)
  }

  /** Every transition of a row with its symbol generalised. */
  function GeneralizedRow(ts: seq<Transition<Symbol>>, binarySupport: bool): (r: seq<Transition<Symbol>>)
    ensures |r| == |ts|
  {
    seq(|ts|, k requires 0 <= k < |ts| => ts[k].(symbol := GeneralizedSymbol(ts[k].symbol, binarySupport).0))
  }

  /** Some symbol of the row changes. */
  predicate RowDirty(ts: seq<Transition<Symbol>>, binarySupport: bool)
  {
    exists k :: 0 <= k < |ts| && GeneralizedSymbol(ts[k].symbol, binarySupport).1
  }

  /** A row is reported changed exactly when it is. */
  lemma RowChanged(ts: seq<Transition<Symbol>>, binarySupport: bool)
    ensures RowDirty(ts, binarySupport) <==> GeneralizedRow(ts, binarySupport) != ts
  {
    var g := GeneralizedRow(ts, binarySupport);
    if RowDirty(ts, binarySupport) {
      var k :| 0 <= k < |ts| && GeneralizedSymbol(ts[k].symbol, binarySupport).1;
      assert g[k].symbol != ts[k].symbol;
    } else {
      assert forall k :: 0 <= k < |ts| ==> g[k] == ts[k];
    }
  }

  /** Generalising transition `k` of a row generalised up to `k`. */
  lemma RowStep(ts: seq<Transition<Symbol>>, k: nat, binarySupport: bool)
    requires k < |ts|
    ensures var row := GeneralizedRow(ts[..k], binarySupport) + ts[k..];
      row[k := ts[k].(symbol := GeneralizedSymbol(ts[k].symbol, binarySupport).0)] == GeneralizedRow(ts[..k + 1], binarySupport) + ts[k + 1..]
  {
    var row := GeneralizedRow(ts[..k], binarySupport) + ts[k..];
    var u := row[k := ts[k].(symbol := GeneralizedSymbol(ts[k].symbol, binarySupport).0)];
    var v := GeneralizedRow(ts[..k + 1], binarySupport) + ts[k + 1..];
    assert |u| == |v|;
    forall i | 0 <= i < |u| ensures u[i] == v[i] {
      if i < k {
        assert u[i] == GeneralizedRow(ts[..k], binarySupport)[i];
        assert v[i] == GeneralizedRow(ts[..k + 1], binarySupport)[i];
      } else if i > k {
        assert u[i] == ts[k..][i - k] == ts[i];
        assert v[i] == ts[k + 1..][i - k - 1] == ts[i];
      }
    }
  }

  /** The flag over one more transition. */
  lemma RowDirtySnoc(ts: seq<Transition<Symbol>>, k: nat, binarySupport: bool)
    requires k < |ts|
    ensures RowDirty(ts[..k + 1], binarySupport) <==> RowDirty(ts[..k], binarySupport) || GeneralizedSymbol(ts[k].symbol, binarySupport).1
  {
    var p, q := ts[..k], ts[..k + 1];
    assert q[k] == ts[k];
    if RowDirty(q, binarySupport) && !GeneralizedSymbol(ts[k].symbol, binarySupport).1 {
      var j :| 0 <= j < |q| && GeneralizedSymbol(q[j].symbol, binarySupport).1;
      assert p[j] == q[j];
    }
    if RowDirty(p, binarySupport) {
      var j :| 0 <= j < |p| && GeneralizedSymbol(p[j].symbol, binarySupport).1;
      assert p[j] == q[j];
    }
  }

  /** Only symbols differ: states, finality, ids, destinations and frequencies are kept. */
  predicate OnlySymbols(a: Arena<Symbol>, b: Arena<Symbol>)
  {
    |a| == |b| &&
    forall s :: 0 <= s < |a| ==>
      a[s].isFinal == b[s].isFinal && a[s].id == b[s].id && |a[s].transitions| == |b[s].transitions| &&
      forall k :: 0 <= k < |a[s].transitions| ==>
        a[s].transitions[k].dest == b[s].transitions[k].dest && a[s].transitions[k].freq == b[s].transitions[k].freq
  }

  /** Rows with the same frequencies have the same frequency sum. */
  lemma {:induction false} SumFreqSymbols(ts: seq<Transition<Symbol>>, us: seq<Transition<Symbol>>)
    requires |ts| == |us| && forall k :: 0 <= k < |ts| ==> ts[k].freq == us[k].freq
    ensures SumFreq(ts) == SumFreq(us)
    decreases |ts|
  {
    if ts != [] {
      SumFreqSymbols(ts[1..], us[1..]);
    }
  }

  /** Generalising symbols never changes which states are eligible. */
  lemma EligibleKept(a: Arena<Symbol>, b: Arena<Symbol>, s: nat, t: Threshold)
    requires OnlySymbols(a, b) && s < |a| && ValidThreshold(t)
    ensures Eligible(a[s], t) <==> Eligible(b[s], t)
  {
    SumFreqSymbols(a[s].transitions, b[s].transitions);
  }

  /**
   * The pass over `all_states` in list order, as a left fold: an eligible
   * state has its row generalised, and the flag is the `|=` of every change.
   */
  function Pass(a: Arena<Symbol>, list: seq<nat>, t: Threshold, binarySupport: bool): (r: (Arena<Symbol>, bool))
    requires InArena(list, a) && ValidThreshold(t)
    ensures OnlySymbols(a, r.0)
    decreases |list|
  {
    if list == [] then (a, false)
    else
      var p := Pass(a, list[..|list| - 1], t, binarySupport);
      var s := list[|list| - 1];
      if Eligible(p.0[s], t) then
        (p.0[s := p.0[s].(transitions := GeneralizedRow(p.0[s].transitions, binarySupport))],
         p.1 || RowDirty(p.0[s].transitions, binarySupport))
      else p
  }

  /** Unlisted and ineligible states are left as they are. */
  lemma {:induction false} PassFrame(a: Arena<Symbol>, list: seq<nat>, t: Threshold, binarySupport: bool, s: nat)
    requires InArena(list, a) && ValidThreshold(t) && s < |a|
    requires s !in list || !Eligible(a[s], t)
    ensures Pass(a, list, t, binarySupport).0[s] == a[s]
    decreases |list|
  {
    if list != [] {
      var q := list[..|list| - 1];
      assert forall x :: x in q ==> x in list;
      PassFrame(a, q, t, binarySupport, s);
      EligibleKept(a, Pass(a, q, t, binarySupport).0, s, t);
    }
  }

  /** On a list without repeats, every listed eligible state ends up with its row generalised once, and no other state changes. */
  lemma {:induction false} PassDistinctStates(a: Arena<Symbol>, list: seq<nat>, t: Threshold, binarySupport: bool)
    requires InArena(list, a) && ValidThreshold(t) && Distinct(list)
    ensures forall s :: 0 <= s < |a| ==>
      Pass(a, list, t, binarySupport).0[s] ==
        if s in list && Eligible(a[s], t) then a[s].(transitions := GeneralizedRow(a[s].transitions, binarySupport)) else a[s]
    decreases |list|
  {
    if list != [] {
      var q := list[..|list| - 1];
      var last := list[|list| - 1];
      assert forall x :: x in list <==> x in q || x == last;
      assert last !in q;
      PassDistinctStates(a, q, t, binarySupport);
      var p := Pass(a, q, t, binarySupport);
      EligibleKept(a, p.0, last, t);
      assert p.0[last] == a[last];
    }
  }

  /** On a list without repeats the flag is set exactly when some listed eligible state has a symbol that changes. */
  lemma {:induction false} PassDistinctFlag(a: Arena<Symbol>, list: seq<nat>, t: Threshold, binarySupport: bool)
    requires InArena(list, a) && ValidThreshold(t) && Distinct(list)
    ensures Pass(a, list, t, binarySupport).1 <==>
      exists j :: 0 <= j < |list| && Eligible(a[list[j]], t) && RowDirty(a[list[j]].transitions, binarySupport)
    decreases |list|
  {
    if list != [] {
      var q := list[..|list| - 1];
      var last := list[|list| - 1];
      assert last !in q;
      PassDistinctFlag(a, q, t, binarySupport);
      PassFrame(a, q, t, binarySupport, last);
      var p := Pass(a, q, t, binarySupport);
      EligibleKept(a, p.0, last, t);
      if Pass(a, list, t, binarySupport).1 && !p.1 {
        assert Eligible(a[last], t) && RowDirty(a[last].transitions, binarySupport);
      }
      if p.1 {
        var j :| 0 <= j < |q| && Eligible(a[q[j]], t) && RowDirty(a[q[j]].transitions, binarySupport);
        assert list[j] == q[j];
      }
      if exists j :: 0 <= j < |list| && Eligible(a[list[j]], t) && RowDirty(a[list[j]].transitions, binarySupport) {
        var j :| 0 <= j < |list| && Eligible(a[list[j]], t) && RowDirty(a[list[j]].transitions, binarySupport);
        if j < |q| {
          assert q[j] == list[j];
        }
      }
    }
  }

  /** On a list without repeats the pass reports a change exactly when the arena changed. */
  lemma PassChanged(a: Arena<Symbol>, list: seq<nat>, t: Threshold, binarySupport: bool)
    requires InArena(list, a) && ValidThreshold(t) && Distinct(list)
    ensures Pass(a, list, t, binarySupport).1 <==> Pass(a, list, t, binarySupport).0 != a
  {
    PassDistinctStates(a, list, t, binarySupport);
    PassDistinctFlag(a, list, t, binarySupport);
    var r := Pass(a, list, t, binarySupport);
    if r.1 {
      var j :| 0 <= j < |list| && Eligible(a[list[j]], t) && RowDirty(a[list[j]].transitions, binarySupport);
      RowChanged(a[list[j]].transitions, binarySupport);
      assert list[j] in list;
      assert r.0[list[j]] != a[list[j]];
    } else {
      forall s | 0 <= s < |a| ensures r.0[s] == a[s] {
        if s in list && Eligible(a[s], t) {
          var j :| 0 <= j < |list| && list[j] == s;
          RowChanged(a[s].transitions, binarySupport);
        }
      }
    }
  }

  /** Only symbols change, so a closed state list stays closed. */
  lemma PassListClosed(a: Arena<Symbol>, list: seq<nat>, t: Threshold, binarySupport: bool, initial: nat, listed: seq<nat>)
    requires InArena(list, a) && ValidThreshold(t) && L.ListClosed(a, initial, listed)
    ensures L.ListClosed(Pass(a, list, t, binarySupport).0, initial, listed)
  {
    var b := Pass(a, list, t, binarySupport).0;
    assert forall j, k :: 0 <= j < |listed| && 0 <= k < |a[listed[j]].transitions| ==>
      b[listed[j]].transitions[k].dest == a[listed[j]].transitions[k].dest;
  }

  // ----- the passes as the source runs them -----

  /** One symbol's `generalize` call. */
  method GeneralizeSymbol(r: Symbol, binarySupport: bool) returns (g: Symbol, changed: bool)
    ensures (g, changed) == GeneralizedSymbol(r, binarySupport)
  {
    if binarySupport {
      g, changed := R.Generalize(r);
    } else {
      var res := R.GeneralizeBinary(r);
      g, changed := res.0, res.1;
    }
  }

  /** The loop over one eligible state's transitions, each symbol replaced by its generalisation. */
  method GeneralizeState(aut: Automaton<Symbol>, s: nat, binarySupport: bool) returns (dirty: bool)
    requires aut.Valid() && s < |aut.states|
    modifies aut
    ensures aut.Valid() && aut.initial == old(aut.initial) && aut.allStates == old(aut.allStates) && aut.nextId == old(aut.nextId)
    ensures aut.states == old(aut.states)[s := old(aut.states)[s].(transitions := GeneralizedRow(old(aut.states)[s].transitions, binarySupport))]
    ensures dirty == RowDirty(old(aut.states)[s].transitions, binarySupport)
  {
    ghost var a := aut.states;
    ghost var ts := a[s].transitions;
    dirty := false;
    var k := 0;
    assert GeneralizedRow(ts[..0], binarySupport) + ts[0..] == ts;
    assert a[s := a[s].(transitions := ts)] == a;
    while k < |aut.states[s].transitions|
      invariant aut.Valid() && aut.initial == old(aut.initial) && aut.allStates == old(aut.allStates) && aut.nextId == old(aut.nextId)
      invariant k <= |ts| && aut.states == a[s := a[s].(transitions := GeneralizedRow(ts[..k], binarySupport) + ts[k..])]
      invariant dirty == RowDirty(ts[..k], binarySupport)
    {
      ghost var row := GeneralizedRow(ts[..k], binarySupport) + ts[k..];
      assert row[k] == ts[k];
      var g, changed := GeneralizeSymbol(aut.states[s].transitions[k].symbol, binarySupport);
      aut.SetSymbol(s, k, g);
      ghost var row' := GeneralizedRow(ts[..k + 1], binarySupport) + ts[k + 1..];
      RowStep(ts, k, binarySupport);
      assert aut.states == a[s := a[s].(transitions := row')];
      RowDirtySnoc(ts, k, binarySupport);
      dirty := dirty || changed;
      k := k + 1;
    }
    assert ts[..k] == ts && ts[k..] == [];
    assert GeneralizedRow(ts[..k], binarySupport) + ts[k..] == GeneralizedRow(ts, binarySupport);
  }

  /** The `sum_freq` loop of the ratio overload, and the eligibility test of either overload. */
  method IsEligible(r: StateRec<Symbol>, t: Threshold) returns (e: bool)
    requires ValidThreshold(t)
    ensures e == Eligible(r, t)
  {
    var ts := r.transitions;
    if |ts| <= 1 {
      return false;
    }
    match t {
      case MinTransitions(min) =>
        e := |ts| >= min;
      case MinRatio(num, den) =>
        var sum := 0;
        var k := |ts|;
        while k > 0
          invariant 0 <= k <= |ts| && sum == SumFreq(ts[k..])
        {
          k := k - 1;
          assert ts[k..] == [ts[k]] + ts[k + 1..];
          sum := sum + ts[k].freq;
        }
        e := RatioAtLeast(|ts|, sum, num, den);
    }
  }

  /** One turn of the loop over `all_states`: the state at position `j` of the list, generalised when eligible. */
  method GeneralizeListed(aut: Automaton<Symbol>, list: seq<nat>, j: nat, t: Threshold, binarySupport: bool, dirty: bool, ghost a: Arena<Symbol>) returns (dirty': bool)
    requires aut.Valid() && ValidThreshold(t) && InArena(list, a) && j < |list|
    requires (aut.states, dirty) == Pass(a, list[..j], t, binarySupport)
    modifies aut
    ensures aut.Valid() && aut.initial == old(aut.initial) && aut.allStates == old(aut.allStates) && aut.nextId == old(aut.nextId)
    ensures (aut.states, dirty') == Pass(a, list[..j + 1], t, binarySupport)
  {
    assert list[..j + 1][..j] == list[..j];
    var s := list[j];
    var e := IsEligible(aut.states[s], t);
    dirty' := dirty;
    if e {
      var d := GeneralizeState(aut, s, binarySupport);
      dirty' := dirty || d;
    }
  }

  /** The loop over `all_states`; `new_states` stays empty, so the list is not touched. */
  method GeneralizePass(aut: Automaton<Symbol>, t: Threshold, binarySupport: bool) returns (dirty: bool)
    requires aut.Valid() && ValidThreshold(t)
    modifies aut
    ensures aut.Valid() && aut.initial == old(aut.initial) && aut.allStates == old(aut.allStates) && aut.nextId == old(aut.nextId)
    ensures (aut.states, dirty) == Pass(old(aut.states), old(aut.allStates), t, binarySupport)
  {
    ghost var a := aut.states;
    var list := aut.allStates;
    dirty := false;
    var j := 0;
    while j < |list|
      invariant aut.Valid() && aut.initial == old(aut.initial) && aut.allStates == list && aut.nextId == old(aut.nextId)
      invariant j <= |list| && (aut.states, dirty) == Pass(a, list[..j], t, binarySupport)
    {
      dirty := GeneralizeListed(aut, list, j, t, binarySupport, dirty, a);
      j := j + 1;
    }
    assert list[..j] == list;
  }

  /** `generalize(automaton, MIN_TRANSITIONS)`. */
  method GeneralizeByCount(aut: Automaton<Symbol>, minTransitions: int, binarySupport: bool) returns (dirty: bool)
    requires aut.Valid()
    modifies aut
    ensures aut.Valid() && aut.initial == old(aut.initial) && aut.allStates == old(aut.allStates) && aut.nextId == old(aut.nextId)
    ensures (aut.states, dirty) == Pass(old(aut.states), old(aut.allStates), MinTransitions(minTransitions), binarySupport)
  {
    dirty := GeneralizePass(aut, MinTransitions(minTransitions), binarySupport);
  }

  /** `generalize(automaton, MIN_RATIO_TRANSITIONS_OVER_TOTAL_FREQ)` with the ratio `num / den`. */
  method GeneralizeByRatio(aut: Automaton<Symbol>, num: int, den: int, binarySupport: bool) returns (dirty: bool)
    requires aut.Valid() && den > 0
    modifies aut
    ensures aut.Valid() && aut.initial == old(aut.initial) && aut.allStates == old(aut.allStates) && aut.nextId == old(aut.nextId)
    ensures (aut.states, dirty) == Pass(old(aut.states), old(aut.allStates), MinRatio(num, den), binarySupport)
  {
    dirty := GeneralizePass(aut, MinRatio(num, den), binarySupport);
  }
}

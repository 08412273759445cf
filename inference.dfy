// The `Language` object of reverx/src/Language.java and its pipeline
// `inferFromTraces`: the prefix tree of the messages of one direction,
// minimised, generalised once by the transition-count threshold and then
// round after round by the ratio threshold (determinised and minimised after
// every round that changed something), its linear chains concatenated and
// its state ids renumbered.
module Inference {
  import opened Automata
  import R = RegExSymbols
  import L = Languages
  import G = Generalization
  import C = LinearChains
  import Sessions
  import Determinization
  import Minimization

  type Symbol = R.RegEx

  /**
   * `Operations.minimization` on a closed state list: the list stays closed
   * and holds each state once; when the list had no repeats and its states
   * were deterministic, both languages are kept.
   */
  method MinimizeClosed(aut: Automaton<Symbol>)
    requires L.ListClosed(aut.states, aut.initial, aut.allStates)
    modifies aut
    ensures L.ListClosed(aut.states, aut.initial, aut.allStates) && Distinct(aut.allStates)
    ensures aut.nextId == old(aut.nextId)
    ensures Distinct(old(aut.allStates)) && Minimization.DeterministicList(old(aut.states), R.Equals, old(aut.allStates)) ==>
      Minimization.SameAccepted(old(aut.states), old(aut.initial), aut.states, aut.initial, R.Equals)
  {
    L.EqualsEquivalence();
    L.ListClosedCanonical(aut.states, aut.initial, aut.allStates);
    ghost var m, stamp, clock := Minimization.Minimize(aut, R.Equals);
    L.CanonicalListClosed(aut.states, aut.initial, aut.allStates, m, stamp, clock);
  }

  /** The states determinization leaves, listed in order, are each listed once and deterministic. */
  lemma DeterminizedList(a: Arena<Symbol>, init: nat, base: int, memo: map<set<nat>, nat>, na: Arena<Symbol>, keys: seq<set<nat>>)
    requires Determinization.Equivalence(R.Equals) && Determinization.Determinized(a, init, base, memo, na, keys, R.Equals)
    requires Closed(na)
    ensures Distinct(Determinization.Indices(|na|)) && Minimization.DeterministicList(na, R.Equals, Determinization.Indices(|na|))
  {
    var list := Determinization.Indices(|na|);
    assert Distinct(list);
    forall i | 0 <= i < |list|
      ensures Minimization.SymbolsDistinct(na[list[i]].transitions, R.Equals)
    {
      DeterminizedState(a, init, base, memo, na, keys, i);
    }
  }

  /** Each state determinization leaves has at most one transition per symbol. */
  lemma DeterminizedState(a: Arena<Symbol>, init: nat, base: int, memo: map<set<nat>, nat>, na: Arena<Symbol>, keys: seq<set<nat>>, i: nat)
    requires Determinization.Equivalence(R.Equals) && Determinization.Determinized(a, init, base, memo, na, keys, R.Equals)
    requires i < |na|
    ensures Minimization.SymbolsDistinct(na[i].transitions, R.Equals)
  {
    Determinization.DeterminizedDeterministic(a, init, base, memo, na, keys, R.Equals, i);
  }

  /**
   * `Operations.determinization` followed by `Operations.minimization`: the
   * automaton accepts the same prefixes as before and, when its initial
   * state was not final, the same sequences.
   */
  method Reduce(aut: Automaton<Symbol>)
    requires L.ListClosed(aut.states, aut.initial, aut.allStates)
    modifies aut
    ensures L.ListClosed(aut.states, aut.initial, aut.allStates) && Distinct(aut.allStates)
    ensures forall sq :: Accepts(aut.states, false, aut.initial, sq, 0, R.Equals) <==> Accepts(old(aut.states), false, old(aut.initial), sq, 0, R.Equals)
    ensures !old(aut.states[aut.initial].isFinal) ==>
      forall sq :: Accepts(aut.states, true, aut.initial, sq, 0, R.Equals) <==> Accepts(old(aut.states), true, old(aut.initial), sq, 0, R.Equals)
  {
    L.EqualsEquivalence();
    ghost var a0, i0, n0 := aut.states, aut.initial, aut.nextId;
    ghost var memo, keys := Determinization.Determinize(aut, R.Equals);
    L.IndicesListClosed(aut.states);
    DeterminizedList(a0, i0, n0, memo, aut.states, keys);
    ghost var a1, i1 := aut.states, aut.initial;
    MinimizeClosed(aut);
    assert Minimization.SameAccepted(a1, i1, aut.states, aut.initial, R.Equals);
  }

  /** A generalisation pass keeps a closed state list closed. */
  method GeneralizeClosed(aut: Automaton<Symbol>, t: G.Threshold, binarySupport: bool) returns (dirty: bool)
    requires L.ListClosed(aut.states, aut.initial, aut.allStates) && G.ValidThreshold(t)
    modifies aut
    ensures L.ListClosed(aut.states, aut.initial, aut.allStates)
    ensures (aut.states, dirty) == G.Pass(old(aut.states), old(aut.allStates), t, binarySupport)
    ensures aut.initial == old(aut.initial) && aut.allStates == old(aut.allStates) && aut.nextId == old(aut.nextId)
  {
    G.PassListClosed(aut.states, aut.allStates, t, binarySupport, aut.initial, aut.allStates);
    match t {
      case MinTransitions(min) =>
        dirty := G.GeneralizeByCount(aut, min, binarySupport);
      case MinRatio(num, den) =>
        dirty := G.GeneralizeByRatio(aut, num, den, binarySupport);
    }
  }

  class Language {
    var automaton: Automaton<Symbol>

    /** `new Language()`: an automaton with one non-final listed initial state; `nextId0` stands for `State.NEXT_ID`. */
    constructor(nextId0: int)
      ensures fresh(automaton) && automaton.Valid()
      ensures automaton.states == [StateRec(false, [], nextId0)] && automaton.initial == 0 && automaton.allStates == [0]
      ensures L.ListClosed(automaton.states, automaton.initial, automaton.allStates)
    {
      var aut := new Automaton(nextId0);
      assert aut.allStates[0] == 0;
      automaton := aut;
    }

    /**
     * `inferFromTraces(is_input, messages, T1, T2)` with `T1` as the ratio
     * `num / den`. The source repeats the ratio rounds until one changes
     * nothing and merges each linear transition until it is no longer
     * linear; here at most `rounds` ratio rounds run (`converged` says the
     * last one changed nothing) and `fuel` bounds the merges per transition.
     * The prefix tree built first, `tree`, accepts every message of the
     * chosen direction. The result is valid, lists each state once, and
     * numbers the listed states 0, 1, ... in list order.
     */
    method InferFromTraces(isInput: bool, messages: seq<seq<Sessions.Message>>, num: int, den: int, t2: int,
                           binarySupport: bool, rounds: nat, fuel: nat)
      returns (converged: bool, ghost tree: Arena<Symbol>)
      requires den > 0 && L.ListClosed(automaton.states, automaton.initial, automaton.allStates)
      modifies automaton
      ensures L.Grows(old(automaton.states), tree) && L.AcceptsAll(tree, old(automaton.initial), L.Picked(messages, isInput))
      ensures TotalFreq(tree) == TotalFreq(old(automaton.states)) + L.TokenCount(L.Picked(messages, isInput))
      ensures automaton.Valid() && Distinct(automaton.allStates)
      ensures forall j :: 0 <= j < |automaton.allStates| ==> automaton.states[automaton.allStates[j]].id == j
      ensures automaton.nextId == |automaton.allStates|
    {
      var aut := automaton;
      L.AddSessions(aut, isInput, messages);
      tree := aut.states;
      MinimizeClosed(aut);
      var dirty := GeneralizeClosed(aut, G.MinTransitions(t2), binarySupport);
      if dirty {
        Reduce(aut);
      }
      converged := false;
      var r := rounds;
      while r > 0
        invariant L.ListClosed(aut.states, aut.initial, aut.allStates)
        decreases r
      {
        dirty := GeneralizeClosed(aut, G.MinRatio(num, den), binarySupport);
        if !dirty {
          converged := true;
          break;
        }
        Reduce(aut);
        r := r - 1;
      }
      var _, _ := C.ConcatUniqueLinearStates(aut, fuel);
      aut.ResetAllStates();
    }
  }

  /**
   * The static `inferLanguage(direction, messages, t1, t2)`: a new `Language`
   * and its inferred automaton. The prefix tree, `tree`, grows from the one
   * initial state, accepts every message of the chosen direction from it,
   * and its frequencies add up to the number of tokens read.
   */
  method InferLanguage(isInput: bool, messages: seq<seq<Sessions.Message>>, num: int, den: int, t2: int,
                       binarySupport: bool, rounds: nat, fuel: nat, nextId0: int)
    returns (aut: Automaton<Symbol>, converged: bool, ghost tree: Arena<Symbol>)
    requires den > 0
    ensures L.Grows([StateRec(false, [], nextId0)], tree) && L.AcceptsAll(tree, 0, L.Picked(messages, isInput))
    ensures TotalFreq(tree) == L.TokenCount(L.Picked(messages, isInput))
    ensures aut.Valid() && Distinct(aut.allStates)
    ensures forall j :: 0 <= j < |aut.allStates| ==> aut.states[aut.allStates[j]].id == j
    ensures aut.nextId == |aut.allStates|
  {
    var l := new Language(nextId0);
    ghost var start := l.automaton.states;
    assert start[..0] == [] && TotalFreq(start) == 0;
    converged, tree := l.InferFromTraces(isInput, messages, num, den, t2, binarySupport, rounds, fuel);
    aut := l.automaton;
  }
}

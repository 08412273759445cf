// The state graph of reverx/src/automata: State, Transition and Automaton.
//
// States live in an arena: a sequence of state records whose index is the
// state object's identity. A transition is a value naming its destination by
// arena index. The printed `_id` is a separate field, since merging and
// determinization reason about identity while ids are only labels. Symbol
// equality (Java's `equals` on the symbol type) is a parameter `eq`.
module Automata {
  import opened Wrappers
  import opened JavaTypes
  import opened JavaStrings

  datatype Transition<T> = Transition(symbol: T, dest: nat, freq: int)

  datatype StateRec<T> = StateRec(isFinal: bool, transitions: seq<Transition<T>>, id: int)

  type Arena<T> = seq<StateRec<T>>

  /** Every transition of every state names a state of the arena. */
  predicate Closed<T>(a: Arena<T>)
  {
    forall s, k :: 0 <= s < |a| && 0 <= k < |a[s].transitions| ==> a[s].transitions[k].dest < |a|
  }

  // ---------------------------------------------------------------------
  // State
  // ---------------------------------------------------------------------

  /** `getTransition`: the first transition, in list order, whose symbol equals `x`. */
  function GetTransition<T>(ts: seq<Transition<T>>, x: T, eq: (T, T) -> bool): (r: Option<nat>)
    ensures r.Some? ==> r.value < |ts| && eq(ts[r.value].symbol, x)
    ensures r.Some? ==> forall j :: 0 <= j < r.value ==> !eq(ts[j].symbol, x)
    ensures r.None? <==> forall j :: 0 <= j < |ts| ==> !eq(ts[j].symbol, x)
  {
    if ts == [] then None
    else if eq(ts[0].symbol, x) then Some(0)
    else match GetTransition(ts[1..], x, eq)
      case None => None
      case Some(k) => Some(k + 1)
  }

  /** `getSumFreq`: the sum of the frequencies of the outgoing transitions. */
  function SumFreq<T>(ts: seq<Transition<T>>): int
  {
    if ts == [] then 0 else ts[0].freq + SumFreq(ts[1..])
  }

  lemma {:induction false} SumFreqAppend<T>(ts: seq<Transition<T>>, us: seq<Transition<T>>)
    ensures SumFreq(ts + us) == SumFreq(ts) + SumFreq(us)
  {
    if ts == [] {
      assert ts + us == us;
    } else {
      assert (ts + us)[1..] == ts[1..] + us;
      SumFreqAppend(ts[1..], us);
    }
  }

  /** Overwriting one transition changes the sum by the difference of the two frequencies. */
  lemma {:induction false} SumFreqUpdate<T>(ts: seq<Transition<T>>, k: nat, t: Transition<T>)
    requires k < |ts|
    ensures SumFreq(ts[k := t]) == SumFreq(ts) - ts[k].freq + t.freq
  {
    if k == 0 {
      assert ts[k := t][1..] == ts[1..];
    } else {
      assert ts[k := t][1..] == ts[1..][k - 1 := t];
      SumFreqUpdate(ts[1..], k - 1, t);
    }
  }

  /** `getAcceptedTransitions(d)`: the transitions whose destination is `d`, in list order. */
  function AcceptedTransitions<T(==, !new)>(ts: seq<Transition<T>>, d: nat): (r: seq<Transition<T>>)
    ensures |r| <= |ts|
    ensures forall t :: t in r <==> t in ts && t.dest == d
  {
    if ts == [] then []
    else if ts[0].dest == d then [ts[0]] + AcceptedTransitions(ts[1..], d)
    else AcceptedTransitions(ts[1..], d)
  }

  /**
   * `getAcceptedTransitions` keeps the list order and every copy: the result
   * is the transitions at the increasing positions `idx`, and those are
   * exactly the positions of transitions into `d`.
   */
  lemma {:induction false} AcceptedInOrder<T(!new)>(ts: seq<Transition<T>>, d: nat) returns (idx: seq<nat>)
    ensures AcceptedAt(ts, d, idx)
  {
    if ts == [] {
      idx := [];
    } else {
      var rest := AcceptedInOrder(ts[1..], d);
      idx := AcceptedCons(ts, d, rest);
    }
  }

  /** The positions `idx` pick out, in order, exactly the transitions of `ts` into `d`. */
  ghost predicate AcceptedAt<T(!new)>(ts: seq<Transition<T>>, d: nat, idx: seq<nat>)
  {
    Picks(ts, AcceptedTransitions(ts, d), idx) && Increasing(idx) && ExactlyAt(ts, d, idx)
  }

  /** `r` is the transitions of `ts` at the positions `idx`. */
  ghost predicate Picks<T(!new)>(ts: seq<Transition<T>>, r: seq<Transition<T>>, idx: seq<nat>)
  {
    |idx| == |r| && forall j :: 0 <= j < |idx| ==> idx[j] < |ts| && r[j] == ts[idx[j]]
  }

  predicate Increasing(idx: seq<nat>)
  {
    forall j, j' :: 0 <= j < j' < |idx| ==> idx[j] < idx[j']
  }

  /** The positions are exactly those of the transitions into `d`. */
  predicate ExactlyAt<T>(ts: seq<Transition<T>>, d: nat, idx: seq<nat>)
  {
    forall k :: 0 <= k < |ts| ==> (ts[k].dest == d <==> k in idx)
  }

  /** The positions for `ts` from those for its tail. */
  lemma AcceptedCons<T(!new)>(ts: seq<Transition<T>>, d: nat, rest: seq<nat>) returns (idx: seq<nat>)
    requires ts != [] && AcceptedAt(ts[1..], d, rest)
    ensures AcceptedAt(ts, d, idx)
  {
    var B := AcceptedTransitions(ts[1..], d);
    var shifted := Shifted(rest);
    ShiftedPicks(ts, B, rest);
    ShiftedExactly(ts, d, rest);
    if ts[0].dest == d {
      idx := [0] + shifted;
      assert AcceptedTransitions(ts, d) == [ts[0]] + B;
      ConsPicks(ts, B, shifted);
      ConsIncreasing(rest);
      ConsExactly(ts, d, shifted);
    } else {
      idx := shifted;
      assert AcceptedTransitions(ts, d) == B;
      assert ts[0].dest != d && 0 !in shifted;
    }
  }

  lemma ShiftedPicks<T(!new)>(ts: seq<Transition<T>>, B: seq<Transition<T>>, rest: seq<nat>)
    requires ts != [] && Picks(ts[1..], B, rest)
    ensures Picks(ts, B, Shifted(rest))
  {
    forall j | 0 <= j < |rest|
      ensures Shifted(rest)[j] < |ts| && B[j] == ts[Shifted(rest)[j]]
    {
      assert ts[1..][rest[j]] == ts[rest[j] + 1];
    }
  }

  lemma ShiftedExactly<T>(ts: seq<Transition<T>>, d: nat, rest: seq<nat>)
    requires ts != [] && ExactlyAt(ts[1..], d, rest)
    ensures forall k :: 0 < k < |ts| ==> (ts[k].dest == d <==> k in Shifted(rest))
  {
    forall k | 0 < k < |ts|
      ensures ts[k].dest == d <==> k in Shifted(rest)
    {
      assert ts[k] == ts[1..][k - 1];
    }
  }

  lemma ConsPicks<T(!new)>(ts: seq<Transition<T>>, B: seq<Transition<T>>, shifted: seq<nat>)
    requires ts != [] && Picks(ts, B, shifted)
    ensures Picks(ts, [ts[0]] + B, [0] + shifted)
  {
    var idx, A := [0] + shifted, [ts[0]] + B;
    forall j | 0 < j < |idx|
      ensures idx[j] < |ts| && A[j] == ts[idx[j]]
    {
      assert idx[j] == shifted[j - 1] && A[j] == B[j - 1];
    }
  }

  lemma ConsIncreasing(rest: seq<nat>)
    requires Increasing(rest)
    ensures Increasing([0] + Shifted(rest))
  {
    var idx := [0] + Shifted(rest);
    forall j, j' | 0 <= j < j' < |idx|
      ensures idx[j] < idx[j']
    {
      assert idx[j'] == rest[j' - 1] + 1;
      if j > 0 {
        assert idx[j] == rest[j - 1] + 1;
      }
    }
  }

  lemma ConsExactly<T>(ts: seq<Transition<T>>, d: nat, shifted: seq<nat>)
    requires ts != [] && ts[0].dest == d && 0 !in shifted
    requires forall k :: 0 < k < |ts| ==> (ts[k].dest == d <==> k in shifted)
    ensures ExactlyAt(ts, d, [0] + shifted)
  {
    forall k | 0 < k < |ts|
      ensures ts[k].dest == d <==> k in [0] + shifted
    {
      assert k in [0] + shifted <==> k in shifted;
    }
  }

  /** Every position moved one place on. */
  function Shifted(idx: seq<nat>): (r: seq<nat>)
    ensures |r| == |idx| && forall j :: 0 <= j < |idx| ==> r[j] == idx[j] + 1
    ensures forall k :: k !in r || k > 0
    ensures forall k :: k > 0 ==> (k in r <==> k - 1 in idx)
  {
    var r := seq(|idx|, j requires 0 <= j < |idx| => idx[j] + 1);
    assert forall k :: k > 0 && k - 1 in idx ==> k in r by {
      forall k | k > 0 && k - 1 in idx ensures k in r {
        var j :| 0 <= j < |idx| && idx[j] == k - 1;
        assert r[j] == k;
      }
    }
    r
  }

  /**
   * `compareTo`: `this._id - o._id` in 32-bit arithmetic. While the difference
   * fits in an `int`, its sign orders the states by id.
   */
  function CompareTo<T>(a: StateRec<T>, b: StateRec<T>): (r: Int32)
    ensures -0x8000_0000 <= a.id - b.id < 0x8000_0000 ==>
      (r < 0 <==> a.id < b.id) && (r == 0 <==> a.id == b.id) && (r > 0 <==> a.id > b.id)
  {
    Wrap32(a.id - b.id)
  }

  /** The difference wraps once ids are far apart. */
  lemma CompareToWraps()
    ensures var big: StateRec<int> := StateRec(false, [], 0x7FFF_FFFF);
      var low: StateRec<int> := StateRec(false, [], -1);
      big.id > low.id && CompareTo(big, low) < 0
  {
  }

  // ---------------------------------------------------------------------
  // Transition
  // ---------------------------------------------------------------------

  /** `new Transition(symbol, to_state)`: the frequency starts at 0. */
  function NewTransition<T>(symbol: T, dest: nat): (t: Transition<T>)
    ensures t.freq == 0 && t.symbol == symbol && t.dest == dest
  {
    Transition(symbol, dest, 0)
  }

  /** `equals` against another transition: the same destination object and equal symbols. */
  predicate TransitionEquals<T>(t: Transition<T>, o: Transition<T>, eq: (T, T) -> bool)
  {
    t.dest == o.dest && eq(t.symbol, o.symbol)
  }

  /**
   * `hashCode`: the symbol's hash XOR the destination's identity hash; given
   * the destination's hash, the symbol's hash can be read back from it.
   */
  function TransitionHash<T>(t: Transition<T>, symbolHash: T -> bv32, stateHash: nat -> bv32): (h: bv32)
    ensures h ^ stateHash(t.dest) == symbolHash(t.symbol)
  {
    symbolHash(t.symbol) ^ stateHash(t.dest)
  }

  /** What `equals(Object obj)` may be handed: another transition, or anything else (such as a symbol). */
  datatype Operand<T> = TransitionOperand(t: Transition<T>) | OtherOperand(x: T)

  /**
   * `equals(obj)`: against a transition, `TransitionEquals`; against any
   * other object, the symbol's own `equals` of that object.
   */
  predicate TransitionEqualsObject<T>(t: Transition<T>, obj: Operand<T>, eq: (T, T) -> bool)
  {
    match obj
    case TransitionOperand(o) => TransitionEquals(t, o, eq)
    case OtherOperand(x) => eq(t.symbol, x)
  }

  /**
   * The fallback makes `equals` no equivalence: two transitions on the same
   * symbol to different states both equal that symbol but not each other.
   */
  lemma TransitionEqualsNotTransitive<T>(t: Transition<T>, u: Transition<T>, eq: (T, T) -> bool)
    requires forall x :: eq(x, x)
    requires t.symbol == u.symbol && t.dest != u.dest
    ensures TransitionEqualsObject(t, OtherOperand(t.symbol), eq) && TransitionEqualsObject(u, OtherOperand(t.symbol), eq)
    ensures !TransitionEqualsObject(t, TransitionOperand(u), eq)
  {
  }

  /** Against transitions alone, `equals` is an equivalence whenever the symbols' equality is one. */
  lemma TransitionEqualsEquivalence<T>(t: Transition<T>, u: Transition<T>, v: Transition<T>, eq: (T, T) -> bool)
    requires forall x :: eq(x, x)
    requires forall x, y :: eq(x, y) ==> eq(y, x)
    requires forall x, y, z :: eq(x, y) && eq(y, z) ==> eq(x, z)
    ensures TransitionEquals(t, t, eq)
    ensures TransitionEquals(t, u, eq) ==> TransitionEquals(u, t, eq)
    ensures TransitionEquals(t, u, eq) && TransitionEquals(u, v, eq) ==> TransitionEquals(t, v, eq)
  {
  }

  /** Equal transitions hash alike whenever the symbols' hash agrees with their equality. */
  lemma TransitionHashConsistent<T>(t: Transition<T>, o: Transition<T>, eq: (T, T) -> bool,
                                    symbolHash: T -> bv32, stateHash: nat -> bv32)
    requires forall x, y :: eq(x, y) ==> symbolHash(x) == symbolHash(y)
    requires TransitionEquals(t, o, eq)
    ensures TransitionHash(t, symbolHash, stateHash) == TransitionHash(o, symbolHash, stateHash)
  {
  }

  // ---------------------------------------------------------------------
  // Acceptance
  // ---------------------------------------------------------------------

  /**
   * The private recursive `accepts(only_final_state, state, sequence, offset)`:
   * at the end of the sequence it answers by finality (or true when finality is
   * not asked for); otherwise it tries each transition in list order whose
   * symbol equals the next symbol.
   */
  predicate Accepts<T>(a: Arena<T>, onlyFinal: bool, s: nat, sq: seq<T>, i: nat, eq: (T, T) -> bool)
    requires Closed(a) && s < |a| && i <= |sq|
    decreases |sq| - i, 1
  {
    if i == |sq| then !onlyFinal || a[s].isFinal
    else AcceptsVia(a, onlyFinal, s, sq, i, 0, eq)
  }

  /** The loop over `state`'s transitions from the `k`-th on. */
  predicate AcceptsVia<T>(a: Arena<T>, onlyFinal: bool, s: nat, sq: seq<T>, i: nat, k: nat, eq: (T, T) -> bool)
    requires Closed(a) && s < |a| && i < |sq|
    decreases |sq| - i, 0, |a[s].transitions| - k
  {
    k < |a[s].transitions| &&
    ((eq(a[s].transitions[k].symbol, sq[i]) && Accepts(a, onlyFinal, a[s].transitions[k].dest, sq, i + 1, eq))
     || AcceptsVia(a, onlyFinal, s, sq, i, k + 1, eq))
  }

  /**
   * A run: transition indices that, taken one after another from `s`, read the
   * symbols `sq[i..]` in order. This is the reference meaning of acceptance.
   */
  predicate IsRun<T>(a: Arena<T>, s: nat, sq: seq<T>, i: nat, path: seq<nat>, eq: (T, T) -> bool)
    requires Closed(a) && s < |a|
    decreases path
  {
    i + |path| <= |sq| &&
    (path == [] ||
     (path[0] < |a[s].transitions| && eq(a[s].transitions[path[0]].symbol, sq[i]) &&
      IsRun(a, a[s].transitions[path[0]].dest, sq, i + 1, path[1..], eq)))
  }

  /** The state a run ends in. */
  function RunEnd<T>(a: Arena<T>, s: nat, path: seq<nat>): (e: nat)
    requires Closed(a) && s < |a|
    ensures e < |a|
    decreases path
  {
    if path == [] || path[0] >= |a[s].transitions| then s
    else RunEnd(a, a[s].transitions[path[0]].dest, path[1..])
  }

  /** A transition that reads the next symbol leads to acceptance when its destination accepts. */
  lemma {:induction false} ViaWitness<T>(a: Arena<T>, onlyFinal: bool, s: nat, sq: seq<T>, i: nat, k0: nat, k: nat, eq: (T, T) -> bool)
    requires Closed(a) && s < |a| && i < |sq|
    requires k0 <= k < |a[s].transitions| && eq(a[s].transitions[k].symbol, sq[i])
    requires Accepts(a, onlyFinal, a[s].transitions[k].dest, sq, i + 1, eq)
    ensures AcceptsVia(a, onlyFinal, s, sq, i, k0, eq)
    decreases k - k0
  {
    if k0 < k {
      ViaWitness(a, onlyFinal, s, sq, i, k0 + 1, k, eq);
    }
  }

  /** Every complete run that ends where finality is satisfied makes `accepts` true. */
  lemma {:induction false} RunAccepts<T>(a: Arena<T>, onlyFinal: bool, s: nat, sq: seq<T>, i: nat, path: seq<nat>, eq: (T, T) -> bool)
    requires Closed(a) && s < |a|
    requires IsRun(a, s, sq, i, path, eq) && i + |path| == |sq|
    requires onlyFinal ==> a[RunEnd(a, s, path)].isFinal
    ensures Accepts(a, onlyFinal, s, sq, i, eq)
    decreases path
  {
    if path != [] {
      var t := a[s].transitions[path[0]];
      RunAccepts(a, onlyFinal, t.dest, sq, i + 1, path[1..], eq);
      ViaWitness(a, onlyFinal, s, sq, i, 0, path[0], eq);
    }
  }

  /** Conversely, `accepts` finds such a run. */
  lemma {:induction false} AcceptsRun<T>(a: Arena<T>, onlyFinal: bool, s: nat, sq: seq<T>, i: nat, eq: (T, T) -> bool)
    returns (path: seq<nat>)
    requires Closed(a) && s < |a| && i <= |sq|
    requires Accepts(a, onlyFinal, s, sq, i, eq)
    ensures IsRun(a, s, sq, i, path, eq) && i + |path| == |sq|
    ensures onlyFinal ==> a[RunEnd(a, s, path)].isFinal
    decreases |sq| - i, 1
  {
    if i == |sq| {
      path := [];
    } else {
      path := ViaRun(a, onlyFinal, s, sq, i, 0, eq);
    }
  }

  lemma {:induction false} ViaRun<T>(a: Arena<T>, onlyFinal: bool, s: nat, sq: seq<T>, i: nat, k: nat, eq: (T, T) -> bool)
    returns (path: seq<nat>)
    requires Closed(a) && s < |a| && i < |sq|
    requires AcceptsVia(a, onlyFinal, s, sq, i, k, eq)
    ensures IsRun(a, s, sq, i, path, eq) && i + |path| == |sq|
    ensures onlyFinal ==> a[RunEnd(a, s, path)].isFinal
    decreases |sq| - i, 0, |a[s].transitions| - k
  {
    var t := a[s].transitions[k];
    if eq(t.symbol, sq[i]) && Accepts(a, onlyFinal, t.dest, sq, i + 1, eq) {
      var rest := AcceptsRun(a, onlyFinal, t.dest, sq, i + 1, eq);
      path := [k] + rest;
      assert path[1..] == rest;
    } else {
      path := ViaRun(a, onlyFinal, s, sq, i, k + 1, eq);
    }
  }

  /** `accepts` implies `acceptsPrefix`: the prefix form only drops the finality test. */
  lemma AcceptsImpliesPrefix<T>(a: Arena<T>, s: nat, sq: seq<T>, i: nat, eq: (T, T) -> bool)
    requires Closed(a) && s < |a| && i <= |sq|
    requires Accepts(a, true, s, sq, i, eq)
    ensures Accepts(a, false, s, sq, i, eq)
  {
    var path := AcceptsRun(a, true, s, sq, i, eq);
    RunAccepts(a, false, s, sq, i, path, eq);
  }

  // ---------------------------------------------------------------------
  // All accepted paths
  // ---------------------------------------------------------------------

  /**
   * The collecting `accepts(only_final_state, state, sequence, accepted,
   * fully_accepted_paths, offset)`: `stack` is the shared Stack of transitions
   * taken so far, and the result lists the accepted paths in search order. When
   * the whole sequence is read on a state that does not satisfy the finality
   * test, the code falls through to `sequence.get(offset)` with `offset` equal
   * to the size, which throws.
   */
  function AllPaths<T>(a: Arena<T>, onlyFinal: bool, s: nat, sq: seq<T>, i: nat,
                       stack: seq<Transition<T>>, eq: (T, T) -> bool): Result<seq<seq<Transition<T>>>>
    requires Closed(a) && s < |a| && i <= |sq|
    decreases |sq| - i, 1
  {
    if i == |sq| then
      if !onlyFinal || a[s].isFinal then Ok([stack]) else Err(IndexOutOfBounds)
    else AllPathsVia(a, onlyFinal, s, sq, i, stack, 0, eq)
  }

  function AllPathsVia<T>(a: Arena<T>, onlyFinal: bool, s: nat, sq: seq<T>, i: nat,
                          stack: seq<Transition<T>>, k: nat, eq: (T, T) -> bool): Result<seq<seq<Transition<T>>>>
    requires Closed(a) && s < |a| && i < |sq|
    decreases |sq| - i, 0, |a[s].transitions| - k
  {
    if k >= |a[s].transitions| then Ok([])
    else
      var t := a[s].transitions[k];
      var here := if eq(t.symbol, sq[i]) then AllPaths(a, onlyFinal, t.dest, sq, i + 1, stack + [t], eq) else Ok([]);
      if here.Err? then here
      else
        var rest := AllPathsVia(a, onlyFinal, s, sq, i, stack, k + 1, eq);
        if rest.Err? then rest else Ok(here.value + rest.value)
  }

  lemma {:induction false} AllPathsViaErr<T>(a: Arena<T>, s: nat, sq: seq<T>, i: nat, stack: seq<Transition<T>>,
                                              k0: nat, k: nat, eq: (T, T) -> bool)
    requires Closed(a) && s < |a| && i < |sq|
    requires k0 <= k < |a[s].transitions| && eq(a[s].transitions[k].symbol, sq[i])
    requires AllPaths(a, true, a[s].transitions[k].dest, sq, i + 1, stack + [a[s].transitions[k]], eq).Err?
    ensures AllPathsVia(a, true, s, sq, i, stack, k0, eq).Err?
    decreases k - k0
  {
    if k0 < k {
      AllPathsViaErr(a, s, sq, i, stack, k0 + 1, k, eq);
    }
  }

  /**
   * `acceptsAllPaths` throws as soon as some run reads the whole sequence and
   * ends on a non-final state, whatever other runs exist.
   */
  lemma {:induction false} DeadEndThrows<T>(a: Arena<T>, s: nat, sq: seq<T>, i: nat, path: seq<nat>,
                                            stack: seq<Transition<T>>, eq: (T, T) -> bool)
    requires Closed(a) && s < |a|
    requires IsRun(a, s, sq, i, path, eq) && i + |path| == |sq|
    requires !a[RunEnd(a, s, path)].isFinal
    ensures AllPaths(a, true, s, sq, i, stack, eq).Err?
    decreases path
  {
    if path != [] {
      var t := a[s].transitions[path[0]];
      DeadEndThrows(a, t.dest, sq, i + 1, path[1..], stack + [t], eq);
      AllPathsViaErr(a, s, sq, i, stack, 0, path[0], eq);
    }
  }

  /** Every path `acceptsAllPaths` reports starts with the stack and reads the rest of the sequence. */
  lemma {:induction false} AllPathsRead<T>(a: Arena<T>, onlyFinal: bool, s: nat, sq: seq<T>, i: nat,
                                           stack: seq<Transition<T>>, eq: (T, T) -> bool)
    requires Closed(a) && s < |a| && i <= |sq|
    requires AllPaths(a, onlyFinal, s, sq, i, stack, eq).Ok?
    ensures forall p: seq<Transition<T>> :: p in AllPaths(a, onlyFinal, s, sq, i, stack, eq).value ==>
      |p| == |stack| + |sq| - i && p[..|stack|] == stack &&
      forall j :: |stack| <= j < |p| ==> eq(p[j].symbol, sq[i + j - |stack|])
    decreases |sq| - i, 1
  {
    if i < |sq| {
      AllPathsViaRead(a, onlyFinal, s, sq, i, stack, 0, eq);
    }
  }

  lemma {:induction false} AllPathsViaRead<T>(a: Arena<T>, onlyFinal: bool, s: nat, sq: seq<T>, i: nat,
                                              stack: seq<Transition<T>>, k: nat, eq: (T, T) -> bool)
    requires Closed(a) && s < |a| && i < |sq|
    requires AllPathsVia(a, onlyFinal, s, sq, i, stack, k, eq).Ok?
    ensures forall p: seq<Transition<T>> :: p in AllPathsVia(a, onlyFinal, s, sq, i, stack, k, eq).value ==>
      |p| == |stack| + |sq| - i && p[..|stack|] == stack &&
      forall j :: |stack| <= j < |p| ==> eq(p[j].symbol, sq[i + j - |stack|])
    decreases |sq| - i, 0, |a[s].transitions| - k
  {
    if k < |a[s].transitions| {
      var t := a[s].transitions[k];
      AllPathsViaRead(a, onlyFinal, s, sq, i, stack, k + 1, eq);
      if eq(t.symbol, sq[i]) {
        var st := stack + [t];
        AllPathsRead(a, onlyFinal, t.dest, sq, i + 1, st, eq);
        forall p: seq<Transition<T>> | p in AllPaths(a, onlyFinal, t.dest, sq, i + 1, st, eq).value
          ensures |p| == |stack| + |sq| - i && p[..|stack|] == stack &&
            forall j :: |stack| <= j < |p| ==> eq(p[j].symbol, sq[i + j - |stack|])
        {
          assert p[..|st|] == st;
          assert p[..|stack|] == st[..|stack|];
          assert p[|stack|] == st[|stack|];
        }
      }
    }
  }

  // ---------------------------------------------------------------------
  // getListofPaths
  // ---------------------------------------------------------------------

  /**
   * `getListofPaths_rec`: the symbol sequences of all paths from `s` to a final
   * state, depth first in transition order. The Java recursion never ends on a
   * reachable cycle; here a path longer than the number of states (which must
   * repeat a state) is reported as the stack overflow it causes.
   */
  function PathsFrom<T>(a: Arena<T>, s: nat, current: seq<T>, depth: nat): Result<seq<seq<T>>>
    requires Closed(a) && s < |a|
    decreases |a| + 1 - depth, 1
  {
    if depth > |a| then Err(StackOverflow)
    else
      var rest := PathsVia(a, s, current, depth, 0);
      if rest.Err? then rest
      else Ok((if a[s].isFinal then [current] else []) + rest.value)
  }

  function PathsVia<T>(a: Arena<T>, s: nat, current: seq<T>, depth: nat, k: nat): Result<seq<seq<T>>>
    requires Closed(a) && s < |a| && depth <= |a|
    decreases |a| + 1 - depth, 0, |a[s].transitions| - k
  {
    if k >= |a[s].transitions| then Ok([])
    else
      var t := a[s].transitions[k];
      var here := PathsFrom(a, t.dest, current + [t.symbol], depth + 1);
      if here.Err? then here
      else
        var rest := PathsVia(a, s, current, depth, k + 1);
        if rest.Err? then rest else Ok(here.value + rest.value)
  }

  /** Every listed path extends the current one and is accepted. */
  lemma {:induction false} PathsFromAccepted<T>(a: Arena<T>, s: nat, current: seq<T>, depth: nat, eq: (T, T) -> bool)
    requires Closed(a) && s < |a|
    requires forall x :: eq(x, x)
    requires PathsFrom(a, s, current, depth).Ok?
    ensures forall p :: p in PathsFrom(a, s, current, depth).value ==>
      |current| <= |p| && p[..|current|] == current && Accepts(a, true, s, p, |current|, eq)
    decreases |a| + 1 - depth, 1
  {
    PathsViaAccepted(a, s, current, depth, 0, eq);
  }

  lemma {:induction false} PathsViaAccepted<T>(a: Arena<T>, s: nat, current: seq<T>, depth: nat, k: nat, eq: (T, T) -> bool)
    requires Closed(a) && s < |a| && depth <= |a|
    requires forall x :: eq(x, x)
    requires PathsVia(a, s, current, depth, k).Ok?
    ensures forall p :: p in PathsVia(a, s, current, depth, k).value ==>
      |current| < |p| && p[..|current|] == current && Accepts(a, true, s, p, |current|, eq)
    decreases |a| + 1 - depth, 0, |a[s].transitions| - k
  {
    if k < |a[s].transitions| {
      var t := a[s].transitions[k];
      var next := current + [t.symbol];
      PathsFromAccepted(a, t.dest, next, depth + 1, eq);
      PathsViaAccepted(a, s, current, depth, k + 1, eq);
      forall p | p in PathsFrom(a, t.dest, next, depth + 1).value
        ensures |current| < |p| && p[..|current|] == current && Accepts(a, true, s, p, |current|, eq)
      {
        assert p[..|next|] == next;
        assert p[..|current|] == next[..|current|];
        assert p[|current|] == t.symbol;
        ViaWitness(a, true, s, p, |current|, 0, k, eq);
      }
    }
  }

  /** Every index of `path` names a transition of the state reached so far. */
  predicate PathIn<T>(a: Arena<T>, s: nat, path: seq<nat>)
    requires Closed(a) && s < |a|
    decreases path
  {
    path == [] || (path[0] < |a[s].transitions| && PathIn(a, a[s].transitions[path[0]].dest, path[1..]))
  }

  /** The symbols read along `path` from `s`. */
  function Labels<T>(a: Arena<T>, s: nat, path: seq<nat>): (r: seq<T>)
    requires Closed(a) && s < |a|
    ensures PathIn(a, s, path) ==> |r| == |path|
    decreases path
  {
    if path == [] || path[0] >= |a[s].transitions| then []
    else [a[s].transitions[path[0]].symbol] + Labels(a, a[s].transitions[path[0]].dest, path[1..])
  }

  /**
   * Conversely, when no stack overflow is reported, every path from `s` to a
   * final state is listed, as the current path followed by its symbols.
   */
  lemma {:induction false} PathsFromComplete<T>(a: Arena<T>, s: nat, current: seq<T>, depth: nat, path: seq<nat>)
    requires Closed(a) && s < |a|
    requires PathsFrom(a, s, current, depth).Ok?
    requires PathIn(a, s, path) && a[RunEnd(a, s, path)].isFinal
    ensures current + Labels(a, s, path) in PathsFrom(a, s, current, depth).value
    decreases |path|, 1
  {
    if path == [] {
      assert current + Labels(a, s, path) == current;
    } else {
      PathsViaComplete(a, s, current, depth, 0, path);
    }
  }

  lemma {:induction false} PathsViaComplete<T>(a: Arena<T>, s: nat, current: seq<T>, depth: nat, k: nat, path: seq<nat>)
    requires Closed(a) && s < |a| && depth <= |a|
    requires PathsVia(a, s, current, depth, k).Ok?
    requires PathIn(a, s, path) && path != [] && k <= path[0] && a[RunEnd(a, s, path)].isFinal
    ensures current + Labels(a, s, path) in PathsVia(a, s, current, depth, k).value
    decreases |path|, 0, |a[s].transitions| - k
  {
    var t := a[s].transitions[k];
    var here := PathsFrom(a, t.dest, current + [t.symbol], depth + 1);
    var rest := PathsVia(a, s, current, depth, k + 1);
    assert here.Ok? && rest.Ok? && PathsVia(a, s, current, depth, k).value == here.value + rest.value;
    var p := current + Labels(a, s, path);
    if k == path[0] {
      assert PathIn(a, t.dest, path[1..]) && RunEnd(a, s, path) == RunEnd(a, t.dest, path[1..]);
      PathsFromComplete(a, t.dest, current + [t.symbol], depth + 1, path[1..]);
      assert Labels(a, s, path) == [t.symbol] + Labels(a, t.dest, path[1..]);
      AppendAssoc(current, t.symbol, Labels(a, t.dest, path[1..]));
      assert p in here.value;
    } else {
      PathsViaComplete(a, s, current, depth, k + 1, path);
      assert p in rest.value;
    }
  }

  lemma AppendAssoc<T>(c: seq<T>, x: T, l: seq<T>)
    ensures c + ([x] + l) == (c + [x]) + l
  {
  }

  // ---------------------------------------------------------------------
  // addSequence, as a function of the arena
  // ---------------------------------------------------------------------

  /** Two arenas that differ at most in frequencies and ids. */
  ghost predicate SameShape<T>(a: Arena<T>, b: Arena<T>)
  {
    |a| == |b| &&
    forall s :: 0 <= s < |a| ==>
      a[s].isFinal == b[s].isFinal && |a[s].transitions| == |b[s].transitions| &&
      forall k :: 0 <= k < |a[s].transitions| ==>
        a[s].transitions[k].symbol == b[s].transitions[k].symbol && a[s].transitions[k].dest == b[s].transitions[k].dest
  }

  /** `b` keeps every state of `a` and, in each, every transition's symbol and destination. */
  ghost predicate Extends<T>(a: Arena<T>, b: Arena<T>)
  {
    |a| <= |b| &&
    forall s :: 0 <= s < |a| ==>
      |a[s].transitions| <= |b[s].transitions| &&
      forall k :: 0 <= k < |a[s].transitions| ==>
        b[s].transitions[k].symbol == a[s].transitions[k].symbol && b[s].transitions[k].dest == a[s].transitions[k].dest
  }

  lemma ExtendsTrans<T>(a: Arena<T>, b: Arena<T>, c: Arena<T>)
    requires Extends(a, b) && Extends(b, c)
    ensures Extends(a, c)
  {
  }

  /** Steps (state, transition index) that name transitions of `a`. */
  predicate StepsIn<T>(a: Arena<T>, steps: seq<(nat, nat)>)
  {
    forall j :: 0 <= j < |steps| ==> steps[j].0 < |a| && steps[j].1 < |a[steps[j].0].transitions|
  }

  /**
   * The common-prefix walk of `addSequence`: while the state is not final and
   * symbols remain, follow the first transition whose symbol equals the next
   * symbol. The result is the steps taken and the state reached.
   */
  function Walk<T>(a: Arena<T>, s: nat, sq: seq<T>, i: nat, eq: (T, T) -> bool): (r: (seq<(nat, nat)>, nat))
    requires Closed(a) && s < |a| && i <= |sq|
    ensures r.1 < |a| && i + |r.0| <= |sq| && StepsIn(a, r.0)
    decreases |sq| - i
  {
    if a[s].isFinal || i == |sq| then ([], s)
    else match GetTransition(a[s].transitions, sq[i], eq)
      case None => ([], s)
      case Some(k) =>
        var r := Walk(a, a[s].transitions[k].dest, sq, i + 1, eq);
        ([(s, k)] + r.0, r.1)
  }

  /** Having taken `steps` and reached `s` at symbol `i`, the rest of the walk completes `w`. */
  ghost predicate OnWalk<T>(a: Arena<T>, sq: seq<T>, eq: (T, T) -> bool, w: (seq<(nat, nat)>, nat), steps: seq<(nat, nat)>, s: nat, i: nat)
    requires Closed(a) && s < |a| && i <= |sq|
  {
    |steps| == i && steps + Walk(a, s, sq, i, eq).0 == w.0 && Walk(a, s, sq, i, eq).1 == w.1
  }

  /** The walk is over at a final state or at the end of the sequence. */
  lemma WalkDone<T>(a: Arena<T>, sq: seq<T>, eq: (T, T) -> bool, w: (seq<(nat, nat)>, nat),
                    steps: seq<(nat, nat)>, s: nat, i: nat, b: Arena<T>)
    requires Closed(a) && s < |a| && i <= |sq| && OnWalk(a, sq, eq, w, steps, s, i)
    requires StepsIn(a, steps) && b == Bump(a, steps) && (b[s].isFinal || i == |sq|)
    ensures steps == w.0 && s == w.1 && |steps| == i
  {
    BumpShape(a, steps);
    assert steps + [] == steps;
  }

  /** One step of the walk. */
  lemma WalkStep<T>(a: Arena<T>, s: nat, sq: seq<T>, i: nat, k: nat, eq: (T, T) -> bool)
    requires Closed(a) && s < |a| && i < |sq| && !a[s].isFinal
    requires GetTransition(a[s].transitions, sq[i], eq) == Some(k)
    ensures Walk(a, s, sq, i, eq).1 == Walk(a, a[s].transitions[k].dest, sq, i + 1, eq).1
    ensures Walk(a, s, sq, i, eq).0 == [(s, k)] + Walk(a, a[s].transitions[k].dest, sq, i + 1, eq).0
  {
  }

  /** The walk stops where no transition reads the next symbol. */
  lemma WalkStop<T>(a: Arena<T>, s: nat, sq: seq<T>, i: nat, eq: (T, T) -> bool)
    requires Closed(a) && s < |a| && i < |sq|
    requires GetTransition(a[s].transitions, sq[i], eq).None?
    ensures Walk(a, s, sq, i, eq) == ([], s)
  {
  }

  /** `t.setFreq(t.getFreq() + 1)` on transition `k` of a state. */
  function BumpRec<T>(r: StateRec<T>, k: nat): StateRec<T>
    requires k < |r.transitions|
  {
    r.(transitions := r.transitions[k := r.transitions[k].(freq := r.transitions[k].freq + 1)])
  }

  /** The same on transition `k` of state `s` of the arena. */
  function BumpOne<T>(a: Arena<T>, s: nat, k: nat): (r: Arena<T>)
    requires s < |a| && k < |a[s].transitions|
    ensures SameShape(a, r)
  {
    a[s := BumpRec(a[s], k)]
  }

  lemma SameShapeSteps<T>(a: Arena<T>, b: Arena<T>, steps: seq<(nat, nat)>)
    requires SameShape(a, b) && StepsIn(a, steps)
    ensures StepsIn(b, steps)
  {
  }

  /** Every step of the walk adds one to the frequency of the transition it takes. */
  function Bump<T>(a: Arena<T>, steps: seq<(nat, nat)>): (r: Arena<T>)
    requires StepsIn(a, steps)
    ensures SameShape(a, r)
    decreases steps
  {
    if steps == [] then a
    else
      var b := BumpOne(a, steps[0].0, steps[0].1);
      SameShapeSteps(a, b, steps[1..]);
      Bump(b, steps[1..])
  }

  /**
   * `appendNewSymbol(state, symbol)`: a fresh non-final state with id `id` at
   * the end of the arena, reached from `from` by a new last transition of
   * frequency 1.
   */
  function AppendSymbol<T>(a: Arena<T>, from: nat, x: T, id: int): (r: Arena<T>)
    requires from < |a|
    ensures |r| == |a| + 1 && r[|a|] == StateRec(false, [], id)
    ensures r[from].transitions == a[from].transitions + [Transition(x, |a|, 1)]
    ensures Closed(a) ==> Closed(r)
  {
    a[from := a[from].(transitions := a[from].transitions + [Transition(x, |a|, 1)])] + [StateRec(false, [], id)]
  }

  /** The trailing loop of `addSequence`: a fresh chain for `sq[j..]`, ids counting up from `id`. */
  function Grow<T>(a: Arena<T>, from: nat, sq: seq<T>, j: nat, id: int): (r: Arena<T>)
    requires Closed(a) && from < |a| && j <= |sq|
    ensures Closed(r) && |r| == |a| + |sq| - j
    decreases |sq| - j
  {
    if j == |sq| then a
    else Grow(AppendSymbol(a, from, sq[j], id), |a|, sq, j + 1, id + 1)
  }

  /** The last state of that chain. */
  function GrowEnd<T>(a: Arena<T>, from: nat, sq: seq<T>, j: nat): nat
    requires j <= |sq|
  {
    if j == |sq| then from else |a| + |sq| - j - 1
  }

  function WithFinal<T>(a: Arena<T>, s: nat, b: bool): Arena<T>
    requires s < |a|
  {
    a[s := a[s].(isFinal := b)]
  }

  /**
   * The arena after `addSequence(sq)` from state `s`: the walked transitions
   * counted once more, the rest of the sequence appended as a fresh chain
   * below the state the walk reached, and the last state marked final.
   */
  function Inserted<T>(a: Arena<T>, s: nat, sq: seq<T>, id: int, eq: (T, T) -> bool): Arena<T>
    requires Closed(a) && s < |a|
  {
    var w := Walk(a, s, sq, 0, eq);
    var b := Bump(a, w.0);
    WithFinal(Grow(b, w.1, sq, |w.0|, id), GrowEnd(b, w.1, sq, |w.0|), true)
  }

  lemma GrowEndBound<T>(a: Arena<T>, from: nat, sq: seq<T>, j: nat, id: int)
    requires Closed(a) && from < |a| && j <= |sq|
    ensures GrowEnd(a, from, sq, j) < |Grow(a, from, sq, j, id)|
  {
  }

  lemma {:induction false} GrowExtends<T>(a: Arena<T>, from: nat, sq: seq<T>, j: nat, id: int)
    requires Closed(a) && from < |a| && j <= |sq|
    ensures Extends(a, Grow(a, from, sq, j, id))
    decreases |sq| - j
  {
    if j < |sq| {
      var b := AppendSymbol(a, from, sq[j], id);
      GrowExtends(b, |a|, sq, j + 1, id + 1);
      assert Extends(a, b);
      ExtendsTrans(a, b, Grow(b, |a|, sq, j + 1, id + 1));
    }
  }

  /** The fresh chain reads `sq[j..]` up to its final last state. */
  lemma {:induction false} GrowAccepts<T>(a: Arena<T>, from: nat, sq: seq<T>, j: nat, id: int, f: Arena<T>, eq: (T, T) -> bool)
    requires Closed(a) && from < |a| && j <= |sq| && Closed(f)
    requires forall x :: eq(x, x)
    requires Extends(Grow(a, from, sq, j, id), f)
    requires GrowEnd(a, from, sq, j) < |f| && f[GrowEnd(a, from, sq, j)].isFinal
    ensures from < |f| && Accepts(f, true, from, sq, j, eq)
    decreases |sq| - j
  {
    GrowExtends(a, from, sq, j, id);
    ExtendsTrans(a, Grow(a, from, sq, j, id), f);
    if j < |sq| {
      var b := AppendSymbol(a, from, sq[j], id);
      GrowAccepts(b, |a|, sq, j + 1, id + 1, f, eq);
      GrowExtends(b, |a|, sq, j + 1, id + 1);
      ExtendsTrans(b, Grow(b, |a|, sq, j + 1, id + 1), f);
      var k := |a[from].transitions|;
      assert b[from].transitions[k] == Transition(sq[j], |a|, 1);
      ViaWitness(f, true, from, sq, j, 0, k, eq);
    }
  }

  /** Walking back from the state the walk reached: every walked transition reads its symbol. */
  lemma {:induction false} WalkAccepts<T>(a: Arena<T>, s: nat, sq: seq<T>, i: nat, f: Arena<T>, eq: (T, T) -> bool)
    requires Closed(a) && s < |a| && i <= |sq| && Closed(f) && Extends(a, f)
    requires Accepts(f, true, Walk(a, s, sq, i, eq).1, sq, i + |Walk(a, s, sq, i, eq).0|, eq)
    ensures Accepts(f, true, s, sq, i, eq)
    decreases |sq| - i
  {
    if !a[s].isFinal && i < |sq| {
      match GetTransition(a[s].transitions, sq[i], eq)
      case None =>
      case Some(k) =>
        WalkAccepts(a, a[s].transitions[k].dest, sq, i + 1, f, eq);
        ViaWitness(f, true, s, sq, i, 0, k, eq);
    }
  }

  lemma {:induction false} BumpShape<T>(a: Arena<T>, steps: seq<(nat, nat)>)
    requires StepsIn(a, steps)
    ensures Extends(a, Bump(a, steps))
  {
  }

  /** After `addSequence(sq)`, `accepts(sq)` holds. */
  lemma InsertedAccepts<T>(a: Arena<T>, s: nat, sq: seq<T>, id: int, eq: (T, T) -> bool)
    requires Closed(a) && s < |a|
    requires forall x :: eq(x, x)
    ensures Closed(Inserted(a, s, sq, id, eq)) && s < |Inserted(a, s, sq, id, eq)|
    ensures Accepts(Inserted(a, s, sq, id, eq), true, s, sq, 0, eq)
  {
    var w := Walk(a, s, sq, 0, eq);
    var b := Bump(a, w.0);
    var g := Grow(b, w.1, sq, |w.0|, id);
    var e := GrowEnd(b, w.1, sq, |w.0|);
    GrowEndBound(b, w.1, sq, |w.0|, id);
    var f := WithFinal(g, e, true);
    assert Extends(g, f);
    GrowAccepts(b, w.1, sq, |w.0|, id, f, eq);
    BumpShape(a, w.0);
    GrowExtends(b, w.1, sq, |w.0|, id);
    ExtendsTrans(a, b, g);
    ExtendsTrans(a, g, f);
    WalkAccepts(a, s, sq, 0, f, eq);
  }

  // ---------------------------------------------------------------------
  // Frequency bookkeeping
  // ---------------------------------------------------------------------

  /** The sum of all transition frequencies in the arena. */
  function TotalFreq<T>(a: Arena<T>): int
    decreases |a|
  {
    if a == [] then 0 else TotalFreq(a[..|a| - 1]) + SumFreq(a[|a| - 1].transitions)
  }

  lemma {:induction false} TotalFreqUpdate<T>(a: Arena<T>, s: nat, r: StateRec<T>)
    requires s < |a|
    ensures TotalFreq(a[s := r]) == TotalFreq(a) - SumFreq(a[s].transitions) + SumFreq(r.transitions)
    decreases |a|
  {
    var n := |a| - 1;
    if s < n {
      assert a[s := r][..n] == a[..n][s := r];
      TotalFreqUpdate(a[..n], s, r);
    } else {
      assert a[s := r][..n] == a[..n];
    }
  }

  lemma TotalFreqSnoc<T>(a: Arena<T>, r: StateRec<T>)
    ensures TotalFreq(a + [r]) == TotalFreq(a) + SumFreq(r.transitions)
  {
    assert (a + [r])[..|a|] == a;
  }

  lemma BumpOneFreq<T>(a: Arena<T>, s: nat, k: nat)
    requires s < |a| && k < |a[s].transitions|
    ensures TotalFreq(BumpOne(a, s, k)) == TotalFreq(a) + 1
  {
    var t := a[s].transitions[k];
    var r := BumpRec(a[s], k);
    assert r.transitions == a[s].transitions[k := t.(freq := t.freq + 1)];
    assert SumFreq(r.transitions) == SumFreq(a[s].transitions) + 1 by {
      SumFreqUpdate(a[s].transitions, k, t.(freq := t.freq + 1));
    }
    assert BumpOne(a, s, k) == a[s := r];
    TotalFreqUpdate(a, s, r);
  }

  lemma {:induction false} BumpFreq<T>(a: Arena<T>, steps: seq<(nat, nat)>)
    requires StepsIn(a, steps)
    ensures TotalFreq(Bump(a, steps)) == TotalFreq(a) + |steps|
    decreases steps
  {
    if steps != [] {
      var b := BumpOne(a, steps[0].0, steps[0].1);
      BumpOneFreq(a, steps[0].0, steps[0].1);
      SameShapeSteps(a, b, steps[1..]);
      BumpFreq(b, steps[1..]);
    }
  }

  lemma AppendSymbolFreq<T>(a: Arena<T>, from: nat, x: T, id: int)
    requires from < |a|
    ensures TotalFreq(AppendSymbol(a, from, x, id)) == TotalFreq(a) + 1
  {
    var ts := a[from].transitions;
    SumFreqAppend(ts, [Transition(x, |a|, 1)]);
    assert SumFreq([Transition(x, |a|, 1)]) == 1;
    TotalFreqUpdate(a, from, a[from].(transitions := ts + [Transition(x, |a|, 1)]));
    TotalFreqSnoc(a[from := a[from].(transitions := ts + [Transition(x, |a|, 1)])], StateRec(false, [], id));
  }

  lemma {:induction false} GrowFreq<T>(a: Arena<T>, from: nat, sq: seq<T>, j: nat, id: int)
    requires Closed(a) && from < |a| && j <= |sq|
    ensures TotalFreq(Grow(a, from, sq, j, id)) == TotalFreq(a) + |sq| - j
    decreases |sq| - j
  {
    if j < |sq| {
      AppendSymbolFreq(a, from, sq[j], id);
      GrowFreq(AppendSymbol(a, from, sq[j], id), |a|, sq, j + 1, id + 1);
    }
  }

  /**
   * Every symbol of the sequence is counted exactly once: either on an existing
   * transition the walk follows or on a fresh transition of frequency 1.
   */
  lemma InsertedFreq<T>(a: Arena<T>, s: nat, sq: seq<T>, id: int, eq: (T, T) -> bool)
    requires Closed(a) && s < |a|
    ensures TotalFreq(Inserted(a, s, sq, id, eq)) == TotalFreq(a) + |sq|
  {
    var w := Walk(a, s, sq, 0, eq);
    var b := Bump(a, w.0);
    var g := Grow(b, w.1, sq, |w.0|, id);
    var e := GrowEnd(b, w.1, sq, |w.0|);
    GrowEndBound(b, w.1, sq, |w.0|, id);
    BumpFreq(a, w.0);
    GrowFreq(b, w.1, sq, |w.0|, id);
    TotalFreqUpdate(g, e, g[e].(isFinal := true));
  }

  /** Inserting keeps every existing transition and adds one fresh state per symbol the walk did not read. */
  lemma InsertedExtends<T>(a: Arena<T>, s: nat, sq: seq<T>, id: int, eq: (T, T) -> bool)
    requires Closed(a) && s < |a|
    ensures Extends(a, Inserted(a, s, sq, id, eq))
    ensures |Inserted(a, s, sq, id, eq)| == |a| + |sq| - |Walk(a, s, sq, 0, eq).0|
  {
    var w := Walk(a, s, sq, 0, eq);
    var b := Bump(a, w.0);
    var g := Grow(b, w.1, sq, |w.0|, id);
    var e := GrowEnd(b, w.1, sq, |w.0|);
    GrowEndBound(b, w.1, sq, |w.0|, id);
    BumpShape(a, w.0);
    GrowExtends(b, w.1, sq, |w.0|, id);
    ExtendsTrans(a, b, g);
    assert Extends(g, WithFinal(g, e, true));
    ExtendsTrans(a, g, WithFinal(g, e, true));
  }

  // ---------------------------------------------------------------------
  // resetAllStates helpers
  // ---------------------------------------------------------------------

  predicate Distinct(list: seq<nat>)
  {
    forall j, k :: 0 <= j < k < |list| ==> list[j] != list[k]
  }

  predicate InArena<T>(list: seq<nat>, a: Arena<T>)
  {
    forall j :: 0 <= j < |list| ==> list[j] < |a|
  }

  /** Listed states in non-decreasing id order, as `Collections.sort` leaves them. */
  predicate SortedById<T>(list: seq<nat>, a: Arena<T>)
  {
    InArena(list, a) && forall j, k :: 0 <= j < k < |list| ==> a[list[j]].id <= a[list[k]].id
  }

  /** One step of a stable sort: `x` goes after every listed state with an id not above its own. */
  function InsertById<T>(list: seq<nat>, x: nat, a: Arena<T>): (r: seq<nat>)
    requires x < |a| && InArena(list, a)
    ensures |r| == |list| + 1
  {
    if list == [] then [x]
    else if a[x].id < a[list[0]].id then [x] + list
    else [list[0]] + InsertById(list[1..], x, a)
  }

  lemma {:induction false} InsertByIdMembers<T>(list: seq<nat>, x: nat, a: Arena<T>)
    requires x < |a| && InArena(list, a)
    ensures forall y :: y in InsertById(list, x, a) <==> y in list || y == x
  {
    if list != [] && a[x].id >= a[list[0]].id {
      InsertByIdMembers(list[1..], x, a);
    }
  }

  lemma {:induction false} InsertBySorted<T>(list: seq<nat>, x: nat, a: Arena<T>)
    requires x < |a| && SortedById(list, a)
    ensures SortedById(InsertById(list, x, a), a)
  {
    if list != [] && a[x].id >= a[list[0]].id {
      InsertBySorted(list[1..], x, a);
      InsertByIdMembers(list[1..], x, a);
      var r := InsertById(list[1..], x, a);
      forall y | y in r ensures a[list[0]].id <= a[y].id {
        if y != x {
          var j :| 0 <= j < |list[1..]| && list[1..][j] == y;
          assert list[j + 1] == y;
        }
      }
    }
  }

  lemma {:induction false} InsertByDistinct<T>(list: seq<nat>, x: nat, a: Arena<T>)
    requires x < |a| && InArena(list, a) && Distinct(list) && x !in list
    ensures Distinct(InsertById(list, x, a))
  {
    if list != [] && a[x].id >= a[list[0]].id {
      assert x !in list[1..] && list[0] !in list[1..];
      InsertByDistinct(list[1..], x, a);
      InsertByIdMembers(list[1..], x, a);
      var r := InsertById(list[1..], x, a);
      assert list[0] !in r;
      assert InsertById(list, x, a) == [list[0]] + r;
      forall j, k | 0 <= j < k < |r| + 1 ensures ([list[0]] + r)[j] != ([list[0]] + r)[k] {
        if j == 0 {
          assert r[k - 1] in r;
        }
      }
    }
  }

  // ---------------------------------------------------------------------
  // The automaton object
  // ---------------------------------------------------------------------

  /**
   * `Automaton`: the arena of states, `_initial_state`, the `_all_states`
   * list and the counter `State.NEXT_ID`, which the model keeps per automaton.
   */
  class Automaton<T> {
    var states: Arena<T>
    var initial: nat
    var allStates: seq<nat>
    var nextId: int

    ghost predicate Valid()
      reads this
    {
      initial < |states| && Closed(states) && InArena(allStates, states)
    }

    /** `new Automaton()`: exactly one state, the initial one, non-final and listed. */
    constructor(nextId0: int)
      ensures Valid()
      ensures states == [StateRec(false, [], nextId0)] && initial == 0 && allStates == [0]
      ensures nextId == nextId0 + 1
    {
      states := [StateRec(false, [], nextId0)];
      initial := 0;
      allStates := [0];
      nextId := nextId0 + 1;
    }

    /** `new State()`: non-final, no transitions, id `NEXT_ID`, which advances by one. */
    method NewState() returns (s: nat)
      requires Valid()
      modifies this
      ensures Valid() && s == old(|states|)
      ensures states == old(states) + [StateRec(false, [], old(nextId))] && nextId == old(nextId) + 1
      ensures initial == old(initial) && allStates == old(allStates)
    {
      s := |states|;
      states := states + [StateRec(false, [], nextId)];
      nextId := nextId + 1;
    }

    /**
     * Installs a rewritten arena, initial state and state list at once, as the
     * in-place passes (merge, minimize, generalize) leave them; the id counter
     * is untouched.
     */
    method Install(a: Arena<T>, i: nat, list: seq<nat>)
      modifies this
      ensures states == a && initial == i && allStates == list && nextId == old(nextId)
    {
      states, initial, allStates := a, i, list;
    }

    /** `setFinal`: only the state's finality changes. */
    method SetFinal(s: nat, isFinal: bool)
      requires Valid() && s < |states|
      modifies this
      ensures Valid() && states == old(states)[s := old(states)[s].(isFinal := isFinal)]
      ensures initial == old(initial) && allStates == old(allStates) && nextId == old(nextId)
    {
      states := states[s := states[s].(isFinal := isFinal)];
    }

    /** `setId`: only the state's id changes. */
    method SetId(s: nat, id: int)
      requires Valid() && s < |states|
      modifies this
      ensures Valid() && states == old(states)[s := old(states)[s].(id := id)]
      ensures initial == old(initial) && allStates == old(allStates) && nextId == old(nextId)
    {
      states := states[s := states[s].(id := id)];
    }

    /** `setFreq` on transition `k` of state `s`: only that frequency changes. */
    method SetFreq(s: nat, k: nat, freq: int)
      requires Valid() && s < |states| && k < |states[s].transitions|
      modifies this
      ensures Valid()
      ensures states == old(states)[s := old(states)[s].(transitions :=
        old(states)[s].transitions[k := old(states)[s].transitions[k].(freq := freq)])]
      ensures initial == old(initial) && allStates == old(allStates) && nextId == old(nextId)
    {
      var ts := states[s].transitions;
      states := states[s := states[s].(transitions := ts[k := ts[k].(freq := freq)])];
    }

    /** `setSymbol` on transition `k` of state `s`: only that symbol changes. */
    method SetSymbol(s: nat, k: nat, symbol: T)
      requires Valid() && s < |states| && k < |states[s].transitions|
      modifies this
      ensures Valid()
      ensures states == old(states)[s := old(states)[s].(transitions :=
        old(states)[s].transitions[k := old(states)[s].transitions[k].(symbol := symbol)])]
      ensures initial == old(initial) && allStates == old(allStates) && nextId == old(nextId)
    {
      var ts := states[s].transitions;
      states := states[s := states[s].(transitions := ts[k := ts[k].(symbol := symbol)])];
    }

    /** `setState` on transition `k` of state `s`: only that destination changes. */
    method SetState(s: nat, k: nat, dest: nat)
      requires Valid() && s < |states| && k < |states[s].transitions| && dest < |states|
      modifies this
      ensures Valid()
      ensures states == old(states)[s := old(states)[s].(transitions :=
        old(states)[s].transitions[k := old(states)[s].transitions[k].(dest := dest)])]
      ensures initial == old(initial) && allStates == old(allStates) && nextId == old(nextId)
    {
      var ts := states[s].transitions;
      states := states[s := states[s].(transitions := ts[k := ts[k].(dest := dest)])];
    }

    /** `appendNewSymbol`: a fresh listed state, reached from `state` by a new transition of frequency 1. */
    method AppendNewSymbol(state: nat, symbol: T) returns (newState: nat)
      requires Valid() && state < |states|
      modifies this
      ensures Valid() && newState == old(|states|)
      ensures states == AppendSymbol(old(states), state, symbol, old(nextId))
      ensures allStates == old(allStates) + [newState] && nextId == old(nextId) + 1
      ensures initial == old(initial)
    {
      newState := NewState();
      allStates := allStates + [newState];
      var t := NewTransition(symbol, newState);
      t := t.(freq := 1);
      states := states[state := states[state].(transitions := states[state].transitions + [t])];
    }

    /**
     * The inner loop of `addSequence`'s prefix walk: the first transition of
     * `state` whose symbol equals `symbol` is counted once more and followed.
     */
    method Follow(state: nat, symbol: T, eq: (T, T) -> bool) returns (found: bool, next: nat)
      requires Valid() && state < |states|
      modifies this
      ensures Valid() && initial == old(initial) && allStates == old(allStates) && nextId == old(nextId)
      ensures match GetTransition(old(states)[state].transitions, symbol, eq)
        case None => !found && states == old(states)
        case Some(k) => found && next == old(states)[state].transitions[k].dest && states == BumpOne(old(states), state, k)
    {
      var ts := states[state].transitions;
      var k := 0;
      while k < |ts|
        invariant k <= |ts| && forall j :: 0 <= j < k ==> !eq(ts[j].symbol, symbol)
      {
        if eq(ts[k].symbol, symbol) {
          next := ts[k].dest;
          states := BumpOne(states, state, k);
          found := true;
          return;
        }
        k := k + 1;
      }
      found, next := false, 0;
    }

    /**
     * `addSequence`: the arena becomes `Inserted` of the old one (see
     * InsertedAccepts, InsertedFreq and InsertedExtends); each fresh state is
     * appended to the state list and takes the next id.
     */
    method AddSequence(sequence: seq<T>, eq: (T, T) -> bool)
      requires Valid()
      modifies this
      ensures Valid() && initial == old(initial)
      ensures states == Inserted(old(states), old(initial), sequence, old(nextId), eq)
      ensures allStates == old(allStates) + Ids(old(|states|), Added(old(states), old(initial), sequence, eq))
      ensures nextId == old(nextId) + Added(old(states), old(initial), sequence, eq)
    {
      ghost var a0 := states;
      ghost var w := Walk(states, initial, sequence, 0, eq);
      ghost var n0 := |states|;
      var state, i, symbol := WalkPrefix(sequence, eq);
      ghost var b := states;
      ghost var g := Grow(b, w.1, sequence, |w.0|, old(nextId));
      ghost var e := GrowEnd(b, w.1, sequence, |w.0|);
      if symbol.Some? {
        state := AppendNewSymbol(state, symbol.value);
        assert g == Grow(states, state, sequence, i, nextId);
      }
      ghost var mid := allStates;
      ghost var m := |sequence| - i;
      state, i := AppendRest(state, sequence, i);
      assert states == g && state == e;
      if symbol.Some? {
        ConsecutiveCons(n0, m);
        Assoc(old(allStates), [n0], Ids(n0 + 1, m));
      }
      SetFinal(state, true);
      assert states == WithFinal(g, e, true);
    }

    /**
     * The common-prefix loop of `addSequence`. On exit `symbol` holds the
     * symbol that found no transition, if any: it has been read but not yet
     * added.
     */
    method WalkPrefix(sequence: seq<T>, eq: (T, T) -> bool) returns (state: nat, i: nat, symbol: Option<T>)
      requires Valid()
      modifies this
      ensures Valid() && initial == old(initial) && allStates == old(allStates) && nextId == old(nextId)
      ensures var w := Walk(old(states), old(initial), sequence, 0, eq);
        StepsIn(old(states), w.0) && states == Bump(old(states), w.0) && state == w.1 &&
        (symbol.None? ==> i == |w.0|) &&
        (symbol.Some? ==> i == |w.0| + 1 <= |sequence| && symbol.value == sequence[i - 1])
    {
      ghost var a0 := states;
      ghost var w0 := Walk(a0, initial, sequence, 0, eq);
      ghost var steps: seq<(nat, nat)> := [];
      state, i, symbol := initial, 0, None;
      while !states[state].isFinal && i < |sequence|
        invariant Valid() && initial == old(initial) && allStates == old(allStates) && nextId == old(nextId)
        invariant state < |a0| && i <= |sequence| && StepsIn(a0, steps) && states == Bump(a0, steps)
        invariant OnWalk(a0, sequence, eq, w0, steps, state, i)
        decreases |sequence| - i
      {
        var found, next;
        found, next, steps := WalkOne(state, i, sequence, eq, a0, w0, steps);
        if !found {
          // the symbol that left the common prefix
          symbol := Some(sequence[i]);
          i := i + 1;
          return;
        }
        state := next;
        i := i + 1;
      }
      WalkDone(a0, sequence, eq, w0, steps, state, i, states);
    }

    /** One round of the common-prefix loop: follow `sequence[i]` from `state`, counting the transition. */
    method WalkOne(state: nat, i: nat, sequence: seq<T>, eq: (T, T) -> bool, ghost a0: Arena<T>,
                   ghost w0: (seq<(nat, nat)>, nat), ghost steps: seq<(nat, nat)>)
      returns (found: bool, next: nat, ghost steps': seq<(nat, nat)>)
      requires Valid() && Closed(a0) && StepsIn(a0, steps) && states == Bump(a0, steps)
      requires state < |a0| && i < |sequence| && !states[state].isFinal
      requires OnWalk(a0, sequence, eq, w0, steps, state, i)
      modifies this
      ensures Valid() && initial == old(initial) && allStates == old(allStates) && nextId == old(nextId)
      ensures StepsIn(a0, steps') && states == Bump(a0, steps')
      ensures found ==> next < |a0| && OnWalk(a0, sequence, eq, w0, steps', next, i + 1)
      ensures !found ==> steps' == w0.0 && state == w0.1 && |steps'| == i
    {
      BumpShape(a0, steps);
      ghost var before := states;
      ghost var rest := Walk(a0, state, sequence, i, eq);
      found, next := Follow(state, sequence[i], eq);
      GetTransitionShape(a0[state].transitions, before[state].transitions, sequence[i], eq);
      if found {
        ghost var k := GetTransition(a0[state].transitions, sequence[i], eq).value;
        WalkStep(a0, state, sequence, i, k, eq);
        Assoc(steps, [(state, k)], Walk(a0, next, sequence, i + 1, eq).0);
        BumpSnoc(a0, steps, state, k);
        steps' := steps + [(state, k)];
      } else {
        WalkStop(a0, state, sequence, i, eq);
        assert steps + [] == steps;
        steps' := steps;
      }
    }

    /** The trailing loop of `addSequence`: one fresh state per remaining symbol. */
    method AppendRest(state0: nat, sequence: seq<T>, i0: nat) returns (state: nat, i: nat)
      requires Valid() && state0 < |states| && i0 <= |sequence|
      modifies this
      ensures Valid() && initial == old(initial) && i == |sequence|
      ensures states == Grow(old(states), state0, sequence, i0, old(nextId))
      ensures state == GrowEnd(old(states), state0, sequence, i0) && state < |states|
      ensures allStates == old(allStates) + Ids(old(|states|), |sequence| - i0)
      ensures nextId == old(nextId) + |sequence| - i0
    {
      state, i := state0, i0;
      while i < |sequence|
        invariant Valid() && initial == old(initial) && state < |states| && i0 <= i <= |sequence|
        invariant Grow(states, state, sequence, i, nextId) == Grow(old(states), state0, sequence, i0, old(nextId))
        invariant GrowEnd(states, state, sequence, i) == GrowEnd(old(states), state0, sequence, i0)
        invariant allStates == old(allStates) + Ids(old(|states|), i - i0)
        invariant nextId == old(nextId) + (i - i0) && |states| == old(|states|) + (i - i0)
      {
        state := AppendNewSymbol(state, sequence[i]);
        i := i + 1;
      }
    }

    /**
     * `resetAllStates`: the list becomes duplicate-free and sorted by the old
     * ids, the ids become 0..n-1 in list order, and `NEXT_ID` becomes n.
     * Nothing but ids changes in the arena.
     */
    method ResetAllStates()
      requires Valid()
      modifies this
      ensures Valid() && initial == old(initial) && |states| == |old(states)|
      ensures Distinct(allStates) && (forall x :: x in allStates <==> x in old(allStates))
      ensures SortedById(allStates, old(states))
      ensures forall j :: 0 <= j < |allStates| ==> states[allStates[j]].id == j
      ensures forall x :: 0 <= x < |states| ==> states[x] == old(states)[x].(id := states[x].id)
      ensures forall x :: 0 <= x < |states| && x !in old(allStates) ==> states[x] == old(states)[x]
      ensures nextId == |allStates|
    {
      var unique := Dedupe(allStates);
      assert InArena(unique, states) by {
        forall j | 0 <= j < |unique| ensures unique[j] < |states| {
          assert unique[j] in allStates;
        }
      }
      var sorted := SortById(unique, states);
      allStates := sorted;
      nextId := 0;
      for j := 0 to |sorted|
        invariant Valid() && initial == old(initial) && |states| == |old(states)| && allStates == sorted
        invariant nextId == j
        invariant forall m :: 0 <= m < j ==> states[sorted[m]].id == m
        invariant forall x :: 0 <= x < |states| ==> states[x] == old(states)[x].(id := states[x].id)
        invariant forall x :: 0 <= x < |states| && x !in sorted[..j] ==> states[x] == old(states)[x]
      {
        states := states[sorted[j] := states[sorted[j]].(id := nextId)];
        nextId := nextId + 1;
      }
    }

    /** `accepts(sequence)`; a sequence it accepts is also an accepted prefix. */
    predicate AcceptsSequence(sequence: seq<T>, eq: (T, T) -> bool)
      reads this
      requires Valid()
      ensures AcceptsSequence(sequence, eq) ==> AcceptsPrefix(sequence, eq)
    {
      if Accepts(states, true, initial, sequence, 0, eq) then
        AcceptsImpliesPrefix(states, initial, sequence, 0, eq);
        true
      else
        false
    }

    /** `acceptsPrefix(prefix)`. */
    predicate AcceptsPrefix(prefix: seq<T>, eq: (T, T) -> bool)
      reads this
      requires Valid()
    {
      Accepts(states, false, initial, prefix, 0, eq)
    }

    /** `acceptsAllPaths(sequence)`: each reported path reads the sequence, one transition per symbol. */
    function AcceptsAllPaths(sequence: seq<T>, eq: (T, T) -> bool): (r: Result<seq<seq<Transition<T>>>>)
      reads this
      requires Valid()
      ensures r.Ok? ==> forall p: seq<Transition<T>> :: p in r.value ==>
        |p| == |sequence| && forall j :: 0 <= j < |p| ==> eq(p[j].symbol, sequence[j])
    {
      var r := AllPaths(states, true, initial, sequence, 0, [], eq);
      if r.Ok? then AllPathsRead(states, true, initial, sequence, 0, [], eq); r else r
    }

    /** `acceptsPrefixAllPaths(sequence)`: the same without the finality test. */
    function AcceptsPrefixAllPaths(sequence: seq<T>, eq: (T, T) -> bool): (r: Result<seq<seq<Transition<T>>>>)
      reads this
      requires Valid()
      ensures r.Ok? ==> forall p: seq<Transition<T>> :: p in r.value ==>
        |p| == |sequence| && forall j :: 0 <= j < |p| ==> eq(p[j].symbol, sequence[j])
    {
      var r := AllPaths(states, false, initial, sequence, 0, [], eq);
      if r.Ok? then AllPathsRead(states, false, initial, sequence, 0, [], eq); r else r
    }

    /**
     * `getListofPaths()`: unless the search overflows the stack, every path
     * from the initial state to a final state is listed by its symbols.
     */
    function GetListOfPaths(): (r: Result<seq<seq<T>>>)
      reads this
      requires Valid()
      ensures r.Ok? ==> forall path :: PathIn(states, initial, path) && states[RunEnd(states, initial, path)].isFinal ==>
        Labels(states, initial, path) in r.value
    {
      var r := PathsFrom(states, initial, [], 0);
      if r.Ok? then
        assert forall path :: PathIn(states, initial, path) && states[RunEnd(states, initial, path)].isFinal ==>
          Labels(states, initial, path) in r.value by {
          forall path | PathIn(states, initial, path) && states[RunEnd(states, initial, path)].isFinal
            ensures Labels(states, initial, path) in r.value
          {
            PathsFromComplete(states, initial, [], 0, path);
            assert [] + Labels(states, initial, path) == Labels(states, initial, path);
          }
        }
        r
      else
        r
    }
  }

  /** How many states `addSequence` adds: one per symbol past the common prefix. */
  ghost function Added<T>(a: Arena<T>, s: nat, sq: seq<T>, eq: (T, T) -> bool): nat
    requires Closed(a) && s < |a|
  {
    |sq| - |Walk(a, s, sq, 0, eq).0|
  }

  /** The indices `start, start + 1, ...`, `n` of them: where fresh states are appended. */
  function Ids(start: nat, n: nat): (r: seq<nat>)
    ensures |r| == n && forall j :: 0 <= j < n ==> r[j] == start + j
  {
    seq(n, j => start + j)
  }

  lemma ConsecutiveCons(n: nat, m: nat)
    ensures [n] + Ids(n + 1, m) == Ids(n, m + 1)
  {
    assert ([n] + Ids(n + 1, m))[1..] == Ids(n + 1, m);
  }

  /** `GetTransition` looks only at symbols. */
  lemma {:induction false} GetTransitionShape<T>(ts: seq<Transition<T>>, us: seq<Transition<T>>, x: T, eq: (T, T) -> bool)
    requires |ts| == |us| && forall k :: 0 <= k < |ts| ==> ts[k].symbol == us[k].symbol
    ensures GetTransition(ts, x, eq) == GetTransition(us, x, eq)
  {
    if ts != [] {
      GetTransitionShape(ts[1..], us[1..], x, eq);
    }
  }

  /** Bumping one more step at the end of the walk. */
  lemma {:induction false} BumpSnoc<T>(a: Arena<T>, steps: seq<(nat, nat)>, s: nat, k: nat)
    requires StepsIn(a, steps) && s < |a| && k < |a[s].transitions|
    ensures StepsIn(a, steps + [(s, k)])
    ensures Bump(a, steps + [(s, k)]) == BumpOne(Bump(a, steps), s, k)
    decreases steps
  {
    if steps != [] {
      var b := BumpOne(a, steps[0].0, steps[0].1);
      SameShapeSteps(a, b, steps[1..]);
      assert (steps + [(s, k)])[1..] == steps[1..] + [(s, k)];
      BumpSnoc(b, steps[1..], s, k);
    } else {
      assert Bump(BumpOne(a, s, k), []) == BumpOne(a, s, k);
    }
  }

  /** The `HashSet` copy in `resetAllStates`: each listed state once (first-occurrence order stands for the hash order). */
  method Dedupe(list: seq<nat>) returns (r: seq<nat>)
    ensures Distinct(r) && forall x :: x in r <==> x in list
  {
    r := [];
    for i := 0 to |list|
      invariant Distinct(r) && forall x :: x in r <==> x in list[..i]
    {
      assert list[..i + 1] == list[..i] + [list[i]];
      if list[i] !in r {
        r := r + [list[i]];
      }
    }
    assert list[..|list|] == list;
  }

  /** `Collections.sort` of the state list by id: a stable insertion sort. */
  method SortById<T>(list: seq<nat>, a: Arena<T>) returns (r: seq<nat>)
    requires InArena(list, a) && Distinct(list)
    ensures SortedById(r, a) && Distinct(r) && forall x :: x in r <==> x in list
  {
    r := [];
    for i := 0 to |list|
      invariant SortedById(r, a) && Distinct(r) && forall x :: x in r <==> x in list[..i]
    {
      assert list[..i + 1] == list[..i] + [list[i]];
      assert list[i] !in list[..i];
      InsertByIdMembers(r, list[i], a);
      InsertBySorted(r, list[i], a);
      InsertByDistinct(r, list[i], a);
      r := InsertById(r, list[i], a);
    }
    assert list[..|list|] == list;
  }
}

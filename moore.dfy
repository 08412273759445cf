// The generalisation of the Moore state machine of reverx/src/StateMachineMoore.java:
// the two reductions (merge the states a symbol leads to; merge the states
// that share a symbol), the partition building behind them, `mergeEachSet`,
// and the `generalize` loop that alternates them with determinization and
// minimization.
//
// States are arena indices (Automata); HashSets of states are `set<nat>` and
// the collections of such sets are sequences in their iteration order.
module MooreMachine {
  import opened Wrappers
  import opened Automata
  import opened StateMapping
  import opened Merging
  import Determinization
  import Minimization

  // ---------------------------------------------------------------------
  // _msg_types_have_in_common
  // ---------------------------------------------------------------------

  /** The symbols on a list of transitions, as the `HashSet` of them. */
  function SymbolSet<T(==)>(ts: seq<Transition<T>>): set<T>
  {
    set k | 0 <= k < |ts| :: ts[k].symbol
  }

  /** Some transition of the list reads `x`. */
  predicate Reads<T(==)>(ts: seq<Transition<T>>, x: T)
  {
    exists k :: 0 <= k < |ts| && ts[k].symbol == x
  }

  /** The two lists of transitions have a symbol in common. */
  predicate Common<T(==)>(ts0: seq<Transition<T>>, ts1: seq<Transition<T>>)
  {
    exists k0 :: 0 <= k0 < |ts0| && Reads(ts1, ts0[k0].symbol)
  }

  /** The symbols of a list of transitions collected into a set, one transition at a time. */
  method CollectSymbols<T(==)>(ts: seq<Transition<T>>) returns (r: set<T>)
    ensures r == SymbolSet(ts)
  {
    r := {};
    for i := 0 to |ts|
      invariant r == SymbolSet(ts[..i])
    {
      assert SymbolSet(ts[..i + 1]) == SymbolSet(ts[..i]) + {ts[i].symbol} by {
        assert forall k :: 0 <= k < i ==> ts[..i + 1][k] == ts[..i][k];
        assert ts[..i + 1][i] == ts[i];
      }
      r := r + {ts[i].symbol};
    }
    assert ts[..|ts|] == ts;
  }

  /** `_msg_types_have_in_common(s0, s1)`: the number of symbols the two states both define. */
  method MsgTypesInCommon<T(==)>(ts0: seq<Transition<T>>, ts1: seq<Transition<T>>) returns (n: nat)
    ensures n == |SymbolSet(ts0) * SymbolSet(ts1)|
    ensures n > 0 <==> Common(ts0, ts1)
  {
    var inS0 := CollectSymbols(ts0);
    var inS1 := CollectSymbols(ts1);
    inS0 := inS0 * inS1;
    n := |inS0|;
    CommonShared(ts0, ts1);
  }

  /** Sharing a symbol is a non-empty intersection of the symbol sets. */
  lemma CommonShared<T>(ts0: seq<Transition<T>>, ts1: seq<Transition<T>>)
    ensures Common(ts0, ts1) <==> |SymbolSet(ts0) * SymbolSet(ts1)| > 0
  {
    if Common(ts0, ts1) {
      var k0, k1 :| 0 <= k0 < |ts0| && 0 <= k1 < |ts1| && ts0[k0].symbol == ts1[k1].symbol;
      assert ts0[k0].symbol in SymbolSet(ts0) * SymbolSet(ts1);
    }
    if |SymbolSet(ts0) * SymbolSet(ts1)| > 0 {
      var x :| x in SymbolSet(ts0) * SymbolSet(ts1);
      var k0 :| 0 <= k0 < |ts0| && ts0[k0].symbol == x;
      var k1 :| 0 <= k1 < |ts1| && ts1[k1].symbol == x;
      assert ts0[k0].symbol == ts1[k1].symbol;
    }
  }

  /** The count is symmetric in the two states. */
  lemma CommonSymmetric<T>(ts0: seq<Transition<T>>, ts1: seq<Transition<T>>)
    ensures |SymbolSet(ts0) * SymbolSet(ts1)| == |SymbolSet(ts1) * SymbolSet(ts0)|
    ensures Common(ts0, ts1) <==> Common(ts1, ts0)
  {
    assert SymbolSet(ts0) * SymbolSet(ts1) == SymbolSet(ts1) * SymbolSet(ts0);
    CommonShared(ts0, ts1);
    CommonShared(ts1, ts0);
  }

  // ---------------------------------------------------------------------
  // getPartition
  // ---------------------------------------------------------------------

  /** `getPartition(partitions, state)`: the first partition holding the state, or none. */
  function GetPartition(parts: seq<set<nat>>, x: nat): (r: Option<nat>)
    ensures r.Some? ==> r.value < |parts| && x in parts[r.value] && forall j :: 0 <= j < r.value ==> x !in parts[j]
    ensures r.None? <==> forall j :: 0 <= j < |parts| ==> x !in parts[j]
  {
    PartitionFrom(parts, x, 0)
  }

  function PartitionFrom(parts: seq<set<nat>>, x: nat, i: nat): (r: Option<nat>)
    requires i <= |parts|
    requires forall j :: 0 <= j < i ==> x !in parts[j]
    ensures r.Some? ==> i <= r.value < |parts| && x in parts[r.value] && forall j :: 0 <= j < r.value ==> x !in parts[j]
    ensures r.None? <==> forall j :: 0 <= j < |parts| ==> x !in parts[j]
    decreases |parts| - i
  {
    if i == |parts| then None
    else if x in parts[i] then Some(i)
    else PartitionFrom(parts, x, i + 1)
  }

  // ---------------------------------------------------------------------
  // getAllSets
  // ---------------------------------------------------------------------

  /** The first partition that shares a state with `s`. */
  function FirstOverlap(parts: seq<set<nat>>, s: set<nat>): (r: Option<nat>)
    ensures r.Some? ==> r.value < |parts| && parts[r.value] * s != {} && forall j :: 0 <= j < r.value ==> parts[j] * s == {}
    ensures r.None? <==> forall j :: 0 <= j < |parts| ==> parts[j] * s == {}
  {
    OverlapFrom(parts, s, 0)
  }

  function OverlapFrom(parts: seq<set<nat>>, s: set<nat>, i: nat): (r: Option<nat>)
    requires i <= |parts|
    requires forall j :: 0 <= j < i ==> parts[j] * s == {}
    ensures r.Some? ==> i <= r.value < |parts| && parts[r.value] * s != {} && forall j :: 0 <= j < r.value ==> parts[j] * s == {}
    ensures r.None? <==> forall j :: 0 <= j < |parts| ==> parts[j] * s == {}
    decreases |parts| - i
  {
    if i == |parts| then None
    else if parts[i] * s != {} then Some(i)
    else OverlapFrom(parts, s, i + 1)
  }

  /** One set placed: added to the first partition it overlaps, or to a new partition at the end. */
  function Place(parts: seq<set<nat>>, s: set<nat>): seq<set<nat>>
  {
    match FirstOverlap(parts, s)
    case None => parts + [s]
    case Some(i) => parts[i := parts[i] + s]
  }

  /** The partitions `getAllSets` returns for the sets in iteration order. */
  function AllSets(sets: seq<set<nat>>): seq<set<nat>>
  {
    if sets == [] then [] else Place(AllSets(sets[..|sets| - 1]), sets[|sets| - 1])
  }

  /** Scanning a set's states in iteration order finds whether the partition holds one of them. */
  method HoldsAny(partition: set<nat>, s: set<nat>) returns (found: bool)
    ensures found <==> partition * s != {}
  {
    found := false;
    var rest := s;
    while rest != {}
      invariant rest <= s
      invariant partition * (s - rest) == {}
      decreases |rest|
    {
      var x :| x in rest;
      if x in partition {
        found := true;
        return;
      }
      rest := rest - {x};
    }
    assert s - rest == s;
  }

  /** The scan of the partitions for the first one that overlaps `s`. */
  method FindExisting(parts: seq<set<nat>>, s: set<nat>) returns (r: Option<nat>)
    ensures r == FirstOverlap(parts, s)
  {
    r := None;
    for i := 0 to |parts|
      invariant forall j :: 0 <= j < i ==> parts[j] * s == {}
    {
      var found := HoldsAny(parts[i], s);
      if found {
        FirstOverlapAt(parts, s, i);
        return Some(i);
      }
    }
  }

  lemma FirstOverlapAt(parts: seq<set<nat>>, s: set<nat>, i: nat)
    requires i < |parts| && parts[i] * s != {} && forall j :: 0 <= j < i ==> parts[j] * s == {}
    ensures FirstOverlap(parts, s) == Some(i)
  {
  }

  /** `getAllSets(collection_of_sets)`: each set joins the first partition sharing a state with it, or starts a new one. */
  method GetAllSets(sets: seq<set<nat>>) returns (parts: seq<set<nat>>)
    ensures parts == AllSets(sets)
  {
    parts := [];
    for i := 0 to |sets|
      invariant parts == AllSets(sets[..i])
    {
      assert sets[..i + 1][..i] == sets[..i];
      ghost var before := parts;
      var existing := FindExisting(parts, sets[i]);
      if existing.None? {
        parts := parts + [{}];
        existing := Some(|parts| - 1);
      }
      parts := parts[existing.value := parts[existing.value] + sets[i]];
      if FirstOverlap(before, sets[i]).None? {
        assert {} + sets[i] == sets[i];
        assert parts == before + [sets[i]];
      }
    }
    assert sets[..|sets|] == sets;
  }

  /** Every state of the partitions. */
  function Union(parts: seq<set<nat>>): set<nat>
  {
    if parts == [] then {} else Union(parts[..|parts| - 1]) + parts[|parts| - 1]
  }

  lemma {:induction false} UnionMembers(parts: seq<set<nat>>, x: nat)
    ensures x in Union(parts) <==> exists j :: 0 <= j < |parts| && x in parts[j]
    decreases |parts|
  {
    if parts != [] {
      var n := |parts| - 1;
      UnionMembers(parts[..n], x);
      if x in Union(parts[..n]) {
        var j :| 0 <= j < n && x in parts[..n][j];
        assert x in parts[j];
      }
      if exists j :: 0 <= j < |parts| && x in parts[j] {
        var j :| 0 <= j < |parts| && x in parts[j];
        if j < n {
          assert x in parts[..n][j];
        }
      }
    }
  }

  lemma UnionSnoc(parts: seq<set<nat>>, s: set<nat>)
    ensures Union(parts + [s]) == Union(parts) + s
  {
    assert (parts + [s])[..|parts|] == parts;
  }

  /** Growing one partition grows the union by what it gained. */
  lemma {:induction false} UnionUpdate(parts: seq<set<nat>>, i: nat, t: set<nat>)
    requires i < |parts| && parts[i] <= t
    ensures Union(parts[i := t]) == Union(parts) + t
    decreases |parts|
  {
    var n := |parts| - 1;
    if i == n {
      assert parts[i := t][..n] == parts[..n];
    } else {
      assert parts[i := t][..n] == parts[..n][i := t];
      UnionUpdate(parts[..n], i, t);
    }
  }

  /** Placing a set adds exactly its states to the union. */
  lemma PlaceUnion(parts: seq<set<nat>>, s: set<nat>)
    ensures Union(Place(parts, s)) == Union(parts) + s
  {
    match FirstOverlap(parts, s)
    case None =>
      UnionSnoc(parts, s);
    case Some(i) =>
      UnionUpdate(parts, i, parts[i] + s);
      UnionHas(parts, i);
  }

  lemma {:induction false} UnionHas(parts: seq<set<nat>>, i: nat)
    requires i < |parts|
    ensures parts[i] <= Union(parts)
    decreases |parts|
  {
    var n := |parts| - 1;
    if i < n {
      assert parts[..n][i] == parts[i];
      UnionHas(parts[..n], i);
    }
  }

  /** The partitions hold exactly the states of the sets. */
  lemma {:induction false} AllSetsUnion(sets: seq<set<nat>>)
    ensures Union(AllSets(sets)) == Union(sets)
    decreases |sets|
  {
    if sets != [] {
      var n := |sets| - 1;
      AllSetsUnion(sets[..n]);
      PlaceUnion(AllSets(sets[..n]), sets[n]);
    }
  }

  /** Entry by entry, every partition of `p` is inside the one at its index in `q`. */
  predicate Grows(p: seq<set<nat>>, q: seq<set<nat>>)
  {
    |p| <= |q| && forall j :: 0 <= j < |p| ==> p[j] <= q[j]
  }

  lemma {:induction false} AllSetsGrow(sets: seq<set<nat>>, i: nat)
    requires i <= |sets|
    ensures Grows(AllSets(sets[..i]), AllSets(sets))
    decreases |sets| - i
  {
    if i < |sets| {
      var n := |sets| - 1;
      assert sets[..n][..i] == sets[..i];
      AllSetsGrow(sets[..n], i);
      var p := AllSets(sets[..n]);
      assert Grows(p, Place(p, sets[n]));
    } else {
      assert sets[..i] == sets;
    }
  }

  /** Every input set ends inside some partition, and there are never more partitions than sets. */
  lemma AllSetsCover(sets: seq<set<nat>>, i: nat)
    requires i < |sets|
    ensures |AllSets(sets)| <= |sets|
    ensures exists j :: 0 <= j < |AllSets(sets)| && sets[i] <= AllSets(sets)[j]
  {
    AllSetsCount(sets);
    var pre := AllSets(sets[..i]);
    assert sets[..i + 1][..i] == sets[..i];
    var placed := AllSets(sets[..i + 1]);
    AllSetsGrow(sets, i + 1);
    match FirstOverlap(pre, sets[i])
    case None =>
      assert sets[i] <= placed[|pre|];
    case Some(j) =>
      assert sets[i] <= placed[j];
  }

  lemma {:induction false} AllSetsCount(sets: seq<set<nat>>)
    ensures |AllSets(sets)| <= |sets|
    decreases |sets|
  {
    if sets != [] {
      AllSetsCount(sets[..|sets| - 1]);
    }
  }

  /**
   * A set that overlaps two partitions joins only the first: `{1}`, `{2}`,
   * `{1, 2}` give `{1, 2}` and `{2}`, so state 2 is left in two partitions.
   */
  lemma AllSetsDoNotFuse()
    ensures AllSets([{1}, {2}, {1, 2}]) == [{1, 2}, {2}]
  {
    var sets: seq<set<nat>> := [{1}, {2}, {1, 2}];
    var one: seq<set<nat>> := [{1}];
    assert one[..0] == [];
    assert FirstOverlap([], {1}) == None;
    assert AllSets(one) == [{1}];
    assert sets[..2] == [{1}, {2}] && sets[..2][..1] == one;
    assert {1} * {2} == {};
    assert FirstOverlap([{1}], {2}) == None;
    assert AllSets(sets[..2]) == [{1}, {2}];
    assert 1 in {1} * {1, 2};
    assert FirstOverlap([{1}, {2}], {1, 2}) == Some(0);
    assert {1} + {1, 2} == {1, 2};
  }

  // ---------------------------------------------------------------------
  // mergeEachSet
  // ---------------------------------------------------------------------

  /** Every two states of one set have one representative. */
  ghost predicate Together(sets: seq<set<nat>>, m: map<nat, nat>, stamp: map<nat, nat>, clock: nat)
  {
    Ranked(m, stamp, clock) &&
    forall k, x, y :: 0 <= k < |sets| && x in sets[k] && y in sets[k] ==> Root(m, stamp, clock, x) == Root(m, stamp, clock, y)
  }

  /** A state is listed, with its representative, by its own list under the empty map. */
  lemma KeepsListedStart(list: seq<nat>)
    ensures KeepsListed(list, list, map[], map[], 0)
  {
    forall x | x in list ensures Root(map[], map[], 0, x) in list {
      assert !Mapped(map[], x);
    }
  }

  /** Two steps of keeping representatives listed make one. */
  lemma KeepsListedChain(list0: seq<nat>, list1: seq<nat>, list2: seq<nat>, m1: map<nat, nat>, stamp1: map<nat, nat>, clock1: nat,
                         m2: map<nat, nat>, stamp2: map<nat, nat>, clock2: nat)
    requires KeepsListed(list0, list1, m1, stamp1, clock1) && KeepsListed(list1, list2, m2, stamp2, clock2)
    requires Coarser(m2, stamp2, clock2, m1, stamp1, clock1)
    ensures KeepsListed(list0, list2, m2, stamp2, clock2)
  {
    forall x | x in list0 ensures Root(m2, stamp2, clock2, x) in list2 {
      assert Root(m1, stamp1, clock1, x) in list1;
    }
  }

  /** States that share a representative keep sharing one under a coarser map. */
  lemma TogetherCoarser(sets: seq<set<nat>>, m1: map<nat, nat>, stamp1: map<nat, nat>, clock1: nat,
                        m2: map<nat, nat>, stamp2: map<nat, nat>, clock2: nat)
    requires Together(sets, m1, stamp1, clock1) && Coarser(m2, stamp2, clock2, m1, stamp1, clock1)
    ensures Together(sets, m2, stamp2, clock2)
  {
    forall k, x, y | 0 <= k < |sets| && x in sets[k] && y in sets[k]
      ensures Root(m2, stamp2, clock2, x) == Root(m2, stamp2, clock2, y)
    {
      assert Root(m2, stamp2, clock2, x) == Root(m2, stamp2, clock2, Root(m1, stamp1, clock1, x));
      assert Root(m2, stamp2, clock2, y) == Root(m2, stamp2, clock2, Root(m1, stamp1, clock1, y));
    }
  }

  lemma CoarserChain(m0: map<nat, nat>, stamp0: map<nat, nat>, clock0: nat, m1: map<nat, nat>, stamp1: map<nat, nat>, clock1: nat,
                     m2: map<nat, nat>, stamp2: map<nat, nat>, clock2: nat)
    requires Coarser(m1, stamp1, clock1, m0, stamp0, clock0) && Coarser(m2, stamp2, clock2, m1, stamp1, clock1)
    ensures Coarser(m2, stamp2, clock2, m0, stamp0, clock0)
  {
    forall x ensures Root(m2, stamp2, clock2, x) == Root(m2, stamp2, clock2, Root(m0, stamp0, clock0, x)) {
      var r0 := Root(m0, stamp0, clock0, x);
      assert Root(m1, stamp1, clock1, x) == Root(m1, stamp1, clock1, r0);
      assert Root(m2, stamp2, clock2, x) == Root(m2, stamp2, clock2, Root(m1, stamp1, clock1, x));
      assert Root(m2, stamp2, clock2, r0) == Root(m2, stamp2, clock2, Root(m1, stamp1, clock1, r0));
    }
  }

  lemma CoarserSelf(m: map<nat, nat>, stamp: map<nat, nat>, clock: nat)
    requires Ranked(m, stamp, clock)
    ensures Coarser(m, stamp, clock, m, stamp, clock)
  {
    forall x ensures Root(m, stamp, clock, x) == Root(m, stamp, clock, Root(m, stamp, clock, x)) {
      RootFixed(m, stamp, clock, Root(m, stamp, clock, x));
    }
  }

  /** Two states whose representatives are listed can be queued as a pair. */
  lemma CanonicalQueued<T>(g: Snapshot<T>, m: map<nat, nat>, stamp: map<nat, nat>, clock: nat, x: nat, y: nat)
    requires Canonical(g, m, stamp, clock) && g.queue == []
    requires Root(m, stamp, clock, x) in g.allStates && Root(m, stamp, clock, y) in g.allStates
    ensures Canonical(g.(queue := [x, y]), m, stamp, clock)
  {
  }

  /**
   * What holds while one set is merged: canonical, representatives of `list0`
   * listed, the map only coarser, and each listed state the merge of the
   * states of `(a0, i0, list0)` it stands for.
   */
  ghost predicate MergingSet<T(!new)>(a0: Arena<T>, i0: nat, list0: seq<nat>, g: Snapshot<T>,
                                      m0: map<nat, nat>, stamp0: map<nat, nat>, clock0: nat,
                                      m: map<nat, nat>, stamp: map<nat, nat>, clock: nat, eq: (T, T) -> bool)
  {
    g.queue == [] && Canonical(g, m, stamp, clock) &&
    KeepsListed(list0, g.allStates, m, stamp, clock) && Coarser(m, stamp, clock, m0, stamp0, clock0) &&
    History(a0, Elements(list0), i0, g.states, g.initial, g.allStates, m, stamp, clock, eq)
  }

  /** One merge of the inner loop keeps `MergingSet`. */
  lemma MergedKeeps<T(!new)>(a0: Arena<T>, i0: nat, g: Snapshot<T>, g': Snapshot<T>, list0: seq<nat>,
                             m0: map<nat, nat>, stamp0: map<nat, nat>, clock0: nat,
                             m: map<nat, nat>, stamp: map<nat, nat>, clock: nat, m': map<nat, nat>, stamp': map<nat, nat>, clock': nat,
                             eq: (T, T) -> bool)
    requires MergingSet(a0, i0, list0, g, m0, stamp0, clock0, m, stamp, clock, eq)
    requires g'.queue == [] && Canonical(g', m', stamp', clock')
    requires Coarser(m', stamp', clock', m, stamp, clock) && KeepsListed(g.allStates, g'.allStates, m', stamp', clock')
    requires History(a0, Elements(list0), i0, g'.states, g'.initial, g'.allStates, m', stamp', clock', eq)
    ensures MergingSet(a0, i0, list0, g', m0, stamp0, clock0, m', stamp', clock', eq)
  {
    KeepsListedChain(list0, g.allStates, g'.allStates, m, stamp, clock, m', stamp', clock');
    CoarserChain(m0, stamp0, clock0, m, stamp, clock, m', stamp', clock');
  }

  /** Every state of `done` has the representative of `r`. */
  ghost predicate JoinedTo(done: set<nat>, r: nat, m: map<nat, nat>, stamp: map<nat, nat>, clock: nat)
  {
    Ranked(m, stamp, clock) && forall x :: x in done ==> Root(m, stamp, clock, x) == Root(m, stamp, clock, r)
  }

  /** Any two states of `s` are related. */
  ghost predicate SetRelated(rel: (nat, nat) -> bool, s: set<nat>)
  {
    forall x, y :: x in s && y in s ==> rel(x, y)
  }

  /**
   * States of `L0` joined since `m0` are related by every congruence that
   * relates the states of `s` and holds `m0`'s classes: merging the set
   * joins only what it forces.
   */
  ghost predicate SetWithin<T(!new)>(a0: Arena<T>, L0: set<nat>, eq: (T, T) -> bool, s: set<nat>,
                                     m0: map<nat, nat>, stamp0: map<nat, nat>, clock0: nat,
                                     m: map<nat, nat>, stamp: map<nat, nat>, clock: nat)
  {
    Ranked(m0, stamp0, clock0) && Ranked(m, stamp, clock) &&
    forall rel: (nat, nat) -> bool {:trigger Congruence(a0, L0, rel, eq)} ::
      (Congruence(a0, L0, rel, eq) && SetRelated(rel, s) && ClassesWithin(L0, rel, m0, stamp0, clock0)) ==>
      ClassesWithin(L0, rel, m, stamp, clock)
  }

  /** Before any merge of the set nothing has been joined. */
  lemma SetWithinStart<T(!new)>(a0: Arena<T>, L0: set<nat>, eq: (T, T) -> bool, s: set<nat>, m: map<nat, nat>, stamp: map<nat, nat>, clock: nat)
    requires Ranked(m, stamp, clock)
    ensures SetWithin(a0, L0, eq, s, m, stamp, clock, m, stamp, clock)
  {
  }

  /** A state of `L0` whose representative is in `L0` is related to it by a relation that holds the classes. */
  lemma RootRelated(L0: set<nat>, rel: (nat, nat) -> bool, m: map<nat, nat>, stamp: map<nat, nat>, clock: nat, x: nat)
    requires Ranked(m, stamp, clock) && ClassesWithin(L0, rel, m, stamp, clock)
    requires x in L0 && Root(m, stamp, clock, x) in L0
    ensures rel(x, Root(m, stamp, clock, x))
  {
    RootFixed(m, stamp, clock, Root(m, stamp, clock, x));
  }

  /** Merging two states of the set keeps `SetWithin`. */
  lemma SetWithinStep<T(!new)>(a0: Arena<T>, i0: nat, list0: seq<nat>, eq: (T, T) -> bool, s: set<nat>,
                               a: Arena<T>, initial: nat, list: seq<nat>, merged: nat, state: nat,
                               m0: map<nat, nat>, stamp0: map<nat, nat>, clock0: nat,
                               m: map<nat, nat>, stamp: map<nat, nat>, clock: nat, m': map<nat, nat>, stamp': map<nat, nat>, clock': nat)
    requires SetWithin(a0, Elements(list0), eq, s, m0, stamp0, clock0, m, stamp, clock)
    requires History(a0, Elements(list0), i0, a, initial, list, m, stamp, clock, eq)
    requires merged in s && state in s && merged in list0 && state in list0
    requires PairWithin(a0, Elements(list0), eq, merged, state, m, stamp, clock, m', stamp', clock')
    ensures SetWithin(a0, Elements(list0), eq, s, m0, stamp0, clock0, m', stamp', clock')
  {
    var L0 := Elements(list0);
    assert Based(a0, L0, i0, initial, list, m, stamp, clock);
    forall rel: (nat, nat) -> bool | Congruence(a0, L0, rel, eq) && SetRelated(rel, s) && ClassesWithin(L0, rel, m0, stamp0, clock0)
      ensures ClassesWithin(L0, rel, m', stamp', clock')
    {
      var r0, r1 := Root(m, stamp, clock, merged), Root(m, stamp, clock, state);
      assert merged in L0 && state in L0 && r0 in list && r1 in list;
      RootRelated(L0, rel, m, stamp, clock, merged);
      RootRelated(L0, rel, m, stamp, clock, state);
      assert rel(r0, merged) && rel(merged, state);
      assert RelChain(rel, r0, merged, state);
      assert RelChain(rel, r0, state, r1);
    }
  }

  /** `Operations.merge(automaton, merged, state, merged_mapping)` inside the inner loop, which takes `state` off `rest`. */
  method MergeStep<T(!new)>(a: Arena<T>, initial: nat, list: seq<nat>, ghost a0: Arena<T>, ghost i0: nat, ghost list0: seq<nat>,
                            ghost s: set<nat>, ghost rest: set<nat>, merged: nat, state: nat,
                            ghost m0: map<nat, nat>, ghost stamp0: map<nat, nat>, ghost clock0: nat,
                            m: map<nat, nat>, ghost stamp: map<nat, nat>, ghost clock: nat, eq: (T, T) -> bool)
    returns (a': Arena<T>, initial': nat, list': seq<nat>, m': map<nat, nat>, ghost stamp': map<nat, nat>, ghost clock': nat)
    requires Determinization.Equivalence(eq) && (forall x :: x in s ==> x in list0) && state in rest && merged != state
    requires SetProgress(a0, i0, list0, s, rest, Some(merged), Snapshot(a, initial, list, []), m0, stamp0, clock0, m, stamp, clock, eq)
    ensures |a'| == |a|
    ensures SetProgress(a0, i0, list0, s, rest - {state}, Some(merged), Snapshot(a', initial', list', []), m0, stamp0, clock0, m', stamp', clock', eq)
  {
    ghost var g := Snapshot(a, initial, list, []);
    SetShift(s, rest, state);
    CanonicalQueued(g, m, stamp, clock, merged, state);
    a', initial', list', m', stamp', clock' := MergePair(a, initial, list, merged, state, m, stamp, clock, eq, a0, Elements(list0), i0);
    MergedKeeps(a0, i0, g, Snapshot(a', initial', list', []), list0, m0, stamp0, clock0, m, stamp, clock, m', stamp', clock', eq);
    JoinedExtend(s - rest, merged, state, m, stamp, clock, m', stamp', clock');
    SetWithinStep(a0, i0, list0, eq, s, a, initial, list, merged, state, m0, stamp0, clock0, m, stamp, clock, m', stamp', clock');
  }

  /** Taking the first state of the set, or the state already taken first, leaves the automaton as it is. */
  lemma Taken<T(!new)>(a0: Arena<T>, i0: nat, list0: seq<nat>, s: set<nat>, rest: set<nat>, merged: Option<nat>, state: nat,
                       g: Snapshot<T>, m0: map<nat, nat>, stamp0: map<nat, nat>, clock0: nat,
                       m: map<nat, nat>, stamp: map<nat, nat>, clock: nat, eq: (T, T) -> bool)
    requires state in rest && (merged.Some? ==> merged.value == state)
    requires SetProgress(a0, i0, list0, s, rest, merged, g, m0, stamp0, clock0, m, stamp, clock, eq)
    ensures SetProgress(a0, i0, list0, s, rest - {state}, Some(state), g, m0, stamp0, clock0, m, stamp, clock, eq)
  {
    SetShift(s, rest, state);
  }

  lemma JoinedExtend(done: set<nat>, merged: nat, state: nat, m: map<nat, nat>, stamp: map<nat, nat>, clock: nat,
                     m': map<nat, nat>, stamp': map<nat, nat>, clock': nat)
    requires JoinedTo(done, merged, m, stamp, clock) && Coarser(m', stamp', clock', m, stamp, clock)
    requires Root(m', stamp', clock', merged) == Root(m', stamp', clock', state)
    ensures JoinedTo(done + {state}, merged, m', stamp', clock')
  {
    forall x | x in done ensures Root(m', stamp', clock', x) == Root(m', stamp', clock', merged) {
      assert Root(m', stamp', clock', x) == Root(m', stamp', clock', Root(m, stamp, clock, x));
      assert Root(m', stamp', clock', merged) == Root(m', stamp', clock', Root(m, stamp, clock, merged));
    }
  }

  lemma Shrinks(rest: set<nat>, x: nat)
    requires x in rest
    ensures rest - {x} < rest
  {
  }

  /** Taking one more state off the rest of the set. */
  lemma SetShift(s: set<nat>, rest: set<nat>, x: nat)
    requires rest <= s && x in rest
    ensures rest - {x} <= s && rest - {x} != s && x in s
    ensures s - (rest - {x}) == (s - rest) + {x}
    ensures rest == s ==> s - (rest - {x}) == {x}
  {
  }

  /**
   * Where the inner loop of `mergeEachSet` stands: the states of `s` not in
   * `rest` are joined to the first one taken, `merged`, and the automaton
   * is as `MergingSet` and `SetWithin` say.
   */
  ghost predicate SetProgress<T(!new)>(a0: Arena<T>, i0: nat, list0: seq<nat>, s: set<nat>, rest: set<nat>, merged: Option<nat>,
                                       g: Snapshot<T>, m0: map<nat, nat>, stamp0: map<nat, nat>, clock0: nat,
                                       m: map<nat, nat>, stamp: map<nat, nat>, clock: nat, eq: (T, T) -> bool)
  {
    rest <= s && (merged.None? <==> rest == s) &&
    (merged.Some? ==> merged.value in s && JoinedTo(s - rest, merged.value, m, stamp, clock)) &&
    MergingSet(a0, i0, list0, g, m0, stamp0, clock0, m, stamp, clock, eq) &&
    SetWithin(a0, Elements(list0), eq, s, m0, stamp0, clock0, m, stamp, clock)
  }

  /** One turn of the inner loop: `state` is taken off `rest`, and merged with `merged` unless it is the first or the same. */
  method MergeSetStep<T(!new)>(a: Arena<T>, initial: nat, list: seq<nat>, ghost a0: Arena<T>, ghost i0: nat, ghost list0: seq<nat>,
                               ghost s: set<nat>, ghost rest: set<nat>, merged: Option<nat>, state: nat,
                               ghost m0: map<nat, nat>, ghost stamp0: map<nat, nat>, ghost clock0: nat,
                               m: map<nat, nat>, ghost stamp: map<nat, nat>, ghost clock: nat, eq: (T, T) -> bool)
    returns (a': Arena<T>, initial': nat, list': seq<nat>, merged': Option<nat>, m': map<nat, nat>, ghost stamp': map<nat, nat>, ghost clock': nat)
    requires Determinization.Equivalence(eq) && (forall x :: x in s ==> x in list0) && state in rest
    requires SetProgress(a0, i0, list0, s, rest, merged, Snapshot(a, initial, list, []), m0, stamp0, clock0, m, stamp, clock, eq)
    ensures |a'| == |a|
    ensures SetProgress(a0, i0, list0, s, rest - {state}, merged', Snapshot(a', initial', list', []), m0, stamp0, clock0, m', stamp', clock', eq)
  {
    a', initial', list', merged', m', stamp', clock' := a, initial, list, merged, m, stamp, clock;
    if merged.None? {
      merged' := Some(state);
      Taken(a0, i0, list0, s, rest, merged, state, Snapshot(a, initial, list, []), m0, stamp0, clock0, m, stamp, clock, eq);
    } else if merged.value != state {
      a', initial', list', m', stamp', clock' := MergeStep(a, initial, list, a0, i0, list0, s, rest, merged.value, state,
                                                          m0, stamp0, clock0, m, stamp, clock, eq);
    } else {
      Taken(a0, i0, list0, s, rest, merged, state, Snapshot(a, initial, list, []), m0, stamp0, clock0, m, stamp, clock, eq);
    }
  }

  /**
   * The inner loop of `mergeEachSet` on one set: the first state iterated
   * is taken as `merged`, and every other state is then merged with it
   * through the shared mapping.
   */
  method MergeSet<T(!new)>(a: Arena<T>, initial: nat, list: seq<nat>, ghost a0: Arena<T>, ghost i0: nat, ghost list0: seq<nat>, s: set<nat>,
                           m0: map<nat, nat>, ghost stamp0: map<nat, nat>, ghost clock0: nat, eq: (T, T) -> bool)
    returns (a': Arena<T>, initial': nat, list': seq<nat>, m: map<nat, nat>, ghost stamp: map<nat, nat>, ghost clock: nat)
    requires Determinization.Equivalence(eq)
    requires MergingSet(a0, i0, list0, Snapshot(a, initial, list, []), m0, stamp0, clock0, m0, stamp0, clock0, eq)
    requires forall x :: x in s ==> x in list0
    ensures |a'| == |a| && MergingSet(a0, i0, list0, Snapshot(a', initial', list', []), m0, stamp0, clock0, m, stamp, clock, eq)
    ensures forall x, y :: x in s && y in s ==> Root(m, stamp, clock, x) == Root(m, stamp, clock, y)
    ensures SetWithin(a0, Elements(list0), eq, s, m0, stamp0, clock0, m, stamp, clock)
  {
    a', initial', list', m, stamp, clock := a, initial, list, m0, stamp0, clock0;
    SetWithinStart(a0, Elements(list0), eq, s, m0, stamp0, clock0);
    var merged: Option<nat> := None;
    var rest := s;
    while rest != {}
      invariant |a'| == |a|
      invariant SetProgress(a0, i0, list0, s, rest, merged, Snapshot(a', initial', list', []), m0, stamp0, clock0, m, stamp, clock, eq)
      decreases rest
    {
      var state :| state in rest;
      a', initial', list', merged, m, stamp, clock := MergeSetStep(a', initial', list', a0, i0, list0, s, rest, merged, state,
                                                                   m0, stamp0, clock0, m, stamp, clock, eq);
      Shrinks(rest, state);
      rest := rest - {state};
    }
    SetDone(s, merged, m, stamp, clock);
  }

  /** With nothing left, every state of `s` is joined to the first. */
  lemma SetDone(s: set<nat>, merged: Option<nat>, m: map<nat, nat>, stamp: map<nat, nat>, clock: nat)
    requires Ranked(m, stamp, clock) && (merged.None? <==> s == {})
    requires merged.Some? ==> JoinedTo(s - {}, merged.value, m, stamp, clock)
    ensures forall x, y :: x in s && y in s ==> Root(m, stamp, clock, x) == Root(m, stamp, clock, y)
  {
    if merged.Some? {
      assert s - {} == s;
    }
  }

  /** Some set holds at least two states. */
  predicate AnyToMerge(sets: seq<set<nat>>)
  {
    exists k :: 0 <= k < |sets| && |sets[k]| >= 2
  }

  /** The states of a set that holds fewer than two have one representative, whatever the map. */
  lemma SmallTogether(s: set<nat>, m: map<nat, nat>, stamp: map<nat, nat>, clock: nat)
    requires |s| <= 1 && Ranked(m, stamp, clock)
    ensures forall x, y :: x in s && y in s ==> Root(m, stamp, clock, x) == Root(m, stamp, clock, y)
  {
    forall x, y | x in s && y in s ensures x == y {
      if x != y {
        assert {x, y} <= s;
        assert |{x, y}| == 2;
        SubsetSize({x, y}, s);
      }
    }
  }

  /** One more set joined: `Together` over a prefix of the sets extends by one. */
  lemma TogetherSnoc(sets: seq<set<nat>>, i: nat, m: map<nat, nat>, stamp: map<nat, nat>, clock: nat)
    requires i < |sets| && Together(sets[..i], m, stamp, clock)
    requires forall x, y :: x in sets[i] && y in sets[i] ==> Root(m, stamp, clock, x) == Root(m, stamp, clock, y)
    ensures Together(sets[..i + 1], m, stamp, clock)
  {
    var q := sets[..i + 1];
    forall k, x, y | 0 <= k < |q| && x in q[k] && y in q[k]
      ensures Root(m, stamp, clock, x) == Root(m, stamp, clock, y)
    {
      if k < i {
        assert q[k] == sets[..i][k];
      }
    }
  }

  /** Any two states of one of the sets are related. */
  ghost predicate SetsRelated(rel: (nat, nat) -> bool, sets: seq<set<nat>>)
  {
    forall k :: 0 <= k < |sets| ==> SetRelated(rel, sets[k])
  }

  /**
   * States of `L0` that share a representative are related by every
   * congruence that relates the states of each set: `mergeEachSet` joins
   * only what the sets force.
   */
  ghost predicate SetsWithin<T(!new)>(a0: Arena<T>, L0: set<nat>, eq: (T, T) -> bool, sets: seq<set<nat>>,
                                      m: map<nat, nat>, stamp: map<nat, nat>, clock: nat)
  {
    Ranked(m, stamp, clock) &&
    forall rel: (nat, nat) -> bool {:trigger Congruence(a0, L0, rel, eq)} ::
      (Congruence(a0, L0, rel, eq) && SetsRelated(rel, sets)) ==> ClassesWithin(L0, rel, m, stamp, clock)
  }

  /** From the empty map every class is one listed state, which any congruence relates to itself. */
  lemma SetsWithinStart<T(!new)>(a0: Arena<T>, initial: nat, list: seq<nat>, eq: (T, T) -> bool, sets: seq<set<nat>>)
    requires Canonical(Snapshot(a0, initial, list, []), map[], map[], 0)
    ensures SetsWithin(a0, Elements(list), eq, sets, map[], map[], 0)
  {
    StartClasses(Snapshot(a0, initial, list, []), map[], map[], 0);
  }

  /** Merging the set `sets[i]` keeps `SetsWithin`. */
  lemma SetsWithinStep<T(!new)>(a0: Arena<T>, L0: set<nat>, eq: (T, T) -> bool, sets: seq<set<nat>>, i: nat,
                                m0: map<nat, nat>, stamp0: map<nat, nat>, clock0: nat, m: map<nat, nat>, stamp: map<nat, nat>, clock: nat)
    requires i < |sets| && SetsWithin(a0, L0, eq, sets, m0, stamp0, clock0)
    requires SetWithin(a0, L0, eq, sets[i], m0, stamp0, clock0, m, stamp, clock)
    ensures SetsWithin(a0, L0, eq, sets, m, stamp, clock)
  {
    forall rel: (nat, nat) -> bool | Congruence(a0, L0, rel, eq) && SetsRelated(rel, sets)
      ensures ClassesWithin(L0, rel, m, stamp, clock)
    {
      assert SetRelated(rel, sets[i]);
    }
  }

  /**
   * The outcome of `mergeEachSet`: same arena size, canonical, each set's
   * states joined, the representatives of the states listed before still
   * listed, each listed state the merge of the old states it stands for,
   * and no states joined beyond what the sets force.
   */
  ghost predicate MergedEach<T(!new)>(a0: Arena<T>, i0: nat, list0: seq<nat>, sets: seq<set<nat>>, a: Arena<T>, initial: nat, list: seq<nat>,
                                      m: map<nat, nat>, stamp: map<nat, nat>, clock: nat, eq: (T, T) -> bool)
  {
    |a| == |a0| && Canonical(Snapshot(a, initial, list, []), m, stamp, clock) &&
    Together(sets, m, stamp, clock) && KeepsListed(list0, list, m, stamp, clock) &&
    History(a0, Elements(list0), i0, a, initial, list, m, stamp, clock, eq) &&
    SetsWithin(a0, Elements(list0), eq, sets, m, stamp, clock)
  }

  /**
   * Where the outer loop of `mergeEachSet` stands after the first `i` sets:
   * the answer so far, the automaton untouched while it is false, and the
   * sets seen so far each joined into one class.
   */
  ghost predicate EachProgress<T(!new)>(a: Arena<T>, initial: nat, list: seq<nat>, sets: seq<set<nat>>, i: nat, result: bool,
                                        a': Arena<T>, initial': nat, list': seq<nat>,
                                        m: map<nat, nat>, stamp: map<nat, nat>, clock: nat, eq: (T, T) -> bool)
  {
    i <= |sets| && (result <==> AnyToMerge(sets[..i])) &&
    (!result ==> a' == a && initial' == initial && list' == list && m == map[] && stamp == map[] && clock == 0) &&
    |a'| == |a| && MergingSet(a, initial, list, Snapshot(a', initial', list', []), map[], map[], 0, m, stamp, clock, eq) &&
    Together(sets[..i], m, stamp, clock) &&
    SetsWithin(a, Elements(list), eq, sets, m, stamp, clock)
  }

  /** Before any set, nothing is merged. */
  lemma EachStart<T(!new)>(a: Arena<T>, initial: nat, list: seq<nat>, sets: seq<set<nat>>, eq: (T, T) -> bool)
    requires Canonical(Snapshot(a, initial, list, []), map[], map[], 0) && Determinization.Equivalence(eq)
    ensures EachProgress(a, initial, list, sets, 0, false, a, initial, list, map[], map[], 0, eq)
  {
    KeepsListedStart(list);
    CoarserSelf(map[], map[], 0);
    HistoryStart(Snapshot(a, initial, list, []), map[], map[], 0, eq);
    SetsWithinStart(a, initial, list, eq, sets);
  }

  /** After every set, the loop has computed what `MergeEachSetArena` promises. */
  lemma EachDone<T(!new)>(a: Arena<T>, initial: nat, list: seq<nat>, sets: seq<set<nat>>, result: bool,
                          a': Arena<T>, initial': nat, list': seq<nat>, m: map<nat, nat>, stamp: map<nat, nat>, clock: nat, eq: (T, T) -> bool)
    requires EachProgress(a, initial, list, sets, |sets|, result, a', initial', list', m, stamp, clock, eq)
    ensures result <==> AnyToMerge(sets)
    ensures MergedEach(a, initial, list, sets, a', initial', list', m, stamp, clock, eq)
    ensures !result ==> a' == a && initial' == initial && list' == list
  {
    assert sets[..|sets|] == sets;
  }

  /** One turn of the outer loop: the set `sets[i]` is skipped when it holds at most one state, and merged otherwise. */
  method MergeEachStep<T(!new)>(a: Arena<T>, initial: nat, list: seq<nat>, sets: seq<set<nat>>, i: nat, result: bool,
                                a': Arena<T>, initial': nat, list': seq<nat>,
                                m: map<nat, nat>, ghost stamp: map<nat, nat>, ghost clock: nat, eq: (T, T) -> bool)
    returns (result': bool, a'': Arena<T>, initial'': nat, list'': seq<nat>, m': map<nat, nat>, ghost stamp': map<nat, nat>, ghost clock': nat)
    requires Determinization.Equivalence(eq) && i < |sets|
    requires forall k, x :: 0 <= k < |sets| && x in sets[k] ==> x in list
    requires EachProgress(a, initial, list, sets, i, result, a', initial', list', m, stamp, clock, eq)
    ensures EachProgress(a, initial, list, sets, i + 1, result', a'', initial'', list'', m', stamp', clock', eq)
  {
    AnyToMergeSnoc(sets, i);
    result', a'', initial'', list'', m', stamp', clock' := result, a', initial', list', m, stamp, clock;
    if |sets[i]| <= 1 {
      SmallTogether(sets[i], m, stamp, clock);
      TogetherSnoc(sets, i, m, stamp, clock);
    } else {
      result' := true;
      CoarserSelf(m, stamp, clock);
      assert forall x :: x in sets[i] ==> x in list;
      a'', initial'', list'', m', stamp', clock' := MergeSet(a', initial', list', a, initial, list, sets[i], m, stamp, clock, eq);
      CoarserChain(map[], map[], 0, m, stamp, clock, m', stamp', clock');
      TogetherCoarser(sets[..i], m, stamp, clock, m', stamp', clock');
      TogetherSnoc(sets, i, m', stamp', clock');
      SetsWithinStep(a, Elements(list), eq, sets, i, m, stamp, clock, m', stamp', clock');
    }
  }

  /**
   * `mergeEachSet(automaton, all_sets)` on the automaton's fields: sets of at
   * most one state are skipped; every other set is merged into one state
   * through one shared mapping. The answer is whether any set had two states,
   * whatever the merges did.
   */
  method MergeEachSetArena<T(!new)>(a: Arena<T>, initial: nat, list: seq<nat>, sets: seq<set<nat>>, eq: (T, T) -> bool)
    returns (result: bool, a': Arena<T>, initial': nat, list': seq<nat>, m: map<nat, nat>, ghost stamp: map<nat, nat>, ghost clock: nat)
    requires Canonical(Snapshot(a, initial, list, []), map[], map[], 0) && Determinization.Equivalence(eq)
    requires forall k, x :: 0 <= k < |sets| && x in sets[k] ==> x in list
    ensures result <==> AnyToMerge(sets)
    ensures MergedEach(a, initial, list, sets, a', initial', list', m, stamp, clock, eq)
    ensures !result ==> a' == a && initial' == initial && list' == list
  {
    result := false;
    a', initial', list', m, stamp, clock := a, initial, list, map[], map[], 0;
    EachStart(a, initial, list, sets, eq);
    for i := 0 to |sets|
      invariant EachProgress(a, initial, list, sets, i, result, a', initial', list', m, stamp, clock, eq)
    {
      result, a', initial', list', m, stamp, clock := MergeEachStep(a, initial, list, sets, i, result, a', initial', list', m, stamp, clock, eq);
    }
    EachDone(a, initial, list, sets, result, a', initial', list', m, stamp, clock, eq);
  }

  lemma AnyToMergeSnoc(sets: seq<set<nat>>, i: nat)
    requires i < |sets|
    ensures AnyToMerge(sets[..i + 1]) <==> AnyToMerge(sets[..i]) || |sets[i]| >= 2
  {
    if AnyToMerge(sets[..i + 1]) {
      var k :| 0 <= k < i + 1 && |sets[..i + 1][k]| >= 2;
      if k < i {
        assert sets[..i][k] == sets[k];
      }
    }
    if AnyToMerge(sets[..i]) {
      var k :| 0 <= k < i && |sets[..i][k]| >= 2;
      assert sets[..i + 1][k] == sets[k];
    }
    if |sets[i]| >= 2 {
      assert sets[..i + 1][i] == sets[i];
    }
  }

  /** `mergeEachSet(automaton, all_sets)` on the automaton object. */
  method MergeEachSet<T(!new)>(aut: Automaton<T>, sets: seq<set<nat>>, eq: (T, T) -> bool)
    returns (result: bool, ghost m: map<nat, nat>, ghost stamp: map<nat, nat>, ghost clock: nat)
    requires Canonical(Snapshot(aut.states, aut.initial, aut.allStates, []), map[], map[], 0) && Determinization.Equivalence(eq)
    requires forall k, x :: 0 <= k < |sets| && x in sets[k] ==> x in aut.allStates
    modifies aut
    ensures result <==> AnyToMerge(sets)
    ensures MergedEach(old(aut.states), old(aut.initial), old(aut.allStates), sets, aut.states, aut.initial, aut.allStates, m, stamp, clock, eq)
    ensures aut.nextId == old(aut.nextId)
    ensures !result ==> aut.states == old(aut.states) && aut.initial == old(aut.initial) && aut.allStates == old(aut.allStates)
  {
    var a, initial, list, merged;
    result, a, initial, list, merged, stamp, clock := MergeEachSetArena(aut.states, aut.initial, aut.allStates, sets, eq);
    m := merged;
    aut.Install(a, initial, list);
  }

  // ---------------------------------------------------------------------
  // generalizeI
  // ---------------------------------------------------------------------

  /** The map `to_merge` from a symbol to the states it leads to, as its entries in insertion order. */
  type Groups<T> = seq<(T, set<nat>)>

  /** `to_merge.get(symbol)`: the entry whose key equals the symbol. */
  function KeyOf<T(==)>(groups: Groups<T>, x: T): (r: Option<nat>)
    ensures r.Some? ==> r.value < |groups| && groups[r.value].0 == x && forall j :: 0 <= j < r.value ==> groups[j].0 != x
    ensures r.None? <==> forall j :: 0 <= j < |groups| ==> groups[j].0 != x
  {
    KeyFrom(groups, x, 0)
  }

  function KeyFrom<T(==)>(groups: Groups<T>, x: T, i: nat): (r: Option<nat>)
    requires i <= |groups| && forall j :: 0 <= j < i ==> groups[j].0 != x
    ensures r.Some? ==> i <= r.value < |groups| && groups[r.value].0 == x && forall j :: 0 <= j < r.value ==> groups[j].0 != x
    ensures r.None? <==> forall j :: 0 <= j < |groups| ==> groups[j].0 != x
    decreases |groups| - i
  {
    if i == |groups| then None
    else if groups[i].0 == x then Some(i)
    else KeyFrom(groups, x, i + 1)
  }

  /** One transition recorded: its destination joins the entry of its symbol, which is created when missing. */
  function Insert<T(==)>(groups: Groups<T>, x: T, d: nat): Groups<T>
  {
    match KeyOf(groups, x)
    case None => groups + [(x, {d})]
    case Some(i) => groups[i := (groups[i].0, groups[i].1 + {d})]
  }

  /** The transitions of one state recorded in order. */
  function CollectFrom<T(==)>(groups: Groups<T>, ts: seq<Transition<T>>): Groups<T>
  {
    if ts == [] then groups else Insert(CollectFrom(groups, ts[..|ts| - 1]), ts[|ts| - 1].symbol, ts[|ts| - 1].dest)
  }

  /** The map `generalizeI` builds over the listed states. */
  function CollectAll<T(==)>(a: Arena<T>, list: seq<nat>): Groups<T>
    requires InArena(list, a)
  {
    if list == [] then []
    else
      var n := |list| - 1;
      assert InArena(list[..n], a) by {
        forall j | 0 <= j < n ensures list[..n][j] < |a| {
          assert list[..n][j] == list[j];
        }
      }
      CollectFrom(CollectAll(a, list[..n]), a[list[n]].transitions)
  }

  /** `to_merge.values()`, in the order of the entries. */
  function Values<T>(groups: Groups<T>): (r: seq<set<nat>>)
    ensures |r| == |groups| && forall i :: 0 <= i < |groups| ==> r[i] == groups[i].1
  {
    seq(|groups|, i requires 0 <= i < |groups| => groups[i].1)
  }

  /** The states the symbol `y` is recorded to lead to. */
  function Lookup<T(==)>(groups: Groups<T>, y: T): set<nat>
  {
    match KeyOf(groups, y)
    case None => {}
    case Some(i) => groups[i].1
  }

  /** Keys are distinct and no entry is empty, as in a map filled by `put` and `add` together. */
  predicate WellKeyed<T(==)>(groups: Groups<T>)
  {
    (forall i, j :: 0 <= i < j < |groups| ==> groups[i].0 != groups[j].0) &&
    (forall i :: 0 <= i < |groups| ==> groups[i].1 != {})
  }

  /** Some transition of the list leads by `y` to `d`. */
  predicate EdgeIn<T(==)>(ts: seq<Transition<T>>, y: T, d: nat)
  {
    exists k :: 0 <= k < |ts| && ts[k].symbol == y && ts[k].dest == d
  }

  /** Some listed state has a transition that leads by `y` to `d`. */
  predicate Edge<T(==)>(a: Arena<T>, list: seq<nat>, y: T, d: nat)
  {
    exists j :: 0 <= j < |list| && list[j] < |a| && EdgeIn(a[list[j]].transitions, y, d)
  }

  /** Recording a transition adds its destination to its symbol's entry and changes no other entry. */
  lemma InsertLookup<T>(groups: Groups<T>, x: T, d: nat, y: T)
    ensures Lookup(Insert(groups, x, d), y) == Lookup(groups, y) + (if y == x then {d} else {})
  {
    var g := Insert(groups, x, d);
    match KeyOf(groups, x)
    case None =>
      if y == x {
        assert g[|groups|].0 == x && forall j :: 0 <= j < |groups| ==> g[j] == groups[j];
        assert KeyOf(g, y) == Some(|groups|);
      } else {
        assert KeyOf(g, y) == KeyOf(groups, y) by {
          KeyAppend(groups, (x, {d}), y);
        }
      }
    case Some(i) =>
      KeysKept(groups, i, groups[i].1 + {d}, y);
  }

  lemma KeyAppend<T>(groups: Groups<T>, e: (T, set<nat>), y: T)
    requires e.0 != y
    ensures KeyOf(groups + [e], y) == KeyOf(groups, y)
  {
    var g := groups + [e];
    match KeyOf(groups, y)
    case None =>
      assert forall j :: 0 <= j < |g| ==> g[j].0 != y;
    case Some(i) =>
      assert g[i].0 == y && forall j :: 0 <= j < i ==> g[j].0 != y;
  }

  lemma KeysKept<T>(groups: Groups<T>, i: nat, t: set<nat>, y: T)
    requires i < |groups|
    ensures KeyOf(groups[i := (groups[i].0, t)], y) == KeyOf(groups, y)
  {
    var g := groups[i := (groups[i].0, t)];
    assert forall j :: 0 <= j < |g| ==> g[j].0 == groups[j].0;
    match KeyOf(groups, y)
    case None =>
    case Some(k) =>
      assert g[k].0 == y && forall j :: 0 <= j < k ==> g[j].0 != y;
  }

  lemma InsertWellKeyed<T>(groups: Groups<T>, x: T, d: nat)
    requires WellKeyed(groups)
    ensures WellKeyed(Insert(groups, x, d))
  {
  }

  /** The destinations recorded for `y` from one transition list. */
  lemma {:induction false} CollectFromLookup<T>(groups: Groups<T>, ts: seq<Transition<T>>, y: T, d: nat)
    ensures WellKeyed(groups) ==> WellKeyed(CollectFrom(groups, ts))
    ensures d in Lookup(CollectFrom(groups, ts), y) <==> d in Lookup(groups, y) || EdgeIn(ts, y, d)
    decreases |ts|
  {
    if ts != [] {
      var n := |ts| - 1;
      CollectFromLookup(groups, ts[..n], y, d);
      var g := CollectFrom(groups, ts[..n]);
      InsertLookup(g, ts[n].symbol, ts[n].dest, y);
      if WellKeyed(groups) {
        InsertWellKeyed(g, ts[n].symbol, ts[n].dest);
      }
      if EdgeIn(ts[..n], y, d) {
        var k :| 0 <= k < n && ts[..n][k].symbol == y && ts[..n][k].dest == d;
        assert ts[k] == ts[..n][k];
      }
      if EdgeIn(ts, y, d) && !(ts[n].symbol == y && ts[n].dest == d) {
        var k :| 0 <= k < |ts| && ts[k].symbol == y && ts[k].dest == d;
        assert ts[..n][k] == ts[k];
      }
    }
  }

  /** The map holds, for each symbol, exactly the states it leads to from listed states. */
  lemma {:induction false} CollectAllLookup<T>(a: Arena<T>, list: seq<nat>, y: T, d: nat)
    requires InArena(list, a)
    ensures WellKeyed(CollectAll(a, list))
    ensures d in Lookup(CollectAll(a, list), y) <==> Edge(a, list, y, d)
    decreases |list|
  {
    if list != [] {
      var n := |list| - 1;
      assert InArena(list[..n], a) by {
        forall j | 0 <= j < n ensures list[..n][j] < |a| {
          assert list[..n][j] == list[j];
        }
      }
      CollectAllLookup(a, list[..n], y, d);
      CollectFromLookup(CollectAll(a, list[..n]), a[list[n]].transitions, y, d);
      if Edge(a, list[..n], y, d) {
        var j :| 0 <= j < n && list[..n][j] < |a| && EdgeIn(a[list[..n][j]].transitions, y, d);
        assert list[j] == list[..n][j];
      }
      if Edge(a, list, y, d) && !EdgeIn(a[list[n]].transitions, y, d) {
        var j :| 0 <= j < |list| && list[j] < |a| && EdgeIn(a[list[j]].transitions, y, d);
        assert list[..n][j] == list[j];
      }
    }
  }

  /** The map `generalizeI` builds, filled one transition at a time. */
  method CollectGroups<T(==)>(a: Arena<T>, list: seq<nat>) returns (groups: Groups<T>)
    requires InArena(list, a)
    ensures groups == CollectAll(a, list)
  {
    groups := [];
    for j := 0 to |list|
      invariant InArena(list[..j], a) && groups == CollectAll(a, list[..j])
    {
      var ts := a[list[j]].transitions;
      ghost var start := groups;
      for k := 0 to |ts|
        invariant groups == CollectFrom(start, ts[..k])
      {
        assert ts[..k + 1][..k] == ts[..k];
        groups := Record(groups, ts[k].symbol, ts[k].dest);
      }
      assert ts[..|ts|] == ts;
      assert list[..j + 1][..j] == list[..j];
      assert InArena(list[..j + 1], a) by {
        var q := list[..j + 1];
        forall i | 0 <= i < |q| ensures q[i] < |a| {
          assert q[i] == list[i];
        }
      }
    }
    assert list[..|list|] == list;
  }

  /** `set = to_merge.get(symbol)`, a new entry when there is none, then `set.add(dest)`. */
  method Record<T(==)>(groups: Groups<T>, x: T, d: nat) returns (r: Groups<T>)
    ensures r == Insert(groups, x, d)
  {
    r := groups;
    var key := KeyOf(r, x);
    if key.None? {
      r := r + [(x, {})];
      key := Some(|r| - 1);
    }
    r := r[key.value := (r[key.value].0, r[key.value].1 + {d})];
    if KeyOf(groups, x).None? {
      assert {} + {d} == {d};
      assert r == groups + [(x, {d})];
    }
  }

  /** No set holds two states. */
  predicate Small(sets: seq<set<nat>>)
  {
    forall i :: 0 <= i < |sets| ==> |sets[i]| <= 1
  }

  /** Some symbol leads from listed states to two different states. */
  ghost predicate TwoDestinations<T(!new)>(a: Arena<T>, list: seq<nat>)
  {
    exists y, d1, d2 :: Edge(a, list, y, d1) && Edge(a, list, y, d2) && d1 != d2
  }

  /** States one symbol leads to from listed states have one representative. */
  ghost predicate SymbolJoined<T(!new)>(a: Arena<T>, list: seq<nat>, m: map<nat, nat>, stamp: map<nat, nat>, clock: nat)
  {
    Ranked(m, stamp, clock) &&
    forall y, d1, d2 :: Edge(a, list, y, d1) && Edge(a, list, y, d2) ==> Root(m, stamp, clock, d1) == Root(m, stamp, clock, d2)
  }

  lemma TwoMembers(s: set<nat>)
    requires |s| >= 2
    ensures exists x, y :: x in s && y in s && x != y
  {
    var x :| x in s;
    assert |s - {x}| >= 1;
    var y :| y in s - {x};
  }

  lemma PairSize(s: set<nat>, x: nat, y: nat)
    requires x in s && y in s && x != y
    ensures |s| >= 2
  {
    SubsetSize({x, y}, s);
  }

  /** An entry of a well-keyed map is the one its key finds. */
  lemma KeyOfEntry<T>(groups: Groups<T>, i: nat)
    requires WellKeyed(groups) && i < |groups|
    ensures KeyOf(groups, groups[i].0) == Some(i) && Lookup(groups, groups[i].0) == groups[i].1
  {
  }

  /** The map's entries all hold at most one state exactly when no symbol leads to two states. */
  lemma ValuesSmall<T(!new)>(a: Arena<T>, list: seq<nat>)
    requires InArena(list, a)
    ensures Small(Values(CollectAll(a, list))) <==> !TwoDestinations(a, list)
  {
    var groups := CollectAll(a, list);
    if TwoDestinations(a, list) {
      var y, d1, d2 :| Edge(a, list, y, d1) && Edge(a, list, y, d2) && d1 != d2;
      CollectAllLookup(a, list, y, d1);
      CollectAllLookup(a, list, y, d2);
      var i := KeyOf(groups, y).value;
      PairSize(Values(groups)[i], d1, d2);
    }
    if !Small(Values(groups)) {
      var i :| 0 <= i < |groups| && |Values(groups)[i]| > 1;
      TwoMembers(groups[i].1);
      var d1, d2 :| d1 in groups[i].1 && d2 in groups[i].1 && d1 != d2;
      CollectAllLookup(a, list, groups[i].0, d1);
      CollectAllLookup(a, list, groups[i].0, d2);
      KeyOfEntry(groups, i);
    }
  }

  /** Sets of at most one state give partitions of at most one state, and only they do. */
  lemma {:induction false} AllSetsSmall(sets: seq<set<nat>>)
    ensures Small(AllSets(sets)) <==> Small(sets)
    decreases |sets|
  {
    if sets != [] {
      var n := |sets| - 1;
      AllSetsSmall(sets[..n]);
      var p := AllSets(sets[..n]);
      if Small(sets) {
        assert Small(sets[..n]) by {
          forall i | 0 <= i < n ensures |sets[..n][i]| <= 1 {
            assert sets[..n][i] == sets[i];
          }
        }
        match FirstOverlap(p, sets[n])
        case None =>
        case Some(i) =>
          var x :| x in p[i] * sets[n];
          SmallIsOne(p[i], x);
          SmallIsOne(sets[n], x);
          assert p[i] + sets[n] == {x};
      }
      if Small(AllSets(sets)) {
        forall i | 0 <= i < |sets| ensures |sets[i]| <= 1 {
          AllSetsCover(sets, i);
          var j :| 0 <= j < |AllSets(sets)| && sets[i] <= AllSets(sets)[j];
          SubsetSize(sets[i], AllSets(sets)[j]);
        }
      }
    }
  }

  lemma SmallIsOne(s: set<nat>, x: nat)
    requires |s| <= 1 && x in s
    ensures s == {x}
  {
    if s != {x} {
      var y :| y in s && y != x;
      PairSize(s, x, y);
    }
  }

  /** At most one state per set means nothing to merge. */
  lemma SmallNothingToMerge(sets: seq<set<nat>>)
    ensures AnyToMerge(sets) <==> !Small(sets)
  {
  }

  /** A destination of a listed state is listed. */
  lemma EdgeListed<T>(a: Arena<T>, initial: nat, list: seq<nat>, m: map<nat, nat>, stamp: map<nat, nat>, clock: nat, y: T, d: nat)
    requires Canonical(Snapshot(a, initial, list, []), m, stamp, clock) && Edge(a, list, y, d)
    ensures d in list
  {
    var j :| 0 <= j < |list| && list[j] < |a| && EdgeIn(a[list[j]].transitions, y, d);
    var k :| 0 <= k < |a[list[j]].transitions| && a[list[j]].transitions[k].symbol == y && a[list[j]].transitions[k].dest == d;
    assert list[j] in list;
    assert LeadsInto(a[list[j]].transitions, set z | z in list);
  }

  /** The partitions `generalizeI` merges hold only listed states. */
  lemma PartitionsListed<T>(a: Arena<T>, initial: nat, list: seq<nat>, m: map<nat, nat>, stamp: map<nat, nat>, clock: nat)
    requires Canonical(Snapshot(a, initial, list, []), m, stamp, clock)
    ensures forall k, x :: 0 <= k < |AllSets(Values(CollectAll(a, list)))| && x in AllSets(Values(CollectAll(a, list)))[k] ==> x in list
  {
    var values := Values(CollectAll(a, list));
    var parts := AllSets(values);
    AllSetsUnion(values);
    forall k, x | 0 <= k < |parts| && x in parts[k] ensures x in list {
      UnionHas(parts, k);
      UnionMembers(values, x);
      var i :| 0 <= i < |values| && x in values[i];
      var groups := CollectAll(a, list);
      CollectAllLookup(a, list, groups[i].0, x);
      KeyOfEntry(groups, i);
      CollectAllLookup(a, list, groups[i].0, x);
      EdgeListed(a, initial, list, m, stamp, clock, groups[i].0, x);
    }
  }

  /** Merging each partition joins the states each symbol leads to. */
  lemma PartitionsJoinSymbols<T(!new)>(a: Arena<T>, list: seq<nat>, m: map<nat, nat>, stamp: map<nat, nat>, clock: nat)
    requires InArena(list, a) && Together(AllSets(Values(CollectAll(a, list))), m, stamp, clock)
    ensures SymbolJoined(a, list, m, stamp, clock)
  {
    var groups := CollectAll(a, list);
    var values := Values(groups);
    forall y, d1, d2 | Edge(a, list, y, d1) && Edge(a, list, y, d2)
      ensures Root(m, stamp, clock, d1) == Root(m, stamp, clock, d2)
    {
      CollectAllLookup(a, list, y, d1);
      CollectAllLookup(a, list, y, d2);
      var i := KeyOf(groups, y).value;
      AllSetsCover(values, i);
      var j :| 0 <= j < |AllSets(values)| && values[i] <= AllSets(values)[j];
    }
  }

  /** The outcome of `generalizeI`: canonical, listed representatives kept, and each symbol's destinations joined. */
  ghost predicate ReducedI<T(!new)>(a0: Arena<T>, list0: seq<nat>, a: Arena<T>, initial: nat, list: seq<nat>,
                              m: map<nat, nat>, stamp: map<nat, nat>, clock: nat)
  {
    |a| == |a0| && Canonical(Snapshot(a, initial, list, []), m, stamp, clock) &&
    KeepsListed(list0, list, m, stamp, clock) && SymbolJoined(a0, list0, m, stamp, clock)
  }

  /** `generalizeI`'s whole outcome: the answer, the merged automaton, and nothing changed on a negative answer. */
  ghost predicate GeneralizedI<T(!new)>(a0: Arena<T>, initial0: nat, list0: seq<nat>, changed: bool, a: Arena<T>, initial: nat, list: seq<nat>,
                                        m: map<nat, nat>, stamp: map<nat, nat>, clock: nat, eq: (T, T) -> bool)
  {
    (changed <==> TwoDestinations(a0, list0)) &&
    ReducedI(a0, list0, a, initial, list, m, stamp, clock) &&
    History(a0, Elements(list0), initial0, a, initial, list, m, stamp, clock, eq) &&
    (!changed ==> a == a0 && initial == initial0 && list == list0)
  }

  /**
   * `generalizeI`: the states a symbol leads to are collected per symbol,
   * the sets are grouped by `getAllSets` and each group is merged. It
   * reports a change exactly when some symbol leads to two states.
   */
  method GeneralizeIArena<T(==,!new)>(a: Arena<T>, initial: nat, list: seq<nat>, eq: (T, T) -> bool)
    returns (changed: bool, a': Arena<T>, initial': nat, list': seq<nat>, m: map<nat, nat>, ghost stamp: map<nat, nat>, ghost clock: nat)
    requires Canonical(Snapshot(a, initial, list, []), map[], map[], 0) && Determinization.Equivalence(eq)
    ensures GeneralizedI(a, initial, list, changed, a', initial', list', m, stamp, clock, eq)
  {
    var toMerge := CollectGroups(a, list);
    var sets := GetAllSets(Values(toMerge));
    PartitionsListed(a, initial, list, map[], map[], 0);
    changed, a', initial', list', m, stamp, clock := MergeEachSetArena(a, initial, list, sets, eq);
    ValuesSmall(a, list);
    AllSetsSmall(Values(toMerge));
    PartitionsJoinSymbols(a, list, m, stamp, clock);
  }

  /** `generalizeI` on the automaton object. */
  method GeneralizeI<T(==,!new)>(aut: Automaton<T>, eq: (T, T) -> bool)
    returns (changed: bool, ghost m: map<nat, nat>, ghost stamp: map<nat, nat>, ghost clock: nat)
    requires Canonical(Snapshot(aut.states, aut.initial, aut.allStates, []), map[], map[], 0) && Determinization.Equivalence(eq)
    modifies aut
    ensures GeneralizedI(old(aut.states), old(aut.initial), old(aut.allStates), changed, aut.states, aut.initial, aut.allStates, m, stamp, clock, eq)
    ensures aut.nextId == old(aut.nextId)
  {
    var a, initial, list, merged := aut.states, aut.initial, aut.allStates, map[];
    changed, a, initial, list, merged, stamp, clock := GeneralizeIArena(a, initial, list, eq);
    m := merged;
    aut.Install(a, initial, list);
  }

  // ---------------------------------------------------------------------
  // getPartition, as a loop
  // ---------------------------------------------------------------------

  /** `getPartition(partitions, state)`: the partitions are scanned until one holds the state. */
  method FindPartition(parts: seq<set<nat>>, x: nat) returns (r: Option<nat>)
    ensures r == GetPartition(parts, x)
  {
    for k := 0 to |parts|
      invariant forall j :: 0 <= j < k ==> x !in parts[j]
    {
      if x in parts[k] {
        return Some(k);
      }
    }
    return None;
  }

  // ---------------------------------------------------------------------
  // generalizeII
  // ---------------------------------------------------------------------

  /** The partition holding `s0`, or a new partition `{s0}` added last; with the partition's index. */
  function Seed(parts: seq<set<nat>>, s0: nat): (r: (seq<set<nat>>, nat))
    ensures r.1 < |r.0| && s0 in r.0[r.1] && |parts| <= |r.0|
    ensures forall k :: 0 <= k < |parts| ==> r.0[k] == parts[k]
  {
    match GetPartition(parts, s0)
    case Some(p0) => (parts, p0)
    case None => (parts + [{s0}], |parts|)
  }

  /**
   * One step of the inner loop: when the transitions `ts0` of `s0` and `ts1`
   * of `s1` share a symbol, the partition of `s1`, if it is another one, is
   * moved into the partition at `p0` and emptied; otherwise `s1` is added there.
   */
  function Pair<T(==)>(parts: seq<set<nat>>, p0: nat, ts0: seq<Transition<T>>, ts1: seq<Transition<T>>, s1: nat): (r: seq<set<nat>>)
    requires p0 < |parts|
    ensures |r| == |parts| && parts[p0] <= r[p0]
    ensures Common(ts0, ts1) ==> s1 in r[p0]
  {
    if !Common(ts0, ts1) then parts
    else match GetPartition(parts, s1)
      case Some(p1) =>
        if p1 != p0 then parts[p0 := parts[p0] + parts[p1]][p1 := {}]
        else parts[p0 := parts[p0] + {s1}]
      case None => parts[p0 := parts[p0] + {s1}]
  }

  /** The inner loop for `s0 = list[i]`, over `list[k]` with `i < k < j`. */
  function Inner<T(==)>(parts: seq<set<nat>>, p0: nat, a: Arena<T>, list: seq<nat>, i: nat, j: nat): (r: seq<set<nat>>)
    requires p0 < |parts| && i < j <= |list| && InArena(list, a)
    ensures |r| == |parts| && parts[p0] <= r[p0]
    decreases j
  {
    if j == i + 1 then parts
    else Pair(Inner(parts, p0, a, list, i, j - 1), p0, a[list[i]].transitions, a[list[j - 1]].transitions, list[j - 1])
  }

  /** The outer loop over `s0 = list[i]`, `i < n`. */
  function Outer<T(==)>(a: Arena<T>, list: seq<nat>, n: nat): seq<set<nat>>
    requires n <= |list| && InArena(list, a)
  {
    if n == 0 then []
    else
      var seeded := Seed(Outer(a, list, n - 1), list[n - 1]);
      Inner(seeded.0, seeded.1, a, list, n - 1, |list|)
  }

  /** The partitions `generalizeII` builds: every state but the last is an `s0`. */
  function Partitions<T(==)>(a: Arena<T>, list: seq<nat>): seq<set<nat>>
    requires InArena(list, a)
  {
    Outer(a, list, if |list| == 0 then 0 else |list| - 1)
  }

  /** The states `list[i]` and `list[j]`, `i < j`, define a symbol in common. */
  ghost predicate SharePair<T>(a: Arena<T>, list: seq<nat>, i: nat, j: nat)
  {
    i < j < |list| && list[i] < |a| && list[j] < |a| && Common(a[list[i]].transitions, a[list[j]].transitions)
  }

  /** Two different listed states define a symbol in common. */
  ghost predicate Similar<T>(a: Arena<T>, list: seq<nat>)
  {
    exists i: nat, j: nat :: SharePair(a, list, i, j) && list[i] != list[j]
  }

  /** No state is in two partitions, and every state in a partition is listed. */
  predicate Sound(parts: seq<set<nat>>, list: seq<nat>)
  {
    (forall p, q :: 0 <= p < q < |parts| ==> parts[p] !! parts[q]) &&
    (forall k, x :: 0 <= k < |parts| && x in parts[k] ==> x in list)
  }

  /** Some partition holds both states. */
  predicate Joined(parts: seq<set<nat>>, x: nat, y: nat)
  {
    exists k :: 0 <= k < |parts| && x in parts[k] && y in parts[k]
  }

  /** The partition at `p0` is the one that holds `x`. */
  lemma SoundFind(parts: seq<set<nat>>, list: seq<nat>, p0: nat, x: nat)
    requires Sound(parts, list) && p0 < |parts| && x in parts[p0]
    ensures GetPartition(parts, x) == Some(p0)
  {
    var q := GetPartition(parts, x).value;
    assert x in parts[q] * parts[p0];
  }

  lemma PairSound<T>(parts: seq<set<nat>>, list: seq<nat>, p0: nat, ts0: seq<Transition<T>>, ts1: seq<Transition<T>>, s1: nat)
    requires Sound(parts, list) && p0 < |parts| && s1 in list
    ensures Sound(Pair(parts, p0, ts0, ts1, s1), list)
  {
    var r := Pair(parts, p0, ts0, ts1, s1);
    if Common(ts0, ts1) {
      match GetPartition(parts, s1)
      case Some(p1) =>
        if p1 != p0 {
          forall p, q | 0 <= p < q < |r| ensures r[p] * r[q] == {} {
            if p != p0 && q != p0 && p != p1 && q != p1 {
              assert r[p] * r[q] == parts[p] * parts[q];
            } else if p == p1 || q == p1 {
              assert r[p1] == {};
            } else if p == p0 {
              var u: set<nat> := parts[p0] * parts[q];
              var v: set<nat> := parts[p1] * parts[q];
              assert r[p] * r[q] == u + v;
              assert p1 < q || q < p1;
            } else {
              var u: set<nat> := parts[p] * parts[p0];
              var v: set<nat> := parts[p] * parts[p1];
              assert r[p] * r[q] == u + v;
              assert p1 < p || p < p1;
            }
          }
        } else {
          assert parts[p0] + {s1} == parts[p0];
          assert r == parts;
        }
      case None =>
    }
  }

  /** A partition holding two states still holds them, or its states moved together into another. */
  lemma PairKeepsJoined<T>(parts: seq<set<nat>>, p0: nat, ts0: seq<Transition<T>>, ts1: seq<Transition<T>>, s1: nat, x: nat, y: nat)
    requires p0 < |parts| && Joined(parts, x, y)
    ensures Joined(Pair(parts, p0, ts0, ts1, s1), x, y)
  {
    var r := Pair(parts, p0, ts0, ts1, s1);
    var k :| 0 <= k < |parts| && x in parts[k] && y in parts[k];
    if Common(ts0, ts1) && GetPartition(parts, s1).Some? && GetPartition(parts, s1).value != p0 && k == GetPartition(parts, s1).value {
      assert x in r[p0] && y in r[p0];
    } else {
      assert x in r[k] && y in r[k];
    }
  }

  /** Without a shared symbol, or when `s1` is `s0` itself, no partition grows past one state. */
  lemma PairSmall<T>(parts: seq<set<nat>>, list: seq<nat>, p0: nat, ts0: seq<Transition<T>>, ts1: seq<Transition<T>>, s0: nat, s1: nat)
    requires Sound(parts, list) && Small(parts) && p0 < |parts| && s0 in parts[p0]
    requires Common(ts0, ts1) ==> s1 == s0
    ensures Small(Pair(parts, p0, ts0, ts1, s1))
  {
    if Common(ts0, ts1) {
      SoundFind(parts, list, p0, s0);
      assert parts[p0] + {s1} == parts[p0];
      assert Pair(parts, p0, ts0, ts1, s1) == parts;
    }
  }

  /** Soundness carries over to an equal partition sequence. */
  lemma SoundSame(parts: seq<set<nat>>, same: seq<set<nat>>, list: seq<nat>)
    requires parts == same && Sound(same, list)
    ensures Sound(parts, list)
  {
  }

  lemma SeedSound(parts: seq<set<nat>>, list: seq<nat>, s0: nat)
    requires Sound(parts, list) && s0 in list
    ensures Sound(Seed(parts, s0).0, list)
  {
  }

  lemma SeedKeepsJoined(parts: seq<set<nat>>, s0: nat, x: nat, y: nat)
    requires Joined(parts, x, y)
    ensures Joined(Seed(parts, s0).0, x, y)
  {
    var k :| 0 <= k < |parts| && x in parts[k] && y in parts[k];
    assert Seed(parts, s0).0[k] == parts[k];
  }

  lemma SeedSmall(parts: seq<set<nat>>, s0: nat)
    requires Small(parts)
    ensures Small(Seed(parts, s0).0)
  {
    var r := Seed(parts, s0).0;
    if |r| > |parts| {
      assert r[|parts|] == {s0};
    }
  }

  lemma {:induction false} InnerSound<T>(parts: seq<set<nat>>, p0: nat, a: Arena<T>, list: seq<nat>, i: nat, j: nat)
    requires p0 < |parts| && i < j <= |list| && InArena(list, a) && Sound(parts, list)
    ensures Sound(Inner(parts, p0, a, list, i, j), list)
    decreases j
  {
    if j > i + 1 {
      var q := Inner(parts, p0, a, list, i, j - 1);
      InnerSound(parts, p0, a, list, i, j - 1);
      PairSound(q, list, p0, a[list[i]].transitions, a[list[j - 1]].transitions, list[j - 1]);
      assert Inner(parts, p0, a, list, i, j) == Pair(q, p0, a[list[i]].transitions, a[list[j - 1]].transitions, list[j - 1]);
    } else {
      assert Inner(parts, p0, a, list, i, j) == parts;
    }
  }

  lemma {:induction false} InnerKeepsJoined<T>(parts: seq<set<nat>>, p0: nat, a: Arena<T>, list: seq<nat>, i: nat, j: nat, x: nat, y: nat)
    requires p0 < |parts| && i < j <= |list| && InArena(list, a) && Joined(parts, x, y)
    ensures Joined(Inner(parts, p0, a, list, i, j), x, y)
    decreases j
  {
    if j > i + 1 {
      var q := Inner(parts, p0, a, list, i, j - 1);
      InnerKeepsJoined(parts, p0, a, list, i, j - 1, x, y);
      PairKeepsJoined(q, p0, a[list[i]].transitions, a[list[j - 1]].transitions, list[j - 1], x, y);
      assert Inner(parts, p0, a, list, i, j) == Pair(q, p0, a[list[i]].transitions, a[list[j - 1]].transitions, list[j - 1]);
    } else {
      assert Inner(parts, p0, a, list, i, j) == parts;
    }
  }

  /** The inner loop for `list[i]` puts it with every later state it shares a symbol with. */
  lemma {:induction false} InnerJoins<T>(parts: seq<set<nat>>, p0: nat, a: Arena<T>, list: seq<nat>, i: nat, j: nat)
    requires p0 < |parts| && i < j <= |list| && InArena(list, a) && list[i] in parts[p0]
    ensures forall k :: i < k < j && SharePair(a, list, i, k) ==> Joined(Inner(parts, p0, a, list, i, j), list[i], list[k])
    decreases j
  {
    if j > i + 1 {
      var q := Inner(parts, p0, a, list, i, j - 1);
      InnerJoins(parts, p0, a, list, i, j - 1);
      assert Inner(parts, p0, a, list, i, j) == Pair(q, p0, a[list[i]].transitions, a[list[j - 1]].transitions, list[j - 1]);
      forall k | i < k < j && SharePair(a, list, i, k) ensures Joined(Inner(parts, p0, a, list, i, j), list[i], list[k]) {
        if k < j - 1 {
          PairKeepsJoined(q, p0, a[list[i]].transitions, a[list[j - 1]].transitions, list[j - 1], list[i], list[k]);
        } else {
          assert list[i] in Inner(parts, p0, a, list, i, j)[p0];
        }
      }
    }
  }

  lemma {:induction false} InnerSmall<T>(parts: seq<set<nat>>, p0: nat, a: Arena<T>, list: seq<nat>, i: nat, j: nat)
    requires p0 < |parts| && i < j <= |list| && InArena(list, a) && list[i] in parts[p0]
    requires Sound(parts, list) && Small(parts)
    requires forall k :: i < k < j && SharePair(a, list, i, k) ==> list[k] == list[i]
    ensures Small(Inner(parts, p0, a, list, i, j))
    decreases j
  {
    if j > i + 1 {
      var q := Inner(parts, p0, a, list, i, j - 1);
      InnerSmall(parts, p0, a, list, i, j - 1);
      InnerSound(parts, p0, a, list, i, j - 1);
      assert SharePair(a, list, i, j - 1) <==> Common(a[list[i]].transitions, a[list[j - 1]].transitions);
      PairSmall(q, list, p0, a[list[i]].transitions, a[list[j - 1]].transitions, list[i], list[j - 1]);
      assert Inner(parts, p0, a, list, i, j) == Pair(q, p0, a[list[i]].transitions, a[list[j - 1]].transitions, list[j - 1]);
    } else {
      assert Inner(parts, p0, a, list, i, j) == parts;
    }
  }

  lemma {:induction false} OuterSound<T>(a: Arena<T>, list: seq<nat>, n: nat)
    requires n <= |list| && InArena(list, a)
    ensures Sound(Outer(a, list, n), list)
  {
    if n > 0 {
      var before := Outer(a, list, n - 1);
      OuterSound(a, list, n - 1);
      var seeded := Seed(before, list[n - 1]);
      SeedSound(before, list, list[n - 1]);
      InnerSound(seeded.0, seeded.1, a, list, n - 1, |list|);
      SoundSame(Outer(a, list, n), Inner(seeded.0, seeded.1, a, list, n - 1, |list|), list);
    }
  }

  /** After the outer loop over the first `n` states, each of them shares a partition with every later state it shares a symbol with. */
  lemma {:induction false} OuterJoins<T>(a: Arena<T>, list: seq<nat>, n: nat)
    requires n <= |list| && InArena(list, a)
    ensures forall i: nat, k: nat :: i < n && SharePair(a, list, i, k) ==> Joined(Outer(a, list, n), list[i], list[k])
  {
    if n > 0 {
      OuterJoins(a, list, n - 1);
      var before := Outer(a, list, n - 1);
      var seeded := Seed(before, list[n - 1]);
      InnerJoins(seeded.0, seeded.1, a, list, n - 1, |list|);
      assert Outer(a, list, n) == Inner(seeded.0, seeded.1, a, list, n - 1, |list|);
      forall i: nat, k: nat | i < n && SharePair(a, list, i, k) ensures Joined(Outer(a, list, n), list[i], list[k]) {
        if i < n - 1 {
          SeedKeepsJoined(before, list[n - 1], list[i], list[k]);
          InnerKeepsJoined(seeded.0, seeded.1, a, list, n - 1, |list|, list[i], list[k]);
        }
      }
    }
  }

  lemma {:induction false} OuterSmall<T>(a: Arena<T>, list: seq<nat>, n: nat)
    requires n <= |list| && InArena(list, a)
    requires forall i: nat, k: nat :: i < n && SharePair(a, list, i, k) ==> list[i] == list[k]
    ensures Small(Outer(a, list, n))
  {
    if n > 0 {
      OuterSmall(a, list, n - 1);
      OuterSound(a, list, n - 1);
      var before := Outer(a, list, n - 1);
      var seeded := Seed(before, list[n - 1]);
      SeedSmall(before, list[n - 1]);
      SeedSound(before, list, list[n - 1]);
      InnerSmall(seeded.0, seeded.1, a, list, n - 1, |list|);
      assert Outer(a, list, n) == Inner(seeded.0, seeded.1, a, list, n - 1, |list|);
    }
  }

  /**
   * What `generalizeII`'s partitions are: disjoint sets of listed states in
   * which every two states sharing a symbol are together, and some partition
   * holds two states exactly when two different states share a symbol.
   */
  lemma PartitionsCharacterized<T>(a: Arena<T>, list: seq<nat>)
    requires InArena(list, a)
    ensures Sound(Partitions(a, list), list)
    ensures forall i: nat, k: nat :: SharePair(a, list, i, k) ==> Joined(Partitions(a, list), list[i], list[k])
    ensures AnyToMerge(Partitions(a, list)) <==> Similar(a, list)
  {
    var n := if |list| == 0 then 0 else |list| - 1;
    OuterSound(a, list, n);
    OuterJoins(a, list, n);
    var parts := Partitions(a, list);
    if Similar(a, list) {
      var i: nat, k: nat :| SharePair(a, list, i, k) && list[i] != list[k];
      var p :| 0 <= p < |parts| && list[i] in parts[p] && list[k] in parts[p];
      PairSize(parts[p], list[i], list[k]);
    } else {
      OuterSmall(a, list, n);
    }
  }

  /**
   * The two nested loops of `generalizeII`. The causal test computes both
   * flags from the transitions of `s0` to `s1`, so they always agree and no
   * pair is ever skipped.
   */
  method CollectPartitions<T(==,!new)>(a: Arena<T>, list: seq<nat>) returns (parts: seq<set<nat>>)
    requires InArena(list, a)
    ensures parts == Partitions(a, list)
  {
    parts := [];
    var i: nat := 0;
    while i + 1 < |list|
      invariant i <= |list| && (i == 0 || i < |list|)
      invariant parts == Outer(a, list, i)
    {
      var withS0;
      parts, withS0 := SeedPartition(parts, list[i]);
      parts := CompareLater(parts, withS0, a, list, i);
      i := i + 1;
    }
  }

  /** The partition of `s0`, made when there is none. */
  method SeedPartition(parts: seq<set<nat>>, s0: nat) returns (parts': seq<set<nat>>, withS0: nat)
    ensures (parts', withS0) == Seed(parts, s0)
  {
    var found := FindPartition(parts, s0);
    if found.None? {
      parts' := parts + [{s0}];
      withS0 := |parts|;
    } else {
      parts', withS0 := parts, found.value;
    }
  }

  /** The inner loop: `list[i]` compared with every later state. */
  method CompareLater<T(==,!new)>(parts: seq<set<nat>>, withS0: nat, a: Arena<T>, list: seq<nat>, i: nat) returns (parts': seq<set<nat>>)
    requires withS0 < |parts| && i < |list| && InArena(list, a)
    ensures parts' == Inner(parts, withS0, a, list, i, |list|)
  {
    parts' := parts;
    var j: nat := i + 1;
    while j < |list|
      invariant i < j <= |list|
      invariant parts' == Inner(parts, withS0, a, list, i, j)
    {
      parts' := ComparePair(parts', withS0, a, list[i], list[j]);
      j := j + 1;
    }
  }

  /** One pair `s0`, `s1`: the causal test, the count of shared symbols, and the move of partitions. */
  method ComparePair<T(==,!new)>(parts: seq<set<nat>>, withS0: nat, a: Arena<T>, s0: nat, s1: nat) returns (parts': seq<set<nat>>)
    requires withS0 < |parts| && s0 < |a| && s1 < |a|
    ensures parts' == Pair(parts, withS0, a[s0].transitions, a[s1].transitions, s1)
  {
    parts' := parts;
    var s0ToS1 := AcceptedTransitions(a[s0].transitions, s1) != [];
    var s1ToS0 := AcceptedTransitions(a[s0].transitions, s1) != [];
    if s0ToS1 == s1ToS0 {
      var n := MsgTypesInCommon(a[s0].transitions, a[s1].transitions);
      if n > 0 {
        var withS1 := FindPartition(parts, s1);
        if withS1.Some? && withS1.value != withS0 {
          parts' := parts[withS0 := parts[withS0] + parts[withS1.value]][withS1.value := {}];
        } else {
          parts' := parts[withS0 := parts[withS0] + {s1}];
        }
      }
    }
  }

  /** States sharing a symbol have one representative. */
  ghost predicate SimilarJoined<T>(a: Arena<T>, list: seq<nat>, m: map<nat, nat>, stamp: map<nat, nat>, clock: nat)
  {
    Ranked(m, stamp, clock) &&
    forall i: nat, k: nat :: SharePair(a, list, i, k) ==> Root(m, stamp, clock, list[i]) == Root(m, stamp, clock, list[k])
  }

  /** The outcome of `generalizeII`: canonical, listed representatives kept, and states sharing a symbol joined. */
  ghost predicate ReducedII<T>(a0: Arena<T>, list0: seq<nat>, a: Arena<T>, initial: nat, list: seq<nat>,
                               m: map<nat, nat>, stamp: map<nat, nat>, clock: nat)
  {
    |a| == |a0| && Canonical(Snapshot(a, initial, list, []), m, stamp, clock) &&
    KeepsListed(list0, list, m, stamp, clock) && SimilarJoined(a0, list0, m, stamp, clock)
  }

  /** `generalizeII`'s whole outcome: the answer, the merged automaton, and nothing changed on a negative answer. */
  ghost predicate GeneralizedII<T(!new)>(a0: Arena<T>, initial0: nat, list0: seq<nat>, changed: bool, a: Arena<T>, initial: nat, list: seq<nat>,
                                        m: map<nat, nat>, stamp: map<nat, nat>, clock: nat, eq: (T, T) -> bool)
  {
    (changed <==> Similar(a0, list0)) &&
    ReducedII(a0, list0, a, initial, list, m, stamp, clock) &&
    History(a0, Elements(list0), initial0, a, initial, list, m, stamp, clock, eq) &&
    (!changed ==> a == a0 && initial == initial0 && list == list0)
  }

  lemma JoinedRoots<T>(a: Arena<T>, list: seq<nat>, parts: seq<set<nat>>, m: map<nat, nat>, stamp: map<nat, nat>, clock: nat)
    requires Together(parts, m, stamp, clock)
    requires forall i: nat, k: nat :: SharePair(a, list, i, k) ==> Joined(parts, list[i], list[k])
    ensures SimilarJoined(a, list, m, stamp, clock)
  {
    forall i: nat, k: nat | SharePair(a, list, i, k) ensures Root(m, stamp, clock, list[i]) == Root(m, stamp, clock, list[k]) {
      var p :| 0 <= p < |parts| && list[i] in parts[p] && list[k] in parts[p];
    }
  }

  /**
   * `generalizeII`: states that define a symbol in common are gathered into
   * partitions, and each partition is merged. It reports a change exactly
   * when two different states define a symbol in common.
   */
  method GeneralizeIIArena<T(==,!new)>(a: Arena<T>, initial: nat, list: seq<nat>, eq: (T, T) -> bool)
    returns (changed: bool, a': Arena<T>, initial': nat, list': seq<nat>, m: map<nat, nat>, ghost stamp: map<nat, nat>, ghost clock: nat)
    requires Canonical(Snapshot(a, initial, list, []), map[], map[], 0) && Determinization.Equivalence(eq)
    ensures GeneralizedII(a, initial, list, changed, a', initial', list', m, stamp, clock, eq)
  {
    var partitions := CollectPartitions(a, list);
    PartitionsCharacterized(a, list);
    changed, a', initial', list', m, stamp, clock := MergeEachSetArena(a, initial, list, partitions, eq);
    JoinedRoots(a, list, partitions, m, stamp, clock);
  }

  /** `generalizeII` on the automaton object. */
  method GeneralizeII<T(==,!new)>(aut: Automaton<T>, eq: (T, T) -> bool)
    returns (changed: bool, ghost m: map<nat, nat>, ghost stamp: map<nat, nat>, ghost clock: nat)
    requires Canonical(Snapshot(aut.states, aut.initial, aut.allStates, []), map[], map[], 0) && Determinization.Equivalence(eq)
    modifies aut
    ensures GeneralizedII(old(aut.states), old(aut.initial), old(aut.allStates), changed, aut.states, aut.initial, aut.allStates, m, stamp, clock, eq)
    ensures aut.nextId == old(aut.nextId)
  {
    var a, initial, list, merged := aut.states, aut.initial, aut.allStates, map[];
    changed, a, initial, list, merged, stamp, clock := GeneralizeIIArena(a, initial, list, eq);
    m := merged;
    aut.Install(a, initial, list);
  }

  /**
   * A state leading to another is still put with it: state 0 reaches state 1
   * on `x` and state 1 does not reach state 0, yet both define `x`, so they
   * share a partition.
   */
  lemma CausalPairJoined(x: int)
    ensures var a := [StateRec(false, [Transition(x, 1, 1)], 0), StateRec(false, [Transition(x, 2, 1)], 1), StateRec(true, [], 2)];
      && AcceptedTransitions(a[0].transitions, 1) != [] && AcceptedTransitions(a[1].transitions, 0) == []
      && Partitions(a, [0, 1, 2]) == [{0, 1}]
  {
    var a := [StateRec(false, [Transition(x, 1, 1)], 0), StateRec(false, [Transition(x, 2, 1)], 1), StateRec(true, [], 2)];
    var list := [0, 1, 2];
    assert Common(a[0].transitions, a[1].transitions) by {
      assert a[0].transitions[0].symbol == a[1].transitions[0].symbol;
    }
    assert !Common(a[0].transitions, a[2].transitions);
    assert !Common(a[1].transitions, a[2].transitions);
    assert Outer(a, list, 0) == [];
    assert GetPartition([], 0) == None;
    var seeded := Seed([], 0);
    assert seeded.0 == [] + [{0}] == [{0}] && seeded.1 == 0;
    assert Inner([{0}], 0, a, list, 0, 1) == [{0}];
    assert GetPartition([{0}], 1) == None;
    var paired := Pair([{0}], 0, a[0].transitions, a[1].transitions, 1);
    assert paired == [{0}][0 := {0} + {1}];
    assert |paired| == 1 && paired[0] == {0, 1};
    assert paired == [{0, 1}];
    assert Inner([{0}], 0, a, list, 0, 2) == [{0, 1}];
    assert Outer(a, list, 1) == [{0, 1}];
    assert Seed([{0, 1}], 1) == ([{0, 1}], 0);
    assert Inner([{0, 1}], 0, a, list, 1, 3) == [{0, 1}];
    assert AcceptedTransitions(a[0].transitions, 1) == a[0].transitions;
  }

  // The causal test as evidently intended: the second flag is computed from
  // the transitions of `s1` to `s0`, and a pair where only one state leads to
  // the other is skipped.

  /** Exactly one of the two states has a transition to the other. */
  predicate OneWay<T(==, !new)>(a: Arena<T>, s0: nat, s1: nat)
    requires s0 < |a| && s1 < |a|
  {
    (AcceptedTransitions(a[s0].transitions, s1) != []) != (AcceptedTransitions(a[s1].transitions, s0) != [])
  }

  /** The transitions of `s1` the intended comparison looks at: none when the pair is causal one way. */
  function Compared<T(==, !new)>(a: Arena<T>, s0: nat, s1: nat): (ts: seq<Transition<T>>)
    requires s0 < |a| && s1 < |a|
    ensures Common(a[s0].transitions, ts) <==> !OneWay(a, s0, s1) && Common(a[s0].transitions, a[s1].transitions)
  {
    if OneWay(a, s0, s1) then [] else a[s1].transitions
  }

  /** The inner loop with the intended causal test. */
  function InnerChecked<T(==, !new)>(parts: seq<set<nat>>, p0: nat, a: Arena<T>, list: seq<nat>, i: nat, j: nat): (r: seq<set<nat>>)
    requires p0 < |parts| && i < j <= |list| && InArena(list, a)
    ensures |r| == |parts| && parts[p0] <= r[p0]
    decreases j
  {
    if j == i + 1 then parts
    else Pair(InnerChecked(parts, p0, a, list, i, j - 1), p0, a[list[i]].transitions, Compared(a, list[i], list[j - 1]), list[j - 1])
  }

  /** The outer loop with the intended causal test. */
  function OuterChecked<T(==, !new)>(a: Arena<T>, list: seq<nat>, n: nat): seq<set<nat>>
    requires n <= |list| && InArena(list, a)
  {
    if n == 0 then []
    else
      var seeded := Seed(OuterChecked(a, list, n - 1), list[n - 1]);
      InnerChecked(seeded.0, seeded.1, a, list, n - 1, |list|)
  }

  /** The partitions `generalizeII` evidently means to build: causally related pairs are never compared. */
  function PartitionsChecked<T(==, !new)>(a: Arena<T>, list: seq<nat>): seq<set<nat>>
    requires InArena(list, a)
  {
    OuterChecked(a, list, if |list| == 0 then 0 else |list| - 1)
  }

  /** `list[i]` and `list[j]` share a symbol and neither leads to the other one way only. */
  ghost predicate AcausalPair<T(!new)>(a: Arena<T>, list: seq<nat>, i: nat, j: nat)
  {
    SharePair(a, list, i, j) && !OneWay(a, list[i], list[j])
  }

  lemma {:induction false} InnerCheckedSound<T(!new)>(parts: seq<set<nat>>, p0: nat, a: Arena<T>, list: seq<nat>, i: nat, j: nat)
    requires p0 < |parts| && i < j <= |list| && InArena(list, a) && Sound(parts, list)
    ensures Sound(InnerChecked(parts, p0, a, list, i, j), list)
    decreases j
  {
    if j > i + 1 {
      InnerCheckedSound(parts, p0, a, list, i, j - 1);
      InnerCheckedStepSound(parts, p0, a, list, i, j);
    } else {
      assert InnerChecked(parts, p0, a, list, i, j) == parts;
    }
  }

  /** One comparison of the intended inner loop keeps the partitions sound. */
  lemma InnerCheckedStepSound<T(!new)>(parts: seq<set<nat>>, p0: nat, a: Arena<T>, list: seq<nat>, i: nat, j: nat)
    requires p0 < |parts| && i + 1 < j <= |list| && InArena(list, a)
    requires Sound(InnerChecked(parts, p0, a, list, i, j - 1), list)
    ensures Sound(InnerChecked(parts, p0, a, list, i, j), list)
  {
    var q := InnerChecked(parts, p0, a, list, i, j - 1);
    var ts := Compared(a, list[i], list[j - 1]);
    PairSound(q, list, p0, a[list[i]].transitions, ts, list[j - 1]);
    assert InnerChecked(parts, p0, a, list, i, j) == Pair(q, p0, a[list[i]].transitions, ts, list[j - 1]);
  }

  lemma {:induction false} InnerCheckedKeepsJoined<T(!new)>(parts: seq<set<nat>>, p0: nat, a: Arena<T>, list: seq<nat>, i: nat, j: nat, x: nat, y: nat)
    requires p0 < |parts| && i < j <= |list| && InArena(list, a) && Joined(parts, x, y)
    ensures Joined(InnerChecked(parts, p0, a, list, i, j), x, y)
    decreases j
  {
    if j > i + 1 {
      var q := InnerChecked(parts, p0, a, list, i, j - 1);
      InnerCheckedKeepsJoined(parts, p0, a, list, i, j - 1, x, y);
      PairKeepsJoined(q, p0, a[list[i]].transitions, Compared(a, list[i], list[j - 1]), list[j - 1], x, y);
      assert InnerChecked(parts, p0, a, list, i, j) == Pair(q, p0, a[list[i]].transitions, Compared(a, list[i], list[j - 1]), list[j - 1]);
    } else {
      assert InnerChecked(parts, p0, a, list, i, j) == parts;
    }
  }

  /** The intended inner loop for `list[i]` puts it with every later state it shares a symbol with and is not causally tied to. */
  lemma {:induction false} InnerCheckedJoins<T(!new)>(parts: seq<set<nat>>, p0: nat, a: Arena<T>, list: seq<nat>, i: nat, j: nat)
    requires p0 < |parts| && i < j <= |list| && InArena(list, a) && list[i] in parts[p0]
    ensures forall k :: i < k < j && AcausalPair(a, list, i, k) ==> Joined(InnerChecked(parts, p0, a, list, i, j), list[i], list[k])
    decreases j
  {
    if j > i + 1 {
      var q := InnerChecked(parts, p0, a, list, i, j - 1);
      InnerCheckedJoins(parts, p0, a, list, i, j - 1);
      assert InnerChecked(parts, p0, a, list, i, j) == Pair(q, p0, a[list[i]].transitions, Compared(a, list[i], list[j - 1]), list[j - 1]);
      forall k | i < k < j && AcausalPair(a, list, i, k) ensures Joined(InnerChecked(parts, p0, a, list, i, j), list[i], list[k]) {
        if k < j - 1 {
          PairKeepsJoined(q, p0, a[list[i]].transitions, Compared(a, list[i], list[j - 1]), list[j - 1], list[i], list[k]);
        } else {
          assert list[i] in InnerChecked(parts, p0, a, list, i, j)[p0];
        }
      }
    }
  }

  lemma {:induction false} OuterCheckedSound<T(!new)>(a: Arena<T>, list: seq<nat>, n: nat)
    requires n <= |list| && InArena(list, a)
    ensures Sound(OuterChecked(a, list, n), list)
  {
    if n > 0 {
      OuterCheckedSound(a, list, n - 1);
      SeededCheckedSound(OuterChecked(a, list, n - 1), a, list, n - 1);
    }
  }

  /** One round of the intended outer loop keeps the partitions sound. */
  lemma SeededCheckedSound<T(!new)>(before: seq<set<nat>>, a: Arena<T>, list: seq<nat>, i: nat)
    requires i < |list| && InArena(list, a) && Sound(before, list)
    ensures Sound(InnerChecked(Seed(before, list[i]).0, Seed(before, list[i]).1, a, list, i, |list|), list)
  {
    var seeded := Seed(before, list[i]);
    SeedSound(before, list, list[i]);
    InnerCheckedSound(seeded.0, seeded.1, a, list, i, |list|);
  }

  lemma {:induction false} OuterCheckedJoins<T(!new)>(a: Arena<T>, list: seq<nat>, n: nat)
    requires n <= |list| && InArena(list, a)
    ensures forall i: nat, k: nat :: i < n && AcausalPair(a, list, i, k) ==> Joined(OuterChecked(a, list, n), list[i], list[k])
  {
    if n > 0 {
      OuterCheckedJoins(a, list, n - 1);
      var before := OuterChecked(a, list, n - 1);
      var seeded := Seed(before, list[n - 1]);
      InnerCheckedJoins(seeded.0, seeded.1, a, list, n - 1, |list|);
      var r := InnerChecked(seeded.0, seeded.1, a, list, n - 1, |list|);
      assert OuterChecked(a, list, n) == r;
      forall i: nat, k: nat | i < n && AcausalPair(a, list, i, k) ensures Joined(r, list[i], list[k]) {
        if i < n - 1 {
          assert Joined(before, list[i], list[k]);
          SeedKeepsJoined(before, list[n - 1], list[i], list[k]);
          InnerCheckedKeepsJoined(seeded.0, seeded.1, a, list, n - 1, |list|, list[i], list[k]);
          assert Joined(r, list[i], list[k]);
        } else {
          assert i == n - 1 && n - 1 < k < |list| && AcausalPair(a, list, n - 1, k);
          assert Joined(r, list[n - 1], list[k]);
        }
      }
    }
  }

  /**
   * The intended partitions are disjoint sets of listed states, and every two
   * states that share a symbol without a one-way causal relation are together.
   */
  lemma PartitionsCheckedCharacterized<T(!new)>(a: Arena<T>, list: seq<nat>)
    requires InArena(list, a)
    ensures Sound(PartitionsChecked(a, list), list)
    ensures forall i: nat, k: nat :: AcausalPair(a, list, i, k) ==> Joined(PartitionsChecked(a, list), list[i], list[k])
  {
    var n := if |list| == 0 then 0 else |list| - 1;
    OuterCheckedSound(a, list, n);
    OuterCheckedJoins(a, list, n);
  }

  /**
   * The pair of `CausalPairJoined` is kept apart by the intended test: state 0
   * leads to state 1 only one way, so both end in partitions of their own.
   */
  lemma CausalPairApart(x: int)
    ensures var a := [StateRec(false, [Transition(x, 1, 1)], 0), StateRec(false, [Transition(x, 2, 1)], 1), StateRec(true, [], 2)];
      && OneWay(a, 0, 1) && PartitionsChecked(a, [0, 1, 2]) == [{0}, {1}]
      && !Joined(PartitionsChecked(a, [0, 1, 2]), 0, 1)
  {
    var a := [StateRec(false, [Transition(x, 1, 1)], 0), StateRec(false, [Transition(x, 2, 1)], 1), StateRec(true, [], 2)];
    var list := [0, 1, 2];
    CausalFirstRound(x);
    assert GetPartition([{0}], 1) == None;
    var seeded1 := Seed([{0}], 1);
    assert seeded1.0 == [{0}] + [{1}] == [{0}, {1}] && seeded1.1 == 1;
    assert InnerChecked([{0}, {1}], 1, a, list, 1, 3) == [{0}, {1}];
    assert OuterChecked(a, list, 2) == [{0}, {1}];
    assert PartitionsChecked(a, list) == [{0}, {1}];
  }

  /** The first round of the intended outer loop on the example of `CausalPairApart` leaves state 0 alone. */
  lemma CausalFirstRound(x: int)
    ensures var a := [StateRec(false, [Transition(x, 1, 1)], 0), StateRec(false, [Transition(x, 2, 1)], 1), StateRec(true, [], 2)];
      && OneWay(a, 0, 1) && OneWay(a, 1, 2) && !OneWay(a, 0, 2)
      && OuterChecked(a, [0, 1, 2], 1) == [{0}]
  {
    var a := [StateRec(false, [Transition(x, 1, 1)], 0), StateRec(false, [Transition(x, 2, 1)], 1), StateRec(true, [], 2)];
    var list := [0, 1, 2];
    assert AcceptedTransitions(a[0].transitions, 1) == a[0].transitions;
    assert AcceptedTransitions(a[1].transitions, 0) == [];
    assert AcceptedTransitions(a[0].transitions, 2) == [];
    assert AcceptedTransitions(a[2].transitions, 0) == [];
    assert AcceptedTransitions(a[1].transitions, 2) == a[1].transitions;
    assert AcceptedTransitions(a[2].transitions, 1) == [];
    assert OneWay(a, 0, 1) && OneWay(a, 1, 2) && !OneWay(a, 0, 2);
    assert !Common(a[0].transitions, a[2].transitions);
    assert OuterChecked(a, list, 0) == [];
    assert GetPartition([], 0) == None;
    var seeded := Seed([], 0);
    assert seeded.0 == [] + [{0}] == [{0}] && seeded.1 == 0;
    assert InnerChecked([{0}], 0, a, list, 0, 2) == [{0}];
    assert InnerChecked([{0}], 0, a, list, 0, 3) == [{0}];
  }

  // ---------------------------------------------------------------------
  // generalize
  // ---------------------------------------------------------------------

  /**
   * The listed states with their finality reset: with `ends`, a listed state
   * is final exactly when it has no transitions; without, none is final.
   * Unlisted states are untouched.
   */
  ghost predicate Marked<T>(a0: Arena<T>, list: seq<nat>, a: Arena<T>, ends: bool)
  {
    |a| == |a0| &&
    forall x :: 0 <= x < |a| ==> a[x] == (if x in list then a0[x].(isFinal := ends && a0[x].transitions == []) else a0[x])
  }

  /** Neither reduction has anything left to merge. */
  ghost predicate Settled<T(!new)>(a: Arena<T>, list: seq<nat>)
  {
    !TwoDestinations(a, list) && !Similar(a, list)
  }

  /** The first loop of `generalize`: every listed state is made non-final. */
  method ClearFinal<T>(aut: Automaton<T>, list: seq<nat>)
    requires aut.Valid() && InArena(list, aut.states)
    modifies aut
    ensures aut.Valid() && Marked(old(aut.states), list, aut.states, false)
    ensures aut.initial == old(aut.initial) && aut.allStates == old(aut.allStates) && aut.nextId == old(aut.nextId)
  {
    ghost var a0 := aut.states;
    for i := 0 to |list|
      invariant aut.Valid() && |aut.states| == |a0| && InArena(list, aut.states)
      invariant forall x :: 0 <= x < |a0| ==> aut.states[x] == (if x in list[..i] then a0[x].(isFinal := false) else a0[x])
      invariant aut.initial == old(aut.initial) && aut.allStates == old(aut.allStates) && aut.nextId == old(aut.nextId)
    {
      aut.SetFinal(list[i], false);
      assert forall x :: x in list[..i + 1] <==> x in list[..i] || x == list[i];
    }
    assert list[..|list|] == list;
  }

  /** The last loop of `generalize`: every listed state without transitions is made final. */
  method MarkEnds<T>(aut: Automaton<T>, list: seq<nat>)
    requires aut.Valid() && InArena(list, aut.states)
    modifies aut
    ensures aut.Valid() && |aut.states| == old(|aut.states|)
    ensures forall x :: 0 <= x < |aut.states| ==>
      aut.states[x] == (if x in list && old(aut.states[x].transitions) == [] then old(aut.states[x]).(isFinal := true) else old(aut.states[x]))
    ensures aut.initial == old(aut.initial) && aut.allStates == old(aut.allStates) && aut.nextId == old(aut.nextId)
  {
    ghost var a0 := aut.states;
    for i := 0 to |list|
      invariant aut.Valid() && |aut.states| == |a0| && InArena(list, aut.states)
      invariant forall x :: 0 <= x < |a0| ==> aut.states[x] == (if x in list[..i] && a0[x].transitions == [] then a0[x].(isFinal := true) else a0[x])
      invariant aut.initial == old(aut.initial) && aut.allStates == old(aut.allStates) && aut.nextId == old(aut.nextId)
    {
      assert forall x :: x in list[..i + 1] <==> x in list[..i] || x == list[i];
      if aut.states[list[i]].transitions == [] {
        aut.SetFinal(list[i], true);
      }
    }
    assert list[..|list|] == list;
  }

  /** Clearing and then marking the listed states is the marking of the original states. */
  lemma ClearThenMark<T>(a0: Arena<T>, list: seq<nat>, a1: Arena<T>, a2: Arena<T>)
    requires Marked(a0, list, a1, false) && |a2| == |a1|
    requires forall x :: 0 <= x < |a2| ==> a2[x] == (if x in list && a1[x].transitions == [] then a1[x].(isFinal := true) else a1[x])
    ensures Marked(a0, list, a2, true)
  {
  }

  /** The finality of states takes no part in a canonical snapshot. */
  lemma CanonicalFinality<T>(a: Arena<T>, a': Arena<T>, initial: nat, list: seq<nat>, m: map<nat, nat>, stamp: map<nat, nat>, clock: nat)
    requires Canonical(Snapshot(a, initial, list, []), m, stamp, clock)
    requires |a'| == |a| && forall x :: 0 <= x < |a| ==> a'[x].transitions == a[x].transitions
    ensures Canonical(Snapshot(a', initial, list, []), m, stamp, clock)
  {
    assert Closed(a');
  }

  /** Nor in what the reductions look for. */
  lemma SettledFinality<T(!new)>(a: Arena<T>, a': Arena<T>, list: seq<nat>)
    requires |a'| == |a| && forall x :: 0 <= x < |a| ==> a'[x].transitions == a[x].transitions
    ensures Settled(a, list) <==> Settled(a', list)
  {
    assert forall y, d :: Edge(a, list, y, d) <==> Edge(a', list, y, d);
    assert forall i: nat, j: nat :: SharePair(a, list, i, j) <==> SharePair(a', list, i, j);
  }

  /** No listed state is final. */
  ghost predicate NoneFinal<T>(a: Arena<T>, list: seq<nat>)
  {
    forall x :: x in list && x < |a| ==> !a[x].isFinal
  }

  /** The list holds the initial state and every destination of a listed state. */
  ghost predicate Shut<T>(a: Arena<T>, initial: nat, list: seq<nat>)
  {
    initial in list && forall x :: x in list ==> x < |a| && LeadsInto(a[x].transitions, set y | y in list)
  }

  lemma CanonicalShut<T>(g: Snapshot<T>, m: map<nat, nat>, stamp: map<nat, nat>, clock: nat)
    requires Canonical(g, m, stamp, clock)
    ensures Shut(g.states, g.initial, g.allStates)
  {
  }

  /** Every state along a walk from the initial state is listed. */
  lemma {:induction false} WalkListed<T>(a: Arena<T>, initial: nat, list: seq<nat>, ps: seq<nat>, z: nat, n: nat)
    requires Shut(a, initial, list) && Determinization.WalkTo(a, initial, ps, z) && n < |ps|
    ensures ps[n] in list
  {
    if n > 0 {
      WalkListed(a, initial, list, ps, z, n - 1);
      assert Determinization.Linked(a, ps[n - 1], ps[n]);
      var k :| 0 <= k < |a[ps[n - 1]].transitions| && a[ps[n - 1]].transitions[k].dest == ps[n];
      assert LeadsInto(a[ps[n - 1]].transitions, set y | y in list);
    }
  }

  /** Determinizing an automaton whose listed states are all non-final gives only non-final states. */
  lemma DeterminizedNoneFinal<T(!new)>(a: Arena<T>, initial: nat, list: seq<nat>, base: int, memo: map<set<nat>, nat>,
                                       na: Arena<T>, keys: seq<set<nat>>, eq: (T, T) -> bool)
    requires Shut(a, initial, list) && NoneFinal(a, list)
    requires Determinization.Determinized(a, initial, base, memo, na, keys, eq)
    ensures NoneFinal(na, Determinization.Indices(|na|))
  {
    Determinization.DeterminizedFinals(a, initial, base, memo, na, keys, eq);
    forall y: nat | y < |a| && Determinization.Reachable(a, initial, y) ensures !a[y].isFinal {
      var ps :| Determinization.WalkTo(a, initial, ps, y);
      WalkListed(a, initial, list, ps, y, |ps| - 1);
    }
  }

  /** A merge leaves no listed state final when no old listed state was. */
  lemma HistoryNoneFinal<T>(a0: Arena<T>, list0: seq<nat>, i0: nat, a: Arena<T>, initial: nat, list: seq<nat>,
                            m: map<nat, nat>, stamp: map<nat, nat>, clock: nat, eq: (T, T) -> bool)
    requires History(a0, Elements(list0), i0, a, initial, list, m, stamp, clock, eq) && NoneFinal(a0, list0)
    ensures NoneFinal(a, list)
  {
    forall r | r in list && r < |a| ensures !a[r].isFinal {
      assert !HasFinal(a0, Elements(list0), m, stamp, clock, r);
    }
  }

  /** With no listed state final, no sequence is accepted from a listed state. */
  lemma {:induction false} NoneAccepted<T>(a: Arena<T>, initial: nat, list: seq<nat>, s: nat, sq: seq<T>, i: nat, eq: (T, T) -> bool)
    requires Closed(a) && Shut(a, initial, list) && NoneFinal(a, list) && s in list && i <= |sq|
    ensures !Accepts(a, true, s, sq, i, eq)
    decreases |sq| - i, 1
  {
    if i < |sq| {
      NoneAcceptedVia(a, initial, list, s, sq, i, 0, eq);
    }
  }

  lemma {:induction false} NoneAcceptedVia<T>(a: Arena<T>, initial: nat, list: seq<nat>, s: nat, sq: seq<T>, i: nat, k: nat, eq: (T, T) -> bool)
    requires Closed(a) && Shut(a, initial, list) && NoneFinal(a, list) && s in list && i < |sq|
    ensures !AcceptsVia(a, true, s, sq, i, k, eq)
    decreases |sq| - i, 0, |a[s].transitions| - k
  {
    if k < |a[s].transitions| {
      assert LeadsInto(a[s].transitions, set y | y in list);
      NoneAccepted(a, initial, list, a[s].transitions[k].dest, sq, i + 1, eq);
      NoneAcceptedVia(a, initial, list, s, sq, i, k + 1, eq);
    }
  }

  /** A canonical snapshot with an empty queue is canonical under the empty map too. */
  lemma CanonicalForget<T>(g: Snapshot<T>, m: map<nat, nat>, stamp: map<nat, nat>, clock: nat)
    requires Canonical(g, m, stamp, clock) && g.queue == []
    ensures Canonical(g, map[], map[], 0)
  {
  }

  /** A valid automaton that lists all its states is canonical. */
  lemma IndicesCanonical<T>(a: Arena<T>, initial: nat)
    requires initial < |a| && Closed(a)
    ensures Canonical(Snapshot(a, initial, Determinization.Indices(|a|), []), map[], map[], 0)
  {
    var list := Determinization.Indices(|a|);
    var S := set y | y in list;
    forall y: nat | y < |a| ensures y in S {
      assert list[y] == y;
    }
    assert list[initial] == initial;
    forall x | x in list ensures x < |a| && LeadsInto(a[x].transitions, S) {
      forall k | 0 <= k < |a[x].transitions| ensures a[x].transitions[k].dest in S {
        assert a[x].transitions[k].dest < |a|;
      }
    }
  }

  /**
   * After a merge: `determinization` and then `minimization`, as `generalize`
   * does after every productive reduction. When no listed state was final
   * and the list was shut, no listed state is final afterwards.
   */
  method Rebuild<T(!new)>(aut: Automaton<T>, eq: (T, T) -> bool)
    requires aut.Valid() && Determinization.Equivalence(eq)
    modifies aut
    ensures Canonical(Snapshot(aut.states, aut.initial, aut.allStates, []), map[], map[], 0)
    ensures Shut(old(aut.states), old(aut.initial), old(aut.allStates)) && NoneFinal(old(aut.states), old(aut.allStates)) ==>
      NoneFinal(aut.states, aut.allStates)
  {
    ghost var a0, i0, list0, n0 := aut.states, aut.initial, aut.allStates, aut.nextId;
    var memo, keys := Determinization.Determinize(aut, eq);
    ghost var a1 := aut.states;
    if Shut(a0, i0, list0) && NoneFinal(a0, list0) {
      DeterminizedNoneFinal(a0, i0, list0, n0, memo, a1, keys, eq);
    }
    IndicesCanonical(aut.states, aut.initial);
    var m, stamp, clock := Minimization.Minimize(aut, eq);
    if NoneFinal(a1, Determinization.Indices(|a1|)) {
      HistoryNoneFinal(a1, Determinization.Indices(|a1|), 0, aut.states, aut.initial, aut.allStates, m, stamp, clock, eq);
    }
    CanonicalForget(Snapshot(aut.states, aut.initial, aut.allStates, []), m, stamp, clock);
  }

  /**
   * The inner loop of a round: `generalizeII` and `Rebuild` while the
   * reduction reports a change, one unit of `left` per rebuild; when none is
   * left the loop gives up after the rebuild.
   */
  method RepeatII<T(==,!new)>(aut: Automaton<T>, eq: (T, T) -> bool, left: nat) returns (any: bool, left': nat, exhausted: bool)
    requires Canonical(Snapshot(aut.states, aut.initial, aut.allStates, []), map[], map[], 0) && Determinization.Equivalence(eq)
    modifies aut
    ensures Canonical(Snapshot(aut.states, aut.initial, aut.allStates, []), map[], map[], 0)
    ensures left' <= left && (exhausted ==> any) && (any && !exhausted ==> left' < left)
    ensures !exhausted ==> !Similar(aut.states, aut.allStates)
    ensures !any ==> aut.states == old(aut.states) && aut.initial == old(aut.initial) && aut.allStates == old(aut.allStates)
    ensures NoneFinal(old(aut.states), old(aut.allStates)) ==> NoneFinal(aut.states, aut.allStates)
  {
    any, left', exhausted := false, left, false;
    var more := true;
    while more
      invariant Canonical(Snapshot(aut.states, aut.initial, aut.allStates, []), map[], map[], 0)
      invariant left' <= left && (any ==> left' < left) && !exhausted
      invariant !more ==> !Similar(aut.states, aut.allStates)
      invariant !any ==> aut.states == old(aut.states) && aut.initial == old(aut.initial) && aut.allStates == old(aut.allStates)
      invariant NoneFinal(old(aut.states), old(aut.allStates)) ==> NoneFinal(aut.states, aut.allStates)
      decreases left' + (if more then 1 else 0)
    {
      var changed;
      ghost var a0, list0 := aut.states, aut.allStates;
      ghost var m, stamp, clock;
      changed, m, stamp, clock := GeneralizeII(aut, eq);
      if changed {
        any := true;
        CanonicalShut(Snapshot(aut.states, aut.initial, aut.allStates, []), m, stamp, clock);
        if NoneFinal(a0, list0) {
          HistoryNoneFinal(a0, list0, aut.initial, aut.states, aut.initial, aut.allStates, m, stamp, clock, eq);
        }
        Rebuild(aut, eq);
        if left' == 0 {
          exhausted := true;
          return;
        }
        left' := left' - 1;
      } else {
        more := false;
      }
    }
  }

  /** One round of the `dirty` loop: `generalizeI`, rebuilt if it changed something, then `RepeatII`. */
  method Round<T(==,!new)>(aut: Automaton<T>, eq: (T, T) -> bool, left: nat) returns (dirty: bool, left': nat, exhausted: bool)
    requires Canonical(Snapshot(aut.states, aut.initial, aut.allStates, []), map[], map[], 0) && Determinization.Equivalence(eq)
    modifies aut
    ensures Canonical(Snapshot(aut.states, aut.initial, aut.allStates, []), map[], map[], 0)
    ensures left' <= left && (exhausted ==> dirty) && (dirty && !exhausted ==> left' < left)
    ensures !dirty ==> Settled(aut.states, aut.allStates)
    ensures !dirty ==> aut.states == old(aut.states) && aut.initial == old(aut.initial) && aut.allStates == old(aut.allStates)
    ensures NoneFinal(old(aut.states), old(aut.allStates)) ==> NoneFinal(aut.states, aut.allStates)
  {
    dirty, left', exhausted := false, left, false;
    var changed;
    ghost var a0, list0 := aut.states, aut.allStates;
    ghost var m, stamp, clock;
    changed, m, stamp, clock := GeneralizeI(aut, eq);
    if changed {
      dirty := true;
      CanonicalShut(Snapshot(aut.states, aut.initial, aut.allStates, []), m, stamp, clock);
      if NoneFinal(a0, list0) {
        HistoryNoneFinal(a0, list0, old(aut.initial), aut.states, aut.initial, aut.allStates, m, stamp, clock, eq);
      }
      Rebuild(aut, eq);
      if left' == 0 {
        exhausted := true;
        return;
      }
      left' := left' - 1;
    }
    var any;
    any, left', exhausted := RepeatII(aut, eq, left');
    dirty := dirty || any;
  }

  /**
   * The `dirty` loop of `generalize`: rounds run until one changes nothing;
   * at most `fuel` productive reductions are rebuilt before the loop gives
   * up. `merged` tells whether any reduction was productive.
   */
  method Rounds<T(==,!new)>(aut: Automaton<T>, eq: (T, T) -> bool, fuel: nat) returns (ghost stable: bool, merged: bool)
    requires Canonical(Snapshot(aut.states, aut.initial, aut.allStates, []), map[], map[], 0) && Determinization.Equivalence(eq)
    modifies aut
    ensures Canonical(Snapshot(aut.states, aut.initial, aut.allStates, []), map[], map[], 0)
    ensures stable ==> Settled(aut.states, aut.allStates)
    ensures !stable ==> merged
    ensures !merged ==> aut.states == old(aut.states) && aut.initial == old(aut.initial) && aut.allStates == old(aut.allStates)
    ensures NoneFinal(old(aut.states), old(aut.allStates)) ==> NoneFinal(aut.states, aut.allStates)
  {
    var dirty := true;
    var left := fuel;
    merged := false;
    while dirty
      invariant Canonical(Snapshot(aut.states, aut.initial, aut.allStates, []), map[], map[], 0)
      invariant !dirty ==> Settled(aut.states, aut.allStates)
      invariant !merged ==> aut.states == old(aut.states) && aut.initial == old(aut.initial) && aut.allStates == old(aut.allStates)
      invariant NoneFinal(old(aut.states), old(aut.allStates)) ==> NoneFinal(aut.states, aut.allStates)
      decreases left + (if dirty then 1 else 0)
    {
      var exhausted;
      dirty, left, exhausted := Round(aut, eq, left);
      merged := merged || dirty;
      if exhausted {
        break;
      }
    }
    stable := !dirty;
  }

  /**
   * `generalize(automaton)`: the listed states are made non-final, then the
   * `dirty` loop runs.
   *
   * The states to mark final at the end are taken from the list read at the
   * start. The first productive reduction replaces every state, so the marks
   * then fall on states no longer in the automaton: it is left as rebuilt,
   * with no listed state final, and accepts no sequence at all.
   */
  method Generalize<T(==,!new)>(aut: Automaton<T>, eq: (T, T) -> bool, fuel: nat) returns (ghost stable: bool, ghost productive: bool)
    requires Canonical(Snapshot(aut.states, aut.initial, aut.allStates, []), map[], map[], 0) && Determinization.Equivalence(eq)
    modifies aut
    ensures aut.Valid()
    ensures stable ==> Settled(aut.states, aut.allStates)
    ensures !stable ==> productive
    ensures !productive ==> (stable && aut.initial == old(aut.initial) && aut.allStates == old(aut.allStates) &&
                             Marked(old(aut.states), old(aut.allStates), aut.states, true))
    ensures productive ==> NoneFinal(aut.states, aut.allStates) && forall sq :: !aut.AcceptsSequence(sq, eq)
  {
    var list0 := aut.allStates;
    ghost var a0 := aut.states;
    ClearFinal(aut, list0);
    CanonicalFinality(a0, aut.states, aut.initial, list0, map[], map[], 0);
    var merged;
    stable, merged := Rounds(aut, eq, fuel);
    productive := merged;
    if !merged {
      ghost var a1 := aut.states;
      MarkEnds(aut, list0);
      ClearThenMark(a0, list0, a1, aut.states);
      SettledFinality(a1, aut.states, list0);
    } else {
      CanonicalShut(Snapshot(aut.states, aut.initial, aut.allStates, []), map[], map[], 0);
      forall sq ensures !aut.AcceptsSequence(sq, eq) {
        NoneAccepted(aut.states, aut.initial, aut.allStates, aut.initial, sq, 0, eq);
      }
    }
  }

  /**
   * `generalize` as evidently intended: the final marking runs over the
   * states the automaton lists at the end, so each listed state is final
   * exactly when it has no transitions, whether or not a reduction merged.
   */
  method GeneralizeLive<T(==,!new)>(aut: Automaton<T>, eq: (T, T) -> bool, fuel: nat) returns (ghost stable: bool)
    requires Canonical(Snapshot(aut.states, aut.initial, aut.allStates, []), map[], map[], 0) && Determinization.Equivalence(eq)
    modifies aut
    ensures aut.Valid()
    ensures stable ==> Settled(aut.states, aut.allStates)
    ensures forall x :: x in aut.allStates ==> x < |aut.states| && (aut.states[x].isFinal <==> aut.states[x].transitions == [])
  {
    ghost var a0 := aut.states;
    ClearFinal(aut, aut.allStates);
    CanonicalFinality(a0, aut.states, aut.initial, aut.allStates, map[], map[], 0);
    var merged;
    stable, merged := Rounds(aut, eq, fuel);
    ghost var a1 := aut.states;
    MarkEnds(aut, aut.allStates);
    SettledFinality(a1, aut.states, aut.allStates);
  }
}

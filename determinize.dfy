// Subset construction of reverx/src/automata/Operations.java: `determinization`
// and `determinization_rec`.
//
// A set of old states (`UnionStates`) is a `set<nat>` of arena indices; the map
// `new_states` from such sets to new states is `memo`, whose values index the new
// arena. The iteration order of the Java hash sets and hash maps is modelled as
// ascending index order for the states and as first-insertion order for the
// per-symbol groups.
module Determinization {
  import opened Wrappers
  import opened Automata

  // ---------------------------------------------------------------------
  // Walking a set of states
  // ---------------------------------------------------------------------

  lemma {:induction false} LeastBelow(s: set<nat>, b: nat)
    requires b in s
    ensures exists m :: m in s && forall x :: x in s ==> m <= x
    decreases b
  {
    if z :| z in s && z < b {
      LeastBelow(s, z);
    } else {
      assert forall x :: x in s ==> b <= x;
    }
  }

  /** The smallest index of a non-empty set. */
  function Least(s: set<nat>): (m: nat)
    requires s != {}
    ensures m in s && forall x :: x in s ==> m <= x
  {
    var y :| y in s;
    LeastBelow(s, y);
    var m :| m in s && forall x :: x in s ==> m <= x; m
  }

  /** The members of a set of states, in ascending order: the order `for (State state : states)` visits them in. */
  function StateList(s: set<nat>): (r: seq<nat>)
    decreases |s|
  {
    if s == {} then [] else [Least(s)] + StateList(s - {Least(s)})
  }

  lemma {:induction false} StateListMembers(s: set<nat>)
    ensures forall x :: x in StateList(s) <==> x in s
    decreases |s|
  {
    if s != {} {
      StateListMembers(s - {Least(s)});
    }
  }

  predicate AllIn<T(!new)>(xs: seq<nat>, a: Arena<T>)
  {
    forall i :: 0 <= i < |xs| ==> xs[i] < |a|
  }

  lemma {:induction false} StateListIn<T(!new)>(a: Arena<T>, K: set<nat>)
    requires forall x :: x in K ==> x < |a|
    ensures AllIn(StateList(K), a)
  {
    StateListMembers(K);
    var xs := StateList(K);
    assert forall i :: 0 <= i < |xs| ==> xs[i] in xs;
  }

  /** The transitions of the listed states, one state after another. */
  function Outgoing<T(!new)>(a: Arena<T>, xs: seq<nat>): seq<Transition<T>>
    requires AllIn(xs, a)
  {
    if xs == [] then [] else Outgoing(a, xs[..|xs| - 1]) + a[xs[|xs| - 1]].transitions
  }

  /** One of the listed states has the transition `t`. */
  ghost predicate Listed<T(!new)>(a: Arena<T>, xs: seq<nat>, t: Transition<T>)
    requires AllIn(xs, a)
  {
    exists i :: 0 <= i < |xs| && t in a[xs[i]].transitions
  }

  /** A transition is outgoing from the listed states iff one of them has it. */
  lemma {:induction false} OutgoingMembers<T(!new)>(a: Arena<T>, xs: seq<nat>, t: Transition<T>)
    requires AllIn(xs, a)
    ensures t in Outgoing(a, xs) <==> Listed(a, xs, t)
  {
    if xs != [] {
      var n := |xs| - 1;
      var ys := xs[..n];
      OutgoingMembers(a, ys, t);
      assert Outgoing(a, xs) == Outgoing(a, ys) + a[xs[n]].transitions;
      if t in Outgoing(a, ys) {
        var i :| 0 <= i < n && t in a[ys[i]].transitions;
        assert ys[i] == xs[i];
      }
      if Listed(a, xs, t) {
        var i :| 0 <= i < |xs| && t in a[xs[i]].transitions;
        if i < n {
          assert ys[i] == xs[i];
          assert Listed(a, ys, t);
        }
      }
    }
  }

  predicate DestsIn<T(!new)>(ts: seq<Transition<T>>, a: Arena<T>)
  {
    forall i :: 0 <= i < |ts| ==> ts[i].dest < |a|
  }

  lemma {:induction false} OutgoingDests<T(!new)>(a: Arena<T>, xs: seq<nat>)
    requires Closed(a) && AllIn(xs, a)
    ensures DestsIn(Outgoing(a, xs), a)
  {
    if xs != [] {
      var n := |xs| - 1;
      OutgoingDests(a, xs[..n]);
      var p: seq<Transition<T>> := Outgoing(a, xs[..n]);
      var ts: seq<Transition<T>> := a[xs[n]].transitions;
      assert Outgoing(a, xs) == p + ts;
      forall i | 0 <= i < |p + ts| ensures (p + ts)[i].dest < |a| {
        if i >= |p| {
          assert (p + ts)[i] == ts[i - |p|];
        }
      }
    }
  }

  // ---------------------------------------------------------------------
  // Grouping the outgoing transitions by symbol (`defined_symbols`)
  // ---------------------------------------------------------------------

  /**
   * One entry of `defined_symbols`: the symbol, the `UnionStates` of destinations
   * reached by it, its accumulated `freq` and its `is_final` flag.
   */
  datatype Union<T> = Union(key: T, members: set<nat>, freq: int, isFinal: bool)

  /** `defined_symbols.get(key)`: the first group whose key the symbol equals. */
  function Find<T(!new)>(gs: seq<Union<T>>, x: T, eq: (T, T) -> bool): (r: Option<nat>)
    ensures r.Some? ==> r.value < |gs| && eq(x, gs[r.value].key)
    ensures r.Some? ==> forall j :: 0 <= j < r.value ==> !eq(x, gs[j].key)
    ensures r.None? <==> forall j :: 0 <= j < |gs| ==> !eq(x, gs[j].key)
  {
    if gs == [] then None
    else if eq(x, gs[0].key) then Some(0)
    else match Find(gs[1..], x, eq)
      case None => None
      case Some(k) => Some(k + 1)
  }

  /** One pass of the inner loop: add the destination, the frequency and the finality of `t` to its group. */
  function AddTo<T(!new)>(gs: seq<Union<T>>, t: Transition<T>, destFinal: bool, eq: (T, T) -> bool): seq<Union<T>>
  {
    match Find(gs, t.symbol, eq)
      case None => gs + [Union(t.symbol, {t.dest}, 0 + t.freq, destFinal)]
      case Some(j) => gs[j := Union(gs[j].key, gs[j].members + {t.dest}, gs[j].freq + t.freq, gs[j].isFinal || destFinal)]
  }

  /** `defined_symbols` after the transitions `ts` were visited in order. */
  function Groups<T(!new)>(a: Arena<T>, ts: seq<Transition<T>>, eq: (T, T) -> bool): seq<Union<T>>
    requires DestsIn(ts, a)
  {
    if ts == [] then []
    else
      var n := |ts| - 1;
      AddTo(Groups(a, ts[..n], eq), ts[n], a[ts[n].dest].isFinal, eq)
  }

  lemma {:induction false} GroupsSnoc<T(!new)>(a: Arena<T>, ts: seq<Transition<T>>, t: Transition<T>, eq: (T, T) -> bool)
    requires DestsIn(ts, a) && t.dest < |a|
    ensures DestsIn(ts + [t], a)
    ensures Groups(a, ts + [t], eq) == AddTo(Groups(a, ts, eq), t, a[t.dest].isFinal, eq)
  {
    assert (ts + [t])[..|ts|] == ts;
  }

  /** Java's `equals` on symbols, as a `HashMap` key needs it: reflexive, symmetric and transitive. */
  ghost predicate Equivalence<T(!new)>(eq: (T, T) -> bool)
  {
    (forall x :: eq(x, x)) &&
    (forall x, y :: eq(x, y) ==> eq(y, x)) &&
    (forall x, y, z {:trigger Chain(eq, x, y, z)} :: Chain(eq, x, y, z) ==> eq(x, z))
  }

  /** `x` equals `y` and `y` equals `z`: transitivity is applied only where a proof names this chain. */
  ghost predicate Chain<T(!new)>(eq: (T, T) -> bool, x: T, y: T, z: T)
  {
    eq(x, y) && eq(y, z)
  }

  lemma {:induction false} EqTrans<T(!new)>(eq: (T, T) -> bool, x: T, y: T, z: T)
    requires Equivalence(eq) && eq(x, y) && eq(y, z)
    ensures eq(x, z)
  {
    assert Chain(eq, x, y, z);
  }

  lemma {:induction false} EqRewire<T(!new)>(eq: (T, T) -> bool, x: T, y: T, z: T)
    requires Equivalence(eq) && eq(y, x) && eq(y, z)
    ensures eq(x, z)
  {
    EqTrans(eq, x, y, z);
  }

  /** Reference definition: the destinations of the transitions whose symbol equals `x`. */
  function ImageOf<T(!new)>(ts: seq<Transition<T>>, x: T, eq: (T, T) -> bool): set<nat>
  {
    if ts == [] then {}
    else
      var n := |ts| - 1;
      ImageOf(ts[..n], x, eq) + (if eq(ts[n].symbol, x) then {ts[n].dest} else {})
  }

  /** Reference definition: the summed frequency of the transitions whose symbol equals `x`. */
  function FreqOf<T(!new)>(ts: seq<Transition<T>>, x: T, eq: (T, T) -> bool): int
  {
    if ts == [] then 0
    else
      var n := |ts| - 1;
      FreqOf(ts[..n], x, eq) + (if eq(ts[n].symbol, x) then ts[n].freq else 0)
  }

  lemma {:induction false} ImageOfMembers<T(!new)>(ts: seq<Transition<T>>, x: T, eq: (T, T) -> bool)
    ensures forall d :: d in ImageOf(ts, x, eq) <==> exists i :: 0 <= i < |ts| && eq(ts[i].symbol, x) && ts[i].dest == d
  {
    if ts != [] {
      var n := |ts| - 1;
      ImageOfMembers(ts[..n], x, eq);
      forall d | (exists i :: 0 <= i < |ts| && eq(ts[i].symbol, x) && ts[i].dest == d) ensures d in ImageOf(ts, x, eq) {
        var i :| 0 <= i < |ts| && eq(ts[i].symbol, x) && ts[i].dest == d;
        if i < n {
          assert ts[..n][i] == ts[i];
        }
      }
    }
  }

  /** The keys of the groups are pairwise different under `eq`. */
  ghost predicate KeysDistinct<T(!new)>(gs: seq<Union<T>>, eq: (T, T) -> bool)
  {
    forall i, j :: 0 <= i < j < |gs| ==> !eq(gs[j].key, gs[i].key)
  }

  /** The visited transition `t` landed in a group whose key its symbol equals. */
  ghost predicate CoveredBy<T(!new)>(gs: seq<Union<T>>, t: Transition<T>, eq: (T, T) -> bool)
  {
    exists j :: 0 <= j < |gs| && eq(t.symbol, gs[j].key) && t.dest in gs[j].members
  }

  ghost predicate Covers<T(!new)>(gs: seq<Union<T>>, ts: seq<Transition<T>>, eq: (T, T) -> bool)
  {
    forall i :: 0 <= i < |ts| ==> CoveredBy(gs, ts[i], eq)
  }

  /** The group `g` holds exactly the image, frequency and finality its key has in `ts`. */
  ghost predicate ExactAt<T(!new)>(a: Arena<T>, g: Union<T>, ts: seq<Transition<T>>, eq: (T, T) -> bool)
  {
    g.members == ImageOf(ts, g.key, eq) && g.freq == FreqOf(ts, g.key, eq) &&
    g.members != {} &&
    (forall d :: d in g.members ==> d < |a|) &&
    (g.isFinal <==> exists d :: d in g.members && a[d].isFinal)
  }

  ghost predicate Exact<T(!new)>(a: Arena<T>, gs: seq<Union<T>>, ts: seq<Transition<T>>, eq: (T, T) -> bool)
  {
    forall j :: 0 <= j < |gs| ==> ExactAt(a, gs[j], ts, eq)
  }

  lemma {:induction false} ImageSnoc<T(!new)>(ts: seq<Transition<T>>, t: Transition<T>, x: T, eq: (T, T) -> bool)
    ensures ImageOf(ts + [t], x, eq) == ImageOf(ts, x, eq) + (if eq(t.symbol, x) then {t.dest} else {})
    ensures FreqOf(ts + [t], x, eq) == FreqOf(ts, x, eq) + (if eq(t.symbol, x) then t.freq else 0)
  {
    assert (ts + [t])[..|ts|] == ts;
  }

  lemma {:induction false} NoKeyNoImage<T(!new)>(gs: seq<Union<T>>, ts: seq<Transition<T>>, x: T, eq: (T, T) -> bool)
    requires Equivalence(eq) && Covers(gs, ts, eq)
    requires forall j :: 0 <= j < |gs| ==> !eq(x, gs[j].key)
    ensures forall i :: 0 <= i < |ts| ==> !eq(ts[i].symbol, x)
  {
    forall i | 0 <= i < |ts| ensures !eq(ts[i].symbol, x) {
      assert CoveredBy(gs, ts[i], eq);
      var j :| 0 <= j < |gs| && eq(ts[i].symbol, gs[j].key) && ts[i].dest in gs[j].members;
      if eq(ts[i].symbol, x) {
        EqRewire(eq, x, ts[i].symbol, gs[j].key);
      }
    }
  }

  lemma {:induction false} NoMatchEmpty<T(!new)>(ts: seq<Transition<T>>, x: T, eq: (T, T) -> bool)
    requires forall i :: 0 <= i < |ts| ==> !eq(ts[i].symbol, x)
    ensures ImageOf(ts, x, eq) == {} && FreqOf(ts, x, eq) == 0
  {
    if ts != [] {
      NoMatchEmpty(ts[..|ts| - 1], x, eq);
    }
  }

  /** A group whose key `t`'s symbol does not equal is exact before `t` iff after it. */
  lemma {:induction false} ExactSkip<T(!new)>(a: Arena<T>, g: Union<T>, ts: seq<Transition<T>>, t: Transition<T>, eq: (T, T) -> bool)
    requires ExactAt(a, g, ts, eq) && !eq(t.symbol, g.key)
    ensures ExactAt(a, g, ts + [t], eq)
  {
    ImageSnoc(ts, t, g.key, eq);
  }

  /** The step of `GroupsCorrect` where `t` opens a new group. */
  lemma {:induction false} AddNew<T(!new)>(a: Arena<T>, gs: seq<Union<T>>, ts: seq<Transition<T>>, t: Transition<T>, eq: (T, T) -> bool)
    requires Equivalence(eq) && DestsIn(ts, a) && t.dest < |a|
    requires KeysDistinct(gs, eq) && Covers(gs, ts, eq) && Exact(a, gs, ts, eq)
    requires Find(gs, t.symbol, eq).None?
    ensures var gs' := AddTo(gs, t, a[t.dest].isFinal, eq);
      KeysDistinct(gs', eq) && Covers(gs', ts + [t], eq) && Exact(a, gs', ts + [t], eq)
  {
    var g := Union(t.symbol, {t.dest}, t.freq, a[t.dest].isFinal);
    var gs' := gs + [g];
    var ts' := ts + [t];
    assert AddTo(gs, t, a[t.dest].isFinal, eq) == gs';
    NoKeyNoImage(gs, ts, t.symbol, eq);
    NoMatchEmpty(ts, t.symbol, eq);
    ImageSnoc(ts, t, t.symbol, eq);
    assert ExactAt(a, g, ts', eq);
    forall j | 0 <= j < |gs'| ensures ExactAt(a, gs'[j], ts', eq) {
      if j < |gs| {
        ExactSkip(a, gs[j], ts, t, eq);
      }
    }
    forall i | 0 <= i < |ts'| ensures CoveredBy(gs', ts'[i], eq) {
      if i < |ts| {
        assert CoveredBy(gs, ts[i], eq);
        var j :| 0 <= j < |gs| && eq(ts[i].symbol, gs[j].key) && ts[i].dest in gs[j].members;
        assert gs'[j] == gs[j];
      } else {
        assert gs'[|gs|] == g;
      }
    }
  }

  /** In the step where `t` joins group `j0`, no other key equals `t`'s symbol. */
  lemma {:induction false} OthersDiffer<T(!new)>(gs: seq<Union<T>>, x: T, j0: nat, eq: (T, T) -> bool)
    requires Equivalence(eq) && KeysDistinct(gs, eq)
    requires Find(gs, x, eq) == Some(j0)
    ensures forall j :: 0 <= j < |gs| && j != j0 ==> !eq(x, gs[j].key)
  {
    forall j | 0 <= j < |gs| && j != j0 ensures !eq(x, gs[j].key) {
      if j > j0 && eq(x, gs[j].key) {
        EqRewire(eq, gs[j].key, x, gs[j0].key);
      }
    }
  }

  /** Group `j0` after `t` joined it. */
  function Joined<T>(a: Arena<T>, g: Union<T>, t: Transition<T>): Union<T>
    requires t.dest < |a|
  {
    Union(g.key, g.members + {t.dest}, g.freq + t.freq, g.isFinal || a[t.dest].isFinal)
  }

  lemma {:induction false} ExactJoined<T(!new)>(a: Arena<T>, gs: seq<Union<T>>, ts: seq<Transition<T>>, t: Transition<T>, j0: nat, eq: (T, T) -> bool)
    requires Equivalence(eq) && t.dest < |a| && KeysDistinct(gs, eq) && Exact(a, gs, ts, eq)
    requires Find(gs, t.symbol, eq) == Some(j0)
    ensures Exact(a, gs[j0 := Joined(a, gs[j0], t)], ts + [t], eq)
  {
    var gs' := gs[j0 := Joined(a, gs[j0], t)];
    OthersDiffer(gs, t.symbol, j0, eq);
    assert ExactAt(a, gs[j0], ts, eq);
    ImageSnoc(ts, t, gs[j0].key, eq);
    forall j | 0 <= j < |gs'| ensures ExactAt(a, gs'[j], ts + [t], eq) {
      if j != j0 {
        ExactSkip(a, gs[j], ts, t, eq);
      }
    }
  }

  lemma {:induction false} CoversJoined<T(!new)>(a: Arena<T>, gs: seq<Union<T>>, ts: seq<Transition<T>>, t: Transition<T>, j0: nat, eq: (T, T) -> bool)
    requires t.dest < |a| && Covers(gs, ts, eq)
    requires Find(gs, t.symbol, eq) == Some(j0)
    ensures Covers(gs[j0 := Joined(a, gs[j0], t)], ts + [t], eq)
  {
    var gs' := gs[j0 := Joined(a, gs[j0], t)];
    var ts' := ts + [t];
    forall i | 0 <= i < |ts'| ensures CoveredBy(gs', ts'[i], eq) {
      if i < |ts| {
        assert CoveredBy(gs, ts[i], eq);
        var j :| 0 <= j < |gs| && eq(ts[i].symbol, gs[j].key) && ts[i].dest in gs[j].members;
        assert ts'[i].dest in gs'[j].members;
      } else {
        assert eq(ts'[i].symbol, gs'[j0].key) && ts'[i].dest in gs'[j0].members;
      }
    }
  }

  lemma {:induction false} AddToJoined<T(!new)>(a: Arena<T>, gs: seq<Union<T>>, t: Transition<T>, eq: (T, T) -> bool)
    requires t.dest < |a| && Find(gs, t.symbol, eq).Some?
    ensures AddTo(gs, t, a[t.dest].isFinal, eq) == gs[Find(gs, t.symbol, eq).value := Joined(a, gs[Find(gs, t.symbol, eq).value], t)]
  {
  }

  /** The step of `GroupsCorrect` where `t` joins the group `Find` returns. */
  lemma {:induction false} AddOld<T(!new)>(a: Arena<T>, gs: seq<Union<T>>, ts: seq<Transition<T>>, t: Transition<T>, eq: (T, T) -> bool)
    requires Equivalence(eq) && DestsIn(ts, a) && t.dest < |a|
    requires KeysDistinct(gs, eq) && Covers(gs, ts, eq) && Exact(a, gs, ts, eq)
    requires Find(gs, t.symbol, eq).Some?
    ensures var gs' := AddTo(gs, t, a[t.dest].isFinal, eq);
      KeysDistinct(gs', eq) && Covers(gs', ts + [t], eq) && Exact(a, gs', ts + [t], eq)
  {
    var j0 := Find(gs, t.symbol, eq).value;
    var gs' := gs[j0 := Joined(a, gs[j0], t)];
    AddToJoined(a, gs, t, eq);
    ExactJoined(a, gs, ts, t, j0, eq);
    CoversJoined(a, gs, ts, t, j0, eq);
    assert KeysDistinct(gs', eq) by {
      assert forall j :: 0 <= j < |gs| ==> gs'[j].key == gs[j].key;
    }
  }

  /** Each group is the image, the summed frequency and the finality of its symbol, and the keys differ. */
  lemma {:induction false} GroupsCorrect<T(!new)>(a: Arena<T>, ts: seq<Transition<T>>, eq: (T, T) -> bool)
    requires Equivalence(eq) && DestsIn(ts, a)
    ensures KeysDistinct(Groups(a, ts, eq), eq)
    ensures Covers(Groups(a, ts, eq), ts, eq)
    ensures Exact(a, Groups(a, ts, eq), ts, eq)
  {
    if ts != [] {
      var n := |ts| - 1;
      assert ts == ts[..n] + [ts[n]];
      GroupsCorrect(a, ts[..n], eq);
      if Find(Groups(a, ts[..n], eq), ts[n].symbol, eq).None? {
        AddNew(a, Groups(a, ts[..n], eq), ts[..n], ts[n], eq);
      } else {
        AddOld(a, Groups(a, ts[..n], eq), ts[..n], ts[n], eq);
      }
    }
  }

  // ---------------------------------------------------------------------
  // Termination: the memo only grows, inside the finite set of subsets
  // ---------------------------------------------------------------------

  predicate Within(K: set<nat>, n: nat)
  {
    forall x :: x in K ==> x < n
  }

  ghost function WithMember(P: set<set<nat>>, x: nat): set<set<nat>>
  {
    set K | K in P :: K + {x}
  }

  lemma {:induction false} InWithMember(P: set<set<nat>>, L: set<nat>, x: nat)
    requires L in P
    ensures L + {x} in WithMember(P, x)
  {
  }

  /** Every subset of the indices below `n`. */
  ghost function Subsets(n: nat): set<set<nat>>
  {
    if n == 0 then {{}} else Subsets(n - 1) + WithMember(Subsets(n - 1), n - 1)
  }

  lemma {:induction false} InSubsets(K: set<nat>, n: nat)
    requires Within(K, n)
    ensures K in Subsets(n)
  {
    if n > 0 {
      var P := Subsets(n - 1);
      assert Subsets(n) == P + WithMember(P, n - 1);
      if n - 1 in K {
        var L := K - {n - 1};
        InSubsets(L, n - 1);
        InWithMember(P, L, n - 1);
        assert K == L + {n - 1};
        assert K in WithMember(P, n - 1);
      } else {
        InSubsets(K, n - 1);
        assert K in P;
      }
    } else {
      assert K == {};
    }
  }

  // ---------------------------------------------------------------------
  // The state of the construction
  // ---------------------------------------------------------------------

  /** `defined_symbols` for the set `K`: its states in ascending order, their transitions in list order. */
  function GroupsOf<T(!new)>(a: Arena<T>, K: set<nat>, eq: (T, T) -> bool): seq<Union<T>>
    requires Closed(a) && Within(K, |a|)
  {
    StateListIn(a, K);
    OutgoingDests(a, StateList(K));
    Groups(a, Outgoing(a, StateList(K)), eq)
  }

  /** The first `n` groups became transitions `ts`, to the memoised states of their `UnionStates`. */
  ghost predicate ConnectedUpTo<T>(memo: map<set<nat>, nat>, ts: seq<Transition<T>>, gs: seq<Union<T>>, n: nat)
  {
    n <= |gs| && |ts| == n &&
    forall k :: 0 <= k < n ==> gs[k].members in memo && ts[k] == Transition(gs[k].key, memo[gs[k].members], gs[k].freq)
  }

  ghost predicate MapExtends(memo: map<set<nat>, nat>, memo': map<set<nat>, nat>)
  {
    forall K :: K in memo ==> K in memo' && memo'[K] == memo[K]
  }

  lemma {:induction false} ConnectedExtends<T>(memo: map<set<nat>, nat>, memo': map<set<nat>, nat>, ts: seq<Transition<T>>, gs: seq<Union<T>>, n: nat)
    requires ConnectedUpTo(memo, ts, gs, n) && MapExtends(memo, memo')
    ensures ConnectedUpTo(memo', ts, gs, n)
  {
  }

  /**
   * The labels of new state `i` for the set `K`: the new initial state is non-final
   * with id 0; every other one is final iff a member is, and keeps its member's
   * id when it has exactly one, else the `NEXT_ID` value it was created with.
   */
  ghost predicate Labelled<T>(a: Arena<T>, base: int, i: nat, K: set<nat>, r: StateRec<T>)
    requires Within(K, |a|) && K != {}
  {
    if i == 0 then !r.isFinal && r.id == 0
    else
      (r.isFinal <==> exists m :: m in K && a[m].isFinal) &&
      r.id == (if |K| == 1 then a[Least(K)].id else base + i)
  }

  /** Some transition of old state `p` leads to `q`. */
  ghost predicate Linked<T>(a: Arena<T>, p: nat, q: nat)
  {
    p < |a| && exists k :: 0 <= k < |a[p].transitions| && a[p].transitions[k].dest == q
  }

  /** The states `ps` lead from `x` to `y`, each a destination of the one before. */
  ghost predicate WalkTo<T>(a: Arena<T>, x: nat, ps: seq<nat>, y: nat)
  {
    |ps| > 0 && ps[0] == x && ps[|ps| - 1] == y &&
    forall i :: 0 <= i < |ps| - 1 ==> Linked(a, ps[i], ps[i + 1])
  }

  ghost predicate Reachable<T>(a: Arena<T>, x: nat, y: nat)
  {
    exists ps :: WalkTo(a, x, ps, y)
  }

  /** Every member of `K` is reachable from `init`. */
  ghost predicate ReachedFrom<T>(a: Arena<T>, init: nat, K: set<nat>)
  {
    forall m :: m in K ==> Reachable(a, init, m)
  }

  /** A walk extends by one transition. */
  lemma ReachableStep<T>(a: Arena<T>, x: nat, m: nat, d: nat)
    requires Reachable(a, x, m) && Linked(a, m, d)
    ensures Reachable(a, x, d)
  {
    var ps :| WalkTo(a, x, ps, m);
    var ps' := ps + [d];
    forall i | 0 <= i < |ps'| - 1 ensures Linked(a, ps'[i], ps'[i + 1]) {
      if i < |ps| - 1 {
        assert ps'[i] == ps[i] && ps'[i + 1] == ps[i + 1];
      }
    }
    assert WalkTo(a, x, ps', d);
  }

  /** The destination sets grouped from reachable states hold reachable states only. */
  lemma GroupsReached<T(!new)>(a: Arena<T>, init: nat, K: set<nat>, eq: (T, T) -> bool)
    requires Equivalence(eq) && Closed(a) && Within(K, |a|) && ReachedFrom(a, init, K)
    ensures var gs := GroupsOf(a, K, eq);
      forall j :: 0 <= j < |gs| ==> ReachedFrom(a, init, gs[j].members)
  {
    StateListIn(a, K);
    OutgoingDests(a, StateList(K));
    var ts := Outgoing(a, StateList(K));
    GroupsCorrect(a, ts, eq);
    var gs := Groups(a, ts, eq);
    forall j, d | 0 <= j < |gs| && d in gs[j].members ensures Reachable(a, init, d) {
      assert ExactAt(a, gs[j], ts, eq);
      assert d in Image(a, K, gs[j].key, eq);
      ImageMembers(a, K, gs[j].key, eq, d);
      var m, q :| m in K && m < |a| && 0 <= q < |a[m].transitions| &&
        eq(a[m].transitions[q].symbol, gs[j].key) && a[m].transitions[q].dest == d;
      ReachableStep(a, init, m, d);
    }
  }

  /**
   * The invariant of the construction. `keys[i]` is the set of old states new
   * state `i` stands for, and `memo` is its inverse; `done` holds the new states
   * whose transitions are complete; `nextId` has advanced once per new state.
   */
  ghost predicate Inv<T(!new)>(a: Arena<T>, init: nat, base: int, memo: map<set<nat>, nat>, na: Arena<T>,
                               nextId: int, keys: seq<set<nat>>, done: set<nat>, eq: (T, T) -> bool)
  {
    Closed(a) && init < |a| && Closed(na) &&
    |keys| == |na| && |na| > 0 && keys[0] == {init} && nextId == base + |na| &&
    (forall K :: K in memo ==> memo[K] < |keys| && keys[memo[K]] == K) &&
    (forall i :: 0 <= i < |keys| ==> keys[i] in memo && memo[keys[i]] == i) &&
    (forall i :: 0 <= i < |keys| ==> keys[i] != {} && Within(keys[i], |a|) && Labelled(a, base, i, keys[i], na[i])) &&
    (forall i :: 0 <= i < |keys| ==> ReachedFrom(a, init, keys[i])) &&
    (forall i :: i in done ==> i < |na|) &&
    (forall i :: 0 <= i < |na| && i in done ==>
      ConnectedUpTo(memo, na[i].transitions, GroupsOf(a, keys[i], eq), |GroupsOf(a, keys[i], eq)|))
  }

  lemma {:induction false} SnocSlice<U>(p: seq<U>, ts: seq<U>, k: nat)
    requires k < |ts|
    ensures p + ts[..k + 1] == (p + ts[..k]) + [ts[k]]
  {
    assert ts[..k + 1] == ts[..k] + [ts[k]];
  }

  /** The loop that builds `defined_symbols`: states in ascending order, transitions in list order. */
  method DefinedSymbols<T(!new)>(a: Arena<T>, S: set<nat>, eq: (T, T) -> bool) returns (gs: seq<Union<T>>)
    requires Closed(a) && Within(S, |a|)
    ensures gs == GroupsOf(a, S, eq)
  {
    var xs := StateList(S);
    StateListIn(a, S);
    gs := [];
    for i := 0 to |xs|
      invariant DestsIn(Outgoing(a, xs[..i]), a)
      invariant gs == Groups(a, Outgoing(a, xs[..i]), eq)
    {
      gs := AddTransitions(a, gs, Outgoing(a, xs[..i]), a[xs[i]].transitions, eq);
      assert xs[..i + 1][..i] == xs[..i];
      OutgoingDests(a, xs[..i + 1]);
    }
    assert xs[..|xs|] == xs;
  }

  /** The inner loop: the groups after the transitions `ts` of one more state were visited. */
  method AddTransitions<T(!new)>(a: Arena<T>, gs0: seq<Union<T>>, ghost p: seq<Transition<T>>, ts: seq<Transition<T>>,
                                 eq: (T, T) -> bool) returns (gs: seq<Union<T>>)
    requires DestsIn(p, a) && DestsIn(ts, a) && gs0 == Groups(a, p, eq)
    ensures DestsIn(p + ts, a) && gs == Groups(a, p + ts, eq)
  {
    gs := gs0;
    assert p + ts[..0] == p;
    for k := 0 to |ts|
      invariant DestsIn(p + ts[..k], a)
      invariant gs == Groups(a, p + ts[..k], eq)
    {
      GroupsSnoc(a, p + ts[..k], ts[k], eq);
      SnocSlice(p, ts, k);
      gs := AddTo(gs, ts[k], a[ts[k].dest].isFinal, eq);
    }
    assert ts[..|ts|] == ts;
  }

  /** What `GroupsCorrect` gives for the groups of one set of states. */
  lemma {:induction false} GroupsOfCorrect<T(!new)>(a: Arena<T>, K: set<nat>, eq: (T, T) -> bool)
    requires Equivalence(eq) && Closed(a) && Within(K, |a|)
    ensures var gs := GroupsOf(a, K, eq);
      forall j :: 0 <= j < |gs| ==>
        gs[j].members != {} && Within(gs[j].members, |a|) &&
        (gs[j].isFinal <==> exists m :: m in gs[j].members && a[m].isFinal)
  {
    StateListIn(a, K);
    OutgoingDests(a, StateList(K));
    var ts := Outgoing(a, StateList(K));
    GroupsCorrect(a, ts, eq);
    var gs := Groups(a, ts, eq);
    forall j | 0 <= j < |gs| ensures Within(gs[j].members, |a|) {
      assert ExactAt(a, gs[j], ts, eq);
    }
  }

  lemma {:induction false} ConnectedSnoc<T>(memo: map<set<nat>, nat>, ts: seq<Transition<T>>, gs: seq<Union<T>>, j: nat)
    requires ConnectedUpTo(memo, ts, gs, j) && j < |gs| && gs[j].members in memo
    ensures ConnectedUpTo(memo, ts + [Transition(gs[j].key, memo[gs[j].members], gs[j].freq)], gs, j + 1)
  {
  }

  /** Registering a new state for the set `K` (`new_states.put`) keeps the invariant. */
  lemma {:induction false} InvAdd<T(!new)>(a: Arena<T>, init: nat, base: int, memo: map<set<nat>, nat>, na: Arena<T>,
                        nextId: int, keys: seq<set<nat>>, done: set<nat>, eq: (T, T) -> bool, K: set<nat>, r: StateRec<T>)
    requires Inv(a, init, base, memo, na, nextId, keys, done, eq)
    requires K !in memo && K != {} && Within(K, |a|) && Labelled(a, base, |na|, K, r) && r.transitions == []
    requires ReachedFrom(a, init, K)
    ensures Inv(a, init, base, memo[K := |na|], na + [r], nextId + 1, keys + [K], done, eq)
    ensures MapExtends(memo, memo[K := |na|])
  {
    var memo' := memo[K := |na|];
    var na' := na + [r];
    var keys' := keys + [K];
    forall i | 0 <= i < |na'| && i in done
      ensures ConnectedUpTo(memo', na'[i].transitions, GroupsOf(a, keys'[i], eq), |GroupsOf(a, keys'[i], eq)|)
    {
      assert na'[i] == na[i] && keys'[i] == keys[i];
      ConnectedExtends(memo, memo', na[i].transitions, GroupsOf(a, keys[i], eq), |GroupsOf(a, keys[i], eq)|);
    }
    forall i | 0 <= i < |keys'| ensures keys'[i] != {} && Within(keys'[i], |a|) && Labelled(a, base, i, keys'[i], na'[i]) && ReachedFrom(a, init, keys'[i]) {
      if i < |keys| {
        assert keys'[i] == keys[i] && na'[i] == na[i];
      }
    }
    assert Closed(na') by {
      forall s, k | 0 <= s < |na'| && 0 <= k < |na'[s].transitions| ensures na'[s].transitions[k].dest < |na'| {
        assert s < |na|;
        assert na'[s] == na[s];
      }
    }
  }

  /** Appending the transition `t` to the unfinished state `ti` keeps the invariant. */
  lemma {:induction false} InvPush<T(!new)>(a: Arena<T>, init: nat, base: int, memo: map<set<nat>, nat>, na: Arena<T>,
                         nextId: int, keys: seq<set<nat>>, done: set<nat>, eq: (T, T) -> bool, ti: nat, t: Transition<T>)
    requires Inv(a, init, base, memo, na, nextId, keys, done, eq)
    requires ti < |na| && ti !in done && t.dest < |na|
    ensures Inv(a, init, base, memo, na[ti := na[ti].(transitions := na[ti].transitions + [t])], nextId, keys, done, eq)
  {
    var na' := na[ti := na[ti].(transitions := na[ti].transitions + [t])];
    forall i | 0 <= i < |na'| && i in done
      ensures ConnectedUpTo(memo, na'[i].transitions, GroupsOf(a, keys[i], eq), |GroupsOf(a, keys[i], eq)|)
    {
      assert na'[i] == na[i];
    }
    forall i | 0 <= i < |keys| ensures Labelled(a, base, i, keys[i], na'[i]) {
      assert na'[i].isFinal == na[i].isFinal && na'[i].id == na[i].id;
    }
    assert Closed(na') by {
      forall s, k | 0 <= s < |na'| && 0 <= k < |na'[s].transitions| ensures na'[s].transitions[k].dest < |na'| {
        if s != ti {
          assert na'[s] == na[s];
        } else if k < |na[ti].transitions| {
          assert na'[s].transitions[k] == na[ti].transitions[k];
        }
      }
    }
  }

  /** State `ti` got one transition per group of its set: it is done. */
  lemma {:induction false} InvFinish<T(!new)>(a: Arena<T>, init: nat, base: int, memo: map<set<nat>, nat>, na: Arena<T>,
                           nextId: int, keys: seq<set<nat>>, done: set<nat>, eq: (T, T) -> bool, ti: nat)
    requires Inv(a, init, base, memo, na, nextId, keys, done, eq) && ti < |na|
    requires ConnectedUpTo(memo, na[ti].transitions, GroupsOf(a, keys[ti], eq), |GroupsOf(a, keys[ti], eq)|)
    ensures Inv(a, init, base, memo, na, nextId, keys, done + {ti}, eq)
  {
  }

  /**
   * `determinization_rec(states, new_states)`: build the transitions of the new
   * state for `S`, creating (and recursively completing) a new state for every
   * set of destinations not seen before. On return the new state for `S` and all
   * states created meanwhile are complete, and no other unfinished state changed.
   */
  method Rec<T(!new)>(a: Arena<T>, init: nat, base: int, S: set<nat>, memo: map<set<nat>, nat>, na: Arena<T>,
                      nextId: int, ghost keys: seq<set<nat>>, ghost done: set<nat>, eq: (T, T) -> bool)
    returns (memo': map<set<nat>, nat>, na': Arena<T>, nextId': int, ghost keys': seq<set<nat>>, ghost done': set<nat>)
    requires Equivalence(eq) && Inv(a, init, base, memo, na, nextId, keys, done, eq)
    requires S in memo && memo[S] !in done && na[memo[S]].transitions == []
    decreases Subsets(|a|) - memo.Keys, 3
    ensures Inv(a, init, base, memo', na', nextId', keys', done', eq)
    ensures keys <= keys' && MapExtends(memo, memo')
    ensures forall i :: i in done' <==> i in done || i == memo[S] || |keys| <= i < |keys'|
    ensures forall i :: 0 <= i < |na| && i !in done && i != memo[S] ==> na'[i] == na[i]
  {
    var ti := memo[S];
    var gs := DefinedSymbols(a, S, eq);
    GroupsOfCorrect(a, S, eq);
    GroupsReached(a, init, S, eq);
    memo', na', nextId', keys', done' := Connect(a, init, base, ti, gs, memo, na, nextId, keys, done, eq);
    assert keys'[ti] == S;
    InvFinish(a, init, base, memo', na', nextId', keys', done', eq, ti);
    done' := done' + {ti};
  }

  /** The loop over `defined_symbols`: one transition of state `ti` per group, in order. */
  method Connect<T(!new)>(a: Arena<T>, init: nat, base: int, ti: nat, gs: seq<Union<T>>, memo: map<set<nat>, nat>, na: Arena<T>,
                          nextId: int, ghost keys: seq<set<nat>>, ghost done: set<nat>, eq: (T, T) -> bool)
    returns (memo': map<set<nat>, nat>, na': Arena<T>, nextId': int, ghost keys': seq<set<nat>>, ghost done': set<nat>)
    requires Equivalence(eq) && Inv(a, init, base, memo, na, nextId, keys, done, eq)
    requires ti < |na| && ti !in done && na[ti].transitions == []
    requires forall j :: 0 <= j < |gs| ==>
      gs[j].members != {} && Within(gs[j].members, |a|) &&
      (gs[j].isFinal <==> exists m :: m in gs[j].members && a[m].isFinal)
    requires forall j :: 0 <= j < |gs| ==> ReachedFrom(a, init, gs[j].members)
    decreases Subsets(|a|) - memo.Keys, 2
    ensures Inv(a, init, base, memo', na', nextId', keys', done', eq)
    ensures keys <= keys' && MapExtends(memo, memo')
    ensures forall i :: i in done' <==> i in done || |keys| <= i < |keys'|
    ensures forall i :: 0 <= i < |na| && i !in done && i != ti ==> na'[i] == na[i]
    ensures ConnectedUpTo(memo', na'[ti].transitions, gs, |gs|)
  {
    memo', na', nextId', keys', done' := memo, na, nextId, keys, done;
    for j := 0 to |gs|
      invariant Inv(a, init, base, memo', na', nextId', keys', done', eq)
      invariant keys <= keys' && MapExtends(memo, memo')
      invariant forall i :: i in done' <==> i in done || |keys| <= i < |keys'|
      invariant forall i :: 0 <= i < |na| && i !in done && i != ti ==> na'[i] == na[i]
      invariant ConnectedUpTo(memo', na'[ti].transitions, gs, j)
    {
      ghost var m0, n0 := memo', na';
      memo', na', nextId', keys', done' := Link(a, init, base, ti, gs[j], memo', na', nextId', keys', done', eq);
      ConnectedExtends(m0, memo', n0[ti].transitions, gs, j);
      ConnectedSnoc(memo', n0[ti].transitions, gs, j);
    }
  }

  /**
   * One pass of the loop over `defined_symbols`: find or create the new state for
   * the group's `UnionStates`, then append the transition to it from state `ti`.
   */
  method Link<T(!new)>(a: Arena<T>, init: nat, base: int, ti: nat, g: Union<T>, memo: map<set<nat>, nat>, na: Arena<T>,
                       nextId: int, ghost keys: seq<set<nat>>, ghost done: set<nat>, eq: (T, T) -> bool)
    returns (memo': map<set<nat>, nat>, na': Arena<T>, nextId': int, ghost keys': seq<set<nat>>, ghost done': set<nat>)
    requires Equivalence(eq) && Inv(a, init, base, memo, na, nextId, keys, done, eq)
    requires ti < |na| && ti !in done
    requires g.members != {} && Within(g.members, |a|) && (g.isFinal <==> exists m :: m in g.members && a[m].isFinal)
    requires ReachedFrom(a, init, g.members)
    decreases Subsets(|a|) - memo.Keys, 1
    ensures Inv(a, init, base, memo', na', nextId', keys', done', eq)
    ensures keys <= keys' && MapExtends(memo, memo') && g.members in memo'
    ensures forall i :: i in done' <==> i in done || |keys| <= i < |keys'|
    ensures forall i :: 0 <= i < |na| && i !in done && i != ti ==> na'[i] == na[i]
    ensures na'[ti] == na[ti].(transitions := na[ti].transitions + [Transition(g.key, memo'[g.members], g.freq)])
  {
    memo', na', nextId', keys', done' := Enter(a, init, base, ti, g, memo, na, nextId, keys, done, eq);
    var t := Transition(g.key, memo'[g.members], g.freq);
    InvPush(a, init, base, memo', na', nextId', keys', done', eq, ti, t);
    na' := na'[ti := na'[ti].(transitions := na'[ti].transitions + [t])];
  }

  /**
   * `new_states.get(states_to_merge)`, and when it is missing a new state: final
   * iff a member is, with the member's id when there is one member, registered
   * and completed by the recursive call.
   */
  method Enter<T(!new)>(a: Arena<T>, init: nat, base: int, ti: nat, g: Union<T>, memo: map<set<nat>, nat>, na: Arena<T>,
                        nextId: int, ghost keys: seq<set<nat>>, ghost done: set<nat>, eq: (T, T) -> bool)
    returns (memo': map<set<nat>, nat>, na': Arena<T>, nextId': int, ghost keys': seq<set<nat>>, ghost done': set<nat>)
    requires Equivalence(eq) && Inv(a, init, base, memo, na, nextId, keys, done, eq)
    requires ti < |na| && ti !in done
    requires g.members != {} && Within(g.members, |a|) && (g.isFinal <==> exists m :: m in g.members && a[m].isFinal)
    requires ReachedFrom(a, init, g.members)
    decreases Subsets(|a|) - memo.Keys, 0
    ensures Inv(a, init, base, memo', na', nextId', keys', done', eq)
    ensures keys <= keys' && MapExtends(memo, memo') && g.members in memo'
    ensures forall i :: i in done' <==> i in done || |keys| <= i < |keys'|
    ensures forall i :: 0 <= i < |na| && i !in done ==> na'[i] == na[i]
  {
    if g.members in memo {
      return memo, na, nextId, keys, done;
    }
    var nid := |na|;
    var r := StateRec(g.isFinal, [], if |g.members| == 1 then a[Least(g.members)].id else nextId);
    InvAdd(a, init, base, memo, na, nextId, keys, done, eq, g.members, r);
    InSubsets(g.members, |a|);
    var memo1 := memo[g.members := nid];
    assert memo1.Keys == memo.Keys + {g.members};
    assert Subsets(|a|) - memo1.Keys < Subsets(|a|) - memo.Keys;
    ghost var keys1 := keys + [g.members];
    memo', na', nextId', keys', done' := Rec(a, init, base, g.members, memo1, na + [r], nextId + 1, keys1, done, eq);
    assert keys <= keys1;
    forall i | 0 <= i < |na| && i !in done ensures na'[i] == na[i] {
      assert (na + [r])[i] == na[i];
    }
  }

  /** The indices `0 .. n - 1` in order: `_all_states` after determinization. */
  function Indices(n: nat): (r: seq<nat>)
    ensures |r| == n && forall i :: 0 <= i < n ==> r[i] == i
  {
    if n == 0 then [] else Indices(n - 1) + [n - 1]
  }

  /**
   * The outcome of the construction: the invariant with every new state done.
   * New state `i` stands for the set `keys[i]` of old states; `memo` is the
   * final `new_states` map.
   */
  ghost predicate Determinized<T(!new)>(a: Arena<T>, init: nat, base: int, memo: map<set<nat>, nat>, na: Arena<T>,
                                        keys: seq<set<nat>>, eq: (T, T) -> bool)
  {
    Inv(a, init, base, memo, na, base + |na|, keys, {}, eq) &&
    forall i :: 0 <= i < |na| ==>
      ConnectedUpTo(memo, na[i].transitions, GroupsOf(a, keys[i], eq), |GroupsOf(a, keys[i], eq)|)
  }

  lemma {:induction false} AllDone<T(!new)>(a: Arena<T>, init: nat, base: int, memo: map<set<nat>, nat>, na: Arena<T>,
                         keys: seq<set<nat>>, done: set<nat>, eq: (T, T) -> bool)
    requires Inv(a, init, base, memo, na, base + |na|, keys, done, eq)
    requires forall i :: 0 <= i < |na| ==> i in done
    ensures Determinized(a, init, base, memo, na, keys, eq)
  {
  }

  /** A new state is final only when an old state reachable from the old initial state is. */
  ghost predicate FinalsReached<T>(a: Arena<T>, init: nat, na: Arena<T>)
  {
    forall i :: 0 <= i < |na| && na[i].isFinal ==> exists m: nat :: m < |a| && Reachable(a, init, m) && a[m].isFinal
  }

  lemma DeterminizedFinals<T(!new)>(a: Arena<T>, init: nat, base: int, memo: map<set<nat>, nat>, na: Arena<T>,
                                    keys: seq<set<nat>>, eq: (T, T) -> bool)
    requires Determinized(a, init, base, memo, na, keys, eq)
    ensures FinalsReached(a, init, na)
  {
    forall i | 0 <= i < |na| && na[i].isFinal ensures exists m: nat :: m < |a| && Reachable(a, init, m) && a[m].isFinal {
      assert Labelled(a, base, i, keys[i], na[i]) && ReachedFrom(a, init, keys[i]);
      var m :| m in keys[i] && a[m].isFinal;
      assert m < |a| && Reachable(a, init, m);
    }
  }

  /**
   * The body of `determinization` on the old states `a`: the new initial state
   * (id 0, non-final) stands for the old initial state alone, and the recursion
   * builds every new state reachable from it. The accepted prefixes stay the
   * same, and so do the accepted sequences unless the old initial state was final.
   */
  method Construct<T(!new)>(a: Arena<T>, init: nat, base: int, eq: (T, T) -> bool)
    returns (na: Arena<T>, nextId: int, ghost memo: map<set<nat>, nat>, ghost keys: seq<set<nat>>)
    requires Closed(a) && init < |a| && Equivalence(eq)
    ensures Determinized(a, init, base, memo, na, keys, eq) && nextId == base + |na|
    ensures Closed(na) && 0 < |na|
    ensures forall sq :: Accepts(na, false, 0, sq, 0, eq) <==> Accepts(a, false, init, sq, 0, eq)
    ensures !a[init].isFinal ==> forall sq :: Accepts(na, true, 0, sq, 0, eq) <==> Accepts(a, true, init, sq, 0, eq)
  {
    var start := [StateRec(false, [], 0)];
    var m0 := map[{init} := 0];
    ghost var k0 := [{init}];
    assert WalkTo(a, init, [init], init);
    assert Inv(a, init, base, m0, start, base + 1, k0, {}, eq);
    ghost var done;
    memo, na, nextId, keys, done := Rec(a, init, base, {init}, m0, start, base + 1, k0, {}, eq);
    AllDone(a, init, base, memo, na, keys, done, eq);
    forall sq ensures Accepts(na, false, 0, sq, 0, eq) <==> Accepts(a, false, init, sq, 0, eq) {
      DeterminizedLanguage(a, init, base, memo, na, keys, eq, false, sq);
    }
    if !a[init].isFinal {
      forall sq ensures Accepts(na, true, 0, sq, 0, eq) <==> Accepts(a, true, init, sq, 0, eq) {
        DeterminizedLanguage(a, init, base, memo, na, keys, eq, true, sq);
      }
    }
  }

  /**
   * `determinization(automaton)`: the automaton takes the new states, the new
   * initial state, and `_all_states` lists the new states in creation order;
   * every new state advanced `NEXT_ID` once.
   */
  method Determinize<T(!new)>(aut: Automaton<T>, eq: (T, T) -> bool) returns (ghost memo: map<set<nat>, nat>, ghost keys: seq<set<nat>>)
    requires aut.Valid() && Equivalence(eq)
    modifies aut
    ensures aut.Valid() && aut.initial == 0 && aut.allStates == Indices(|aut.states|)
    ensures Determinized(old(aut.states), old(aut.initial), old(aut.nextId), memo, aut.states, keys, eq)
    ensures aut.nextId == old(aut.nextId) + |aut.states|
    ensures forall sq :: aut.AcceptsPrefix(sq, eq) <==> Accepts(old(aut.states), false, old(aut.initial), sq, 0, eq)
    ensures !old(aut.states[aut.initial].isFinal) ==>
      forall sq :: aut.AcceptsSequence(sq, eq) <==> Accepts(old(aut.states), true, old(aut.initial), sq, 0, eq)
  {
    ghost var a0, i0 := aut.states, aut.initial;
    var na, nextId;
    na, nextId, memo, keys := Construct(aut.states, aut.initial, aut.nextId, eq);
    aut.Install(na, 0, Indices(|na|));
    aut.nextId := nextId;
    forall sq ensures aut.AcceptsPrefix(sq, eq) <==> Accepts(a0, false, i0, sq, 0, eq) {
    }
    if !a0[i0].isFinal {
      forall sq ensures aut.AcceptsSequence(sq, eq) <==> Accepts(a0, true, i0, sq, 0, eq) {
      }
    }
  }

  // ---------------------------------------------------------------------
  // What the construction guarantees
  // ---------------------------------------------------------------------

  /** Reference definition: the old states reached from the set `K` by a symbol equal to `x`. */
  ghost function Image<T(!new)>(a: Arena<T>, K: set<nat>, x: T, eq: (T, T) -> bool): set<nat>
    requires Closed(a) && Within(K, |a|)
  {
    StateListIn(a, K);
    ImageOf(Outgoing(a, StateList(K)), x, eq)
  }

  /** Reference definition: the summed frequency of those transitions. */
  ghost function Freq<T(!new)>(a: Arena<T>, K: set<nat>, x: T, eq: (T, T) -> bool): int
    requires Closed(a) && Within(K, |a|)
  {
    StateListIn(a, K);
    FreqOf(Outgoing(a, StateList(K)), x, eq)
  }

  /** Some member of `K` has a transition on a symbol equal to `x` into `d`. */
  ghost predicate Reaches<T>(a: Arena<T>, K: set<nat>, x: T, eq: (T, T) -> bool, d: nat)
  {
    exists m, q :: m in K && m < |a| && 0 <= q < |a[m].transitions| &&
      eq(a[m].transitions[q].symbol, x) && a[m].transitions[q].dest == d
  }

  /** `Image` holds exactly the destinations of the members' transitions whose symbol equals `x`. */
  lemma {:induction false} ImageMembers<T(!new)>(a: Arena<T>, K: set<nat>, x: T, eq: (T, T) -> bool, d: nat)
    requires Closed(a) && Within(K, |a|)
    ensures d in Image(a, K, x, eq) ==> Reaches(a, K, x, eq, d)
    ensures Reaches(a, K, x, eq, d) ==> d in Image(a, K, x, eq)
  {
    StateListIn(a, K);
    StateListMembers(K);
    var xs := StateList(K);
    var ts := Outgoing(a, xs);
    ImageOfMembers(ts, x, eq);
    if d in Image(a, K, x, eq) {
      var p :| 0 <= p < |ts| && eq(ts[p].symbol, x) && ts[p].dest == d;
      assert ts[p] in ts;
      OutgoingMembers(a, xs, ts[p]);
      var i :| 0 <= i < |xs| && ts[p] in a[xs[i]].transitions;
      var q :| 0 <= q < |a[xs[i]].transitions| && a[xs[i]].transitions[q] == ts[p];
      assert xs[i] in xs;
    }
    if Reaches(a, K, x, eq, d) {
      var m, q :| m in K && m < |a| && 0 <= q < |a[m].transitions| &&
        eq(a[m].transitions[q].symbol, x) && a[m].transitions[q].dest == d;
      var t := a[m].transitions[q];
      var i :| 0 <= i < |xs| && xs[i] == m;
      assert t in a[xs[i]].transitions;
      OutgoingMembers(a, xs, t);
      assert t in ts;
      var p :| 0 <= p < |ts| && ts[p] == t;
    }
  }

  /** Equal symbols have the same image and frequency. */
  lemma {:induction false} ImageCongruent<T(!new)>(ts: seq<Transition<T>>, x: T, y: T, eq: (T, T) -> bool)
    requires Equivalence(eq) && eq(x, y)
    ensures ImageOf(ts, x, eq) == ImageOf(ts, y, eq) && FreqOf(ts, x, eq) == FreqOf(ts, y, eq)
  {
    if ts != [] {
      var n := |ts| - 1;
      ImageCongruent(ts[..n], x, y, eq);
      if eq(ts[n].symbol, x) {
        EqTrans(eq, ts[n].symbol, x, y);
      }
      if eq(ts[n].symbol, y) {
        EqTrans(eq, ts[n].symbol, y, x);
      }
    }
  }

  /** A new state has at most one transition per symbol. */
  lemma {:induction false} DeterminizedDeterministic<T(!new)>(a: Arena<T>, init: nat, base: int, memo: map<set<nat>, nat>, na: Arena<T>,
                                           keys: seq<set<nat>>, eq: (T, T) -> bool, s: nat)
    requires Equivalence(eq) && Determinized(a, init, base, memo, na, keys, eq) && s < |na|
    ensures forall i, j :: 0 <= i < j < |na[s].transitions| ==> !eq(na[s].transitions[j].symbol, na[s].transitions[i].symbol)
  {
    StateListIn(a, keys[s]);
    OutgoingDests(a, StateList(keys[s]));
    GroupsCorrect(a, Outgoing(a, StateList(keys[s])), eq);
  }

  /**
   * Each new transition on symbol `x` leads to the new state of the image of
   * `x`, and carries the summed frequency of the old transitions it replaces.
   */
  lemma {:induction false} DeterminizedEdges<T(!new)>(a: Arena<T>, init: nat, base: int, memo: map<set<nat>, nat>, na: Arena<T>,
                                   keys: seq<set<nat>>, eq: (T, T) -> bool, s: nat, k: nat)
    requires Equivalence(eq) && Determinized(a, init, base, memo, na, keys, eq)
    requires s < |na| && k < |na[s].transitions|
    ensures na[s].transitions[k].dest < |keys|
    ensures keys[na[s].transitions[k].dest] == Image(a, keys[s], na[s].transitions[k].symbol, eq)
    ensures na[s].transitions[k].freq == Freq(a, keys[s], na[s].transitions[k].symbol, eq)
  {
    StateListIn(a, keys[s]);
    var ts := Outgoing(a, StateList(keys[s]));
    OutgoingDests(a, StateList(keys[s]));
    GroupsCorrect(a, ts, eq);
    var gs := Groups(a, ts, eq);
    assert ExactAt(a, gs[k], ts, eq);
  }

  /** The transitions of new state `s`, one per group of its set of old states. */
  lemma {:induction false} StateGroups<T(!new)>(a: Arena<T>, init: nat, base: int, memo: map<set<nat>, nat>, na: Arena<T>,
                             keys: seq<set<nat>>, eq: (T, T) -> bool, s: nat)
    requires Equivalence(eq) && Determinized(a, init, base, memo, na, keys, eq) && s < |na|
    ensures var gs := GroupsOf(a, keys[s], eq);
      |na[s].transitions| == |gs| &&
      forall k :: 0 <= k < |gs| ==>
        na[s].transitions[k].symbol == gs[k].key &&
        na[s].transitions[k].dest < |keys| && keys[na[s].transitions[k].dest] == gs[k].members
  {
  }

  /** Where the old states reach nothing by `x`, the new state has no transition on `x`. */
  lemma {:induction false} DeterminizedNoFollow<T(!new)>(a: Arena<T>, init: nat, base: int, memo: map<set<nat>, nat>, na: Arena<T>,
                                      keys: seq<set<nat>>, eq: (T, T) -> bool, s: nat, x: T)
    requires Equivalence(eq) && Determinized(a, init, base, memo, na, keys, eq) && s < |na|
    requires Image(a, keys[s], x, eq) == {}
    ensures forall k :: 0 <= k < |na[s].transitions| ==> !eq(na[s].transitions[k].symbol, x)
  {
    StateListIn(a, keys[s]);
    var ts := Outgoing(a, StateList(keys[s]));
    OutgoingDests(a, StateList(keys[s]));
    GroupsCorrect(a, ts, eq);
    var gs := Groups(a, ts, eq);
    StateGroups(a, init, base, memo, na, keys, eq, s);
    var nts := na[s].transitions;
    forall k | 0 <= k < |nts| ensures !eq(nts[k].symbol, x) {
      if eq(nts[k].symbol, x) {
        assert ExactAt(a, gs[k], ts, eq);
        ImageCongruent(ts, gs[k].key, x, eq);
        assert false;
      }
    }
  }

  /** The group of a symbol that reaches something: it exists, and holds that image. */
  lemma {:induction false} GroupFor<T(!new)>(a: Arena<T>, ts: seq<Transition<T>>, x: T, eq: (T, T) -> bool) returns (j: nat)
    requires Equivalence(eq) && DestsIn(ts, a) && ImageOf(ts, x, eq) != {}
    ensures j < |Groups(a, ts, eq)| && eq(Groups(a, ts, eq)[j].key, x)
    ensures Groups(a, ts, eq)[j].members == ImageOf(ts, x, eq)
  {
    GroupsCorrect(a, ts, eq);
    var gs := Groups(a, ts, eq);
    var d :| d in ImageOf(ts, x, eq);
    ImageOfMembers(ts, x, eq);
    var p :| 0 <= p < |ts| && eq(ts[p].symbol, x) && ts[p].dest == d;
    assert CoveredBy(gs, ts[p], eq);
    j :| 0 <= j < |gs| && eq(ts[p].symbol, gs[j].key) && ts[p].dest in gs[j].members;
    EqRewire(eq, gs[j].key, ts[p].symbol, x);
    assert ExactAt(a, gs[j], ts, eq);
    ImageCongruent(ts, gs[j].key, x, eq);
  }

  /** Where the old states reach something by `x`, the new state follows `x` to the new state of that image. */
  lemma {:induction false} DeterminizedFollow<T(!new)>(a: Arena<T>, init: nat, base: int, memo: map<set<nat>, nat>, na: Arena<T>,
                                    keys: seq<set<nat>>, eq: (T, T) -> bool, s: nat, x: T) returns (k: nat)
    requires Equivalence(eq) && Determinized(a, init, base, memo, na, keys, eq) && s < |na|
    requires Image(a, keys[s], x, eq) != {}
    ensures k < |na[s].transitions| && eq(na[s].transitions[k].symbol, x)
    ensures na[s].transitions[k].dest < |keys| && keys[na[s].transitions[k].dest] == Image(a, keys[s], x, eq)
  {
    StateListIn(a, keys[s]);
    OutgoingDests(a, StateList(keys[s]));
    StateGroups(a, init, base, memo, na, keys, eq, s);
    k := GroupFor(a, Outgoing(a, StateList(keys[s])), x, eq);
  }

  /** The transition that makes `AcceptsVia` true. */
  lemma {:induction false} ViaExists<T>(a: Arena<T>, onlyFinal: bool, s: nat, sq: seq<T>, i: nat, k0: nat, eq: (T, T) -> bool)
    returns (k: nat)
    requires Closed(a) && s < |a| && i < |sq| && AcceptsVia(a, onlyFinal, s, sq, i, k0, eq)
    ensures k0 <= k < |a[s].transitions| && eq(a[s].transitions[k].symbol, sq[i])
    ensures Accepts(a, onlyFinal, a[s].transitions[k].dest, sq, i + 1, eq)
    decreases |a[s].transitions| - k0
  {
    var t := a[s].transitions[k0];
    if eq(t.symbol, sq[i]) && Accepts(a, onlyFinal, t.dest, sq, i + 1, eq) {
      k := k0;
    } else {
      k := ViaExists(a, onlyFinal, s, sq, i, k0 + 1, eq);
    }
  }

  /** Some old state of `K` accepts `sq[i..]`. */
  ghost predicate SomeAccepts<T>(a: Arena<T>, onlyFinal: bool, K: set<nat>, sq: seq<T>, i: nat, eq: (T, T) -> bool)
    requires Closed(a) && i <= |sq|
  {
    exists m :: m in K && m < |a| && Accepts(a, onlyFinal, m, sq, i, eq)
  }

  /**
   * The subset construction is sound and complete: new state `s` accepts the
   * rest of `sq` iff one of the old states it stands for does. With the
   * finality test this needs the old initial state to be non-final, because the
   * new initial state is always created non-final.
   */
  lemma {:induction false} DeterminizedAccepts<T(!new)>(a: Arena<T>, init: nat, base: int, memo: map<set<nat>, nat>, na: Arena<T>,
                                                        keys: seq<set<nat>>, eq: (T, T) -> bool,
                                                        onlyFinal: bool, s: nat, sq: seq<T>, i: nat)
    requires Equivalence(eq) && Determinized(a, init, base, memo, na, keys, eq)
    requires s < |na| && i <= |sq| && (onlyFinal ==> !a[init].isFinal)
    ensures Accepts(na, onlyFinal, s, sq, i, eq) ==> SomeAccepts(a, onlyFinal, keys[s], sq, i, eq)
    ensures SomeAccepts(a, onlyFinal, keys[s], sq, i, eq) ==> Accepts(na, onlyFinal, s, sq, i, eq)
    decreases |sq| - i, 1
  {
    if i == |sq| {
      var m :| m in keys[s];
      if s == 0 {
        assert keys[s] == {init};
      }
    } else {
      if Accepts(na, onlyFinal, s, sq, i, eq) {
        AcceptsForward(a, init, base, memo, na, keys, eq, onlyFinal, s, sq, i);
      }
      if SomeAccepts(a, onlyFinal, keys[s], sq, i, eq) {
        AcceptsBackward(a, init, base, memo, na, keys, eq, onlyFinal, s, sq, i);
      }
    }
  }

  /** The induction step of `DeterminizedAccepts` from the new automaton to the old one. */
  lemma {:induction false} AcceptsForward<T(!new)>(a: Arena<T>, init: nat, base: int, memo: map<set<nat>, nat>, na: Arena<T>,
                                                   keys: seq<set<nat>>, eq: (T, T) -> bool,
                                                   onlyFinal: bool, s: nat, sq: seq<T>, i: nat)
    requires Equivalence(eq) && Determinized(a, init, base, memo, na, keys, eq)
    requires s < |na| && i < |sq| && (onlyFinal ==> !a[init].isFinal)
    requires Accepts(na, onlyFinal, s, sq, i, eq)
    ensures SomeAccepts(a, onlyFinal, keys[s], sq, i, eq)
    decreases |sq| - i, 0
  {
    var k := ViaExists(na, onlyFinal, s, sq, i, 0, eq);
    var t := na[s].transitions[k];
    DeterminizedAccepts(a, init, base, memo, na, keys, eq, onlyFinal, t.dest, sq, i + 1);
    var d :| d in keys[t.dest] && d < |a| && Accepts(a, onlyFinal, d, sq, i + 1, eq);
    DeterminizedEdges(a, init, base, memo, na, keys, eq, s, k);
    ImageAccepts(a, keys[s], t.symbol, d, eq, onlyFinal, sq, i);
  }

  /** An old state reached from `K` on a symbol equal to `sq[i]` that accepts the rest makes some member of `K` accept from `i`. */
  lemma ImageAccepts<T(!new)>(a: Arena<T>, K: set<nat>, y: T, d: nat, eq: (T, T) -> bool, onlyFinal: bool, sq: seq<T>, i: nat)
    requires Equivalence(eq) && Closed(a) && Within(K, |a|) && i < |sq| && eq(y, sq[i])
    requires d in Image(a, K, y, eq) && d < |a| && Accepts(a, onlyFinal, d, sq, i + 1, eq)
    ensures SomeAccepts(a, onlyFinal, K, sq, i, eq)
  {
    var x := sq[i];
    StateListIn(a, K);
    ImageCongruent(Outgoing(a, StateList(K)), y, x, eq);
    ImageMembers(a, K, x, eq, d);
    var m, q :| m in K && m < |a| && 0 <= q < |a[m].transitions| &&
      eq(a[m].transitions[q].symbol, x) && a[m].transitions[q].dest == d;
    ViaWitness(a, onlyFinal, m, sq, i, 0, q, eq);
  }

  /** The induction step of `DeterminizedAccepts` from the old automaton to the new one. */
  lemma {:induction false} AcceptsBackward<T(!new)>(a: Arena<T>, init: nat, base: int, memo: map<set<nat>, nat>, na: Arena<T>,
                                                    keys: seq<set<nat>>, eq: (T, T) -> bool,
                                                    onlyFinal: bool, s: nat, sq: seq<T>, i: nat)
    requires Equivalence(eq) && Determinized(a, init, base, memo, na, keys, eq)
    requires s < |na| && i < |sq| && (onlyFinal ==> !a[init].isFinal)
    requires SomeAccepts(a, onlyFinal, keys[s], sq, i, eq)
    ensures Accepts(na, onlyFinal, s, sq, i, eq)
    decreases |sq| - i, 0
  {
    var K := keys[s];
    var x := sq[i];
    var m :| m in K && m < |a| && Accepts(a, onlyFinal, m, sq, i, eq);
    var q := ViaExists(a, onlyFinal, m, sq, i, 0, eq);
    var d := a[m].transitions[q].dest;
    ImageMembers(a, K, x, eq, d);
    var k := DeterminizedFollow(a, init, base, memo, na, keys, eq, s, x);
    var t := na[s].transitions[k];
    DeterminizedAccepts(a, init, base, memo, na, keys, eq, onlyFinal, t.dest, sq, i + 1);
    ViaWitness(na, onlyFinal, s, sq, i, 0, k, eq);
  }

  /**
   * Determinization keeps the language of the initial state, and always keeps
   * the accepted prefixes (`acceptsPrefix`).
   */
  lemma {:induction false} DeterminizedLanguage<T(!new)>(a: Arena<T>, init: nat, base: int, memo: map<set<nat>, nat>, na: Arena<T>,
                                      keys: seq<set<nat>>, eq: (T, T) -> bool, onlyFinal: bool, sq: seq<T>)
    requires Equivalence(eq) && Determinized(a, init, base, memo, na, keys, eq)
    requires onlyFinal ==> !a[init].isFinal
    ensures Accepts(na, onlyFinal, 0, sq, 0, eq) ==> Accepts(a, onlyFinal, init, sq, 0, eq)
    ensures Accepts(a, onlyFinal, init, sq, 0, eq) ==> Accepts(na, onlyFinal, 0, sq, 0, eq)
  {
    DeterminizedAccepts(a, init, base, memo, na, keys, eq, onlyFinal, 0, sq, 0);
    assert keys[0] == {init};
  }

  /** A final old initial state is the one exception: the new automaton no longer accepts the empty sequence. */
  lemma {:induction false} DeterminizedDropsEmpty<T(!new)>(a: Arena<T>, init: nat, base: int, memo: map<set<nat>, nat>, na: Arena<T>,
                                        keys: seq<set<nat>>, eq: (T, T) -> bool)
    requires Determinized(a, init, base, memo, na, keys, eq) && a[init].isFinal
    ensures Accepts(a, true, init, [], 0, eq) && !Accepts(na, true, 0, [], 0, eq)
  {
  }
}

// The representative map `merged_mapping` of reverx/src/automata/Operations.java:
// a merged state maps to the state it was merged into. `getMergedState`
// follows the map to the current representative.
module StateMapping {

  /** `x` has been merged away: it has an entry and the entry is not a self-map. */
  predicate Mapped(m: map<nat, nat>, x: nat)
  {
    x in m && m[x] != x
  }

  /**
   * The map has no cycles. Every merged state carries a stamp below `clock`
   * (the time it was merged), and a merged state's target, if merged itself,
   * was merged later.
   */
  ghost predicate Ranked(m: map<nat, nat>, stamp: map<nat, nat>, clock: nat)
  {
    (forall x :: Mapped(m, x) ==> x in stamp && stamp[x] < clock) &&
    (forall x {:trigger Mapped(m, m[x])} :: Mapped(m, x) && Mapped(m, m[x]) ==> stamp[x] < stamp[m[x]])
  }

  /** The representative of `x`: follow the map until there is no entry or a self-map. */
  ghost function Root(m: map<nat, nat>, stamp: map<nat, nat>, clock: nat, x: nat): (r: nat)
    requires Ranked(m, stamp, clock)
    ensures !Mapped(m, r)
    decreases if Mapped(m, x) then clock - stamp[x] else 0
  {
    if Mapped(m, x) then Root(m, stamp, clock, m[x]) else x
  }

  /** A state is its own representative exactly when it has not been merged away. */
  lemma RootFixed(m: map<nat, nat>, stamp: map<nat, nat>, clock: nat, x: nat)
    requires Ranked(m, stamp, clock)
    ensures Root(m, stamp, clock, x) == x <==> !Mapped(m, x)
  {
    if Mapped(m, x) {
      RootAbove(m, stamp, clock, m[x], x);
    }
  }

  /** Following the map from a state merged after `x` never comes back to `x`. */
  lemma {:induction false} RootAbove(m: map<nat, nat>, stamp: map<nat, nat>, clock: nat, y: nat, x: nat)
    requires Ranked(m, stamp, clock) && Mapped(m, x)
    requires Mapped(m, y) ==> stamp[x] < stamp[y]
    requires y != x
    ensures Root(m, stamp, clock, y) != x
    decreases if Mapped(m, y) then clock - stamp[y] else 0
  {
    if Mapped(m, y) {
      RootAbove(m, stamp, clock, m[y], x);
    }
  }

  /** `getMergedState`: the loop ends at the representative. */
  method GetMergedState(m: map<nat, nat>, ghost stamp: map<nat, nat>, ghost clock: nat, state: nat) returns (r: nat)
    requires Ranked(m, stamp, clock)
    ensures r == Root(m, stamp, clock, state)
  {
    r := state;
    while r in m && m[r] != r
      invariant Root(m, stamp, clock, r) == Root(m, stamp, clock, state)
      decreases if Mapped(m, r) then clock - stamp[r] else 0
    {
      r := m[r];
    }
  }

  /** `merged_mapping.put(state1, state0)` for two representatives keeps the map acyclic. */
  lemma PutRanked(m: map<nat, nat>, stamp: map<nat, nat>, clock: nat, s1: nat, s0: nat)
    requires Ranked(m, stamp, clock) && !Mapped(m, s1) && !Mapped(m, s0) && s1 != s0
    ensures Ranked(m[s1 := s0], stamp[s1 := clock], clock + 1)
  {
    var m', stamp' := m[s1 := s0], stamp[s1 := clock];
    forall x | Mapped(m', x)
      ensures x in stamp' && stamp'[x] < clock + 1
      ensures Mapped(m', m'[x]) ==> m'[x] in stamp' && stamp'[x] < stamp'[m'[x]]
    {
      if x != s1 {
        assert Mapped(m, x) && m'[x] == m[x];
        if m[x] != s1 && Mapped(m', m[x]) {
          assert Mapped(m, m[x]);
        }
      }
    }
  }

  /**
   * After `put(state1, state0)` every state whose representative was `state1`
   * has representative `state0`; no other representative changes.
   */
  lemma {:induction false} PutRoot(m: map<nat, nat>, stamp: map<nat, nat>, clock: nat, s1: nat, s0: nat, x: nat)
    requires Ranked(m, stamp, clock) && !Mapped(m, s1) && !Mapped(m, s0) && s1 != s0
    ensures Ranked(m[s1 := s0], stamp[s1 := clock], clock + 1)
    ensures Root(m[s1 := s0], stamp[s1 := clock], clock + 1, x)
         == if Root(m, stamp, clock, x) == s1 then s0 else Root(m, stamp, clock, x)
    decreases if Mapped(m, x) then clock - stamp[x] else 0
  {
    PutRanked(m, stamp, clock, s1, s0);
    var m', stamp' := m[s1 := s0], stamp[s1 := clock];
    if Mapped(m, x) {
      assert x != s1 && Mapped(m', x) && m'[x] == m[x];
      PutRoot(m, stamp, clock, s1, s0, m[x]);
    } else if x == s1 {
      assert Mapped(m', s1) && !Mapped(m', s0);
    } else {
      assert !Mapped(m', x);
    }
  }

  /** `samePairOfStates`: the two pairs name the same two states, in either order. */
  predicate SamePairOfStates(s0: nat, s1: nat, t0: nat, t1: nat)
  {
    (s0 == t0 && s1 == t1) || (s1 == t0 && s0 == t1)
  }

  /** The order inside either pair does not matter: the pairs are compared as sets. */
  lemma SamePairIgnoresOrder(s0: nat, s1: nat, t0: nat, t1: nat)
    ensures SamePairOfStates(s0, s1, t0, t1) <==> {s0, s1} == {t0, t1}
  {
    if {s0, s1} == {t0, t1} {
      assert t0 in {s0, s1} && t1 in {s0, s1} && s0 in {t0, t1} && s1 in {t0, t1};
    }
  }
}

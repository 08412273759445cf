// The format-language inference of reverx/src/Language.java: a prefix tree of
// tokenised messages over pattern symbols, generalised by two thresholds with
// determinisation and minimisation after each round, then shortened by
// concatenating linear chains of transitions.
module Languages {
  import opened Wrappers
  import opened JavaStrings
  import opened Automata
  import opened PatternText
  import R = RegExSymbols
  import Sessions
  import Determinization
  import Minimization
  import Merging

  type Symbol = R.RegEx

  /** Symbols compare by `RegEx.equals`, which is an equivalence. */
  lemma EqualsEquivalence()
    ensures Determinization.Equivalence(R.Equals)
  {
    forall x, y, z | Determinization.Chain(R.Equals, x, y, z) ensures R.Equals(x, z) {
    }
  }

  // ---------------------------------------------------------------------
  // Listed states
  // ---------------------------------------------------------------------

  /**
   * The state list holds the initial state, and every transition of a listed
   * state leads to a listed state.
   */
  ghost predicate ListClosed<T>(a: Arena<T>, initial: nat, list: seq<nat>)
  {
    initial < |a| && Closed(a) && InArena(list, a) && initial in list &&
    forall j, k :: 0 <= j < |list| && 0 <= k < |a[list[j]].transitions| ==> a[list[j]].transitions[k].dest in list
  }

  /** A closed list with nothing merged yet is what minimisation starts from. */
  lemma ListClosedCanonical<T>(a: Arena<T>, initial: nat, list: seq<nat>)
    requires ListClosed(a, initial, list)
    ensures Merging.Canonical(Merging.Snapshot(a, initial, list, []), map[], map[], 0)
  {
    forall x | x in list
      ensures x < |a| && Merging.LeadsInto(a[x].transitions, set y | y in list)
    {
      var j :| 0 <= j < |list| && list[j] == x;
    }
  }

  /** Conversely, any canonical snapshot of an empty queue lists a closed set of states. */
  lemma CanonicalListClosed<T>(a: Arena<T>, initial: nat, list: seq<nat>, m: map<nat, nat>, stamp: map<nat, nat>, clock: nat)
    requires Merging.Canonical(Merging.Snapshot(a, initial, list, []), m, stamp, clock)
    ensures ListClosed(a, initial, list)
  {
    forall j, k | 0 <= j < |list| && 0 <= k < |a[list[j]].transitions|
      ensures a[list[j]].transitions[k].dest in list
    {
      assert list[j] in list;
      assert Merging.LeadsInto(a[list[j]].transitions, set y | y in list);
    }
  }

  /** After determinisation every state is listed, so the list is closed. */
  lemma IndicesListClosed<T>(a: Arena<T>)
    requires Closed(a) && 0 < |a|
    ensures ListClosed(a, 0, Determinization.Indices(|a|))
  {
    var list := Determinization.Indices(|a|);
    assert list[0] == 0;
    forall j, k | 0 <= j < |list| && 0 <= k < |a[list[j]].transitions|
      ensures a[list[j]].transitions[k].dest in list
    {
      var d := a[list[j]].transitions[k].dest;
      assert list[d] == d;
    }
  }

  /** Arenas that differ only in frequencies keep a closed list closed. */
  lemma SameShapeListClosed<T>(a: Arena<T>, b: Arena<T>, initial: nat, list: seq<nat>)
    requires ListClosed(a, initial, list) && SameShape(a, b)
    ensures ListClosed(b, initial, list)
  {
    assert Closed(b) by {
      forall s, k | 0 <= s < |b| && 0 <= k < |b[s].transitions| ensures b[s].transitions[k].dest < |b| {
        assert b[s].transitions[k].dest == a[s].transitions[k].dest;
      }
    }
    forall j, k | 0 <= j < |list| && 0 <= k < |b[list[j]].transitions|
      ensures b[list[j]].transitions[k].dest in list
    {
      assert b[list[j]].transitions[k].dest == a[list[j]].transitions[k].dest;
    }
  }

  /** The addSequence walk never leaves the listed states. */
  lemma {:induction false} WalkListed<T>(a: Arena<T>, initial: nat, list: seq<nat>, s: nat, sq: seq<T>, i: nat, eq: (T, T) -> bool)
    requires ListClosed(a, initial, list) && s in list && i <= |sq|
    ensures s < |a| && Walk(a, s, sq, i, eq).1 in list
    decreases |sq| - i
  {
    var j :| 0 <= j < |list| && list[j] == s;
    if !a[s].isFinal && i < |sq| {
      match GetTransition(a[s].transitions, sq[i], eq) {
        case None =>
        case Some(k) =>
          assert a[list[j]].transitions[k].dest in list;
          WalkListed(a, initial, list, a[s].transitions[k].dest, sq, i + 1, eq);
      }
    }
  }

  /** A fresh chain below a listed state, its states listed after the old ones, keeps the list closed. */
  lemma {:induction false} GrowListClosed<T>(a: Arena<T>, initial: nat, list: seq<nat>, from: nat, sq: seq<T>, j: nat, id: int)
    requires ListClosed(a, initial, list) && from in list && j <= |sq|
    ensures from < |a|
    ensures ListClosed(Grow(a, from, sq, j, id), initial, list + Ids(|a|, |sq| - j))
    decreases |sq| - j
  {
    var f :| 0 <= f < |list| && list[f] == from;
    if j == |sq| {
      assert list + Ids(|a|, 0) == list;
    } else {
      var b := AppendSymbol(a, from, sq[j], id);
      var list' := list + [|a|];
      assert ListClosed(b, initial, list') by {
        forall p, k | 0 <= p < |list'| && 0 <= k < |b[list'[p]].transitions|
          ensures b[list'[p]].transitions[k].dest in list'
        {
          if p < |list| && list[p] != from {
            assert b[list'[p]] == a[list[p]];
          } else if p < |list| && k < |a[from].transitions| {
            assert b[list'[p]].transitions[k] == a[list[f]].transitions[k];
          }
        }
      }
      GrowListClosed(b, initial, list', |a|, sq, j + 1, id + 1);
      ConsecutiveCons(|a|, |sq| - j - 1);
      Assoc(list, [|a|], Ids(|a| + 1, |sq| - j - 1));
    }
  }

  /** `addSequence` keeps the list closed once it appends the fresh states to it. */
  lemma InsertedListClosed<T>(a: Arena<T>, initial: nat, list: seq<nat>, sq: seq<T>, id: int, eq: (T, T) -> bool)
    requires ListClosed(a, initial, list)
    ensures ListClosed(Inserted(a, initial, sq, id, eq), initial,
      list + Ids(|a|, |sq| - |Walk(a, initial, sq, 0, eq).0|))
  {
    var w := Walk(a, initial, sq, 0, eq);
    var b := Bump(a, w.0);
    WalkListed(a, initial, list, initial, sq, 0, eq);
    SameShapeListClosed(a, b, initial, list);
    GrowListClosed(b, initial, list, w.1, sq, |w.0|, id);
    var g := Grow(b, w.1, sq, |w.0|, id);
    var list' := list + Ids(|a|, |sq| - |w.0|);
    GrowEndBound(b, w.1, sq, |w.0|, id);
    var f := WithFinal(g, GrowEnd(b, w.1, sq, |w.0|), true);
    forall j, k | 0 <= j < |list'| && 0 <= k < |f[list'[j]].transitions|
      ensures f[list'[j]].transitions[k].dest in list'
    {
      assert f[list'[j]].transitions == g[list'[j]].transitions;
    }
  }

  // ---------------------------------------------------------------------
  // Acceptance survives growth
  // ---------------------------------------------------------------------

  /** `b` keeps every transition of `a` and every final state of `a` stays final. */
  ghost predicate Grows<T>(a: Arena<T>, b: Arena<T>)
  {
    Extends(a, b) && forall s :: 0 <= s < |a| && a[s].isFinal ==> b[s].isFinal
  }

  lemma GrowsTrans<T>(a: Arena<T>, b: Arena<T>, c: Arena<T>)
    requires Grows(a, b) && Grows(b, c)
    ensures Grows(a, c)
  {
  }

  /** A run of `a` is a run of any arena that grows it, ending in the same state. */
  lemma {:induction false} RunGrows<T>(a: Arena<T>, b: Arena<T>, s: nat, sq: seq<T>, i: nat, path: seq<nat>, eq: (T, T) -> bool)
    requires Closed(a) && Closed(b) && s < |a| && Extends(a, b)
    requires IsRun(a, s, sq, i, path, eq)
    ensures s < |b| && IsRun(b, s, sq, i, path, eq) && RunEnd(b, s, path) == RunEnd(a, s, path)
    decreases path
  {
    if path != [] {
      RunGrows(a, b, a[s].transitions[path[0]].dest, sq, i + 1, path[1..], eq);
    }
  }

  /** Whatever `a` accepts, an arena that grows it accepts too. */
  lemma AcceptsGrows<T>(a: Arena<T>, b: Arena<T>, s: nat, sq: seq<T>, eq: (T, T) -> bool)
    requires Closed(a) && Closed(b) && s < |a| && Grows(a, b)
    requires Accepts(a, true, s, sq, 0, eq)
    ensures s < |b| && Accepts(b, true, s, sq, 0, eq)
  {
    var path := AcceptsRun(a, true, s, sq, 0, eq);
    RunGrows(a, b, s, sq, 0, path, eq);
    RunAccepts(b, true, s, sq, 0, path, eq);
  }

  lemma {:induction false} GrowKeepsFinal<T>(a: Arena<T>, from: nat, sq: seq<T>, j: nat, id: int)
    requires Closed(a) && from < |a| && j <= |sq|
    ensures forall s :: 0 <= s < |a| ==> Grow(a, from, sq, j, id)[s].isFinal == a[s].isFinal
    decreases |sq| - j
  {
    if j < |sq| {
      GrowKeepsFinal(AppendSymbol(a, from, sq[j], id), |a|, sq, j + 1, id + 1);
    }
  }

  /** `addSequence` grows the arena: nothing it had is lost. */
  lemma InsertedGrows<T>(a: Arena<T>, s: nat, sq: seq<T>, id: int, eq: (T, T) -> bool)
    requires Closed(a) && s < |a|
    ensures Grows(a, Inserted(a, s, sq, id, eq))
  {
    var w := Walk(a, s, sq, 0, eq);
    var b := Bump(a, w.0);
    InsertedExtends(a, s, sq, id, eq);
    GrowKeepsFinal(b, w.1, sq, |w.0|, id);
  }

  // ---------------------------------------------------------------------
  // addSequence(Message)
  // ---------------------------------------------------------------------

  /** The symbols `tokenize(message, 0)` cuts a message into. */
  function MessageSymbols(m: Sessions.Message): seq<Symbol>
  {
    R.Symbols(Split(SpaceOrCrlf, m.data, 0))
  }

  /**
   * `addSequence(automaton, Message)`: the message's tokens are walked from
   * the initial state and the rest appended as a fresh chain ending in a final
   * state. This is the procedure of `Automaton.addSequence`, run on the tokens.
   */
  method AddMessage(aut: Automaton<Symbol>, message: Sessions.Message)
    requires aut.Valid()
    modifies aut
    ensures aut.Valid() && aut.initial == old(aut.initial)
    ensures aut.states == Inserted(old(aut.states), old(aut.initial), MessageSymbols(message), old(aut.nextId), R.Equals)
    ensures aut.allStates == old(aut.allStates) + Ids(old(|aut.states|), Added(old(aut.states), old(aut.initial), MessageSymbols(message), R.Equals))
    ensures aut.nextId == old(aut.nextId) + Added(old(aut.states), old(aut.initial), MessageSymbols(message), R.Equals)
  {
    var symbols := Tokens(message);
    aut.AddSequence(symbols, R.Equals);
  }

  /** `tokenize(message, 0)`: from offset 0 it always succeeds. */
  method Tokens(message: Sessions.Message) returns (symbols: seq<Symbol>)
    ensures symbols == MessageSymbols(message)
  {
    var r := R.Tokenize(message.data, 0);
    symbols := if r.Ok? then r.value else [];
  }

  /**
   * Adding a message: afterwards the tokens are accepted from the state the
   * walk started at, every token adds exactly one to the total frequency, and
   * every transition and final state that was there stays.
   */
  lemma AddedMessage(a: Arena<Symbol>, s: nat, message: Sessions.Message, id: int)
    requires Closed(a) && s < |a|
    ensures var b := Inserted(a, s, MessageSymbols(message), id, R.Equals);
      Closed(b) && s < |b| && Accepts(b, true, s, MessageSymbols(message), 0, R.Equals) &&
      TotalFreq(b) == TotalFreq(a) + |MessageSymbols(message)| && Grows(a, b)
  {
    var sq := MessageSymbols(message);
    InsertedAccepts(a, s, sq, id, R.Equals);
    InsertedFreq(a, s, sq, id, R.Equals);
    InsertedGrows(a, s, sq, id, R.Equals);
  }

  /**
   * The tokens of a message tile it: joined their data is the whole message,
   * and the patterns of the path, concatenated, quote the whole message.
   */
  lemma MessageTokens(message: Sessions.Message)
    requires NoQuoteTags(message.data)
    ensures Flatten(Split(SpaceOrCrlf, message.data, 0)) == message.data
    ensures R.ConcatAll(MessageSymbols(message)).pattern == Quoted(message.data, true)
  {
    var pieces := Split(SpaceOrCrlf, message.data, 0);
    R.TokenizePieces(message.data, 0);
    assert message.data[0..] == message.data;
    R.ConcatAllOfData(MessageSymbols(message), pieces);
  }

  // ---------------------------------------------------------------------
  // The prefix tree of inferFromTraces
  // ---------------------------------------------------------------------

  /** The messages of one session, in order, whose direction is `isInput`. */
  function Directed(session: seq<Sessions.Message>, isInput: bool): seq<Sessions.Message>
  {
    if session == [] then []
    else
      var n := |session| - 1;
      Directed(session[..n], isInput) + (if session[n].isRequest == isInput then [session[n]] else [])
  }

  /** The messages of all sessions, session by session, whose direction is `isInput`. */
  function Picked(sessions: seq<seq<Sessions.Message>>, isInput: bool): seq<Sessions.Message>
  {
    if sessions == [] then []
    else Picked(sessions[..|sessions| - 1], isInput) + Directed(sessions[|sessions| - 1], isInput)
  }

  /** Exactly the messages of the wanted direction are picked. */
  lemma {:induction false} DirectedMembers(session: seq<Sessions.Message>, isInput: bool)
    ensures forall m :: m in Directed(session, isInput) <==> m in session && m.isRequest == isInput
  {
    if session != [] {
      var n := |session| - 1;
      DirectedMembers(session[..n], isInput);
      assert session == session[..n] + [session[n]];
    }
  }

  lemma {:induction false} PickedMembers(sessions: seq<seq<Sessions.Message>>, isInput: bool)
    ensures forall m :: m in Picked(sessions, isInput) <==>
      (exists i :: 0 <= i < |sessions| && m in sessions[i]) && m.isRequest == isInput
  {
    if sessions != [] {
      var n := |sessions| - 1;
      PickedMembers(sessions[..n], isInput);
      DirectedMembers(sessions[n], isInput);
      forall m | (exists i :: 0 <= i < |sessions| && m in sessions[i]) && m.isRequest == isInput
        ensures m in Picked(sessions, isInput)
      {
        var i :| 0 <= i < |sessions| && m in sessions[i];
        if i < n {
          assert sessions[..n][i] == sessions[i];
        }
      }
    }
  }

  /** The number of tokens of a list of messages. */
  function TokenCount(ms: seq<Sessions.Message>): nat
  {
    if ms == [] then 0 else TokenCount(ms[..|ms| - 1]) + |MessageSymbols(ms[|ms| - 1])|
  }

  lemma {:induction false} TokenCountAppend(ms: seq<Sessions.Message>, ns: seq<Sessions.Message>)
    ensures TokenCount(ms + ns) == TokenCount(ms) + TokenCount(ns)
    decreases |ns|
  {
    if ns != [] {
      var n := |ns| - 1;
      assert (ms + ns)[..|ms + ns| - 1] == ms + ns[..n];
      TokenCountAppend(ms, ns[..n]);
    } else {
      assert ms + ns == ms;
    }
  }

  /** The arena accepts the tokens of every message of `ms` from `initial`. */
  ghost predicate AcceptsAll(a: Arena<Symbol>, initial: nat, ms: seq<Sessions.Message>)
  {
    Closed(a) && initial < |a| &&
    forall k :: 0 <= k < |ms| ==> Accepts(a, true, initial, MessageSymbols(ms[k]), 0, R.Equals)
  }

  lemma AcceptsAllGrows(a: Arena<Symbol>, b: Arena<Symbol>, initial: nat, ms: seq<Sessions.Message>)
    requires AcceptsAll(a, initial, ms) && Closed(b) && Grows(a, b)
    ensures AcceptsAll(b, initial, ms)
  {
    forall k | 0 <= k < |ms| ensures Accepts(b, true, initial, MessageSymbols(ms[k]), 0, R.Equals) {
      AcceptsGrows(a, b, initial, MessageSymbols(ms[k]), R.Equals);
    }
  }

  /**
   * The prefix tree built so far from `a0` by the messages `ms`: the list is
   * closed, nothing of `a0` is lost, every message is accepted, and each token
   * added one to the total frequency.
   */
  ghost predicate Built(a0: Arena<Symbol>, a: Arena<Symbol>, initial: nat, list: seq<nat>, ms: seq<Sessions.Message>)
  {
    ListClosed(a, initial, list) && Grows(a0, a) && AcceptsAll(a, initial, ms) &&
    TotalFreq(a) == TotalFreq(a0) + TokenCount(ms)
  }

  /** One message into the tree. */
  method AddOne(aut: Automaton<Symbol>, message: Sessions.Message, ghost a0: Arena<Symbol>, ghost ms: seq<Sessions.Message>)
    requires Built(a0, aut.states, aut.initial, aut.allStates, ms)
    modifies aut
    ensures Built(a0, aut.states, aut.initial, aut.allStates, ms + [message]) && aut.initial == old(aut.initial)
  {
    ghost var a, list, id := aut.states, aut.allStates, aut.nextId;
    ghost var sq := MessageSymbols(message);
    InsertedListClosed(a, aut.initial, list, sq, id, R.Equals);
    AddedMessage(a, aut.initial, message, id);
    AddMessage(aut, message);
    BuiltStep(a0, a, aut.states, aut.initial, aut.allStates, ms, message);
  }

  /** One more message, accepted by an arena that grows the last one, keeps the tree built. */
  lemma BuiltStep(a0: Arena<Symbol>, a: Arena<Symbol>, b: Arena<Symbol>, initial: nat, list: seq<nat>,
                  ms: seq<Sessions.Message>, message: Sessions.Message)
    requires Closed(a) && initial < |a| && AcceptsAll(a, initial, ms) && Grows(a0, a)
    requires TotalFreq(a) == TotalFreq(a0) + TokenCount(ms)
    requires ListClosed(b, initial, list) && Grows(a, b)
    requires Accepts(b, true, initial, MessageSymbols(message), 0, R.Equals)
    requires TotalFreq(b) == TotalFreq(a) + |MessageSymbols(message)|
    ensures Built(a0, b, initial, list, ms + [message])
  {
    AcceptsAllGrows(a, b, initial, ms);
    GrowsTrans(a0, a, b);
    var ms' := ms + [message];
    assert ms'[..|ms|] == ms;
    assert AcceptsAll(b, initial, ms') by {
      forall k | 0 <= k < |ms'| ensures Accepts(b, true, initial, MessageSymbols(ms'[k]), 0, R.Equals) {
        if k < |ms| {
          assert ms'[k] == ms[k];
        }
      }
    }
  }

  /** The inner loop of `inferFromTraces`: the messages of one session whose direction matches. */
  method AddSession(aut: Automaton<Symbol>, isInput: bool, session: seq<Sessions.Message>,
                    ghost a0: Arena<Symbol>, ghost ms: seq<Sessions.Message>)
    requires Built(a0, aut.states, aut.initial, aut.allStates, ms)
    modifies aut
    ensures Built(a0, aut.states, aut.initial, aut.allStates, ms + Directed(session, isInput))
    ensures aut.initial == old(aut.initial)
  {
    assert ms + Directed(session[..0], isInput) == ms;
    for j := 0 to |session|
      invariant Built(a0, aut.states, aut.initial, aut.allStates, ms + Directed(session[..j], isInput))
      invariant aut.initial == old(aut.initial)
    {
      assert session[..j + 1][..j] == session[..j];
      assert session[..j + 1][j] == session[j];
      if session[j].isRequest == isInput {
        AddOne(aut, session[j], a0, ms + Directed(session[..j], isInput));
        assert Directed(session[..j + 1], isInput) == Directed(session[..j], isInput) + [session[j]];
        Assoc(ms, Directed(session[..j], isInput), [session[j]]);
      } else {
        assert Directed(session[..j + 1], isInput) == Directed(session[..j], isInput) + [];
        assert Directed(session[..j], isInput) + [] == Directed(session[..j], isInput);
      }
    }
    assert session[..|session|] == session;
  }

  /**
   * The first loop of `inferFromTraces`: every message of the wanted
   * direction, session by session, goes into the tree.
   */
  method AddSessions(aut: Automaton<Symbol>, isInput: bool, sessions: seq<seq<Sessions.Message>>)
    requires ListClosed(aut.states, aut.initial, aut.allStates)
    modifies aut
    ensures Built(old(aut.states), aut.states, aut.initial, aut.allStates, Picked(sessions, isInput))
    ensures aut.initial == old(aut.initial)
  {
    ghost var a0 := aut.states;
    for i := 0 to |sessions|
      invariant Built(a0, aut.states, aut.initial, aut.allStates, Picked(sessions[..i], isInput))
      invariant aut.initial == old(aut.initial)
    {
      assert sessions[..i + 1][..i] == sessions[..i];
      AddSession(aut, isInput, sessions[i], a0, Picked(sessions[..i], isInput));
    }
    assert sessions[..|sessions|] == sessions;
  }

  /** After the first loop every message of the wanted direction is accepted, and only those add to the frequencies. */
  lemma TreeAcceptsPicked(a0: Arena<Symbol>, a: Arena<Symbol>, initial: nat, list: seq<nat>,
                          sessions: seq<seq<Sessions.Message>>, isInput: bool, m: Sessions.Message)
    requires Built(a0, a, initial, list, Picked(sessions, isInput))
    requires exists i :: 0 <= i < |sessions| && m in sessions[i]
    requires m.isRequest == isInput
    ensures Accepts(a, true, initial, MessageSymbols(m), 0, R.Equals)
  {
    PickedMembers(sessions, isInput);
    var ms := Picked(sessions, isInput);
    var k :| 0 <= k < |ms| && ms[k] == m;
  }

  // ---------------------------------------------------------------------
  // The deprecated addSequence(String)
  // ---------------------------------------------------------------------

  /**
   * `RegEx.match(data, offset)`: the length of a match of the symbol's
   * pattern starting exactly at `offset`, 0 when there is none. The pattern
   * engine is not part of this model; the function is a parameter.
   */
  type Matcher = (Symbol, string, nat) -> nat

  /** A match never runs past the end of the data. */
  ghost predicate WithinData(matcher: Matcher)
  {
    forall r: Symbol, d: string, i: nat :: i <= |d| ==> i + matcher(r, d, i) <= |d|
  }

  /** The first transition whose symbol matches a non-empty prefix of `d[i..]`. */
  function FirstMatch(ts: seq<Transition<Symbol>>, d: string, i: nat, matcher: Matcher): (r: Option<nat>)
    ensures r.Some? ==> r.value < |ts| && matcher(ts[r.value].symbol, d, i) > 0
    ensures r.Some? ==> forall j :: 0 <= j < r.value ==> matcher(ts[j].symbol, d, i) == 0
    ensures r.None? <==> forall j :: 0 <= j < |ts| ==> matcher(ts[j].symbol, d, i) == 0
  {
    if ts == [] then None
    else if matcher(ts[0].symbol, d, i) > 0 then Some(0)
    else match FirstMatch(ts[1..], d, i, matcher)
      case None => None
      case Some(k) => Some(k + 1)
  }

  /** `FirstMatch` looks only at symbols. */
  lemma {:induction false} FirstMatchShape(ts: seq<Transition<Symbol>>, us: seq<Transition<Symbol>>, d: string, i: nat, matcher: Matcher)
    requires |ts| == |us| && forall k :: 0 <= k < |ts| ==> ts[k].symbol == us[k].symbol
    ensures FirstMatch(ts, d, i, matcher) == FirstMatch(us, d, i, matcher)
  {
    if ts != [] {
      FirstMatchShape(ts[1..], us[1..], d, i, matcher);
    }
  }

  /**
   * The common-prefix loop of the deprecated `addSequence`: while the state
   * is not final, follow the first transition whose symbol matches at the
   * offset and move the offset past the match. The result is the steps
   * taken, the state reached and the offset reached; every step consumes at
   * least one character.
   */
  function MatchWalk(a: Arena<Symbol>, s: nat, d: string, i: nat, matcher: Matcher): (r: (seq<(nat, nat)>, nat, nat))
    requires Closed(a) && s < |a| && i <= |d| && WithinData(matcher)
    ensures r.1 < |a| && i + |r.0| <= r.2 <= |d| && StepsIn(a, r.0)
    decreases |d| - i
  {
    if a[s].isFinal then ([], s, i)
    else match FirstMatch(a[s].transitions, d, i, matcher)
      case None => ([], s, i)
      case Some(k) =>
        var t := a[s].transitions[k];
        var r := MatchWalk(a, t.dest, d, i + matcher(t.symbol, d, i), matcher);
        ([(s, k)] + r.0, r.1, r.2)
  }

  /** The symbols `tokenize(message, offset)` gives the rest of the message. */
  function RestSymbols(d: string, i: nat): seq<Symbol>
    requires i <= |d|
  {
    R.Symbols(Split(SpaceOrCrlf, d, i))
  }

  /**
   * The arena after the deprecated `addSequence(automaton, message)`: the
   * matched transitions counted once more, the tokens of the unmatched rest
   * appended as a fresh chain, and its last state final.
   */
  function InsertedByMatch(a: Arena<Symbol>, s: nat, d: string, id: int, matcher: Matcher): Arena<Symbol>
    requires Closed(a) && s < |a| && WithinData(matcher)
  {
    var w := MatchWalk(a, s, d, 0, matcher);
    var b := Bump(a, w.0);
    var sq := RestSymbols(d, w.2);
    WithFinal(Grow(b, w.1, sq, 0, id), GrowEnd(b, w.1, sq, 0), true)
  }

  /** Having taken `steps` and reached `s` at offset `i`, the rest of the walk completes `w`. */
  ghost predicate OnMatchWalk(a: Arena<Symbol>, d: string, matcher: Matcher, w: (seq<(nat, nat)>, nat, nat),
                              steps: seq<(nat, nat)>, s: nat, i: nat)
    requires Closed(a) && s < |a| && i <= |d| && WithinData(matcher)
  {
    var r := MatchWalk(a, s, d, i, matcher);
    steps + r.0 == w.0 && r.1 == w.1 && r.2 == w.2
  }

  /** One round of the common-prefix loop: the first matching transition counted once more and followed. */
  method MatchOne(aut: Automaton<Symbol>, state: nat, offset: nat, message: string, matcher: Matcher,
                  ghost a0: Arena<Symbol>, ghost w0: (seq<(nat, nat)>, nat, nat), ghost steps: seq<(nat, nat)>)
    returns (found: bool, next: nat, offset': nat, ghost steps': seq<(nat, nat)>)
    requires aut.Valid() && Closed(a0) && StepsIn(a0, steps) && aut.states == Bump(a0, steps) && WithinData(matcher)
    requires state < |a0| && offset <= |message| && !aut.states[state].isFinal
    requires OnMatchWalk(a0, message, matcher, w0, steps, state, offset)
    modifies aut
    ensures aut.Valid() && aut.initial == old(aut.initial) && aut.allStates == old(aut.allStates) && aut.nextId == old(aut.nextId)
    ensures StepsIn(a0, steps') && aut.states == Bump(a0, steps')
    ensures found ==> offset < offset' <= |message|
    ensures found ==> next < |a0|
    ensures found ==> OnMatchWalk(a0, message, matcher, w0, steps', next, offset')
    ensures !found ==> steps' == w0.0 && next == w0.1 && offset' == w0.2
  {
    ghost var t0 := a0[state].transitions;
    var ts := aut.states[state].transitions;
    FirstMatchShape(t0, ts, message, offset, matcher);
    var r := FindMatch(ts, message, offset, matcher);
    if r.None? {
      assert steps + [] == steps;
      return false, state, offset, steps;
    }
    var k := r.value;
    var m := matcher(ts[k].symbol, message, offset);
    found, next, offset', steps' := true, ts[k].dest, offset + m, steps + [(state, k)];
    MatchWalkStep(a0, message, matcher, w0, steps, state, offset, k, steps', next, offset');
    BumpSnoc(a0, steps, state, k);
    aut.SetFreq(state, k, ts[k].freq + 1);
  }

  /** The scan over the transitions of one state for the first whose symbol matches at `offset`. */
  method FindMatch(ts: seq<Transition<Symbol>>, d: string, i: nat, matcher: Matcher) returns (r: Option<nat>)
    ensures r == FirstMatch(ts, d, i, matcher)
  {
    var k: nat := 0;
    while k < |ts|
      invariant k <= |ts| && forall j :: 0 <= j < k ==> matcher(ts[j].symbol, d, i) == 0
    {
      if matcher(ts[k].symbol, d, i) > 0 {
        return Some(k);
      }
      k := k + 1;
    }
    return None;
  }

  /** Following the first matching transition continues the walk. */
  lemma MatchWalkStep(a: Arena<Symbol>, d: string, matcher: Matcher, w: (seq<(nat, nat)>, nat, nat),
                      steps: seq<(nat, nat)>, s: nat, i: nat, k: nat, steps': seq<(nat, nat)>, next: nat, i': nat)
    requires Closed(a) && s < |a| && i <= |d| && WithinData(matcher) && !a[s].isFinal
    requires OnMatchWalk(a, d, matcher, w, steps, s, i)
    requires FirstMatch(a[s].transitions, d, i, matcher) == Some(k)
    requires next == a[s].transitions[k].dest && i' == i + matcher(a[s].transitions[k].symbol, d, i)
    requires steps' == steps + [(s, k)]
    ensures next < |a| && i < i' <= |d| && OnMatchWalk(a, d, matcher, w, steps', next, i')
  {
    var t := a[s].transitions[k];
    var r := MatchWalk(a, t.dest, d, i + matcher(t.symbol, d, i), matcher);
    Assoc(steps, [(s, k)], r.0);
  }

  /**
   * The deprecated `addSequence(automaton, String)`: advance by the first
   * transition whose symbol matches at the offset, then tokenise the rest
   * of the message from the offset reached and append it as a fresh chain.
   * As its own comment warns, a symbol may match part of a field.
   */
  method AddSequenceByMatch(aut: Automaton<Symbol>, message: string, matcher: Matcher)
    requires aut.Valid() && WithinData(matcher)
    modifies aut
    ensures aut.Valid() && aut.initial == old(aut.initial)
    ensures aut.states == InsertedByMatch(old(aut.states), old(aut.initial), message, old(aut.nextId), matcher)
    ensures var w := MatchWalk(old(aut.states), old(aut.initial), message, 0, matcher);
      var added := |RestSymbols(message, w.2)|;
      aut.allStates == old(aut.allStates) + Ids(old(|aut.states|), added) && aut.nextId == old(aut.nextId) + added
  {
    ghost var w := MatchWalk(aut.states, aut.initial, message, 0, matcher);
    var state, offset := MatchPrefix(aut, message, matcher);
    var r := R.Tokenize(message, offset);
    var symbols := if r.Ok? then r.value else [];
    var i;
    state, i := aut.AppendRest(state, symbols, 0);
    aut.SetFinal(state, true);
  }

  /** The common-prefix loop of the deprecated `addSequence`. */
  method MatchPrefix(aut: Automaton<Symbol>, message: string, matcher: Matcher) returns (state: nat, offset: nat)
    requires aut.Valid() && WithinData(matcher)
    modifies aut
    ensures aut.Valid() && aut.initial == old(aut.initial) && aut.allStates == old(aut.allStates) && aut.nextId == old(aut.nextId)
    ensures var w := MatchWalk(old(aut.states), old(aut.initial), message, 0, matcher);
      aut.states == Bump(old(aut.states), w.0) && state == w.1 && offset == w.2
  {
    ghost var a0 := aut.states;
    ghost var w := MatchWalk(a0, aut.initial, message, 0, matcher);
    ghost var steps: seq<(nat, nat)> := [];
    state, offset := aut.initial, 0;
    while !aut.states[state].isFinal
      invariant aut.Valid() && aut.initial == old(aut.initial) && aut.allStates == old(aut.allStates) && aut.nextId == old(aut.nextId)
      invariant state < |a0|
      invariant |a0| == |aut.states|
      invariant offset <= |message|
      invariant StepsIn(a0, steps)
      invariant aut.states == Bump(a0, steps)
      invariant OnMatchWalk(a0, message, matcher, w, steps, state, offset)
      decreases |message| - offset
    {
      var found;
      found, state, offset, steps := MatchOne(aut, state, offset, message, matcher, a0, w, steps);
      if !found {
        return;
      }
    }
    assert a0[state].isFinal;
    assert steps + [] == steps;
  }
}

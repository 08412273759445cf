// `RegEx.getPath`: the backtracking search for a path of the automaton
// whose symbols match consecutive pieces of a message, and
// `getConcatenatedPath`, the symbols of that path concatenated. The regular
// expression engine's `match(data, offset)` is a parameter.
module RegExPaths {
  import opened Wrappers
  import opened JavaStrings
  import opened PatternText
  import opened Automata
  import opened RegExSymbols

  /**
   * What the regular expression engine guarantees of `match(msg, off)`: the
   * length of a match anchored at `off` (0 when there is none), which never
   * runs past the end of the message.
   */
  ghost predicate MatchWithin<T(!new)>(matcher: (T, string, nat) -> nat, msg: string)
  {
    forall x, off: nat :: off <= |msg| ==> matcher(x, msg, off) <= |msg| - off
  }

  /**
   * `_get_path(msg, off, s, path)`: the transitions found from `s`, or None
   * when the search fails. The search succeeds as soon as the message is
   * consumed, whether or not the state reached is final.
   */
  function PathFrom<T(!new)>(a: Arena<T>, msg: string, off: nat, s: nat, matcher: (T, string, nat) -> nat)
    : Option<seq<Transition<T>>>
    requires Closed(a) && s < |a| && off <= |msg| && MatchWithin(matcher, msg)
    decreases |msg| - off, |a[s].transitions| + 1
  {
    if |msg| == off then Some([]) else PathVia(a, msg, off, s, 0, matcher)
  }

  /** The loop of `_get_path` over the transitions of `s` from the `k`-th on. */
  function PathVia<T(!new)>(a: Arena<T>, msg: string, off: nat, s: nat, k: nat, matcher: (T, string, nat) -> nat)
    : Option<seq<Transition<T>>>
    requires Closed(a) && s < |a| && off < |msg| && MatchWithin(matcher, msg) && k <= |a[s].transitions|
    decreases |msg| - off, |a[s].transitions| - k
  {
    if k == |a[s].transitions| then None
    else
      var t := a[s].transitions[k];
      var m := matcher(t.symbol, msg, off);
      if m > 0 then
        match PathFrom(a, msg, off + m, t.dest, matcher)
        case Some(p) => Some([t] + p)
        case None => PathVia(a, msg, off, s, k + 1, matcher)
      else PathVia(a, msg, off, s, k + 1, matcher)
  }

  /** `getPath(automaton, msg)`: null becomes None. */
  function GetPath<T(!new)>(a: Arena<T>, initial: nat, msg: string, matcher: (T, string, nat) -> nat)
    : Option<seq<Transition<T>>>
    requires Closed(a) && initial < |a| && MatchWithin(matcher, msg)
  {
    PathFrom(a, msg, 0, initial, matcher)
  }

  /**
   * The reference: `p` is a chain of transitions, each one leaving the state
   * the previous one entered, each matching a non-empty piece of the message
   * right after the previous piece, the pieces together ending at its end.
   */
  ghost predicate IsMatchPath<T>(a: Arena<T>, msg: string, off: nat, s: nat, p: seq<Transition<T>>,
                                 matcher: (T, string, nat) -> nat)
    requires Closed(a) && s < |a|
    decreases |p|
  {
    if p == [] then off == |msg|
    else
      (exists k :: 0 <= k < |a[s].transitions| && a[s].transitions[k] == p[0]) &&
      p[0].dest < |a| && 0 < matcher(p[0].symbol, msg, off) &&
      IsMatchPath(a, msg, off + matcher(p[0].symbol, msg, off), p[0].dest, p[1..], matcher)
  }

  /** Every path the search returns is a matching path. */
  lemma {:induction false} PathFromSound<T(!new)>(a: Arena<T>, msg: string, off: nat, s: nat, matcher: (T, string, nat) -> nat)
    requires Closed(a) && s < |a| && off <= |msg| && MatchWithin(matcher, msg)
    ensures PathFrom(a, msg, off, s, matcher).Some? ==> IsMatchPath(a, msg, off, s, PathFrom(a, msg, off, s, matcher).value, matcher)
    decreases |msg| - off, |a[s].transitions| + 1
  {
    if |msg| != off {
      PathViaSound(a, msg, off, s, 0, matcher);
    }
  }

  lemma {:induction false} PathViaSound<T(!new)>(a: Arena<T>, msg: string, off: nat, s: nat, k: nat, matcher: (T, string, nat) -> nat)
    requires Closed(a) && s < |a| && off < |msg| && MatchWithin(matcher, msg) && k <= |a[s].transitions|
    ensures PathVia(a, msg, off, s, k, matcher).Some? ==> IsMatchPath(a, msg, off, s, PathVia(a, msg, off, s, k, matcher).value, matcher)
    decreases |msg| - off, |a[s].transitions| - k
  {
    if k < |a[s].transitions| {
      var t := a[s].transitions[k];
      var m := matcher(t.symbol, msg, off);
      if m > 0 {
        PathFromSound(a, msg, off + m, t.dest, matcher);
        match PathFrom(a, msg, off + m, t.dest, matcher)
        case Some(p) =>
          var q := [t] + p;
          assert q[0] == a[s].transitions[k] && q[1..] == p;
        case None =>
          PathViaSound(a, msg, off, s, k + 1, matcher);
      } else {
        PathViaSound(a, msg, off, s, k + 1, matcher);
      }
    }
  }

  /** The search is exhaustive: whenever a matching path exists, it finds one. */
  lemma {:induction false} PathFromComplete<T(!new)>(a: Arena<T>, msg: string, off: nat, s: nat, p: seq<Transition<T>>,
                                                    matcher: (T, string, nat) -> nat)
    requires Closed(a) && s < |a| && off <= |msg| && MatchWithin(matcher, msg)
    requires IsMatchPath(a, msg, off, s, p, matcher)
    ensures PathFrom(a, msg, off, s, matcher).Some?
    decreases |p|
  {
    if |msg| != off {
      var k :| 0 <= k < |a[s].transitions| && a[s].transitions[k] == p[0];
      var m := matcher(p[0].symbol, msg, off);
      PathFromComplete(a, msg, off + m, p[0].dest, p[1..], matcher);
      PathViaReaches(a, msg, off, s, 0, k, matcher);
    }
  }

  /** The loop from `j` on finds a path when the `k`-th transition leads to one. */
  lemma {:induction false} PathViaReaches<T(!new)>(a: Arena<T>, msg: string, off: nat, s: nat, j: nat, k: nat,
                                                  matcher: (T, string, nat) -> nat)
    requires Closed(a) && s < |a| && off < |msg| && MatchWithin(matcher, msg) && j <= k < |a[s].transitions|
    requires 0 < matcher(a[s].transitions[k].symbol, msg, off)
    requires PathFrom(a, msg, off + matcher(a[s].transitions[k].symbol, msg, off), a[s].transitions[k].dest, matcher).Some?
    ensures PathVia(a, msg, off, s, j, matcher).Some?
    decreases k - j
  {
    if j < k {
      PathViaReaches(a, msg, off, s, j + 1, k, matcher);
    }
  }

  /** `getPath` returns null exactly when no matching path exists. */
  lemma GetPathNone<T(!new)>(a: Arena<T>, initial: nat, msg: string, matcher: (T, string, nat) -> nat)
    requires Closed(a) && initial < |a| && MatchWithin(matcher, msg)
    ensures GetPath(a, initial, msg, matcher).None? ==> forall p :: !IsMatchPath(a, msg, 0, initial, p, matcher)
    ensures (forall p :: !IsMatchPath(a, msg, 0, initial, p, matcher)) ==> GetPath(a, initial, msg, matcher).None?
  {
    PathFromSound(a, msg, 0, initial, matcher);
    if !forall q :: !IsMatchPath(a, msg, 0, initial, q, matcher) {
      var q :| IsMatchPath(a, msg, 0, initial, q, matcher);
      PathFromComplete(a, msg, 0, initial, q, matcher);
      assert !forall p :: !IsMatchPath(a, msg, 0, initial, p, matcher);
    }
  }

  /** Each step consumes at least one character, so a matching path is no longer than what remains. */
  lemma {:induction false} MatchPathLength<T>(a: Arena<T>, msg: string, off: nat, s: nat, p: seq<Transition<T>>,
                                              matcher: (T, string, nat) -> nat)
    requires Closed(a) && s < |a| && IsMatchPath(a, msg, off, s, p, matcher)
    ensures off + |p| <= |msg|
    decreases |p|
  {
    if p != [] {
      MatchPathLength(a, msg, off + matcher(p[0].symbol, msg, off), p[0].dest, p[1..], matcher);
    }
  }

  function SymbolOf<T>(t: Transition<T>): T
  {
    t.symbol
  }

  /**
   * `getConcatenatedPath`: the symbols of the path `getPath` finds,
   * concatenated; iterating over the null path throws.
   */
  function GetConcatenatedPath(a: Arena<RegEx>, initial: nat, msg: string, matcher: (RegEx, string, nat) -> nat)
    : (r: Result<RegEx>)
    requires Closed(a) && initial < |a| && MatchWithin(matcher, msg)
    ensures r.Err? ==> r.error == NullPointer
  {
    match GetPath(a, initial, msg, matcher)
    case None => Err(NullPointer)
    case Some(p) => Ok(ConcatAll(MapSeq(SymbolOf, p)))
  }

  /**
   * When the path found is built from data symbols `ds` (as `addSequence`
   * builds it), the concatenated symbol quotes the joined data; with no
   * matching path the call throws.
   */
  lemma ConcatenatedPathOfData(a: Arena<RegEx>, initial: nat, msg: string, matcher: (RegEx, string, nat) -> nat, ds: seq<string>)
    requires Closed(a) && initial < |a| && MatchWithin(matcher, msg)
    requires GetPath(a, initial, msg, matcher).Some? ==>
      var p := GetPath(a, initial, msg, matcher).value;
      |p| == |ds| && (forall i :: 0 <= i < |p| ==> p[i].symbol == OfData(ds[i])) && NoQuoteTags(Flatten(ds))
    ensures GetConcatenatedPath(a, initial, msg, matcher).Err? ==> forall p :: !IsMatchPath(a, msg, 0, initial, p, matcher)
    ensures (forall p :: !IsMatchPath(a, msg, 0, initial, p, matcher)) ==> GetConcatenatedPath(a, initial, msg, matcher).Err?
    ensures GetConcatenatedPath(a, initial, msg, matcher).Ok? ==>
      GetConcatenatedPath(a, initial, msg, matcher).value.pattern == Quoted(Flatten(ds), true)
  {
    GetPathNone(a, initial, msg, matcher);
    if GetPath(a, initial, msg, matcher).Some? {
      var p := GetPath(a, initial, msg, matcher).value;
      ConcatAllOfData(MapSeq(SymbolOf, p), ds);
    }
  }
}

// The message-type symbols of the state-machine layer: LanguageMessageType
// (reverx/src/automata/LanguageMessageType.java), a path of transitions in
// the language automaton, and IORegEx (reverx/src/automata/IORegEx.java), an
// input pattern and an output pattern each folded with `RegEx.concat`.
module MessageTypes {
  import opened JavaTypes
  import opened JavaStrings
  import opened PatternText
  import opened Automata
  import opened RegExSymbols

  // ----- LanguageMessageType -----

  type Path = seq<Transition<RegEx>>

  /** `new LanguageMessageType(path)`: the path of transitions that accepts a type of message. */
  datatype LanguageMessageType = LanguageMessageType(path: Path)

  /** What `equals(Object)` may be handed: another message type, or an object of some other class. */
  datatype TypeArgument = OfLanguage(other: LanguageMessageType) | NotLanguage

  /** Two paths of equal length whose symbols are pairwise equal; destinations and frequencies take no part. */
  predicate SameSymbols(p0: Path, p1: Path)
  {
    |p0| == |p1| && forall i :: 0 <= i < |p0| ==> RegExSymbols.Equals(p0[i].symbol, p1[i].symbol)
  }

  /**
   * `equals(obj)`: the two iterators advance in lockstep until one runs out or
   * two symbols differ; both must run out together. An object of another
   * class is compared by identity, which cannot hold for an object of a
   * different class.
   */
  method Equals(self: LanguageMessageType, obj: TypeArgument) returns (r: bool)
    ensures r <==> obj.OfLanguage? && SameSymbols(self.path, obj.other.path)
  {
    if !obj.OfLanguage? {
      return false;
    }
    var p0, p1 := self.path, obj.other.path;
    var i: nat := 0;
    while i < |p0| && i < |p1|
      invariant i <= |p0| && i <= |p1|
      invariant forall k :: 0 <= k < i ==> RegExSymbols.Equals(p0[k].symbol, p1[k].symbol)
    {
      if !RegExSymbols.Equals(p0[i].symbol, p1[i].symbol) {
        return false;
      }
      i := i + 1;
    }
    r := (i < |p0|) == (i < |p1|);
  }

  /** A path that is a proper prefix of another is never equal to it. */
  lemma ProperPrefixDiffers(p: Path, q: Path)
    requires |p| < |q| && p == q[..|p|]
    ensures !SameSymbols(p, q) && !SameSymbols(q, p)
  {
  }

  /** Equality of message types is an equivalence. */
  lemma SameSymbolsEquivalence(p0: Path, p1: Path, p2: Path)
    ensures SameSymbols(p0, p0)
    ensures SameSymbols(p0, p1) ==> SameSymbols(p1, p0)
    ensures SameSymbols(p0, p1) && SameSymbols(p1, p2) ==> SameSymbols(p0, p2)
  {
  }

  /** A symbol's `hashCode`, an `int`, as the 32 bits `^` works on. */
  function IntBits(x: Int32): bv32
  {
    (if x < 0 then x + TWO_32 else x) as bv32
  }

  /** The symbol hash that `Transition.hashCode` uses for a `RegEx`. */
  function SymbolHash(r: RegEx): bv32
  {
    IntBits(HashCode(r))
  }

  /**
   * `List.hashCode` of a path, `31 * h + e.hashCode()` from 1, where each
   * transition hashes its symbol XOR its destination's identity hash.
   */
  function ListHash<T>(p: seq<Transition<T>>, symbolHash: T -> bv32, stateHash: nat -> bv32): bv32
  {
    if p == [] then 1 else 31 * ListHash(p[..|p| - 1], symbolHash, stateHash) + TransitionHash(p[|p| - 1], symbolHash, stateHash)
  }

  /** `hashCode()`: the hash of the path, with each symbol hashed through its pattern. */
  function PathHash(self: LanguageMessageType, stateHash: nat -> bv32): bv32
  {
    ListHash(self.path, SymbolHash, stateHash)
  }

  /**
   * Equal message types can hash differently: one symbol, reached at two
   * states whose identity hashes differ, gives equal types with different
   * hashes, whatever the symbols hash to.
   */
  lemma EqualTypesHashApart<T>(r: T, symbolHash: T -> bv32, stateHash: nat -> bv32)
    requires stateHash(0) != stateHash(1)
    ensures var p0, p1 := [Transition(r, 0, 0)], [Transition(r, 1, 0)];
      ListHash(p0, symbolHash, stateHash) != ListHash(p1, symbolHash, stateHash)
  {
    var t0, t1 := Transition(r, 0, 0), Transition(r, 1, 0);
    XorInjective(symbolHash(r), stateHash(0), stateHash(1));
    assert TransitionHash(t0, symbolHash, stateHash) != TransitionHash(t1, symbolHash, stateHash);
    OneApart(t0, t1, symbolHash, stateHash);
  }

  /** One-transition paths whose transitions hash apart hash apart. */
  lemma OneApart<T>(t0: Transition<T>, t1: Transition<T>, symbolHash: T -> bv32, stateHash: nat -> bv32)
    requires TransitionHash(t0, symbolHash, stateHash) != TransitionHash(t1, symbolHash, stateHash)
    ensures ListHash([t0], symbolHash, stateHash) != ListHash([t1], symbolHash, stateHash)
  {
    ListHashOne(t0, symbolHash, stateHash);
    ListHashOne(t1, symbolHash, stateHash);
    AddInjective(TransitionHash(t0, symbolHash, stateHash), TransitionHash(t1, symbolHash, stateHash));
  }

  /** The hash of a one-transition path. */
  lemma ListHashOne<T>(t: Transition<T>, symbolHash: T -> bv32, stateHash: nat -> bv32)
    ensures ListHash([t], symbolHash, stateHash) == 31 + TransitionHash(t, symbolHash, stateHash)
  {
    assert [t][..0] == [];
  }

  /** Two message types of one symbol whose paths end at states of different identity hash: equal, hashed apart. */
  lemma EqualMessageTypesHashApart(r: RegEx, stateHash: nat -> bv32)
    requires stateHash(0) != stateHash(1)
    ensures var m0, m1 := LanguageMessageType([Transition(r, 0, 0)]), LanguageMessageType([Transition(r, 1, 0)]);
      SameSymbols(m0.path, m1.path) && PathHash(m0, stateHash) != PathHash(m1, stateHash)
  {
    EqualTypesHashApart(r, SymbolHash, stateHash);
  }

  lemma XorInjective(h: bv32, a: bv32, b: bv32)
    requires a != b
    ensures h ^ a != h ^ b
  {
  }

  lemma AddInjective(a: bv32, b: bv32)
    requires a != b
    ensures 31 + a != 31 + b
  {
  }

  /** The printed symbols of a path, one after the other. */
  function PathText(p: Path): string
  {
    if p == [] then "" else PathText(p[..|p| - 1]) + RegExSymbols.ToString(p[|p| - 1].symbol)
  }

  /** `toString()`: the symbols' `toString` appended in path order. */
  method ToString(self: LanguageMessageType) returns (s: string)
    ensures s == PathText(self.path)
  {
    s := "";
    for i := 0 to |self.path|
      invariant s == PathText(self.path[..i])
    {
      assert self.path[..i + 1][..i] == self.path[..i];
      s := s + RegExSymbols.ToString(self.path[i].symbol);
    }
    assert self.path[..|self.path|] == self.path;
  }

  /** Equal message types print alike: the printed form depends only on the symbols' patterns. */
  lemma {:induction false} SameSymbolsSameText(p0: Path, p1: Path)
    requires SameSymbols(p0, p1)
    ensures PathText(p0) == PathText(p1)
    decreases |p0|
  {
    if p0 != [] {
      var n := |p0| - 1;
      SameSymbolsSameText(p0[..n], p1[..n]);
    }
  }

  /** The printed form of a joined path is the two printed forms joined. */
  lemma {:induction false} PathTextAppend(p: Path, q: Path)
    ensures PathText(p + q) == PathText(p) + PathText(q)
    decreases |q|
  {
    if q == [] {
      assert p + q == p;
    } else {
      var n := |q| - 1;
      assert (p + q)[..|p + q| - 1] == p + q[..n];
      PathTextAppend(p, q[..n]);
    }
  }

  // ----- IORegEx -----

  /** An input/output message type: the concatenated request symbols and the concatenated response symbols. */
  datatype IORegEx = IORegEx(input: RegEx, output: RegEx)

  /** What `equals(Object)` may be handed: another pair, or an object of some other class. */
  datatype PairArgument = OfPair(other: IORegEx) | NotPair

  /** `new IORegEx(input, output)`: each list folded with `concat`, starting from `new RegEx("")`. */
  method NewIORegEx(inputs: seq<RegEx>, outputs: seq<RegEx>) returns (r: IORegEx)
    ensures r.input == ConcatAll(inputs) && r.output == ConcatAll(outputs)
  {
    var input := OfPattern("");
    for i := 0 to |inputs|
      invariant input == ConcatAll(inputs[..i])
    {
      assert inputs[..i + 1][..i] == inputs[..i];
      input := Concat(input, inputs[i]);
    }
    assert inputs[..|inputs|] == inputs;
    var output := OfPattern("");
    for i := 0 to |outputs|
      invariant output == ConcatAll(outputs[..i])
    {
      assert outputs[..i + 1][..i] == outputs[..i];
      output := Concat(output, outputs[i]);
    }
    assert outputs[..|outputs|] == outputs;
    r := IORegEx(input, output);
  }

  /**
   * Built from data symbols, each side quotes the joined data of its list;
   * an empty list gives the empty pattern.
   */
  lemma IORegExOfData(inputs: seq<RegEx>, ins: seq<string>, outputs: seq<RegEx>, outs: seq<string>)
    requires |inputs| == |ins| && forall i :: 0 <= i < |inputs| ==> inputs[i] == OfData(ins[i])
    requires |outputs| == |outs| && forall i :: 0 <= i < |outputs| ==> outputs[i] == OfData(outs[i])
    requires NoQuoteTags(Flatten(ins)) && NoQuoteTags(Flatten(outs))
    ensures ConcatAll(inputs).pattern == Quoted(Flatten(ins), true)
    ensures ConcatAll(outputs).pattern == Quoted(Flatten(outs), true)
    ensures inputs == [] ==> ConcatAll(inputs).pattern == ""
  {
    ConcatAllOfData(inputs, ins);
    ConcatAllOfData(outputs, outs);
  }

  /** `equals(o)`: both patterns equal; false for an object of another class. */
  predicate PairEquals(self: IORegEx, o: PairArgument)
  {
    o.OfPair? && RegExSymbols.Equals(self.input, o.other.input) && RegExSymbols.Equals(self.output, o.other.output)
  }

  /** `hashCode()`: the input's hash XOR the output's hash. */
  function PairHash(self: IORegEx): bv32
  {
    SymbolHash(self.input) ^ SymbolHash(self.output)
  }

  /** Equal pairs hash alike, and equality of pairs is an equivalence. */
  lemma PairHashConsistent(p: IORegEx, q: IORegEx, s: IORegEx)
    ensures PairEquals(p, OfPair(q)) ==> PairHash(p) == PairHash(q)
    ensures PairEquals(p, OfPair(p)) && !PairEquals(p, NotPair)
    ensures PairEquals(p, OfPair(q)) ==> PairEquals(q, OfPair(p))
    ensures PairEquals(p, OfPair(q)) && PairEquals(q, OfPair(s)) ==> PairEquals(p, OfPair(s))
  {
    if PairEquals(p, OfPair(q)) {
      EqualsHashCode(p.input, q.input);
      EqualsHashCode(p.output, q.output);
    }
  }

  /** `toString()`: the printed input, a slash, the printed output. */
  function PairText(self: IORegEx): (s: string)
    ensures |s| == |RegExSymbols.ToString(self.input)| + 1 + |RegExSymbols.ToString(self.output)|
    ensures s[|RegExSymbols.ToString(self.input)|] == '/'
  {
    RegExSymbols.ToString(self.input) + "/" + RegExSymbols.ToString(self.output)
  }

  /** A pair built from data symbols prints the escaped joined requests, a slash, the escaped joined responses. */
  lemma PairTextOfData(inputs: seq<RegEx>, ins: seq<string>, outputs: seq<RegEx>, outs: seq<string>)
    requires |inputs| == |ins| && forall i :: 0 <= i < |inputs| ==> inputs[i] == OfData(ins[i])
    requires |outputs| == |outs| && forall i :: 0 <= i < |outputs| ==> outputs[i] == OfData(outs[i])
    requires NoQuoteTags(Flatten(ins)) && NoQuoteTags(Flatten(outs))
    ensures PairText(IORegEx(ConcatAll(inputs), ConcatAll(outputs))) == Plain(Flatten(ins)) + "/" + Plain(Flatten(outs))
  {
    IORegExOfData(inputs, ins, outputs, outs);
    assert ConcatAll(inputs).pattern == OfData(Flatten(ins)).pattern;
    assert ConcatAll(outputs).pattern == OfData(Flatten(outs)).pattern;
    ToStringOfData(Flatten(ins));
    ToStringOfData(Flatten(outs));
  }
}

// The command-line option parser of src/utils/Options.java: options matched
// by exact equality with their long or short form, an optional value taken
// from the next argument, and the unmatched arguments kept in order.
module OptionsParser {
  import opened Wrappers
  import opened JavaStrings

  /** A registered option: its long form, its short form, its value and whether it was given. */
  datatype Opt = Opt(long: Option<string>, short: string, value: Option<string>, isSet: bool)

  /** `new Opt(opt, opt_short)`: a missing short form is stored as the empty string. */
  function NewOpt(long: Option<string>, short: Option<string>): Opt
  {
    Opt(long, if short.Some? then short.value else "", None, false)
  }

  /** `Opt.equals(option)`: the long form is compared first, which fails when it is missing, then the short form. */
  function OptEquals(o: Opt, arg: string): Result<bool>
  {
    if o.long.None? then Err(NullPointer) else Ok(arg == o.long.value || arg == o.short)
  }

  /** `arg` is one of the two forms of an option whose long form is present. */
  predicate Names(o: Opt, arg: string)
  {
    o.long.Some? && (arg == o.long.value || arg == o.short)
  }

  /**
   * The scan of the registered options from `k` on for the first one equal to
   * `arg`; an option without a long form met before a match ends the scan
   * with a null dereference.
   */
  function Lookup(options: seq<Opt>, arg: string, k: nat): (r: Result<Option<nat>>)
    requires k <= |options|
    ensures r.Ok? && r.value.Some? ==>
      && k <= r.value.value < |options| && Names(options[r.value.value], arg)
      && forall y :: k <= y < r.value.value ==> options[y].long.Some? && !Names(options[y], arg)
    ensures r == Ok(None) ==> forall y :: k <= y < |options| ==> options[y].long.Some? && !Names(options[y], arg)
    ensures r.Err? ==>
      && r.error == NullPointer
      && exists y :: k <= y < |options| && options[y].long.None? && forall z :: k <= z < y ==> !Names(options[z], arg)
    decreases |options| - k
  {
    if k == |options| then Ok(None)
    else
      match OptEquals(options[k], arg)
      case Err(e) => Err(e)
      case Ok(b) => if b then Ok(Some(k)) else Lookup(options, arg, k + 1)
  }

  /** `getOpt`, and the search in `setArgs`: the options in order until one is equal to `arg`. */
  method FindOpt(options: seq<Opt>, arg: string) returns (r: Result<Option<nat>>)
    ensures r == Lookup(options, arg, 0)
  {
    var k: nat := 0;
    while k < |options|
      invariant k <= |options|
      invariant Lookup(options, arg, 0) == Lookup(options, arg, k)
    {
      var b := OptEquals(options[k], arg);
      if b.Err? {
        return Err(b.error);
      }
      if b.value {
        return Ok(Some(k));
      }
      k := k + 1;
    }
    return Ok(None);
  }

  /** Two lists of options that differ at most in their values and whether they were given. */
  predicate SameForms(o1: seq<Opt>, o2: seq<Opt>)
  {
    |o1| == |o2| && forall k :: 0 <= k < |o1| ==> o1[k].long == o2[k].long && o1[k].short == o2[k].short
  }

  /** The lookup depends only on the forms of the options. */
  lemma {:induction false} LookupForms(o1: seq<Opt>, o2: seq<Opt>, arg: string, k: nat)
    requires SameForms(o1, o2) && k <= |o1|
    ensures Lookup(o1, arg, k) == Lookup(o2, arg, k)
    decreases |o1| - k
  {
    if k < |o1| {
      LookupForms(o1, o2, arg, k + 1);
    }
  }

  /**
   * A matched option `k` at argument `i`: marked as given, and taking the
   * next argument as its value unless there is none or it starts with `-`;
   * with the index of the argument the scan goes on from.
   */
  function Take(options: seq<Opt>, args: seq<string>, i: nat, k: nat): (r: (seq<Opt>, nat))
    requires i < |args| && k < |options|
    ensures SameForms(options, r.0) && r.0[k].isSet
    ensures forall y :: 0 <= y < |options| && y != k ==> r.0[y] == options[y]
    ensures r.1 == i + 1 || (r.1 == i + 2 && i + 1 < |args| && !StartsWith(args[i + 1], "-"))
  {
    if i + 1 < |args| && !StartsWith(args[i + 1], "-") then (options[k := options[k].(isSet := true, value := Some(args[i + 1]))], i + 2)
    else (options[k := options[k].(isSet := true)], i + 1)
  }

  /**
   * `setArgs` from argument `i` on, with `queue` the unmatched arguments so
   * far; a failing lookup stops the scan. Only the values of the options and
   * whether they were given change.
   */
  function Scan(options: seq<Opt>, args: seq<string>, i: nat, queue: seq<string>): (r: (seq<Opt>, seq<string>, Option<Error>))
    requires i <= |args|
    ensures SameForms(options, r.0)
    decreases |args| - i
  {
    if i == |args| then (options, queue, None)
    else
      match Lookup(options, args[i], 0)
      case Err(e) => (options, queue, Some(e))
      case Ok(found) =>
        if found.None? then Scan(options, args, i + 1, queue + [args[i]])
        else
          var t := Take(options, args, i, found.value);
          Scan(t.0, args, t.1, queue)
  }

  /**
   * The arguments a scan queues: those queued before, then only arguments
   * equal to no option.
   */
  lemma {:induction false} ScanQueue(options: seq<Opt>, args: seq<string>, i: nat, queue: seq<string>)
    requires i <= |args|
    ensures var r := Scan(options, args, i, queue);
      && |queue| <= |r.1| && r.1[..|queue|] == queue
      && forall t :: |queue| <= t < |r.1| ==> Lookup(options, r.1[t], 0) == Ok(None)
    decreases |args| - i
  {
    if i < |args| {
      var look := Lookup(options, args[i], 0);
      if look.Ok? {
        if look.value.None? {
          ScanQueue(options, args, i + 1, queue + [args[i]]);
          assert (queue + [args[i]])[..|queue|] == queue;
        } else {
          var t := Take(options, args, i, look.value.value);
          ScanQueue(t.0, args, t.1, queue);
          var r := Scan(t.0, args, t.1, queue);
          forall x | |queue| <= x < |r.1|
            ensures Lookup(options, r.1[x], 0) == Ok(None)
          {
            LookupForms(options, t.0, r.1[x], 0);
          }
        }
      }
    }
  }

  /** When no argument is equal to an option, every argument is queued in order and nothing else changes. */
  lemma {:induction false} ScanAllQueued(options: seq<Opt>, args: seq<string>, i: nat, queue: seq<string>)
    requires i <= |args|
    requires forall j :: i <= j < |args| ==> Lookup(options, args[j], 0) == Ok(None)
    ensures Scan(options, args, i, queue) == (options, queue + args[i..], None)
    decreases |args| - i
  {
    if i < |args| {
      ScanAllQueued(options, args, i + 1, queue + [args[i]]);
      assert queue + [args[i]] + args[i + 1..] == queue + args[i..];
    } else {
      assert queue + args[i..] == queue;
    }
  }

  /** A completed scan leaves an option that was given still given. */
  lemma {:induction false} ScanKeepsSet(options: seq<Opt>, args: seq<string>, i: nat, queue: seq<string>, k: nat)
    requires i <= |args| && k < |options| && options[k].isSet
    ensures var r := Scan(options, args, i, queue); r.2.None? ==> r.0[k].isSet
    decreases |args| - i
  {
    if i < |args| {
      var look := Lookup(options, args[i], 0);
      if look.Ok? {
        if look.value.None? {
          ScanKeepsSet(options, args, i + 1, queue + [args[i]], k);
        } else {
          var t := Take(options, args, i, look.value.value);
          ScanKeepsSet(t.0, args, t.1, queue, k);
        }
      }
    }
  }

  /**
   * After a completed scan, an option equal to an argument that starts with
   * `-` is marked as given: such an argument is never taken as a value.
   */
  lemma {:induction false} ScanSetsDashed(options: seq<Opt>, args: seq<string>, i: nat, queue: seq<string>, j: nat, k: nat)
    requires i <= j < |args| && StartsWith(args[j], "-") && Lookup(options, args[j], 0) == Ok(Some(k))
    ensures var r := Scan(options, args, i, queue); r.2.None? ==> r.0[k].isSet
    decreases |args| - i
  {
    var look := Lookup(options, args[i], 0);
    if look.Ok? {
      if look.value.None? {
        ScanSetsDashed(options, args, i + 1, queue + [args[i]], j, k);
      } else {
        var t := Take(options, args, i, look.value.value);
        LookupForms(options, t.0, args[j], 0);
        if j == i {
          ScanKeepsSet(t.0, args, t.1, queue, k);
        } else {
          assert j >= t.1;
          ScanSetsDashed(t.0, args, t.1, queue, j, k);
        }
      }
    }
  }

  /** An option registered without a short form is equal to the empty argument. */
  lemma EmptyArgumentMatches(long: string)
    ensures OptEquals(NewOpt(Some(long), None), "") == Ok(true)
  {
  }

  /** The three forms of a short argument list against one option: with a value, before another option, and as a flag. */
  lemma ScanExamples()
    ensures var o := [NewOpt(Some("-f"), None)];
      && Scan(o, ["-f", "x"], 0, []) == ([o[0].(isSet := true, value := Some("x"))], [], None)
      && Scan(o, ["-f", "-g"], 0, []) == ([o[0].(isSet := true)], ["-g"], None)
      && Scan(o, ["y", "-f"], 0, []) == ([o[0].(isSet := true)], ["y"], None)
  {
    var o := [NewOpt(Some("-f"), None)];
    assert Lookup(o, "-f", 0) == Ok(Some(0));
    assert Lookup(o, "-g", 0) == Ok(None) && Lookup(o, "y", 0) == Ok(None);
    assert !StartsWith("x", "-") by {
      assert "x"[..1][0] != "-"[0];
    }
    assert StartsWith("-g", "-") by {
      assert "-g"[..1] == "-";
    }
    var given := o[0].(isSet := true);
    assert o[0 := given] == [given];
    assert o[0 := given.(value := Some("x"))] == [given.(value := Some("x"))];
    var flags, late := ["-f", "-g"], ["y", "-f"];
    assert Lookup([given], "-g", 0) == Ok(None);
    assert Take(o, flags, 0, 0) == ([given], 1);
    assert Scan(o, flags, 0, []) == Scan([given], flags, 1, []);
    assert [] + ["-g"] == ["-g"];
    assert Scan([given], flags, 1, []) == Scan([given], flags, 2, ["-g"]);
    assert [] + ["y"] == ["y"];
    assert Scan(o, late, 0, []) == Scan(o, late, 1, ["y"]);
    assert Scan(o, late, 1, ["y"]) == Scan([given], late, 2, ["y"]);
  }

  // ----- stripArg -----

  /** The remaining arguments from `k` on with every non-null one unequal to `arg` kept in order. */
  function Kept(rem: seq<Option<string>>, arg: string): (r: seq<Option<string>>)
    ensures |r| <= |rem|
    ensures |r| == |rem| <==> Some(arg) !in rem
  {
    if rem == [] then [] else (if rem[0] == Some(arg) then [] else [rem[0]]) + Kept(rem[1..], arg)
  }

  /**
   * The loop of `stripArg` from element `k` on, with `kept` the slots of the
   * new array of `slots` filled so far: a null element fails the comparison,
   * an element unequal to `arg` is stored, which overflows a full array, and
   * an equal one is dropped.
   */
  function Strip(rem: seq<Option<string>>, arg: string, slots: nat, k: nat, kept: seq<Option<string>>, found: bool): Result<(seq<Option<string>>, bool)>
    requires k <= |rem| && |kept| <= slots
    decreases |rem| - k
  {
    if k == |rem| then Ok((kept + Nulls(slots - |kept|), found))
    else if rem[k].None? then Err(NullPointer)
    else if rem[k].value != arg then
      if |kept| == slots then Err(IndexOutOfBounds) else Strip(rem, arg, slots, k + 1, kept + [rem[k]], found)
    else Strip(rem, arg, slots, k + 1, kept, true)
  }

  /** `stripArg(arg)`: a new array one shorter than the remaining arguments, which fails for none. */
  function StripArgument(rem: seq<Option<string>>, arg: string): Result<(seq<Option<string>>, bool)>
  {
    if |rem| == 0 then Err(NegativeArraySize) else Strip(rem, arg, |rem| - 1, 0, [], false)
  }

  /** Over remaining arguments without nulls the loop keeps exactly the unequal ones, padded with nulls, or overflows. */
  lemma {:induction false} StripKeeps(rem: seq<Option<string>>, arg: string, slots: nat, k: nat, kept: seq<Option<string>>, found: bool)
    requires k <= |rem| && |kept| <= slots
    requires forall t :: k <= t < |rem| ==> rem[t].Some?
    ensures var all := kept + Kept(rem[k..], arg);
      && (|all| <= slots ==> Strip(rem, arg, slots, k, kept, found) == Ok((all + Nulls(slots - |all|), found || Some(arg) in rem[k..])))
      && (|all| > slots ==> Strip(rem, arg, slots, k, kept, found) == Err(IndexOutOfBounds))
    decreases |rem| - k
  {
    var tail := rem[k..];
    if k < |rem| {
      assert tail[0] == rem[k] && tail[1..] == rem[k + 1..];
      assert Some(arg) in tail <==> rem[k] == Some(arg) || Some(arg) in rem[k + 1..];
      if rem[k].value != arg {
        assert kept + Kept(tail, arg) == (kept + [rem[k]]) + Kept(rem[k + 1..], arg);
        if |kept| < slots {
          StripKeeps(rem, arg, slots, k + 1, kept + [rem[k]], found);
        }
      } else {
        assert Kept(tail, arg) == Kept(rem[k + 1..], arg);
        StripKeeps(rem, arg, slots, k + 1, kept, true);
      }
    } else {
      assert tail == [];
      assert kept + Kept(tail, arg) == kept;
    }
  }

  /**
   * What `stripArg` does to remaining arguments without nulls: it fails for
   * none, and for an argument that is not among them overflows the array;
   * otherwise it reports the argument found and keeps every other argument
   * in order, followed by a null for each further copy of it.
   */
  lemma StripMeaning(rem: seq<Option<string>>, arg: string)
    requires forall t :: 0 <= t < |rem| ==> rem[t].Some?
    ensures |rem| == 0 ==> StripArgument(rem, arg) == Err(NegativeArraySize)
    ensures |rem| > 0 && Some(arg) !in rem ==> StripArgument(rem, arg) == Err(IndexOutOfBounds)
    ensures Some(arg) in rem ==>
      StripArgument(rem, arg) == Ok((Kept(rem, arg) + Nulls(|rem| - 1 - |Kept(rem, arg)|), true))
  {
    if |rem| > 0 {
      StripKeeps(rem, arg, |rem| - 1, 0, [], false);
      assert rem[0..] == rem;
      assert [] + Kept(rem, arg) == Kept(rem, arg);
    }
  }

  /** An argument present once is removed and nothing else changes. */
  lemma StripOnce(before: seq<string>, arg: string, after: seq<string>)
    requires arg !in before && arg !in after
    ensures StripArgument(Present(before + [arg] + after), arg) == Ok((Present(before + after), true))
  {
    var rem := Present(before + [arg] + after);
    assert rem[|before|] == Some(arg);
    StripMeaning(rem, arg);
    KeptPresent(before + [arg] + after, arg);
    FilterSkips(before, arg, after);
    assert Kept(rem, arg) == Present(before + after);
    assert |rem| - 1 - |Kept(rem, arg)| == 0;
    assert Kept(rem, arg) + Nulls(0) == Kept(rem, arg);
  }

  /** The arguments of `s` other than `arg`. */
  function Others(s: seq<string>, arg: string): seq<string>
  {
    if s == [] then [] else (if s[0] == arg then [] else [s[0]]) + Others(s[1..], arg)
  }

  lemma {:induction false} KeptPresent(s: seq<string>, arg: string)
    ensures Kept(Present(s), arg) == Present(Others(s, arg))
    decreases |s|
  {
    if s != [] {
      assert Present(s)[0] == Some(s[0]) && Present(s)[1..] == Present(s[1..]);
      KeptPresent(s[1..], arg);
      var h := if s[0] == arg then [] else [s[0]];
      PresentAppend(h, Others(s[1..], arg));
    }
  }

  lemma PresentAppend(s: seq<string>, t: seq<string>)
    ensures Present(s + t) == Present(s) + Present(t)
  {
  }

  lemma {:induction false} FilterSkips(before: seq<string>, arg: string, after: seq<string>)
    requires arg !in before && arg !in after
    ensures Others(before + [arg] + after, arg) == before + after
    decreases |before|
  {
    if before == [] {
      assert [arg] + after == before + [arg] + after;
      assert ([arg] + after)[1..] == after;
      OthersNone(after, arg);
    } else {
      assert (before + [arg] + after)[1..] == before[1..] + [arg] + after;
      FilterSkips(before[1..], arg, after);
      assert before == [before[0]] + before[1..];
    }
  }

  lemma {:induction false} OthersNone(s: seq<string>, arg: string)
    requires arg !in s
    ensures Others(s, arg) == s
    decreases |s|
  {
    if s != [] {
      OthersNone(s[1..], arg);
      assert s == [s[0]] + s[1..];
    }
  }

  /** The option parser: the registered options and the arguments no option took. */
  class Options {
    var options: seq<Opt>
    var remaining: seq<Option<string>>

    /** `new Options()`: no options and no remaining arguments. */
    constructor ()
      ensures options == [] && remaining == []
    {
      options := [];
      remaining := [];
    }

    /** `setOption(opt, opt_short)`: a new option, not given, at the end of the list. */
    method SetOption(long: Option<string>, short: Option<string>)
      modifies this
      ensures options == old(options) + [NewOpt(long, short)]
      ensures remaining == old(remaining)
    {
      options := options + [NewOpt(long, short)];
    }

    /**
     * `setArgs(args)`: the options are updated as the scan goes; the
     * remaining arguments are replaced only when the scan completes.
     */
    method SetArgs(args: seq<string>) returns (error: Option<Error>)
      modifies this
      ensures var r := Scan(old(options), args, 0, []);
        && options == r.0 && error == r.2
        && remaining == (if error.None? then Present(r.1) else old(remaining))
    {
      var queue: seq<string> := [];
      var i: nat := 0;
      while i < |args|
        invariant i <= |args|
        invariant Scan(old(options), args, 0, []) == Scan(options, args, i, queue)
        invariant remaining == old(remaining)
        decreases |args| - i
      {
        var arg := args[i];
        var found := FindOpt(options, arg);
        if found.Err? {
          return Some(found.error);
        }
        if found.value.Some? {
          var k := found.value.value;
          ghost var t := Take(options, args, i, k);
          options := options[k := options[k].(isSet := true)];
          if i + 1 < |args| && !StartsWith(args[i + 1], "-") {
            i := i + 1;
            options := options[k := options[k].(value := Some(args[i]))];
          }
          assert options == t.0 && i + 1 == t.1;
        } else {
          queue := queue + [arg];
        }
        i := i + 1;
      }
      remaining := Present(queue);
      return None;
    }

    /** `getValueString(opt)`: the value of the first option equal to `name`, null when there is none. */
    method GetValueString(name: string) returns (r: Result<Option<string>>)
      ensures var look := Lookup(options, name, 0);
        && (look.Err? ==> r == Err(look.error))
        && (look == Ok(None) ==> r == Ok(None))
        && (look.Ok? && look.value.Some? ==> r == Ok(options[look.value.value].value))
    {
      var found := FindOpt(options, name);
      if found.Err? {
        return Err(found.error);
      }
      if found.value.None? {
        return Ok(None);
      }
      return Ok(options[found.value.value].value);
    }

    /** `getValueBoolean(opt)`: whether the first option equal to `name` was given, false when there is none. */
    method GetValueBoolean(name: string) returns (r: Result<bool>)
      ensures var look := Lookup(options, name, 0);
        && (look.Err? ==> r == Err(look.error))
        && (look.Ok? ==> r == Ok(look.value.Some? && options[look.value.value].isSet))
    {
      var found := FindOpt(options, name);
      if found.Err? {
        return Err(found.error);
      }
      return Ok(found.value.Some? && options[found.value.value].isSet);
    }

    /**
     * `stripArg(arg)`: the remaining arguments without `arg`, in a new array
     * one shorter, and whether `arg` was among them; on failure nothing changes.
     */
    method StripArg(arg: string) returns (r: Result<bool>)
      modifies this
      ensures options == old(options)
      ensures var s := StripArgument(old(remaining), arg);
        && (s.Err? ==> r == Err(s.error) && remaining == old(remaining))
        && (s.Ok? ==> r == Ok(s.value.1) && remaining == s.value.0)
    {
      var rem := remaining;
      if |rem| == 0 {
        return Err(NegativeArraySize);
      }
      var newRemaining := new Option<string>[|rem| - 1](_ => None);
      var found := false;
      var i: nat := 0;
      var k: nat := 0;
      while k < |rem|
        invariant k <= |rem| && i <= newRemaining.Length
        invariant remaining == rem && options == old(options)
        invariant StripArgument(rem, arg) == Strip(rem, arg, newRemaining.Length, k, newRemaining[..i], found)
        invariant forall t :: i <= t < newRemaining.Length ==> newRemaining[t] == None
      {
        var s := rem[k];
        if s.None? {
          return Err(NullPointer);
        }
        if s.value != arg {
          if i == newRemaining.Length {
            return Err(IndexOutOfBounds);
          }
          newRemaining[i] := s;
          assert newRemaining[..i + 1] == newRemaining[..i] + [s];
          i := i + 1;
        } else {
          found := true;
        }
        k := k + 1;
      }
      assert newRemaining[..] == newRemaining[..i] + Nulls(newRemaining.Length - i);
      remaining := newRemaining[..];
      return Ok(found);
    }
  }
}

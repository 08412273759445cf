// The command-line option parser of src/utils/OptionsExtended.java: an
// argument selects the first registered option whose long form it equals or
// starts with, or whose short form it equals; `--opt=value` and `--opt value`
// give the option a value, and the arguments no option takes wait in a queue.
module OptionsExtendedParser {
  import opened Wrappers
  import opened JavaStrings

  /** A registered option: its long form, its short form, its value and its description, each possibly null. */
  datatype Opt = Opt(long: Option<string>, short: Option<string>, value: Option<string>, description: Option<string>)

  /** `Opt.equals(option)`: the long form equal to or a prefix of `arg`, or the short form equal to it. */
  predicate Selects(o: Opt, arg: string)
  {
    (o.long.Some? && (arg == o.long.value || StartsWith(arg, o.long.value))) || (o.short.Some? && arg == o.short.value)
  }

  /** The first registered option from `k` on that `arg` selects. */
  function FirstSelecting(options: seq<Opt>, arg: string, k: nat): (r: Option<nat>)
    requires k <= |options|
    ensures r.Some? ==>
      && k <= r.value < |options| && Selects(options[r.value], arg)
      && forall y :: k <= y < r.value ==> !Selects(options[y], arg)
    ensures r.None? ==> forall y :: k <= y < |options| ==> !Selects(options[y], arg)
    decreases |options| - k
  {
    if k == |options| then None
    else if Selects(options[k], arg) then Some(k)
    else FirstSelecting(options, arg, k + 1)
  }

  /** `getOption` and `getOpt`: the options in order until one is selected. */
  method GetOption(options: seq<Opt>, arg: string) returns (r: Option<nat>)
    ensures r == FirstSelecting(options, arg, 0)
  {
    var k: nat := 0;
    while k < |options|
      invariant k <= |options|
      invariant FirstSelecting(options, arg, 0) == FirstSelecting(options, arg, k)
    {
      if Selects(options[k], arg) {
        return Some(k);
      }
      k := k + 1;
    }
    return None;
  }

  /** Two lists of options that differ at most in their values. */
  predicate SameForms(o1: seq<Opt>, o2: seq<Opt>)
  {
    && |o1| == |o2|
    && forall k :: 0 <= k < |o1| ==> o1[k].long == o2[k].long && o1[k].short == o2[k].short && o1[k].description == o2[k].description
  }

  /** Which option an argument selects depends only on the forms of the options. */
  lemma {:induction false} SelectingForms(o1: seq<Opt>, o2: seq<Opt>, arg: string, k: nat)
    requires SameForms(o1, o2) && k <= |o1|
    ensures FirstSelecting(o1, arg, k) == FirstSelecting(o2, arg, k)
    decreases |o1| - k
  {
    if k < |o1| {
      SelectingForms(o1, o2, arg, k + 1);
    }
  }

  /**
   * The value option `k`, selected by argument `i`, takes: what follows its
   * long form in `--opt=value`; for the long or short form alone, the next
   * argument when there is one and it selects no option; otherwise the empty
   * string. An option without a long form fails on the prefix test. With the
   * index of the argument parsing goes on from.
   */
  function Take(options: seq<Opt>, args: seq<string>, i: nat, k: nat): (r: Result<(seq<Opt>, nat)>)
    requires i < |args| && k < |options|
    ensures r.Err? <==> options[k].long.None?
    ensures r.Err? ==> r.error == NullPointer
    ensures r.Ok? ==>
      && SameForms(options, r.value.0) && r.value.0[k].value.Some?
      && (forall y :: 0 <= y < |options| && y != k ==> r.value.0[y] == options[y])
      && (r.value.1 == i + 1 || (r.value.1 == i + 2 && i + 1 < |args| && FirstSelecting(options, args[i + 1], 0).None?))
  {
    var o, arg := options[k], args[i];
    if o.long.None? then Err(NullPointer)
    else if arg != o.long.value && StartsWith(arg, o.long.value) then
      Ok((options[k := o.(value := Some(arg[|o.long.value|..]))], i + 1))
    else if (arg == o.long.value || (o.short.Some? && arg == o.short.value)) && i + 1 < |args| && FirstSelecting(options, args[i + 1], 0).None? then
      Ok((options[k := o.(value := Some(args[i + 1]))], i + 2))
    else
      Ok((options[k := o.(value := Some(""))], i + 1))
  }

  /**
   * `parseArgs` from argument `i` on, with `queue` the arguments waiting so
   * far; a failure stops parsing with the options and the queue as they are.
   * Only the values of the options change.
   */
  function Parse(options: seq<Opt>, args: seq<string>, i: nat, queue: seq<string>): (r: (seq<Opt>, seq<string>, Option<Error>))
    requires i <= |args|
    ensures SameForms(options, r.0)
    decreases |args| - i
  {
    if i == |args| then (options, queue, None)
    else
      match FirstSelecting(options, args[i], 0)
      case None => Parse(options, args, i + 1, queue + [args[i]])
      case Some(k) =>
        match Take(options, args, i, k)
        case Err(e) => (options, queue, Some(e))
        case Ok(t) => Parse(t.0, args, t.1, queue)
  }

  /** The arguments parsing queues: those queued before, then only arguments that select no option. */
  lemma {:induction false} ParseQueue(options: seq<Opt>, args: seq<string>, i: nat, queue: seq<string>)
    requires i <= |args|
    ensures var r := Parse(options, args, i, queue);
      && |queue| <= |r.1| && r.1[..|queue|] == queue
      && forall x :: |queue| <= x < |r.1| ==> FirstSelecting(options, r.1[x], 0).None?
    decreases |args| - i
  {
    if i < |args| {
      var found := FirstSelecting(options, args[i], 0);
      if found.None? {
        ParseQueue(options, args, i + 1, queue + [args[i]]);
        assert (queue + [args[i]])[..|queue|] == queue;
      } else {
        var t := Take(options, args, i, found.value);
        if t.Ok? {
          ParseQueue(t.value.0, args, t.value.1, queue);
          var r := Parse(t.value.0, args, t.value.1, queue);
          forall x | |queue| <= x < |r.1|
            ensures FirstSelecting(options, r.1[x], 0).None?
          {
            SelectingForms(options, t.value.0, r.1[x], 0);
          }
        }
      }
    }
  }

  /** When no argument selects an option, every argument is queued in order and nothing else changes. */
  lemma {:induction false} ParseAllQueued(options: seq<Opt>, args: seq<string>, i: nat, queue: seq<string>)
    requires i <= |args|
    requires forall j :: i <= j < |args| ==> FirstSelecting(options, args[j], 0).None?
    ensures Parse(options, args, i, queue) == (options, queue + args[i..], None)
    decreases |args| - i
  {
    if i < |args| {
      ParseAllQueued(options, args, i + 1, queue + [args[i]]);
      assert queue + [args[i]] + args[i + 1..] == queue + args[i..];
    } else {
      assert queue + args[i..] == queue;
    }
  }

  /** Completed parsing leaves an option that had a value with one. */
  lemma {:induction false} ParseKeepsValue(options: seq<Opt>, args: seq<string>, i: nat, queue: seq<string>, k: nat)
    requires i <= |args| && k < |options| && options[k].value.Some?
    ensures var r := Parse(options, args, i, queue); r.2.None? ==> r.0[k].value.Some?
    decreases |args| - i
  {
    if i < |args| {
      var found := FirstSelecting(options, args[i], 0);
      if found.None? {
        ParseKeepsValue(options, args, i + 1, queue + [args[i]], k);
      } else {
        var t := Take(options, args, i, found.value);
        if t.Ok? {
          ParseKeepsValue(t.value.0, args, t.value.1, queue, k);
        }
      }
    }
  }

  /**
   * After completed parsing, every option selected by an argument has a
   * value: an argument that selects an option is never taken as a value.
   */
  lemma {:induction false} ParseSetsSelected(options: seq<Opt>, args: seq<string>, i: nat, queue: seq<string>, j: nat, k: nat)
    requires i <= j < |args| && FirstSelecting(options, args[j], 0) == Some(k)
    ensures var r := Parse(options, args, i, queue); r.2.None? ==> r.0[k].value.Some?
    decreases |args| - i
  {
    var found := FirstSelecting(options, args[i], 0);
    if found.None? {
      ParseSetsSelected(options, args, i + 1, queue + [args[i]], j, k);
    } else {
      var t := Take(options, args, i, found.value);
      if t.Ok? {
        SelectingForms(options, t.value.0, args[j], 0);
        if j == i {
          ParseKeepsValue(t.value.0, args, t.value.1, queue, k);
        } else {
          assert j >= t.value.1;
          ParseSetsSelected(t.value.0, args, t.value.1, queue, j, k);
        }
      }
    }
  }

  /**
   * The forms of a value for an option registered, as the tools register
   * theirs, with long form `--txt=` and short form `-t`: `--txt=a` and
   * `-t a` give it `a`; `-t` before an argument that is an option, and the
   * long form alone, give it the empty string; an argument selecting no
   * option is queued.
   */
  lemma ParseExamples()
    ensures var o := Opt(Some("--txt="), Some("-t"), None, None);
      && Parse([o], ["x", "--txt=a"], 0, []) == ([o.(value := Some("a"))], ["x"], None)
      && Parse([o], ["-t", "a"], 0, []) == ([o.(value := Some("a"))], [], None)
      && Parse([o], ["-t", "-t"], 0, []) == ([o.(value := Some(""))], [], None)
      && Parse([o], ["--txt="], 0, []) == ([o.(value := Some(""))], [], None)
  {
    var o := Opt(Some("--txt="), Some("-t"), None, None);
    var a, e := o.(value := Some("a")), o.(value := Some(""));
    assert !StartsWith("x", "--txt=") && FirstSelecting([o], "x", 0).None?;
    assert !StartsWith("a", "--txt=") && FirstSelecting([o], "a", 0).None?;
    assert StartsWith("--txt=a", "--txt=") && "--txt=a"[6..] == "a";
    assert !StartsWith("-t", "--txt=") && FirstSelecting([o], "-t", 0) == Some(0);
    assert [o][0 := a] == [a] && [o][0 := e] == [e] && [e][0 := e] == [e];
    assert [] + ["x"] == ["x"];
    assert Take([o], ["x", "--txt=a"], 1, 0) == Ok(([a], 2));
    assert Take([o], ["-t", "a"], 0, 0) == Ok(([a], 2));
    assert Take([o], ["-t", "-t"], 0, 0) == Ok(([e], 1));
    assert Take([e], ["-t", "-t"], 1, 0) == Ok(([e], 2));
    assert Take([o], ["--txt="], 0, 0) == Ok(([e], 1));
  }

  /** An option registered without a long form fails when it is selected by its short form. */
  lemma ShortOnlyFails()
    ensures var o := Opt(None, Some("-v"), None, None);
      Parse([o], ["-v"], 0, []) == ([o], [], Some(NullPointer))
  {
  }

  /** The option parser: the registered options and the queue of arguments no option took. */
  class OptionsExtended {
    var options: seq<Opt>
    var remaining: seq<string>

    /** `new OptionsExtended()`: no options and an empty queue. */
    constructor ()
      ensures options == [] && remaining == []
    {
      options := [];
      remaining := [];
    }

    /** `setOption(opt, opt_short, description)`: a new option without a value at the end of the list. */
    method SetOption(long: Option<string>, short: Option<string>, description: Option<string>)
      modifies this
      ensures options == old(options) + [Opt(long, short, None, description)]
      ensures remaining == old(remaining)
    {
      options := options + [Opt(long, short, None, description)];
    }

    /** `parseArgs(args)`: values set and arguments queued as parsing goes. */
    method ParseArgs(args: seq<string>) returns (error: Option<Error>)
      modifies this
      ensures (options, remaining, error) == Parse(old(options), args, 0, old(remaining))
    {
      var i: nat := 0;
      while i < |args|
        invariant i <= |args|
        invariant Parse(old(options), args, 0, old(remaining)) == Parse(options, args, i, remaining)
        decreases |args| - i
      {
        var arg := args[i];
        var found := GetOption(options, arg);
        if found.Some? {
          var k := found.value;
          var option := options[k];
          ghost var t := Take(options, args, i, k);
          if option.long.None? {
            return Some(NullPointer);
          }
          var long := option.long.value;
          if arg != long && StartsWith(arg, long) {
            options := options[k := option.(value := Some(arg[|long|..]))];
          } else {
            var next := None;
            if i + 1 < |args| {
              next := GetOption(options, args[i + 1]);
            }
            if (arg == long || (option.short.Some? && arg == option.short.value)) && i + 1 < |args| && next.None? {
              i := i + 1;
              options := options[k := option.(value := Some(args[i]))];
            } else {
              options := options[k := option.(value := Some(""))];
            }
          }
          assert options == t.value.0 && i + 1 == t.value.1;
        } else {
          remaining := remaining + [arg];
        }
        i := i + 1;
      }
      return None;
    }

    /** `removeArg()`: the argument queued first, which fails on an empty queue. */
    method RemoveArg() returns (r: Result<string>)
      modifies this
      ensures options == old(options)
      ensures old(remaining) == [] ==> r == Err(MissingParameter) && remaining == []
      ensures old(remaining) != [] ==> r == Ok(old(remaining)[0]) && remaining == old(remaining)[1..]
    {
      if remaining == [] {
        return Err(MissingParameter);
      }
      r := Ok(remaining[0]);
      remaining := remaining[1..];
    }

    /** `getValueString(opt)`: the value of the option `name` selects, null when it selects none. */
    method GetValueString(name: string) returns (r: Option<string>)
      ensures var k := FirstSelecting(options, name, 0);
        r == if k.None? then None else options[k.value].value
    {
      var found := GetOption(options, name);
      if found.None? {
        return None;
      }
      return options[found.value].value;
    }

    /** `getValueBoolean(opt)`: `name` selects an option that has a value. */
    method GetValueBoolean(name: string) returns (b: bool)
      ensures var k := FirstSelecting(options, name, 0);
        b <==> k.Some? && options[k.value].value.Some?
    {
      var found := GetOption(options, name);
      b := found.Some? && options[found.value].value.Some?;
    }
  }

  /** Arguments queued by parsing come back out of `removeArg` in the order they were given. */
  lemma QueueOrder(options: seq<Opt>, args: seq<string>)
    requires forall j :: 0 <= j < |args| ==> FirstSelecting(options, args[j], 0).None?
    ensures Parse(options, args, 0, []).1 == args
  {
    ParseAllQueued(options, args, 0, []);
    assert [] + args[0..] == args;
  }
}

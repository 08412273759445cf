// From sessions of captured messages to sequences of message types:
// `convertSessionToSequenceOfMsgTypes` of reverx/src/StateMachineMoore.java
// (one type per request) and of reverx/src/StateMachineMealy.java (requests
// and the responses that follow them grouped into input/output symbols).
// Classifying a message against a language is a parameter.
module Sessions {
  import opened Wrappers
  import opened MessageTypes

  /** A captured message: its data and its direction (`isRequest`, which is also `isInput`). */
  datatype Message = Message(data: string, isRequest: bool)

  /** Classification of a message against a language: the accepting path, or None. */
  type Classifier = Message -> Option<Path>

  /** The message type a classifiable message gets. */
  function TypeOf(m: Message, classify: Classifier): LanguageMessageType
  {
    LanguageMessageType(if classify(m).Some? then classify(m).value else [])
  }

  /** The message at position `i` is a request that the language does not accept. */
  predicate UnknownRequest(session: seq<Message>, classify: Classifier, i: int)
  {
    0 <= i < |session| && session[i].isRequest && classify(session[i]).None?
  }

  /** The types of the requests of a session, in order. */
  function RequestTypes(session: seq<Message>, classify: Classifier): seq<LanguageMessageType>
  {
    if session == [] then []
    else
      var n := |session| - 1;
      RequestTypes(session[..n], classify) + (if session[n].isRequest then [TypeOf(session[n], classify)] else [])
  }

  /** The types of the responses of a session, in order. */
  function ResponseTypes(session: seq<Message>, classify: Classifier): seq<LanguageMessageType>
  {
    if session == [] then []
    else
      var n := |session| - 1;
      ResponseTypes(session[..n], classify) + (if session[n].isRequest then [] else [TypeOf(session[n], classify)])
  }

  /** The number of requests of a session. */
  function RequestCount(session: seq<Message>): nat
  {
    if session == [] then 0 else RequestCount(session[..|session| - 1]) + if session[|session| - 1].isRequest then 1 else 0
  }

  lemma {:induction false} RequestTypesCount(session: seq<Message>, classify: Classifier)
    ensures |RequestTypes(session, classify)| == RequestCount(session)
  {
    if session != [] {
      RequestTypesCount(session[..|session| - 1], classify);
    }
  }

  // ----- the Moore machine: one type per request -----

  /**
   * `StateMachineMoore.convertSessionToSequenceOfMsgTypes`: the type of each
   * request in order; responses are skipped. The first request the language
   * does not accept stops the conversion with its position in the session,
   * counting every message.
   */
  method ConvertMoore(session: seq<Message>, classify: Classifier) returns (r: Result<seq<LanguageMessageType>>)
    ensures r.Ok? <==> forall i :: !UnknownRequest(session, classify, i)
    ensures r.Ok? ==> r.value == RequestTypes(session, classify)
    ensures r.Err? ==> (r.error.Unclassified? && UnknownRequest(session, classify, r.error.nthMessage) &&
      forall i :: 0 <= i < r.error.nthMessage ==> !UnknownRequest(session, classify, i))
  {
    var nthMessage: nat := 0;
    var sequence := [];
    while nthMessage < |session|
      invariant nthMessage <= |session|
      invariant forall i :: 0 <= i < nthMessage ==> !UnknownRequest(session, classify, i)
      invariant sequence == RequestTypes(session[..nthMessage], classify)
    {
      var m := session[nthMessage];
      assert session[..nthMessage + 1][..nthMessage] == session[..nthMessage];
      if m.isRequest {
        var path := classify(m);
        if path.Some? {
          sequence := sequence + [LanguageMessageType(path.value)];
        } else {
          assert UnknownRequest(session, classify, nthMessage);
          return Err(Unclassified(nthMessage));
        }
      }
      nthMessage := nthMessage + 1;
    }
    assert session[..|session|] == session;
    return Ok(sequence);
  }

  /** Every request type has the path its message was classified with. */
  lemma {:induction false} RequestTypesPaths(session: seq<Message>, classify: Classifier, k: nat)
    requires k < |RequestTypes(session, classify)|
    ensures exists i :: (0 <= i < |session| && session[i].isRequest &&
      RequestTypes(session, classify)[k] == TypeOf(session[i], classify))
  {
    var n := |session| - 1;
    if k < |RequestTypes(session[..n], classify)| {
      RequestTypesPaths(session[..n], classify, k);
      var i :| 0 <= i < n && session[..n][i].isRequest && RequestTypes(session[..n], classify)[k] == TypeOf(session[..n][i], classify);
      assert session[i] == session[..n][i];
    } else {
      assert session[n].isRequest;
    }
  }

  // ----- the Mealy machine: input/output groups -----

  /** `IOLanguageMessageType(input, output)`: the requests of a group and the responses that followed them. */
  datatype IOType = IOType(inputs: seq<LanguageMessageType>, outputs: seq<LanguageMessageType>)

  /** A message type tagged with its direction. */
  datatype Tagged = Req(t: LanguageMessageType) | Resp(t: LanguageMessageType)

  /** The message at position `i` is one that its language does not accept. */
  predicate Unknown(session: seq<Message>, classifyIn: Classifier, classifyOut: Classifier, i: int)
  {
    0 <= i < |session| && (if session[i].isRequest then classifyIn(session[i]).None? else classifyOut(session[i]).None?)
  }

  /** The tagged types of a session, in order. */
  function SessionTags(session: seq<Message>, classifyIn: Classifier, classifyOut: Classifier): seq<Tagged>
  {
    if session == [] then []
    else
      var n := |session| - 1;
      var m := session[n];
      SessionTags(session[..n], classifyIn, classifyOut) +
        [if m.isRequest then Req(TypeOf(m, classifyIn)) else Resp(TypeOf(m, classifyOut))]
  }

  function ReqTags(ts: seq<LanguageMessageType>): seq<Tagged>
  {
    if ts == [] then [] else ReqTags(ts[..|ts| - 1]) + [Req(ts[|ts| - 1])]
  }

  function RespTags(ts: seq<LanguageMessageType>): seq<Tagged>
  {
    if ts == [] then [] else RespTags(ts[..|ts| - 1]) + [Resp(ts[|ts| - 1])]
  }

  /** A group read back in message order: its requests, then its responses. */
  function GroupTags(g: IOType): seq<Tagged>
  {
    ReqTags(g.inputs) + RespTags(g.outputs)
  }

  function AllTags(gs: seq<IOType>): seq<Tagged>
  {
    if gs == [] then [] else AllTags(gs[..|gs| - 1]) + GroupTags(gs[|gs| - 1])
  }

  function AllInputs(gs: seq<IOType>): seq<LanguageMessageType>
  {
    if gs == [] then [] else AllInputs(gs[..|gs| - 1]) + gs[|gs| - 1].inputs
  }

  function AllOutputs(gs: seq<IOType>): seq<LanguageMessageType>
  {
    if gs == [] then [] else AllOutputs(gs[..|gs| - 1]) + gs[|gs| - 1].outputs
  }

  /**
   * The shape of a grouping: every group but the last has responses, every
   * group but the first has requests, and no group is empty.
   */
  predicate Grouped(gs: seq<IOType>)
  {
    (forall k :: 0 <= k < |gs| - 1 ==> gs[k].outputs != []) &&
    (forall k :: 0 < k < |gs| ==> gs[k].inputs != []) &&
    (forall k :: 0 <= k < |gs| ==> gs[k].inputs != [] || gs[k].outputs != [])
  }

  /** No message before position `n` is one its language does not accept. */
  predicate KnownBefore(session: seq<Message>, classifyIn: Classifier, classifyOut: Classifier, n: int)
  {
    forall j :: 0 <= j < n ==> !Unknown(session, classifyIn, classifyOut, j)
  }

  /** Knowing every message of the session is knowing all messages before its end. */
  lemma KnownAll(session: seq<Message>, classifyIn: Classifier, classifyOut: Classifier)
    ensures KnownBefore(session, classifyIn, classifyOut, |session|) <==> forall i :: !Unknown(session, classifyIn, classifyOut, i)
  {
  }

  /**
   * The closed groups and the open one account for the tagged types `S`, the
   * request types `R` and the response types `P` read so far.
   */
  predicate Accounts(S: seq<Tagged>, R: seq<LanguageMessageType>, P: seq<LanguageMessageType>,
                     gs: seq<IOType>, input: seq<LanguageMessageType>, output: seq<LanguageMessageType>)
  {
    AllTags(gs) + (ReqTags(input) + RespTags(output)) == S &&
    AllInputs(gs) + input == R &&
    AllOutputs(gs) + output == P
  }

  /** Every closed group has responses, every one but the first has requests, and after a close the open group has one. */
  predicate OpenShape(gs: seq<IOType>, input: seq<LanguageMessageType>)
  {
    (forall k :: 0 <= k < |gs| ==> gs[k].outputs != []) &&
    (forall k :: 0 < k < |gs| ==> gs[k].inputs != []) &&
    (gs != [] ==> input != [])
  }

  /** What the loop of the Mealy conversion keeps: closed groups and the open one account for the messages seen. */
  predicate Pending(session: seq<Message>, classifyIn: Classifier, classifyOut: Classifier,
                    gs: seq<IOType>, input: seq<LanguageMessageType>, output: seq<LanguageMessageType>)
  {
    Accounts(SessionTags(session, classifyIn, classifyOut), RequestTypes(session, classifyIn), ResponseTypes(session, classifyOut),
             gs, input, output) &&
    OpenShape(gs, input)
  }

  lemma AllSnoc(gs: seq<IOType>, g: IOType)
    ensures AllTags(gs + [g]) == AllTags(gs) + GroupTags(g)
    ensures AllInputs(gs + [g]) == AllInputs(gs) + g.inputs
    ensures AllOutputs(gs + [g]) == AllOutputs(gs) + g.outputs
  {
    assert (gs + [g])[..|gs|] == gs;
  }

  lemma ReqSnoc(ts: seq<LanguageMessageType>, t: LanguageMessageType)
    ensures ReqTags(ts + [t]) == ReqTags(ts) + [Req(t)]
  {
    assert (ts + [t])[..|ts|] == ts;
  }

  lemma RespSnoc(ts: seq<LanguageMessageType>, t: LanguageMessageType)
    ensures RespTags(ts + [t]) == RespTags(ts) + [Resp(t)]
  {
    assert (ts + [t])[..|ts|] == ts;
  }

  /** A request read: its type joins the tagged types and the request types. */
  lemma ReadRequest(session: seq<Message>, classifyIn: Classifier, classifyOut: Classifier, i: nat)
    requires i < |session| && session[i].isRequest
    ensures SessionTags(session[..i + 1], classifyIn, classifyOut) ==
      SessionTags(session[..i], classifyIn, classifyOut) + [Req(TypeOf(session[i], classifyIn))]
    ensures RequestTypes(session[..i + 1], classifyIn) == RequestTypes(session[..i], classifyIn) + [TypeOf(session[i], classifyIn)]
    ensures ResponseTypes(session[..i + 1], classifyOut) == ResponseTypes(session[..i], classifyOut)
  {
    assert session[..i + 1][..i] == session[..i];
  }

  /** A response read: its type joins the tagged types and the response types. */
  lemma ReadResponse(session: seq<Message>, classifyIn: Classifier, classifyOut: Classifier, i: nat)
    requires i < |session| && !session[i].isRequest
    ensures SessionTags(session[..i + 1], classifyIn, classifyOut) ==
      SessionTags(session[..i], classifyIn, classifyOut) + [Resp(TypeOf(session[i], classifyOut))]
    ensures RequestTypes(session[..i + 1], classifyIn) == RequestTypes(session[..i], classifyIn)
    ensures ResponseTypes(session[..i + 1], classifyOut) == ResponseTypes(session[..i], classifyOut) + [TypeOf(session[i], classifyOut)]
  {
    assert session[..i + 1][..i] == session[..i];
  }

  lemma CloseAccounts(S: seq<Tagged>, R: seq<LanguageMessageType>, P: seq<LanguageMessageType>,
                      gs: seq<IOType>, input: seq<LanguageMessageType>, output: seq<LanguageMessageType>, t: LanguageMessageType)
    requires Accounts(S, R, P, gs, input, output)
    ensures Accounts(S + [Req(t)], R + [t], P, gs + [IOType(input, output)], [t], [])
  {
    AllSnoc(gs, IOType(input, output));
    ReqSnoc([], t);
    assert [] + [t] == [t];
    assert ReqTags([t]) + RespTags([]) == [Req(t)];
  }

  lemma AddInput(S: seq<Tagged>, R: seq<LanguageMessageType>, P: seq<LanguageMessageType>,
                 gs: seq<IOType>, input: seq<LanguageMessageType>, t: LanguageMessageType)
    requires Accounts(S, R, P, gs, input, [])
    ensures Accounts(S + [Req(t)], R + [t], P, gs, input + [t], [])
  {
    ReqSnoc(input, t);
  }

  lemma AddOutput(S: seq<Tagged>, R: seq<LanguageMessageType>, P: seq<LanguageMessageType>,
                  gs: seq<IOType>, input: seq<LanguageMessageType>, output: seq<LanguageMessageType>, t: LanguageMessageType)
    requires Accounts(S, R, P, gs, input, output)
    ensures Accounts(S + [Resp(t)], R, P + [t], gs, input, output + [t])
  {
    RespSnoc(output, t);
    var a, b := AllTags(gs), ReqTags(input);
    assert a + (b + RespTags(output + [t])) == (a + (b + RespTags(output))) + [Resp(t)];
  }

  /** A request after a response: the open group is closed and a new one starts with the request. */
  lemma CloseGroup(session: seq<Message>, classifyIn: Classifier, classifyOut: Classifier, i: nat,
                   gs: seq<IOType>, input: seq<LanguageMessageType>, output: seq<LanguageMessageType>)
    requires i < |session| && session[i].isRequest
    requires Pending(session[..i], classifyIn, classifyOut, gs, input, output) && output != []
    ensures Pending(session[..i + 1], classifyIn, classifyOut, gs + [IOType(input, output)], [TypeOf(session[i], classifyIn)], [])
  {
    ReadRequest(session, classifyIn, classifyOut, i);
    CloseAccounts(SessionTags(session[..i], classifyIn, classifyOut), RequestTypes(session[..i], classifyIn),
                  ResponseTypes(session[..i], classifyOut), gs, input, output, TypeOf(session[i], classifyIn));
  }

  /** A request with no response yet in the open group: it joins the group's requests. */
  lemma ExtendInputs(session: seq<Message>, classifyIn: Classifier, classifyOut: Classifier, i: nat,
                     gs: seq<IOType>, input: seq<LanguageMessageType>)
    requires i < |session| && session[i].isRequest
    requires Pending(session[..i], classifyIn, classifyOut, gs, input, [])
    ensures Pending(session[..i + 1], classifyIn, classifyOut, gs, input + [TypeOf(session[i], classifyIn)], [])
  {
    ReadRequest(session, classifyIn, classifyOut, i);
    AddInput(SessionTags(session[..i], classifyIn, classifyOut), RequestTypes(session[..i], classifyIn),
             ResponseTypes(session[..i], classifyOut), gs, input, TypeOf(session[i], classifyIn));
  }

  /** A response: it joins the open group's responses. */
  lemma ExtendOutputs(session: seq<Message>, classifyIn: Classifier, classifyOut: Classifier, i: nat,
                      gs: seq<IOType>, input: seq<LanguageMessageType>, output: seq<LanguageMessageType>)
    requires i < |session| && !session[i].isRequest
    requires Pending(session[..i], classifyIn, classifyOut, gs, input, output)
    ensures Pending(session[..i + 1], classifyIn, classifyOut, gs, input, output + [TypeOf(session[i], classifyOut)])
  {
    ReadResponse(session, classifyIn, classifyOut, i);
    AddOutput(SessionTags(session[..i], classifyIn, classifyOut), RequestTypes(session[..i], classifyIn),
              ResponseTypes(session[..i], classifyOut), gs, input, output, TypeOf(session[i], classifyOut));
  }

  /** The trailing group is emitted when it holds anything; the result is then a grouping of the whole session. */
  lemma Finish(session: seq<Message>, classifyIn: Classifier, classifyOut: Classifier,
               gs: seq<IOType>, input: seq<LanguageMessageType>, output: seq<LanguageMessageType>)
    requires Pending(session[..|session|], classifyIn, classifyOut, gs, input, output)
    ensures var r := if input != [] || output != [] then gs + [IOType(input, output)] else gs;
      && AllTags(r) == SessionTags(session, classifyIn, classifyOut)
      && AllInputs(r) == RequestTypes(session, classifyIn)
      && AllOutputs(r) == ResponseTypes(session, classifyOut)
      && Grouped(r)
  {
    assert session[..|session|] == session;
    FinishAccounts(SessionTags(session, classifyIn, classifyOut), RequestTypes(session, classifyIn),
                   ResponseTypes(session, classifyOut), gs, input, output);
    FinishShape(gs, input, output);
  }

  lemma FinishAccounts(S: seq<Tagged>, R: seq<LanguageMessageType>, P: seq<LanguageMessageType>,
                       gs: seq<IOType>, input: seq<LanguageMessageType>, output: seq<LanguageMessageType>)
    requires Accounts(S, R, P, gs, input, output)
    ensures var r := if input != [] || output != [] then gs + [IOType(input, output)] else gs;
      AllTags(r) == S && AllInputs(r) == R && AllOutputs(r) == P
  {
    if input != [] || output != [] {
      AllSnoc(gs, IOType(input, output));
    } else {
      assert ReqTags(input) + RespTags(output) == [];
      assert AllTags(gs) + [] == AllTags(gs) && AllInputs(gs) + [] == AllInputs(gs) && AllOutputs(gs) + [] == AllOutputs(gs);
    }
  }

  lemma FinishShape(gs: seq<IOType>, input: seq<LanguageMessageType>, output: seq<LanguageMessageType>)
    requires OpenShape(gs, input)
    ensures Grouped(if input != [] || output != [] then gs + [IOType(input, output)] else gs)
  {
  }

  /**
   * `StateMachineMealy.convertSessionToSequenceOfMsgTypes`: requests are
   * collected until a request comes after a response, which closes the
   * group; the last group is emitted when it holds anything. The first
   * message its language does not accept stops the conversion.
   */
  method ConvertMealy(session: seq<Message>, classifyIn: Classifier, classifyOut: Classifier) returns (r: Result<seq<IOType>>)
    ensures r.Ok? <==> KnownBefore(session, classifyIn, classifyOut, |session|)
    ensures r.Ok? ==> AllTags(r.value) == SessionTags(session, classifyIn, classifyOut) && Grouped(r.value)
    ensures r.Ok? ==> AllInputs(r.value) == RequestTypes(session, classifyIn) && AllOutputs(r.value) == ResponseTypes(session, classifyOut)
    ensures r.Err? ==> (r.error.Unclassified? && Unknown(session, classifyIn, classifyOut, r.error.nthMessage) &&
      KnownBefore(session, classifyIn, classifyOut, r.error.nthMessage))
  {
    var sequence: seq<IOType> := [];
    var input: seq<LanguageMessageType> := [];
    var output: seq<LanguageMessageType> := [];
    var lookForOutput := false;
    for i := 0 to |session|
      invariant KnownBefore(session, classifyIn, classifyOut, i)
      invariant lookForOutput <==> output != []
      invariant Pending(session[..i], classifyIn, classifyOut, sequence, input, output)
    {
      var unknown;
      unknown, sequence, input, output, lookForOutput := MealyStep(session, classifyIn, classifyOut, i, sequence, input, output, lookForOutput);
      if unknown {
        return Err(Unclassified(i));
      }
    }
    Finish(session, classifyIn, classifyOut, sequence, input, output);
    if input != [] || output != [] {
      sequence := sequence + [IOType(input, output)];
    }
    return Ok(sequence);
  }

  /** One message of the Mealy conversion. */
  method MealyStep(session: seq<Message>, classifyIn: Classifier, classifyOut: Classifier, i: nat,
                   sequence: seq<IOType>, input: seq<LanguageMessageType>, output: seq<LanguageMessageType>, lookForOutput: bool)
    returns (unknown: bool, sequence': seq<IOType>, input': seq<LanguageMessageType>, output': seq<LanguageMessageType>, lookForOutput': bool)
    requires i < |session| && (lookForOutput <==> output != [])
    requires Pending(session[..i], classifyIn, classifyOut, sequence, input, output)
    requires KnownBefore(session, classifyIn, classifyOut, i)
    ensures unknown <==> Unknown(session, classifyIn, classifyOut, i)
    ensures !unknown ==> KnownBefore(session, classifyIn, classifyOut, i + 1)
    ensures !unknown ==> (lookForOutput' <==> output' != [])
    ensures !unknown ==> Pending(session[..i + 1], classifyIn, classifyOut, sequence', input', output')
  {
    sequence', input', output', lookForOutput' := sequence, input, output, lookForOutput;
    var m := session[i];
    if m.isRequest {
      var path := classifyIn(m);
      if path.None? {
        return true, sequence', input', output', lookForOutput';
      }
      if lookForOutput {
        CloseGroup(session, classifyIn, classifyOut, i, sequence, input, output);
        sequence' := sequence + [IOType(input, output)];
        input', output' := [TypeOf(m, classifyIn)], [];
        lookForOutput' := false;
      } else {
        ExtendInputs(session, classifyIn, classifyOut, i, sequence, input);
        input' := input + [TypeOf(m, classifyIn)];
      }
    } else {
      lookForOutput' := true;
      var path := classifyOut(m);
      if path.None? {
        return true, sequence', input', output', lookForOutput';
      }
      ExtendOutputs(session, classifyIn, classifyOut, i, sequence, input, output);
      output' := output + [TypeOf(m, classifyOut)];
    }
    unknown := false;
  }

  /** An empty session gives no symbols, and any grouping of a session that gives none holds no message. */
  lemma EmptyGrouping(gs: seq<IOType>)
    requires Grouped(gs)
    ensures AllTags(gs) == [] <==> gs == []
  {
    if gs != [] {
      var n := |gs| - 1;
      assert gs[n].inputs != [] || gs[n].outputs != [];
      if gs[n].inputs != [] {
        assert |ReqTags(gs[n].inputs)| > 0;
      } else {
        assert |RespTags(gs[n].outputs)| > 0;
      }
      assert |AllTags(gs)| >= |GroupTags(gs[n])|;
    }
  }
}

/**
 * The mock controller: it reads one frame per receive, parses it into an action and its
 * parameters, looks the action up in its function table and answers "#" after calling the
 * handler, or "!" when the frame is malformed or the action unknown.
 */
module Mock {
  import opened Wrappers
  import opened Exceptions
  import opened Text

  /** The handlers of the function table; their bodies only print. */
  datatype Handler = MoveTcp | SetJoints | GetJoints | SetTool

  /** The function table of the server: four opcodes, each naming one handler. */
  const FunctionTable: map<string, Handler> :=
    map["01" := MoveTcp, "02" := SetJoints, "04" := GetJoints, "06" := SetTool]

  /** What `parse_message` returns: `(None, [])`, or an action with its parameters. */
  datatype Parsed = Rejected | Instruction(action: string, parameters: seq<string>)

  /**
   * `parse_message`: an empty message or one not ending in '#' is rejected; otherwise the
   * text before the final '#' is split on (Unicode) whitespace. When nothing but whitespace
   * precedes the '#', taking the first token raises IndexError.
   */
  function ParseMessage(message: string): (r: Result<Parsed, Exception>)
    ensures r == Ok(Rejected) <==> message == [] || message[|message| - 1] != '#'
    ensures r.Err? <==> message != [] && message[|message| - 1] == '#' && AllSpace(message[..|message| - 1], Unicode)
    ensures r.Err? ==> r.error == IndexError
    ensures r.Ok? && r.value.Instruction? ==>
      && message != [] && message[|message| - 1] == '#'
      && IsWord(r.value.action, Unicode) && AllWords(r.value.parameters, Unicode)
      && [r.value.action] + r.value.parameters == Split(message[..|message| - 1], Unicode)
  {
    if |message| == 0 then Ok(Rejected)
    else if message[|message| - 1] != '#' then Ok(Rejected)
    else
      var body := message[..|message| - 1];
      SplitWords(body, Unicode);
      var instruction := Split(body, Unicode);
      if instruction == [] then Err(IndexError)
      else
        assert instruction == [instruction[0]] + instruction[1..];
        Ok(Instruction(instruction[0], instruction[1..]))
  }

  /** `get_function`: the handler of a known opcode, `None` for any other. */
  function GetFunction(action: string): (r: Option<Handler>)
    ensures r.Some? <==> action == "01" || action == "02" || action == "04" || action == "06"
    ensures r == Some(MoveTcp) <==> action == "01"
    ensures r == Some(SetJoints) <==> action == "02"
    ensures r == Some(GetJoints) <==> action == "04"
    ensures r == Some(SetTool) <==> action == "06"
  {
    if action in FunctionTable then Some(FunctionTable[action]) else None
  }

  /**
   * Whether calling the handler succeeds. The parameter list is passed as one argument when
   * it is non-empty and no argument is passed otherwise: `move_tcp` and `set_joints` need
   * one, `get_joints` takes none and `set_tool` has a default. Any other call is a TypeError.
   */
  function Accepts(h: Handler, withArgument: bool): bool {
    match h
    case MoveTcp => withArgument
    case SetJoints => withArgument
    case GetJoints => !withArgument
    case SetTool => true
  }

  /**
   * The reply `run` sends for one received message: "!" for a rejected message or an
   * unknown action, "#" once the handler has run. A raise in parsing or in the handler
   * call ends `run` without a reply.
   */
  function Respond(message: string): (r: Result<string, Exception>)
  {
    match ParseMessage(message)
    case Err(e) => Err(e)
    case Ok(Rejected) => Ok("!")
    case Ok(Instruction(action, parameters)) =>
      match GetFunction(action)
      case None => Ok("!")
      case Some(h) => if Accepts(h, |parameters| > 0) then Ok("#") else Err(TypeError)
  }

  /** The replies are exactly "!" and "#", each in the cases `run` sends it, and the faults are the two raises. */
  lemma RespondCases(message: string)
    ensures Respond(message).Ok? ==> Respond(message).value in {"!", "#"}
    ensures Respond(message) == Ok("!") <==>
      ParseMessage(message) == Ok(Rejected)
      || (ParseMessage(message).Ok? && ParseMessage(message).value.Instruction?
          && ParseMessage(message).value.action !in FunctionTable)
    ensures Respond(message) == Ok("#") <==>
      && ParseMessage(message).Ok? && ParseMessage(message).value.Instruction?
      && ParseMessage(message).value.action in FunctionTable
      && Accepts(FunctionTable[ParseMessage(message).value.action], |ParseMessage(message).value.parameters| > 0)
    ensures Respond(message) == Err(IndexError) <==> ParseMessage(message).Err?
    ensures Respond(message) == Err(TypeError) <==>
      && ParseMessage(message).Ok? && ParseMessage(message).value.Instruction?
      && ParseMessage(message).value.action in FunctionTable
      && !Accepts(FunctionTable[ParseMessage(message).value.action], |ParseMessage(message).value.parameters| > 0)
  {
  }

  /** A frame of words, the first being the action, parses back into that action and those parameters. */
  lemma ParseFrame(ts: seq<string>)
    requires ts != [] && AllWords(ts, Unicode)
    ensures ParseMessage(Frame(ts)) == Ok(Instruction(ts[0], ts[1..]))
  {
    var f := Frame(ts);
    SplitJoinSpaced(ts, Unicode);
    assert f[..|f| - 1] == JoinSpaced(ts);
  }

  /** A blank frame such as "#" or " #" makes `parse_message` raise. */
  lemma BlankFrameRaises()
    ensures ParseMessage("#") == Err(IndexError)
    ensures ParseMessage(" #") == Err(IndexError)
  {
    assert " #"[..1] == " ";
  }

  /** What `run` has done after a run of received messages: the replies it sent and the raise that ended it, if any. */
  datatype Session = Session(replies: seq<string>, fault: Option<Exception>)

  /**
   * `run` over the messages received so far, in order: an empty receive is skipped, a
   * raise ends the loop, and every other message is answered with one reply.
   */
  function Serve(messages: seq<string>): (s: Session)
    ensures |s.replies| <= |messages|
    decreases |messages|
  {
    if messages == [] then Session([], None)
    else
      var s := Serve(messages[..|messages| - 1]);
      var m := messages[|messages| - 1];
      if s.fault.Some? || m == [] then s
      else match Respond(m)
        case Err(e) => Session(s.replies, Some(e))
        case Ok(reply) => Session(s.replies + [reply], None)
  }

  /** The non-empty messages, in order: the ones `run` does not skip. */
  function NonEmpty(messages: seq<string>): (r: seq<string>)
    ensures |r| <= |messages|
    ensures forall i :: 0 <= i < |r| ==> r[i] != []
  {
    if messages == [] then []
    else if messages[0] == [] then NonEmpty(messages[1..])
    else [messages[0]] + NonEmpty(messages[1..])
  }

  /** One more message at the end: it joins the non-empty ones unless it is empty. */
  lemma {:induction false} NonEmptySnoc(messages: seq<string>, m: string)
    ensures NonEmpty(messages + [m]) == NonEmpty(messages) + (if m == [] then [] else [m])
    decreases |messages|
  {
    if messages == [] {
      assert messages + [m] == [m];
    } else {
      assert (messages + [m])[1..] == messages[1..] + [m];
      NonEmptySnoc(messages[1..], m);
    }
  }

  /**
   * When no message makes the server raise, it answers every non-empty message, in order,
   * with that message's reply, and never stops.
   */
  lemma {:induction false} ServeAnswersEach(messages: seq<string>)
    requires forall i :: 0 <= i < |messages| && messages[i] != [] ==> Respond(messages[i]).Ok?
    ensures Serve(messages).fault == None
    ensures |Serve(messages).replies| == |NonEmpty(messages)|
    ensures forall j :: 0 <= j < |NonEmpty(messages)| ==>
      Respond(NonEmpty(messages)[j]) == Ok(Serve(messages).replies[j])
    decreases |messages|
  {
    if messages != [] {
      var init, m := messages[..|messages| - 1], messages[|messages| - 1];
      assert messages == init + [m];
      ServeAnswersEach(init);
      NonEmptySnoc(init, m);
    }
  }

  /** The first message that raises ends the session: it gets no reply and nothing after it is read. */
  lemma {:induction false} ServeStopsAtFault(messages: seq<string>, i: nat)
    requires i < |messages| && messages[i] != [] && Respond(messages[i]).Err?
    requires Serve(messages[..i]).fault == None
    ensures Serve(messages) == Session(Serve(messages[..i]).replies, Some(Respond(messages[i]).error))
    decreases |messages| - i
  {
    if i + 1 < |messages| {
      assert messages[..i + 1][..i] == messages[..i];
      ServeFaultSticks(messages, i + 1);
    } else {
      assert messages[..i] == messages[..|messages| - 1];
    }
  }

  /** Once the session has raised, later messages change nothing. */
  lemma {:induction false} ServeFaultSticks(messages: seq<string>, j: nat)
    requires j <= |messages| && Serve(messages[..j]).fault.Some?
    ensures Serve(messages) == Serve(messages[..j])
    decreases |messages| - j
  {
    if j < |messages| {
      assert messages[..j + 1][..j] == messages[..j];
      ServeFaultSticks(messages, j + 1);
    } else {
      assert messages[..j] == messages;
    }
  }

  /** The mock controller's connection: the replies it has sent so far. */
  class MockServer {
    var sent: seq<string>

    /** A server that has accepted its connection and sent nothing yet. */
    constructor ()
      ensures sent == []
    {
      sent := [];
    }

    /**
     * The loop of `run`, over the messages the connection delivers, one per receive. It
     * returns the raise that ended it, or `None` once the messages are used up.
     */
    method Run(messages: seq<string>) returns (fault: Option<Exception>)
      modifies this`sent
      ensures sent == old(sent) + Serve(messages).replies
      ensures fault == Serve(messages).fault
    {
      var i := 0;
      while i < |messages|
        invariant 0 <= i <= |messages|
        invariant Serve(messages[..i]).fault == None
        invariant sent == old(sent) + Serve(messages[..i]).replies
      {
        var message := messages[i];
        assert messages[..i + 1][..i] == messages[..i];
        if message == [] {
          i := i + 1;
          continue;
        }
        var parsed := ParseMessage(message);
        if parsed.Err? {
          ServeStopsAtFault(messages, i);
          return Some(parsed.error);
        }
        var reply := "!";
        if parsed.value.Instruction? {
          var fn := GetFunction(parsed.value.action);
          if fn.Some? {
            if !Accepts(fn.value, |parsed.value.parameters| > 0) {
              ServeStopsAtFault(messages, i);
              return Some(TypeError);
            }
            reply := "#";
          }
        }
        sent := sent + [reply];
        i := i + 1;
      }
      assert messages[..i] == messages;
      fault := None;
    }
  }
}

/**
 * The motion client against the mock controller: what the client encodes, the server
 * parses back into the same opcode and fields, and which frames it answers.
 */
module Interop {
  import opened Wrappers
  import opened Exceptions
  import opened Text
  import opened Coordinates
  import opened Codec
  import opened Mock

  /** Every formatted pose field is a word for the server's splitting. */
  lemma PoseFieldWords(scaleLinear: real, pose: Value)
    requires PoseFields(scaleLinear, pose).Ok?
    ensures AllWords(PoseFields(scaleLinear, pose).value, Unicode)
  {
    var numbers := PoseNumbers(pose).value;
    var a, b := FormatAll(Scaled(numbers.0, scaleLinear), LinearPlaces), FormatAll(numbers.1, QuaternionPlaces);
    assert PoseFields(scaleLinear, pose).value == a + b;
    FormatAllWords(Scaled(numbers.0, scaleLinear), LinearPlaces, Unicode);
    FormatAllWords(numbers.1, QuaternionPlaces, Unicode);
    forall i | 0 <= i < |a + b| ensures IsWord((a + b)[i], Unicode) {
      if i < |a| { assert (a + b)[i] == a[i]; } else { assert (a + b)[i] == b[i - |a|]; }
    }
  }

  /** A two-digit opcode is a word for the server's splitting. */
  lemma OpcodeWord(opcode: string)
    requires |opcode| == 2 && '0' <= opcode[0] <= '9' && '0' <= opcode[1] <= '9'
    ensures IsWord(opcode, Unicode)
  {
  }

  /** An opcode followed by words parses back into that opcode and those words. */
  lemma FrameParses(opcode: string, fields: seq<string>)
    requires IsWord(opcode, Unicode) && AllWords(fields, Unicode)
    ensures ParseMessage(Frame([opcode] + fields)) == Ok(Instruction(opcode, fields))
  {
    var ts := [opcode] + fields;
    forall i | 0 <= i < |ts| ensures IsWord(ts[i], Unicode) {
      if i > 0 { assert ts[i] == fields[i - 1]; }
    }
    assert ts[1..] == fields;
    ParseFrame(ts);
  }

  /**
   * A pose frame the client builds, whatever its opcode, reaches the server as that opcode
   * and exactly the seven formatted pose fields.
   */
  lemma PoseFrameParses(opcode: string, scaleLinear: real, pose: Value)
    requires |opcode| == 2 && '0' <= opcode[0] <= '9' && '0' <= opcode[1] <= '9'
    requires PoseFrame(opcode, scaleLinear, pose).Ok?
    ensures var fields := PoseFields(scaleLinear, pose).value;
      && |fields| == 7
      && ParseMessage(PoseFrame(opcode, scaleLinear, pose).value) == Ok(Instruction(opcode, fields))
  {
    PoseFieldWords(scaleLinear, pose);
    OpcodeWord(opcode);
    FrameParses(opcode, PoseFields(scaleLinear, pose).value);
  }

  /** `set_cartesian` ("01") and `set_tool` ("06") frames are handled and answered "#". */
  lemma PoseCommandsServed(opcode: string, scaleLinear: real, pose: Value)
    requires opcode == "01" || opcode == "06"
    requires PoseFrame(opcode, scaleLinear, pose).Ok?
    ensures Respond(PoseFrame(opcode, scaleLinear, pose).value) == Ok("#")
  {
    PoseFrameParses(opcode, scaleLinear, pose);
  }

  /** A `set_joints` frame reaches the server as "02" and its six formatted angles, and is answered "#". */
  lemma JointsFrameServed(scaleAngle: real, joints: seq<real>)
    requires |joints| == 6
    ensures var fields := FormatAll(Scaled(joints, scaleAngle), AnglePlaces);
      && |fields| == 6
      && ParseMessage(JointsFrame(scaleAngle, joints)) == Ok(Instruction("02", fields))
      && Respond(JointsFrame(scaleAngle, joints)) == Ok("#")
  {
    FormatAllWords(Scaled(joints, scaleAngle), AnglePlaces, Unicode);
    OpcodeWord("02");
    FrameParses("02", FormatAll(Scaled(joints, scaleAngle), AnglePlaces));
  }

  /** The `get_joints` query "04 #" parses to ("04", []) and is handled with no argument. */
  lemma GetJointsServed()
    ensures ParseMessage(Query("04")) == Ok(Instruction("04", []))
    ensures Respond(Query("04")) == Ok("#")
  {
    OpcodeWord("04");
    FrameParses("04", []);
    assert ["04"] + [] == ["04"];
  }

  /** Any other opcode the client sends, with any fields, is refused with "!". */
  lemma OtherOpcodesRefused(opcode: string, fields: seq<string>)
    requires |opcode| == 2 && '0' <= opcode[0] <= '9' && '0' <= opcode[1] <= '9'
    requires opcode !in FunctionTable && AllWords(fields, Unicode)
    ensures Respond(Frame([opcode] + fields)) == Ok("!")
  {
    OpcodeWord(opcode);
    FrameParses(opcode, fields);
  }

  /** The queries of `get_cartesian`, `clear_buffer` and `buffer_len` are among those refused. */
  lemma QueriesRefused()
    ensures Respond(Query("03")) == Ok("!")
    ensures Respond(Query("31")) == Ok("!")
    ensures Respond(Query("32")) == Ok("!")
  {
    OtherOpcodesRefused("03", []);
    OtherOpcodesRefused("31", []);
    OtherOpcodesRefused("32", []);
    assert ["03"] + [] == ["03"] && ["31"] + [] == ["31"] && ["32"] + [] == ["32"];
  }
}

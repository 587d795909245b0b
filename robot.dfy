/**
 * The motion client `Robot`: its unit scales, its tool, and the socket it talks on. The socket
 * is a log of the frames sent, the controller's scripted replies, and a count of the replies
 * read so far; a closed socket makes every later send fail.
 */
module Motion {
  import opened Wrappers
  import opened Exceptions
  import opened Text
  import opened Decimal
  import opened Coordinates
  import opened Codec
  import opened Protocol

  /** The seven fields of the identity pose at any linear scale. */
  const IdentityFields: seq<string> :=
    ["+00000.0", "+00000.0", "+00000.0", "+1.00000", "+0.00000", "+0.00000", "+0.00000"]

  /** The identity pose goes out as the same seven fields after any opcode. */
  lemma IdentityPoseFrame(opcode: string, scaleLinear: real)
    ensures PoseFrame(opcode, scaleLinear, IdentityPose) == Ok(Frame([opcode] + IdentityFields))
  {
    IdentityPoseFields(scaleLinear);
  }

  /** The outcome of an operation whose value the client drops. */
  function Outcome<T>(r: Result<T, Exception>): (u: Result<(), Exception>)
    ensures u.Ok? <==> r.Ok?
    ensures u.Err? ==> u.error == r.error
  {
    if r.Ok? then Ok(()) else Err(r.error)
  }

  /** The outcome of a guarded command that returns nothing: whether it was sent. */
  function WasSent(r: Result<Option<string>, Exception>): (u: Result<bool, Exception>)
    ensures u.Ok? <==> r.Ok?
    ensures u.Err? ==> u.error == r.error
    ensures u.Ok? ==> (u.value <==> r.value.Some?)
  {
    if r.Ok? then Ok(r.value.Some?) else Err(r.error)
  }

  /** The reply of a guarded command that was sent; the client returns it as it came. */
  function Answered(r: Result<string, Exception>): (u: Result<Option<string>, Exception>)
    ensures u.Ok? <==> r.Ok?
    ensures u.Err? ==> u.error == r.error
    ensures u.Ok? ==> u.value == Some(r.value)
  {
    if r.Ok? then Ok(Some(r.value)) else Err(r.error)
  }

  /** A formatting loop: each value times `scale`, with `d` decimals and a space, appended in order. */
  method AppendScaled(prefix: string, xs: seq<real>, scale: real, d: nat) returns (msg: string)
    ensures msg == prefix + JoinSpaced(FormatAll(Scaled(xs, scale), d))
  {
    ghost var fs := FormatAll(Scaled(xs, scale), d);
    msg := prefix;
    var i := 0;
    while i < |xs|
      invariant 0 <= i <= |xs|
      invariant msg == prefix + JoinSpaced(fs[..i])
    {
      JoinSpacedPrefix(fs, i);
      FormatAllAt(Scaled(xs, scale), d, i);
      assert Scaled(xs, scale)[i] == xs[i] * scale;
      var field := Format(xs[i] * scale, d);
      Regroup(prefix, JoinSpaced(fs[..i]), field, " ");
      msg := msg + field + " ";
      i := i + 1;
    }
    assert fs[..i] == fs;
  }

  /** A formatting loop: each value as it is, with `d` decimals and a space, appended in order. */
  method AppendFormatted(prefix: string, xs: seq<real>, d: nat) returns (msg: string)
    ensures msg == prefix + JoinSpaced(FormatAll(xs, d))
  {
    ghost var fs := FormatAll(xs, d);
    msg := prefix;
    var i := 0;
    while i < |xs|
      invariant 0 <= i <= |xs|
      invariant msg == prefix + JoinSpaced(fs[..i])
    {
      JoinSpacedPrefix(fs, i);
      FormatAllAt(xs, d, i);
      var field := Format(xs[i], d);
      Regroup(prefix, JoinSpaced(fs[..i]), field, " ");
      msg := msg + field + " ";
      i := i + 1;
    }
    assert fs[..i] == fs;
  }

  class Robot {
    var scaleLinear: real
    var scaleAngle: real
    var tool: Value
    var closed: bool
    /** Every frame put on the wire, in order. */
    var sent: seq<string>
    /** How many replies have been read. */
    var received: nat
    /** What the controller answers, reply by reply. */
    const replies: seq<string>

    predicate Valid()
      reads this
    {
      scaleLinear > 0.0 && scaleAngle > 0.0
    }

    /** The frames of `e` went out on the socket, each followed by the read of one reply. */
    twostate predicate Performed<T>(new e: Exchange<T>)
      reads this
    {
      sent == old(sent) + e.frames && received == old(received) + |e.frames|
    }

    /**
     * Connects, then sets millimeters and degrees, the identity tool and work object,
     * the default speed and the zone "z1".
     */
    constructor (replies: seq<string>)
      ensures this.replies == replies && Valid() && !closed
      ensures scaleLinear == 1.0 && scaleAngle == 1.0 && tool == IdentityPose
      ensures sent == [Frame(["06"] + IdentityFields), Frame(["07"] + IdentityFields),
                       Frame(["08", "+00100.0", "+0050.00", "+00050.0", "+0050.00"]),
                       Frame(["09", "0", "+01.0000", "+01.0000", "+00.1000"])]
      ensures received == 4
    {
      this.replies := replies;
      scaleLinear, scaleAngle := 1.0, 1.0;
      tool := IdentityPose;
      closed := false;
      sent, received := [], 0;
      new;
      var units := SetUnits("millimeters", "degrees");
      SendIdentityPoses();
      SendDefaultMotion();
    }

    /** The constructor's `set_tool` and `set_workobject`, both with the identity pose. */
    method SendIdentityPoses()
      requires !closed
      modifies this`sent, this`received, this`tool
      ensures tool == IdentityPose
      ensures sent == old(sent) + [Frame(["06"] + IdentityFields), Frame(["07"] + IdentityFields)]
      ensures received == old(received) + 2
    {
      ghost var log := sent;
      IdentityPoseFrame("06", scaleLinear);
      IdentityPoseFrame("07", scaleLinear);
      var t := SetTool(IdentityPose);
      var w := SetWorkObject(IdentityPose);
      Then(log, [Frame(["06"] + IdentityFields)], [Frame(["07"] + IdentityFields)]);
    }

    /** The constructor's `set_speed` with the default speeds and `set_zone` with "z1". */
    method SendDefaultMotion()
      requires !closed
      modifies this`sent, this`received
      ensures sent == old(sent) + [Frame(["08", "+00100.0", "+0050.00", "+00050.0", "+0050.00"]),
                                   Frame(["09", "0", "+01.0000", "+01.0000", "+00.1000"])]
      ensures received == old(received) + 2
    {
      DefaultSpeedFrame();
      DefaultZoneFrame();
      var s := SetSpeed([100.0, 50.0, 50.0, 50.0]);
      var z := SetZone("z1", false, None);
    }

    /** `send`: one frame on the wire and, when waiting, the next reply. */
    method Send(message: string, wait: bool) returns (r: Result<Option<string>, Exception>)
      modifies this`sent, this`received
      ensures old(closed) ==> r == Err(SocketClosed) && sent == old(sent) && received == old(received)
      ensures !old(closed) ==> sent == old(sent) + [message]
      ensures !old(closed) && wait ==> received == old(received) + 1 && r == Ok(Some(ReplyAt(replies, old(received))))
      ensures !old(closed) && !wait ==> received == old(received) && r == Ok(None)
    {
      if closed {
        return Err(SocketClosed);
      }
      sent := sent + [message];
      if !wait {
        return Ok(None);
      }
      r := Ok(Some(ReplyAt(replies, received)));
      received := received + 1;
    }

    /** `send` with its default of waiting for the reply, which is then always present. */
    method Request(message: string) returns (r: Result<string, Exception>)
      modifies this`sent, this`received
      ensures var e := OnSocket(old(closed), Exchange([message], Ok(ReplyAt(replies, old(received)))));
        Performed(e) && r == e.result
    {
      var reply := Send(message, true);
      if reply.Err? {
        return Err(reply.error);
      }
      r := Ok(reply.value.value);
    }

    /** `set_units`: a name missing from either table raises, after the linear scale is set. */
    method SetUnits(linear: string, angular: string) returns (r: Result<(), Exception>)
      requires Valid()
      modifies this`scaleLinear, this`scaleAngle
      ensures Valid()
      ensures r.Ok? <==> linear in LinearUnits && angular in AngularUnits
      ensures r.Err? ==> r.error == KeyError
      ensures scaleLinear == if linear in LinearUnits then LinearUnits[linear] else old(scaleLinear)
      ensures scaleAngle == if linear in LinearUnits && angular in AngularUnits then AngularUnits[angular] else old(scaleAngle)
    {
      UnitScalesPositive(linear);
      UnitScalesPositive(angular);
      if linear !in LinearUnits {
        return Err(KeyError);
      }
      scaleLinear := LinearUnits[linear];
      if angular !in AngularUnits {
        return Err(KeyError);
      }
      scaleAngle := AngularUnits[angular];
      r := Ok(());
    }

    /** `format_pose`: the pose is normalised, then its fields are formatted in order. */
    method FormatPose(pose: Value) returns (r: Result<string, Exception>)
      ensures r == PoseText(scaleLinear, pose)
    {
      var numbers := PoseNumbers(pose);
      if numbers.Err? {
        return Err(numbers.error);
      }
      var position, orientation := numbers.value.0, numbers.value.1;
      FieldsOfNumbers(scaleLinear, pose, position, orientation);
      ghost var a, b := FormatAll(Scaled(position, scaleLinear), LinearPlaces), FormatAll(orientation, QuaternionPlaces);
      var ps := AppendScaled("", position, scaleLinear, LinearPlaces);
      assert ps == JoinSpaced(a);
      var msg := AppendFormatted(ps, orientation, QuaternionPlaces);
      JoinSpacedAppend(a, b);
      r := Ok(msg + "#");
    }

    /** `set_cartesian`: one "01" frame with the target pose; its reply. */
    method SetCartesian(pose: Value) returns (r: Result<string, Exception>)
      modifies this`sent, this`received
      ensures var e := OnSocket(old(closed), RequestExchange(PoseFrame("01", scaleLinear, pose), replies, old(received)));
        Performed(e) && r == e.result
    {
      var text := FormatPose(pose);
      if text.Err? {
        return Err(text.error);
      }
      assert "01" + " " == "01 ";
      r := Request("01 " + text.value);
    }

    /** `set_joints`: six angles scaled to degrees in one "02" frame; any other count sends nothing. */
    method SetJoints(joints: seq<real>) returns (r: Result<Option<string>, Exception>)
      modifies this`sent, this`received
      ensures var e := OnSocket(old(closed),
          GuardedExchange(if |joints| == 6 then Some(JointsFrame(scaleAngle, joints)) else None, replies, old(received)));
        Performed(e) && r == e.result
    {
      if |joints| != 6 {
        return Ok(None);
      }
      var msg := AppendScaled("02 ", joints, scaleAngle, AnglePlaces);
      JoinSpacedCons("02", FormatAll(Scaled(joints, scaleAngle), AnglePlaces));
      assert "02" + " " == "02 ";
      var reply := Request(msg + "#");
      r := Answered(reply);
    }

    /** `get_cartesian`: one "03" query; the reply's position and orientation, unscaled. */
    method GetCartesian() returns (r: Result<(seq<real>, seq<real>), Exception>)
      modifies this`sent, this`received
      ensures var e := OnSocket(old(closed), Exchange([Query("03")], DecodeCartesian(ReplyAt(replies, old(received)))));
        Performed(e) && r == e.result
    {
      var reply := Request(Query("03"));
      if reply.Err? {
        return Err(reply.error);
      }
      r := DecodeCartesian(reply.value);
    }

    /** `get_joints`: one "04" query; reply values 2 to 7 divided by the angular scale. */
    method GetJoints() returns (r: Result<seq<real>, Exception>)
      requires Valid()
      modifies this`sent, this`received
      ensures var e := OnSocket(old(closed), Exchange([Query("04")], DecodeJoints(ReplyAt(replies, old(received)), scaleAngle)));
        Performed(e) && r == e.result
    {
      var reply := Request(Query("04"));
      if reply.Err? {
        return Err(reply.error);
      }
      r := DecodeJoints(reply.value, scaleAngle);
    }

    /** `get_external_axis`: one "05" query; reply values 2 to 7 as they are. */
    method GetExternalAxis() returns (r: Result<seq<real>, Exception>)
      modifies this`sent, this`received
      ensures var e := OnSocket(old(closed), Exchange([Query("05")], DecodeExternalAxis(ReplyAt(replies, old(received)))));
        Performed(e) && r == e.result
    {
      var reply := Request(Query("05"));
      if reply.Err? {
        return Err(reply.error);
      }
      r := DecodeExternalAxis(reply.value);
    }

    /** `set_tool`: one "06" frame; the tool is remembered, as given, once the reply is in. */
    method SetTool(pose: Value) returns (r: Result<(), Exception>)
      modifies this`sent, this`received, this`tool
      ensures var e := OnSocket(old(closed), RequestExchange(PoseFrame("06", scaleLinear, pose), replies, old(received)));
        Performed(e) && r == Outcome(e.result) && tool == if e.result.Ok? then pose else old(tool)
    {
      var text := FormatPose(pose);
      if text.Err? {
        return Err(text.error);
      }
      assert "06" + " " == "06 ";
      var reply := Request("06 " + text.value);
      if reply.Err? {
        return Err(reply.error);
      }
      tool := pose;
      r := Ok(());
    }

    /** `get_tool`: the tool last set, as it was given; nothing is sent. */
    method GetTool() returns (t: Value)
      ensures t == tool
    {
      t := tool;
    }

    /** `set_workobject`: one "07" frame with the work object pose. */
    method SetWorkObject(pose: Value) returns (r: Result<(), Exception>)
      modifies this`sent, this`received
      ensures var e := OnSocket(old(closed), RequestExchange(PoseFrame("07", scaleLinear, pose), replies, old(received)));
        Performed(e) && r == Outcome(e.result)
    {
      var text := FormatPose(pose);
      if text.Err? {
        return Err(text.error);
      }
      assert "07" + " " == "07 ";
      var reply := Request("07 " + text.value);
      r := Outcome(reply);
    }

    /** `set_speed`: four speeds in one "08" frame; any other count sends nothing. */
    method SetSpeed(speed: seq<real>) returns (r: Result<bool, Exception>)
      modifies this`sent, this`received
      ensures var e := OnSocket(old(closed),
          GuardedExchange(if |speed| == 4 then Some(SpeedFrame(speed)) else None, replies, old(received)));
        Performed(e) && r == WasSent(e.result)
    {
      if |speed| != 4 {
        return Ok(false);
      }
      var msg := "08 ";
      msg := msg + (Format(speed[0], LinearPlaces) + " ");
      msg := msg + (Format(speed[1], AnglePlaces) + " ");
      msg := msg + (Format(speed[2], LinearPlaces) + " ");
      msg := msg + (Format(speed[3], AnglePlaces) + " #");
      assert "08" + " " == "08 ";
      FourFields("08", Format(speed[0], LinearPlaces), Format(speed[1], AnglePlaces),
                 Format(speed[2], LinearPlaces), Format(speed[3], AnglePlaces));
      var reply := Request(msg);
      if reply.Err? {
        return Err(reply.error);
      }
      r := Ok(true);
    }

    /** `set_zone`: the resolved zone in one "09" frame; an unknown preset sends nothing. */
    method SetZone(key: string, pointMotion: bool, manual: Option<seq<real>>) returns (r: Result<bool, Exception>)
      modifies this`sent, this`received
      ensures var zone := ResolveZone(key, pointMotion, manual);
        var e := OnSocket(old(closed),
          GuardedExchange(if zone.Some? then Some(ZoneFrame(pointMotion, zone.value)) else None, replies, old(received)));
        Performed(e) && r == WasSent(e.result)
    {
      var zone := ResolveZone(key, pointMotion, manual);
      if zone.None? {
        return Ok(false);
      }
      var z := zone.value;
      var msg := "09 ";
      msg := msg + ((if pointMotion then "1" else "0") + " ");
      msg := msg + (Format(z[0], ZonePlaces) + " ");
      msg := msg + (Format(z[1], ZonePlaces) + " ");
      msg := msg + (Format(z[2], ZonePlaces) + " #");
      assert "09" + " " == "09 ";
      ghost var flag, f0, f1, f2 := if pointMotion then "1" else "0", Format(z[0], ZonePlaces), Format(z[1], ZonePlaces), Format(z[2], ZonePlaces);
      FormatAllEach(z, ZonePlaces);
      assert FormatAll(z, ZonePlaces) == [f0, f1, f2];
      assert ["09", flag] + [f0, f1, f2] == ["09", flag, f0, f1, f2];
      FourFields("09", flag, f0, f1, f2);
      var reply := Request(msg);
      if reply.Err? {
        return Err(reply.error);
      }
      r := Ok(true);
    }

    /** `buffer_add`: one "30" frame appending the pose to the remote buffer. */
    method BufferAdd(pose: Value) returns (r: Result<(), Exception>)
      modifies this`sent, this`received
      ensures var e := OnSocket(old(closed), RequestExchange(PoseFrame("30", scaleLinear, pose), replies, old(received)));
        Performed(e) && r == Outcome(e.result)
    {
      var text := FormatPose(pose);
      if text.Err? {
        return Err(text.error);
      }
      assert "30" + " " == "30 ";
      var reply := Request("30 " + text.value);
      r := Outcome(reply);
    }

    /** `buffer_len`: one "32" query; the length the reply reports. */
    method BufferLen() returns (r: Result<int, Exception>)
      modifies this`sent, this`received
      ensures var e := OnSocket(old(closed), LengthExchange(replies, old(received)));
        Performed(e) && r == e.result
    {
      var reply := Request(Query("32"));
      if reply.Err? {
        return Err(reply.error);
      }
      r := DecodeLength(reply.value);
    }

    /** `clear_buffer`: "31", then a length check that raises unless the buffer is empty. */
    method ClearBuffer() returns (r: Result<string, Exception>)
      modifies this`sent, this`received
      ensures var e := OnSocket(old(closed), ClearExchange(replies, old(received)));
        Performed(e) && r == e.result
    {
      ghost var log, k := sent, received;
      var data := Request(Query("31"));
      if data.Err? {
        return Err(data.error);
      }
      assert !closed && data.value == ReplyAt(replies, k);
      var length := BufferLen();
      assert length == DecodeLength(ReplyAt(replies, k + 1));
      Then(log, [Query("31")], [Query("32")]);
      assert [Query("31")] + [Query("32")] == [Query("31"), Query("32")];
      if length.Err? {
        return Err(length.error);
      }
      if length.value != 0 {
        // the failure message queries the length once more
        var again := BufferLen();
        assert again == DecodeLength(ReplyAt(replies, k + 2));
        Then(log, [Query("31"), Query("32")], [Query("32")]);
        assert [Query("31"), Query("32")] + [Query("32")] == [Query("31"), Query("32"), Query("32")];
        if again.Err? {
          return Err(again.error);
        }
        return Err(ClearBufferFailed);
      }
      r := Ok(data.value);
    }

    /** `buffer_set`: clear, one add per pose, and a length check with a corrective clear. */
    method BufferSet(poses: seq<Value>) returns (r: Result<bool, Exception>)
      modifies this`sent, this`received
      ensures var e := OnSocket(old(closed), BufferSetExchange(replies, old(received), scaleLinear, poses));
        Performed(e) && r == e.result
    {
      ghost var log, k := sent, received;
      BufferSetStartsWithClear(replies, k, scaleLinear, poses);
      var cleared := ClearBuffer();
      if cleared.Err? {
        return Err(cleared.error);
      }
      ghost var clear := ClearExchange(replies, k);
      assert !closed && clear.result.Ok? && received == k + 2;
      r := Fill(poses, k + 2);
      ghost var fill := FillExchange(replies, k + 2, scaleLinear, poses);
      BufferSetComposes(replies, k, scaleLinear, poses, clear, fill);
      Then(log, clear.frames, fill.frames);
    }

    /** `buffer_set` after its clear: one `buffer_add` per pose, then the length check. */
    method Fill(poses: seq<Value>, ghost at: nat) returns (r: Result<bool, Exception>)
      requires !closed && received == at
      modifies this`sent, this`received
      ensures var e := FillExchange(replies, at, scaleLinear, poses);
        Performed(e) && r == e.result
    {
      ghost var log := sent;
      var added := AddAll(poses);
      if added.Err? {
        return Err(added.error);
      }
      ghost var adds := SendAll(AddFrames(scaleLinear, poses));
      ghost var mid := sent;
      r := CheckLength(|poses|, at + |poses|);
      ghost var check := CheckExchange(replies, at + |poses|, |poses|);
      FillComposes(replies, at, scaleLinear, poses, adds, check);
      Then(log, adds.frames, check.frames);
    }

    /** The end of `buffer_set`: a length query and, on a mismatch, a corrective clear. */
    method CheckLength(expected: nat, ghost at: nat) returns (r: Result<bool, Exception>)
      requires !closed && received == at
      modifies this`sent, this`received
      ensures var e := CheckExchange(replies, at, expected);
        Performed(e) && r == e.result
    {
      ghost var log, k := sent, received;
      var length := BufferLen();
      assert length == DecodeLength(ReplyAt(replies, k));
      if length.Err? {
        return Err(length.error);
      }
      if length.value == expected {
        return Ok(true);
      }
      var again := ClearBuffer();
      Then(log, [Query("32")], ClearExchange(replies, k + 1).frames);
      if again.Err? {
        return Err(again.error);
      }
      r := Ok(false);
    }

    /** The loop of `buffer_set`: one `buffer_add` per pose, in list order, up to the first that raises. */
    method AddAll(poses: seq<Value>) returns (r: Result<(), Exception>)
      requires !closed
      modifies this`sent, this`received
      ensures var e := SendAll(AddFrames(scaleLinear, poses));
        Performed(e) && r == e.result && (r.Ok? ==> |e.frames| == |poses|)
    {
      ghost var fs := AddFrames(scaleLinear, poses);
      var i := 0;
      while i < |poses|
        invariant 0 <= i <= |poses|
        invariant SendAll(fs[..i]).result.Ok? && |SendAll(fs[..i]).frames| == i
        invariant sent == old(sent) + SendAll(fs[..i]).frames
        invariant received == old(received) + i
      {
        ghost var before := SendAll(fs[..i]);
        SendAllStep(fs, i);
        var added := BufferAdd(poses[i]);
        ghost var step := RequestExchange(fs[i], replies, old(received) + i);
        assert sent == old(sent) + before.frames + step.frames;
        if added.Err? {
          assert fs[i].Err? && added.error == fs[i].error;
          SendAllSticks(fs, i + 1);
          return Err(added.error);
        }
        Then(old(sent), before.frames, [fs[i].value]);
        i := i + 1;
      }
      assert fs[..i] == fs;
      r := Ok(());
    }

    /** `buffer_execute`: one "33" frame; its reply. */
    method BufferExecute() returns (r: Result<string, Exception>)
      modifies this`sent, this`received
      ensures var e := OnSocket(old(closed), Exchange([Query("33")], Ok(ReplyAt(replies, old(received)))));
        Performed(e) && r == e.result
    {
      r := Request(Query("33"));
    }

    /** `set_external_axis`: six values, unscaled, in one "34" frame; any other count sends nothing. */
    method SetExternalAxis(axis: seq<real>) returns (r: Result<Option<string>, Exception>)
      modifies this`sent, this`received
      ensures var e := OnSocket(old(closed),
          GuardedExchange(if |axis| == 6 then Some(ExternalAxisFrame(axis)) else None, replies, old(received)));
        Performed(e) && r == e.result
    {
      if |axis| != 6 {
        return Ok(None);
      }
      var msg := AppendFormatted("34 ", axis, AnglePlaces);
      JoinSpacedCons("34", FormatAll(axis, AnglePlaces));
      assert "34" + " " == "34 ";
      var reply := Request(msg + "#");
      r := Answered(reply);
    }

    /**
     * `move_circular`: both poses are formatted first; the "36" frame follows the "35" frame
     * only when token 1 of its reply is "1". `None` is the client's `False`.
     */
    method MoveCircular(onArc: Value, end: Value) returns (r: Result<Option<string>, Exception>)
      modifies this`sent, this`received
      ensures var e := OnSocket(old(closed), MoveCircularExchange(replies, old(received), scaleLinear, onArc, end, Intended));
        Performed(e) && r == e.result
    {
      ghost var k := received;
      var first := FormatPose(onArc);
      var second := FormatPose(end);
      if first.Err? {
        return Err(first.error);
      }
      if second.Err? {
        return Err(second.error);
      }
      r := Arc("35 " + first.value, "36 " + second.value, k);
    }

    /** The sends of `move_circular`: the "36" frame goes out only when token 1 of the first reply is "1". */
    method Arc(first: string, second: string, ghost at: nat) returns (r: Result<Option<string>, Exception>)
      requires received == at
      modifies this`sent, this`received
      ensures var e := OnSocket(old(closed), ArcExchange(replies, at, first, second, Intended));
        Performed(e) && r == e.result
    {
      var reply := Request(first);
      if reply.Err? {
        return Err(reply.error);
      }
      var data := Split(reply.value, Ascii);
      if |data| < 2 {
        return Err(IndexError);
      }
      if data[1] != "1" {
        return Ok(None);
      }
      var last := Request(second);
      r := Answered(last);
    }

    /** `set_dio`: one "97" frame carrying only whether `value` is non-zero; `id` is not sent. */
    method SetDio(value: int, id: int) returns (r: Result<string, Exception>)
      modifies this`sent, this`received
      ensures var e := OnSocket(old(closed), Exchange([DioFrame(value)], Ok(ReplyAt(replies, old(received)))));
        Performed(e) && r == e.result
    {
      var msg := "97 " + (if value != 0 then "1" else "0") + " #";
      DioFrames(value);
      r := Request(msg);
    }

    /** `close`: "99" without waiting for a reply, then the socket is shut. */
    method Close() returns (r: Result<(), Exception>)
      modifies this`sent, this`received, this`closed
      ensures closed && received == old(received)
      ensures old(closed) ==> r == Err(SocketClosed) && sent == old(sent)
      ensures !old(closed) ==> r == Ok(()) && sent == old(sent) + [Query("99")]
    {
      var sentClose := Send(Query("99"), false);
      if sentClose.Err? {
        closed := true;
        return Err(sentClose.error);
      }
      closed := true;
      r := Ok(());
    }
  }
}

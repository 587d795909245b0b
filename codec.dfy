/**
 * The motion client's codec: unit and zone tables, the text of every outgoing frame,
 * and the decoding of the controller's replies.
 */
module Codec {
  import opened Wrappers
  import opened Exceptions
  import opened Text
  import opened Decimal
  import opened Coordinates

  // ---------------------------------------------------------------------------------------
  // Tables

  /** Millimetres on the wire per unit of the chosen linear unit. */
  const LinearUnits: map<string, real> := map["millimeters" := 1.0, "meters" := 1000.0, "inches" := 25.4]

  /** Degrees on the wire per unit of the chosen angular unit. */
  const AngularUnits: map<string, real> := map["degrees" := 1.0, "radians" := 57.2957795]

  /** The RAPID zone presets: [pzone_tcp, pzone_ori, zone_ori]. */
  const ZoneTable: map<string, seq<real>> := map[
    "z0" := [0.3, 0.3, 0.03],
    "z1" := [1.0, 1.0, 0.1],
    "z5" := [5.0, 8.0, 0.8],
    "z10" := [10.0, 15.0, 1.5],
    "z15" := [15.0, 23.0, 2.3],
    "z20" := [20.0, 30.0, 3.0],
    "z30" := [30.0, 45.0, 4.5],
    "z50" := [50.0, 75.0, 7.5],
    "z100" := [100.0, 150.0, 15.0],
    "z200" := [200.0, 300.0, 30.0]
  ]

  lemma UnitScalesPositive(name: string)
    ensures name in LinearUnits ==> LinearUnits[name] > 0.0
    ensures name in AngularUnits ==> AngularUnits[name] > 0.0
  {
  }

  /**
   * The zone `set_zone` sends, in strict precedence: point motion forces the zero zone,
   * then a three-element manual zone, then the preset named by the key; otherwise none.
   */
  function ResolveZone(key: string, pointMotion: bool, manual: Option<seq<real>>): (r: Option<seq<real>>)
    ensures r.Some? ==> |r.value| == 3
    ensures r.None? <==> !pointMotion && !(manual.Some? && |manual.value| == 3) && key !in ZoneTable
    ensures pointMotion ==> r == Some([0.0, 0.0, 0.0])
    ensures !pointMotion && manual.Some? && |manual.value| == 3 ==> r == manual
    ensures !pointMotion && !(manual.Some? && |manual.value| == 3) && key in ZoneTable ==> r == Some(ZoneTable[key])
  {
    if pointMotion then Some([0.0, 0.0, 0.0])
    else if manual.Some? && |manual.value| == 3 then manual
    else if key in ZoneTable then Some(ZoneTable[key])
    else None
  }

  // ---------------------------------------------------------------------------------------
  // Fields

  /** Decimal places of each kind of field: `+08.1f`, `+08.2f`, `+08.4f` and `+08.5f`. */
  const LinearPlaces: nat := 1
  const AnglePlaces: nat := 2
  const ZonePlaces: nat := 4
  const QuaternionPlaces: nat := 5

  function Scaled(xs: seq<real>, s: real): (ys: seq<real>)
    ensures |ys| == |xs|
  {
    seq(|xs|, i requires 0 <= i < |xs| => xs[i] * s)
  }

  lemma ScaledAt(xs: seq<real>, s: real, i: nat)
    requires i < |xs|
    ensures Scaled(xs, s)[i] == xs[i] * s
  {
  }

  /** Every value formatted with d decimals, in order. */
  function FormatAll(xs: seq<real>, d: nat): (fs: seq<string>)
    ensures |fs| == |xs|
  {
    if xs == [] then [] else FormatAll(xs[..|xs| - 1], d) + [Format(xs[|xs| - 1], d)]
  }

  lemma {:induction false} FormatAllAt(xs: seq<real>, d: nat, i: nat)
    requires i < |xs|
    ensures FormatAll(xs, d)[i] == Format(xs[i], d)
    decreases |xs|
  {
    if i < |xs| - 1 {
      FormatAllAt(xs[..|xs| - 1], d, i);
    }
  }

  lemma FormatAllEach(xs: seq<real>, d: nat)
    ensures forall i :: 0 <= i < |xs| ==> FormatAll(xs, d)[i] == Format(xs[i], d)
  {
    forall i | 0 <= i < |xs| ensures FormatAll(xs, d)[i] == Format(xs[i], d) {
      FormatAllAt(xs, d, i);
    }
  }

  /**
   * The seven fields of a pose, or the error normalising it raises: the position values
   * scaled and the quaternion values, each formatted in turn.
   */
  function PoseFields(scaleLinear: real, pose: Value): (r: Result<seq<string>, Exception>)
    ensures r.Ok? <==> PoseNumbers(pose).Ok?
    ensures r.Err? ==> r.error == PoseNumbers(pose).error
    ensures r.Ok? ==> |r.value| == 7
  {
    match PoseNumbers(pose)
    case Err(e) => Err(e)
    case Ok(numbers) => Ok(FormatAll(Scaled(numbers.0, scaleLinear), LinearPlaces) + FormatAll(numbers.1, QuaternionPlaces))
  }

  /**
   * The layout of the pose fields: first the three position values multiplied by the linear
   * scale with one decimal, then the four quaternion values, unscaled, with five.
   */
  lemma PoseFieldLayout(scaleLinear: real, pose: Value, position: seq<real>, orientation: seq<real>)
    requires PoseNumbers(pose) == Ok((position, orientation))
    ensures PoseFields(scaleLinear, pose).Ok?
    ensures var fields := PoseFields(scaleLinear, pose).value;
      && (forall i :: 0 <= i < 3 ==> fields[i] == Format(position[i] * scaleLinear, LinearPlaces))
      && (forall i :: 3 <= i < 7 ==> fields[i] == Format(orientation[i - 3], QuaternionPlaces))
  {
    var fields := PoseFields(scaleLinear, pose).value;
    assert fields == FormatAll(Scaled(position, scaleLinear), LinearPlaces) + FormatAll(orientation, QuaternionPlaces);
    FieldsLayout(fields, position, orientation, scaleLinear);
  }

  /** The seven fields built from three position values and four quaternion values. */
  lemma FieldsLayout(fields: seq<string>, position: seq<real>, orientation: seq<real>, scaleLinear: real)
    requires |position| == 3 && |orientation| == 4
    requires fields == FormatAll(Scaled(position, scaleLinear), LinearPlaces) + FormatAll(orientation, QuaternionPlaces)
    ensures && (forall i :: 0 <= i < 3 ==> fields[i] == Format(position[i] * scaleLinear, LinearPlaces))
      && (forall i :: 3 <= i < 7 ==> fields[i] == Format(orientation[i - 3], QuaternionPlaces))
  {
    var ps := FormatAll(Scaled(position, scaleLinear), LinearPlaces);
    var qs := FormatAll(orientation, QuaternionPlaces);
    forall i | 0 <= i < 3 ensures fields[i] == Format(position[i] * scaleLinear, LinearPlaces) {
      FormatAllAt(Scaled(position, scaleLinear), LinearPlaces, i);
      ScaledAt(position, scaleLinear, i);
    }
    forall i | 3 <= i < 7 ensures fields[i] == Format(orientation[i - 3], QuaternionPlaces) {
      FormatAllAt(orientation, QuaternionPlaces, i - 3);
    }
  }

  /** A frame of five tokens, written out as the client concatenates it. */
  lemma FourFields(opcode: string, a: string, b: string, c: string, d: string)
    ensures Frame([opcode, a, b, c, d]) == opcode + " " + (a + " ") + (b + " ") + (c + " ") + (d + " #")
  {
    JoinSpacedSnoc([], opcode);
    assert [] + [opcode] == [opcode];
    assert JoinSpaced([opcode]) == [] + opcode + " " == opcode + " ";
    JoinSpacedSnoc([opcode], a);
    assert [opcode] + [a] == [opcode, a];
    JoinSpacedSnoc([opcode, a], b);
    assert [opcode, a] + [b] == [opcode, a, b];
    JoinSpacedSnoc([opcode, a, b], c);
    assert [opcode, a, b] + [c] == [opcode, a, b, c];
    JoinSpacedSnoc([opcode, a, b, c], d);
    assert [opcode, a, b, c] + [d] == [opcode, a, b, c, d];
    var j1 := opcode + " ";
    var j2 := j1 + (a + " ");
    var j3 := j2 + (b + " ");
    var j4 := j3 + (c + " ");
    assert JoinSpaced([opcode, a]) == j2 by { Regroup(j1, [], a, " "); }
    assert JoinSpaced([opcode, a, b]) == j3 by { Regroup(j2, [], b, " "); }
    assert JoinSpaced([opcode, a, b, c]) == j4 by { Regroup(j3, [], c, " "); }
    assert Frame([opcode, a, b, c, d]) == j4 + (d + " #") by { Regroup(j4, d, " ", "#"); }
  }

  lemma FormatAllWords(xs: seq<real>, d: nat, ws: Whitespace)
    ensures AllWords(FormatAll(xs, d), ws)
  {
    forall i | 0 <= i < |xs| ensures IsWord(FormatAll(xs, d)[i], ws) {
      FormatFixedIsWord(xs[i] < 0.0, Magnitude(xs[i], d), d, ws);
    }
  }

  // ---------------------------------------------------------------------------------------
  // Frames

  /** What `format_pose` returns: the seven pose fields, each followed by a space, then '#'. */
  function PoseText(scaleLinear: real, pose: Value): Result<string, Exception> {
    match PoseFields(scaleLinear, pose)
    case Err(e) => Err(e)
    case Ok(fields) => Ok(JoinSpaced(fields) + "#")
  }

  /** A pose frame: the opcode, the seven pose fields and the terminator. */
  function PoseFrame(opcode: string, scaleLinear: real, pose: Value): (r: Result<string, Exception>)
    ensures r.Ok? <==> PoseFields(scaleLinear, pose).Ok?
    ensures r.Err? ==> r.error == PoseFields(scaleLinear, pose).error
    ensures r.Ok? ==> r.value == Frame([opcode] + PoseFields(scaleLinear, pose).value)
    ensures r.Ok? ==> r.value == opcode + " " + PoseText(scaleLinear, pose).value
  {
    match PoseFields(scaleLinear, pose)
    case Err(e) => Err(e)
    case Ok(fields) =>
      JoinSpacedCons(opcode, fields);
      Ok(Frame([opcode] + fields))
  }

  /** A pose frame is its opcode and a space in front of what `format_pose` returns. */
  lemma PoseFrameText(opcode: string, scaleLinear: real, pose: Value, text: Result<string, Exception>)
    requires text == PoseText(scaleLinear, pose)
    ensures PoseFrame(opcode, scaleLinear, pose) == if text.Ok? then Ok(opcode + " " + text.value) else Err(text.error)
  {
  }

  function JointsFrame(scaleAngle: real, joints: seq<real>): string {
    Frame(["02"] + FormatAll(Scaled(joints, scaleAngle), AnglePlaces))
  }

  function SpeedFrame(speed: seq<real>): string
    requires |speed| == 4
  {
    Frame(["08", Format(speed[0], LinearPlaces), Format(speed[1], AnglePlaces),
                 Format(speed[2], LinearPlaces), Format(speed[3], AnglePlaces)])
  }

  function ZoneFrame(pointMotion: bool, zone: seq<real>): string
    requires |zone| == 3
  {
    Frame(["09", if pointMotion then "1" else "0"] + FormatAll(zone, ZonePlaces))
  }

  function ExternalAxisFrame(axis: seq<real>): string {
    Frame(["34"] + FormatAll(axis, AnglePlaces))
  }

  /** `set_dio` sends only the truth value of `value`; the line identifier never reaches the wire. */
  function DioFrame(value: int): string {
    Frame(["97", if value != 0 then "1" else "0"])
  }

  /** A frame of an opcode alone, such as the queries "03 #" and "32 #". */
  function Query(opcode: string): (f: string)
    ensures f == opcode + " #"
    ensures opcode == "31" ==> f == "31 #"
    ensures opcode == "32" ==> f == "32 #"
  {
    assert JoinSpaced([opcode]) == JoinSpaced([]) + opcode + " ";
    Frame([opcode])
  }

  // ---------------------------------------------------------------------------------------
  // Replies

  /** Python's `s[i:j]` for 0 <= i <= j: the bounds are clipped to the length. */
  function Slice<T>(s: seq<T>, i: nat, j: nat): (r: seq<T>)
    requires i <= j
    ensures |r| == (if j <= |s| then j - i else if i <= |s| then |s| - i else 0)
    ensures forall k :: 0 <= k < |r| ==> r[k] == s[i + k]
  {
    if j <= |s| then s[i..j] else if i <= |s| then s[i..] else []
  }

  /** `float()` of every token, failing on the first that is not a number. */
  function ParseAll(tokens: seq<string>): (r: Option<seq<real>>)
    ensures r.Some? <==> forall i :: 0 <= i < |tokens| ==> ParseFloat(tokens[i]).Some?
    ensures r.Some? ==> (
      && |r.value| == |tokens|
      && forall i :: 0 <= i < |tokens| ==> ParseFloat(tokens[i]) == Some(r.value[i]))
  {
    if tokens == [] then Some([])
    else match (ParseFloat(tokens[0]), ParseAll(tokens[1..]))
      case (Some(v), Some(vs)) => Some([v] + vs)
      case _ => None
  }

  /** `get_cartesian`: every token is read as a float; tokens 2-4 and 5-8 are returned unscaled. */
  function DecodeCartesian(reply: string): Result<(seq<real>, seq<real>), Exception> {
    match ParseAll(Split(reply, Ascii))
    case None => Err(ValueError)
    case Some(r) => Ok((Slice(r, 2, 5), Slice(r, 5, 9)))
  }

  /** `get_joints`: tokens 2-7 read as floats and divided by the angular scale. */
  function DecodeJoints(reply: string, scaleAngle: real): Result<seq<real>, Exception>
    requires scaleAngle != 0.0
  {
    match ParseAll(Slice(Split(reply, Ascii), 2, 8))
    case None => Err(ValueError)
    case Some(vs) => Ok(Unscaled(vs, scaleAngle))
  }

  function Unscaled(vs: seq<real>, s: real): (us: seq<real>)
    requires s != 0.0
    ensures |us| == |vs| && forall i :: 0 <= i < |vs| ==> us[i] == vs[i] / s
  {
    seq(|vs|, i requires 0 <= i < |vs| => vs[i] / s)
  }

  /** `get_external_axis`: tokens 2-7 read as floats, never scaled. */
  function DecodeExternalAxis(reply: string): Result<seq<real>, Exception> {
    match ParseAll(Slice(Split(reply, Ascii), 2, 8))
    case None => Err(ValueError)
    case Some(vs) => Ok(vs)
  }

  /** `buffer_len`: `int(float(token 2))`. */
  function DecodeLength(reply: string): Result<int, Exception> {
    LengthAt(Split(reply, Ascii), 2)
  }

  /**
   * `int(float(tokens[i]))`: an IndexError past the end, a ValueError for a token that is not
   * a number.
   */
  function LengthAt(tokens: seq<string>, i: nat): Result<int, Exception> {
    if tokens == [] then Err(IndexError)
    else if i > 0 then LengthAt(tokens[1..], i - 1)
    else match ParseFloat(tokens[0])
      case None => Err(ValueError)
      case Some(v) => Ok(Truncate(v))
  }

  /** `LengthAt` is indexing followed by `float` and `int`. */
  lemma {:induction false} LengthAtIndex(tokens: seq<string>, i: nat)
    ensures i >= |tokens| <==> LengthAt(tokens, i) == Err(IndexError)
    ensures i < |tokens| && ParseFloat(tokens[i]).None? ==> LengthAt(tokens, i) == Err(ValueError)
    ensures i < |tokens| && ParseFloat(tokens[i]).Some? ==> LengthAt(tokens, i) == Ok(Truncate(ParseFloat(tokens[i]).value))
    decreases i
  {
    if tokens != [] && i > 0 {
      LengthAtIndex(tokens[1..], i - 1);
      if i < |tokens| {
        assert tokens[1..][i - 1] == tokens[i];
      }
    }
  }

  // ---------------------------------------------------------------------------------------
  // Properties of the decoders

  /** Every formatted field reads back, each within half a unit of its last decimal place. */
  lemma ParseAllFormatted(xs: seq<real>, d: nat)
    ensures ParseAll(FormatAll(xs, d)).Some?
    ensures |ParseAll(FormatAll(xs, d)).value| == |xs|
    ensures forall i :: 0 <= i < |xs| ==> Near(ParseAll(FormatAll(xs, d)).value[i], xs[i], d)
  {
    var fs := FormatAll(xs, d);
    forall i | 0 <= i < |xs| ensures ParseFloat(fs[i]).Some? && Near(ParseFloat(fs[i]).value, xs[i], d) {
      FormatAllAt(xs, d, i);
      FormatAccuracy(xs[i], d);
    }
  }

  /** The tokens of a reply made of `head`, then `fields`, then `rest`. */
  lemma SplitReply(head: seq<string>, fields: seq<string>, rest: seq<string>)
    requires AllWords(head, Ascii) && AllWords(fields, Ascii) && AllWords(rest, Ascii)
    ensures Split(JoinSpaced(head + fields + rest), Ascii) == head + fields + rest
    ensures Slice(head + fields + rest, |head|, |head| + |fields|) == fields
  {
    var ts := head + fields + rest;
    assert AllWords(ts, Ascii) by {
      forall i | 0 <= i < |ts| ensures IsWord(ts[i], Ascii) {
        if i < |head| { assert ts[i] == head[i]; }
        else if i < |head| + |fields| { assert ts[i] == fields[i - |head|]; }
        else { assert ts[i] == rest[i - |head| - |fields|]; }
      }
    }
    SplitJoinSpaced(ts, Ascii);
    assert ts[|head|..|head| + |fields|] == fields;
  }

  lemma DivideWithin(v: real, y: real, x: real, s: real)
    requires s > 0.0 && y == x * s && Near(v, y, AnglePlaces)
    ensures Abs(v / s - x) <= 0.005 / s
  {
    TolerancePlaces();
    assert v / s - x == (v - y) / s;
  }

  /** The tokens from `start` on read as numbers near `ys`, to `d` places. */
  predicate CarriesFrom(ts: seq<string>, start: nat, ys: seq<real>, d: nat) {
    start + |ys| <= |ts|
    && forall k :: start <= k < start + |ys| ==>
      ParseFloat(ts[k]).Some? && Near(ParseFloat(ts[k]).value, ys[k - start], d)
  }

  lemma FormattedCarried(head: seq<string>, xs: seq<real>, d: nat, rest: seq<string>)
    ensures CarriesFrom(head + FormatAll(xs, d) + rest, |head|, xs, d)
  {
    var ts := head + FormatAll(xs, d) + rest;
    FormatAllEach(xs, d);
    forall k | |head| <= k < |head| + |xs| ensures ParseFloat(ts[k]).Some? && Near(ParseFloat(ts[k]).value, xs[k - |head|], d) {
      assert ts[k] == Format(xs[k - |head|], d);
      FormatAccuracy(xs[k - |head|], d);
    }
  }

  /** Reply tokens 2-7 that carry six values read back as exactly six numbers near them. */
  lemma SixNear(ys: seq<real>, ts: seq<string>)
    requires |ys| == 6 && CarriesFrom(ts, 2, ys, AnglePlaces)
    ensures ParseAll(Slice(ts, 2, 8)).Some?
    ensures |ParseAll(Slice(ts, 2, 8)).value| == 6
    ensures forall i :: 0 <= i < 6 ==> Near(ParseAll(Slice(ts, 2, 8)).value[i], ys[i], AnglePlaces)
  {
    var fs := Slice(ts, 2, 8);
    forall i | 0 <= i < 6 ensures fs[i] == ts[2 + i] && ParseFloat(fs[i]).Some? {
      assert ParseFloat(ts[2 + i]).Some?;
    }
    var vs := ParseAll(fs).value;
    forall i | 0 <= i < 6 ensures Near(vs[i], ys[i], AnglePlaces) {
      assert ParseFloat(ts[2 + i]) == Some(vs[i]);
    }
  }

  lemma DivideAll(vs: seq<real>, joints: seq<real>, scaleAngle: real)
    requires |vs| == |joints| && scaleAngle > 0.0
    requires forall i :: 0 <= i < |vs| ==> Near(vs[i], Scaled(joints, scaleAngle)[i], AnglePlaces)
    ensures forall i :: 0 <= i < |vs| ==> Abs(Unscaled(vs, scaleAngle)[i] - joints[i]) <= 0.005 / scaleAngle
  {
    forall i | 0 <= i < |vs| ensures Abs(Unscaled(vs, scaleAngle)[i] - joints[i]) <= 0.005 / scaleAngle {
      DivideWithin(vs[i], Scaled(joints, scaleAngle)[i], joints[i], scaleAngle);
    }
  }

  /**
   * Joint angles survive the wire: a reply whose tokens 2-7 are six angles formatted in the
   * current angular unit, as `set_joints` formats them, reads back within 0.005 degrees.
   */
  lemma JointsRoundTrip(scaleAngle: real, joints: seq<real>, reply: string, head: seq<string>, rest: seq<string>)
    requires scaleAngle > 0.0 && |joints| == 6 && |head| == 2
    requires Split(reply, Ascii) == head + FormatAll(Scaled(joints, scaleAngle), AnglePlaces) + rest
    ensures var r := DecodeJoints(reply, scaleAngle);
      && r.Ok? && |r.value| == 6
      && forall i :: 0 <= i < 6 ==> Abs(r.value[i] - joints[i]) <= 0.005 / scaleAngle
  {
    var ys := Scaled(joints, scaleAngle);
    var ts := head + FormatAll(ys, AnglePlaces) + rest;
    FormattedCarried(head, ys, AnglePlaces, rest);
    SixNear(ys, ts);
    DivideAll(ParseAll(Slice(ts, 2, 8)).value, joints, scaleAngle);
  }

  /** External-axis values come back as they were sent, whatever the unit settings. */
  lemma ExternalAxisRoundTrip(axis: seq<real>, reply: string, head: seq<string>, rest: seq<string>)
    requires |axis| == 6 && |head| == 2
    requires Split(reply, Ascii) == head + FormatAll(axis, AnglePlaces) + rest
    ensures var r := DecodeExternalAxis(reply);
      && r.Ok? && |r.value| == 6
      && forall i :: 0 <= i < 6 ==> Abs(r.value[i] - axis[i]) <= 0.005
  {
    var ts := head + FormatAll(axis, AnglePlaces) + rest;
    FormattedCarried(head, axis, AnglePlaces, rest);
    SixNear(axis, ts);
    TolerancePlaces();
  }

  /**
   * `get_cartesian` reports the controller's numbers as they are: tokens 2-4 and 5-8 of the
   * reply, with no division by the linear scale.
   */
  lemma CartesianReadBack(reply: string, vs: seq<real>)
    requires ParseAll(Split(reply, Ascii)) == Some(vs) && |vs| >= 9
    ensures DecodeCartesian(reply) == Ok((vs[2..5], vs[5..9]))
  {
  }

  /** A reply token that is not a number makes `get_cartesian` fail with a ValueError. */
  lemma CartesianBadToken(reply: string, k: nat)
    requires k < |Split(reply, Ascii)| && ParseFloat(Split(reply, Ascii)[k]).None?
    ensures DecodeCartesian(reply) == Err(ValueError)
  {
  }

  /**
   * `buffer_len` reads the third token of its reply, whatever its spelling, as the number it
   * denotes truncated toward zero; a whole number n comes back as n.
   */
  lemma LengthRoundTrip(t: string, x: real, head: seq<string>, rest: seq<string>)
    requires |head| == 2
    requires AllWords(head, Ascii) && IsWord(t, Ascii) && AllWords(rest, Ascii)
    requires ParseFloat(t) == Some(x)
    ensures DecodeLength(JoinSpaced(head + [t] + rest)) == Ok(Truncate(x))
    ensures x == x.Floor as real ==> DecodeLength(JoinSpaced(head + [t] + rest)) == Ok(x.Floor)
  {
    assert AllWords([t], Ascii);
    SplitReply(head, [t], rest);
    assert (head + [t] + rest)[2] == t;
    LengthAtIndex(head + [t] + rest, 2);
    if x == x.Floor as real {
      TruncateWhole(x.Floor);
    }
  }

  /** `int()` of a whole number gives it back. */
  lemma TruncateWhole(n: int)
    ensures Truncate(n as real) == n
  {
  }

  /** The length field as the client formats numbers, `+000000n`, reads back as n. */
  lemma FormattedLengthRoundTrip(n: nat, head: seq<string>, rest: seq<string>)
    requires |head| == 2
    requires AllWords(head, Ascii) && AllWords(rest, Ascii)
    ensures DecodeLength(JoinSpaced(head + [FormatFixed(false, n, 0)] + rest)) == Ok(n)
  {
    FormatFixedIsWord(false, n, 0, Ascii);
    ParseFormatFixed(false, n, 0);
    LengthRoundTrip(FormatFixed(false, n, 0), n as real, head, rest);
  }

  /** A reply with fewer than three tokens makes `buffer_len` fail with an IndexError. */
  lemma ShortLengthReply(reply: string)
    requires |Split(reply, Ascii)| < 3
    ensures DecodeLength(reply) == Err(IndexError)
  {
    LengthAtIndex(Split(reply, Ascii), 2);
  }

  // ---------------------------------------------------------------------------------------
  // The frames of the default settings

  lemma ZeroLinear() ensures Format(0.0, LinearPlaces) == "+00000.0" {
    assert Magnitude(0.0, 1) == 0;
  }

  lemma ZeroQuaternion() ensures Format(0.0, QuaternionPlaces) == "+0.00000" {
    assert Magnitude(0.0, 5) == 0;
  }

  lemma UnitQuaternion() ensures Format(1.0, QuaternionPlaces) == "+1.00000" {
    assert Pow10(5) == 100000;
    assert Magnitude(1.0, 5) == 100000;
    assert NatDigits(100000) == "100000";
  }

  lemma HundredLinear() ensures Format(100.0, LinearPlaces) == "+00100.0" {
    assert Pow10(1) == 10;
    assert Magnitude(100.0, 1) == 1000;
    assert NatDigits(1000) == "1000";
  }

  lemma FiftyLinear() ensures Format(50.0, LinearPlaces) == "+00050.0" {
    assert Pow10(1) == 10;
    assert Magnitude(50.0, 1) == 500;
    assert NatDigits(500) == "500";
  }

  lemma FiftyAngle() ensures Format(50.0, AnglePlaces) == "+0050.00" {
    assert Pow10(2) == 100;
    assert Magnitude(50.0, 2) == 5000;
    assert NatDigits(5000) == "5000";
  }

  lemma OneZone() ensures Format(1.0, ZonePlaces) == "+01.0000" {
    assert Pow10(4) == 10000;
    assert Magnitude(1.0, 4) == 10000;
    assert NatDigits(10000) == "10000";
  }

  lemma TenthZone() ensures Format(0.1, ZonePlaces) == "+00.1000" {
    assert Pow10(4) == 10000;
    assert Magnitude(0.1, 4) == 1000;
    assert NatDigits(1000) == "1000";
  }

  lemma ZeroZone() ensures Format(0.0, ZonePlaces) == "+00.0000" {
    assert Magnitude(0.0, 4) == 0;
  }

  lemma ZeroAngle() ensures Format(0.0, AnglePlaces) == "+0000.00" {
    assert Magnitude(0.0, 2) == 0;
  }

  lemma MinusFiveFiftyAngle() ensures Format(-550.0, AnglePlaces) == "-0550.00" {
    assert Pow10(2) == 100;
    assert Magnitude(-550.0, 2) == 55000;
    assert NatDigits(55000) == "55000";
  }

  /** The default external axis position [-550, 0, 0, 0, 0, 0] goes out as this frame. */
  lemma DefaultExternalAxisFrame()
    ensures ExternalAxisFrame([-550.0, 0.0, 0.0, 0.0, 0.0, 0.0])
      == Frame(["34", "-0550.00", "+0000.00", "+0000.00", "+0000.00", "+0000.00", "+0000.00"])
  {
    ZeroAngle();
    MinusFiveFiftyAngle();
    var axis := [-550.0, 0.0, 0.0, 0.0, 0.0, 0.0];
    var fields := FormatAll(axis, AnglePlaces);
    FormatAllEach(axis, AnglePlaces);
    assert fields == ["-0550.00", "+0000.00", "+0000.00", "+0000.00", "+0000.00", "+0000.00"];
    assert ["34"] + fields == ["34", "-0550.00", "+0000.00", "+0000.00", "+0000.00", "+0000.00", "+0000.00"];
  }

  /** The default speed [100, 50, 50, 50] goes out as this frame. */
  lemma DefaultSpeedFrame()
    ensures SpeedFrame([100.0, 50.0, 50.0, 50.0]) == Frame(["08", "+00100.0", "+0050.00", "+00050.0", "+0050.00"])
  {
    HundredLinear();
    FiftyAngle();
    FiftyLinear();
  }

  /** The default zone "z1" goes out as this frame. */
  lemma DefaultZoneFrame()
    ensures ResolveZone("z1", false, None) == Some([1.0, 1.0, 0.1])
    ensures ZoneFrame(false, [1.0, 1.0, 0.1]) == Frame(["09", "0", "+01.0000", "+01.0000", "+00.1000"])
  {
    OneZone();
    TenthZone();
    assert FormatAll([1.0, 1.0, 0.1], ZonePlaces) == ["+01.0000", "+01.0000", "+00.1000"];
    assert ["09", "0"] + ["+01.0000", "+01.0000", "+00.1000"] == ["09", "0", "+01.0000", "+01.0000", "+00.1000"];
  }

  /** Point motion sends the zero zone with the flag set, whatever the key. */
  lemma PointMotionZoneFrame(key: string, manual: Option<seq<real>>)
    ensures ResolveZone(key, true, manual) == Some([0.0, 0.0, 0.0])
    ensures ZoneFrame(true, [0.0, 0.0, 0.0]) == Frame(["09", "1", "+00.0000", "+00.0000", "+00.0000"])
  {
    ZeroZone();
    assert FormatAll([0.0, 0.0, 0.0], ZonePlaces) == ["+00.0000", "+00.0000", "+00.0000"];
    assert ["09", "1"] + ["+00.0000", "+00.0000", "+00.0000"] == ["09", "1", "+00.0000", "+00.0000", "+00.0000"];
  }

  /** The default tool and work object [[0, 0, 0], [1, 0, 0, 0]]: origin and identity rotation. */
  const IdentityPose: Value := List([List([Num(0.0), Num(0.0), Num(0.0)]), List([Num(1.0), Num(0.0), Num(0.0), Num(0.0)])])

  /** The default tool and work object go out as the origin and the identity quaternion. */
  lemma IdentityPoseFields(scaleLinear: real)
    ensures PoseFields(scaleLinear, IdentityPose)
      == Ok(["+00000.0", "+00000.0", "+00000.0", "+1.00000", "+0.00000", "+0.00000", "+0.00000"])
  {
    IdentityPoseNumbers();
    FieldsOfNumbers(scaleLinear, IdentityPose, [0.0, 0.0, 0.0], [1.0, 0.0, 0.0, 0.0]);
    assert Scaled([0.0, 0.0, 0.0], scaleLinear) == [0.0, 0.0, 0.0];
    OriginFormats();
    IdentityQuaternionFormats();
    assert ["+00000.0", "+00000.0", "+00000.0"] + ["+1.00000", "+0.00000", "+0.00000", "+0.00000"]
      == ["+00000.0", "+00000.0", "+00000.0", "+1.00000", "+0.00000", "+0.00000", "+0.00000"];
  }

  /** The origin, at any linear scale, goes out as three zero fields. */
  lemma OriginFormats()
    ensures FormatAll([0.0, 0.0, 0.0], LinearPlaces) == ["+00000.0", "+00000.0", "+00000.0"]
  {
    ZeroLinear();
    FormatAllEach([0.0, 0.0, 0.0], LinearPlaces);
  }

  /** The identity quaternion goes out as one and three zeros. */
  lemma IdentityQuaternionFormats()
    ensures FormatAll([1.0, 0.0, 0.0, 0.0], QuaternionPlaces) == ["+1.00000", "+0.00000", "+0.00000", "+0.00000"]
  {
    ZeroQuaternion();
    UnitQuaternion();
    FormatAllEach([1.0, 0.0, 0.0, 0.0], QuaternionPlaces);
  }

  /** The seven fields of a pose whose position and orientation are known. */
  lemma FieldsOfNumbers(scaleLinear: real, pose: Value, position: seq<real>, orientation: seq<real>)
    requires PoseNumbers(pose) == Ok((position, orientation))
    ensures PoseFields(scaleLinear, pose)
      == Ok(FormatAll(Scaled(position, scaleLinear), LinearPlaces) + FormatAll(orientation, QuaternionPlaces))
  {
  }

  lemma IdentityPoseNumbers()
    ensures PoseNumbers(IdentityPose) == Ok(([0.0, 0.0, 0.0], [1.0, 0.0, 0.0, 0.0]))
  {
    var position := [Num(0.0), Num(0.0), Num(0.0)];
    var orientation := [Num(1.0), Num(0.0), Num(0.0), Num(0.0)];
    assert IsNested(IdentityPose);
    assert AllNumbers(position) && AllNumbers(orientation);
    assert Numbers(position) == [0.0, 0.0, 0.0];
    assert Numbers(orientation) == [1.0, 0.0, 0.0, 0.0];
  }

  /** `dio` frames carry only whether the value is non-zero. */
  lemma DioFrames(value: int)
    ensures DioFrame(value) == "97 " + (if value != 0 then "1" else "0") + " #"
  {
    var b := if value != 0 then "1" else "0";
    PairFrame("97", b);
    assert "97" + " " == "97 ";
  }

  lemma PairFrame(a: string, b: string)
    ensures Frame([a, b]) == a + " " + b + " #"
  {
    assert [a, b][..1] == [a];
    assert [a][..0] == [];
    assert JoinSpaced([a]) == a + " ";
    assert JoinSpaced([a, b]) == a + " " + b + " ";
  }
}

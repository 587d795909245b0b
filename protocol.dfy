/**
 * The multi-message operations of the motion client as transcripts: the frames each puts on
 * the wire, in order, and what it returns or raises, given the replies the controller gives.
 * Every frame in these operations waits for one reply, so an operation that starts on reply `k`
 * reads replies `k`, `k + 1`, ... in the order of its frames.
 */
module Protocol {
  import opened Wrappers
  import opened Exceptions
  import opened Text
  import opened Coordinates
  import opened Codec

  /** The reply to the k-th request that waits; past the end the peer has closed and sends nothing. */
  function ReplyAt(replies: seq<string>, k: nat): (r: string)
    ensures k < |replies| ==> r == replies[k]
    ensures k >= |replies| ==> r == ""
  {
    if k < |replies| then replies[k] else ""
  }

  /** Frames sent by one step and then by the next are the two lists, one after the other. */
  lemma Then(log: seq<string>, first: seq<string>, second: seq<string>)
    ensures log + first + second == log + (first + second)
  {
  }

  /** The frames an operation sends, in order, and its outcome. */
  datatype Exchange<T> = Exchange(frames: seq<string>, result: Result<T, Exception>)

  /** On a closed socket the first send raises; what happens before it is unchanged. */
  function OnSocket<T>(closed: bool, e: Exchange<T>): (r: Exchange<T>)
    ensures !closed ==> r == e
    ensures closed && e.frames != [] ==> r == Exchange([], Err(SocketClosed))
    ensures closed && e.frames == [] ==> r == e
  {
    if closed && e.frames != [] then Exchange([], Err(SocketClosed)) else e
  }

  /** A single request that waits for its reply; nothing is sent when its frame cannot be built. */
  function RequestExchange(frame: Result<string, Exception>, replies: seq<string>, k: nat): (e: Exchange<string>)
    ensures frame.Err? <==> e.frames == []
    ensures frame.Err? ==> e.result == Err(frame.error)
    ensures frame.Ok? ==> e.frames == [frame.value] && e.result == Ok(ReplyAt(replies, k))
  {
    match frame
    case Err(x) => Exchange([], Err(x))
    case Ok(f) => Exchange([f], Ok(ReplyAt(replies, k)))
  }

  /**
   * A request behind a local guard: `None` when the guard fails, and then nothing is sent and
   * the result is `None` (the client's `False`); otherwise the frame and its reply.
   */
  function GuardedExchange(frame: Option<string>, replies: seq<string>, k: nat): (e: Exchange<Option<string>>)
    ensures frame.None? <==> e.frames == []
    ensures frame.None? ==> e.result == Ok(None)
    ensures frame.Some? ==> e.frames == [frame.value] && e.result == Ok(Some(ReplyAt(replies, k)))
  {
    match frame
    case None => Exchange([], Ok(None))
    case Some(f) => Exchange([f], Ok(Some(ReplyAt(replies, k))))
  }

  /** `buffer_len`: one "32" query and the length its reply reports. */
  function LengthExchange(replies: seq<string>, k: nat): Exchange<int> {
    Exchange([Query("32")], DecodeLength(ReplyAt(replies, k)))
  }

  /**
   * `clear_buffer`: a "31" request, then a length query. A non-zero length is queried once more
   * for the warning message and then reported as a failure.
   */
  function ClearExchange(replies: seq<string>, k: nat): (e: Exchange<string>)
    ensures e.result.Ok? <==> DecodeLength(ReplyAt(replies, k + 1)) == Ok(0)
    ensures e.result.Ok? ==> e == Exchange([Query("31"), Query("32")], Ok(ReplyAt(replies, k)))
    ensures DecodeLength(ReplyAt(replies, k + 1)).Err? ==>
      e == Exchange([Query("31"), Query("32")], Err(DecodeLength(ReplyAt(replies, k + 1)).error))
    ensures DecodeLength(ReplyAt(replies, k + 1)).Ok? && DecodeLength(ReplyAt(replies, k + 1)).value != 0 ==>
      e.frames == [Query("31"), Query("32"), Query("32")]
      && e.result == Err(if DecodeLength(ReplyAt(replies, k + 2)).Err? then DecodeLength(ReplyAt(replies, k + 2)).error
                         else ClearBufferFailed)
  {
    var length := DecodeLength(ReplyAt(replies, k + 1));
    if length.Err? then Exchange([Query("31"), Query("32")], Err(length.error))
    else if length.value == 0 then Exchange([Query("31"), Query("32")], Ok(ReplyAt(replies, k)))
    else
      var again := DecodeLength(ReplyAt(replies, k + 2));
      Exchange([Query("31"), Query("32"), Query("32")], Err(if again.Err? then again.error else ClearBufferFailed))
  }

  /** The `buffer_add` frame of each pose, or the error formatting it raises. */
  function AddFrames(scaleLinear: real, poses: seq<Value>): (fs: seq<Result<string, Exception>>)
    ensures |fs| == |poses|
  {
    seq(|poses|, i requires 0 <= i < |poses| => PoseFrame("30", scaleLinear, poses[i]))
  }

  /**
   * Sending prepared frames in order, stopping at the first that could not be prepared;
   * the replies to these frames are read and dropped.
   */
  function SendAll(fs: seq<Result<string, Exception>>): (e: Exchange<()>)
  {
    if fs == [] then Exchange([], Ok(()))
    else
      var e := SendAll(fs[..|fs| - 1]);
      if e.result.Err? then e
      else match fs[|fs| - 1]
        case Err(x) => Exchange(e.frames, Err(x))
        case Ok(f) => Exchange(e.frames + [f], Ok(()))
  }

  /**
   * What `SendAll` sends: the prepared frames in order up to the first that failed, whose error
   * is the result; all of them when none failed.
   */
  lemma {:induction false} SendAllSends(fs: seq<Result<string, Exception>>)
    ensures var e := SendAll(fs);
      && |e.frames| <= |fs|
      && (forall i :: 0 <= i < |e.frames| ==> fs[i] == Ok(e.frames[i]))
      && (e.result.Ok? <==> |e.frames| == |fs|)
      && (e.result.Err? ==> fs[|e.frames|] == Err(e.result.error))
    decreases |fs|
  {
    if fs != [] {
      var init := fs[..|fs| - 1];
      SendAllSends(init);
      forall i | 0 <= i < |init| ensures init[i] == fs[i] { }
    }
  }

  /**
   * `buffer_set`: clear, add every pose, then check the reported length.
   */
  function BufferSetExchange(replies: seq<string>, k: nat, scaleLinear: real, poses: seq<Value>): Exchange<bool> {
    var clear := ClearExchange(replies, k);
    if clear.result.Err? then Exchange(clear.frames, Err(clear.result.error))
    else
      // a successful clear sent two frames
      var fill := FillExchange(replies, k + 2, scaleLinear, poses);
      Exchange(clear.frames + fill.frames, fill.result)
  }

  /** The part of `buffer_set` after its clear: one add per pose, then the length check. */
  function FillExchange(replies: seq<string>, k: nat, scaleLinear: real, poses: seq<Value>): Exchange<bool> {
    var adds := SendAll(AddFrames(scaleLinear, poses));
    if adds.result.Err? then Exchange(adds.frames, Err(adds.result.error))
    else
      // the adds sent one frame per pose
      var check := CheckExchange(replies, k + |poses|, |poses|);
      Exchange(adds.frames + check.frames, check.result)
  }

  /** Once every pose has been added, the rest of `buffer_set` is its length check. */
  lemma FillComposes(replies: seq<string>, at: nat, scaleLinear: real, poses: seq<Value>,
                     adds: Exchange<()>, check: Exchange<bool>)
    requires adds == SendAll(AddFrames(scaleLinear, poses)) && adds.result.Ok?
    requires check == CheckExchange(replies, at + |poses|, |poses|)
    ensures FillExchange(replies, at, scaleLinear, poses) == Exchange(adds.frames + check.frames, check.result)
  {
  }

  /** Once the clear has succeeded, the rest of `buffer_set` is its fill. */
  lemma BufferSetComposes(replies: seq<string>, k: nat, scaleLinear: real, poses: seq<Value>,
                          clear: Exchange<string>, fill: Exchange<bool>)
    requires clear == ClearExchange(replies, k) && clear.result.Ok?
    requires fill == FillExchange(replies, k + 2, scaleLinear, poses)
    ensures BufferSetExchange(replies, k, scaleLinear, poses) == Exchange(clear.frames + fill.frames, fill.result)
  {
  }

  /** `buffer_set` begins with its clear, and a failed clear is its result. */
  lemma BufferSetStartsWithClear(replies: seq<string>, k: nat, scaleLinear: real, poses: seq<Value>)
    ensures var clear := ClearExchange(replies, k); var e := BufferSetExchange(replies, k, scaleLinear, poses);
      && e.frames[..|clear.frames|] == clear.frames && clear.frames != []
      && (clear.result.Err? ==> e == Exchange(clear.frames, Err(clear.result.error)))
  {
  }

  /**
   * The end of `buffer_set`: a length query; true when the length is the expected one,
   * otherwise a corrective clear and false.
   */
  function CheckExchange(replies: seq<string>, k: nat, expected: nat): (e: Exchange<bool>)
    ensures e.result == Ok(true) <==> DecodeLength(ReplyAt(replies, k)) == Ok(expected)
    ensures e.result == Ok(true) ==> e.frames == [Query("32")]
    ensures e.result == Ok(false) ==> e.frames == [Query("32"), Query("31"), Query("32")]
  {
    var length := DecodeLength(ReplyAt(replies, k));
    if length.Err? then Exchange([Query("32")], Err(length.error))
    else if length.value == expected then Exchange([Query("32")], Ok(true))
    else
      var again := ClearExchange(replies, k + 1);
      Exchange([Query("32")] + again.frames, if again.result.Err? then Err(again.result.error) else Ok(false))
  }

  /**
   * The other outcomes of the length check: an unreadable length raises after the one query;
   * a length other than the expected one is answered by a clear, and the check returns false
   * exactly when that clear succeeds and raises the clear's error otherwise.
   */
  lemma CheckExchangeOtherwise(replies: seq<string>, k: nat, expected: nat)
    ensures var length := DecodeLength(ReplyAt(replies, k)); var e := CheckExchange(replies, k, expected);
      length.Err? ==> e == Exchange([Query("32")], Err(length.error))
    ensures var length := DecodeLength(ReplyAt(replies, k)); var e := CheckExchange(replies, k, expected);
      var again := ClearExchange(replies, k + 1);
      length.Ok? && length.value != expected ==>
        && e.frames == [Query("32")] + again.frames
        && (e.result == Ok(false) <==> again.result.Ok?)
        && (e.result.Err? ==> e.result.error == again.result.error)
  {
  }

  // ---------------------------------------------------------------------------------------
  // move_circular

  /** A Python value the comparison in `move_circular` can see: text, or the bytes a socket returns. */
  datatype PyObject = PyStr(text: string) | PyBytes(data: string)

  /** Python 3 equality: a `str` never equals a `bytes`, whatever the characters. */
  function PyEquals(a: PyObject, b: PyObject): (r: bool)
    ensures a.PyStr? != b.PyStr? ==> !r
    ensures a.PyStr? && b.PyStr? ==> (r <==> a.text == b.text)
    ensures a.PyBytes? && b.PyBytes? ==> (r <==> a.data == b.data)
  {
    a == b
  }

  /** How token 1 of the first reply is compared with "1". */
  datatype Comparison =
    | AsWritten  // the received bytes token against the text "1"
    | Intended   // the token's characters against "1"

  /** Whether the first reply accepts the arc; a reply with fewer than two tokens raises. */
  function PhaseOneAccepted(tokens: seq<string>, how: Comparison): (r: Result<bool, Exception>)
    ensures |tokens| < 2 <==> r == Err(IndexError)
    ensures r.Ok? && how == Intended ==> (r.value <==> tokens[1] == "1")
    ensures r.Ok? && how == AsWritten ==> !r.value
  {
    if |tokens| < 2 then Err(IndexError)
    else match how
      case AsWritten => Ok(PyEquals(PyBytes(tokens[1]), PyStr("1")))
      case Intended => Ok(tokens[1] == "1")
  }

  /**
   * `move_circular`: both poses are formatted before anything is sent; the "36" frame follows the
   * "35" frame only when the reply accepts it. `None` stands for the `False` the client returns.
   */
  function MoveCircularExchange(replies: seq<string>, k: nat, scaleLinear: real, onArc: Value, end: Value, how: Comparison)
    : Exchange<Option<string>>
  {
    var first, second := PoseText(scaleLinear, onArc), PoseText(scaleLinear, end);
    if first.Err? then Exchange([], Err(first.error))
    else if second.Err? then Exchange([], Err(second.error))
    else ArcExchange(replies, k, "35 " + first.value, "36 " + second.value, how)
  }

  /** The socket half of `move_circular`, once both frames are formatted. */
  function ArcExchange(replies: seq<string>, k: nat, first: string, second: string, how: Comparison)
    : Exchange<Option<string>>
  {
    match PhaseOneAccepted(Split(ReplyAt(replies, k), Ascii), how)
    case Err(e) => Exchange([first], Err(e))
    case Ok(false) => Exchange([first], Ok(None))
    case Ok(true) => Exchange([first, second], Ok(Some(ReplyAt(replies, k + 1))))
  }

  // ---------------------------------------------------------------------------------------
  // Properties

  /** A clear that succeeds leaves the remote buffer reported empty, and sends exactly "31" then "32". */
  lemma ClearBufferSucceeds(replies: seq<string>, k: nat)
    requires ClearExchange(replies, k).result.Ok?
    ensures ClearExchange(replies, k).frames == ["31 #", "32 #"]
    ensures DecodeLength(ReplyAt(replies, k + 1)) == Ok(0)
  {
  }

  /**
   * `buffer_set` sends, in this order: one clear, one "30" frame per pose in list order, one
   * length query, and a second clear exactly when it returns false.
   */
  lemma BufferSetOrder(replies: seq<string>, k: nat, scaleLinear: real, poses: seq<Value>)
    requires BufferSetExchange(replies, k, scaleLinear, poses).result.Ok?
    ensures BufferSetExchange(replies, k, scaleLinear, poses).frames
      == [Query("31"), Query("32")] + SendAll(AddFrames(scaleLinear, poses)).frames + [Query("32")]
         + (if BufferSetExchange(replies, k, scaleLinear, poses).result.value then [] else [Query("31"), Query("32")])
  {
    BufferSetShape(replies, k, scaleLinear, poses);
    var front := [Query("31"), Query("32")] + SendAll(AddFrames(scaleLinear, poses)).frames;
    CheckFrames(front, CheckExchange(replies, k + 2 + |poses|, |poses|));
  }

  /** `buffer_set` returns true exactly when the remote buffer then holds one entry per pose. */
  lemma BufferSetVerdict(replies: seq<string>, k: nat, scaleLinear: real, poses: seq<Value>)
    requires BufferSetExchange(replies, k, scaleLinear, poses).result.Ok?
    ensures BufferSetExchange(replies, k, scaleLinear, poses).result.value
      <==> DecodeLength(ReplyAt(replies, k + 2 + |poses|)) == Ok(|poses|)
  {
    BufferSetShape(replies, k, scaleLinear, poses);
  }

  /** A successful `buffer_set` has added every pose, after a clear that succeeded. */
  lemma BufferSetShape(replies: seq<string>, k: nat, scaleLinear: real, poses: seq<Value>)
    requires BufferSetExchange(replies, k, scaleLinear, poses).result.Ok?
    ensures ClearExchange(replies, k).result.Ok? && SendAll(AddFrames(scaleLinear, poses)).result.Ok?
    ensures |SendAll(AddFrames(scaleLinear, poses)).frames| == |poses|
    ensures BufferSetExchange(replies, k, scaleLinear, poses)
      == var check := CheckExchange(replies, k + 2 + |poses|, |poses|);
         Exchange([Query("31"), Query("32")] + SendAll(AddFrames(scaleLinear, poses)).frames + check.frames, check.result)
  {
    SendAllSends(AddFrames(scaleLinear, poses));
  }

  /** The frames of a length check that returned, written out by its verdict. */
  lemma CheckFrames(front: seq<string>, check: Exchange<bool>)
    requires check.result.Ok?
    requires check.result == Ok(true) ==> check.frames == [Query("32")]
    requires check.result == Ok(false) ==> check.frames == [Query("32"), Query("31"), Query("32")]
    ensures front + check.frames
      == front + [Query("32")] + (if check.result.value then [] else [Query("31"), Query("32")])
  {
    if check.result.value {
      assert front + check.frames == front + [Query("32")] + [];
    } else {
      assert front + check.frames == front + [Query("32")] + [Query("31"), Query("32")];
    }
  }

  /** Once a frame could not be prepared, the later frames change nothing. */
  lemma {:induction false} SendAllSticks(fs: seq<Result<string, Exception>>, j: nat)
    requires j <= |fs| && SendAll(fs[..j]).result.Err?
    ensures SendAll(fs) == SendAll(fs[..j])
    decreases |fs| - j
  {
    if j < |fs| {
      assert fs[..j + 1][..j] == fs[..j];
      SendAllSticks(fs, j + 1);
    } else {
      assert fs[..j] == fs;
    }
  }

  /** Sending one more prepared frame: it goes out when it was prepared and nothing failed before. */
  lemma SendAllStep(fs: seq<Result<string, Exception>>, i: nat)
    requires i < |fs|
    ensures var e := SendAll(fs[..i]);
      SendAll(fs[..i + 1])
      == if e.result.Err? then e
         else if fs[i].Err? then Exchange(e.frames, Err(fs[i].error))
         else Exchange(e.frames + [fs[i].value], Ok(()))
  {
    assert fs[..i + 1][..i] == fs[..i];
  }

  /** The `buffer_add` frames of the first `j` poses, each of which can be formatted. */
  function AddedFrames(scaleLinear: real, poses: seq<Value>, j: nat): (fs: seq<string>)
    requires j <= |poses| && forall i :: 0 <= i < j ==> PoseFrame("30", scaleLinear, poses[i]).Ok?
    ensures |fs| == j
  {
    seq(j, i requires 0 <= i < j => PoseFrame("30", scaleLinear, poses[i]).value)
  }

  /**
   * The adds of `buffer_set` when pose `j` is the first that cannot be formatted, or when
   * `j` is the number of poses and all can: the frames of the poses before `j`, in order.
   */
  lemma AddsUpTo(scaleLinear: real, poses: seq<Value>, j: nat)
    requires j <= |poses| && forall i :: 0 <= i < j ==> PoseFrame("30", scaleLinear, poses[i]).Ok?
    requires j < |poses| ==> PoseFrame("30", scaleLinear, poses[j]).Err?
    ensures SendAll(AddFrames(scaleLinear, poses)).frames == AddedFrames(scaleLinear, poses, j)
    ensures j == |poses| <==> SendAll(AddFrames(scaleLinear, poses)).result.Ok?
    ensures j < |poses| ==> SendAll(AddFrames(scaleLinear, poses)).result == Err(PoseFrame("30", scaleLinear, poses[j]).error)
  {
    var fs := AddFrames(scaleLinear, poses);
    var adds := SendAll(fs);
    SendAllSends(fs);
    if j < |poses| {
      assert fs[j].Err?;
    }
    assert |adds.frames| == j;
    forall i | 0 <= i < j ensures adds.frames[i] == AddedFrames(scaleLinear, poses, j)[i] {
      assert fs[i] == Ok(adds.frames[i]);
    }
  }

  /** A pose that cannot be formatted stops `buffer_set` after the clear and the adds of the earlier poses. */
  lemma BufferSetStopsAtMalformedPose(replies: seq<string>, k: nat, scaleLinear: real, poses: seq<Value>, j: nat)
    requires j < |poses| && PoseFrame("30", scaleLinear, poses[j]).Err?
    requires forall i :: 0 <= i < j ==> PoseFrame("30", scaleLinear, poses[i]).Ok?
    requires ClearExchange(replies, k).result.Ok?
    ensures var e := BufferSetExchange(replies, k, scaleLinear, poses);
      && e.result == Err(PoseFrame("30", scaleLinear, poses[j]).error)
      && e.frames == [Query("31"), Query("32")] + AddedFrames(scaleLinear, poses, j)
  {
    AddsUpTo(scaleLinear, poses, j);
  }

  /**
   * When the clear succeeds and every pose is added, a reported length other than the number
   * of poses is answered by a second clear; `buffer_set` returns false exactly when that clear
   * succeeds, and raises its error otherwise.
   */
  lemma BufferSetMismatch(replies: seq<string>, k: nat, scaleLinear: real, poses: seq<Value>)
    requires ClearExchange(replies, k).result.Ok?
    requires forall i :: 0 <= i < |poses| ==> PoseFrame("30", scaleLinear, poses[i]).Ok?
    requires DecodeLength(ReplyAt(replies, k + 2 + |poses|)).Ok?
    requires DecodeLength(ReplyAt(replies, k + 2 + |poses|)).value != |poses|
    ensures var e := BufferSetExchange(replies, k, scaleLinear, poses);
      var again := ClearExchange(replies, k + 3 + |poses|);
      && e.frames == [Query("31"), Query("32")] + AddedFrames(scaleLinear, poses, |poses|) + [Query("32")] + again.frames
      && (e.result == Ok(false) <==> again.result.Ok?)
      && (e.result.Err? ==> e.result.error == again.result.error)
  {
    var clear := ClearExchange(replies, k);
    var adds := SendAll(AddFrames(scaleLinear, poses));
    var at := k + 2 + |poses|;
    var check := CheckExchange(replies, at, |poses|);
    var fill := FillExchange(replies, k + 2, scaleLinear, poses);
    var again := ClearExchange(replies, at + 1);
    AddsUpTo(scaleLinear, poses, |poses|);
    CheckExchangeOtherwise(replies, at, |poses|);
    FillComposes(replies, k + 2, scaleLinear, poses, adds, check);
    BufferSetComposes(replies, k, scaleLinear, poses, clear, fill);
    MismatchRegrouped(BufferSetExchange(replies, k, scaleLinear, poses), clear.frames, adds.frames, fill, check, again);
    assert at + 1 == k + 3 + |poses|;
  }

  /** The frames of a `buffer_set` whose length check found a mismatch, regrouped. */
  lemma MismatchRegrouped(e: Exchange<bool>, clear: seq<string>, adds: seq<string>, fill: Exchange<bool>,
                          check: Exchange<bool>, again: Exchange<string>)
    requires e == Exchange(clear + fill.frames, fill.result)
    requires fill == Exchange(adds + check.frames, check.result)
    requires check.frames == [Query("32")] + again.frames
    ensures e.frames == clear + adds + [Query("32")] + again.frames && e.result == check.result
  {
  }

  /**
   * When the clear succeeds, every pose is added and the reported length is the number of
   * poses, `buffer_set` returns true after the clear, the adds and one length query.
   */
  lemma BufferSetMatch(replies: seq<string>, k: nat, scaleLinear: real, poses: seq<Value>)
    requires ClearExchange(replies, k).result.Ok?
    requires forall i :: 0 <= i < |poses| ==> PoseFrame("30", scaleLinear, poses[i]).Ok?
    requires DecodeLength(ReplyAt(replies, k + 2 + |poses|)) == Ok(|poses|)
    ensures BufferSetExchange(replies, k, scaleLinear, poses)
      == Exchange([Query("31"), Query("32")] + AddedFrames(scaleLinear, poses, |poses|) + [Query("32")], Ok(true))
  {
    var clear := ClearExchange(replies, k);
    var adds := SendAll(AddFrames(scaleLinear, poses));
    var check := CheckExchange(replies, k + 2 + |poses|, |poses|);
    AddsUpTo(scaleLinear, poses, |poses|);
    FillComposes(replies, k + 2, scaleLinear, poses, adds, check);
    BufferSetComposes(replies, k, scaleLinear, poses, clear, Exchange(adds.frames + check.frames, check.result));
  }

  /** A malformed pose, on the arc or at the end, raises before anything is sent. */
  lemma MoveCircularAllOrNothing(replies: seq<string>, k: nat, scaleLinear: real, onArc: Value, end: Value, how: Comparison)
    requires PoseFrame("35", scaleLinear, onArc).Err? || PoseFrame("36", scaleLinear, end).Err?
    ensures MoveCircularExchange(replies, k, scaleLinear, onArc, end, how).frames == []
    ensures MoveCircularExchange(replies, k, scaleLinear, onArc, end, how).result.Err?
  {
  }

  /**
   * With well-formed poses the "36" frame is sent exactly when token 1 of the first reply
   * is "1"; otherwise exactly one frame goes out, and the result is false or an IndexError.
   */
  lemma MoveCircularHandshake(replies: seq<string>, k: nat, scaleLinear: real, onArc: Value, end: Value)
    requires PoseFrame("35", scaleLinear, onArc).Ok? && PoseFrame("36", scaleLinear, end).Ok?
    ensures var e := MoveCircularExchange(replies, k, scaleLinear, onArc, end, Intended);
      var tokens := Split(ReplyAt(replies, k), Ascii);
      && e.frames[0] == PoseFrame("35", scaleLinear, onArc).value
      && (|e.frames| == 2 <==> |tokens| >= 2 && tokens[1] == "1")
      && (|e.frames| == 2 ==> e.frames[1] == PoseFrame("36", scaleLinear, end).value
                              && e.result == Ok(Some(ReplyAt(replies, k + 1))))
      && (|e.frames| != 2 ==> |e.frames| == 1
                              && e.result == (if |tokens| < 2 then Err(IndexError) else Ok(None)))
  {
  }

  /** As written, the comparison never succeeds, so the second phase is never sent. */
  lemma MoveCircularAsWrittenNeverCompletes(replies: seq<string>, k: nat, scaleLinear: real, onArc: Value, end: Value)
    ensures |MoveCircularExchange(replies, k, scaleLinear, onArc, end, AsWritten).frames| <= 1
    ensures MoveCircularExchange(replies, k, scaleLinear, onArc, end, AsWritten).result.Ok? ==>
      MoveCircularExchange(replies, k, scaleLinear, onArc, end, AsWritten).result.value.None?
  {
  }

  /** A controller that accepts the arc with the reply "0 1": the intended comparison goes on, the written one bails out. */
  lemma MoveCircularAcceptingReply(scaleLinear: real, onArc: Value, end: Value)
    requires PoseFrame("35", scaleLinear, onArc).Ok? && PoseFrame("36", scaleLinear, end).Ok?
    ensures |MoveCircularExchange(["0 1 ", "done"], 0, scaleLinear, onArc, end, Intended).frames| == 2
    ensures MoveCircularExchange(["0 1 ", "done"], 0, scaleLinear, onArc, end, Intended).result == Ok(Some("done"))
    ensures |MoveCircularExchange(["0 1 ", "done"], 0, scaleLinear, onArc, end, AsWritten).frames| == 1
    ensures MoveCircularExchange(["0 1 ", "done"], 0, scaleLinear, onArc, end, AsWritten).result == Ok(None)
  {
    AcceptingReplySplits();
    assert ReplyAt(["0 1 ", "done"], 0) == "0 1 " && ReplyAt(["0 1 ", "done"], 1) == "done";
  }

  /** The reply "0 1 " splits into the tokens "0" and "1". */
  lemma AcceptingReplySplits()
    ensures Split("0 1 ", Ascii) == ["0", "1"]
  {
    assert ["0", "1"] == ["0"] + ["1"] + [];
    assert AllWords(["0", "1"], Ascii);
    SplitJoinSpaced(["0", "1"], Ascii);
    assert ["0", "1"][..1] == ["0"];
    assert JoinSpaced(["0"]) == JoinSpaced([]) + "0" + " ";
    assert JoinSpaced(["0", "1"]) == "0 1 ";
  }
}

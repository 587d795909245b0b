# ABB motion client and mock controller, in Dafny

This project models the two halves of the text protocol between a Python client and an ABB
robot controller. Every command is one ASCII frame: a two-digit opcode, space-separated
signed fixed-width number fields, and the terminator `#`. The first half is the motion
client, `functions/abb.py`: the class `Robot` and `check_coordinates`. The second half is
the mock controller, `controllers/mock/server.py`: `parse_message`, `get_function`, the
function table and the reply that `run` sends for each frame it receives.

Modules, one file each:

- `Wrappers`, `Exceptions` (`wrappers.dfy`): `Option`, `Result`, and the Python exceptions the client raises.
- `Text` (`text.dfy`): how Python's `split()` splits text on whitespace. `bytes.split()` uses ASCII whitespace and `str.split()` uses Unicode whitespace. Also the space-separated, `#`-terminated frame layout.
- `Decimal` (`decimal.dfy`): `format(x, "+08.Nf")`, `float()` of a decimal token, and `int()` truncation.
- `Coordinates` (`coordinates.dfy`): `check_coordinates` and the numbers of a pose.
- `Codec` (`codec.dfy`): the unit and zone tables, the text of every frame the client sends, and the decoding of the controller's replies.
- `Protocol` (`protocol.dfy`): the multi-frame operations (`clear_buffer`, `buffer_set`, `move_circular`) written as transcripts. A transcript lists the frames sent, in order, and the result, given the scripted replies.
- `Motion` (`robot.dfy`): the class `Robot`. Its methods change its fields: the scales, the tool, the log of sent frames, the count of replies read and the closed flag. Each method is proved to produce exactly the transcript of its operation.
- `Mock` (`mock_server.dfy`): the mock controller's parser, its dispatch, and the `run` loop, proved against a recursive definition of the session.
- `Interop` (`interop.dfy`): what the client encodes, the server parses back into the same opcode and fields.

Three more modelling choices:

- **The socket.** It is a log of sent frames, `sent`, plus a fixed script of replies, `replies`. The counter `received` says how many replies were read. Once the script runs out, each read gets `""`, the empty reply of a closed peer.
- **Numbers.** They are Dafny `real`s, which are exact. `format` rounds the exact decimal value, ties to even.
- **Python's `None` and `False`.** Each method returns a `Result`, whose error is the exception Python raises. The value depends on the shape of the Python return:
  - `None` from a command that returns nothing (`set_units`, `set_tool`, `set_workobject`, `buffer_add`, `close`) is `Ok(())`.
  - A reply or `False` from a command behind a length guard (`set_joints`, `set_external_axis`) is `Ok(Some(reply))` or `Ok(None)`. The same holds for `move_circular`'s reply or bail-out.
  - `set_speed` and `set_zone` send and return `None`, or return `False` from their guard. They give `Ok(true)` and `Ok(false)` (see "## Left out").

Behaviour of the code that a reader might not expect, modelled as the code has it:

- `get_cartesian` returns the position as read, without dividing by the linear scale.
- The mock server's `run` is a `while True` loop with no `try` around parsing or the handler call (controllers/mock/server.py:33-55). It therefore ends at the first exception: a blank frame, or a handler called with the wrong number of arguments.

One place where the model does not follow the code: `move_circular` compares a `bytes` token with a `str` (functions/abb.py:304), which never succeeds in Python 3. `Motion.Robot.MoveCircular` uses the intended comparison instead. The code as written is modelled in `Protocol` and recorded under "## Findings".

## Model

| member | source | states |
|---|---|---|
| Coordinates.CheckCoordinates | functions/abb.py:356-366 | A nested 3+4 pose comes back unchanged. A flat list of seven becomes `[c[0:3], c[3:7]]`. The call succeeds exactly for these two shapes, and the result is always nested. Any other shape raises: TypeError where `len()` meets a number, otherwise the "Malformed coordinate" error. |
| Coordinates.CheckCoordinatesIdempotent | functions/abb.py:356-366 | Normalising an already normalised pose returns it unchanged. |
| Coordinates.ShapesAgree | functions/abb.py:356-366 | The flat and the nested spelling of the same seven values normalise to the same nested pose. |
| Coordinates.PoseNumbers | functions/abb.py:334-339 | A shape error of `check_coordinates` is passed on. A success is three position numbers and four quaternion numbers, which are exactly the entries of the normalised pose. |
| Coordinates.PoseNumbersSucceeds | functions/abb.py:334-339 | A well-shaped pose yields its numbers exactly when every entry of its position and orientation is a number. Otherwise formatting raises TypeError. |
| Codec.UnitScalesPositive | functions/abb.py:74-75 | Every linear and angular scale in the unit tables is positive. |
| Codec.FormatAll | functions/abb.py:95-96 | One field per value: the list of fields is as long as the list of values. |
| Codec.FormatAllEach | functions/abb.py:95-96 | Field i is value i formatted with the given number of decimals, for every i. |
| Codec.PoseFields | functions/abb.py:333-341 | The seven fields of `format_pose`, or the error the pose raises. |
| Codec.PoseText | functions/abb.py:333-341 | The text `format_pose` returns: the fields, each followed by a space, then `#`. |
| Codec.JointsFrame | functions/abb.py:94-98 | The `02` frame: each angle times the angular scale, with 2 decimals. |
| Codec.SpeedFrame | functions/abb.py:177-181 | The `08` frame: four speeds with 1, 2, 1 and 2 decimals. |
| Codec.ZoneFrame | functions/abb.py:231-235 | The `09` frame: the point-motion flag as 0 or 1, then three zone values with 4 decimals. |
| Codec.ExternalAxisFrame | functions/abb.py:289-292 | The `34` frame: six values, unscaled, with 2 decimals. |
| Codec.DioFrame | functions/abb.py:315 | The `97` frame: 1 for a non-zero value, else 0. |
| Codec.DecodeCartesian | functions/abb.py:104-107 | `get_cartesian`'s reading of its reply: every token as a float, then the slices 2-5 and 5-9. |
| Codec.DecodeJoints | functions/abb.py:114-115 | `get_joints`'s reading of its reply: tokens 2-7 as floats, divided by the angular scale. |
| Codec.DecodeExternalAxis | functions/abb.py:123-124 | `get_external_axis`'s reading of its reply: tokens 2-7 as floats. |
| Codec.DecodeLength | functions/abb.py:274-275 | `buffer_len`'s reading of its reply: `int(float(tokens[2]))`. |
| Codec.LengthAt | functions/abb.py:275 | `int(float(tokens[i]))`, with IndexError past the end and ValueError for a non-number. |
| Codec.ResolveZone | functions/abb.py:209-229 | Strict precedence: `point_motion` gives `[0,0,0]`, then a manual zone of exactly three values, then the preset of the key. No zone exactly when none of the three applies. The zone always has three values. |
| Codec.PoseFieldLayout | functions/abb.py:333-341 | Fields 0-2 are the position times the linear scale, formatted with 1 decimal. Fields 3-6 are the quaternion, unscaled, with 5 decimals. |
| Codec.PoseFrame | functions/abb.py:84 | A pose frame exists exactly when the pose can be formatted, and otherwise carries the same error. It is the opcode, the seven fields and `#`, which equals the opcode and a space in front of the `format_pose` text. |
| Codec.PoseFrameText | functions/abb.py:147 | Every pose command's frame is its opcode and a space in front of `format_pose`'s result, or that result's error. |
| Codec.FormatAllWords | functions/abb.py:337-339 | Every formatted field is a non-empty run of non-whitespace characters, for both kinds of splitting. |
| Codec.FourFields | functions/abb.py:177-181 | The `msg +=` concatenation of set_speed's fields is exactly the five-token frame. |
| Codec.Slice | functions/abb.py:107 | Python's `s[i:j]` clips its bounds to the length and keeps the elements in order. |
| Codec.ParseAll | functions/abb.py:106 | `float()` of every token succeeds exactly when each token is a number, and gives those numbers in order. |
| Codec.LengthAtIndex | functions/abb.py:274-275 | `int(float(data[2]))`: IndexError exactly when the reply has fewer tokens than needed. ValueError when the token is not a number. Otherwise the number truncated toward zero. |
| Codec.ParseAllFormatted | functions/abb.py:96 | Every formatted field reads back as a number within half a unit of its last decimal place. |
| Codec.SplitReply | functions/abb.py:114 | A reply made of words splits back into those words, and the slice at the fields' position is the fields. |
| Codec.JointsRoundTrip | functions/abb.py:113-115 | Take six angles formatted the way `set_joints` formats them, placed as tokens 2-7 of a reply. `get_joints` reads them back as exactly six values, each within 0.005 / scale of the original angle. |
| Codec.ExternalAxisRoundTrip | functions/abb.py:122-124 | Six external-axis values in tokens 2-7 read back within 0.005 of the values sent. They are never scaled. |
| Codec.CartesianReadBack | functions/abb.py:104-107 | `get_cartesian` returns tokens 2-4 and 5-8 as read, without dividing by the linear scale. |
| Codec.CartesianBadToken | functions/abb.py:106 | Any token that is not a number makes `get_cartesian` raise ValueError. |
| Codec.LengthRoundTrip | functions/abb.py:273-275 | A reply whose third token is any number x, in any spelling `float()` reads, gives `buffer_len` = x truncated toward zero. A whole number n gives n. |
| Codec.TruncateWhole | functions/abb.py:275 | `int()` of a whole number gives it back. |
| Codec.FormattedLengthRoundTrip | functions/abb.py:273-275 | A length token spelled as the client formats numbers, `+000000n`, reads back as n. |
| Codec.ShortLengthReply | functions/abb.py:275 | A reply with fewer than three tokens makes `buffer_len` raise IndexError. |
| Codec.DefaultSpeedFrame | functions/abb.py:169 | The default speed `[100, 50, 50, 50]` goes out as `08 +00100.0 +0050.00 +00050.0 +0050.00 #`. |
| Codec.DefaultZoneFrame | functions/abb.py:188-235 | The default zone "z1" is `[1, 1, 0.1]` and goes out as `09 0 +01.0000 +01.0000 +00.1000 #`. |
| Codec.PointMotionZoneFrame | functions/abb.py:222-223 | With point motion, whatever the key or manual zone, the frame is `09 1` and three zero fields. |
| Codec.ZeroAngle | functions/abb.py:291 | Zero formats with 2 decimals as `+0000.00`. |
| Codec.MinusFiveFiftyAngle | functions/abb.py:291 | -550 formats with 2 decimals as `-0550.00`. |
| Codec.DefaultExternalAxisFrame | functions/abb.py:285-292 | The default external axis position `[-550, 0, 0, 0, 0, 0]` goes out as `34 -0550.00` followed by five `+0000.00` fields. |
| Codec.IdentityPoseFields | functions/abb.py:138 | The default pose `[[0,0,0],[1,0,0,0]]` gives the fields `+00000.0` ×3, `+1.00000`, `+0.00000` ×3, at any linear scale. |
| Codec.OriginFormats | functions/abb.py:337 | The origin formats as three `+00000.0` fields. |
| Codec.IdentityQuaternionFormats | functions/abb.py:339 | The identity quaternion formats as `+1.00000` followed by three `+0.00000`. |
| Codec.FieldsOfNumbers | functions/abb.py:333-341 | The seven fields are the scaled position, formatted, followed by the formatted quaternion. |
| Codec.IdentityPoseNumbers | functions/abb.py:138 | The default pose passes `check_coordinates` with position `[0,0,0]` and quaternion `[1,0,0,0]`. |
| Codec.DioFrames | functions/abb.py:315 | The DIO frame is `97 1 #` for a non-zero value and `97 0 #` otherwise. The line id never appears. |
| Codec.Query | functions/abb.py:113 | A bare query is the opcode followed by ` #`, such as `31 #` and `32 #`. |
| Decimal.FormatFixed | functions/abb.py:337 | A field has an explicit sign and digits. With decimals, the point sits exactly that many places from the end. The field is at least 8 characters wide. |
| Decimal.Format | functions/abb.py:337 | `format(x, "+08.Nf")`: the sign of x and its magnitude rounded to N places, as a fixed-point field. |
| Decimal.Magnitude | functions/abb.py:337 | abs(x) times 10^N, rounded half to even: the digits `format` prints. |
| Decimal.ParseFloat | functions/abb.py:106 | `float(token)` for tokens `[+-]digits[.digits?]` or `[+-].digits`: an optional sign, then digits with the point and fraction optional, or a point followed by digits. Every other token gives None, including some that `float()` accepts (see "## Left out"). |
| Decimal.PointForms | functions/abb.py:106 | As in `float()`, either side of the point may be empty: `1.` reads as 1, `.5` and `+.5` as one half, `-.5` as minus one half. A lone point, a signed lone point and the empty token are not numbers. |
| Decimal.FormatFixedWidth | functions/abb.py:96 | A value whose integral part fits the zero padding gives a field of exactly 8 characters. |
| Decimal.RoundHalfEven | functions/abb.py:178 | Rounds to within one half, ties to the even neighbour, never below zero for a non-negative value. |
| Decimal.Truncate | functions/abb.py:275 | `int()` of a float truncates toward zero: the magnitude drops by less than one and the sign is kept. |
| Decimal.ParseFormatFixed | functions/abb.py:275 | `float()` of a formatted field gives back exactly the signed fixed-point value it was made from. |
| Decimal.ParseFormat | functions/abb.py:115 | `float(format(x))` is the signed, rounded magnitude of x. |
| Decimal.FormatAccuracy | functions/abb.py:96 | `float(format(x, "+08.Nf"))` is within half a unit of the N-th decimal place of x. |
| Decimal.MagnitudeRounds | functions/abb.py:337 | The rounded magnitude is within half a unit of the last place of abs(x). |
| Decimal.FormatFixedIsWord | functions/abb.py:337 | A formatted field holds no whitespace. |
| Decimal.TolerancePlaces | functions/abb.py:96 | Half a unit of 1, 2, 4 and 5 decimal places is 0.05, 0.005, 0.00005 and 0.000005. |
| Text.SplitWords | functions/abb.py:274 | `split()` yields whitespace-free words only. It yields none exactly when the text is all whitespace. |
| Text.Split | functions/abb.py:274 | `split()` with no argument, defined by recursion over the text with no contract of its own. What it yields is stated by Text.SplitWords (whitespace-free words only, none exactly for all-whitespace text) and Text.SplitJoinSpaced (a frame body splits back into its words, in order). |
| Text.JoinSpaced | functions/abb.py:336-340 | Each token followed by one space, the way the frame builders append fields. |
| Text.Frame | functions/abb.py:336-341 | A frame ends in `#` and, before it, holds every token followed by one space. |
| Text.SplitJoinSpaced | controllers/mock/server.py:66 | Splitting a frame body gives back exactly the words it was built from. |
| Text.JoinSpacedAppend | functions/abb.py:336-340 | Joining two token lists one after the other is the same as joining their concatenation. |
| Protocol.ReplyAt | functions/abb.py:329-331 | A read gets the next scripted reply, or `""` once the script is used up. |
| Protocol.LengthExchange | functions/abb.py:269-275 | `buffer_len`: one `32 #` query, and the length its reply reports. |
| Protocol.SendAll | functions/abb.py:251-252 | The `for` loop of `buffer_set`: prepared frames sent in order, stopping at the first that raised. |
| Protocol.BufferSetExchange | functions/abb.py:246-259 | `buffer_set`: the clear, then the fill, unless the clear raised. |
| Protocol.FillExchange | functions/abb.py:251-259 | The adds, then the length check, unless an add raised. |
| Protocol.MoveCircularExchange | functions/abb.py:295-307 | `move_circular`: both frames are built first; then the arc handshake. |
| Protocol.ArcExchange | functions/abb.py:303-307 | The `35` frame, then the `36` frame only when the comparison accepts token 1 of the first reply. |
| Protocol.OnSocket | functions/abb.py:325 | After `close`, the first send of an operation raises and nothing is sent. An operation that sends nothing is unaffected. |
| Protocol.RequestExchange | functions/abb.py:243-244 | A frame that cannot be built raises before any send. Otherwise exactly that frame is sent and its reply is the result. |
| Protocol.GuardedExchange | functions/abb.py:92-93 | A failed local guard sends nothing and returns `False`. Otherwise exactly one frame is sent and its reply returned. |
| Protocol.ClearExchange | functions/abb.py:261-267 | `clear_buffer` succeeds exactly when the length reply says 0. It then sends `31 #`, `32 #` and returns the first reply. If the length is unreadable, it raises that error after two frames. A non-zero length queries again for the warning, then raises the clear-buffer failure (or the error of that second read). |
| Protocol.CheckExchange | functions/abb.py:252-259 | True exactly when the reported length equals the expected count, after the single frame `32 #`. False after `32 #`, `31 #`, `32 #`. |
| Protocol.CheckExchangeOtherwise | functions/abb.py:252-259 | An unreadable length raises after the single query. A length other than the expected count is followed by a clear. The result is False exactly when that clear succeeds, and the clear's error otherwise. |
| Protocol.SendAllSends | functions/abb.py:251-252 | The adds go out in list order up to the first pose that cannot be formatted; that pose's error is the result. All of them go out, one frame each, when none fails. |
| Protocol.SendAllSticks | functions/abb.py:251-252 | After the first failing pose, the later poses change nothing. |
| Protocol.SendAllStep | functions/abb.py:251-252 | One more pose either adds its frame, or stops with its error, or changes nothing after an earlier failure. |
| Protocol.BufferSetStartsWithClear | functions/abb.py:250 | `buffer_set` starts with the frames of its clear. A failed clear is its whole result. |
| Protocol.ClearBufferSucceeds | functions/abb.py:261-267 | A successful clear sends exactly `31 #` then `32 #`, and the buffer was reported empty. |
| Protocol.BufferSetOrder | functions/abb.py:246-259 | A `buffer_set` that returns sends, in order: the clear, one `30` frame per pose in list order, `32 #`, and a second clear exactly when it returns False. |
| Protocol.BufferSetVerdict | functions/abb.py:252-253 | `buffer_set` returns True exactly when the reported length equals the number of poses. |
| Protocol.BufferSetMatch | functions/abb.py:246-253 | After a successful clear, with every pose formattable and a reported length equal to the number of poses: exactly `31 #`, `32 #`, one `30` frame per pose in order, `32 #`, and True. |
| Protocol.BufferSetMismatch | functions/abb.py:246-259 | After a successful clear, with every pose formattable and a reported length other than the number of poses: the clear, the adds in order and `32 #`, then the frames of a second clear. The result is False exactly when that clear succeeds, and its error otherwise. |
| Protocol.BufferSetComposes | functions/abb.py:246-259 | Once the clear succeeds, the rest of `buffer_set` is its fill. |
| Protocol.FillComposes | functions/abb.py:251-259 | Once every pose is added, the rest of the fill is its length check. |
| Protocol.BufferSetShape | functions/abb.py:246-259 | A `buffer_set` that returns had a successful clear and sent one add per pose, then the length check. |
| Protocol.BufferSetStopsAtMalformedPose | functions/abb.py:238-252 | The first pose that cannot be formatted ends `buffer_set` with its error. The frames sent are exactly `31 #`, `32 #` and the `30` frames of the earlier poses, in order. |
| Protocol.AddsUpTo | functions/abb.py:251-252 | When pose j is the first that cannot be formatted, or every pose can, the adds are exactly the frames of the poses before j, in order. They fail with the error of pose j if there is one. |
| Protocol.PyEquals | functions/abb.py:304 | Python 3 equality: a `bytes` object never equals a `str`. |
| Protocol.PhaseOneAccepted | functions/abb.py:303-304 | A reply with fewer than two tokens raises IndexError. Otherwise the arc is accepted exactly when token 1 is "1", with the intended comparison. The comparison as written never accepts. |
| Protocol.MoveCircularAllOrNothing | functions/abb.py:300-301 | A malformed on-arc or end pose raises with nothing on the wire. |
| Protocol.MoveCircularHandshake | functions/abb.py:300-307 | When both poses are well formed: the `35` frame goes first. The `36` frame follows exactly when token 1 of the first reply is "1", and its reply is the result. Otherwise exactly one frame was sent and the result is False, or IndexError for a short reply. |
| Protocol.MoveCircularAsWrittenNeverCompletes | functions/abb.py:303-306 | As written, `move_circular` never sends its second frame and never returns a reply. |
| Protocol.MoveCircularAcceptingReply | functions/abb.py:303-307 | For the accepting reply `0 1`, the intended comparison sends both frames and returns the second reply. The comparison as written bails after one frame with False. |
| Protocol.AcceptingReplySplits | functions/abb.py:303 | The reply `0 1 ` splits into the two tokens "0" and "1". |
| Motion.IdentityPoseFrame | functions/abb.py:147 | The default pose goes out as the same seven fields after any opcode. |
| Motion.AppendScaled | functions/abb.py:95-96 | The formatting loop appends each value times the scale, formatted and followed by a space, in order. |
| Motion.AppendFormatted | functions/abb.py:290-291 | The formatting loop appends each value, unscaled, formatted and followed by a space, in order. |
| Motion.Robot.constructor | functions/abb.py:25-43 | Millimetres and degrees are set, with the identity tool. The wire holds exactly the `06` and `07` identity frames, the default `08` speed frame and the `09 0` "z1" zone frame. |
| Motion.Robot.SendIdentityPoses | functions/abb.py:40-41 | `set_tool()` and `set_workobject()` with their defaults send the two identity frames and remember the identity tool. |
| Motion.Robot.SendDefaultMotion | functions/abb.py:42-43 | `set_speed()` and `set_zone()` with their defaults send exactly the default speed and zone frames. |
| Motion.Robot.Send | functions/abb.py:318-331 | On an open socket, the frame is appended to the wire. When waiting, the next scripted reply is read and returned. On a closed socket it raises and nothing changes. |
| Motion.Robot.Request | functions/abb.py:318-331 | A waiting send: one frame, and its reply. |
| Motion.Robot.SetUnits | functions/abb.py:69-77 | Both names known: both scales set from the tables. An unknown linear name raises KeyError with nothing changed. An unknown angular name raises KeyError after the linear scale is set. The scales stay positive. |
| Motion.Robot.FormatPose | functions/abb.py:333-341 | Returns the `format_pose` text: the seven fields, each followed by a space, then `#`. A malformed pose gives its error. |
| Motion.Robot.SetCartesian | functions/abb.py:79-85 | Exactly one `01` pose frame is sent and its reply returned. A malformed pose sends nothing. |
| Motion.Robot.SetJoints | functions/abb.py:87-98 | Six angles: one `02` frame of the angles times the angular scale, with 2 decimals, and its reply. Any other count sends nothing and returns False. |
| Motion.Robot.GetCartesian | functions/abb.py:100-107 | One `03 #` query; the decoded reply. |
| Motion.Robot.GetJoints | functions/abb.py:109-115 | One `04 #` query; tokens 2-7 of the reply divided by the angular scale. |
| Motion.Robot.GetExternalAxis | functions/abb.py:117-124 | One `05 #` query; tokens 2-7, unscaled. |
| Motion.Robot.SetTool | functions/abb.py:138-149 | One `06` pose frame. The tool is remembered, as given, exactly when the send succeeds. |
| Motion.Robot.GetTool | functions/abb.py:157-159 | Returns the remembered tool and sends nothing. |
| Motion.Robot.SetWorkObject | functions/abb.py:161-167 | One `07` pose frame. |
| Motion.Robot.SetSpeed | functions/abb.py:169-182 | Four speeds: one `08` frame alternating 1 and 2 decimals. Any other count sends nothing and returns False. |
| Motion.Robot.SetZone | functions/abb.py:184-236 | The resolved zone in one `09` frame with the point-motion flag. No zone: nothing sent, False. |
| Motion.Robot.BufferAdd | functions/abb.py:238-244 | One `30` pose frame. |
| Motion.Robot.BufferLen | functions/abb.py:269-275 | One `32 #` query; the length its reply reports, or that decoding's error. |
| Motion.Robot.ClearBuffer | functions/abb.py:261-267 | Sends exactly the frames of the clear transcript and returns its result. |
| Motion.Robot.BufferSet | functions/abb.py:246-259 | Sends exactly the frames of the `buffer_set` transcript and returns its result. |
| Motion.Robot.Fill | functions/abb.py:251-259 | After the clear: the adds, then the length check, as in the transcript. |
| Motion.Robot.CheckLength | functions/abb.py:252-259 | The length check: True after one query when the count matches; otherwise a corrective clear and False. |
| Motion.Robot.AddAll | functions/abb.py:251-252 | The `for` loop: one `30` frame per pose, in order, stopping at the first pose that cannot be formatted. |
| Motion.Robot.BufferExecute | functions/abb.py:277-282 | One `33 #` frame; its reply. |
| Motion.Robot.SetExternalAxis | functions/abb.py:284-293 | Six values: one `34` frame, unscaled, with 2 decimals, and its reply. Any other count sends nothing and returns False. |
| Motion.Robot.MoveCircular | functions/abb.py:295-307 | Sends exactly the frames of the `move_circular` transcript, using the intended comparison, and returns its result. |
| Motion.Robot.Arc | functions/abb.py:303-307 | The sends of `move_circular` once both frames are built. |
| Motion.Robot.SetDio | functions/abb.py:309-316 | One `97` frame carrying only whether the value is non-zero; its reply. |
| Motion.Robot.Close | functions/abb.py:343-347 | `99 #` is sent without reading a reply. Afterwards the socket is closed. Closing twice raises and sends nothing. |
| Mock.ParseMessage | controllers/mock/server.py:57-68 | Rejected exactly when the message is empty or does not end in `#`. IndexError exactly when only whitespace precedes the `#`. Otherwise the action and parameters are whitespace-free words, and together they are the split of the text before `#`. |
| Mock.GetFunction | controllers/mock/server.py:70-75 | A handler exactly for the opcodes 01, 02, 04, 06: move_tcp, set_joints, get_joints, set_tool. None for every other opcode. |
| Mock.Accepts | controllers/mock/server.py:50-53 | Whether the handler call succeeds. The parameters go as one argument when there are any, and no argument otherwise. `move_tcp` and `set_joints` need one argument, `get_joints` takes none, and `set_tool` has a default. |
| Mock.Respond | controllers/mock/server.py:39-55 | The reply `run` sends for one message (`!` or `#`), or the exception that ends `run`. |
| Mock.RespondCases | controllers/mock/server.py:39-55 | The reply is always `!` or `#`. `!` exactly for a rejected message or an unknown action. `#` exactly when a known handler accepts the call. IndexError exactly when parsing raises. TypeError exactly when the handler's arity rejects the call. |
| Mock.ParseFrame | controllers/mock/server.py:66-68 | A frame of words parses into its first word as the action and the rest as the parameters. |
| Mock.BlankFrameRaises | controllers/mock/server.py:67 | `#` and ` #` make `parse_message` raise IndexError. |
| Mock.Serve | controllers/mock/server.py:33-55 | A session never sends more replies than it has received messages. |
| Mock.NonEmptySnoc | controllers/mock/server.py:35-36 | One more received message joins those `run` answers unless the receive was empty. |
| Mock.ServeAnswersEach | controllers/mock/server.py:33-55 | When no message raises, the server never stops. It answers every non-empty message, in order, with that message's reply, and nothing else. |
| Mock.ServeStopsAtFault | controllers/mock/server.py:39-53 | The first message that raises ends the session with that exception. It gets no reply, and nothing after it is read. |
| Mock.ServeFaultSticks | controllers/mock/server.py:33-55 | Once the session has raised, later messages change nothing. |
| Mock.MockServer.constructor | controllers/mock/server.py:10-23 | A fresh server has sent nothing. |
| Mock.MockServer.Run | controllers/mock/server.py:33-55 | The loop sends exactly the session's replies, in order, and returns the exception that ended it. |
| Interop.PoseFieldWords | functions/abb.py:333-341 | Every pose field is a word for the server's Unicode splitting. |
| Interop.OpcodeWord | functions/abb.py:84 | A two-digit opcode is a word for the server's splitting. |
| Interop.FrameParses | controllers/mock/server.py:66-68 | An opcode followed by words parses back into that opcode and those words. |
| Interop.PoseFrameParses | controllers/mock/server.py:66-68 | A pose frame the client builds reaches the server as its opcode and exactly the seven formatted pose fields. |
| Interop.PoseCommandsServed | controllers/mock/server.py:50-55 | The client's `01` and `06` frames are handled, with the fields as one argument, and answered `#`. |
| Interop.JointsFrameServed | controllers/mock/server.py:50-55 | A `set_joints` frame reaches the server as `02` and its six formatted angles, and is answered `#`. |
| Interop.GetJointsServed | functions/abb.py:113 | The client's `04 #` parses to `("04", [])`, and `get_joints` is called with no argument and answered `#`. |
| Interop.OtherOpcodesRefused | controllers/mock/server.py:45-48 | Any other two-digit opcode, with any fields, is refused with `!`. |
| Interop.QueriesRefused | controllers/mock/server.py:45-48 | The `03`, `31` and `32` queries of `get_cartesian`, `clear_buffer` and `buffer_len` are refused with `!`. |

## Left out

- Sockets and timing: socket creation, connect timeouts, `time.sleep`, `inspect.stack`, logging, and `close`'s shutdown. The socket is a log plus a script of replies.
- UTF-8 encoding and decoding: text is a sequence of characters. `message.encode()` and `str(data, encoding="utf-8")` are identities here, and a decoding failure on the server is not modelled.
- TCP framing: each receive delivers exactly one frame, and each send is read whole.
- `connect_motion`: opening the socket; the model starts connected.
- `connect_logger`: a concurrent blocking socket loop over a `deque`.
- `get_robotinfo`: it depends on Python's `str(bytes)` representation.
- `load_json_tool`: file and JSON input.
- `__enter__` and `__exit__`: context-manager plumbing around `close`.
- Binary floating point: `format` rounds the exact decimal value of a `real`. A binary double can round differently near a tie. There is no negative zero: Python's `format(-0.0, "+08.1f")` is `-00000.0`, and the model prints `+00000.0`.
- Decimal.ParseFloat: only plain decimal tokens `[+-](digits[.digits?] | .digits)` are read. `float()` also accepts forms the model rejects: exponents, `inf`, `nan`, surrounding whitespace and underscores such as `1_0`.
- Python values in frames that are not numbers are not modelled. Manual zones, speeds, joint angles (Motion.Robot.SetJoints) and external axis values (Motion.Robot.SetExternalAxis) are `real`s, so the TypeError that `format` or `*` raises on a non-number cannot occur. The DIO value (Motion.Robot.SetDio) is an `int`; Python's `bool(value)` accepts any object.
- Motion.Robot.Send: `sendto` can raise for reasons other than a closed socket; only the closed socket is modelled.
- Mock.MockServer.Run: `while True` runs until an exception. The model processes a finite sequence of received messages and returns `None` when they are used up.
- The mock server's `PORT` environment override and the handler bodies, which only print.
- Mock.Respond: the handlers' own behaviour beyond accepting or rejecting their arguments is not modelled, since they only print.
- Motion.Robot.SetSpeed, Motion.Robot.SetZone: the client returns `None` after sending; the model returns `Ok(true)` to say a frame was sent. A guard failure's `False` is `Ok(false)`.
- Default arguments are not Dafny defaults. The constructor's calls use the defaults of `set_tool`, `set_workobject`, `set_speed` and `set_zone`, and those are modelled. The default of `set_external_axis`, `[-550, 0, 0, 0, 0, 0]` (functions/abb.py:285), is covered only by the lemma Codec.DefaultExternalAxisFrame. Motion.Robot.SetExternalAxis always takes its argument.
- Motion.Robot.SetTool, Motion.Robot.GetTool, Motion.Robot.constructor: the tool is stored as a value. In Python, `set_tool` keeps a reference to the caller's list and `get_tool` returns that same object. The default pose is also one shared mutable list. Mutating what `get_tool()` returned, or what was passed in, changes what later `set_tool()` calls send, including those of later constructors. The model does not capture this aliasing.
- Motion.Robot.MoveCircular, Motion.Robot.Arc: they send what `move_circular` evidently intends, sending the `36` frame when token 1 of the first reply is "1". No `Robot` method has the as-written behaviour, which always stops after the first frame. That behaviour is stated by Protocol.MoveCircularAsWrittenNeverCompletes.

## Findings

| source | as written | input that shows it | evidently intended | confidence | as-written member | corrected member |
|---|---|---|---|---|---|---|
| functions/abb.py:303-304 | `data[1]` is a `bytes` token from the socket; comparing it with the `str` `"1"` is always unequal in Python 3, so `move_circular` always bails out with `False` after the first frame | reply `0 1` to the `35` frame | send the `36` frame when token 1 of the reply is `1` | not executed | Protocol.MoveCircularAsWrittenNeverCompletes | Protocol.MoveCircularHandshake |

# pedal_mpv_daemon in Dafny

A model of the foot-pedal daemon for the mpv media player. The daemon looks up
an input device by its exact name. Then it reads the device's events. A press
of the left, right or middle pedal button sends one JSON command to mpv's
control socket:

- left seeks back half a second;
- right seeks forward half a second;
- middle toggles pause.

Every command goes over a fresh connection and carries one line. A missing or
refusing socket is reported and the loop goes on. Any other socket error is not
caught and ends the daemon.

Modules, one per part of the program:

- `Optional` (optional.dfy): the `Option` type.
- `InputEvents` (input_events.dfy): input events and the Linux event codes
  EV_KEY = 1, BTN_LEFT = 0x110, BTN_RIGHT = 0x111, BTN_MIDDLE = 0x112, and key
  values 0 (release), 1 (press), 2 (repeat).
- `MpvIpc` (mpv_ipc.dfy): player commands, the line each is framed as, and a
  parser for such lines, used to state that the framing can be read back.
- `Locator` (locator.dfy): the device search.
- `EventRelay` (relay.dfy): the read loop. It has a pure specification
  (`Dispatch`, `Commands`, `Deliver`, `RelaySpec`) and a loop method `Relay`
  proved against it.
- `Daemon` (daemon.dfy): the entry point, made of lookup, grab, status lines
  and relay.

The world outside the program becomes parameters:

- the enumerated device names are a `seq<string>`;
- the outcome of the grab is a `bool`;
- the pedal's events are a finite `seq<Event>`;
- the control socket is an oracle `sock: nat -> Outcome`. `sock(k)` says how
  the k-th connection attempt ends: `Delivered`, `NoSocket` (the path does not
  exist), `Refused`, or `OtherError`.

What the daemon does that can be seen from outside is a log of `Effect`s. Each
effect is a line written on one connection, one of the diagnostics, the grab
warning, or the status lines. Seek amounts are held exactly, in tenths of a
second.

## Model

| member | source | states |
|---|---|---|
| `EventRelay.Dispatch` | pedal_mpv_daemon.py:72-83 | The command one event triggers. Its contract says it triggers one exactly when the event is a key press of one of the three pedal buttons. `DispatchMapsButtons` states which command each button gives. |
| `EventRelay.DispatchMapsButtons` | pedal_mpv_daemon.py:72-83 | An event triggers a command exactly when it is a key event with value 1 whose code is one of the three pedal buttons. Left gives the back seek, right the forward seek, middle the pause toggle, each in both directions of the iff. |
| `EventRelay.Commands` | pedal_mpv_daemon.py:71-83 | A stream of events triggers at most one command per event, and every command triggered is one of the three pedal commands. |
| `EventRelay.CommandsTraceEvents` | pedal_mpv_daemon.py:71-83 | The commands correspond one to one with the events that trigger them. Each command is what its event dispatches to, the commands are in the order of their events, and an event is the origin of a command exactly when it triggers one. |
| `EventRelay.OriginsMatchCommands` | pedal_mpv_daemon.py:71-83 | The k-th command is the dispatch of the k-th triggering event, and the triggering events are in strictly increasing position. |
| `EventRelay.OriginsAreTriggers` | pedal_mpv_daemon.py:72-83 | A position is that of a triggering event exactly when the event there dispatches to a command. |
| `EventRelay.CommandsAppend` | pedal_mpv_daemon.py:71 | The commands of two streams read one after the other are the commands of the first followed by those of the second. |
| `EventRelay.IgnoredEventInvisible` | pedal_mpv_daemon.py:72-75 | An event that triggers nothing can be removed from the stream without changing the commands sent. This covers non-key events, releases and repeats, and other buttons. |
| `EventRelay.PressThenReleaseSeeksOnce` | pedal_mpv_daemon.py:74-79 | A press then a release of the left button send exactly one back seek. |
| `EventRelay.Report` | pedal_mpv_daemon.py:79-87 | The effect of an attempt the daemon survives: a written line exactly when the socket took it, the "socket not found" diagnostic exactly for a missing socket, and the "could not connect" diagnostic exactly for a refused connection. `WrittenLinesAreFrames` states that the line is the frame of the command. |
| `EventRelay.Deliver` | pedal_mpv_daemon.py:77-87 | Sending a sequence of commands, one connection attempt each. Its contract is stated by `DeliverShape`: one report per attempt in order, ending exactly at the first uncaught error. |
| `EventRelay.DeliverShape` | pedal_mpv_daemon.py:77-87 | Sending commands leaves one effect per attempt that did not end the daemon, in order: the written frame, or the diagnostic for a missing or refusing socket. The daemon ends exactly at an attempt with an uncaught error: when it ends, fewer effects than commands were left and the attempt after the last effect failed that way. Otherwise every command leaves its effect. |
| `EventRelay.CrashIsFinal` | pedal_mpv_daemon.py:77-87 | Once an uncaught socket error has ended the loop, later events change nothing. |
| `EventRelay.Step` | pedal_mpv_daemon.py:71-87 | One iteration of the loop reads one event. It sends one command exactly when the event dispatches to one, ends the loop exactly when that send fails with an uncaught error, and otherwise adds one effect per command sent. |
| `EventRelay.RelaySpec` | pedal_mpv_daemon.py:71-87 | The state after the loop is offered a stream of events. No more events are read than offered, and no more commands are sent than events read. Unless an uncaught error ended the loop, every event is read and every command left one effect. `RelayDecomposes` states it in full. |
| `EventRelay.Relay` | pedal_mpv_daemon.py:71-87 | The read loop ends in the state of the specification `RelaySpec`. The commands sent are those of the events read. Every event is read unless an uncaught socket error stopped the loop. The log is that of sending those commands to the socket. |
| `EventRelay.RelayDecomposes` | pedal_mpv_daemon.py:71-87 | The step-by-step loop is filtering followed by sending. The commands sent are those of the events read, and the effects are those of delivering those commands. |
| `EventRelay.CrashedStaysDecomposed` | pedal_mpv_daemon.py:77-87 | The decomposition still holds after an event read once the loop has ended. |
| `EventRelay.StepDecomposes` | pedal_mpv_daemon.py:71-87 | One more iteration of the loop keeps the decomposition into filtering and sending. |
| `EventRelay.SendStepDelivers` | pedal_mpv_daemon.py:77-87 | One more send ends the daemon on an uncaught error, and otherwise appends exactly its report to the log. |
| `EventRelay.FailedSendDoesNotStopRelay` | pedal_mpv_daemon.py:77-87 | A send that fails because the socket is missing or refused is reported: its effect is the matching diagnostic. The loop goes on. Compared with the same send going through, the commands, the events read, whether the daemon ended and every other effect are the same. |
| `EventRelay.FailedSendIsReported` | pedal_mpv_daemon.py:84-87 | A send that fails because the socket is missing or refused leaves its diagnostic at the position of that attempt in the log. |
| `EventRelay.NoUncaughtErrorReadsAll` | pedal_mpv_daemon.py:71-87 | When no send raises an uncaught error, every event is read and every command is sent. The k-th effect is the report of the k-th command's attempt. |
| `EventRelay.WrittenLinesAreFrames` | pedal_mpv_daemon.py:41-45 | Each line written is the frame of the pedal command sent on that connection. It ends in its only newline and parses back to that command. |
| `MpvIpc.Frame` | pedal_mpv_daemon.py:44 | The line written for a command starts with `{"command": [` and the quoted command name, and ends in a newline. `FrameRoundTrip` and `FrameIsOneLine` state that it determines the command and is exactly one line. |
| `MpvIpc.RenderSeconds` | pedal_mpv_daemon.py:32-33 | A number of seconds held in tenths is written with one fractional digit after a point. It starts with a minus sign exactly when it is negative. `SecondsRoundTrip` reads it back. |
| `MpvIpc.RenderArg` | pedal_mpv_daemon.py:44 | An array element is non-empty, and it starts with a quote exactly when it is a string. `ArgRoundTrip` reads it back. |
| `MpvIpc.RenderItems` | pedal_mpv_daemon.py:44 | The array elements joined with `, ` are at least one character per element plus two per separator. They start with a quote exactly when the first element is a string. `ItemsRoundTrip` reads them back. |
| `MpvIpc.Decimal` | pedal_mpv_daemon.py:44 | The decimal rendering of a natural number is a non-empty string of digits without leading zeros, and is `0` for zero, as Python writes the integer part of a float. |
| `MpvIpc.DecimalRoundTrip` | pedal_mpv_daemon.py:44 | Reading back the decimal rendering of n gives n. |
| `MpvIpc.DigitRunOf` | pedal_mpv_daemon.py:44 | A run of digits followed by a non-digit is read whole. |
| `MpvIpc.UnsignedRoundTrip` | pedal_mpv_daemon.py:44 | A non-negative number of tenths rendered as `int.d` reads back, and the rest of the line is untouched. |
| `MpvIpc.SecondsRoundTrip` | pedal_mpv_daemon.py:44 | A signed number of seconds in tenths reads back from its rendering, and the rest of the line is untouched. |
| `MpvIpc.StringRoundTrip` | pedal_mpv_daemon.py:44 | A plain string argument reads back from its quoted rendering. |
| `MpvIpc.ArgRoundTrip` | pedal_mpv_daemon.py:44 | Every plain argument reads back from its rendering. |
| `MpvIpc.ItemsRoundTrip` | pedal_mpv_daemon.py:44 | A non-empty list of plain arguments joined with `, ` reads back as the same list. |
| `MpvIpc.FrameRoundTrip` | pedal_mpv_daemon.py:44 | The line `{"command": [name, args...]}` plus newline framed for a plain command parses back to that command. |
| `MpvIpc.FrameInjective` | pedal_mpv_daemon.py:44 | Two plain commands with the same frame are the same command. |
| `MpvIpc.ItemsPrintable` | pedal_mpv_daemon.py:44 | The rendering of plain arguments holds only printable characters, so no newline. |
| `MpvIpc.FrameIsOneLine` | pedal_mpv_daemon.py:44 | A frame ends in a newline and contains no other newline, so one connection carries exactly one line. |
| `MpvIpc.PedalCommandIsPlain` | pedal_mpv_daemon.py:78-83 | The three pedal commands are made of plain strings, so the round trip and the one-line property hold for them. |
| `MpvIpc.SeekBackFrame` | pedal_mpv_daemon.py:79 | Left sends exactly `{"command": ["seek", -0.5, "relative"]}` and a newline. |
| `MpvIpc.SeekForwardFrame` | pedal_mpv_daemon.py:81 | Right sends exactly `{"command": ["seek", 0.5, "relative"]}` and a newline. |
| `MpvIpc.TogglePauseFrame` | pedal_mpv_daemon.py:83 | Middle sends exactly `{"command": ["cycle", "pause"]}` and a newline. |
| `Locator.FirstMatch` | pedal_mpv_daemon.py:48-53 | The result is an index whose name equals the wanted name, and no earlier name does. It is absent exactly when no name matches. |
| `Locator.FindPedal` | pedal_mpv_daemon.py:48-53 | The search loop returns at the first device named `DEVICE_NAME` and agrees with `FirstMatch`. |
| `Locator.UniqueMatchFound` | pedal_mpv_daemon.py:48-53 | When exactly one device carries the name, that device is found. |
| `Locator.FoundIndependentOfOrder` | pedal_mpv_daemon.py:48-53 | Whether a device is found does not depend on the enumeration order. |
| `Daemon.Startup` | pedal_mpv_daemon.py:62-69 | The effects before the loop end with the status lines. They hold the grab warning exactly when the grab failed. |
| `Daemon.DaemonSpec` | pedal_mpv_daemon.py:56-87 | A whole run. It exits for a missing device exactly when no device carries the configured name, and then nothing is read or logged. It never reads more events than given, and it reads them all when the input ends. |
| `Daemon.RunDaemon` | pedal_mpv_daemon.py:56-87 | A run is lookup, grab, status lines, then the relay. It exits before reading any event, with nothing sent, exactly when no device carries the configured name. |
| `Daemon.GrabFailureIsHarmless` | pedal_mpv_daemon.py:62-66 | A failed grab only adds one warning before the rest of the log. The exit, the events read and every other effect are the same as with a successful grab. |
| `Daemon.DaemonRelaysEveryPress` | pedal_mpv_daemon.py:56-87 | With the pedal present and no uncaught socket error, the daemon reads every event. After the startup effects it leaves one effect per command, in order. |
| `Daemon.RightPressEndToEnd` | pedal_mpv_daemon.py:56-83 | With the pedal present and grabbed, one right press gives the status lines and exactly the forward-seek line. |

## Left out

- Device enumeration, opening a device, `grab()` and the blocking `read_loop()` are library and OS calls. They are inputs: the list of names, the grab outcome and a finite sequence of events. The model does not capture a device that fails to open while the names are being compared, which raises out of the search.
- The infinite read loop and termination by signal are not modelled. Only finite prefixes of the event stream are.
- Socket creation, `connect`, `sendall` and `close` are I/O, and they are the oracle `sock`. When an attempt fails with an uncaught error, any bytes already written on that connection are not modelled.
- `OtherError`: the program lets any socket error other than "file not found" and "connection refused" escape the loop, and that ends the daemon. The model follows this code.
- `MpvIpc.Frame` models `json.dumps` only for plain strings: printable ASCII without quote or backslash. For these the library only adds quotes. No escaping is modelled. The three pedal commands are all plain.
- The UTF-8 encoding of the line is the identity on the ASCII lines sent, and is not modelled.
- The seek amounts are exact tenths rather than floating point. Their rendering `0.5` / `-0.5` is what Python prints for these constants. Other floats, negative zero and exponent forms are not modelled.
- The text of the console messages is not modelled. Each diagnostic and the grab warning is one `Effect`. The two status lines together are the single `Effect` `Ready`. The exit message for a missing device is the `Exit` value `DeviceMissing`, with an empty log. The device path shown in the status line is not modelled.
- The socket path and the player's side of the connection are not modelled. No reply is read, which the model reflects by having no input from the player.

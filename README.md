# Tello client model

A Dafny model of the client side of the Tello SDK library: the command controller
(`DefaultTelloController`) and the telemetry monitor (`DefaultTelloMonitor`).

The controller validates each public operation's arguments against closed ranges:
- distances 20..500 after the metric conversion;
- rotations 1..3600;
- speeds 1..100;
- RC axes -100..100.

When the arguments pass, it builds the command text from a string template and hands it to
`sendCommand`. That function has early returns and translates exceptions into error strings:
- "No command" for an empty command;
- "No connected" for a socket that is not connected;
- "Error" on any exception.

Otherwise it returns the whole 256-byte reply buffer. A `command` handshake sets or clears the
"initialized" flag, depending on whether the reply starts with `ok` or `error`.

The monitor polls a telemetry socket while a flag is up. Each datagram is received into one
1024-byte buffer that is reused from poll to poll. The text is parsed into a key/value map:
- only the text before the first "\n\r" is read;
- fields are separated by ';' and keys from values by ':';
- a later key overwrites an earlier one;
- any failure gives the empty map.

That map is then projected onto eight listener callbacks carrying fifteen readings, with -1.0 for
every absent key.

Modules:
- `Wrappers`: `Option`.
- `Text`: Kotlin's `split`, joining words, and decimal rendering of integers with its inverse.
- `Commands`: the pure half of the controller.
  - The ranges, `toMetric`, the enum tables, and `Render`, the text each operation sends or
    nothing.
  - An independent reader `Decode` of that text, with the proof that the text determines the
    request.
- `Controller`: the class `TelloController`, with the socket, the flags, `sendCommand` and the
  handshake.
  - The network is a parameter: each exchange's outcome is an `Exchange` value.
  - `sent` records what went on the command channel.
- `Telemetry`: `readParameters` and `checkParameters` as functions. The number parser standing
  for `toDouble` is a parameter.
- `Monitor`: the class `TelloMonitor`.
  - The flag, the interval and the reused buffer (an `array<char>`).
  - A copy loop for `receive`, and the polling loop.
  - The delivered datagrams are a parameter. `notified` records each iteration's callbacks and
    delay.

The key of the x-axis velocity reading is the letters v, g and x. It is written in `Telemetry`
as the concatenation of "vg" and "x".

## Model

| member | source | states |
|---|---|---|
| Text.Split | tello/src/main/java/com/santukis/tello/DefaultTelloMonitor.kt:84-85 | Kotlin `split` on one delimiter: never empty and no piece holds the delimiter. `SplitAtFirst`, `SplitJoin` and `JoinSplit` prove that it cuts at each delimiter and inverts joining. |
| Text.SplitJoin | tello/src/main/java/com/santukis/tello/DefaultTelloMonitor.kt:84 | Splitting words joined by a delimiter none of them contains gives the words back. |
| Text.JoinSplit | tello/src/main/java/com/santukis/tello/DefaultTelloMonitor.kt:84 | Joining the pieces of a split with the delimiter gives the original text: splitting loses nothing. |
| Text.IntRoundTrip | tello/src/main/java/com/santukis/tello/DefaultTelloController.kt:192 | The decimal text a string template prints for an `Int` parses back to that integer. |
| Commands.ToMetric | tello/src/main/java/com/santukis/tello/DefaultTelloController.kt:224 | `toMetric`: the value itself in metric mode. In imperial mode it is the whole number nearest 2.54 times the value, with halves rounded up. See `MetricDistanceRange` and `ImperialDistanceRange`. |
| Commands.IsValidDistance | tello/src/main/java/com/santukis/tello/DefaultTelloController.kt:225 | A distance is valid iff its metric value lies in `distanceRange`, 20..500. `MetricDistanceRange` and `ImperialDistanceRange` give the accepted raw values in each mode. |
| Commands.IsValidRotation | tello/src/main/java/com/santukis/tello/DefaultTelloController.kt:226 | A rotation is valid iff it lies in `rotationRange`, 1..3600. See `RotateSendsIff`. |
| Commands.IsValidSpeed | tello/src/main/java/com/santukis/tello/DefaultTelloController.kt:227 | A speed is valid iff it lies in `speedRange`, 1..100. See `SetSpeedSendsIff`, `GoIgnoresSpeed` and `CurveSendsIff`. |
| Commands.IsValidRc | tello/src/main/java/com/santukis/tello/DefaultTelloController.kt:228 | A stick value is valid iff it lies in `rcRange`, -100..100. See `RcIgnoresYaw`. |
| Commands.InfoQuery | tello/src/main/java/com/santukis/tello/DefaultTelloController.kt:239-250 | The `Info` table: every query is one word ending in '?'. `DecodeWordsOfRequest` reads each one back to its own entry. |
| Commands.FlipCode | tello/src/main/java/com/santukis/tello/DefaultTelloController.kt:252-261 | The `FlipDirection` table: every code is one or two letters with no space. `DecodeWordsOfRequest` reads each one back to its own entry. |
| Commands.MetricDistanceRange | tello/src/main/java/com/santukis/tello/DefaultTelloController.kt:224-225 | In metric mode (the only mode the controller ever runs in), a distance is valid iff it lies in 20..500. |
| Commands.ImperialDistanceRange | tello/src/main/java/com/santukis/tello/DefaultTelloController.kt:224-225 | In imperial mode, with the conversion rounded half up, the accepted inch values are exactly 8..197. |
| Commands.Render | tello/src/main/java/com/santukis/tello/DefaultTelloController.kt:88-198 | An operation sends text iff its arguments pass its validation. Sent text is non-empty and starts with the operation's keyword, so "No command" is never reached through a public operation. |
| Commands.MoveSendsIff | tello/src/main/java/com/santukis/tello/DefaultTelloController.kt:190-193 | `move` sends exactly "<keyword> <n>" when 20 <= n <= 500, and nothing otherwise. |
| Commands.RotateSendsIff | tello/src/main/java/com/santukis/tello/DefaultTelloController.kt:195-198 | `rotate` sends exactly "cw n" or "ccw n" when 1 <= n <= 3600, and nothing otherwise. |
| Commands.SetSpeedSendsIff | tello/src/main/java/com/santukis/tello/DefaultTelloController.kt:162-167 | `setSpeed` sends "speed s" iff 1 <= s <= 100. |
| Commands.GoIgnoresSpeed | tello/src/main/java/com/santukis/tello/DefaultTelloController.kt:140-145 | `go` sends "go x y z speed" iff x, y and z are valid distances. Changing the speed never changes whether it is sent. |
| Commands.CurveSendsIff | tello/src/main/java/com/santukis/tello/DefaultTelloController.kt:147-160 | `curve` sends iff all six distances and the speed are valid. The text orders the arguments x1 y1 z1 x2 y2 z2 speed, not in parameter order. |
| Commands.RcIgnoresYaw | tello/src/main/java/com/santukis/tello/DefaultTelloController.kt:176-182 | `sendRc` sends "rc lr fb ud yaw" iff the three axes lie in -100..100. The yaw is unchecked. |
| Commands.UncheckedAlwaysSent | tello/src/main/java/com/santukis/tello/DefaultTelloController.kt:88-188 | Land, emergency, stream on/off, flip, Wi-Fi and the read queries are always sent, in either mode. |
| Commands.ImperialSendsUnconverted | tello/src/main/java/com/santukis/tello/DefaultTelloController.kt:190-193 | In imperial mode the converted value is checked, but the unconverted number is sent. |
| Commands.WifiAmbiguous | tello/src/main/java/com/santukis/tello/DefaultTelloController.kt:170-174 | The Wi-Fi command is not sanitised: SSID "a b" with password "c" gives the same text as SSID "a" with password "b c". |
| Commands.DecodeWordsOfRequest | tello/src/main/java/com/santukis/tello/DefaultTelloController.kt:239-261 | The words of every request, including each `Info` query and `FlipDirection` code of the enum tables, decode back to that request. |
| Commands.DecodeRender | tello/src/main/java/com/santukis/tello/DefaultTelloController.kt:137-198 | The text of every accepted request reads back as that request, when no Wi-Fi credential contains a space. |
| Commands.RenderInjective | tello/src/main/java/com/santukis/tello/DefaultTelloController.kt:137-198 | Two different accepted requests, neither a Wi-Fi request whose SSID or password contains a space, never put the same text on the wire. `WifiAmbiguous` shows the condition is needed. |
| Controller.Received | tello/src/main/java/com/santukis/tello/DefaultTelloController.kt:209-213 | The reply decoded from a fresh 256-byte buffer is 256 characters long. It is the reply truncated to 256, padded with NULs. |
| Controller.Response | tello/src/main/java/com/santukis/tello/DefaultTelloController.kt:200-222 | `sendCommand` returns "No command" iff the command is empty, and "No connected" iff the socket exists but is unconnected. It returns "Error" iff the socket is unassigned, or it is connected and either closed or the exchange raised. A closed socket that never connected still returns "No connected". Otherwise it returns a 256-character reply. |
| Controller.HandshakeUpdate | tello/src/main/java/com/santukis/tello/DefaultTelloController.kt:70-73 | A response starting "ok" sets the flag, one starting "error" clears it, and any other response leaves it as it was. |
| Controller.ChannelErrorsKeepFlag | tello/src/main/java/com/santukis/tello/DefaultTelloController.kt:66-75 | "No command", "No connected" and "Error" never change the flag. |
| Controller.ReceivedKeepsPrefix | tello/src/main/java/com/santukis/tello/DefaultTelloController.kt:209-213 | NUL padding never changes whether the reply starts with a NUL-free prefix. |
| Controller.HandshakeOutcome | tello/src/main/java/com/santukis/tello/DefaultTelloController.kt:66-75 | The handshake in terms of the vehicle: an "ok" reply sets the flag and an "error" reply clears it. Every channel failure leaves the flag unchanged. |
| Controller.TelloController.constructor | tello/src/main/java/com/santukis/tello/DefaultTelloController.kt:46-49 | No socket, both flags false, nothing sent. |
| Controller.TelloController.SendCommand | tello/src/main/java/com/santukis/tello/DefaultTelloController.kt:200-222 | Returns `Response`. The command is appended to `sent` exactly when it reaches the wire. |
| Controller.TelloController.Initialize | tello/src/main/java/com/santukis/tello/DefaultTelloController.kt:66-75 | Sends "command" when the channel allows it, then sets the flag to `HandshakeUpdate` of the response. |
| Controller.TelloController.Connect | tello/src/main/java/com/santukis/tello/DefaultTelloController.kt:51-64 | A bind or connect failure reports "Unable to connect Tello" and sends nothing. Otherwise the handshake runs and a connection is reported whatever the handshake's outcome. |
| Controller.TelloController.Disconnect | tello/src/main/java/com/santukis/tello/DefaultTelloController.kt:77 | Closes an assigned socket. Without one it throws and changes nothing. |
| Controller.TelloController.TakeOff | tello/src/main/java/com/santukis/tello/DefaultTelloController.kt:79-86 | The handshake runs only when the flag is down. "takeoff" is sent whatever the handshake's outcome, and is the last command sent. |
| Controller.TelloController.Issue | tello/src/main/java/com/santukis/tello/DefaultTelloController.kt:88-198 | A rejected request sends nothing. An accepted one sends exactly its rendered text when the channel allows it. |
| Telemetry.FindTerminator | tello/src/main/java/com/santukis/tello/DefaultTelloMonitor.kt:83 | `indexOf("\n\r")`: the result is the first position of the terminator, or none when the terminator occurs nowhere. |
| Telemetry.Entry | tello/src/main/java/com/santukis/tello/DefaultTelloMonitor.kt:85-86 | The destructuring of one field: it succeeds only on a field that contains ':', and the key never contains ':'. See `EntryOfField` and `FieldWithoutColonFails`. |
| Telemetry.FieldWithoutColonFails | tello/src/main/java/com/santukis/tello/DefaultTelloMonitor.kt:85 | Destructuring a field with no ':' (the empty field included) fails. |
| Telemetry.EntryOfField | tello/src/main/java/com/santukis/tello/DefaultTelloMonitor.kt:85-86 | The key is the text before the first ':'. The value is the parse of the text up to the second ':'. Anything after that is ignored. |
| Telemetry.Associate | tello/src/main/java/com/santukis/tello/DefaultTelloMonitor.kt:84-87 | `associate` succeeds iff every field yields an entry. A successful map over at least one field is not empty, and none of its keys contains ':'. |
| Telemetry.ReadParameters | tello/src/main/java/com/santukis/tello/DefaultTelloMonitor.kt:81-92 | `readParameters`: a datagram without "\n\r" gives the empty map, and no key of the map contains ':'. See `NoTerminatorYieldsEmpty`, `SuffixIgnored`, `EmptyIffMalformed`, `AssociateIsLastValue` and `ReportedValueOfFrame`. |
| Telemetry.NoTerminatorYieldsEmpty | tello/src/main/java/com/santukis/tello/DefaultTelloMonitor.kt:81-92 | A datagram without "\n\r" decodes to the empty map. |
| Telemetry.SuffixIgnored | tello/src/main/java/com/santukis/tello/DefaultTelloMonitor.kt:83 | Text after the first "\n\r" never affects the map. |
| Telemetry.EmptyIffMalformed | tello/src/main/java/com/santukis/tello/DefaultTelloMonitor.kt:81-92 | The map is empty iff the datagram has no terminator or some field fails to decode. |
| Telemetry.FieldWithoutColonEmptiesFrame | tello/src/main/java/com/santukis/tello/DefaultTelloMonitor.kt:84-91 | One field without ':' makes the whole map empty. |
| Telemetry.AssociateIsLastValue | tello/src/main/java/com/santukis/tello/DefaultTelloMonitor.kt:84-87 | The map `associate` builds agrees with an independent reading: each key maps to the value of its last field. |
| Telemetry.LaterDuplicateWins | tello/src/main/java/com/santukis/tello/DefaultTelloMonitor.kt:84-86 | In a well-formed datagram, a field whose key does not recur later supplies that key's value. |
| Telemetry.CheckParameters | tello/src/main/java/com/santukis/tello/DefaultTelloMonitor.kt:95-128 | Every call produces all eight notifications, in the fixed callback order, whatever the map holds. |
| Telemetry.Snapshot | tello/src/main/java/com/santukis/tello/DefaultTelloMonitor.kt:97-126 | The fifteen reported values are, in order, the map entries of the fifteen fixed keys, or -1.0 where a key is absent. |
| Telemetry.SentinelIffAbsent | tello/src/main/java/com/santukis/tello/DefaultTelloMonitor.kt:97-126 | When no genuine reading is -1.0, a reported -1.0 means exactly that its key was absent. |
| Telemetry.EmptyMapAllUndefined | tello/src/main/java/com/santukis/tello/DefaultTelloMonitor.kt:95-128 | The empty map is reported as fifteen -1.0 values. |
| Telemetry.MalformedDatagramAllUndefined | tello/src/main/java/com/santukis/tello/DefaultTelloMonitor.kt:81-128 | A malformed datagram still reaches every callback, carrying -1.0 only. |
| Telemetry.ReportedValueOfFrame | tello/src/main/java/com/santukis/tello/DefaultTelloMonitor.kt:81-128 | End to end for a well-formed datagram: each reported value is that of the last field with its key, or -1.0 when there is none. |
| Telemetry.FramedFields | tello/src/main/java/com/santukis/tello/DefaultTelloMonitor.kt:83-84 | Text free of line feeds followed by "\n\r": the fields are that text split at ';', whatever comes after. |
| Telemetry.RepeatedKeyMap | tello/src/main/java/com/santukis/tello/DefaultTelloMonitor.kt:84-87 | Of three fields whose first and last share a key, the map keeps the last value and the middle entry. |
| Telemetry.RepeatedBatteryFrame | tello/src/main/java/com/santukis/tello/DefaultTelloMonitor.kt:81-92 | "bat:80;h:20;bat:75" plus the terminator, followed by anything, decodes to battery 75 and height 20. |
| Monitor.Truncate | tello/src/main/java/com/santukis/tello/DefaultTelloMonitor.kt:75-76 | The packet keeps at most the buffer's 1024 bytes of a datagram. |
| Monitor.OverlayAt | tello/src/main/java/com/santukis/tello/DefaultTelloMonitor.kt:74-76 | After `receive`, the buffer holds the datagram over its first bytes and its older contents everywhere else. |
| Monitor.ReadDataAsWritten | tello/src/main/java/com/santukis/tello/DefaultTelloMonitor.kt:74-79 | `readData` as written returns all 1024 characters of the buffer. Only its first datagram-length characters come from the datagram. |
| Monitor.ReadData | tello/src/main/java/com/santukis/tello/DefaultTelloMonitor.kt:74-79 | Corrected `readData`: the received length of the buffer is exactly the datagram as the packet keeps it. |
| Monitor.FrameDependsOnlyOnDatagram | tello/src/main/java/com/santukis/tello/DefaultTelloMonitor.kt:74-79 | The corrected text does not depend on what the buffer held before. |
| Monitor.TerminatedDatagramsAgree | tello/src/main/java/com/santukis/tello/DefaultTelloMonitor.kt:74-92 | On every datagram carrying its own "\n\r", the as-written and corrected texts decode to the same map. |
| Monitor.StaleBytesReachParser | tello/src/main/java/com/santukis/tello/DefaultTelloMonitor.kt:74-92 | As written, "bat:7" received after "bat:80;h:20\n\r" decodes to battery 70 and height 20. Read on its own it decodes to the empty map. |
| Monitor.Poll | tello/src/main/java/com/santukis/tello/DefaultTelloMonitor.kt:49-58 | One iteration notifies all eight callbacks and then waits the current interval. |
| Monitor.PollsAsWritten | tello/src/main/java/com/santukis/tello/DefaultTelloMonitor.kt:49-59 | The loop as written: one iteration per delivered datagram. See `PollsAsWrittenAt`, `TerminatedPollsAgree` and `TelloMonitor.StartMonitoring`. |
| Monitor.PollsAsWrittenAt | tello/src/main/java/com/santukis/tello/DefaultTelloMonitor.kt:49-59 | The loop as written: the i-th iteration decodes the whole shared buffer after datagrams 0 through i were received into it. |
| Monitor.Polls | tello/src/main/java/com/santukis/tello/DefaultTelloMonitor.kt:74-79 | The corrected reading of the loop (the fix in Findings): one iteration per datagram, the i-th decoding the i-th datagram on its own. |
| Monitor.TerminatedPollsAgree | tello/src/main/java/com/santukis/tello/DefaultTelloMonitor.kt:49-92 | When every delivered datagram carries its own "\n\r", the loop as written notifies exactly what the corrected reading does. |
| Monitor.TelloMonitor.constructor | tello/src/main/java/com/santukis/tello/DefaultTelloMonitor.kt:35-41 | Interval 2000, flag down, a zeroed 1024-byte buffer, nothing notified. |
| Monitor.TelloMonitor.Receive | tello/src/main/java/com/santukis/tello/DefaultTelloMonitor.kt:74-76 | The copy loop leaves the buffer equal to `Overlay` of its old contents and returns the kept length. |
| Monitor.TelloMonitor.StartMonitoring | tello/src/main/java/com/santukis/tello/DefaultTelloMonitor.kt:43-64 | A bind failure changes nothing. Otherwise the flag goes up, `PollsAsWritten` of the old buffer and the datagrams is appended to what was notified, and the buffer is every datagram overlaid in turn. |
| Monitor.TelloMonitor.StopMonitoring | tello/src/main/java/com/santukis/tello/DefaultTelloMonitor.kt:66-68 | Lowers the flag and changes nothing else. Stopping twice is the same as stopping once. |
| Monitor.TelloMonitor.SetScanningInterval | tello/src/main/java/com/santukis/tello/DefaultTelloMonitor.kt:70-72 | Replaces the interval and changes nothing else. |

## Left out

- UDP sockets, addresses and ports: the outcome of each exchange (`Exchange`), of binding and connecting, and the datagrams the telemetry socket delivers are parameters.
- Coroutines (`execute`, `GlobalScope.launch`, `Dispatchers.Main`, `delay`): each operation runs to completion in order. In the source, `initialize` is itself launched asynchronously. So `connect` may report a connection before the handshake's reply, and `takeOff` may send "takeoff" before "command". The model orders the handshake first.
- Controller.TelloController.TakeOff: the handshake-before-takeoff order it states is the order of the source text, not a guarantee of the source at run time (see the previous line).
- Monitor.TelloMonitor.StartMonitoring: the loop runs over the given datagrams. A `stopMonitoring` from another thread in the middle of the loop, and a `receive` that throws, are not modelled. In the source, a throwing `receive` ends the coroutine without lowering the flag; in the model the datagram sequence simply ends.
- Floating point: `String.toDouble` is an abstract parser (`NumberParser`) returning reals. `Log.d`/`Log.e` are not modelled.
- Commands.ToMetric: the imperial branch `Math.round((x * 2.54).toFloat())` is modelled in exact arithmetic, rounded half up. It can differ from the float computation on values where 2.54 x rounds across a .5 boundary. The branch is unreachable in the source, because `isImperial` is never set.
- Characters stand for bytes: `toByteArray` and `String(bytes)` are taken as ASCII. Multi-byte UTF-8 decoding is not modelled.
- The `TelloController` and `TelloMonitor` interfaces and the app's `MainActivity` hold no logic and are not part of this model.

## Findings

| source | as written | input that shows it | evidently intended | confidence | as-written member | corrected member |
|---|---|---|---|---|---|---|
| tello/src/main/java/com/santukis/tello/DefaultTelloMonitor.kt:74-79 | `readData` decodes the whole reused 1024-byte buffer (`String(receivePacket.data)`), so bytes left by an earlier, longer datagram follow the new one | "bat:80;h:20\n\r" then "bat:7": the second poll reports battery 70 and height 20 | decode only the `receivePacket.length` bytes just received, so "bat:7" (no terminator) decodes to the empty map | medium, not executed | Monitor.StaleBytesReachParser | Monitor.ReadData |

# pyrdp-replay: capture-to-session replay converter

This project models the core of `bin/pyrdp-replay.py` from PyRDP. The script turns a
capture of exported PDUs into an RDP session recording. For each capture record it:

1. reads the original source and destination addresses and the payload at fixed offsets
   (`bytesToIP`, `parseExportedPdu`);
2. keeps the record only when both addresses are session addresses, and picks the
   direction from the source (the filter in `main`);
3. sets the recorder's timestamp from the capture time, then hands the payload to the
   client or the server leg of the session engine (`setTimeStamp`, `recv`).

After the last record it asks the engine to record a connection close.

Modules, leaf first:

- `Wrappers` (wrappers.dfy): `Option` and the `byte` type.
- `Decimal` (decimal.dfy): Python's `str` of a non-negative integer, and its inverse.
- `DottedAddress` (address.dfy): `bytesToIP` as a join of decimal renderings, with a
  parser `ParseIP` as its exact inverse.
- `ExportedPdu` (exported_pdu.dfy): `parseExportedPdu` with Python's clamping slice
  semantics. A short record is never an error.
- `Session` (session.dfy): the endpoint filter `Admit` and the leg choice `LegOf`.
- `Replay` (replay.dfy):
  - `Recorder` is the `CustomMITMRecorder` class, with its one mutable field.
  - `Replayer` is the `RDPReplayer` class with `setTimeStamp` and `recv`. The loop and
    the close step of `main` (bin/pyrdp-replay.py:126-143) are lifted into it as `Run`
    and `Finish`.
  - `Replay` is the specification function: the event sequence a capture produces.
  - `Convert` is a whole run.

The session engine is represented by the log of what it receives. Each `Deliver` event
records the leg, the payload, and the timestamp the recorder held when the payload
arrived. That is the timestamp the engine stamps its recording entries with. So
"the timestamp is set before the payload is delivered" becomes a checkable fact: every
delivery carries its own packet's time.

Behaviours of the code that the model keeps as they are:

- **Short records.** A record shorter than 24 bytes is not an error. The code slices with
  Python semantics, so a short record yields truncated or empty address texts and an
  empty payload (`ExportedPdu.ParseExportedPduShortRecord`). With four-byte session
  addresses such a record is never admitted (`Session.ShortRecordNeverAdmitted`).
- **Admission.** Each endpoint is tested on its own against the two session addresses, so
  a frame from the client to the client is admitted (`Session.SelfTrafficAdmitted`).
- **Millisecond conversion.** `int()` truncates toward zero, also for times before the
  epoch, and `Replay.ToMillis` does the same.
- **Timestamps.** They are neither checked nor reordered: each passes through as given
  (`Replay.TimestampsPassThrough`).

## Model

| member | source | states |
|---|---|---|
| `Decimal.RenderIsCanonical` | bin/pyrdp-replay.py:24 | the rendering of a number is at least one digit, with no leading zero unless it is "0" |
| `Decimal.ValueOfRender` | bin/pyrdp-replay.py:24 | reading a byte's decimal rendering back gives the byte |
| `Decimal.RenderOfValue` | bin/pyrdp-replay.py:24 | every canonical digit string is the rendering of its value, so rendering is a bijection onto canonical digit strings |
| `DottedAddress.SplitJoin` | bin/pyrdp-replay.py:24 | splitting a "."-join of dot-free pieces at the dots recovers the pieces |
| `DottedAddress.JoinSplit` | bin/pyrdp-replay.py:24 | "."-joining the pieces of any text recovers the text |
| `DottedAddress.SplitCountsDots` | bin/pyrdp-replay.py:24 | a text has exactly one more dot-separated piece than it has dots |
| `DottedAddress.BytesToIPIsJoin` | bin/pyrdp-replay.py:23-24 | the byte-by-byte dotted rendering equals the "."-join of the decimal renderings of the bytes, as the source writes it |
| `DottedAddress.BytesToIPShape` | bin/pyrdp-replay.py:23-24 | for n >= 1 bytes the dotted text has exactly n pieces, piece i is the rendering of byte i, and it has n - 1 dots |
| `DottedAddress.ParseBytesToIP` | bin/pyrdp-replay.py:23-24 | parsing the dotted text of any byte string, including the empty one, gives the bytes back |
| `DottedAddress.BytesToIPOfParse` | bin/pyrdp-replay.py:23-24 | any text the parser accepts is the dotted text of the bytes it parses to |
| `DottedAddress.ParseIPIffRendering` | bin/pyrdp-replay.py:23-24 | a text parses to some bytes if and only if it is their dotted text |
| `DottedAddress.BytesToIPInjective` | bin/pyrdp-replay.py:23-24 | equal dotted texts come from equal bytes, so comparing address texts compares addresses |
| `ExportedPdu.ParseExportedPduAddresses` | bin/pyrdp-replay.py:27-32 | for any record, the source text reads back as the bytes at [12,16) and the destination text as the bytes at [20,24), each clamped to the record length |
| `ExportedPdu.ParseExportedPduDottedQuads` | bin/pyrdp-replay.py:27-32 | a record of at least 24 bytes gives two dotted quads with four pieces and three dots, holding record[12..16] and record[20..24] |
| `ExportedPdu.ParseExportedPduPayload` | bin/pyrdp-replay.py:34-35 | the payload is the record suffix from offset 60 and has length len - 60, and it is empty when len <= 60 |
| `ExportedPdu.ParseExportedPduShortRecord` | bin/pyrdp-replay.py:27-35 | a record under 24 bytes is no error: the payload is empty, an absent field is "", and a partly present destination has one piece per byte present |
| `ExportedPdu.ParseExportedPduOfLayout` | bin/pyrdp-replay.py:27-35 | a 60-byte header followed by a payload parses to the header's two address fields and exactly that payload |
| `Session.SelfTrafficAdmitted` | bin/pyrdp-replay.py:130-131 | a client-to-client frame is admitted, even though its endpoints are not the session pair when the two addresses differ |
| `Session.ShortRecordNeverAdmitted` | bin/pyrdp-replay.py:128-131 | with four-byte session addresses, a record shorter than 24 bytes is never admitted |
| `Session.AdmitIsEndpointSubset` | bin/pyrdp-replay.py:130-131 | a frame is admitted iff its source and destination both lie in {client, server} |
| `Session.AdmittedLeg` | bin/pyrdp-replay.py:135 | an admitted frame goes to the client leg iff its source is the client address; otherwise its source is the server address |
| `Session.AdmitByAddressBytes` | bin/pyrdp-replay.py:128-131 | for any record, with session addresses given as dotted texts of bytes, the text filter equals membership of the record's raw (clamped) address fields in the session pair |
| `Session.UnparsableEndpointNeverMatches` | bin/pyrdp-replay.py:128-131 | a session address that is not a dotted decimal byte text never equals any frame's source or destination |
| `Replay.ToMillis` | bin/pyrdp-replay.py:91-92 | microseconds become milliseconds truncated toward zero: within 1000 of micros/1000, on the side of zero |
| `Replay.Recorder.constructor` | bin/pyrdp-replay.py:38-39 | the current timestamp starts as None |
| `Replay.Recorder.GetCurrentTimeStamp` | bin/pyrdp-replay.py:41-42 | returns the current timestamp |
| `Replay.Recorder.SetTimeStamp` | bin/pyrdp-replay.py:44-45 | afterwards the current timestamp is the given value |
| `Replay.Replayer.constructor` | bin/pyrdp-replay.py:59-80 | a fresh recorder with no timestamp, and nothing delivered yet |
| `Replay.Replayer.SetTimeStamp` | bin/pyrdp-replay.py:91-92 | the recorder now holds the capture time in truncated milliseconds, and nothing is delivered |
| `Replay.Replayer.Recv` | bin/pyrdp-replay.py:85-89 | appends exactly one delivery, to the client leg iff from_client, stamped with the recorder's current time, and leaves the recorder unchanged |
| `Replay.Replayer.Run` | bin/pyrdp-replay.py:126-137 | the engine's log grows by exactly the replay of the capture, and the recorder ends with the last admitted packet's time, or unchanged if none was admitted |
| `Replay.Replayer.Finish` | bin/pyrdp-replay.py:139-143 | a close record stamped with the current time is appended when the serializer accepts it; otherwise only the diagnostic flag is set and the log is unchanged |
| `Replay.Convert` | bin/pyrdp-replay.py:124-143 | a whole run yields the admitted packets' deliveries in capture order, then a close record unless the serializer rejects it; an empty capture still ends normally |
| `Replay.ReplayAppend` | bin/pyrdp-replay.py:126-137 | replaying a concatenation of captures is replaying each in turn |
| `Replay.ReplayExtend` | bin/pyrdp-replay.py:130-135 | a packet outside the session adds no event; an admitted one adds exactly its own delivery at the end |
| `Replay.StampAfterExtend` | bin/pyrdp-replay.py:130-134 | after one more packet the recorder holds that packet's own time if it is admitted, and otherwise what it held before |
| `Replay.ReplayLength` | bin/pyrdp-replay.py:130-131 | a replay has at most one event per packet, and exactly one per packet iff every packet is admitted |
| `Replay.ReplayPosition` | bin/pyrdp-replay.py:126-135 | an admitted packet's delivery sits at the index that counts the admitted packets before it |
| `Replay.ReplayKeepsCaptureOrder` | bin/pyrdp-replay.py:126-135 | of two admitted packets, the earlier in the capture is delivered strictly earlier, whatever their timestamps |
| `Replay.ReplayEventOrigin` | bin/pyrdp-replay.py:133-135 | every event is the delivery of some admitted packet: its payload, on the leg its source selects, stamped with its own time |
| `Replay.ReceivedAppend` | bin/pyrdp-replay.py:85-89 | a delivery adds its payload to the stream of its own leg only; the other leg's stream is unchanged |
| `Replay.TimestampsPassThrough` | bin/pyrdp-replay.py:133-135 | two admitted packets are delivered in capture order, each with its own time, whether time goes forward or back |
| `Replay.ClientUnrelatedServerScenario` | bin/pyrdp-replay.py:126-137 | client packet, unrelated packet, server reply: the client payload goes to the client leg, then the reply to the server leg, each at its own time, and the unrelated one produces nothing |

## Left out

- Float timestamps: the capture time is an integer number of microseconds. The rounding
  of the float product `timeStamp * 1000` at bin/pyrdp-replay.py:92 is not modelled, only
  its truncation by `int()`.
- The RDP session engine (`RDPMITM`, `RDPMITMState`, `MITMRecorder`, `FileLayer`,
  `tcp.dataReceived`): it is represented only by the log of deliveries and the close
  record it receives. Protocol decoding and the recording's byte format are not part of
  this model.
- Errors raised inside the engine while a payload is delivered (`NotImplementedError`,
  re-raised at bin/pyrdp-replay.py:136-137): the abstract engine never fails, so this
  path is not modelled.
- Whether `recordConnectionClose` raises `struct.error` depends on the engine's
  serializer. It enters `Replay.Replayer.Finish` and `Replay.Convert` as the parameter
  `serializerAccepts`, and the printed message becomes the result `clean == false`.
  The model does not link a rejection to its likely cause, wrong session addresses and
  so nothing admitted: `serializerAccepts` is unconstrained, so an empty replay may
  close cleanly with no timestamp.
- The no-op hooks `sendBytesStub`, `start`, `connectToServer`, `startTLS` and
  `sendPayload`, the `useTLS` flag, and the configuration classes (`RDPReplayerConfig`,
  output paths, loggers): these are engine configuration with no logic of their own.
- The `Recorder` class keeps only `currentTimeStamp`. The transports and state that
  `MITMRecorder` holds belong to the engine.
- Reading the capture (`rdpcap`), the progress bar, argument parsing and logging setup:
  these are I/O and CLI plumbing.

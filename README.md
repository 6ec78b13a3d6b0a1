# gqmqtt core in Dafny

gqmqtt polls a GQ Geiger counter (GMC-500+, GMC-320 or GMC-280) over a serial
line and republishes its counts-per-minute (CPM) reading to an MQTT topic. This
project models the deterministic logic under the serial and MQTT glue of
`gqmqtt.go`:

- `CpmDecoder` (`decoder.dfy`): `bytesToCpmValue`. It reads the reply as a big-endian
  unsigned integer: 4 bytes give a 32-bit value, 2 bytes a 16-bit value, and any
  other length gives 0 together with the error "invalid byte length". Its
  partners are a reference base-256 reading (`BigEndianValue`) and the encoders
  `PutUint32`/`PutUint16`, with round trips in both directions.
- `Membership` (`membership.dfy`): `isElementInArray` as a scanning loop with early
  return, proved equal to sequence membership.
- `StartupChecks` (`startup.dfy`): the start-up checks of `main`, in the code's order:
  - the nine baud rates;
  - the three models;
  - the host's port list (its error, an empty list, a missing port);
  - opening the port and setting its mode;
  - the broker connection;
  - the 57600 baud cap, applied to the GMC-280 only;
  - the derived response width `cSize` (4 for the GMC-500+, 2 otherwise).

  `CheckStartup` is the imperative form, with the `foundPort` loop and the
  reassignment of `cSize`. It is proved equal to the declarative `Startup`, and
  `Startup` has lemmas of its own.
- `PollLoop` (`pollloop.dfy`): the unbounded loop of `main`, run over a sequence of
  simulated cycles. Each cycle is a failed write, a failed read, or a read of
  some bytes together with the clock's RFC 3339 text.
  - One buffer array is reused, and the whole buffer is decoded after each
    accepted read. The model takes a read of `n` bytes to overwrite the first
    `n` bytes and leave the rest as they were (see `PollLoop.Overwrite` under
    "## Left out").
  - The loop stops with `Eof` on a read shorter than `cSize - 1`, and with
    `Fatal` on an I/O error.
  - Each other cycle publishes one message: QoS 0, retain false, to the
    configured topic. The payload is the plain decimal reading, or the three
    JSON fields.
  - `RunPollLoop` is proved equal to the functional `Loop`/`Run`; the lemmas are
    stated about `Run`.
- `Decimal` (`decimal.dfy`): the decimal rendering of `fmt.Sprint` and
  `strconv.FormatUint(_, 10)`, with a parser and round trips in both directions.
- `Wrappers` (`wrappers.dfy`): `Option` and `Result`.

Points where the code's behaviour is easy to misread:

- The baud cap is applied only to the GMC-280. It is tested after the port is
  opened and the MQTT client has connected.
- A short read prints "eof" and leaves the loop, so `main` returns normally. The
  model ends with `Eof`, distinct from `Fatal`.
- The decode error is discarded, not propagated. The configured width is always
  2 or 4, so that error never arises (`AcceptedReadDecodes`).
- A read of exactly `cSize - 1` bytes is accepted. The last byte decoded is then
  the one the previous read left in the buffer (`ShortReadReusesLastByte`).

## Model

| member | source | states |
|---|---|---|
| `CpmDecoder.BytesToCpmValue` | gqmqtt.go:168-179 | no error exactly for lengths 2 and 4; otherwise value 0 with "invalid byte length"; a 2-byte value is below 65536 |
| `CpmDecoder.Uint32` | gqmqtt.go:172 | the 32-bit reading of a 4-byte reply equals its reference big-endian value |
| `CpmDecoder.Uint16` | gqmqtt.go:174 | the 16-bit reading of a 2-byte reply equals its reference big-endian value |
| `CpmDecoder.DecodeFourBytes` | gqmqtt.go:171-172 | `[b0,b1,b2,b3]` decodes without error to b0·2^24 + b1·2^16 + b2·2^8 + b3 |
| `CpmDecoder.DecodeTwoBytes` | gqmqtt.go:173-174 | `[b0,b1]` decodes without error to b0·256 + b1, below 65536 |
| `CpmDecoder.DecodeOtherLength` | gqmqtt.go:175-177 | every other length yields value 0 and the "invalid byte length" error |
| `CpmDecoder.BigEndianValue` | gqmqtt.go:171-174 | the reference base-256 reading of a byte string is below 256^length |
| `CpmDecoder.DecodeIsBigEndian` | gqmqtt.go:168-179 | for lengths 2 and 4 the decoded value equals the reference big-endian reading |
| `CpmDecoder.DecodePutUint32` | gqmqtt.go:171-172 | decoding the 4-byte big-endian encoding of any 32-bit value gives it back without error |
| `CpmDecoder.PutUint32OfDecode` | gqmqtt.go:171-172 | encoding the value of any 4-byte reply gives the reply back |
| `CpmDecoder.DecodePutUint16` | gqmqtt.go:173-174 | decoding the 2-byte encoding of any 16-bit value gives it back without error |
| `CpmDecoder.PutUint16OfDecode` | gqmqtt.go:173-174 | encoding the value of any 2-byte reply gives the reply back |
| `CpmDecoder.DecodeExamples` | gqmqtt.go:171-174 | `DE AD BE EF` decodes to 0xDEADBEEF and `01 02` to 258 |
| `Membership.IsElementInArray` | gqmqtt.go:202-209 | returns true if and only if the element occurs in the sequence |
| `Decimal.FormatNat` | gqmqtt.go:139-140 | the rendering is non-empty, all digits, with a leading '0' exactly for 0 and one digit exactly below 10 |
| `Decimal.FormatThenParse` | gqmqtt.go:139-140 | parsing the rendering of n gives n |
| `Decimal.ParseThenFormat` | gqmqtt.go:139-140 | rendering the value of any canonical digit string gives that string |
| `Decimal.FormatInjective` | gqmqtt.go:139-140 | distinct values have distinct renderings |
| `StartupChecks.GoInt` | gqmqtt.go:53 | `int(*baudRate)` on a 64-bit platform: a signed 64-bit value congruent to the input modulo 2^64, equal to it below 2^63 |
| `StartupChecks.ResponseWidth` | gqmqtt.go:112-114 | cSize is 2 or 4, and 4 exactly for the GMC-500+ |
| `StartupChecks.MqttClientOptions` | gqmqtt.go:152-160 | the broker is the host URL, the client id is "Geiger Counter", and the user name and password are set exactly when non-empty, to the given values |
| `StartupChecks.ErrorMessage` | gqmqtt.go:53-110 | a wrapped host error is logged with its own text; each of the program's own errors has a non-empty message |
| `StartupChecks.Startup` | gqmqtt.go:53-114 | a successful start-up had an allowed baud rate and model, a listed port and no host failure, has the model's width and the requested port, and is never a GMC-280 above 57600 baud; "invalid baud rate" is reported exactly for an unlisted baud rate |
| `StartupChecks.CheckStartup` | gqmqtt.go:33-114 | the imperative checks (membership scans, port loop, cSize reassignment) give exactly the outcome of `Startup` |
| `StartupChecks.RejectsUnlistedBaudRate` | gqmqtt.go:35-55 | a baud rate outside the nine allowed ones fails with "invalid baud rate", whatever else holds |
| `StartupChecks.RejectsUnlistedModel` | gqmqtt.go:53-59 | with an allowed baud rate, a model outside the three fails with "invalid Geiger Counter model" |
| `StartupChecks.PortLookup` | gqmqtt.go:65-83 | an empty port list fails; otherwise the port check fails exactly when the requested port is not listed |
| `StartupChecks.Gmc280Capped` | gqmqtt.go:106-110 | a GMC-280 above 57600 baud never starts |
| `StartupChecks.Gmc280CapAfterOpen` | gqmqtt.go:92-110 | the cap is checked after the port is opened, its mode set and the broker connected: a failure of any of these is reported instead, and only when all succeed does the cap reject |
| `StartupChecks.OwnErrorMessagesDistinct` | gqmqtt.go:53-110 | the messages of main's own checks are pairwise distinct, and the cap's message determines the baud rate |
| `StartupChecks.BaudRateTooHighMessage` | gqmqtt.go:106-110 | the cap's message names the offending baud rate in decimal |
| `StartupChecks.StartupSucceeds` | gqmqtt.go:33-114 | start-up succeeds exactly when every check passes; width is 4 exactly for the GMC-500+ and 2 otherwise; 8N1 mode at the baud rate; credentials only when non-empty |
| `StartupChecks.Gmc320NotCapped` | gqmqtt.go:106-114 | a GMC-320 at 115200 baud starts, with width 2 |
| `PollLoop.FormatPayload` | gqmqtt.go:138-146 | the payload is plain exactly when JSON is off; the plain text parses back to the value; the JSON fields are the given time and the decimal value and interval |
| `PollLoop.Publish` | gqmqtt.go:187 | a message goes to the given topic with the given payload, QoS 0 and retain false |
| `PollLoop.Run` | gqmqtt.go:118-149 | at most one message per cycle, and one per cycle while the loop is still polling |
| `PollLoop.Loop` | gqmqtt.go:116-149 | from the zeroed buffer: at most one message per cycle, and none when the first cycle stops the loop |
| `PollLoop.ReadInto` | gqmqtt.go:124 | a read of n bytes overwrites the first n bytes of the buffer and leaves the rest |
| `PollLoop.RunPollLoop` | gqmqtt.go:116-149 | the loop over one reused buffer array yields exactly the published messages and outcome of `Loop` |
| `PollLoop.RunFireAndForget` | gqmqtt.go:181-190 | every message goes to the configured topic with QoS 0 and retain false; at most one per cycle |
| `PollLoop.FullReadStep` | gqmqtt.go:124-147 | a read that fills the buffer publishes its own decoded value first, and the loop goes on from a buffer holding that read |
| `PollLoop.RunIsFullReadsTrace` | gqmqtt.go:118-149 | over full reads the loop's trace is one message per read, still polling |
| `PollLoop.FullReadsTraceAt` | gqmqtt.go:118-149 | that trace has one message per read at the read's own position |
| `PollLoop.RunFullReads` | gqmqtt.go:118-149 | over full reads the loop keeps polling and publishes one message per read, in order, each carrying that read's decoded value |
| `PollLoop.RunStopsAtFirstStop` | gqmqtt.go:118-132 | at the first failed write, failed read or read shorter than cSize - 1, publishing stops with exactly the earlier messages, the outcome is Eof or the error, and later cycles play no part |
| `PollLoop.RunPollingIff` | gqmqtt.go:118-149 | the loop is still polling exactly when no cycle stopped it, and then every cycle published once |
| `PollLoop.AcceptedReadDecodes` | gqmqtt.go:116-133 | with width 2 or 4, the buffer decoded after an accepted read never hits the error branch and gives its big-endian value |
| `PollLoop.ShortReadReusesLastByte` | gqmqtt.go:124-133 | a read of cSize - 1 bytes is accepted and decodes with the last byte kept from the previous read |
| `PollLoop.PayloadDeterminesReading` | gqmqtt.go:138-146 | equal payloads come from equal readings, and in JSON form from the same capture time |
| `PollLoop.FlagshipStartup` | gqmqtt.go:40-114 | the default flags with a one-second interval and the default port listed start up as a GMC-500+ with width 4 at 115200 baud |
| `PollLoop.ThreeReadingsScenario` | gqmqtt.go:33-149 | the GMC-500+ at the defaults, with a one-second interval and replies 00000005, 00000007 and 00000009 publishes "5", "7" and "9" |

## Left out

- Argument parsing and verbose printing (`flag`, `fmt.Printf`): these are process plumbing. The model starts from the parsed values, and the verbose flag is dropped.
- PollLoop.Overwrite: this is an assumption about go.bug.st/serial's Read, not a promise of `io.Reader`. The model takes a read of `n` bytes to leave the bytes past `n` as they were. `io.Reader` allows the whole buffer to be used as scratch space. `PollLoop.ReadInto` and `PollLoop.ShortReadReusesLastByte` rest on the same assumption.
- Serial I/O (`GetPortsList`, `Open`, `SetMode`, `Write`, `Read`) is foreign library code. Only its results are inputs: the port list or its error, the errors of Open and SetMode, and one cycle outcome per iteration. The model assumes a read never returns more bytes than the buffer holds, which Go's reader contract guarantees. The bytes of the query command `<GETCPM>>` are a constant and are not recorded per cycle.
- The MQTT client is network I/O and library state. Its construction is modelled as the options it is given, and the connect result is an input. The reconnect-if-disconnected step of `publish`, the tokens and `Wait` are left out; only topic, payload, QoS and retain are recorded.
- `log.Fatal` and `os.Exit` become `Failure` results and the `Fatal` outcome. The unreachable `break` after `log.Fatal` has no counterpart.
- `time.Sleep` is wall-clock behaviour, and `time.Now` is supplied as text per cycle.
- The JSON payload is modelled as its three fields, not as the indented text of `encoding/json`. The marshalling error path is left out: marshalling three string fields does not fail.
- `PollLoop.FormatPayload` renders `int(cpm)` as on a 64-bit platform. On a 32-bit platform, `int` would make readings of 2^31 and above negative; that wrap is not modelled.
- Concurrency: there is none in the core. The MQTT client's own background activity is not modelled.

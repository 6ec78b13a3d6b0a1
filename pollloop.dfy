/**
 * The poll loop of main: each cycle writes the query command, reads into the
 * one reused buffer of cSize bytes, stops on an error or on a read shorter
 * than cSize - 1, and otherwise decodes the whole buffer and publishes the
 * reading. The serial and broker calls are inputs: one Cycle per iteration
 * says how the write and the read went.
 */
module PollLoop {
  import opened Wrappers
  import opened Decimal
  import opened CpmDecoder
  import opened StartupChecks

  const GetCpmCommand: string := "<GETCPM>>"

  /**
   * One iteration as the device and the clock answer it: writing GetCpmCommand
   * failed, the read failed, or the read returned data; now is the RFC 3339
   * text of time.Now.
   */
  datatype Cycle =
    | WriteFailed(err: string)
    | ReadFailed(err: string)
    | ReadOk(data: seq<byte>, now: string)

  /** How the loop ends: Polling means the simulated cycles ran out while the loop would go on. */
  datatype Outcome = Polling | Eof | Fatal(err: string)

  /** A plain decimal payload, or the three fields of the JSON document. */
  datatype Payload = Plain(text: string) | Json(time: string, cpm: string, sleep: string)

  /** What one publish call sends. */
  datatype Message = Message(topic: string, payload: Payload, qos: nat, retained: bool)

  datatype Trace = Trace(published: seq<Message>, outcome: Outcome)

  function FormatPayload(cfg: Config, cpm: uint32, now: string): (p: Payload)
    ensures p.Plain? <==> !cfg.json
    ensures p.Plain? ==> ParseNat(p.text) == Some(cpm as nat)
    ensures p.Json? ==> p.time == now && ParseNat(p.cpm) == Some(cpm as nat)
                        && ParseNat(p.sleep) == Some(cfg.interval as nat)
  {
    FormatThenParse(cpm);
    FormatThenParse(cfg.interval);
    if !cfg.json then Plain(FormatNat(cpm)) else Json(now, FormatNat(cpm), FormatNat(cfg.interval))
  }

  /** publish: QoS 0, retain false. */
  function Publish(topic: string, payload: Payload): (m: Message)
    ensures m.qos == 0 && !m.retained
    ensures m.topic == topic && m.payload == payload
  {
    Message(topic, payload, 0, false)
  }

  /** A cycle that ends the loop: a failed write or read, or a read of fewer than width - 1 bytes. */
  predicate Stops(c: Cycle, width: nat) {
    c.WriteFailed? || c.ReadFailed? || |c.data| < width - 1
  }

  function StopOutcome(c: Cycle): Outcome {
    match c
    case WriteFailed(e) => Fatal(e)
    case ReadFailed(e) => Fatal(e)
    case ReadOk(_, _) => Eof
  }

  /** A serial Read never returns more bytes than the buffer holds. */
  predicate ReadsFit(cycles: seq<Cycle>, width: nat) {
    forall i | 0 <= i < |cycles| :: cycles[i].ReadOk? ==> |cycles[i].data| <= width
  }

  /** Read(buff) with n bytes: overwrites the first n bytes and leaves the rest as they were. */
  function Overwrite(buff: seq<byte>, data: seq<byte>): seq<byte>
    requires |data| <= |buff|
  {
    data + buff[|data|..]
  }

  function Zeros(n: nat): seq<byte> {
    seq(n, _ => 0)
  }

  function Prepend(msgs: seq<Message>, t: Trace): Trace {
    Trace(msgs + t.published, t.outcome)
  }

  /** The loop from a given buffer content over the given cycles. */
  function Run(cfg: Config, buff: seq<byte>, cycles: seq<Cycle>): (t: Trace)
    requires |buff| == cfg.width && ReadsFit(cycles, cfg.width)
    ensures |t.published| <= |cycles|
    ensures t.outcome == Polling ==> |t.published| == |cycles|
    decreases |cycles|
  {
    if cycles == [] then Trace([], Polling)
    else
      match cycles[0]
      case WriteFailed(e) => Trace([], Fatal(e))
      case ReadFailed(e) => Trace([], Fatal(e))
      case ReadOk(data, now) =>
        var next := Overwrite(buff, data);
        if |data| < cfg.width - 1 then Trace([], Eof)
        else
          var cpm := BytesToCpmValue(next).value;
          Prepend([Publish(cfg.topic, FormatPayload(cfg, cpm, now))], Run(cfg, next, cycles[1..]))
  }

  /** The loop as main starts it, with the freshly made (zeroed) buffer. */
  function Loop(cfg: Config, cycles: seq<Cycle>): (t: Trace)
    requires ReadsFit(cycles, cfg.width)
    ensures |t.published| <= |cycles|
    ensures t.published != [] ==> !Stops(cycles[0], cfg.width)
  {
    Run(cfg, Zeros(cfg.width), cycles)
  }

  /** The cycle at the head, unfolded: a stop ends the trace, an accepted read publishes and goes on. */
  lemma RunStep(cfg: Config, buff: seq<byte>, cycles: seq<Cycle>)
    requires |buff| == cfg.width && ReadsFit(cycles, cfg.width) && cycles != []
    ensures ReadsFit(cycles[1..], cfg.width)
    ensures Stops(cycles[0], cfg.width) ==> Run(cfg, buff, cycles) == Trace([], StopOutcome(cycles[0]))
    ensures !Stops(cycles[0], cfg.width) ==>
              var next := Overwrite(buff, cycles[0].data);
              Run(cfg, buff, cycles)
              == Prepend([Publish(cfg.topic, FormatPayload(cfg, BytesToCpmValue(next).value, cycles[0].now))],
                         Run(cfg, next, cycles[1..]))
  {
    ReadsFitTail(cycles, cfg.width);
  }

  lemma PrependTwice(p: seq<Message>, m: Message, t: Trace)
    ensures Prepend(p, Prepend([m], t)) == Prepend(p + [m], t)
  {
    assert p + ([m] + t.published) == (p + [m]) + t.published;
  }

  /** The effect of a successful port.Read(buff) on the buffer, returning n. */
  method ReadInto(buff: array<byte>, data: seq<byte>) returns (n: nat)
    requires |data| <= buff.Length
    modifies buff
    ensures n == |data| && buff[..] == Overwrite(old(buff[..]), data)
  {
    n := |data|;
    forall j | 0 <= j < n {
      buff[j] := data[j];
    }
  }

  /** The loop of main over one buffer array that each read overwrites. */
  method RunPollLoop(cfg: Config, cycles: seq<Cycle>) returns (published: seq<Message>, outcome: Outcome)
    requires ReadsFit(cycles, cfg.width)
    ensures Trace(published, outcome) == Loop(cfg, cycles)
  {
    var buff := new byte[cfg.width](_ => 0);
    assert buff[..] == Zeros(cfg.width);
    published, outcome := [], Polling;
    var i := 0;
    while i < |cycles|
      invariant 0 <= i <= |cycles| && buff.Length == cfg.width
      invariant ReadsFit(cycles[i..], cfg.width)
      invariant Loop(cfg, cycles) == Prepend(published, Run(cfg, buff[..], cycles[i..]))
    {
      var c := cycles[i];
      ghost var before := buff[..];
      ghost var rest := cycles[i..];
      RunStep(cfg, before, rest);
      assert rest[0] == c && rest[1..] == cycles[i + 1..];
      if c.WriteFailed? {
        outcome := Fatal(c.err);
        return;
      }
      if c.ReadFailed? {
        outcome := Fatal(c.err);
        return;
      }
      var n := ReadInto(buff, c.data);
      if n < cfg.width - 1 {
        outcome := Eof;
        return;
      }
      var decoded := BytesToCpmValue(buff[..]);
      var data := FormatPayload(cfg, decoded.value, c.now);
      var msg := Publish(cfg.topic, data);
      assert Run(cfg, before, rest) == Prepend([msg], Run(cfg, buff[..], cycles[i + 1..]));
      PrependTwice(published, msg, Run(cfg, buff[..], cycles[i + 1..]));
      published := published + [msg];
      i := i + 1;
    }
  }

  /** Every message goes to the configured topic with QoS 0 and no retention, at most one per cycle. */
  lemma {:induction false} RunFireAndForget(cfg: Config, buff: seq<byte>, cycles: seq<Cycle>)
    requires |buff| == cfg.width && ReadsFit(cycles, cfg.width)
    ensures var t := Run(cfg, buff, cycles);
            && |t.published| <= |cycles|
            && forall k | 0 <= k < |t.published| ::
                 t.published[k].topic == cfg.topic && t.published[k].qos == 0 && !t.published[k].retained
    decreases |cycles|
  {
    if cycles != [] && cycles[0].ReadOk? && |cycles[0].data| >= cfg.width - 1 {
      ReadsFitTail(cycles, cfg.width);
      RunFireAndForget(cfg, Overwrite(buff, cycles[0].data), cycles[1..]);
    }
  }

  lemma ReadsFitTail(cycles: seq<Cycle>, width: nat)
    requires cycles != [] && ReadsFit(cycles, width)
    ensures ReadsFit(cycles[1..], width)
  {
    forall i | 0 <= i < |cycles| - 1 ensures cycles[1..][i] == cycles[i + 1] { }
  }

  /** The message a full read publishes: the decimal (or JSON) form of the reply's value, QoS 0, no retain. */
  function FullReadMessage(cfg: Config, c: Cycle): Message
    requires c.ReadOk?
  {
    Publish(cfg.topic, FormatPayload(cfg, BytesToCpmValue(c.data).value, c.now))
  }

  /** One full read: its message comes first, and the loop goes on from a buffer holding that read. */
  lemma FullReadStep(cfg: Config, buff: seq<byte>, cycles: seq<Cycle>)
    requires |buff| == cfg.width && ReadsFit(cycles, cfg.width)
    requires cycles != [] && cycles[0].ReadOk? && |cycles[0].data| == cfg.width
    ensures ReadsFit(cycles[1..], cfg.width)
    ensures Run(cfg, buff, cycles)
         == Prepend([FullReadMessage(cfg, cycles[0])], Run(cfg, cycles[0].data, cycles[1..]))
  {
    RunStep(cfg, buff, cycles);
    assert Overwrite(buff, cycles[0].data) == cycles[0].data;
  }

  /** The trace of a run of full reads: one message per read, still polling. */
  function FullReadsTrace(cfg: Config, cycles: seq<Cycle>): Trace
    requires forall i | 0 <= i < |cycles| :: cycles[i].ReadOk?
  {
    if cycles == [] then Trace([], Polling)
    else Prepend([FullReadMessage(cfg, cycles[0])], FullReadsTrace(cfg, cycles[1..]))
  }

  lemma {:induction false} FullReadsTraceAt(cfg: Config, cycles: seq<Cycle>)
    requires forall i | 0 <= i < |cycles| :: cycles[i].ReadOk?
    ensures var t := FullReadsTrace(cfg, cycles);
            && t.outcome == Polling && |t.published| == |cycles|
            && forall k | 0 <= k < |cycles| :: t.published[k] == FullReadMessage(cfg, cycles[k])
  {
    if cycles != [] {
      FullReadsTraceAt(cfg, cycles[1..]);
    }
  }

  lemma {:induction false} RunIsFullReadsTrace(cfg: Config, buff: seq<byte>, cycles: seq<Cycle>)
    requires |buff| == cfg.width
    requires forall i | 0 <= i < |cycles| :: cycles[i].ReadOk? && |cycles[i].data| == cfg.width
    ensures ReadsFit(cycles, cfg.width)
    ensures Run(cfg, buff, cycles) == FullReadsTrace(cfg, cycles)
    decreases |cycles|
  {
    if cycles != [] {
      var tail := cycles[1..];
      assert forall i | 0 <= i < |tail| :: tail[i] == cycles[i + 1];
      FullReadStep(cfg, buff, cycles);
      RunIsFullReadsTrace(cfg, cycles[0].data, tail);
    }
  }

  /**
   * Over full reads (each filling the whole buffer) the loop keeps polling and
   * publishes one message per read, in order, carrying the decoded reply.
   */
  lemma RunFullReads(cfg: Config, buff: seq<byte>, cycles: seq<Cycle>)
    requires |buff| == cfg.width
    requires forall i | 0 <= i < |cycles| :: cycles[i].ReadOk? && |cycles[i].data| == cfg.width
    ensures ReadsFit(cycles, cfg.width)
    ensures var t := Run(cfg, buff, cycles);
            && t.outcome == Polling && |t.published| == |cycles|
            && forall k | 0 <= k < |cycles| :: t.published[k] == FullReadMessage(cfg, cycles[k])
  {
    RunIsFullReadsTrace(cfg, buff, cycles);
    FullReadsTraceAt(cfg, cycles);
  }

  /**
   * The first stopping cycle ends the loop: the messages are those of the
   * cycles before it, the outcome is Eof or the I/O error, and the cycles
   * after it play no part.
   */
  lemma {:induction false} RunStopsAtFirstStop(cfg: Config, buff: seq<byte>, cycles: seq<Cycle>, k: nat)
    requires |buff| == cfg.width && ReadsFit(cycles, cfg.width)
    requires k < |cycles| && Stops(cycles[k], cfg.width)
    requires forall j | 0 <= j < k :: !Stops(cycles[j], cfg.width)
    ensures ReadsFit(cycles[..k + 1], cfg.width)
    ensures var t := Run(cfg, buff, cycles);
            && |t.published| == k && t.outcome == StopOutcome(cycles[k])
            && t == Run(cfg, buff, cycles[..k + 1])
    decreases |cycles|
  {
    assert ReadsFit(cycles[..k + 1], cfg.width) by {
      forall i | 0 <= i < k + 1 ensures cycles[..k + 1][i] == cycles[i] { }
    }
    if k > 0 {
      ReadsFitTail(cycles, cfg.width);
      var next := Overwrite(buff, cycles[0].data);
      RunStopsAtFirstStop(cfg, next, cycles[1..], k - 1);
      assert cycles[..k + 1][1..] == cycles[1..][..k];
    }
  }

  /** The loop is still polling exactly when no cycle stopped it; then every cycle published once. */
  lemma {:induction false} RunPollingIff(cfg: Config, buff: seq<byte>, cycles: seq<Cycle>)
    requires |buff| == cfg.width && ReadsFit(cycles, cfg.width)
    ensures Run(cfg, buff, cycles).outcome == Polling <==> forall j | 0 <= j < |cycles| :: !Stops(cycles[j], cfg.width)
    ensures Run(cfg, buff, cycles).outcome == Polling ==> |Run(cfg, buff, cycles).published| == |cycles|
    decreases |cycles|
  {
    if cycles != [] && !Stops(cycles[0], cfg.width) {
      ReadsFitTail(cycles, cfg.width);
      RunPollingIff(cfg, Overwrite(buff, cycles[0].data), cycles[1..]);
      assert forall j | 1 <= j < |cycles| :: cycles[j] == cycles[1..][j - 1];
    }
  }

  /**
   * The buffer always has the configured width, so for a validated
   * configuration (width 2 or 4) the discarded decode error is never set.
   */
  lemma AcceptedReadDecodes(cfg: Config, buff: seq<byte>, data: seq<byte>)
    requires cfg.width == 2 || cfg.width == 4
    requires |buff| == cfg.width && cfg.width - 1 <= |data| <= cfg.width
    ensures BytesToCpmValue(Overwrite(buff, data)).err == None
    ensures BytesToCpmValue(Overwrite(buff, data)).value == BigEndianValue(Overwrite(buff, data))
  {
    DecodeIsBigEndian(Overwrite(buff, data));
  }

  /**
   * A read of width - 1 bytes is accepted, and the last byte decoded is the
   * one left in the buffer by the previous read.
   */
  lemma ShortReadReusesLastByte(cfg: Config, buff: seq<byte>, data: seq<byte>, now: string)
    requires |buff| == cfg.width && cfg.width >= 1 && |data| == cfg.width - 1
    ensures ReadsFit([ReadOk(data, now)], cfg.width)
    ensures Run(cfg, buff, [ReadOk(data, now)]).published
         == [Publish(cfg.topic, FormatPayload(cfg, BytesToCpmValue(data + [buff[cfg.width - 1]]).value, now))]
  {
    assert Overwrite(buff, data) == data + [buff[cfg.width - 1]];
  }

  /**
   * A payload identifies its reading: two cycles publish the same payload
   * only for the same value (and, in JSON form, the same capture time).
   */
  lemma PayloadDeterminesReading(cfg: Config, a: uint32, b: uint32, nowA: string, nowB: string)
    requires FormatPayload(cfg, a, nowA) == FormatPayload(cfg, b, nowB)
    ensures a == b
    ensures cfg.json ==> nowA == nowB
  {
    FormatInjective(a, b);
  }

  /** The settings of the flagship model at the defaults with a one-second interval. */
  function FlagshipOptions(): Options {
    Options("/dev/ttyUSB0", 115200, "GMC-500+", "tele/geiger/cpm", "tcp://localhost:1883", 1, "", "", false)
  }

  function FlagshipConfig(): Config {
    Config("/dev/ttyUSB0", SerialMode(115200, NoParity, 8, OneStopBit), "GMC-500+", 4,
           "tele/geiger/cpm", 1, false, ClientOptions("tcp://localhost:1883", None, None, ClientId))
  }

  /** A host that lists the default port and where every call succeeds. */
  function FlagshipHost(): HostResults {
    HostResults(Success(["/dev/ttyUSB0"]), None, None, None)
  }

  lemma FlagshipStartup()
    ensures Startup(FlagshipOptions(), FlagshipHost()) == Success(FlagshipConfig())
  {
    assert GoInt(115200) == 115200 && 115200 in BaudRates && Gmc500Plus in Models;
  }

  lemma PlainReading(b3: byte, now: string, text: string)
    requires b3 < 10 && text == [DigitChar(b3)]
    ensures FullReadMessage(FlagshipConfig(), ReadOk([0, 0, 0, b3], now))
         == Message("tele/geiger/cpm", Plain(text), 0, false)
  {
    assert BytesToCpmValue([0, 0, 0, b3]).value == b3;
  }

  /**
   * The flagship model at the defaults with a one-second interval, answering
   * 00000005, 00000007 and 00000009, publishes "5", "7" and "9".
   */
  lemma ThreeReadingsScenario(now: string)
    ensures var opts := FlagshipOptions();
            var host := FlagshipHost();
            var cycles := [ReadOk([0, 0, 0, 5], now), ReadOk([0, 0, 0, 7], now), ReadOk([0, 0, 0, 9], now)];
            && Startup(opts, host).Success?
            && ReadsFit(cycles, Startup(opts, host).value.width)
            && Loop(Startup(opts, host).value, cycles)
               == Trace([Message("tele/geiger/cpm", Plain("5"), 0, false),
                         Message("tele/geiger/cpm", Plain("7"), 0, false),
                         Message("tele/geiger/cpm", Plain("9"), 0, false)], Polling)
  {
    var cycles := [ReadOk([0, 0, 0, 5], now), ReadOk([0, 0, 0, 7], now), ReadOk([0, 0, 0, 9], now)];
    var cfg := FlagshipConfig();
    FlagshipStartup();
    RunFullReads(cfg, Zeros(4), cycles);
    PlainReading(5, now, "5");
    PlainReading(7, now, "7");
    PlainReading(9, now, "9");
    var t := Loop(cfg, cycles);
    assert t.published[0] == FullReadMessage(cfg, cycles[0]);
    assert t.published[1] == FullReadMessage(cfg, cycles[1]);
    assert t.published[2] == FullReadMessage(cfg, cycles[2]);
  }
}

/**
 * The start-up checks of main: the allowed baud rates and models, the serial
 * port lookup, the GMC-280 baud-rate cap and the model-derived response width.
 * The results of the host calls (the port list, opening the port, setting its
 * mode, connecting to the broker) are inputs.
 */
module StartupChecks {
  import opened Wrappers
  import opened Decimal
  import opened Membership

  /** Go's uint (64 bits), the type of the -b and -i flags. */
  type uint = x: int | 0 <= x < 0x1_0000_0000_0000_0000

  const BaudRates: seq<int> := [2400, 4800, 9600, 14400, 19200, 28800, 38400, 57600, 115200]
  const Gmc500Plus: string := "GMC-500+"
  const Gmc320: string := "GMC-320"
  const Gmc280: string := "GMC-280"
  const Models: seq<string> := [Gmc500Plus, Gmc320, Gmc280]
  const Gmc280MaxBaudRate: nat := 57600
  const ClientId: string := "Geiger Counter"

  /** The parsed command-line flags (the verbose flag only affects printing). */
  datatype Options = Options(
    serPort: string, baudRate: uint, model: string, topic: string, host: string,
    interval: uint, user: string, pwd: string, json: bool)

  /** What the host calls return: the port list or its error, and the errors of Open, SetMode and Connect. */
  datatype HostResults = HostResults(
    ports: Result<seq<string>, string>, openError: Option<string>,
    setModeError: Option<string>, connectError: Option<string>)

  datatype Parity = NoParity
  datatype StopBits = OneStopBit
  datatype SerialMode = SerialMode(baudRate: int, parity: Parity, dataBits: nat, stopBits: StopBits)

  datatype ClientOptions = ClientOptions(
    broker: string, password: Option<string>, username: Option<string>, clientId: string)

  /** The validated settings the poll loop runs with; width is cSize, the response length in bytes. */
  datatype Config = Config(
    serPort: string, mode: SerialMode, model: string, width: nat, topic: string,
    interval: uint, json: bool, client: ClientOptions)

  datatype StartupError =
    | InvalidBaudRate
    | InvalidModel
    | PortsListFailed(err: string)
    | NoSerialPorts
    | SerialPortNotFound
    | OpenFailed(err: string)
    | SetModeFailed(err: string)
    | ConnectFailed(err: string)
    | BaudRateTooHigh(baudRate: uint)

  /** The text passed to log.Fatal for each error. */
  function ErrorMessage(e: StartupError): (m: string)
    ensures (e.PortsListFailed? || e.OpenFailed? || e.SetModeFailed? || e.ConnectFailed?) ==> m == e.err
    ensures !(e.PortsListFailed? || e.OpenFailed? || e.SetModeFailed? || e.ConnectFailed?) ==> |m| > 0
  {
    match e
    case InvalidBaudRate => "invalid baud rate"
    case InvalidModel => "invalid Geiger Counter model"
    case PortsListFailed(err) => err
    case NoSerialPorts => "no serial ports found!"
    case SerialPortNotFound => "serial port not found!"
    case OpenFailed(err) => err
    case SetModeFailed(err) => err
    case ConnectFailed(err) => err
    case BaudRateTooHigh(b) => "max. baud rate for selected model is 57600, but using " + FormatNat(b)
  }

  /** int(x) for a Go uint on a 64-bit platform: two's-complement reinterpretation. */
  function GoInt(x: uint): (r: int)
    ensures -0x8000_0000_0000_0000 <= r < 0x8000_0000_0000_0000
    ensures r % 0x1_0000_0000_0000_0000 == x
    ensures x < 0x8000_0000_0000_0000 ==> r == x
  {
    if x < 0x8000_0000_0000_0000 then x else x - 0x1_0000_0000_0000_0000
  }

  /** cSize: 4 for the GMC-500+, 2 for every other model. */
  function ResponseWidth(model: string): (w: nat)
    ensures w == 2 || w == 4
    ensures w == 4 <==> model == Gmc500Plus
  {
    if model != Gmc500Plus then 2 else 4
  }

  /** createMqttClient's options: the password and user name are set only when non-empty. */
  function MqttClientOptions(host: string, user: string, pwd: string): (c: ClientOptions)
    ensures c.broker == host && c.clientId == "Geiger Counter"
    ensures c.username.Some? <==> user != ""
    ensures c.username.Some? ==> c.username.value == user
    ensures c.password.Some? <==> pwd != ""
    ensures c.password.Some? ==> c.password.value == pwd
  {
    ClientOptions(host, if pwd != "" then Some(pwd) else None,
                  if user != "" then Some(user) else None, ClientId)
  }

  function SerialModeFor(baudRate: uint): SerialMode {
    SerialMode(GoInt(baudRate), NoParity, 8, OneStopBit)
  }

  /** The outcome of start-up, check by check in the order main runs them. */
  function Startup(opts: Options, host: HostResults): (r: Result<Config, StartupError>)
    ensures r.Success? ==> opts.baudRate in BaudRates && opts.model in Models && HostOk(opts, host)
    ensures r.Success? ==> r.value.width == ResponseWidth(opts.model) && r.value.serPort == opts.serPort
    ensures r.Success? && opts.model == Gmc280 ==> opts.baudRate <= Gmc280MaxBaudRate
    ensures r == Failure(InvalidBaudRate) <==> opts.baudRate !in BaudRates
  {
    if GoInt(opts.baudRate) !in BaudRates then Failure(InvalidBaudRate)
    else if opts.model !in Models then Failure(InvalidModel)
    else if host.ports.Failure? then Failure(PortsListFailed(host.ports.error))
    else if |host.ports.value| == 0 then Failure(NoSerialPorts)
    else if opts.serPort !in host.ports.value then Failure(SerialPortNotFound)
    else if host.openError.Some? then Failure(OpenFailed(host.openError.value))
    else if host.setModeError.Some? then Failure(SetModeFailed(host.setModeError.value))
    else if host.connectError.Some? then Failure(ConnectFailed(host.connectError.value))
    else if opts.model == Gmc280 && opts.baudRate > Gmc280MaxBaudRate then Failure(BaudRateTooHigh(opts.baudRate))
    else Success(Config(opts.serPort, SerialModeFor(opts.baudRate), opts.model, ResponseWidth(opts.model),
                        opts.topic, opts.interval, opts.json, MqttClientOptions(opts.host, opts.user, opts.pwd)))
  }

  /** The checks as main performs them, with the port lookup loop and the reassignment of cSize. */
  method CheckStartup(opts: Options, host: HostResults) returns (r: Result<Config, StartupError>)
    ensures r == Startup(opts, host)
  {
    var cSize := 4;
    var foundPort := false;
    var ok := IsElementInArray(GoInt(opts.baudRate), BaudRates);
    if !ok {
      return Failure(InvalidBaudRate);
    }
    ok := IsElementInArray(opts.model, Models);
    if !ok {
      return Failure(InvalidModel);
    }
    if host.ports.Failure? {
      return Failure(PortsListFailed(host.ports.error));
    }
    var ports := host.ports.value;
    if |ports| == 0 {
      return Failure(NoSerialPorts);
    }
    for i := 0 to |ports|
      invariant foundPort <==> opts.serPort in ports[..i]
    {
      if opts.serPort == ports[i] {
        foundPort := true;
      }
    }
    assert ports[..|ports|] == ports;
    if !foundPort {
      return Failure(SerialPortNotFound);
    }
    var mode := SerialMode(GoInt(opts.baudRate), NoParity, 8, OneStopBit);
    if host.openError.Some? {
      return Failure(OpenFailed(host.openError.value));
    }
    if host.setModeError.Some? {
      return Failure(SetModeFailed(host.setModeError.value));
    }
    if host.connectError.Some? {
      return Failure(ConnectFailed(host.connectError.value));
    }
    var client := MqttClientOptions(opts.host, opts.user, opts.pwd);
    if opts.model == Gmc280 {
      if opts.baudRate > 57600 {
        return Failure(BaudRateTooHigh(opts.baudRate));
      }
    }
    if opts.model != Gmc500Plus {
      cSize := 2;
    }
    return Success(Config(opts.serPort, mode, opts.model, cSize, opts.topic, opts.interval, opts.json, client));
  }

  /** Every host is fine: the ports are listed and nothing fails. */
  predicate HostOk(opts: Options, host: HostResults) {
    && host.ports.Success? && |host.ports.value| > 0 && opts.serPort in host.ports.value
    && host.openError.None? && host.setModeError.None? && host.connectError.None?
  }

  /** A baud rate outside the nine allowed ones is rejected first, whatever else holds. */
  lemma RejectsUnlistedBaudRate(opts: Options, host: HostResults)
    requires opts.baudRate !in BaudRates
    ensures Startup(opts, host) == Failure(InvalidBaudRate)
  {
  }

  /** With an allowed baud rate, a model outside the three allowed ones is rejected. */
  lemma RejectsUnlistedModel(opts: Options, host: HostResults)
    requires opts.baudRate in BaudRates && opts.model !in Models
    ensures Startup(opts, host) == Failure(InvalidModel)
  {
  }

  /**
   * Port lookup, once baud rate and model are allowed and the port list is
   * available: an empty list fails, otherwise the lookup fails exactly when
   * the requested port is absent.
   */
  lemma PortLookup(opts: Options, host: HostResults)
    requires opts.baudRate in BaudRates && opts.model in Models && host.ports.Success?
    ensures host.ports.value == [] ==> Startup(opts, host) == Failure(NoSerialPorts)
    ensures host.ports.value != [] ==>
              (Startup(opts, host) == Failure(SerialPortNotFound) <==> opts.serPort !in host.ports.value)
  {
  }

  /** A GMC-280 above 57600 baud never starts. */
  lemma Gmc280Capped(opts: Options, host: HostResults)
    requires opts.model == Gmc280 && opts.baudRate > 57600
    ensures Startup(opts, host).Failure?
  {
    if opts.baudRate in BaudRates {
      assert opts.baudRate == 115200;
    }
  }

  /** The cap is tested only after the port is opened: an open failure is reported instead. */
  /**
   * The cap is tested only after the port is opened, its mode set and the
   * broker connected: a failure of any of these is reported instead.
   */
  lemma Gmc280CapAfterOpen(opts: Options, host: HostResults)
    requires opts.model == Gmc280 && opts.baudRate == 115200
    requires host.ports.Success? && opts.serPort in host.ports.value
    ensures host.openError.Some? ==> Startup(opts, host) == Failure(OpenFailed(host.openError.value))
    ensures host.openError.None? && host.setModeError.Some? ==>
              Startup(opts, host) == Failure(SetModeFailed(host.setModeError.value))
    ensures host.openError.None? && host.setModeError.None? && host.connectError.Some? ==>
              Startup(opts, host) == Failure(ConnectFailed(host.connectError.value))
    ensures host.openError.None? && host.setModeError.None? && host.connectError.None? ==>
              Startup(opts, host) == Failure(BaudRateTooHigh(115200))
  {
  }

  /** The errors main raises itself, as opposed to errors of the host calls logged as they are. */
  predicate OwnError(e: StartupError) {
    !(e.PortsListFailed? || e.OpenFailed? || e.SetModeFailed? || e.ConnectFailed?)
  }

  /** The log line of each of main's own checks tells which check failed, and at which baud rate. */
  lemma OwnErrorMessagesDistinct(e1: StartupError, e2: StartupError)
    requires OwnError(e1) && OwnError(e2)
    requires ErrorMessage(e1) == ErrorMessage(e2)
    ensures e1 == e2
  {
    var prefix := "max. baud rate for selected model is 57600, but using ";
    if e1.BaudRateTooHigh? && e2.BaudRateTooHigh? {
      assert ErrorMessage(e1)[|prefix|..] == FormatNat(e1.baudRate);
      assert ErrorMessage(e2)[|prefix|..] == FormatNat(e2.baudRate);
      FormatInjective(e1.baudRate, e2.baudRate);
    }
  }

  /** The cap names the offending baud rate in its message. */
  lemma BaudRateTooHighMessage(b: uint)
    ensures var m := ErrorMessage(BaudRateTooHigh(b));
            var prefix := "max. baud rate for selected model is 57600, but using ";
            |m| > |prefix| && m[..|prefix|] == prefix && ParseNat(m[|prefix|..]) == Some(b)
  {
    var prefix := "max. baud rate for selected model is 57600, but using ";
    var m := ErrorMessage(BaudRateTooHigh(b));
    assert m[|prefix|..] == FormatNat(b);
    FormatThenParse(b);
  }

  /**
   * Start-up succeeds exactly when every check passes; the configuration then
   * carries the response width derived from the model (4 exactly for the
   * GMC-500+), an 8N1 serial mode at the requested baud rate and the broker
   * options with credentials only where given.
   */
  lemma StartupSucceeds(opts: Options, host: HostResults)
    ensures Startup(opts, host).Success? <==>
              && opts.baudRate in BaudRates && opts.model in Models && HostOk(opts, host)
              && !(opts.model == Gmc280 && opts.baudRate > 57600)
    ensures Startup(opts, host).Success? ==>
              var cfg := Startup(opts, host).value;
              && (cfg.width == 4 <==> opts.model == Gmc500Plus)
              && (cfg.width == 2 <==> opts.model != Gmc500Plus)
              && cfg.mode == SerialMode(opts.baudRate, NoParity, 8, OneStopBit)
              && cfg.serPort == opts.serPort && cfg.model == opts.model && cfg.topic == opts.topic
              && cfg.interval == opts.interval && cfg.json == opts.json
              && cfg.client.broker == opts.host && cfg.client.clientId == "Geiger Counter"
              && (cfg.client.username.Some? <==> opts.user != "")
              && (cfg.client.password.Some? <==> opts.pwd != "")
  {
    if GoInt(opts.baudRate) in BaudRates {
      assert GoInt(opts.baudRate) == opts.baudRate;
    }
  }

  /** The GMC-320 is not capped: it starts at 115200 baud with a 2-byte response. */
  lemma Gmc320NotCapped(opts: Options, host: HostResults)
    requires opts.model == Gmc320 && opts.baudRate == 115200 && HostOk(opts, host)
    ensures Startup(opts, host).Success? && Startup(opts, host).value.width == 2
  {
  }
}

/** The display driver of devices/epd7in5bhd/display.go: the command
    sequences of Reset, Init, Render, Clear, Sleep and the busy-wait, issued
    through the hardware of hardware.go, and the wire encoders that pack an
    image into the two planes the panel expects.

    Every driver operation is a method of the class Display; its effect on
    the transport is stated as `Run` of a script of steps, and the lemmas
    below say what the panel receives for each script when no transfer
    fails. */
module Display {
  import opened Bytes
  import opened Geometry
  import opened Commands
  import opened Hardware
  import opened Protocol
  import Colors
  import Raster
  import Encoding

  /** The transfer limit New gives the hardware. */
  const TxLimit: int := 4096

  /** One step of a script, on the transport: a reset-line change, a pause,
      one commandWriter.Write of the opcode and its parameters, or a
      busy-wait that settles for 10 ms. */
  function Apply(w: Wire, s: Step, limit: int): (w': Wire)
    requires limit > 0
    ensures w.trace <= w'.trace
  {
    match s
    case Pulse(level) => OutW(w, RST, level).0
    case Delay(millis) => PauseW(w, millis)
    case Send(op, data) => CommandWriteW(w, [op] + data, limit).wire
    case AwaitIdle => WaitIdleW(w, 10)
  }

  function Run(w: Wire, steps: seq<Step>, limit: int): (w': Wire)
    requires limit > 0
    ensures w.trace <= w'.trace
    decreases |steps|
  {
    if steps == [] then w else Apply(Run(w, steps[..|steps| - 1], limit), steps[|steps| - 1], limit)
  }

  lemma RunSnoc(w: Wire, steps: seq<Step>, s: Step, limit: int)
    requires limit > 0
    ensures Run(w, steps + [s], limit) == Apply(Run(w, steps, limit), s, limit)
  {
    assert (steps + [s])[..|steps|] == steps;
  }

  /** One more step of a script extends its run by that step. */
  lemma RunPrefix(w: Wire, steps: seq<Step>, k: int, limit: int)
    requires 0 <= k < |steps| && limit > 0
    ensures Run(w, steps[..k + 1], limit) == Apply(Run(w, steps[..k], limit), steps[k], limit)
  {
    assert steps[..k + 1][..k] == steps[..k];
  }

  lemma {:induction false} RunAppend(w: Wire, a: seq<Step>, b: seq<Step>, limit: int)
    requires limit > 0
    ensures Run(w, a + b, limit) == Run(Run(w, a, limit), b, limit)
    decreases |b|
  {
    if b == [] {
      assert a + b == a;
    } else {
      var b' := b[..|b| - 1];
      assert a + b == (a + b') + [b[|b| - 1]];
      assert b == b' + [b[|b| - 1]];
      RunSnoc(w, a + b', b[|b| - 1], limit);
      RunAppend(w, a, b', limit);
      RunSnoc(Run(w, a, limit), b', b[|b| - 1], limit);
    }
  }

  /** With no failing operation, the panel receives one signal per step:
      reset-line levels, commands with exactly their parameters (whatever
      the chunking of the data) and one idle signal per busy-wait. */
  lemma {:induction false} ApplyDecodes(p: Panel, w: Wire, s: Step, limit: int)
    requires Reliable(w) && limit > 0
    ensures var w' := Apply(w, s, limit);
      && Replay(p, Added(w, w')).log == p.log + Expected([s])
      && Reliable(w')
  {
    var w' := Apply(w, s, limit);
    ExpectedOne(s);
    match s
    case Pulse(level) =>
      assert Added(w, w') == [Out(RST, level, true)];
      assert [Out(RST, level, true)][..0] == [];
    case Delay(millis) =>
      assert Added(w, w') == [Pause(millis)];
      assert [Pause(millis)][..0] == [];
    case Send(op, data) =>
      CommandWriteDecodes(p, w, [op] + data, limit);
      assert ([op] + data)[1..] == data;
    case AwaitIdle =>
      WaitIdleDecodes(p, w, 10);
  }

  lemma {:induction false} RunDecodes(p: Panel, w: Wire, steps: seq<Step>, limit: int)
    requires Reliable(w) && limit > 0
    ensures var w' := Run(w, steps, limit);
      && Replay(p, Added(w, w')).log == p.log + Expected(steps)
      && Reliable(w')
    decreases |steps|
  {
    if steps == [] {
      assert Added(w, w) == [];
    } else {
      var init, s := steps[..|steps| - 1], steps[|steps| - 1];
      var w1 := Run(w, init, limit);
      RunDecodes(p, w, init, limit);
      ApplyDecodes(Replay(p, Added(w, w1)), w1, s, limit);
      SignalsStep(p, w, w1, Apply(w1, s, limit), Expected(init), Expected([s]));
      ExpectedAppend(init, [s]);
      StepsSnoc(steps);
    }
  }

  // ---------------------------------------------------------------------
  // The scripts of display.go.

  /** turnOnDisplay: load the waveform (0xC7), activate, wait 2 ms, then
      wait until idle. */
  const TurnOnScript: seq<Step> :=
    [Send(DisplayUpdateControl2, [0xC7]), Send(MasterActivation, []), Delay(2), AwaitIdle]

  /** Init after its reset pulse, in three parts: the refresh and the two
      auto-writes, each followed by a busy-wait; the panel configuration;
      loading the temperature and waveform, then the RAM address counters. */
  const InitWake: seq<Step> := [
    Send(DisplayRefresh, []), AwaitIdle,
    Send(AutoWriteRamRed, [0xF7]), AwaitIdle,
    Send(AutoWriteRamBW, [0xF7]), AwaitIdle]

  const InitConfig: seq<Step> := [
    Send(SoftStart, [0xAE, 0xC7, 0xC3, 0xC0, 0x40]),
    Send(SetGateDriver, [0xAF, 0x02, 0x01]),
    Send(DataEntryMode, [0x01]),
    Send(SetRamXStart, [0x00, 0x00, 0x6F, 0x03]),
    Send(SetRamYStart, [0xAF, 0x02, 0x00, 0x00]),
    Send(BorderWaveformControl, [0x01]),
    Send(TempSensorControl, [0x80])]

  const InitLoad: seq<Step> := [
    Send(DisplayUpdateControl2, [0xB1]),
    Send(MasterActivation, []), AwaitIdle,
    Send(SetRamXAddressCtr, [0x00, 0x00]),
    Send(SetRamYAddressCtr, [0xAF, 0x02])]

  const InitScript: seq<Step> := ResetScript + InitWake + InitConfig + InitLoad

  /** A plane padded to BufSize bytes with v; bytes.Repeat panics on a
      negative count, so the plane may be at most BufSize bytes. */
  function Padded(b: seq<byte>, v: byte): (s: seq<byte>)
    requires |b| <= BufSize
    ensures |s| == BufSize
    ensures forall i :: 0 <= i < BufSize ==> s[i] == if i < |b| then b[i] else v
  {
    b + Repeat(v, BufSize - |b|)
  }

  /** Render(b, r) and RenderPaletted, which send the planes as they are. */
  function PlanesScript(b: seq<byte>, r: seq<byte>): seq<Step>
  {
    [Send(SetRamYAddressCtr, [0xAF, 0x02]), Send(WriteRAMBW, b), Send(WriteRAMRed, r)] + TurnOnScript
  }

  const SleepScript: seq<Step> := [Send(DeepSleepMode, [0x01])]

  // ---------------------------------------------------------------------
  // What the panel receives.

  /** Init sends the reset pulse (High, Low, High), then exactly this
      sequence, with a busy-wait after the refresh, after each auto-write and
      after masterActivation. */
  lemma InitReceived(p: Panel, w: Wire)
    requires Reliable(w)
    ensures Replay(p, Added(w, Run(w, InitScript, TxLimit))).log == p.log
      + ([ResetLine(High), ResetLine(Low), ResetLine(High)]
      + [Command(0x12, []), Idle, Command(0x46, [0xF7]), Idle, Command(0x47, [0xF7]), Idle]
      + [Command(0x0C, [0xAE, 0xC7, 0xC3, 0xC0, 0x40]),
         Command(0x01, [0xAF, 0x02, 0x01]),
         Command(0x11, [0x01]),
         Command(0x44, [0x00, 0x00, 0x6F, 0x03]),
         Command(0x45, [0xAF, 0x02, 0x00, 0x00]),
         Command(0x3C, [0x01]),
         Command(0x18, [0x80])]
      + [Command(0x22, [0xB1]), Command(0x20, []), Idle, Command(0x4E, [0x00, 0x00]), Command(0x4F, [0xAF, 0x02])])
  {
    RunDecodes(p, w, InitScript, TxLimit);
    InitSignals();
    InitSignalParts();
  }

  lemma InitSignals()
    ensures Expected(InitScript) == Expected(ResetScript) + Expected(InitWake) + Expected(InitConfig) + Expected(InitLoad)
  {
    ExpectedAppend(ResetScript, InitWake);
    ExpectedAppend(ResetScript + InitWake, InitConfig);
    ExpectedAppend(ResetScript + InitWake + InitConfig, InitLoad);
  }

  lemma InitSignalParts()
    ensures Expected(ResetScript) + Expected(InitWake) + Expected(InitConfig) + Expected(InitLoad)
      == [ResetLine(High), ResetLine(Low), ResetLine(High)]
      + [Command(0x12, []), Idle, Command(0x46, [0xF7]), Idle, Command(0x47, [0xF7]), Idle]
      + [Command(0x0C, [0xAE, 0xC7, 0xC3, 0xC0, 0x40]),
         Command(0x01, [0xAF, 0x02, 0x01]),
         Command(0x11, [0x01]),
         Command(0x44, [0x00, 0x00, 0x6F, 0x03]),
         Command(0x45, [0xAF, 0x02, 0x00, 0x00]),
         Command(0x3C, [0x01]),
         Command(0x18, [0x80])]
      + [Command(0x22, [0xB1]), Command(0x20, []), Idle, Command(0x4E, [0x00, 0x00]), Command(0x4F, [0xAF, 0x02])]
  {
    ResetSignals();
    WakeSignals();
    ConfigSignals();
    LoadSignals();
  }

  lemma ResetSignals()
    ensures Expected(ResetScript) == [ResetLine(High), ResetLine(Low), ResetLine(High)]
  {
  }

  lemma WakeSignals()
    ensures Expected(InitWake) == [Command(0x12, []), Idle, Command(0x46, [0xF7]), Idle, Command(0x47, [0xF7]), Idle]
  {
    var s := [Send(0x12, []), AwaitIdle, Send(0x46, [0xF7]), AwaitIdle, Send(0x47, [0xF7]), AwaitIdle];
    assert InitWake == s;
    assert Expected(s) == [Command(0x12, []), Idle, Command(0x46, [0xF7]), Idle, Command(0x47, [0xF7]), Idle];
  }

  lemma ConfigSignals()
    ensures Expected(InitConfig) == [
      Command(0x0C, [0xAE, 0xC7, 0xC3, 0xC0, 0x40]),
      Command(0x01, [0xAF, 0x02, 0x01]),
      Command(0x11, [0x01]),
      Command(0x44, [0x00, 0x00, 0x6F, 0x03]),
      Command(0x45, [0xAF, 0x02, 0x00, 0x00]),
      Command(0x3C, [0x01]),
      Command(0x18, [0x80])]
  {
    var s := [
      Send(0x0C, [0xAE, 0xC7, 0xC3, 0xC0, 0x40]),
      Send(0x01, [0xAF, 0x02, 0x01]),
      Send(0x11, [0x01]),
      Send(0x44, [0x00, 0x00, 0x6F, 0x03]),
      Send(0x45, [0xAF, 0x02, 0x00, 0x00]),
      Send(0x3C, [0x01]),
      Send(0x18, [0x80])];
    assert InitConfig == s;
    assert Expected(s) == [
      Command(0x0C, [0xAE, 0xC7, 0xC3, 0xC0, 0x40]),
      Command(0x01, [0xAF, 0x02, 0x01]),
      Command(0x11, [0x01]),
      Command(0x44, [0x00, 0x00, 0x6F, 0x03]),
      Command(0x45, [0xAF, 0x02, 0x00, 0x00]),
      Command(0x3C, [0x01]),
      Command(0x18, [0x80])];
  }

  lemma LoadSignals()
    ensures Expected(InitLoad) == [Command(0x22, [0xB1]), Command(0x20, []), Idle, Command(0x4E, [0x00, 0x00]), Command(0x4F, [0xAF, 0x02])]
  {
    var s := [Send(0x22, [0xB1]), Send(0x20, []), AwaitIdle, Send(0x4E, [0x00, 0x00]), Send(0x4F, [0xAF, 0x02])];
    assert InitLoad == s;
    assert Expected(s) == [Command(0x22, [0xB1]), Command(0x20, []), Idle, Command(0x4E, [0x00, 0x00]), Command(0x4F, [0xAF, 0x02])];
  }

  lemma TurnOnSignals()
    ensures Expected(TurnOnScript) == [Command(0x22, [0xC7]), Command(0x20, []), Idle]
  {
    var s := [Send(0x22, [0xC7]), Send(0x20, []), Delay(2), AwaitIdle];
    assert TurnOnScript == s;
    assert Expected(s) == [Command(0x22, [0xC7]), Command(0x20, []), Idle];
  }

  /** Render and RenderPaletted send the row address, the black plane, the
      red plane, then turn the display on and wait for it. */
  lemma PlanesSignals(b: seq<byte>, r: seq<byte>)
    ensures Expected(PlanesScript(b, r)) ==
      [Command(0x4F, [0xAF, 0x02]), Command(0x24, b), Command(0x26, r), Command(0x22, [0xC7]), Command(0x20, []), Idle]
  {
    var a, x, y := Send(SetRamYAddressCtr, [0xAF, 0x02]), Send(WriteRAMBW, b), Send(WriteRAMRed, r);
    assert PlanesScript(b, r) == [a] + ([x] + ([y] + TurnOnScript));
    ExpectedAppend([a], [x] + ([y] + TurnOnScript));
    ExpectedAppend([x], [y] + TurnOnScript);
    ExpectedAppend([y], TurnOnScript);
    ExpectedOne(a);
    ExpectedOne(x);
    ExpectedOne(y);
    TurnOnSignals();
  }

  /** Render(b, r) sends the black plane padded with 0xFF (white) and the
      red plane padded with 0x00 (not red), each exactly BufSize bytes. */
  lemma RenderReceived(p: Panel, w: Wire, b: seq<byte>, r: seq<byte>)
    requires Reliable(w) && |b| <= BufSize && |r| <= BufSize
    ensures Replay(p, Added(w, Run(w, PlanesScript(Padded(b, 0xFF), Padded(r, 0x00)), TxLimit))).log == p.log + [
      Command(0x4F, [0xAF, 0x02]),
      Command(0x24, Padded(b, 0xFF)),
      Command(0x26, Padded(r, 0x00)),
      Command(0x22, [0xC7]),
      Command(0x20, []),
      Idle]
  {
    RunDecodes(p, w, PlanesScript(Padded(b, 0xFF), Padded(r, 0x00)), TxLimit);
    PlanesSignals(Padded(b, 0xFF), Padded(r, 0x00));
  }

  /** Clear sends a white black plane and an empty red plane. */
  lemma ClearPlanes()
    ensures Padded([], 0xFF) == Repeat(0xFF, BufSize)
    ensures Padded([], 0x00) == Repeat(0x00, BufSize)
  {
  }

  /** Sleep sends deepSleepMode with the single parameter 0x01. */
  lemma SleepReceived(p: Panel, w: Wire)
    requires Reliable(w)
    ensures Replay(p, Added(w, Run(w, SleepScript, TxLimit))).log == p.log + [Command(0x10, [0x01])]
  {
    RunDecodes(p, w, SleepScript, TxLimit);
    ExpectedOne(Send(DeepSleepMode, [0x01]));
  }

  // ---------------------------------------------------------------------
  // The driver.

  class Display {
    const hw: Hardware

    /** The Display New returns, over a transport with the given fault and
        busy scripts. */
    constructor (faults: seq<bool>, busy: seq<Level>)
      ensures fresh(hw) && hw.txLimit == TxLimit && hw.State() == Wire([], faults, busy)
    {
      hw := new Hardware(TxLimit, faults, busy);
    }

    /** Reset: the reset line High for 200 ms, Low for 2 ms, High for 200 ms;
        the pin errors are ignored. */
    method Reset()
      requires hw.txLimit > 0
      modifies hw
      ensures hw.State() == Run(old(hw.State()), ResetScript, hw.txLimit)
    {
      ghost var w0, done := hw.State(), [];
      var _ := hw.Out(RST, High);
      RunSnoc(w0, done, Pulse(High), hw.txLimit); done := done + [Pulse(High)];
      hw.Sleep(200);
      RunSnoc(w0, done, Delay(200), hw.txLimit); done := done + [Delay(200)];
      var _ := hw.Out(RST, Low);
      RunSnoc(w0, done, Pulse(Low), hw.txLimit); done := done + [Pulse(Low)];
      hw.Sleep(2);
      RunSnoc(w0, done, Delay(2), hw.txLimit); done := done + [Delay(2)];
      var _ := hw.Out(RST, High);
      RunSnoc(w0, done, Pulse(High), hw.txLimit); done := done + [Pulse(High)];
      hw.Sleep(200);
      RunSnoc(w0, done, Delay(200), hw.txLimit); done := done + [Delay(200)];
      assert done == ResetScript;
    }

    /** sendCommand: one commandWriter.Write of [op] ++ data; an error is
        only logged. */
    method SendCommand(op: byte, data: seq<byte>)
      requires hw.txLimit > 0
      modifies hw
      ensures hw.State() == Apply(old(hw.State()), Send(op, data), hw.txLimit)
    {
      var _, _ := hw.CommandWrite([op] + data);
    }

    /** sendData: one write through DataWriter(); an error is only logged. */
    method SendData(data: seq<byte>)
      requires hw.txLimit > 0
      modifies hw
      ensures hw.State() == BatchedW(old(hw.State()), data, hw.txLimit, false).wire
    {
      var _, _ := hw.BatchedWriteAsWritten(data);
    }

    /** waitUntilIdle: read busy until it is High, pausing 10 ms after each
        Low read, then pause 10 ms. */
    method WaitUntilIdle()
      requires hw.txLimit > 0
      modifies hw
      ensures hw.State() == Apply(old(hw.State()), AwaitIdle, hw.txLimit)
    {
      var level := hw.Read();
      while level == Low
        invariant (if level == High then PauseW(hw.State(), 10) else WaitIdleW(PauseW(hw.State(), 10), 10))
          == WaitIdleW(old(hw.State()), 10)
        decreases |hw.busy| + (if level == Low then 1 else 0)
      {
        hw.Sleep(10);
        level := hw.Read();
      }
      hw.Sleep(10);
    }

    /** turnOnDisplay. */
    method TurnOnDisplay()
      requires hw.txLimit > 0
      modifies hw
      ensures hw.State() == Run(old(hw.State()), TurnOnScript, hw.txLimit)
    {
      ghost var w0, done := hw.State(), [];
      SendCommand(DisplayUpdateControl2, [0xC7]);
      RunSnoc(w0, done, Send(DisplayUpdateControl2, [0xC7]), hw.txLimit);
      done := done + [Send(DisplayUpdateControl2, [0xC7])];
      SendCommand(MasterActivation, []);
      RunSnoc(w0, done, Send(MasterActivation, []), hw.txLimit);
      done := done + [Send(MasterActivation, [])];
      hw.Sleep(2);
      RunSnoc(w0, done, Delay(2), hw.txLimit); done := done + [Delay(2)];
      WaitUntilIdle();
      RunSnoc(w0, done, AwaitIdle, hw.txLimit); done := done + [AwaitIdle];
      assert done == TurnOnScript;
    }

    /** Init: reset, then the configuration sequence; written here as the
        reset and three parts of Init's straight-line body. */
    method Init()
      requires hw.txLimit > 0
      modifies hw
      ensures hw.State() == Run(old(hw.State()), InitScript, hw.txLimit)
    {
      ghost var w0 := hw.State();
      Reset();
      Wake();
      RunAppend(w0, ResetScript, InitWake, hw.txLimit);
      Configure();
      RunAppend(w0, ResetScript + InitWake, InitConfig, hw.txLimit);
      LoadWaveform();
      RunAppend(w0, ResetScript + InitWake + InitConfig, InitLoad, hw.txLimit);
    }

    /** Init, first part: refresh and the two auto-write patterns, each followed by a busy-wait. */
    method Wake()
      requires hw.txLimit > 0
      modifies hw
      ensures hw.State() == Run(old(hw.State()), InitWake, hw.txLimit)
    {
      ghost var w0 := hw.State();
      assert InitWake[..0] == [];
      SendCommand(DisplayRefresh, []);
      RunPrefix(w0, InitWake, 0, hw.txLimit);
      WaitUntilIdle();
      RunPrefix(w0, InitWake, 1, hw.txLimit);
      SendCommand(AutoWriteRamRed, [0xF7]);
      RunPrefix(w0, InitWake, 2, hw.txLimit);
      WaitUntilIdle();
      RunPrefix(w0, InitWake, 3, hw.txLimit);
      SendCommand(AutoWriteRamBW, [0xF7]);
      RunPrefix(w0, InitWake, 4, hw.txLimit);
      WaitUntilIdle();
      RunPrefix(w0, InitWake, 5, hw.txLimit);
      assert InitWake[..6] == InitWake;
    }

    /** Init, second part: soft start, gate driver, data entry mode, the RAM window, border and temperature sensor. */
    method Configure()
      requires hw.txLimit > 0
      modifies hw
      ensures hw.State() == Run(old(hw.State()), InitConfig, hw.txLimit)
    {
      ghost var w0 := hw.State();
      assert InitConfig[..0] == [];
      SendCommand(SoftStart, [0xAE, 0xC7, 0xC3, 0xC0, 0x40]);
      RunPrefix(w0, InitConfig, 0, hw.txLimit);
      // MUX 527
      SendCommand(SetGateDriver, [0xAF, 0x02, 0x01]);
      RunPrefix(w0, InitConfig, 1, hw.txLimit);
      SendCommand(DataEntryMode, [0x01]);
      RunPrefix(w0, InitConfig, 2, hw.txLimit);
      // RAM x address from 0 to 0x36F (879)
      SendCommand(SetRamXStart, [0x00, 0x00, 0x6F, 0x03]);
      RunPrefix(w0, InitConfig, 3, hw.txLimit);
      // RAM y address from 0x20F down to 0
      SendCommand(SetRamYStart, [0xAF, 0x02, 0x00, 0x00]);
      RunPrefix(w0, InitConfig, 4, hw.txLimit);
      SendCommand(BorderWaveformControl, [0x01]);
      RunPrefix(w0, InitConfig, 5, hw.txLimit);
      SendCommand(TempSensorControl, [0x80]);
      RunPrefix(w0, InitConfig, 6, hw.txLimit);
      assert InitConfig[..7] == InitConfig;
    }

    /** Init, last part: load temperature and waveform, then set the RAM address counters to the start of the window. */
    method LoadWaveform()
      requires hw.txLimit > 0
      modifies hw
      ensures hw.State() == Run(old(hw.State()), InitLoad, hw.txLimit)
    {
      ghost var w0 := hw.State();
      assert InitLoad[..0] == [];
      SendCommand(DisplayUpdateControl2, [0xB1]);
      RunPrefix(w0, InitLoad, 0, hw.txLimit);
      SendCommand(MasterActivation, []);
      RunPrefix(w0, InitLoad, 1, hw.txLimit);
      WaitUntilIdle();
      RunPrefix(w0, InitLoad, 2, hw.txLimit);
      SendCommand(SetRamXAddressCtr, [0x00, 0x00]);
      RunPrefix(w0, InitLoad, 3, hw.txLimit);
      SendCommand(SetRamYAddressCtr, [0xAF, 0x02]);
      RunPrefix(w0, InitLoad, 4, hw.txLimit);
      assert InitLoad[..5] == InitLoad;
    }

    /** Render: the planes, padded to BufSize, then turnOnDisplay. */
    method Render(blackImg: seq<byte>, redImg: seq<byte>)
      requires hw.txLimit > 0 && |blackImg| <= BufSize && |redImg| <= BufSize
      modifies hw
      ensures hw.State() == Run(old(hw.State()), PlanesScript(Padded(blackImg, 0xFF), Padded(redImg, 0x00)), hw.txLimit)
    {
      ghost var w0 := hw.State();
      ghost var script := PlanesScript(Padded(blackImg, 0xFF), Padded(redImg, 0x00));
      assert script[..0] == [];
      SendCommand(SetRamYAddressCtr, [0xAF, 0x02]);
      RunPrefix(w0, script, 0, hw.txLimit);
      // 1 is white, 0 is black
      var blackPad := Repeat(0xFF, BufSize - |blackImg|);
      SendCommand(WriteRAMBW, blackImg + blackPad);
      RunPrefix(w0, script, 1, hw.txLimit);
      // 1 is red
      var redPad := Repeat(0x00, BufSize - |redImg|);
      SendCommand(WriteRAMRed, redImg + redPad);
      RunPrefix(w0, script, 2, hw.txLimit);
      TurnOnDisplay();
      RunAppend(w0, script[..3], TurnOnScript, hw.txLimit);
      assert script[..3] + TurnOnScript == script;
    }

    /** RenderImages: the black image converted as it is, the red/yellow
        image converted inverted, then Render; both planes are exactly
        BufSize bytes, so nothing is padded. */
    method RenderImages(black: Colors.Source, redyellow: Colors.Source)
      requires hw.txLimit > 0
      modifies hw
      ensures hw.State() == Run(old(hw.State()), PlanesScript(
        Raster.Packed(Raster.Stream(Encoding.ConvertOn(black, false)), BufSize),
        Raster.Packed(Raster.Stream(Encoding.ConvertOn(redyellow, true)), BufSize)), hw.txLimit)
    {
      var b := Encoding.Convert(black, false);
      var r := Encoding.Convert(redyellow, true);
      Render(b, r);
      assert Padded(b, 0xFF) == b;
      assert Padded(r, 0x00) == r;
    }

    /** RenderPaletted: Encode the image into a black and a red plane, then
        send them as they are (Encode always yields BufSize bytes each). The
        encoder is the one as written, whose bytes go out at the first pixel
        of each group of eight. */
    method RenderPaletted(img: Colors.Source)
      requires hw.txLimit > 0
      modifies hw
      ensures hw.State() == Run(old(hw.State()), PlanesScript(
        Encoding.Windows(Raster.Stream(Encoding.BlackOn(Encoding.ClassOf(img), Encoding.RolesFor(img))), 0, BufSize),
        Encoding.Windows(Raster.Stream(Encoding.RedOn(Encoding.ClassOf(img), Encoding.RolesFor(img))), 0, BufSize)), hw.txLimit)
    {
      var b, r := Encoding.EncodeAsWritten(img);
      ghost var w0 := hw.State();
      ghost var script := PlanesScript(b, r);
      assert script[..0] == [];
      SendCommand(SetRamYAddressCtr, [0xAF, 0x02]);
      RunPrefix(w0, script, 0, hw.txLimit);
      SendCommand(WriteRAMBW, b);
      RunPrefix(w0, script, 1, hw.txLimit);
      SendCommand(WriteRAMRed, r);
      RunPrefix(w0, script, 2, hw.txLimit);
      TurnOnDisplay();
      RunAppend(w0, script[..3], TurnOnScript, hw.txLimit);
      assert script[..3] + TurnOnScript == script;
    }

    /** Clear: Render(nil, nil). */
    method Clear()
      requires hw.txLimit > 0
      modifies hw
      ensures hw.State() == Run(old(hw.State()), PlanesScript(Repeat(0xFF, BufSize), Repeat(0x00, BufSize)), hw.txLimit)
    {
      Render([], []);
      assert Padded([], 0xFF) == Repeat(0xFF, BufSize);
      assert Padded([], 0x00) == Repeat(0x00, BufSize);
    }

    /** Sleep: deepSleepMode with parameter 0x01. */
    method Sleep()
      requires hw.txLimit > 0
      modifies hw
      ensures hw.State() == Run(old(hw.State()), SleepScript, hw.txLimit)
    {
      SendCommand(DeepSleepMode, [0x01]);
      RunSnoc(old(hw.State()), [], Send(DeepSleepMode, [0x01]), hw.txLimit);
    }
  }
}

/** The older driver of devices/epd7in5bhd/epd7in5bhd.go. It drives the same
    panel with the same command sequences as display.go, but through the
    SPI connection and the pins directly: every opcode and every parameter
    byte is a transfer of its own, pin and transfer errors are ignored, the
    busy-wait settles for 200 ms, and Render reads its planes from two
    io.ByteReaders. Its Convert packs a plane that only ever sets bits.

    Every method is stated as `Run` of a script of steps over this
    driver's own transport rules; the scripts are those of module Display
    except turnOnDisplay, which pauses 200 ms rather than 2 ms. */
module Legacy {
  import opened Bytes
  import opened Geometry
  import opened Colors
  import opened Commands
  import opened Hardware
  import opened Protocol
  import opened Raster
  import Encoding
  import Newer = Display

  // ---------------------------------------------------------------------
  // The transport, one byte at a time.

  /** What this driver does on the transport, one act at a time: a pin
      change or a one-byte transfer. It never looks at a result. */
  datatype Act = Set(pin: Pin, level: Level) | Put(b: byte)

  function Do(w: Wire, a: Act): (w': Wire)
    ensures w.trace <= w'.trace
  {
    match a
    case Set(pin, level) => OutW(w, pin, level).0
    case Put(b) => TxW(w, [b]).0
  }

  function Perform(w: Wire, acts: seq<Act>): (w': Wire)
    ensures w.trace <= w'.trace
    decreases |acts|
  {
    if acts == [] then w else Do(Perform(w, acts[..|acts| - 1]), acts[|acts| - 1])
  }

  lemma PerformFour(w: Wire, a: Act, b: Act, c: Act, d: Act)
    ensures Perform(w, [a, b, c, d]) == Do(Do(Do(Do(w, a), b), c), d)
  {
    assert [a, b, c, d][..3] == [a, b, c];
    assert [a, b, c][..2] == [a, b];
    assert [a, b][..1] == [a];
    assert [a][..0] == [];
    assert Perform(w, [a]) == Do(w, a);
    assert Perform(w, [a, b]) == Do(Do(w, a), b);
    assert Perform(w, [a, b, c]) == Do(Do(Do(w, a), b), c);
  }

  lemma {:induction false} PerformAppend(w: Wire, a: seq<Act>, b: seq<Act>)
    ensures Perform(w, a + b) == Perform(Perform(w, a), b)
    decreases |b|
  {
    if b == [] {
      assert a + b == a;
    } else {
      assert (a + b)[..|a + b| - 1] == a + b[..|b| - 1];
      PerformAppend(w, a, b[..|b| - 1]);
    }
  }

  /** sendCommand's opcode: data/command Low, chip select Low, the opcode
      byte, chip select High. */
  function OpcodeActs(op: byte): seq<Act>
  {
    [Set(DC, Low), Set(CS, Low), Put(op), Set(CS, High)]
  }

  /** sendData: chip select Low, data/command High, the byte, chip select High. */
  function DataActs(b: byte): seq<Act>
  {
    [Set(CS, Low), Set(DC, High), Put(b), Set(CS, High)]
  }

  /** sendData for each of the first n bytes of data in turn. */
  function ParamActs(data: seq<byte>, n: nat): seq<Act>
    requires n <= |data|
  {
    if n == 0 then [] else ParamActs(data, n - 1) + DataActs(data[n - 1])
  }

  /** sendCommand(op, data...): the opcode, then one sendData per parameter. */
  function SendActs(op: byte, data: seq<byte>): seq<Act>
  {
    OpcodeActs(op) + ParamActs(data, |data|)
  }

  /** One step of a script: the busy-wait settles for 200 ms. */
  function Apply(w: Wire, s: Step): (w': Wire)
    ensures w.trace <= w'.trace
  {
    match s
    case Pulse(level) => OutW(w, RST, level).0
    case Delay(millis) => PauseW(w, millis)
    case Send(op, data) => Perform(w, SendActs(op, data))
    case AwaitIdle => WaitIdleW(w, 200)
  }

  function Run(w: Wire, steps: seq<Step>): (w': Wire)
    ensures w.trace <= w'.trace
    decreases |steps|
  {
    if steps == [] then w else Apply(Run(w, steps[..|steps| - 1]), steps[|steps| - 1])
  }

  /** One more step of a script extends its run by that step. */
  lemma RunPrefix(w: Wire, steps: seq<Step>, k: int)
    requires 0 <= k < |steps|
    ensures Run(w, steps[..k + 1]) == Apply(Run(w, steps[..k]), steps[k])
  {
    assert steps[..k + 1][..k] == steps[..k];
  }

  /** sendCommand(op) followed by sendData for each byte of data is
      sendCommand(op, data...). */
  lemma CommandThenData(w: Wire, op: byte, data: seq<byte>, n: nat)
    requires n == |data|
    ensures Perform(Apply(w, Send(op, [])), ParamActs(data, n)) == Apply(w, Send(op, data))
  {
    assert SendActs(op, []) == OpcodeActs(op) + [];
    assert OpcodeActs(op) + [] == OpcodeActs(op);
    PerformAppend(w, OpcodeActs(op), ParamActs(data, |data|));
  }

  /** A three-step run is its steps applied in turn. */
  lemma RunThree(w: Wire, s0: Step, s1: Step, s2: Step)
    ensures Run(w, [s0, s1, s2]) == Apply(Apply(Apply(w, s0), s1), s2)
  {
    assert [s0][..0] == [];
    assert Run(w, [s0]) == Apply(w, s0);
    assert [s0, s1][..1] == [s0];
    assert Run(w, [s0, s1]) == Apply(Apply(w, s0), s1);
    assert [s0, s1, s2][..2] == [s0, s1];
  }

  lemma {:induction false} RunAppend(w: Wire, a: seq<Step>, b: seq<Step>)
    ensures Run(w, a + b) == Run(Run(w, a), b)
    decreases |b|
  {
    if b == [] {
      assert a + b == a;
    } else {
      var b' := b[..|b| - 1];
      assert (a + b)[..|a + b| - 1] == a + b';
      RunAppend(w, a, b');
    }
  }

  // ---------------------------------------------------------------------
  // What the panel receives.

  /** With no failures, an opcode transfer appends the command with no
      parameters yet, leaving chip select High and data/command Low. */
  lemma OpcodeDecodes(p: Panel, w: Wire, op: byte)
    requires Reliable(w)
    ensures Replay(p, Added(w, Perform(w, OpcodeActs(op)))) == Panel(High, Low, p.log + [Command(op, [])])
    ensures Reliable(Perform(w, OpcodeActs(op)))
  {
    PerformFour(w, Set(DC, Low), Set(CS, Low), Put(op), Set(CS, High));
    var w1 := OutW(w, DC, Low).0;
    var w2 := OutW(w1, CS, Low).0;
    var w3 := TxW(w2, [op]).0;
    assert Reliable(w1) && Reliable(w2) && Reliable(w3);
    assert Added(w, Perform(w, OpcodeActs(op))) == [Out(DC, Low, true), Out(CS, Low, true), Tx([op], true), Out(CS, High, true)];
    assert OpcodeSignals([op]) == [Command(op, [])];
    ReplayFour(p, Out(DC, Low, true), Out(CS, Low, true), Tx([op], true), Out(CS, High, true));
  }

  /** With no failures, one parameter byte extends the latest command. */
  lemma DataDecodes(p: Panel, w: Wire, b: byte)
    requires Reliable(w)
    ensures Replay(p, Added(w, Perform(w, DataActs(b)))) == Panel(High, High, WithData(p.log, [b]))
    ensures Reliable(Perform(w, DataActs(b)))
  {
    PerformFour(w, Set(CS, Low), Set(DC, High), Put(b), Set(CS, High));
    var w1 := OutW(w, CS, Low).0;
    var w2 := OutW(w1, DC, High).0;
    var w3 := TxW(w2, [b]).0;
    assert Reliable(w1) && Reliable(w2) && Reliable(w3);
    assert Added(w, Perform(w, DataActs(b))) == [Out(CS, Low, true), Out(DC, High, true), Tx([b], true), Out(CS, High, true)];
    ReplayFour(p, Out(CS, Low, true), Out(DC, High, true), Tx([b], true), Out(CS, High, true));
  }

  lemma TakeSnoc(data: seq<byte>, n: nat)
    requires 0 < n <= |data|
    ensures data[..n - 1] + [data[n - 1]] == data[..n]
  {
  }

  /** One more byte after bytes x extends the latest command with x + [b]. */
  lemma ParamsStep(p: Panel, w: Wire, w1: Wire, w2: Wire, x: seq<byte>, b: byte)
    requires w.trace <= w1.trace <= w2.trace
    requires Replay(p, Added(w, w1)).log == WithData(p.log, x)
    requires Replay(Replay(p, Added(w, w1)), Added(w1, w2)).log == WithData(Replay(p, Added(w, w1)).log, [b])
    ensures Replay(p, Added(w, w2)).log == WithData(p.log, x + [b])
  {
    ReplayThrough(p, w, w1, w2);
    WithDataAppend(p.log, x, [b]);
  }

  /** With no failures, the bytes sent one by one extend the latest command
      with all of them, in order. */
  lemma {:induction false} ParamsDecode(p: Panel, w: Wire, data: seq<byte>, n: nat)
    requires Reliable(w) && n <= |data|
    ensures Replay(p, Added(w, Perform(w, ParamActs(data, n)))).log == WithData(p.log, data[..n])
    ensures Reliable(Perform(w, ParamActs(data, n)))
  {
    if n == 0 {
      assert Added(w, w) == [];
      WithDataNothing(p.log);
    } else {
      var b := data[n - 1];
      var w1 := Perform(w, ParamActs(data, n - 1));
      var w2 := Perform(w1, DataActs(b));
      ParamsDecode(p, w, data, n - 1);
      DataDecodes(Replay(p, Added(w, w1)), w1, b);
      ParamsStep(p, w, w1, w2, data[..n - 1], b);
      TakeSnoc(data, n);
      PerformAppend(w, ParamActs(data, n - 1), DataActs(b));
    }
  }

  /** With no failures, sendCommand(op, data...) delivers exactly the
      command op with the parameters data, like the newer driver's single
      write. */
  lemma SendDecodes(p: Panel, w: Wire, op: byte, data: seq<byte>)
    requires Reliable(w)
    ensures Replay(p, Added(w, Perform(w, SendActs(op, data)))).log == p.log + [Command(op, data)]
    ensures Reliable(Perform(w, SendActs(op, data)))
  {
    var w1 := Perform(w, OpcodeActs(op));
    OpcodeDecodes(p, w, op);
    var p1 := Replay(p, Added(w, w1));
    ParamsDecode(p1, w1, data, |data|);
    PerformAppend(w, OpcodeActs(op), ParamActs(data, |data|));
    ReplayThrough(p, w, w1, Perform(w, SendActs(op, data)));
    assert p1.log[..|p1.log| - 1] == p.log;
    assert data[..|data|] == data;
    assert [] + data == data;
  }

  lemma {:induction false} ApplyDecodes(p: Panel, w: Wire, s: Step)
    requires Reliable(w)
    ensures Replay(p, Added(w, Apply(w, s))).log == p.log + Expected([s])
    ensures Reliable(Apply(w, s))
  {
    var w' := Apply(w, s);
    ExpectedOne(s);
    match s
    case Pulse(level) =>
      assert Added(w, w') == [Out(RST, level, true)];
      assert [Out(RST, level, true)][..0] == [];
    case Delay(millis) =>
      assert Added(w, w') == [Pause(millis)];
      assert [Pause(millis)][..0] == [];
    case Send(op, data) =>
      SendDecodes(p, w, op, data);
    case AwaitIdle =>
      WaitIdleDecodes(p, w, 200);
  }

  /** The signals of two consecutive runs follow each other. */
  /** With no failures, the panel receives one signal per step of a script,
      exactly as from the newer driver. */
  lemma {:induction false} RunDecodes(p: Panel, w: Wire, steps: seq<Step>)
    requires Reliable(w)
    ensures Replay(p, Added(w, Run(w, steps))).log == p.log + Expected(steps)
    ensures Reliable(Run(w, steps))
    decreases |steps|
  {
    if steps == [] {
      assert Added(w, w) == [];
    } else {
      var init, s := steps[..|steps| - 1], steps[|steps| - 1];
      var w1 := Run(w, init);
      RunDecodes(p, w, init);
      ApplyDecodes(Replay(p, Added(w, w1)), w1, s);
      SignalsStep(p, w, w1, Apply(w1, s), Expected(init), Expected([s]));
      ExpectedAppend(init, [s]);
      StepsSnoc(steps);
    }
  }

  // ---------------------------------------------------------------------
  // The scripts of epd7in5bhd.go.

  /** turnOnDisplay: load the waveform (0xC7), activate, wait 200 ms, then
      wait until idle. */
  const TurnOnScript: seq<Step> :=
    [Send(DisplayUpdateControl2, [0xC7]), Send(MasterActivation, []), Delay(200), AwaitIdle]

  /** Render: the row address, the two planes, then turnOnDisplay. */
  function PlanesScript(b: seq<byte>, r: seq<byte>): seq<Step>
  {
    [Send(SetRamYAddressCtr, [0xAF, 0x02]), Send(WriteRAMBW, b), Send(WriteRAMRed, r)] + TurnOnScript
  }

  /** An io.ByteReader, as the results of its successive ReadByte calls:
      Some(b) for a byte, None for an error; every call past the end is an
      error (io.EOF). A nil reader reads as an empty one. */
  type Reader = seq<Option<byte>>

  function ReadAt(r: Reader, i: nat): Option<byte>
  {
    if i < |r| then r[i] else None
  }

  /** Byte i of a plane Render sends: the byte read, or 0xFF (white) on
      an error, complemented for the red plane. */
  function PlaneAt(r: Reader, i: nat, complement: bool): byte
  {
    var b := match ReadAt(r, i) case Some(b) => b case None => 0xFF;
    if complement then !b else b
  }

  /** The black plane Render sends: each byte read, or 0xFF (white) on an error. */
  function BlackBytes(r: Reader): (s: seq<byte>)
    ensures |s| == BufSize
  {
    seq(BufSize, i requires 0 <= i => PlaneAt(r, i, false))
  }

  /** The red plane Render sends: the complement of each byte read, or
      0x00 (the complement of 0xFF) on an error. */
  function RedBytes(r: Reader): (s: seq<byte>)
    ensures |s| == BufSize
  {
    seq(BufSize, i requires 0 <= i => PlaneAt(r, i, true))
  }

  /** The plane Render sends from reader r. */
  function Plane(r: Reader, complement: bool): (s: seq<byte>)
    ensures |s| == BufSize
  {
    if complement then RedBytes(r) else BlackBytes(r)
  }

  /** The sendData calls of Render's plane loop for its first n reads. */
  function PlaneActs(r: Reader, complement: bool, n: nat): seq<Act>
  {
    if n == 0 then [] else PlaneActs(r, complement, n - 1) + DataActs(PlaneAt(r, n - 1, complement))
  }

  /** The plane loop sends the plane's bytes in order. */
  lemma {:induction false} PlaneActsSend(r: Reader, complement: bool, n: nat)
    requires n <= BufSize
    ensures PlaneActs(r, complement, n) == ParamActs(Plane(r, complement), n)
  {
    if n > 0 {
      PlaneActsSend(r, complement, n - 1);
    }
  }

  /** bytes.NewReader(b): the bytes of b, then errors. */
  function BytesReader(b: seq<byte>): (r: Reader)
    ensures |r| == |b|
  {
    seq(|b|, i requires 0 <= i < |b| => Some(b[i]))
  }

  /** Read from a bytes.Reader, the black plane is the newer driver's padded
      plane, and the red plane is the bitwise complement of the given plane
      padded with 0xFF: the older driver stores red as 0 bits where the
      newer one stores it as 1 bits. */
  lemma ReaderPlanes(b: seq<byte>, r: seq<byte>)
    requires |b| <= BufSize && |r| <= BufSize
    ensures BlackBytes(BytesReader(b)) == Newer.Padded(b, 0xFF)
    ensures forall i :: 0 <= i < BufSize ==> RedBytes(BytesReader(r))[i] == !Newer.Padded(r, 0xFF)[i]
  {
    var pb := Newer.Padded(b, 0xFF);
    forall i | 0 <= i < BufSize ensures BlackBytes(BytesReader(b))[i] == pb[i] {
    }
  }

  /** Clear sends the same planes as the newer driver's Clear: all white,
      and no red. */
  lemma ClearPlanes()
    ensures BlackBytes([]) == Repeat(0xFF, BufSize)
    ensures RedBytes([]) == Repeat(0x00, BufSize)
  {
  }

  /** Render's three sends, the planes as sendCommand then one sendData
      per byte, followed by turnOnDisplay, run Render's script. */
  lemma PlanesRun(w0: Wire, w1: Wire, wa: Wire, w2: Wire, wc: Wire, w3: Wire, w4: Wire, rb: Reader, rr: Reader)
    requires w1 == Apply(w0, Send(SetRamYAddressCtr, [0xAF, 0x02]))
    requires wa == Apply(w1, Send(WriteRAMBW, [])) && w2 == Perform(wa, PlaneActs(rb, false, BufSize))
    requires wc == Apply(w2, Send(WriteRAMRed, [])) && w3 == Perform(wc, PlaneActs(rr, true, BufSize))
    requires w4 == Run(w3, TurnOnScript)
    ensures w4 == Run(w0, PlanesScript(BlackBytes(rb), RedBytes(rr)))
  {
    var b, r := Plane(rb, false), Plane(rr, true);
    PlaneActsSend(rb, false, BufSize);
    PlaneActsSend(rr, true, BufSize);
    CommandThenData(w1, WriteRAMBW, b, BufSize);
    CommandThenData(w2, WriteRAMRed, r, BufSize);
    var s0, s1, s2 := Send(SetRamYAddressCtr, [0xAF, 0x02]), Send(WriteRAMBW, b), Send(WriteRAMRed, r);
    RunThree(w0, s0, s1, s2);
    RunAppend(w0, [s0, s1, s2], TurnOnScript);
  }

  /** Render's script, as the panel should see it. */
  lemma PlanesSignals(b: seq<byte>, r: seq<byte>)
    ensures Expected(PlanesScript(b, r)) ==
      [Command(0x4F, [0xAF, 0x02]), Command(0x24, b), Command(0x26, r), Command(0x22, [0xC7]), Command(0x20, []), Idle]
  {
    var a, x, y := Send(SetRamYAddressCtr, [0xAF, 0x02]), Send(WriteRAMBW, b), Send(WriteRAMRed, r);
    var t := [Send(0x22, [0xC7]), Send(0x20, []), Delay(200), AwaitIdle];
    assert TurnOnScript == t;
    assert Expected(t) == [Command(0x22, [0xC7]), Command(0x20, []), Idle];
    assert PlanesScript(b, r) == [a] + ([x] + ([y] + t));
    ExpectedAppend([a], [x] + ([y] + t));
    ExpectedAppend([x], [y] + t);
    ExpectedAppend([y], t);
    ExpectedOne(a);
    ExpectedOne(x);
    ExpectedOne(y);
  }

  /** With no failures, Render delivers the row address, the two planes
      read, then the waveform load, the activation and one idle signal. */
  lemma RenderReceived(p: Panel, w: Wire, b: Reader, r: Reader)
    requires Reliable(w)
    ensures Replay(p, Added(w, Run(w, PlanesScript(BlackBytes(b), RedBytes(r))))).log == p.log + [
      Command(0x4F, [0xAF, 0x02]),
      Command(0x24, BlackBytes(b)),
      Command(0x26, RedBytes(r)),
      Command(0x22, [0xC7]),
      Command(0x20, []),
      Idle]
  {
    RunDecodes(p, w, PlanesScript(BlackBytes(b), RedBytes(r)));
    PlanesSignals(BlackBytes(b), RedBytes(r));
  }

  // ---------------------------------------------------------------------
  // Convert.

  /** img.At(x, y) as the older Convert reads it, for any x and y: a
      paletted image answers its first palette entry outside its bounds;
      None where Go panics (an empty palette, whose nil colour Index cannot
      measure, or an index with no palette entry). */
  function Colour(img: Source, x: int, y: int): Option<RGBA>
  {
    match img
    case Paletted(rect, palette, _) =>
      if |palette| == 0 then None
      else if !In(Point(x, y), rect) then Some(palette[0])
      else Encoding.Lookup(img, x, y)
    case Picture(_, colour) => Some(colour(x, y))
  }

  /** The pixel Convert computes for (x, y): 1 when x or y is past the
      image's width or height, the index in [black, white] of the nearest
      colour otherwise (0 where Go panics). */
  function PixelIndex(img: Source, x: int, y: int): (i: int)
    ensures i == 0 || i == 1
    ensures !(x < img.rect.Dx() && y < img.rect.Dy()) ==> i == 1
    ensures x < img.rect.Dx() && y < img.rect.Dy() ==>
      match Colour(img, x, y)
      case Some(c) => (i == 1 <==> Distance(c, WhiteRGBA) < Distance(c, BlackRGBA))
      case None => i == 0
  {
    if x < img.rect.Dx() && y < img.rect.Dy() then
      match Colour(img, x, y)
      case Some(c) =>
        Encoding.IndexOfTwo(BlackRGBA, WhiteRGBA, c);
        Index([BlackRGBA, WhiteRGBA], c)
      case None => 0
    else 1
  }

  /** The pixels Convert sets. */
  function ConvertOn(img: Source): (int, int) -> bool
  {
    (x, y) => PixelIndex(img, x, y) == 1
  }

  /** Convert: a zeroed BufSize plane in which the bit of every pixel whose
      index is 1 is set; no bit is ever cleared. */
  method Convert(img: Source) returns (buffer: seq<byte>)
    ensures buffer == Packed(Stream(ConvertOn(img)), BufSize)
  {
    buffer := FillPlane(ConvertOn(img), false);
  }

  /** Pixel (x, y) of Convert's plane: set past the image's width or height,
      otherwise set exactly when the pixel's colour is strictly nearer white
      than black. */
  lemma ConvertPixel(img: Source, x: int, y: int)
    requires 0 <= x < DisplayWidth && 0 <= y < DisplayHeight
    ensures 0 <= x / 8 + DisplayWidthBytes * y < BufSize
    ensures var plane := Packed(Stream(ConvertOn(img)), BufSize);
      (plane[x / 8 + DisplayWidthBytes * y] & Mask(x) != 0) ==
        if !(x < img.rect.Dx() && y < img.rect.Dy()) then true
        else match Colour(img, x, y)
          case Some(c) => Distance(c, WhiteRGBA) < Distance(c, BlackRGBA)
          case None => false
  {
    PlaneBit(Packed(Stream(ConvertOn(img)), BufSize), ConvertOn(img), x, y);
    match Colour(img, x, y)
    case Some(c) => Encoding.IndexOfTwo(BlackRGBA, WhiteRGBA, c);
    case None =>
  }

  /** Pixels that agree give equal bytes. */
  lemma {:induction false} BitsAgree(f: nat -> bool, g: nat -> bool, lo: nat, hi: nat)
    requires forall s: nat :: lo <= s < hi ==> f(s) == g(s)
    ensures Bits(f, lo, hi) == Bits(g, lo, hi)
    decreases hi
  {
    if hi > lo {
      BitsAgree(f, g, lo, hi - 1);
      assert f(hi - 1) == g(hi - 1);
    }
  }

  /** For an image whose bounds start at the origin, the older Convert packs
      the same plane as the newer convert without inverting: white past the
      bounds, and the nearer of black and white inside. */
  lemma ConvertAgrees(img: Source)
    requires img.rect.min == Point(0, 0)
    ensures Packed(Stream(ConvertOn(img)), BufSize) == Packed(Stream(Encoding.ConvertOn(img, false)), BufSize)
  {
    var f, g := Stream(ConvertOn(img)), Stream(Encoding.ConvertOn(img, false));
    Encoding.IndexOfTwo(BlackRGBA, WhiteRGBA, WhiteRGBA);
    forall s: nat ensures f(s) == g(s) {
      var x, y := s % DisplayWidth, s / DisplayWidth;
      assert In(Point(x, y), img.rect) <==> x < img.rect.Dx() && y < img.rect.Dy();
    }
    forall k | 0 <= k < BufSize
      ensures Packed(f, BufSize)[k] == Packed(g, BufSize)[k]
    {
      BitsAgree(f, g, 8 * k, 8 * k + 8);
    }
  }

  // ---------------------------------------------------------------------
  // The driver.

  /** FullBuffer(v): a BufSize buffer with every byte v. */
  method FullBuffer(v: byte) returns (b: seq<byte>)
    ensures b == Repeat(v, BufSize)
  {
    var a := new byte[BufSize];
    var i := 0;
    while i < BufSize
      invariant 0 <= i <= BufSize
      invariant forall k :: 0 <= k < i ==> a[k] == v
    {
      a[i] := v;
      i := i + 1;
    }
    b := a[..];
  }

  class Display {
    const hw: Hardware

    /** The Display New returns, over a transport with the given fault and
        busy scripts. This driver never batches, so the transfer limit is
        unused. */
    constructor (faults: seq<bool>, busy: seq<Level>)
      ensures fresh(hw) && hw.State() == Wire([], faults, busy)
    {
      hw := new Hardware(0, faults, busy);
    }

    /** Reset: the same pulse as the newer driver. */
    method Reset()
      modifies hw
      ensures hw.State() == Run(old(hw.State()), ResetScript)
    {
      ghost var w0 := hw.State();
      assert ResetScript[..0] == [];
      var _ := hw.Out(RST, High);
      RunPrefix(w0, ResetScript, 0);
      hw.Sleep(200);
      RunPrefix(w0, ResetScript, 1);
      var _ := hw.Out(RST, Low);
      RunPrefix(w0, ResetScript, 2);
      hw.Sleep(2);
      RunPrefix(w0, ResetScript, 3);
      var _ := hw.Out(RST, High);
      RunPrefix(w0, ResetScript, 4);
      hw.Sleep(200);
      RunPrefix(w0, ResetScript, 5);
      assert ResetScript[..6] == ResetScript;
    }

    /** sendCommand(op, data...): the opcode, then sendData for each parameter. */
    method SendCommand(op: byte, data: seq<byte>)
      modifies hw
      ensures hw.State() == Apply(old(hw.State()), Send(op, data))
    {
      ghost var w0 := hw.State();
      var _ := hw.Out(DC, Low);
      var _ := hw.Out(CS, Low);
      var _ := hw.Tx([op]);
      var _ := hw.Out(CS, High);
      PerformFour(w0, Set(DC, Low), Set(CS, Low), Put(op), Set(CS, High));
      ghost var w1 := hw.State();
      var i := 0;
      while i < |data|
        invariant 0 <= i <= |data| && hw.State() == Perform(w1, ParamActs(data, i))
      {
        SendData(data[i]);
        PerformAppend(w1, ParamActs(data, i), DataActs(data[i]));
        i := i + 1;
      }
      PerformAppend(w0, OpcodeActs(op), ParamActs(data, |data|));
    }

    /** sendData: one byte. */
    method SendData(b: byte)
      modifies hw
      ensures hw.State() == Perform(old(hw.State()), DataActs(b))
    {
      ghost var w0 := hw.State();
      var _ := hw.Out(CS, Low);
      var _ := hw.Out(DC, High);
      var _ := hw.Tx([b]);
      var _ := hw.Out(CS, High);
      PerformFour(w0, Set(CS, Low), Set(DC, High), Put(b), Set(CS, High));
    }

    /** waitUntilIdle: read busy until it is High, pausing 10 ms after each
        Low read, then pause 200 ms. */
    method WaitUntilIdle()
      modifies hw
      ensures hw.State() == Apply(old(hw.State()), AwaitIdle)
    {
      var level := hw.Read();
      while level == Low
        invariant (if level == High then PauseW(hw.State(), 200) else WaitIdleW(PauseW(hw.State(), 10), 200))
          == WaitIdleW(old(hw.State()), 200)
        decreases |hw.busy| + (if level == Low then 1 else 0)
      {
        hw.Sleep(10);
        level := hw.Read();
      }
      hw.Sleep(200);
    }

    /** turnOnDisplay. */
    method TurnOnDisplay()
      modifies hw
      ensures hw.State() == Run(old(hw.State()), TurnOnScript)
    {
      ghost var w0 := hw.State();
      assert TurnOnScript[..0] == [];
      SendCommand(DisplayUpdateControl2, [0xC7]);
      RunPrefix(w0, TurnOnScript, 0);
      SendCommand(MasterActivation, []);
      RunPrefix(w0, TurnOnScript, 1);
      hw.Sleep(200);
      RunPrefix(w0, TurnOnScript, 2);
      WaitUntilIdle();
      RunPrefix(w0, TurnOnScript, 3);
      assert TurnOnScript[..4] == TurnOnScript;
    }

    /** Init: reset, then the newer driver's configuration sequence. */
    method Init()
      modifies hw
      ensures hw.State() == Run(old(hw.State()), Newer.InitScript)
    {
      ghost var w0 := hw.State();
      Reset();
      Wake();
      RunAppend(w0, ResetScript, Newer.InitWake);
      Configure();
      RunAppend(w0, ResetScript + Newer.InitWake, Newer.InitConfig);
      LoadWaveform();
      RunAppend(w0, ResetScript + Newer.InitWake + Newer.InitConfig, Newer.InitLoad);
    }

    /** Init, first part: refresh and the two auto-write patterns, each followed by a busy-wait. */
    method Wake()
      modifies hw
      ensures hw.State() == Run(old(hw.State()), Newer.InitWake)
    {
      ghost var w0, script := hw.State(), Newer.InitWake;
      assert script[..0] == [];
      SendCommand(DisplayRefresh, []);
      RunPrefix(w0, script, 0);
      WaitUntilIdle();
      RunPrefix(w0, script, 1);
      SendCommand(AutoWriteRamRed, [0xF7]);
      RunPrefix(w0, script, 2);
      WaitUntilIdle();
      RunPrefix(w0, script, 3);
      SendCommand(AutoWriteRamBW, [0xF7]);
      RunPrefix(w0, script, 4);
      WaitUntilIdle();
      RunPrefix(w0, script, 5);
      assert script[..6] == script;
    }

    /** Init, second part: soft start, gate driver, data entry mode, the RAM window, border and temperature sensor. */
    method Configure()
      modifies hw
      ensures hw.State() == Run(old(hw.State()), Newer.InitConfig)
    {
      ghost var w0, script := hw.State(), Newer.InitConfig;
      assert script[..0] == [];
      SendCommand(SoftStart, [0xAE, 0xC7, 0xC3, 0xC0, 0x40]);
      RunPrefix(w0, script, 0);
      SendCommand(SetGateDriver, [0xAF, 0x02, 0x01]);
      RunPrefix(w0, script, 1);
      SendCommand(DataEntryMode, [0x01]);
      RunPrefix(w0, script, 2);
      SendCommand(SetRamXStart, [0x00, 0x00, 0x6F, 0x03]);
      RunPrefix(w0, script, 3);
      SendCommand(SetRamYStart, [0xAF, 0x02, 0x00, 0x00]);
      RunPrefix(w0, script, 4);
      SendCommand(BorderWaveformControl, [0x01]);
      RunPrefix(w0, script, 5);
      SendCommand(TempSensorControl, [0x80]);
      RunPrefix(w0, script, 6);
      assert script[..7] == script;
    }

    /** Init, last part: load temperature and waveform, then set the RAM address counters. */
    method LoadWaveform()
      modifies hw
      ensures hw.State() == Run(old(hw.State()), Newer.InitLoad)
    {
      ghost var w0, script := hw.State(), Newer.InitLoad;
      assert script[..0] == [];
      SendCommand(DisplayUpdateControl2, [0xB1]);
      RunPrefix(w0, script, 0);
      SendCommand(MasterActivation, []);
      RunPrefix(w0, script, 1);
      WaitUntilIdle();
      RunPrefix(w0, script, 2);
      SendCommand(SetRamXAddressCtr, [0x00, 0x00]);
      RunPrefix(w0, script, 3);
      SendCommand(SetRamYAddressCtr, [0xAF, 0x02]);
      RunPrefix(w0, script, 4);
      assert script[..5] == script;
    }

    /** Render: BufSize bytes from each reader (a nil reader reads as an
        empty one), the black plane as read and the red plane complemented,
        then turnOnDisplay. */
    method Render(blackImg: Option<Reader>, redImg: Option<Reader>)
      modifies hw
      ensures hw.State() == Run(old(hw.State()), PlanesScript(BlackBytes(OrEmpty(blackImg)), RedBytes(OrEmpty(redImg))))
    {
      var b := if blackImg.None? then [] else blackImg.value;
      var r := if redImg.None? then [] else redImg.value;
      ghost var w0 := hw.State();
      SendCommand(SetRamYAddressCtr, [0xAF, 0x02]);
      ghost var w1 := hw.State();
      SendCommand(WriteRAMBW, []);
      ghost var wa := hw.State();
      SendPlane(b, false);
      ghost var w2 := hw.State();
      SendCommand(WriteRAMRed, []);
      ghost var wc := hw.State();
      SendPlane(r, true);
      ghost var w3 := hw.State();
      TurnOnDisplay();
      PlanesRun(w0, w1, wa, w2, wc, w3, hw.State(), b, r);
    }

    /** One of Render's two loops: BufSize reads, 0xFF on an error, each byte
        sent as read or, for the red plane, complemented. */
    method SendPlane(r: Reader, complement: bool)
      modifies hw
      ensures hw.State() == Perform(old(hw.State()), PlaneActs(r, complement, BufSize))
    {
      ghost var w0 := hw.State();
      var i := 0;
      while i < BufSize
        invariant 0 <= i <= BufSize && hw.State() == Perform(w0, PlaneActs(r, complement, i))
      {
        var b: byte := if i < |r| && r[i].Some? then r[i].value else 0xFF;
        var v := if complement then !b else b;
        assert v == PlaneAt(r, i, complement);
        SendData(v);
        PerformAppend(w0, PlaneActs(r, complement, i), DataActs(v));
        i := i + 1;
      }
    }

    /** Clear: Render(nil, nil). */
    method Clear()
      modifies hw
      ensures hw.State() == Run(old(hw.State()), PlanesScript(Repeat(0xFF, BufSize), Repeat(0x00, BufSize)))
    {
      Render(None, None);
      ClearPlanes();
    }

    /** Sleep: deepSleepMode with parameter 0x01. */
    method Sleep()
      modifies hw
      ensures hw.State() == Run(old(hw.State()), Newer.SleepScript)
    {
      ghost var w0 := hw.State();
      SendCommand(DeepSleepMode, [0x01]);
      RunPrefix(w0, Newer.SleepScript, 0);
      assert Newer.SleepScript[..1] == Newer.SleepScript;
    }
  }

  /** A nil reader reads as an empty one. */
  function OrEmpty(r: Option<Reader>): Reader
  {
    if r.None? then [] else r.value
  }
}

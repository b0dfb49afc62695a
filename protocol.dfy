/** What the panel controller receives. The controller reads a byte sent
    while chip select is Low as an opcode when data/command is Low and as a
    parameter of the latest opcode when it is High; the reset line and the
    busy line are seen directly. Replaying a trace through this decoder is
    the reference against which the drivers' byte-exact command sequences
    are stated. Both drivers are written as scripts of steps (reset pulses,
    pauses, commands with their parameters, busy-waits); `Expected` says what
    the panel should see for a script. */
module Protocol {
  import opened Bytes
  import opened Hardware

  datatype Signal = Command(op: byte, data: seq<byte>) | ResetLine(level: Level) | Idle

  /** The controller's view: the two select lines and what it has received. */
  datatype Panel = Panel(cs: Level, dc: Level, log: seq<Signal>)

  /** One opcode per byte. */
  function OpcodeSignals(data: seq<byte>): seq<Signal>
  {
    seq(|data|, k requires 0 <= k < |data| => Command(data[k], []))
  }

  /** Parameters extend the latest command; with no command before them they
      are dropped. */
  function WithData(log: seq<Signal>, data: seq<byte>): seq<Signal>
  {
    if |log| > 0 && log[|log| - 1].Command? then
      log[..|log| - 1] + [Command(log[|log| - 1].op, log[|log| - 1].data + data)]
    else log
  }

  function Receive(p: Panel, e: Event): Panel
  {
    match e
    case Out(pin, level, ok) =>
      if !ok then p
      else if pin == CS then p.(cs := level)
      else if pin == DC then p.(dc := level)
      else p.(log := p.log + [ResetLine(level)])
    case Tx(data, ok) =>
      if !ok || p.cs == High then p
      else if p.dc == Low then p.(log := p.log + OpcodeSignals(data))
      else p.(log := WithData(p.log, data))
    case Read(level) => if level == High then p.(log := p.log + [Idle]) else p
    case Pause(_) => p
  }

  function Replay(p: Panel, es: seq<Event>): Panel
  {
    if es == [] then p else Receive(Replay(p, es[..|es| - 1]), es[|es| - 1])
  }

  lemma {:induction false} ReplayAppend(p: Panel, a: seq<Event>, b: seq<Event>)
    ensures Replay(p, a + b) == Replay(Replay(p, a), b)
    decreases |b|
  {
    if b == [] {
      assert a + b == a;
    } else {
      assert (a + b)[..|a + b| - 1] == a + b[..|b| - 1];
      ReplayAppend(p, a, b[..|b| - 1]);
    }
  }

  /** Replaying what two consecutive operations added is replaying the
      first's events, then the second's. */
  lemma ReplayThrough(p: Panel, w1: Wire, w2: Wire, w3: Wire)
    requires w1.trace <= w2.trace <= w3.trace
    ensures Replay(p, Added(w1, w3)) == Replay(Replay(p, Added(w1, w2)), Added(w2, w3))
  {
    AddedTrans(w1, w2, w3);
    ReplayAppend(p, Added(w1, w2), Added(w2, w3));
  }

  lemma WithDataAppend(log: seq<Signal>, a: seq<byte>, b: seq<byte>)
    ensures WithData(WithData(log, a), b) == WithData(log, a + b)
  {
    if |log| > 0 && log[|log| - 1].Command? {
      var l := log[|log| - 1];
      assert WithData(log, a)[|log| - 1] == Command(l.op, l.data + a);
      assert WithData(log, a)[..|log| - 1] == log[..|log| - 1];
      assert l.data + a + b == l.data + (a + b);
    }
  }

  lemma WithDataNothing(log: seq<Signal>)
    ensures WithData(log, []) == log
  {
    if |log| > 0 && log[|log| - 1].Command? {
      assert log[|log| - 1].data + [] == log[|log| - 1].data;
      assert log == log[..|log| - 1] + [log[|log| - 1]];
    }
  }

  lemma ReplayTwo(p: Panel, a: Event, b: Event)
    ensures Replay(p, [a, b]) == Receive(Receive(p, a), b)
  {
    assert [a, b][..1] == [a];
    assert [a][..0] == [];
    assert Replay(p, [a]) == Receive(p, a);
  }

  lemma ReplayFour(p: Panel, a: Event, b: Event, c: Event, d: Event)
    ensures Replay(p, [a, b, c, d]) == Receive(Receive(Receive(Receive(p, a), b), c), d)
  {
    assert [a, b, c, d][..3] == [a, b, c];
    assert [a, b, c][..2] == [a, b];
    ReplayTwo(p, a, b);
  }

  // ---------------------------------------------------------------------
  // The writers of hardware.go, as the panel sees them.

  /** A reliable transfer of parameters within txLimit extends the latest
      command with them and leaves both select lines High. */
  lemma DataWriteDecodes(p: Panel, w: Wire, c: seq<byte>, limit: int)
    requires Reliable(w) && 0 < |c| <= limit
    ensures var o := DataWriteW(w, c, limit);
      && Replay(p, Added(w, o.wire)) == Panel(High, High, WithData(p.log, c))
      && Reliable(o.wire) && o.wire.busy == w.busy && o.err == None
  {
    var o := DataWriteW(w, c, limit);
    DataWriteReliable(w, c, limit);
    ReplayFour(p, Out(CS, Low, true), Out(DC, High, true), Tx(c, true), Out(CS, High, true));
  }

  /** A reliable opcode transfer appends the command with no parameters yet,
      leaving chip select High and data/command Low. */
  lemma WriteCommandDecodes(p: Panel, w: Wire, op: byte)
    requires Reliable(w)
    ensures var r := WriteCommandW(w, op);
      && Replay(p, Added(w, r.0)) == Panel(High, Low, p.log + [Command(op, [])])
      && Reliable(r.0) && r.0.busy == w.busy && r.1 == None
  {
    var (w1, _) := OutW(w, DC, Low);
    var (w2, _) := OutW(w1, CS, Low);
    var (w3, _) := TxW(w2, [op]);
    assert Reliable(w1) && Reliable(w2) && Reliable(w3);
    var r := WriteCommandW(w, op);
    assert Added(w, r.0) == [Out(DC, Low, true), Out(CS, Low, true), Tx([op], true), Out(CS, High, true)];
    assert OpcodeSignals([op]) == [Command(op, [])];
    ReplayFour(p, Out(DC, Low, true), Out(CS, Low, true), Tx([op], true), Out(CS, High, true));
  }

  /** Chunking is invisible to the panel: a reliable batched write from
      offset i extends the latest command with all of p[i..]. */
  lemma BatchFromDecodes(p: Panel, w: Wire, s: seq<byte>, limit: int, i: nat, sent: int, fixed: bool)
    requires Reliable(w) && limit > 0 && i < |s|
    ensures var o := BatchFrom(w, s, limit, i, sent, fixed);
      && Replay(p, Added(w, o.wire)) == Panel(High, High, WithData(p.log, s[i..]))
      && Reliable(o.wire) && o.wire.busy == w.busy && o.err == None
  {
    BatchDecodesTo(p, w, s, limit, i, sent, fixed, BatchFrom(w, s, limit, i, sent, fixed));
  }

  /** BatchFromDecodes, about a named outcome o of the loop. */
  lemma {:induction false} BatchDecodesTo(p: Panel, w: Wire, s: seq<byte>, limit: int, i: nat, sent: int, fixed: bool, o: Outcome)
    requires Reliable(w) && limit > 0 && i < |s| && o == BatchFrom(w, s, limit, i, sent, fixed)
    ensures w.trace <= o.wire.trace
    ensures Replay(p, Added(w, o.wire)) == Panel(High, High, WithData(p.log, s[i..]))
    ensures Reliable(o.wire) && o.wire.busy == w.busy && o.err == None
    decreases |s| - i
  {
    var j := if i + limit > |s| then |s| else i + limit;
    var o1 := DataWriteW(w, s[i..j], limit);
    DataWriteDecodes(p, w, s[i..j], limit);
    BatchFromNext(w, s, limit, i, sent, fixed);
    var next := if fixed then sent + o1.n else sent;
    if j < |s| {
      var p1 := Replay(p, Added(w, o1.wire));
      BatchDecodesTo(p1, o1.wire, s, limit, j, next, fixed, o);
      SliceSplit(s, i, j);
      DataThenRest(p, w, o1.wire, o, s[i..j], s[j..], s[i..]);
    } else {
      assert s[i..j] == s[i..];
    }
  }

  /** A reliable data write of x followed by a reliable write of y, with
      no error, is received as x + y extending the same command. */
  lemma DataThenRest(p: Panel, w: Wire, w1: Wire, o: Outcome, x: seq<byte>, y: seq<byte>, z: seq<byte>)
    requires w.trace <= w1.trace <= o.wire.trace && x + y == z
    requires Replay(p, Added(w, w1)) == Panel(High, High, WithData(p.log, x))
    requires Reliable(w1) && w1.busy == w.busy
    requires Replay(Replay(p, Added(w, w1)), Added(w1, o.wire)) == Panel(High, High, WithData(Replay(p, Added(w, w1)).log, y))
    requires Reliable(o.wire) && o.wire.busy == w1.busy && o.err == None
    ensures Replay(p, Added(w, o.wire)) == Panel(High, High, WithData(p.log, z))
    ensures Reliable(o.wire) && o.wire.busy == w.busy && o.err == None
  {
    ReplayThrough(p, w, w1, o.wire);
    WithDataAppend(p.log, x, y);
  }

  lemma SliceSplit(s: seq<byte>, i: nat, j: nat)
    requires i <= j <= |s|
    ensures s[i..j] + s[j..] == s[i..]
  {
  }

  /** A reliable command write of [op] ++ data is received as exactly that
      command with exactly those parameters, however the data is chunked;
      as written it reports 1, the opcode alone, since the batched writer
      counts 0 for the data. */
  lemma CommandWriteDecodes(p: Panel, w: Wire, s: seq<byte>, limit: int)
    requires Reliable(w) && |s| > 0 && (limit > 0 || |s| == 1)
    ensures var o := CommandWriteW(w, s, limit);
      && Replay(p, Added(w, o.wire)).log == p.log + [Command(s[0], s[1..])]
      && Replay(p, Added(w, o.wire)).cs == High
      && Reliable(o.wire) && o.wire.busy == w.busy && o.err == None && o.n == 1
  {
    var r := WriteCommandW(w, s[0]);
    WriteCommandDecodes(p, w, s[0]);
    var p1 := Panel(High, Low, p.log + [Command(s[0], [])]);
    if |s| > 1 {
      var d := s[1..];
      var o := BatchedW(r.0, d, limit, false);
      assert d[0..] == d;
      assert [] + d == d;
      assert (p1.log)[..|p1.log| - 1] == p.log;
      var log' := p.log + [Command(s[0], d)];
      assert WithData(p1.log, d) == log';
      BatchFromDecodes(p1, r.0, d, limit, 0, 0, false);
      assert Replay(p1, Added(r.0, o.wire)) == Panel(High, High, log');
      BatchedCount(r.0, d, limit);
      ReplayThrough(p, w, r.0, o.wire);
      assert Replay(p, Added(w, o.wire)).log == log';
      assert CommandWriteW(w, s, limit) == Outcome(o.wire, 1 + o.n, o.err);
    } else {
      assert s[1..] == [];
    }
  }

  // ---------------------------------------------------------------------
  // The busy-wait, shared by both drivers.

  /** waitUntilIdle: read busy, pausing 10 ms after every Low read, until a
      read gives High; then pause `settle` ms. */
  function WaitIdleW(w: Wire, settle: nat): (w': Wire)
    ensures w.trace <= w'.trace && w'.faults == w.faults
    decreases |w.busy|
  {
    var (w1, level) := ReadW(w);
    if level == High then PauseW(w1, settle) else WaitIdleW(PauseW(w1, 10), settle)
  }

  /** The panel sees the busy-wait as exactly one idle signal. */
  lemma {:induction false} WaitIdleDecodes(p: Panel, w: Wire, settle: nat)
    ensures Replay(p, Added(w, WaitIdleW(w, settle))) == p.(log := p.log + [Idle])
    decreases |w.busy|
  {
    var (w1, level) := ReadW(w);
    var w' := WaitIdleW(w, settle);
    if level == High {
      assert Added(w, w') == [Read(High), Pause(settle)];
      ReplayTwo(p, Read(High), Pause(settle));
    } else {
      var w2 := PauseW(w1, 10);
      assert w' == WaitIdleW(w2, settle);
      WaitIdleDecodes(p, w2, settle);
      assert Added(w, w2) == [Read(Low), Pause(10)];
      ReplayTwo(p, Read(Low), Pause(10));
      assert Replay(p, Added(w, w2)) == p;
      ReplayThrough(p, w, w2, w');
    }
  }

  /** The busy-wait returns only after a read of High, and its last act is
      the settling pause. */
  lemma {:induction false} WaitIdleQuiet(w: Wire, settle: nat)
    ensures var e := Added(w, WaitIdleW(w, settle));
      |e| >= 2 && e[|e| - 2..] == [Read(High), Pause(settle)]
    decreases |w.busy|
  {
    var (w1, level) := ReadW(w);
    var w' := WaitIdleW(w, settle);
    if level == High {
      assert Added(w, w') == [Read(High), Pause(settle)];
    } else {
      var w2 := PauseW(w1, 10);
      WaitIdleQuiet(w2, settle);
      AddedTrans(w, w2, w');
      var e, e2 := Added(w, w'), Added(w2, w');
      assert e == Added(w, w2) + e2;
      assert e[|e| - 2..] == e2[|e2| - 2..];
    }
  }

  // ---------------------------------------------------------------------
  // Scripts.

  datatype Step =
    | Pulse(level: Level)
    | Delay(millis: nat)
    | Send(op: byte, data: seq<byte>)
    | AwaitIdle

  /** Two stretches of the trace, each decoding to its expected signals,
      decode together to both in turn. */
  lemma SignalsStep(p: Panel, w: Wire, w1: Wire, w2: Wire, e1: seq<Signal>, e2: seq<Signal>)
    requires w.trace <= w1.trace <= w2.trace
    requires Replay(p, Added(w, w1)).log == p.log + e1
    requires Replay(Replay(p, Added(w, w1)), Added(w1, w2)).log == Replay(p, Added(w, w1)).log + e2
    ensures Replay(p, Added(w, w2)).log == p.log + (e1 + e2)
  {
    ReplayThrough(p, w, w1, w2);
  }

  /** A non-empty script is its init and its last step. */
  lemma StepsSnoc(steps: seq<Step>)
    requires steps != []
    ensures steps[..|steps| - 1] + [steps[|steps| - 1]] == steps
  {
  }

  /** What the panel should receive for one step. */
  function SignalsOf(s: Step): seq<Signal>
  {
    match s
    case Pulse(level) => [ResetLine(level)]
    case Delay(_) => []
    case Send(op, data) => [Command(op, data)]
    case AwaitIdle => [Idle]
  }

  /** What the panel should receive for a script, step after step. */
  function Expected(steps: seq<Step>): seq<Signal>
  {
    if steps == [] then [] else SignalsOf(steps[0]) + Expected(steps[1..])
  }

  lemma {:induction false} ExpectedAppend(a: seq<Step>, b: seq<Step>)
    ensures Expected(a + b) == Expected(a) + Expected(b)
  {
    if a == [] {
      assert a + b == b;
    } else {
      assert (a + b)[0] == a[0];
      assert (a + b)[1..] == a[1..] + b;
      ExpectedAppend(a[1..], b);
    }
  }

  lemma ExpectedOne(s: Step)
    ensures Expected([s]) == SignalsOf(s)
  {
    assert [s][1..] == [];
  }

  /** The reset sequence of both drivers: rst High, 200 ms, Low, 2 ms, High,
      200 ms. */
  const ResetScript: seq<Step> := [Pulse(High), Delay(200), Pulse(Low), Delay(2), Pulse(High), Delay(200)]
}

/** The SPI/GPIO channel to the panel (devices/epd7in5bhd/hardware.go).

    The periph connection and pins are modelled as a transport that records
    every pin change, transfer, busy-line read and pause in a trace. A script
    of faults decides which pin changes and transfers fail (one entry per
    operation, `true` = fails, an exhausted script succeeds), and a script of
    busy-line levels gives successive reads (an exhausted script reads High).
    The writers of hardware.go (dataWriter, commandWriter, batchedWriter) are
    methods of the class Hardware; each is proved equal to a function on the
    transport's state, and the lemmas below state their return rules, pin
    discipline and chunking. */
module Hardware {
  import opened Bytes

  datatype Level = Low | High

  datatype Pin = CS | DC | RST

  datatype Event =
    | Out(pin: Pin, level: Level, ok: bool)
    | Tx(data: seq<byte>, ok: bool)
    | Read(level: Level)
    | Pause(millis: nat)

  /** The errors the writers return: io.ErrShortWrite, a failed pin change,
      a failed transfer, a failed opcode transfer ("sending command ..."), and
      a failed deferred chip-select release wrapping the error so far. */
  datatype Error =
    | ShortWrite
    | PinFailed(pin: Pin, level: Level)
    | TxFailed
    | CommandFailed(op: byte)
    | RestoreFailed(prior: Option<Error>)

  /** The transport's state: what happened so far and what the scripts hold. */
  datatype Wire = Wire(trace: seq<Event>, faults: seq<bool>, busy: seq<Level>)

  /** A writer's results: the new state, the count returned and the error. */
  datatype Outcome = Outcome(wire: Wire, n: int, err: Option<Error>)

  function Remaining<T>(s: seq<T>): seq<T>
  {
    if s == [] then [] else s[1..]
  }

  /** The next fallible operation succeeds. */
  predicate Succeeds(w: Wire)
  {
    w.faults == [] || !w.faults[0]
  }

  /** No operation will ever fail. */
  predicate Reliable(w: Wire)
  {
    forall i :: 0 <= i < |w.faults| ==> !w.faults[i]
  }

  /** The events an operation added to the trace. */
  function Added(w: Wire, w': Wire): seq<Event>
    requires w.trace <= w'.trace
  {
    w'.trace[|w.trace|..]
  }

  /** pin.Out(level): recorded, and reports whether it succeeded. */
  function OutW(w: Wire, pin: Pin, level: Level): (Wire, bool)
  {
    var ok := Succeeds(w);
    (Wire(w.trace + [Out(pin, level, ok)], Remaining(w.faults), w.busy), ok)
  }

  /** conn.Tx(data, nil). */
  function TxW(w: Wire, data: seq<byte>): (Wire, bool)
  {
    var ok := Succeeds(w);
    (Wire(w.trace + [Tx(data, ok)], Remaining(w.faults), w.busy), ok)
  }

  /** busy.Read(). */
  function ReadW(w: Wire): (Wire, Level)
  {
    var level := if w.busy == [] then High else w.busy[0];
    (Wire(w.trace + [Read(level)], w.faults, Remaining(w.busy)), level)
  }

  /** time.Sleep. */
  function PauseW(w: Wire, millis: nat): Wire
  {
    w.(trace := w.trace + [Pause(millis)])
  }

  /** dataWriter.Write with the given txLimit. */
  function DataWriteW(w: Wire, p: seq<byte>, limit: int): (o: Outcome)
    ensures w.trace <= o.wire.trace
  {
    if |p| == 0 then Outcome(w, 0, None)
    else
      var (w1, ok1) := OutW(w, CS, Low);
      if !ok1 then Outcome(w1, 0, Some(PinFailed(CS, Low)))
      else
        var (w2, ok2) := OutW(w1, DC, High);
        if !ok2 then Outcome(w2, 0, Some(PinFailed(DC, High)))
        else
          var body :=
            if limit <= 0 then Outcome(w2, 0, Some(ShortWrite))
            else if |p| > limit then
              var (w3, ok3) := TxW(w2, p[..limit]);
              Outcome(w3, limit, Some(if ok3 then ShortWrite else TxFailed))
            else
              var (w3, ok3) := TxW(w2, p);
              Outcome(w3, |p|, if ok3 then None else Some(TxFailed));
          var (w4, ok4) := OutW(body.wire, CS, High);
          Outcome(w4, body.n, if ok4 then body.err else Some(RestoreFailed(body.err)))
  }

  /** commandWriter.writeCommand: the opcode alone, with dc Low. */
  function WriteCommandW(w: Wire, op: byte): (r: (Wire, Option<Error>))
    ensures w.trace <= r.0.trace
  {
    var (w1, ok1) := OutW(w, DC, Low);
    if !ok1 then (w1, Some(PinFailed(DC, Low)))
    else
      var (w2, ok2) := OutW(w1, CS, Low);
      if !ok2 then (w2, Some(PinFailed(CS, Low)))
      else
        var (w3, ok3) := TxW(w2, [op]);
        var err := if ok3 then None else Some(CommandFailed(op));
        var (w4, ok4) := OutW(w3, CS, High);
        (w4, if ok4 then err else Some(RestoreFailed(err)))
  }

  /** The loop of batchedWriter.Write from offset i, with `sent` bytes counted
      so far; the destination is dataWriter and the batch size is txLimit.
      `fixed` chooses between the count as written (`n += sent`, so `sent`
      never grows) and the evidently intended one (`sent += n`). */
  function BatchFrom(w: Wire, p: seq<byte>, limit: int, i: nat, sent: int, fixed: bool): (o: Outcome)
    requires limit > 0 || i >= |p|
    ensures w.trace <= o.wire.trace
    decreases |p| - i
  {
    if i >= |p| then Outcome(w, sent, None)
    else
      var j := if i + limit > |p| then |p| else i + limit;
      var o := DataWriteW(w, p[i..j], limit);
      if o.err.Some? then Outcome(o.wire, o.n + sent, o.err)
      else BatchFrom(o.wire, p, limit, i + limit, if fixed then sent + o.n else sent, fixed)
  }

  /** batchedWriter{dataWriter, txLimit}.Write. */
  function BatchedW(w: Wire, p: seq<byte>, limit: int, fixed: bool): (o: Outcome)
    requires limit > 0 || |p| == 0
    ensures w.trace <= o.wire.trace
  {
    if |p| == 0 then Outcome(w, 0, None) else BatchFrom(w, p, limit, 0, 0, fixed)
  }

  /** commandWriter.Write: the opcode, then the rest through the batched data
      writer, whose count it adds to the opcode's 1 as written. */
  function CommandWriteW(w: Wire, p: seq<byte>, limit: int): (o: Outcome)
    requires limit > 0 || |p| <= 1
    ensures w.trace <= o.wire.trace
  {
    if |p| == 0 then Outcome(w, 0, None)
    else
      var (w1, e1) := WriteCommandW(w, p[0]);
      if e1.Some? then Outcome(w1, 1, e1)
      else if |p| == 1 then Outcome(w1, 1, None)
      else
        var o := BatchedW(w1, p[1..], limit, false);
        Outcome(o.wire, 1 + o.n, o.err)
  }

  // ---------------------------------------------------------------------
  // Return rules and pin discipline of dataWriter.Write.

  /** dataWriter.Write returns 0 for an empty payload, a failed pin change or
      a non-positive txLimit, and otherwise the number of bytes it handed to
      Tx (all of p, or the first txLimit bytes and a short write); a nil
      error means all of p was sent. */
  lemma DataWriteCount(w: Wire, p: seq<byte>, limit: int)
    ensures var o := DataWriteW(w, p, limit);
      && 0 <= o.n <= |p|
      && (|p| == 0 ==> o.n == 0 && o.err == None && o.wire == w)
      && (|p| > 0 && limit <= 0 ==> o.n == 0 && o.err.Some?)
      && (|p| > 0 && Reliable(w) && limit > 0 ==> o.n == (if |p| > limit then limit else |p|))
      && (|p| > limit > 0 ==> o.err.Some?)
      && (o.err == None ==> o.n == |p|)
  {
    var o := DataWriteW(w, p, limit);
    if |p| > 0 && Reliable(w) {
      var (w1, ok1) := OutW(w, CS, Low);
      assert ok1 && Reliable(w1);
      var (w2, ok2) := OutW(w1, DC, High);
      assert ok2;
    }
  }

  /** The pin discipline of a data transfer: chip select goes Low, then data
      mode High; only then is the payload (capped at txLimit) transferred, and
      once both pins were set, chip select is released (driven High) last. */
  lemma DataWritePins(w: Wire, p: seq<byte>, limit: int)
    requires |p| > 0
    ensures var e := Added(w, DataWriteW(w, p, limit).wire);
      && 1 <= |e| <= 4
      && e[0].Out? && e[0].pin == CS && e[0].level == Low
      && (e[0].ok ==> e[1].Out? && e[1].pin == DC && e[1].level == High)
      && (|e| > 2 ==> e[|e| - 1].Out? && e[|e| - 1].pin == CS && e[|e| - 1].level == High)
      && (|e| == 4 <==> limit > 0 && e[0].ok && e[1].ok)
      && (|e| == 4 ==> e[2] == Tx(if |p| > limit then p[..limit] else p, e[2].ok))
  {
  }

  /** A reliable transfer of a payload within txLimit adds exactly the four
      events of the protocol and returns (len(p), nil). */
  lemma DataWriteReliable(w: Wire, p: seq<byte>, limit: int)
    requires Reliable(w) && 0 < |p| <= limit
    ensures var o := DataWriteW(w, p, limit);
      && Added(w, o.wire) == [Out(CS, Low, true), Out(DC, High, true), Tx(p, true), Out(CS, High, true)]
      && o.n == |p| && o.err == None && Reliable(o.wire) && o.wire.busy == w.busy
  {
    var (w1, _) := OutW(w, CS, Low);
    var (w2, _) := OutW(w1, DC, High);
    var (w3, _) := TxW(w2, p);
    assert Reliable(w1) && Reliable(w2) && Reliable(w3);
  }

  // ---------------------------------------------------------------------
  // Chunking of batchedWriter.Write.

  /** The slices p[i:min(i+b, len(p))] for i = 0, b, 2b, ... */
  function Chunks(p: seq<byte>, b: int): (cs: seq<seq<byte>>)
    requires b > 0
    decreases |p|
  {
    if p == [] then [] else if |p| <= b then [p] else [p[..b]] + Chunks(p[b..], b)
  }

  function Flatten(cs: seq<seq<byte>>): seq<byte>
  {
    if cs == [] then [] else cs[0] + Flatten(cs[1..])
  }

  /** The chunks concatenate back to p; each holds 1 to b bytes and all but
      the last exactly b. */
  lemma {:induction false} ChunksTile(p: seq<byte>, b: int)
    requires b > 0
    ensures Flatten(Chunks(p, b)) == p
    ensures forall k :: 0 <= k < |Chunks(p, b)| ==> 1 <= |Chunks(p, b)[k]| <= b
    ensures forall k :: 0 <= k < |Chunks(p, b)| - 1 ==> |Chunks(p, b)[k]| == b
    decreases |p|
  {
    if |p| > b {
      ChunksTile(p[b..], b);
      var rest := Chunks(p[b..], b);
      assert Chunks(p, b) == [p[..b]] + rest;
      assert Flatten(Chunks(p, b)) == p[..b] + Flatten(rest);
      assert p == p[..b] + p[b..];
    }
  }

  /** The payloads of the transfers among some events. */
  function TxData(e: seq<Event>): seq<seq<byte>>
  {
    if e == [] then [] else (if e[0].Tx? then [e[0].data] else []) + TxData(e[1..])
  }

  lemma {:induction false} TxDataAppend(a: seq<Event>, b: seq<Event>)
    ensures TxData(a + b) == TxData(a) + TxData(b)
  {
    if a == [] {
      assert a + b == b;
    } else {
      assert (a + b)[0] == a[0];
      assert (a + b)[1..] == a[1..] + b;
      TxDataAppend(a[1..], b);
    }
  }

  lemma TxDataOne(e: Event)
    ensures TxData([e]) == if e.Tx? then [e.data] else []
  {
    assert [e][1..] == [];
  }

  /** Added events compose. */
  lemma AddedTrans(w1: Wire, w2: Wire, w3: Wire)
    requires w1.trace <= w2.trace <= w3.trace
    ensures Added(w1, w3) == Added(w1, w2) + Added(w2, w3)
  {
  }

  /** A chunk that fits in txLimit is transferred whole, if at all. */
  lemma DataWriteChunk(w: Wire, c: seq<byte>, limit: int)
    requires 0 < |c| <= limit
    ensures var o := DataWriteW(w, c, limit);
      && TxData(Added(w, o.wire)) <= [c]
      && (o.err == None ==> TxData(Added(w, o.wire)) == [c] && o.n == |c|)
      && o.err != Some(ShortWrite) && o.err != Some(RestoreFailed(Some(ShortWrite)))
  {
    DataWritePins(w, c, limit);
    DataWriteCount(w, c, limit);
    var e := Added(w, DataWriteW(w, c, limit).wire);
    TxDataOne(e[0]);
    if |e| > 1 {
      TxDataOne(e[1]);
      assert e == [e[0]] + [e[1]] + e[2..];
      TxDataAppend([e[0]], [e[1]]);
      TxDataAppend([e[0]] + [e[1]], e[2..]);
      if |e| == 4 {
        assert e[2..] == [e[2]] + [e[3]];
        TxDataOne(e[2]);
        TxDataOne(e[3]);
        TxDataAppend([e[2]], [e[3]]);
      }
    }
  }

  /** The chunks from offset i: the slice up to i + b, then the chunks after it. */
  lemma ChunksFrom(p: seq<byte>, b: int, i: nat)
    requires b > 0 && i < |p|
    ensures var j := if i + b > |p| then |p| else i + b;
      Chunks(p[i..], b) == [p[i..j]] + Chunks(p[j..], b)
  {
    var j := if i + b > |p| then |p| else i + b;
    if i + b < |p| {
      assert p[i..][..b] == p[i..j];
      assert p[i..][b..] == p[j..];
    } else {
      assert p[i..] == p[i..j];
      assert p[j..] == [];
    }
  }

  /** From offset i, the batched writer transfers a prefix of the remaining
      chunks, in order, and all of them when it reports no error; it never
      reports a short write. */
  lemma {:induction false} BatchFromChunks(w: Wire, p: seq<byte>, limit: int, i: nat, sent: int, fixed: bool)
    requires limit > 0 && i <= |p|
    ensures var o := BatchFrom(w, p, limit, i, sent, fixed);
      && TxData(Added(w, o.wire)) <= Chunks(p[i..], limit)
      && (o.err == None ==> TxData(Added(w, o.wire)) == Chunks(p[i..], limit))
      && o.err != Some(ShortWrite) && o.err != Some(RestoreFailed(Some(ShortWrite)))
    decreases |p| - i
  {
    var o := BatchFrom(w, p, limit, i, sent, fixed);
    if i == |p| {
      assert p[i..] == [];
      assert Added(w, o.wire) == [];
    } else {
      var j := if i + limit > |p| then |p| else i + limit;
      var c := p[i..j];
      var o1 := DataWriteW(w, c, limit);
      DataWriteChunk(w, c, limit);
      ChunksFrom(p, limit, i);
      if o1.err.None? {
        var next := if fixed then sent + o1.n else sent;
        BatchFromNext(w, p, limit, i, sent, fixed);
        BatchFromChunks(o1.wire, p, limit, j, next, fixed);
        ChunkThenRest(w, o1.wire, o.wire, c, Chunks(p[j..], limit));
      } else {
        BatchFromStops(w, p, limit, i, sent, fixed);
        PrefixOfHead(TxData(Added(w, o1.wire)), c, Chunks(p[j..], limit));
      }
    }
  }

  /** A transfer of chunk c, then transfers that are a prefix of rest, are
      a prefix of [c] + rest, and all of it when they are all of rest. */
  lemma ChunkThenRest(w: Wire, w1: Wire, w2: Wire, c: seq<byte>, rest: seq<seq<byte>>)
    requires w.trace <= w1.trace <= w2.trace
    requires TxData(Added(w, w1)) == [c] && TxData(Added(w1, w2)) <= rest
    ensures TxData(Added(w, w2)) <= [c] + rest
    ensures TxData(Added(w1, w2)) == rest ==> TxData(Added(w, w2)) == [c] + rest
  {
    AddedTrans(w, w1, w2);
    TxDataAppend(Added(w, w1), Added(w1, w2));
  }

  /** A prefix of [c] is a prefix of [c] + rest. */
  lemma PrefixOfHead(x: seq<seq<byte>>, c: seq<byte>, rest: seq<seq<byte>>)
    requires x <= [c]
    ensures x <= [c] + rest
  {
  }

  /** After a chunk that fails, the loop returns that chunk's outcome. */
  lemma BatchFromStops(w: Wire, p: seq<byte>, limit: int, i: nat, sent: int, fixed: bool)
    requires limit > 0 && i < |p|
    ensures var j := if i + limit > |p| then |p| else i + limit;
      var o1 := DataWriteW(w, p[i..j], limit);
      o1.err != None ==> BatchFrom(w, p, limit, i, sent, fixed) == Outcome(o1.wire, o1.n + sent, o1.err)
  {
  }

  /** After a chunk that succeeds, the loop goes on at the end of that chunk. */
  lemma BatchFromNext(w: Wire, p: seq<byte>, limit: int, i: nat, sent: int, fixed: bool)
    requires limit > 0 && i < |p|
    ensures var j := if i + limit > |p| then |p| else i + limit;
      var o1 := DataWriteW(w, p[i..j], limit);
      o1.err == None ==>
        BatchFrom(w, p, limit, i, sent, fixed) == BatchFrom(o1.wire, p, limit, j, if fixed then sent + o1.n else sent, fixed)
  {
  }

  /** batchedWriter.Write calls dataWriter on consecutive txLimit-sized
      slices of p, stops at the first that fails, and sends all of them when
      it reports success; no transfer is ever cut short. */
  lemma BatchedChunks(w: Wire, p: seq<byte>, limit: int, fixed: bool)
    requires limit > 0
    ensures var o := BatchedW(w, p, limit, fixed);
      && TxData(Added(w, o.wire)) <= Chunks(p, limit)
      && (o.err == None ==> TxData(Added(w, o.wire)) == Chunks(p, limit))
      && o.err != Some(ShortWrite) && o.err != Some(RestoreFailed(Some(ShortWrite)))
  {
    if |p| == 0 {
      assert Added(w, w) == [];
    } else {
      assert p[0..] == p;
      BatchFromChunks(w, p, limit, 0, 0, fixed);
    }
  }

  // ---------------------------------------------------------------------
  // The count batchedWriter.Write returns.

  /** The two counts drive the same transfers and report the same error. */
  lemma {:induction false} BatchFromSameWire(w: Wire, p: seq<byte>, limit: int, i: nat, s1: int, s2: int)
    requires limit > 0
    ensures BatchFrom(w, p, limit, i, s1, true).wire == BatchFrom(w, p, limit, i, s2, false).wire
    ensures BatchFrom(w, p, limit, i, s1, true).err == BatchFrom(w, p, limit, i, s2, false).err
    decreases |p| - i
  {
    if i < |p| {
      var j := if i + limit > |p| then |p| else i + limit;
      var o := DataWriteW(w, p[i..j], limit);
      if o.err.None? {
        BatchFromSameWire(o.wire, p, limit, i + limit, s1 + o.n, s2);
      }
    }
  }

  /** With the intended count, a successful write reports every byte of p. */
  lemma {:induction false} BatchFromCountsAll(w: Wire, p: seq<byte>, limit: int, i: nat, sent: int)
    requires limit > 0 && i <= |p|
    ensures var o := BatchFrom(w, p, limit, i, sent, true);
      o.err == None ==> o.n == sent + |p| - i
    decreases |p| - i
  {
    if i < |p| {
      var j := if i + limit > |p| then |p| else i + limit;
      var o := DataWriteW(w, p[i..j], limit);
      DataWriteCount(w, p[i..j], limit);
      if o.err.None? {
        if i + limit <= |p| {
          BatchFromCountsAll(o.wire, p, limit, i + limit, sent + o.n);
        }
      }
    }
  }

  /** As written, the count never grows: success reports `sent` unchanged. */
  lemma {:induction false} BatchFromCountsNothing(w: Wire, p: seq<byte>, limit: int, i: nat, sent: int)
    requires limit > 0
    ensures var o := BatchFrom(w, p, limit, i, sent, false);
      o.err == None ==> o.n == sent
    decreases |p| - i
  {
    if i < |p| {
      var j := if i + limit > |p| then |p| else i + limit;
      var o := DataWriteW(w, p[i..j], limit);
      if o.err.None? {
        BatchFromCountsNothing(o.wire, p, limit, i + limit, sent);
      }
    }
  }

  /** batchedWriter.Write as written reports 0 bytes for every successful
      write, while the intended count is len(p); both make the same
      transfers and return the same error. */
  lemma BatchedCount(w: Wire, p: seq<byte>, limit: int)
    requires limit > 0
    ensures BatchedW(w, p, limit, true).wire == BatchedW(w, p, limit, false).wire
    ensures BatchedW(w, p, limit, true).err == BatchedW(w, p, limit, false).err
    ensures BatchedW(w, p, limit, true).err == None ==> BatchedW(w, p, limit, true).n == |p|
    ensures BatchedW(w, p, limit, false).err == None ==> BatchedW(w, p, limit, false).n == 0
  {
    if |p| > 0 {
      BatchFromSameWire(w, p, limit, 0, 0, 0);
      BatchFromCountsAll(w, p, limit, 0, 0);
      BatchFromCountsNothing(w, p, limit, 0, 0);
    }
  }

  /** A concrete write that shows the discrepancy: two bytes sent reliably in
      one batch are reported as 0 bytes written. */
  lemma BatchedCountExample(w: Wire)
    requires Reliable(w)
    ensures BatchedW(w, [1, 2], 2, false) == Outcome(BatchedW(w, [1, 2], 2, false).wire, 0, None)
    ensures BatchedW(w, [1, 2], 2, true).n == 2
  {
    var p: seq<byte> := [1, 2];
    DataWriteReliable(w, p, 2);
    assert p[0..2] == p;
    BatchedCount(w, p, 2);
  }

  // ---------------------------------------------------------------------
  // commandWriter.Write.

  /** commandWriter.Write returns (0, nil) for an empty payload without
      touching the pins; 1 with the error when the opcode fails; (1, nil) for
      an opcode alone; otherwise 1 plus the batched data writer's count, with
      its error, which as written makes a successful write report 1. */
  lemma CommandWriteCount(w: Wire, p: seq<byte>, limit: int)
    requires limit > 0 || |p| <= 1
    ensures var o := CommandWriteW(w, p, limit);
      && (|p| == 0 ==> o == Outcome(w, 0, None))
      && (|p| > 0 && WriteCommandW(w, p[0]).1.Some? ==>
            o == Outcome(WriteCommandW(w, p[0]).0, 1, WriteCommandW(w, p[0]).1))
      && (|p| == 1 && WriteCommandW(w, p[0]).1 == None ==> o.n == 1 && o.err == None)
      && (|p| > 1 && WriteCommandW(w, p[0]).1 == None ==>
            var d := BatchedW(WriteCommandW(w, p[0]).0, p[1..], limit, false);
            o.n == 1 + d.n && o.err == d.err && (d.err == None ==> o.n == 1))
  {
    if |p| > 1 && WriteCommandW(w, p[0]).1 == None {
      BatchedCount(WriteCommandW(w, p[0]).0, p[1..], limit);
    }
  }

  /** An opcode transfer sends the opcode byte alone, or nothing; so when it
      fails no data follows. */
  lemma WriteCommandTx(w: Wire, op: byte)
    ensures TxData(Added(w, WriteCommandW(w, op).0)) <= [[op]]
  {
    var e := Added(w, WriteCommandW(w, op).0);
    WriteCommandPins(w, op);
    TxDataOne(e[0]);
    if |e| > 1 {
      TxDataOne(e[1]);
      TxDataAppend([e[0]], [e[1]]);
      assert e == [e[0]] + [e[1]] + e[2..];
      TxDataAppend([e[0]] + [e[1]], e[2..]);
      if |e| == 4 {
        assert e[2..] == [e[2]] + [e[3]];
        TxDataOne(e[2]);
        TxDataOne(e[3]);
        TxDataAppend([e[2]], [e[3]]);
      }
    }
  }

  /** The pin discipline of an opcode transfer: data/command Low, then chip
      select Low, then the single opcode byte, then chip select High. */
  lemma WriteCommandPins(w: Wire, op: byte)
    ensures var e := Added(w, WriteCommandW(w, op).0);
      || e == [Out(DC, Low, false)]
      || e == [Out(DC, Low, true), Out(CS, Low, false)]
      || (|e| == 4 && e[..3] == [Out(DC, Low, true), Out(CS, Low, true), Tx([op], e[2].ok)]
          && e[3].Out? && e[3].pin == CS && e[3].level == High)
    ensures Reliable(w) ==> WriteCommandW(w, op).1 == None
  {
  }

  /** Every transfer on the data path carries 1 to txLimit bytes. */
  lemma {:induction false} BatchedTxSizes(w: Wire, p: seq<byte>, limit: int)
    requires limit > 0
    ensures var d := TxData(Added(w, BatchedW(w, p, limit, true).wire));
      forall k :: 0 <= k < |d| ==> 1 <= |d[k]| <= limit
  {
    BatchedChunks(w, p, limit, true);
    ChunksTile(p, limit);
  }

  // ---------------------------------------------------------------------
  // The transport and the writers, in place.

  /** The hardware of hardware.go: the transfer limit and the transport. */
  class Hardware {
    const txLimit: int
    var trace: seq<Event>
    var faults: seq<bool>
    var busy: seq<Level>

    function State(): Wire
      reads this
    {
      Wire(trace, faults, busy)
    }

    constructor (txLimit: int, faults: seq<bool>, busy: seq<Level>)
      ensures this.txLimit == txLimit && State() == Wire([], faults, busy)
    {
      this.txLimit := txLimit;
      this.trace := [];
      this.faults := faults;
      this.busy := busy;
    }

    method Out(pin: Pin, level: Level) returns (ok: bool)
      modifies this
      ensures (State(), ok) == OutW(old(State()), pin, level)
    {
      ok := faults == [] || !faults[0];
      trace := trace + [Event.Out(pin, level, ok)];
      faults := Remaining(faults);
    }

    method Tx(data: seq<byte>) returns (ok: bool)
      modifies this
      ensures (State(), ok) == TxW(old(State()), data)
    {
      ok := faults == [] || !faults[0];
      trace := trace + [Event.Tx(data, ok)];
      faults := Remaining(faults);
    }

    method Read() returns (level: Level)
      modifies this
      ensures (State(), level) == ReadW(old(State()))
    {
      level := if busy == [] then High else busy[0];
      trace := trace + [Event.Read(level)];
      busy := Remaining(busy);
    }

    method Sleep(millis: nat)
      modifies this
      ensures State() == PauseW(old(State()), millis)
    {
      trace := trace + [Pause(millis)];
    }

    /** dataWriter.Write. */
    method DataWrite(p: seq<byte>) returns (n: int, err: Option<Error>)
      modifies this
      ensures Outcome(State(), n, err) == DataWriteW(old(State()), p, txLimit)
    {
      if |p| == 0 {
        return 0, None;
      }
      var ok := Out(CS, Low);
      if !ok {
        return 0, Some(PinFailed(CS, Low));
      }
      ok := Out(DC, High);
      if !ok {
        return 0, Some(PinFailed(DC, High));
      }
      if txLimit <= 0 {
        n, err := 0, Some(ShortWrite);
      } else if |p| > txLimit {
        ok := Tx(p[..txLimit]);
        n, err := txLimit, Some(if ok then ShortWrite else TxFailed);
      } else {
        ok := Tx(p);
        n, err := |p|, if ok then None else Some(TxFailed);
      }
      // the deferred release of chip select
      var released := Out(CS, High);
      if !released {
        err := Some(RestoreFailed(err));
      }
    }

    /** commandWriter.writeCommand. */
    method WriteCommand(op: byte) returns (err: Option<Error>)
      modifies this
      ensures (State(), err) == WriteCommandW(old(State()), op)
    {
      var ok := Out(DC, Low);
      if !ok {
        return Some(PinFailed(DC, Low));
      }
      ok := Out(CS, Low);
      if !ok {
        return Some(PinFailed(CS, Low));
      }
      ok := Tx([op]);
      err := if ok then None else Some(CommandFailed(op));
      // the deferred release of chip select
      var released := Out(CS, High);
      if !released {
        err := Some(RestoreFailed(err));
      }
    }

    /** batchedWriter.Write over dataWriter, with the count as intended. */
    method BatchedWrite(p: seq<byte>) returns (n: int, err: Option<Error>)
      requires txLimit > 0 || |p| == 0
      modifies this
      ensures Outcome(State(), n, err) == BatchedW(old(State()), p, txLimit, true)
    {
      var sent := 0;
      var i := 0;
      while i < |p|
        invariant BatchFrom(State(), p, txLimit, i, sent, true) == BatchedW(old(State()), p, txLimit, true)
        decreases |p| - i
      {
        var j := if i + txLimit > |p| then |p| else i + txLimit;
        var m, e := DataWrite(p[i..j]);
        if e.Some? {
          return m + sent, e;
        }
        sent := sent + m;
        i := i + txLimit;
      }
      return sent, None;
    }

    /** batchedWriter.Write over dataWriter, as written: `n += sent` leaves
        `sent` at 0. */
    method BatchedWriteAsWritten(p: seq<byte>) returns (n: int, err: Option<Error>)
      requires txLimit > 0 || |p| == 0
      modifies this
      ensures Outcome(State(), n, err) == BatchedW(old(State()), p, txLimit, false)
    {
      var sent := 0;
      var i := 0;
      while i < |p|
        invariant BatchFrom(State(), p, txLimit, i, sent, false) == BatchedW(old(State()), p, txLimit, false)
        decreases |p| - i
      {
        var j := if i + txLimit > |p| then |p| else i + txLimit;
        var m, e := DataWrite(p[i..j]);
        if e.Some? {
          return m + sent, e;
        }
        m := m + sent;
        i := i + txLimit;
      }
      return sent, None;
    }

    /** commandWriter.Write; the data goes through DataWriter(), the batched
        writer with batch size txLimit. */
    method CommandWrite(p: seq<byte>) returns (n: int, err: Option<Error>)
      requires txLimit > 0 || |p| <= 1
      modifies this
      ensures Outcome(State(), n, err) == CommandWriteW(old(State()), p, txLimit)
    {
      if |p| == 0 {
        return 0, None;
      }
      var e := WriteCommand(p[0]);
      if e.Some? {
        return 1, e;
      }
      if |p| == 1 {
        return 1, None;
      }
      var m;
      m, err := BatchedWriteAsWritten(p[1..]);
      n := 1 + m;
    }
  }
}

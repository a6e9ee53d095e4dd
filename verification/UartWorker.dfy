/**
 The firmware's per-port handler (Firmware/UARTEthernetBridge/uartworker.cpp).  `Uart` and the functions on it are its
 specification; class `UARTWorker` is the object, with its ring and its slices of the shared package buffers.  The
 UART itself appears as parameters and results: bytes that fit its output queue, bytes waiting in its input queue.
 */
module UartWorker {
  import opened Bytes
  import opened RingBuffer
  import opened Command

  const MODE_CLOSED: u8 := 0xFF

  /** `pending` is the part of the transmit slot filled so far. */
  datatype Uart = Uart(ring: Queue, mode: u8, session: u8, pending: seq<byte>)
  {
    predicate Valid() { ring.Valid() }
    predicate IsOpen() { mode < MODE_CLOSED }
  }

  /** The four-byte port speed at the start of an Open payload is zero. */
  predicate NoSpeed(slot: seq<byte>)
    requires |slot| >= 4
  {
    slot[0] == 0 && slot[1] == 0 && slot[2] == 0 && slot[3] == 0
  }

  function Closed(u: Uart): Uart
    requires u.Valid()
  {
    u.(ring := if u.IsOpen() then Drop(u.ring) else u.ring)
  }

  /** State after one request; `slot` is the port's payload slot of the received package. */
  function Handled(u: Uart, request: Request, slot: seq<byte>): (v: Uart)
    requires u.Valid() && request.plSz <= |slot| && (request.kind in {OPEN, RESET_OPEN} ==> 4 <= |slot|)
    ensures v.Valid() && v.ring.size == u.ring.size && v.pending == u.pending
  {
    if request.kind == DATA then
      u.(ring := Enqueued(u.ring, slot[..request.plSz]))
    else if request.kind == RESET then
      u.(session := request.arg, ring := Drop(u.ring))
    else if request.kind == OPEN || request.kind == RESET_OPEN then
      Closed(u).(session := 0,
                 mode := if request.arg < MODE_CLOSED && NoSpeed(slot) then MODE_CLOSED else request.arg)
    else if request.kind == CLOSE then
      Closed(u).(mode := MODE_CLOSED)
    else
      u
  }

  /** How many bytes one `ProcessRX` moves to the UART. */
  function DrainSize(u: Uart, writable: nat, ioSize: nat): nat
    requires u.Valid()
  {
    Min(Min(writable, ioSize), |u.ring.bytes|)
  }

  function Drained(u: Uart, writable: nat, ioSize: nat): (v: Uart)
    requires u.Valid()
    ensures v.Valid() && v.ring.size == u.ring.size
  {
    u.(ring := Dequeued(u.ring, DrainSize(u, writable, ioSize)))
  }

  /** How many waiting bytes one `FillTXBuff` takes. */
  function FillSize(used: nat, waiting: nat, ioSize: nat, payloadSize: nat): nat {
    Min(Min(if used <= payloadSize then payloadSize - used else 0, ioSize), waiting)
  }

  function Filled(u: Uart, reset: bool, waiting: seq<byte>, ioSize: nat, payloadSize: nat): Uart {
    var kept := if reset then [] else u.pending;
    u.(pending := if u.IsOpen() then kept + waiting[..FillSize(|kept|, |waiting|, ioSize, payloadSize)] else kept)
  }

  /** The response of `ProcessTX`. */
  function Reply(u: Uart): Response
    requires u.Valid()
  {
    Response(if u.pending != [] then DATA else NO_COMMAND, PackArg(u.ring.HalfUsed(), u.session), |u.pending| % 0x100)
  }

  // ---------------------------------------------------------------- what requests mean to a port

  lemma SpeedBits(v: bv32)
    ensures NoSpeed(U32Bytes(v)) <==> v == 0
  {
  }

  lemma SpeedIsRead(slot: seq<byte>, speed: bv32)
    requires |slot| >= 4 && slot[..4] == U32Bytes(speed)
    ensures NoSpeed(slot) <==> speed == 0
  {
    SpeedBits(speed);
    assert forall i :: 0 <= i < 4 ==> slot[i] == slot[..4][i];
  }

  /**
   An open request leaves the port open if and only if mode and speed are configured, and then in that mode; it starts
   the initial session, and drops what an open port had stored, but not what a closed one had.
   */
  lemma OpenSetsMode(u: Uart, request: Request, slot: seq<byte>, speed: bv32)
    requires u.Valid() && request.kind in {OPEN, RESET_OPEN} && request.plSz <= |slot|
    requires |slot| >= 4 && slot[..4] == U32Bytes(speed)
    ensures var v := Handled(u, request, slot);
            && (v.IsOpen() <==> request.arg < 0xFF && speed != 0) && (v.IsOpen() ==> v.mode == request.arg)
            && v.session == 0 && v.ring.bytes == if u.IsOpen() then [] else u.ring.bytes
  {
    SpeedIsRead(slot, speed);
  }

  /** A request with the payload slot it comes with. */
  datatype Served = Served(request: Request, slot: seq<byte>)
  {
    predicate Fits() { |slot| >= 4 && request.plSz <= |slot| }
    predicate Opens() { request.kind in {OPEN, RESET_OPEN} }
  }

  predicate AllFit(served: seq<Served>) { forall i :: 0 <= i < |served| ==> served[i].Fits() }

  function HandledAll(u: Uart, served: seq<Served>): (v: Uart)
    requires u.Valid() && AllFit(served)
    ensures v.Valid()
    decreases |served|
  {
    if served == [] then u else HandledAll(Handled(u, served[0].request, served[0].slot), served[1..])
  }

  /** None of the requests from the k-th on opens or closes the port. */
  predicate LeavesMode(served: seq<Served>, k: nat) {
    forall i :: k <= i < |served| ==> !served[i].Opens() && served[i].request.kind != CLOSE
  }

  lemma {:induction false} LeftAlone(u: Uart, served: seq<Served>)
    requires u.Valid() && AllFit(served) && LeavesMode(served, 0)
    ensures HandledAll(u, served).mode == u.mode
    decreases |served|
  {
    if served != [] {
      LeftAlone(Handled(u, served[0].request, served[0].slot), served[1..]);
    }
  }

  /** Over any run of requests the last one that opens or closes the port decides whether it is open, and in which
      mode. */
  lemma {:induction false} ModeIsLastWord(u: Uart, served: seq<Served>, k: nat, speed: bv32)
    requires u.Valid() && AllFit(served) && k < |served| && LeavesMode(served, k + 1)
    requires served[k].Opens() || served[k].request.kind == CLOSE
    requires served[k].slot[..4] == U32Bytes(speed)
    ensures var v, last := HandledAll(u, served), served[k].request;
            && (v.IsOpen() <==> last.kind != CLOSE && last.arg < 0xFF && speed != 0)
            && (v.IsOpen() ==> v.mode == last.arg)
    decreases |served|
  {
    var next := Handled(u, served[0].request, served[0].slot);
    if k == 0 {
      if served[0].Opens() {
        OpenSetsMode(u, served[0].request, served[0].slot, speed);
      }
      LeftAlone(next, served[1..]);
    } else {
      ModeIsLastWord(next, served[1..], k - 1, speed);
    }
  }

  // ---------------------------------------------------------------- how much is moved

  /** What calls of `ProcessRX` write when the UART takes `writable[i]` bytes on the i-th. */
  function DrainedAll(u: Uart, writable: seq<nat>, ioSize: nat): (r: (Uart, seq<byte>))
    requires u.Valid()
    ensures r.0.Valid()
    decreases |writable|
  {
    if writable == [] then (u, [])
    else
      var rest := DrainedAll(Drained(u, writable[0], ioSize), writable[1..], ioSize);
      (rest.0, u.ring.bytes[..DrainSize(u, writable[0], ioSize)] + rest.1)
  }

  /** What they could write, no call more than PORT_IO_SIZE bytes. */
  function Room(writable: seq<nat>, ioSize: nat): nat {
    if writable == [] then 0 else Min(writable[0], ioSize) + Room(writable[1..], ioSize)
  }

  /** Together they write the oldest bytes, in order, and as many as there are and the UART takes. */
  lemma {:induction false} DrainsAll(u: Uart, writable: seq<nat>, ioSize: nat)
    requires u.Valid()
    ensures var r, n := DrainedAll(u, writable, ioSize), Min(|u.ring.bytes|, Room(writable, ioSize));
            r.1 == u.ring.bytes[..n] && r.0.ring.bytes == u.ring.bytes[n..]
    decreases |writable|
  {
    if writable != [] {
      DrainsAll(Drained(u, writable[0], ioSize), writable[1..], ioSize);
    }
  }

  /** The copy loop of a Data request: chunk by chunk to the free cells, dropping what does not fit. */
  method Store(ring: DataBuffer, source: seq<byte>)
    requires ring.Valid()
    modifies ring, ring.storage
    ensures ring.Valid() && ring.queue == Enqueued(old(ring.queue), source)
  {
    ghost var before := ring.queue;
    assert before.bytes + source[..0] == before.bytes;
    var szLeft := |source|;
    while szLeft > 0
      invariant 0 <= szLeft <= |source| && ring.Valid()
      invariant Holds(ring.queue, before, source, |source| - szLeft)
      decreases szLeft
    {
      var done := |source| - szLeft;
      ghost var q := ring.queue;
      var szToWrite := ring.PutUpTo(source[done..]);
      SliceOfSuffix(source, done, szToWrite);
      HoldsMore(q, before, source, done, szToWrite);
      if szToWrite < 1 {
        break; // no space left, the rest is lost
      }
      szLeft := szLeft - szToWrite;
    }
    HoldsAll(ring.queue, before, source, |source| - szLeft);
  }

  /** The drain loop: exactly the oldest min(uartAvail, stored) bytes, in at most two pieces. */
  method Drain(ring: DataBuffer, uartAvail: nat) returns (written: seq<byte>)
    requires ring.Valid()
    modifies ring
    ensures ring.Valid() && ring.queue == Dequeued(old(ring.queue), Min(uartAvail, |old(ring.queue).bytes|))
    ensures written == old(ring.queue).bytes[..Min(uartAvail, |old(ring.queue).bytes|)]
  {
    ghost var before := ring.queue;
    written := [];
    var left := uartAvail;
    while left > 0
      invariant ring.Valid() && 0 <= left && left + |written| == uartAvail && |written| <= |before.bytes|
      invariant ring.queue == Dequeued(before, |written|) && written == before.bytes[..|written|]
      decreases left
    {
      var chunk := ring.TakeUpTo(left);
      if |chunk| < 1 {
        break; // nothing to write
      }
      DequeueStep(before, |written|, |chunk|);
      written := written + chunk;
      left := left - |chunk|;
    }
    assert |ring.queue.bytes| == |before.bytes| - |written|;
  }

  class UARTWorker {
    const rxRingBuff: DataBuffer
    const rxBuff: array<byte>
    const txBuff: array<byte>
    const offset: nat           // of this port's payload slot in both package buffers
    const payloadSize: nat      // DATA_PAYLOAD_SIZE
    const ioSize: nat           // PORT_IO_SIZE
    var curMode: u8
    var sessionId: u8
    var txUsedSz: nat

    /** The filled part of the transmit slot. */
    ghost var pending: seq<byte>

    ghost predicate Valid()
      reads this, rxRingBuff, rxRingBuff.storage, txBuff
    {
      && rxRingBuff.Valid()
      && rxRingBuff.storage != rxBuff && rxRingBuff.storage != txBuff && rxBuff != txBuff
      && 4 <= payloadSize < 0x100
      && offset + payloadSize <= rxBuff.Length && offset + payloadSize <= txBuff.Length
      && txUsedSz <= payloadSize && pending == txBuff[offset..offset + txUsedSz]
    }

    ghost function View(): Uart
      reads this, rxRingBuff
    {
      Uart(rxRingBuff.queue, curMode, sessionId, pending)
    }

    /** What the received package holds from this port's payload slot on. */
    ghost function Slot(): seq<byte>
      requires offset <= rxBuff.Length
      reads rxBuff
    {
      rxBuff[offset..]
    }

    constructor (ringSize: nat, rx: array<byte>, tx: array<byte>, offset: nat, payloadSize: nat, ioSize: nat)
      requires ringSize > 0 && rx != tx && 4 <= payloadSize < 0x100
      requires offset + payloadSize <= rx.Length && offset + payloadSize <= tx.Length
      ensures Valid() && fresh(rxRingBuff) && fresh(rxRingBuff.storage)
      ensures rxBuff == rx && txBuff == tx && !View().IsOpen()
      ensures View().ring.bytes == [] && View().pending == [] && View().session == 0
    {
      rxRingBuff := new DataBuffer(ringSize);
      rxBuff, txBuff := rx, tx;
      this.offset, this.payloadSize, this.ioSize := offset, payloadSize, ioSize;
      curMode, sessionId, txUsedSz, pending := MODE_CLOSED, 0, 0, [];
    }

    method ProcessRequest(request: Request) returns (resetStarted: bool)
      requires Valid() && offset + request.plSz <= rxBuff.Length
      modifies this, rxRingBuff, rxRingBuff.storage
      ensures Valid() && View() == Handled(old(View()), request, old(Slot()))
      ensures resetStarted <==> request.kind == RESET || request.kind == RESET_OPEN
    {
      resetStarted := false;
      var slot := rxBuff[offset..];
      if request.kind == DATA {
        Store(rxRingBuff, slot[..request.plSz]);
      } else if request.kind == RESET {
        resetStarted := true;
        sessionId := request.arg;
        rxRingBuff.Reset();
      } else if request.kind == RESET_OPEN || request.kind == OPEN {
        resetStarted := request.kind == RESET_OPEN;
        if curMode < MODE_CLOSED {
          rxRingBuff.Reset();
        }
        sessionId := 0;
        curMode := request.arg;
        if curMode < MODE_CLOSED && NoSpeed(slot) {
          curMode := MODE_CLOSED;
        }
      } else if request.kind == CLOSE {
        if curMode < MODE_CLOSED {
          rxRingBuff.Reset();
        }
        curMode := MODE_CLOSED;
      }
    }

    /** Ring to UART: exactly the oldest min(writable, PORT_IO_SIZE, stored) bytes, in at most two pieces. */
    method ProcessRX(resetComplete: bool, writable: nat) returns (written: seq<byte>)
      requires Valid()
      modifies rxRingBuff
      ensures Valid()
      ensures resetComplete && View().IsOpen() ==>
                View() == Drained(old(View()), writable, ioSize)
                && written == old(View().ring).bytes[..DrainSize(old(View()), writable, ioSize)]
      ensures !(resetComplete && View().IsOpen()) ==> View() == old(View()) && written == []
    {
      written := [];
      if !resetComplete || curMode >= MODE_CLOSED {
        return;
      }
      var uartAvail := writable;
      if uartAvail > ioSize {
        uartAvail := ioSize;
      }
      written := Drain(rxRingBuff, uartAvail);
    }

    /** `readBytes` behind the filled part of the transmit slot. */
    method ReadBytes(bytes: seq<byte>)
      requires Valid() && txUsedSz + |bytes| <= payloadSize
      modifies this, txBuff
      ensures Valid() && View() == old(View()).(pending := old(pending) + bytes)
      ensures txBuff[..offset] == old(txBuff[..offset])
      ensures txBuff[offset + payloadSize..] == old(txBuff[offset + payloadSize..])
    {
      ghost var before := txBuff[..];
      CopyInto(txBuff, offset + txUsedSz, bytes);
      SliceAppend(before, txBuff[..], offset, txUsedSz, bytes);
      txUsedSz, pending := txUsedSz + |bytes|, pending + bytes;
    }

    method FillTXBuff(reset: bool, waiting: seq<byte>) returns (left: seq<byte>)
      requires Valid()
      modifies this, txBuff
      ensures Valid() && View() == Filled(old(View()), reset, waiting, ioSize, payloadSize)
      ensures |View().pending| <= payloadSize
      ensures var used := if reset then 0 else |old(pending)|;
              left == if View().IsOpen() then waiting[FillSize(used, |waiting|, ioSize, payloadSize)..] else waiting
      ensures txBuff[..offset] == old(txBuff[..offset])
      ensures txBuff[offset + payloadSize..] == old(txBuff[offset + payloadSize..])
    {
      if reset {
        txUsedSz, pending := 0, [];
      }
      left := waiting;
      if curMode >= MODE_CLOSED {
        return;
      }
      var sz := payloadSize - txUsedSz;
      if sz > ioSize {
        sz := ioSize;
      }
      if sz < 1 {
        assert waiting[..0] == [];
        return;
      }
      var n := Min(sz, |waiting|);
      ReadBytes(waiting[..n]);
      left := waiting[n..];
    }

    method ProcessTX() returns (response: Response)
      requires Valid()
      ensures response == Reply(View())
      ensures response.plSz == |View().pending| && HalfFlag(response.arg) == View().ring.HalfUsed()
      ensures View().session < 0x80 ==> SessionOf(response.arg) == View().session
    {
      var half := rxRingBuff.IsHalfUsed();
      ArgRoundTrip(half, sessionId);
      if txUsedSz > 0 {
        return Response(DATA, PackArg(half, sessionId), txUsedSz);
      }
      return Response(NO_COMMAND, PackArg(half, sessionId), 0);
    }
  }
}

/**
 The client's per-port handler (Client/Src/PortWorker.cpp).  `Port` and the functions on it are its specification;
 class `PortWorker` is the object, with its send window and its receive ring.  What the non-blocking `read` on the
 local connection returns is a parameter.  Every method is one critical section.
 */
module PortWorker {
  import opened Bytes
  import opened RingBuffer
  import opened SendWindow
  import opened Command

  /** Result of a non-blocking `read`: some bytes (none at end of stream), nothing yet, or a failure. */
  datatype Read = Got(bytes: seq<byte>) | Again | Broken

  datatype Settings = Settings(payloadSize: nat, limit: nat, mode: u8, resetOnConnect: bool)

  datatype Port = Port(connected: bool, openPending: bool, attached: bool, resetPending: bool,
                       session: u8, window: seq<Pkg>, blocked: bool)

  /** The most a poll may read from the local client. */
  function ReadLimit(p: Port, s: Settings): nat {
    Min(s.payloadSize, Avail(p.window, p.blocked, s.limit))
  }

  predicate Reads(p: Port, s: Settings) {
    p.connected && !p.openPending && !p.resetPending && p.attached && ReadLimit(p, s) > 0
  }

  /** The bytes a poll takes from the local client. */
  function Taken(p: Port, s: Settings, input: Read): (data: seq<byte>)
    ensures |data| <= s.payloadSize && (data != [] ==> !p.blocked && Total(p.window) + |data| <= s.limit)
  {
    if Reads(p, s) && input.Got? then input.bytes[..Min(|input.bytes|, ReadLimit(p, s))] else []
  }

  /** State and request after one poll under timer counter `counter`. */
  function Polled(p: Port, s: Settings, counter: nat, input: Read): (Port, Request)
    requires s.payloadSize < 0x100
  {
    if !p.connected then (p, Request(NO_COMMAND, 0, 0))
    else if p.openPending then (p.(openPending := false), Request(OPEN, s.mode, 4))
    else if p.resetPending then (p.(resetPending := false), Request(RESET, p.session, 0))
    else
      var data := Taken(p, s, input);
      if data != [] then (p.(window := p.window + [Pkg(counter, |data|)]), Request(DATA, 0, |data|))
      else (p.(attached := p.attached && !(Reads(p, s) && !input.Again?)), Request(NO_COMMAND, 0, 0))
  }

  function NextSession(session: u8): u8
    requires session <= 0x7F
  {
    if session + 1 > 0x7F then 0x01 else session + 1
  }

  /** A local client connects. */
  function Reopened(p: Port, s: Settings): Port
    requires p.session <= 0x7F
  {
    if s.resetOnConnect
    then p.(attached := true, resetPending := true, session := NextSession(p.session), window := [])
    else p.(attached := true, resetPending := false)
  }

  /** A response echoing `counter` arrives. */
  function Confirmed(p: Port, counter: nat, arg: u8): Port {
    p.(window := Newer(p.window, counter), blocked := HalfFlag(arg))
  }

  /** Whether the payload of a response is taken for the current local client. */
  predicate Accepts(p: Port, arg: u8) {
    p.attached && p.session == SessionOf(arg)
  }

  /**
   `ProcessRX` decides whether to take a payload under one lock and stores it under another.  If a local client connects
   in between, the decision still stands exactly when the port does not reset on connect.
   */
  lemma ReopenBetweenSections(p: Port, s: Settings, arg: u8)
    requires p.session <= 0x7F && Accepts(p, arg)
    ensures Accepts(Reopened(p, s), arg) <==> !s.resetOnConnect
  {
  }

  class PortWorker {
    const settings: Settings
    const id: nat
    const speed: bv32
    const tracker: RemoteBufferTracker
    const rxRingBuff: DataBuffer
    var connected: bool
    var openPending: bool
    var attached: bool            // client!=nullptr
    var resetPending: bool
    var sessionId: u8
    var oldSessionPkgCount: nat

    ghost predicate Valid()
      reads this, tracker, rxRingBuff, rxRingBuff.storage
    {
      && tracker.Valid() && rxRingBuff.Valid() && sessionId <= 0x7F
      && settings.payloadSize < 0x100 && settings.limit == tracker.bufferLimit
    }

    ghost function View(): Port
      reads this, tracker
    {
      Port(connected, openPending, attached, resetPending, sessionId, tracker.dataSent, tracker.isBlocked)
    }

    constructor (settings: Settings, id: nat, speed: bv32, ringSize: nat)
      requires ringSize > 0 && settings.payloadSize < 0x100
      ensures Valid() && fresh(tracker) && fresh(rxRingBuff) && fresh(rxRingBuff.storage)
      ensures View() == Port(false, true, false, false, 0, [], false) && rxRingBuff.queue.bytes == []
      ensures this.settings == settings && this.id == id && this.speed == speed
    {
      this.settings, this.id, this.speed := settings, id, speed;
      tracker := new RemoteBufferTracker(settings.limit);
      rxRingBuff := new DataBuffer(ringSize);
      connected, openPending, attached, resetPending := false, true, false, false;
      sessionId, oldSessionPkgCount := 0, 0;
    }

    method OnConnected()
      requires Valid()
      modifies this
      ensures Valid() && View() == old(View()).(connected := true)
    {
      connected := true;
    }

    /** A new local client of port `id`: with resetOnConnect this starts a new session with an empty window and ring. */
    method OnPortOpen(id: nat)
      requires Valid()
      modifies this, tracker, rxRingBuff
      ensures Valid() && View() == if id == this.id then Reopened(old(View()), settings) else old(View())
      ensures rxRingBuff.queue == if id == this.id && settings.resetOnConnect then Drop(old(rxRingBuff.queue))
                                  else old(rxRingBuff.queue)
    {
      if id != this.id {
        return;
      }
      attached := true;
      resetPending := settings.resetOnConnect;
      if resetPending {
        if sessionId + 1 > 0x7F {
          sessionId := 0x01;
        } else {
          sessionId := sessionId + 1;
        }
        tracker.Reset();
        rxRingBuff.Reset();
      }
    }

    /** One poll; the payload goes to the port's slot at `offset` of the package under construction. */
    method ProcessTX(counter: nat, input: Read, txBuff: array<byte>, offset: nat) returns (request: Request)
      requires Valid() && counter > tracker.last && txBuff != rxRingBuff.storage
      requires offset + settings.payloadSize <= txBuff.Length && settings.payloadSize >= 4
      modifies this, tracker, txBuff
      ensures Valid() && (View(), request) == Polled(old(View()), settings, counter, input)
      ensures request.plSz <= settings.payloadSize
      ensures request.kind == DATA ==> txBuff[offset..offset + request.plSz] == Taken(old(View()), settings, input)
      ensures request.kind == OPEN ==> txBuff[offset..offset + request.plSz] == U32Bytes(speed)
      ensures txBuff[..offset] == old(txBuff[..offset])
      ensures txBuff[offset + settings.payloadSize..] == old(txBuff[offset + settings.payloadSize..])
    {
      if !connected {
        return Request(NO_COMMAND, 0, 0);
      }
      if openPending {
        openPending := false;
        WriteSlot(txBuff, offset, settings.payloadSize, U32Bytes(speed));
        return Request(OPEN, settings.mode, 4);
      }
      if resetPending {
        resetPending := false;
        return Request(RESET, sessionId, 0);
      }
      var dataToRead := settings.payloadSize;
      var avail := tracker.GetAvailSpace();
      if dataToRead > avail {
        dataToRead := avail;
      }
      if dataToRead <= 0 || !attached {
        return Request(NO_COMMAND, 0, 0);
      }
      request := ReadClient(counter, input, dataToRead, txBuff, offset);
    }

    /** The read from the local client, once it is known to be wanted. */
    method ReadClient(counter: nat, input: Read, dataToRead: nat, txBuff: array<byte>, offset: nat)
      returns (request: Request)
      requires Valid() && counter > tracker.last && txBuff != rxRingBuff.storage
      requires offset + settings.payloadSize <= txBuff.Length
      requires Reads(View(), settings) && dataToRead == ReadLimit(View(), settings)
      modifies this, tracker, txBuff
      ensures Valid() && (View(), request) == Polled(old(View()), settings, counter, input)
      ensures request.kind != OPEN && request.plSz <= settings.payloadSize
      ensures request.kind == DATA ==> txBuff[offset..offset + request.plSz] == Taken(old(View()), settings, input)
      ensures txBuff[..offset] == old(txBuff[..offset])
      ensures txBuff[offset + settings.payloadSize..] == old(txBuff[offset + settings.payloadSize..])
    {
      var data := if input.Got? then input.bytes[..Min(|input.bytes|, dataToRead)] else [];
      if data == [] {
        if !input.Again? {
          attached := false;
        }
        return Request(NO_COMMAND, 0, 0);
      }
      WriteSlot(txBuff, offset, settings.payloadSize, data);
      tracker.AddPackage(|data|, counter);
      return Request(DATA, 0, |data|);
    }

    /** The first section: confirmation always; then whether the payload is for the current client. */
    method ConfirmSection(counter: nat, arg: u8) returns (accepted: bool)
      requires Valid()
      modifies this, tracker
      ensures Valid() && View() == Confirmed(old(View()), counter, arg)
      ensures accepted == Accepts(View(), arg) == old(Accepts(View(), arg))
    {
      tracker.ConfirmPackage(counter, arg / 0x80 == 1);
      if !attached {
        return false;
      }
      if sessionId != arg % 0x80 {
        oldSessionPkgCount := oldSessionPkgCount + 1;
        return false;
      }
      return true;
    }

    /** The second section, for an accepted answer. */
    method StoreSection(response: Response, payload: seq<byte>)
      requires Valid() && response.plSz <= |payload|
      modifies rxRingBuff, rxRingBuff.storage
      ensures Valid() && View() == old(View())
      ensures rxRingBuff.queue == if response.kind == NO_COMMAND then old(rxRingBuff.queue)
                                  else Enqueued(old(rxRingBuff.queue), payload[..response.plSz])
    {
      if response.kind == NO_COMMAND {
        return;
      }
      StorePayload(payload[..response.plSz]);
    }

    /** Both sections with nothing in between. */
    method ProcessRX(counter: nat, response: Response, payload: seq<byte>)
      requires Valid() && response.plSz <= |payload|
      modifies this, tracker, rxRingBuff, rxRingBuff.storage
      ensures Valid() && View() == Confirmed(old(View()), counter, response.arg)
      ensures rxRingBuff.queue == if Accepts(old(View()), response.arg) && response.kind != NO_COMMAND
                                  then Enqueued(old(rxRingBuff.queue), payload[..response.plSz])
                                  else old(rxRingBuff.queue)
    {
      var accepted := ConfirmSection(counter, response.arg);
      if !accepted {
        return;
      }
      if oldSessionPkgCount > 0 {
        oldSessionPkgCount := 0;
      }
      StoreSection(response, payload);
    }

    /** A head handle that is up to date. */
    ghost predicate Current(head: Handle)
      reads this, rxRingBuff, rxRingBuff.storage
    {
      && rxRingBuff.Valid() && head.pos == rxRingBuff.head && head.maxSz == rxRingBuff.View().HeadRoom()
      && head.maxSz <= rxRingBuff.queue.Free() && (head.maxSz == 0 <==> rxRingBuff.queue.Free() == 0)
    }

    /** One turn of the copy loop. */
    method StoreChunk(source: seq<byte>, done: nat, head: Handle, ghost before: Queue) returns (sz: nat, next: Handle)
      requires Current(head) && done < |source| && before.Valid() && Holds(rxRingBuff.queue, before, source, done)
      modifies rxRingBuff, rxRingBuff.storage
      ensures Current(next) && sz == Min(|source| - done, head.maxSz)
      ensures Holds(rxRingBuff.queue, before, source, done + sz)
    {
      sz := if |source| - done > head.maxSz then head.maxSz else |source| - done;
      HoldsMore(rxRingBuff.queue, before, source, done, sz);
      rxRingBuff.Put(head, source[done..done + sz]);
      next := rxRingBuff.GetHead();
    }

    /** The copy loop into the receive ring; what does not fit is lost. */
    method StorePayload(source: seq<byte>)
      requires rxRingBuff.Valid()
      modifies rxRingBuff, rxRingBuff.storage
      ensures rxRingBuff.Valid() && rxRingBuff.queue == Enqueued(old(rxRingBuff.queue), source)
    {
      ghost var before := rxRingBuff.queue;
      assert before.bytes + source[..0] == before.bytes;
      var head := rxRingBuff.GetHead();
      var szToWrite := |source|;
      while szToWrite > 0 && head.maxSz > 0
        invariant 0 <= szToWrite <= |source| && Current(head)
        invariant Holds(rxRingBuff.queue, before, source, |source| - szToWrite)
        decreases szToWrite
      {
        var sz;
        sz, head := StoreChunk(source, |source| - szToWrite, head, before);
        szToWrite := szToWrite - sz;
      }
      HoldsAll(rxRingBuff.queue, before, source, |source| - szToWrite);
    }
  }
}

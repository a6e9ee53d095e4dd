/**
 The polling half of the firmware `loop` (Firmware/UARTEthernetBridge/main_loop.cpp) and what it does with bytes read
 from a UART: they are gathered over IO_AGGREGATE_MULTIPLIER poll intervals and sent as one payload.
 */
module Uplink {
  import opened Arithmetic
  import opened Bytes
  import opened Command
  import opened UartWorker
  import opened Timer
  import Wire

  datatype Config = Config(multiplier: nat, ioSize: nat)
  {
    predicate Valid() { multiplier > 0 && 4 <= PayloadSize() < 0x100 }
    function PayloadSize(): nat { ioSize * multiplier }
  }

  /** The port and the segment counter, with the history since the last TCP connection: bytes read from the UART and
      payloads sent. */
  datatype Poller = Poller(uart: Uart, segment: nat, read: seq<byte>, emitted: seq<seq<byte>>)

  datatype Step =
    | Tick(waiting: seq<byte>)                       // the poll interval has passed
    | Serve(request: Request, slot: seq<byte>)      // a request arrives
    | Connect                                        // a TCP client connects

  predicate WellFormed(cfg: Config, p: Poller) {
    cfg.Valid() && p.uart.Valid()
  }

  predicate Possible(step: Step) {
    step.Serve? ==> 4 <= |step.slot| && step.request.plSz <= |step.slot|
  }

  /** The bytes one poll takes out of the UART's input queue. */
  function Taken(cfg: Config, p: Poller, waiting: seq<byte>): seq<byte> {
    var used := if p.segment == 0 then 0 else |p.uart.pending|;
    if p.uart.IsOpen() then waiting[..FillSize(used, |waiting|, cfg.ioSize, cfg.PayloadSize())] else []
  }

  /** One poll: read one more segment, and send when the last one is in. */
  function AfterTick(cfg: Config, p: Poller, waiting: seq<byte>): Poller
    requires WellFormed(cfg, p)
  {
    var segment := p.segment + 1;
    var uart := Filled(p.uart, segment == 1, waiting, cfg.ioSize, cfg.PayloadSize());
    var q := Poller(uart, segment, p.read + Taken(cfg, p, waiting), p.emitted);
    if segment < cfg.multiplier then q else q.(segment := 0, emitted := q.emitted + [uart.pending])
  }

  function Next(cfg: Config, p: Poller, step: Step): (q: Poller)
    requires WellFormed(cfg, p) && Possible(step)
    ensures WellFormed(cfg, q)
  {
    match step
    case Tick(waiting) => AfterTick(cfg, p, waiting)
    case Serve(request, slot) => p.(uart := Handled(p.uart, request, slot))
    case Connect => p.(segment := 0, read := [], emitted := [])
  }

  function Run(cfg: Config, p: Poller, steps: seq<Step>): (q: Poller)
    requires WellFormed(cfg, p) && forall i :: 0 <= i < |steps| ==> Possible(steps[i])
    ensures WellFormed(cfg, q)
    decreases |steps|
  {
    if steps == [] then p else Run(cfg, Next(cfg, p, steps[0]), steps[1..])
  }

  /** The aggregate in the making; after a payload went out, what is left in the slot is stale. */
  function Partial(p: Poller): seq<byte> {
    if p.segment == 0 then [] else p.uart.pending
  }

  predicate Conserves(cfg: Config, p: Poller) {
    && WellFormed(cfg, p)
    && p.segment < cfg.multiplier
    && Concat(p.emitted) + Partial(p) == p.read
    && (p.segment > 0 ==> |p.uart.pending| <= cfg.ioSize * p.segment)
    && (forall i :: 0 <= i < |p.emitted| ==> |p.emitted[i]| <= cfg.PayloadSize())
  }

  /** What a poll adds to the aggregate is what it reads. */
  lemma TickReads(cfg: Config, p: Poller, waiting: seq<byte>)
    requires Conserves(cfg, p)
    ensures var q := AfterTick(cfg, p, waiting);
            && q.uart.pending == Partial(p) + Taken(cfg, p, waiting)
            && |q.uart.pending| <= cfg.ioSize * (p.segment + 1) && |q.uart.pending| <= cfg.PayloadSize()
  {
    MulStep(cfg.ioSize, p.segment);
    MulMonotone(cfg.ioSize, p.segment + 1, cfg.multiplier);
    assert Partial(p) + [] == Partial(p);
  }

  /** Sent and unsent together grow by what was read. */
  lemma PayloadSent(emitted: seq<seq<byte>>, partial: seq<byte>, data: seq<byte>)
    ensures Concat(emitted) + (partial + data) == Concat(emitted) + partial + data
    ensures Concat(emitted + [partial + data]) + [] == Concat(emitted) + partial + data
  {
    ConcatSnoc(emitted, partial + data);
    assert Concat(emitted) + (partial + data) == Concat(emitted) + partial + data;
    assert Concat(emitted + [partial + data]) + [] == Concat(emitted + [partial + data]);
  }

  lemma TickConserves(cfg: Config, p: Poller, waiting: seq<byte>)
    requires Conserves(cfg, p)
    ensures Conserves(cfg, AfterTick(cfg, p, waiting))
  {
    TickReads(cfg, p, waiting);
    PayloadSent(p.emitted, Partial(p), Taken(cfg, p, waiting));
  }

  /** There is always room for one more read of PORT_IO_SIZE bytes: an open port gives the first bytes waiting, and all
      of them up to that number. */
  lemma PollTakesAll(cfg: Config, p: Poller, waiting: seq<byte>)
    requires Conserves(cfg, p)
    ensures Taken(cfg, p, waiting) == if p.uart.IsOpen() then waiting[..Min(cfg.ioSize, |waiting|)] else []
  {
    MulStep(cfg.ioSize, p.segment);
    MulMonotone(cfg.ioSize, p.segment + 1, cfg.multiplier);
  }

  /** What the UART gives over a run, after `given`: on each poll of an open port the first bytes waiting, up to
      PORT_IO_SIZE of them; a new connection starts afresh. */
  function FromUart(cfg: Config, p: Poller, steps: seq<Step>, given: seq<byte>): seq<byte>
    requires WellFormed(cfg, p) && forall i :: 0 <= i < |steps| ==> Possible(steps[i])
    decreases |steps|
  {
    if steps == [] then given
    else
      var now := match steps[0]
        case Tick(waiting) => if p.uart.IsOpen() then given + waiting[..Min(cfg.ioSize, |waiting|)] else given
        case Serve(_, _) => given
        case Connect => [];
      FromUart(cfg, Next(cfg, p, steps[0]), steps[1..], now)
  }

  /**
   While one connection stays up, whatever requests are handled in between, the payloads sent followed by the partial
   aggregate are exactly the bytes the UART has given, in order; no payload exceeds the slot; and between turns of
   `loop` the segment counter is below the multiplier.
   */
  lemma {:induction false} UartBytesConserved(cfg: Config, p: Poller, steps: seq<Step>)
    requires Conserves(cfg, p) && forall i :: 0 <= i < |steps| ==> Possible(steps[i])
    ensures var q := Run(cfg, p, steps);
            && Conserves(cfg, q) && q.read == FromUart(cfg, p, steps, p.read)
            && Concat(q.emitted) + Partial(q) == FromUart(cfg, p, steps, p.read)
    decreases |steps|
  {
    if steps != [] {
      match steps[0] {
        case Tick(waiting) =>
          TickConserves(cfg, p, waiting);
          PollTakesAll(cfg, p, waiting);
          assert p.read + [] == p.read;
        case Serve(_, _) =>
        case Connect =>
      }
      UartBytesConserved(cfg, Next(cfg, p, steps[0]), steps[1..]);
    }
  }

  // ---------------------------------------------------------------- what a Reset leaves in the aggregate

  /** Requests that leave the session alone, and polls. */
  predicate Quiet(steps: seq<Step>) {
    forall i :: 0 <= i < |steps| ==>
      Possible(steps[i]) && !steps[i].Connect?
      && (steps[i].Serve? ==> steps[i].request.kind !in {RESET, OPEN, RESET_OPEN})
  }

  function Ticks(steps: seq<Step>): nat {
    if steps == [] then 0 else (if steps[0].Tick? then 1 else 0) + Ticks(steps[1..])
  }

  /** Up to the last segment nothing is sent; with it, one payload is. */
  lemma {:induction false} QuietRun(cfg: Config, p: Poller, steps: seq<Step>)
    requires Conserves(cfg, p) && Quiet(steps) && p.segment + Ticks(steps) <= cfg.multiplier
    ensures var q := Run(cfg, p, steps);
            && q.uart.session == p.uart.session && p.read <= q.read && p.emitted <= q.emitted
            && (if p.segment + Ticks(steps) < cfg.multiplier
                then q.segment == p.segment + Ticks(steps) && q.emitted == p.emitted
                else q.segment == 0 && |q.emitted| == |p.emitted| + 1)
    decreases |steps|
  {
    if steps != [] {
      var next := Next(cfg, p, steps[0]);
      if steps[0].Tick? {
        TickConserves(cfg, p, steps[0].waiting);
      }
      QuietRun(cfg, next, steps[1..]);
    }
  }

  /**
   A Reset does not clear the aggregate.  After it, whatever other requests come between, the poll that completes the
   segment sends one payload under the new session id: the partial aggregate from before the Reset, then what has been
   read since.  So the first payload of the session is exactly what was read in it if and only if the Reset found no
   aggregate in the making, or an empty one.
   */
  lemma FirstPayloadAfterReset(cfg: Config, p: Poller, id: u8, slot: seq<byte>, steps: seq<Step>)
    requires Conserves(cfg, p) && id < 0x80 && |slot| >= 4
    requires Quiet(steps) && Ticks(steps) == cfg.multiplier - p.segment
    ensures var q := Run(cfg, Next(cfg, p, Serve(Request(RESET, id, 0), slot)), steps);
            && p.read <= q.read && q.segment == 0 && SessionOf(Reply(q.uart).arg) == id
            && q.emitted == p.emitted + [Partial(p) + q.read[|p.read|..]]
            && (q.emitted == p.emitted + [q.read[|p.read|..]] <==> p.segment == 0 || p.uart.pending == [])
  {
    var r := Next(cfg, p, Serve(Request(RESET, id, 0), slot));
    var q := Run(cfg, r, steps);
    QuietRun(cfg, r, steps);
    UartBytesConserved(cfg, r, steps);
    LastPayload(p.emitted, q.emitted, Partial(p), p.read, q.read);
    ArgRoundTrip(q.uart.ring.HalfUsed(), q.uart.session);
    assert p.segment == 0 || p.uart.pending == [] ==> Partial(p) + q.read[|p.read|..] == q.read[|p.read|..];
    assert (p.emitted + [q.read[|p.read|..]])[|p.emitted|] == q.read[|p.read|..];
  }

  lemma Cancel(a: seq<byte>, x: seq<byte>, y: seq<byte>)
    requires a + x == a + y
    ensures x == y
  {
    assert x == (a + x)[|a|..] && y == (a + y)[|a|..];
  }

  lemma LastPayload(before: seq<seq<byte>>, after: seq<seq<byte>>, partial: seq<byte>, read: seq<byte>, all: seq<byte>)
    requires before <= after && |after| == |before| + 1 && read <= all
    requires Concat(before) + partial == read && Concat(after) + [] == all
    ensures after == before + [partial + all[|read|..]]
  {
    var last, since := after[|before|], all[|read|..];
    assert after == before + [last];
    ConcatSnoc(before, last);
    assert Concat(before) + last == read + since;
    assert read + since == Concat(before) + (partial + since);
    Cancel(Concat(before), last, partial + since);
  }

  /** The smallest case: two segments and a Reset between them. */
  lemma ResetKeepsOldBytes(cfg: Config, p: Poller, before: seq<byte>, id: u8, slot: seq<byte>)
    requires Conserves(cfg, p) && cfg.multiplier == 2 && p.segment == 0 && p.uart.IsOpen()
    requires 0 < |before| <= cfg.ioSize && id < 0x80 && |slot| >= 4
    ensures var q := Run(cfg, p, [Tick(before), Serve(Request(RESET, id, 0), slot), Tick([])]);
            q.emitted == p.emitted + [before] && SessionOf(Reply(q.uart).arg) == id
  {
    var steps := [Tick(before), Serve(Request(RESET, id, 0), slot), Tick([])];
    var p1 := Next(cfg, p, steps[0]);
    var p2 := Next(cfg, p1, steps[1]);
    TickConserves(cfg, p, before);
    MulStep(cfg.ioSize, 1);
    assert steps[1..] == [steps[1], steps[2]] && steps[1..][1..] == [steps[2]];
    assert Run(cfg, p, steps) == Run(cfg, p1, steps[1..]) == Run(cfg, p2, steps[1..][1..]);
    assert [steps[2]][1..] == [] && Ticks([steps[2]]) == 1;
    FirstPayloadAfterReset(cfg, p1, id, slot, [steps[2]]);
    var q := Run(cfg, p2, [steps[2]]);
    assert q.read == p1.read + [] && Partial(p1) == before;
    assert before + q.read[|p1.read|..] == before;
  }

  // ---------------------------------------------------------------- the counter field

  /** What goes into the answer's counter field: the request's own, except that the first request after a connection is
      taken for the poll interval and answered with zero. */
  function Echoed<T>(setPending: bool, zero: T, field: T): T {
    if setPending then zero else field
  }

  /** The same in octets and as a number. */
  lemma EchoDecodes(setPending: bool, counter: bv32)
    ensures Wire.CounterOf(Echoed(setPending, [0, 0, 0, 0], U32Bytes(counter))) == Echoed(setPending, 0, counter)
  {
    Wire.CounterRoundTrip(counter);
  }

  // ---------------------------------------------------------------- the object

  /** What one turn of `loop` does to a port: handle the request that has arrived, move ring bytes to the UART, and,
      when the poll interval has passed, read one more segment. */
  function TurnUart(u: Uart, request: Option<Request>, slot: seq<byte>, drains: bool, writable: nat,
                    due: bool, segment: nat, waiting: seq<byte>, ioSize: nat, payloadSize: nat): (v: Uart)
    requires u.Valid() && |slot| >= 4 && (request.Some? ==> request.value.plSz <= |slot|)
    ensures v.Valid()
  {
    var u1 := if request.Some? then Handled(u, request.value, slot) else u;
    var u2 := if drains && u1.IsOpen() then Drained(u1, writable, ioSize) else u1;
    if due then Filled(u2, segment == 0, waiting, ioSize, payloadSize) else u2
  }

  /** The bytes that turn writes to the UART. */
  function TurnWritten(u: Uart, request: Option<Request>, slot: seq<byte>, drains: bool, writable: nat, ioSize: nat)
    : seq<byte>
    requires u.Valid() && |slot| >= 4 && (request.Some? ==> request.value.plSz <= |slot|)
  {
    var u1 := if request.Some? then Handled(u, request.value, slot) else u;
    if drains && u1.IsOpen() then u1.ring.bytes[..DrainSize(u1, writable, ioSize)] else []
  }

  /** The poll interval a counter field asks for, shared out over the segments; zero asks for nothing. */
  function NewInterval(counterField: seq<byte>, multiplier: nat): (interval: Option<u32>)
    requires |counterField| == 4 && multiplier > 0
    ensures interval.Some? ==> interval.value > 0
  {
    var interval := Share(Wire.IntervalOf(counterField) as int, multiplier);
    if interval > 0 then Some(interval) else None
  }

  function Share(interval: u32, multiplier: nat): (share: u32)
    requires multiplier > 0
    ensures share * multiplier <= interval < share * multiplier + multiplier
  {
    interval / multiplier
  }

  /** What `loop` keeps beside the ports: the connection flags, the segment counter, the counter field of the answer
      under construction, and the poll timer. */
  datatype Control = Control(connected: bool, setPending: bool, segment: nat, echo: seq<byte>,
                             interval: u32, checkPoint: u32)

  /** A client connects: the default interval until its first request. */
  function Joined(c: Control, defaultInterval: u32, now: nat): Control {
    Control(true, true, 0, c.echo, defaultInterval, Cast32(now))
  }

  function Parted(c: Control, defaultInterval: u32, now: nat): Control {
    Control(false, false, c.segment, c.echo, defaultInterval, Cast32(now))
  }

  /** A request is echoed; the first one of a connection sets the poll interval instead. */
  function Counted(c: Control, counterField: seq<byte>, multiplier: nat, now: nat): Control
    requires |counterField| == 4 && multiplier > 0
  {
    var d := c.(echo := Echoed(c.setPending, [0, 0, 0, 0], counterField), setPending := false);
    var interval := NewInterval(counterField, multiplier);
    if c.setPending && interval.Some? then d.(interval := interval.value, checkPoint := Cast32(now)) else d
  }

  predicate IsDue(c: Control, now: nat) { Due(c.checkPoint, c.interval, now) }

  /** When the interval has passed, one more segment. */
  function Timed(c: Control, multiplier: nat, now: nat): Control {
    if IsDue(c, now)
    then c.(checkPoint := Cast32(c.checkPoint + c.interval),
            segment := if c.segment + 1 < multiplier then c.segment + 1 else 0)
    else c
  }

  /** What a poll does to port and segment counter, in terms of the loop's own state. */
  lemma TickIs(cfg: Config, p: Poller, waiting: seq<byte>)
    requires WellFormed(cfg, p)
    ensures var q := AfterTick(cfg, p, waiting);
            && q.uart == Filled(p.uart, p.segment == 0, waiting, cfg.ioSize, cfg.PayloadSize())
            && q.segment == if p.segment + 1 < cfg.multiplier then p.segment + 1 else 0
  {
  }

  /** `loop` for one port: counter echo, poll interval, segments. */
  class MainLoop {
    const multiplier: nat
    const defaultInterval: u32    // UART_POLL_INTERVAL_US_DEFAULT
    const worker: UARTWorker
    const pollTimer: IntervalTimer
    var segmentCounter: nat
    var pollIntervalSetPending: bool
    var tcpClientState: bool
    var echo: seq<byte>           // the counter field of the answer under construction

    ghost predicate Valid()
      reads this, worker, worker.rxRingBuff, worker.rxRingBuff.storage, worker.txBuff
    {
      && worker.Valid() && multiplier > 0 && segmentCounter < multiplier && defaultInterval > 0
      && worker.payloadSize == worker.ioSize * multiplier
    }

    ghost function State(): Control
      reads this, pollTimer
    {
      Control(tcpClientState, pollIntervalSetPending, segmentCounter, echo, pollTimer.interval, pollTimer.checkPoint)
    }

    /** The package under construction without this port's payload slot. */
    ghost function OutsideSlot(): (seq<byte>, seq<byte>)
      requires worker.offset + worker.payloadSize <= worker.txBuff.Length
      reads worker.txBuff
    {
      (worker.txBuff[..worker.offset], worker.txBuff[worker.offset + worker.payloadSize..])
    }

    constructor (worker: UARTWorker, multiplier: nat, defaultInterval: u32, now: nat)
      requires worker.Valid() && multiplier > 0 && worker.payloadSize == worker.ioSize * multiplier
      requires defaultInterval > 0
      ensures Valid() && this.worker == worker && this.multiplier == multiplier && fresh(pollTimer)
      ensures this.defaultInterval == defaultInterval
      ensures State() == Control(false, false, 0, [0, 0, 0, 0], defaultInterval, Cast32(now))
    {
      this.worker, this.multiplier, this.defaultInterval := worker, multiplier, defaultInterval;
      segmentCounter, pollIntervalSetPending, tcpClientState := 0, false, false;
      echo := [0, 0, 0, 0];
      pollTimer := new IntervalTimer(now);
      new;
      pollTimer.SetInterval(now, defaultInterval);
      pollTimer.Reset(now);
    }

    method OnConnected(now: nat)
      requires Valid()
      modifies this, pollTimer
      ensures Valid() && State() == Joined(old(State()), defaultInterval, now)
    {
      pollTimer.SetInterval(now, defaultInterval);
      tcpClientState, pollIntervalSetPending, segmentCounter := true, true, 0;
    }

    method OnDisconnected(now: nat)
      requires Valid()
      modifies this, pollTimer
      ensures Valid() && State() == Parted(old(State()), defaultInterval, now)
    {
      pollTimer.SetInterval(now, defaultInterval);
      tcpClientState, pollIntervalSetPending := false, false;
    }

    /** The counter field of the answer, and the poll interval the first request of a connection sets. */
    method OnRequest(counterField: seq<byte>, now: nat)
      requires Valid() && |counterField| == 4
      modifies this, pollTimer
      ensures Valid() && State() == Counted(old(State()), counterField, multiplier, now)
    {
      echo := counterField;
      if pollIntervalSetPending {
        pollIntervalSetPending := false;
        echo := [0, 0, 0, 0];
        var interval := Wire.IntervalOf(counterField) as int;
        interval := Share(interval, multiplier);
        if interval > 0 {
          pollTimer.SetInterval(now, interval);
        }
      }
    }

    /** The poll interval has passed: one more segment, and the answer when it is the last one. */
    method OnTick(waiting: seq<byte>) returns (answer: Option<Response>, left: seq<byte>)
      requires Valid()
      modifies this`segmentCounter, worker, worker.txBuff
      ensures Valid()
      ensures var cfg := Config(multiplier, worker.ioSize);
              var before := Poller(old(worker.View()), old(segmentCounter), [], []);
              var after := AfterTick(cfg, before, waiting);
              && worker.View() == after.uart && segmentCounter == after.segment
              && left == waiting[|Taken(cfg, before, waiting)|..]
      ensures answer == if segmentCounter == 0 then Some(Reply(worker.View())) else None
      ensures answer.Some? ==> answer.value.plSz == |worker.View().pending|
      ensures OutsideSlot() == old(OutsideSlot())
    {
      segmentCounter := segmentCounter + 1;
      left := worker.FillTXBuff(segmentCounter == 1, waiting);
      if segmentCounter < multiplier {
        return None, left;
      }
      var response := worker.ProcessTX();
      segmentCounter := 0;
      return Some(response), left;
    }

    /** The poll part of a turn. */
    method Poll(now: nat, waiting: seq<byte>) returns (answer: Option<Response>)
      requires Valid()
      modifies this`segmentCounter, pollTimer, worker, worker.txBuff
      ensures Valid() && OutsideSlot() == old(OutsideSlot())
      ensures State() == Timed(old(State()), multiplier, now)
      ensures worker.View() == if IsDue(old(State()), now)
                               then Filled(old(worker.View()), old(segmentCounter) == 0, waiting,
                                           worker.ioSize, worker.payloadSize)
                               else old(worker.View())
      ensures answer == if IsDue(old(State()), now) && segmentCounter == 0 then Some(Reply(worker.View())) else None
    {
      answer := None;
      var due := pollTimer.Update(now);
      if due {
        pollTimer.Next();
        TickIs(Config(multiplier, worker.ioSize), Poller(worker.View(), segmentCounter, [], []), waiting);
        var left;
        answer, left := OnTick(waiting);
      }
    }

    /** A turn of `loop` after its network events: an optional request with its counter field, the drain, the poll.  The
        clock is read once for the request and once for the poll. */
    method Turn(request: Option<Request>, counterField: seq<byte>, resetComplete: bool, writable: nat,
                now: nat, later: nat, waiting: seq<byte>)
      returns (written: seq<byte>, answer: Option<Response>)
      requires Valid() && |counterField| == 4 && (request.Some? ==> request.value.plSz <= |worker.Slot()|)
      modifies this, pollTimer, worker, worker.rxRingBuff, worker.rxRingBuff.storage, worker.txBuff
      ensures Valid() && OutsideSlot() == old(OutsideSlot())
      ensures var c := if request.Some? then Counted(old(State()), counterField, multiplier, now) else old(State());
              && State() == Timed(c, multiplier, later)
              && worker.View() == TurnUart(old(worker.View()), request, old(worker.Slot()), resetComplete, writable,
                                           IsDue(c, later), c.segment, waiting, worker.ioSize, worker.payloadSize)
              && answer == if IsDue(c, later) && State().segment == 0 then Some(Reply(worker.View())) else None
      ensures written == TurnWritten(old(worker.View()), request, old(worker.Slot()), resetComplete, writable,
                                     worker.ioSize)
    {
      if request.Some? {
        var started := worker.ProcessRequest(request.value);
        OnRequest(counterField, now);
      }
      written := worker.ProcessRX(resetComplete, writable);
      answer := Poll(later, waiting);
    }
  }
}

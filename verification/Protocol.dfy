/**
 The flow-controlled link of one port as a transition system: the client handler, the firmware handler, and the two
 order-preserving channels between them.  Each step runs one of the handlers' specification functions, so a run is any
 interleaving of polls, deliveries, drains, replies, losses and reopenings.

 Runs start when the firmware has processed the Open request.  Packets and answers carry the session number they belong
 to (how often the port was reopened); that number, and the fields `sent`, `out`, `dropped` and `lost`, are history that
 no handler looks at.
 */
module Protocol {
  import opened Bytes
  import opened Command
  import opened UartWorker
  import opened PortWorker

  datatype Config = Config(port: Settings, ringSize: nat, ioSize: nat, payloadSize: nat)

  predicate ValidConfig(cfg: Config) {
    0 < cfg.ringSize && cfg.port.payloadSize < 0x100 && cfg.payloadSize < 0x100
  }

  datatype Packet = Packet(counter: nat, request: Request, payload: seq<byte>, epoch: nat)
  datatype Answer = Answer(counter: nat, response: Response, payload: seq<byte>, epoch: int)

  /** The session of an answer that was sent before the Open was processed. */
  const EARLIER: int := -1

  datatype State = State(
    port: Port, counter: nat, epoch: nat,                     // client
    requests: seq<Packet>, responses: seq<Answer>,            // channels, oldest first
    uart: Uart, echo: nat, fwEpoch: nat,                      // firmware
    sent: seq<seq<byte>>, out: seq<seq<byte>>,                // per session: read from local client, written to UART
    dropped: nat, lost: bool)                                 // bytes refused by the full ring; was any request lost

  datatype Step =
    | Poll(input: Read)
    | Reopen
    | DeliverRequest
    | LoseRequest(i: nat)
    | Drain(writable: nat)
    | Fill(reset: bool, waiting: seq<byte>)
    | Emit
    | DeliverResponse
    | LoseResponse(j: nat)

  predicate IsData(p: Packet) { p.request.kind == DATA }
  predicate IsReset(p: Packet) { p.request.kind == RESET }

  predicate ValidPacket(p: Packet) {
    && p.request.kind in {DATA, RESET, NO_COMMAND}
    && (IsData(p) ==> p.request.plSz == |p.payload|)
    && (!IsData(p) ==> p.request.plSz == 0 && p.payload == [])
  }

  /** What every handler call takes for granted. */
  predicate WellFormed(cfg: Config, s: State) {
    && ValidConfig(cfg)
    && s.uart.Valid() && s.uart.ring.size == cfg.ringSize
    && s.port.connected && !s.port.openPending && s.port.session <= 0x7F
    && (forall i :: 0 <= i < |s.requests| ==> ValidPacket(s.requests[i]))
    && |s.sent| == |s.out| == s.epoch + 1 && s.fwEpoch <= s.epoch
    && (forall i :: 0 <= i < |s.requests| ==> s.requests[i].epoch <= s.epoch)
  }

  function Without<T>(s: seq<T>, i: nat): seq<T>
    requires i < |s|
  {
    s[..i] + s[i + 1..]
  }

  function AfterPoll(cfg: Config, s: State, input: Read): (t: State)
    requires WellFormed(cfg, s)
    ensures WellFormed(cfg, t)
  {
    var c := s.counter + 1;
    var data := Taken(s.port, cfg.port, input);
    var (port, request) := Polled(s.port, cfg.port, c, input);
    s.(port := port, counter := c, requests := s.requests + [Packet(c, request, data, s.epoch)],
       sent := s.sent[s.epoch := s.sent[s.epoch] + data])
  }

  function AfterReopen(cfg: Config, s: State): (t: State)
    requires WellFormed(cfg, s)
    ensures WellFormed(cfg, t)
  {
    var t := s.(port := Reopened(s.port, cfg.port));
    if cfg.port.resetOnConnect
    then t.(epoch := s.epoch + 1, sent := s.sent + [[]], out := s.out + [[]])
    else t
  }

  function AfterRequest(cfg: Config, s: State): (t: State)
    requires WellFormed(cfg, s) && s.requests != []
    ensures WellFormed(cfg, t)
  {
    var p := s.requests[0];
    var uart := Handled(s.uart, p.request, p.payload);
    s.(requests := s.requests[1..], uart := uart, echo := p.counter,
       fwEpoch := if IsReset(p) then p.epoch else s.fwEpoch,
       dropped := s.dropped + (if IsData(p) then |p.payload| - Min(|p.payload|, s.uart.ring.Free()) else 0))
  }

  function AfterDrain(cfg: Config, s: State, writable: nat): (t: State)
    requires WellFormed(cfg, s)
    ensures WellFormed(cfg, t)
  {
    if !s.uart.IsOpen() then s else
      var n := DrainSize(s.uart, writable, cfg.ioSize);
      s.(uart := Drained(s.uart, writable, cfg.ioSize),
         out := s.out[s.fwEpoch := s.out[s.fwEpoch] + s.uart.ring.bytes[..n]])
  }

  function Next(cfg: Config, s: State, step: Step): (t: State)
    requires WellFormed(cfg, s)
    ensures WellFormed(cfg, t)
  {
    match step
    case Poll(input) => AfterPoll(cfg, s, input)
    case Reopen => AfterReopen(cfg, s)
    case DeliverRequest => if s.requests == [] then s else AfterRequest(cfg, s)
    case LoseRequest(i) =>
      // a Reset travels over TCP and is not lost
      if i < |s.requests| && !IsReset(s.requests[i]) then s.(requests := Without(s.requests, i), lost := true) else s
    case Drain(writable) => AfterDrain(cfg, s, writable)
    case Fill(reset, waiting) => s.(uart := Filled(s.uart, reset, waiting, cfg.ioSize, cfg.payloadSize))
    case Emit =>
      s.(responses := s.responses + [Answer(s.echo, Reply(s.uart), s.uart.pending, s.fwEpoch)])
    case DeliverResponse =>
      if s.responses == [] then s
      else
        var r := s.responses[0];
        s.(port := Confirmed(s.port, r.counter, r.response.arg), responses := s.responses[1..])
    case LoseResponse(j) =>
      if j < |s.responses| then s.(responses := Without(s.responses, j)) else s
  }

  function Run(cfg: Config, s: State, steps: seq<Step>): (t: State)
    requires WellFormed(cfg, s)
    ensures WellFormed(cfg, t)
    decreases |steps|
  {
    if steps == [] then s else Run(cfg, Next(cfg, s, steps[0]), steps[1..])
  }

  /**
   The firmware has processed the Open request; no request is in flight.  A local client may have connected before, in
   which case a port that resets on connect has still to announce the session.  Answers sent before may be on their way,
   with whatever counter, session id and payload an earlier client has left, and may have told the client to wait.
   Nothing is said about the counter the firmware echoes either.
   */
  predicate Start(cfg: Config, s: State) {
    && WellFormed(cfg, s)
    && s.port.window == [] && s.port.session == Sid(s.epoch)
    && (if cfg.port.resetOnConnect then s.port.attached == s.port.resetPending == (s.epoch > 0)
        else !s.port.resetPending && s.epoch == 0)
    && s.requests == [] && (forall i :: 0 <= i < |s.responses| ==> s.responses[i].epoch == EARLIER)
    && s.uart.ring.bytes == [] && s.uart.session == 0 && s.fwEpoch == 0
    && (forall e :: 0 <= e <= s.epoch ==> s.sent[e] == s.out[e] == [])
    && s.dropped == 0 && !s.lost
  }

  // ---------------------------------------------------------------- session numbers and ids

  /** Session id of the n-th reopening. */
  function Sid(n: nat): u8 {
    if n == 0 then 0 else (n - 1) % 127 + 1
  }

  lemma SidNext(n: nat)
    ensures Sid(n + 1) == NextSession(Sid(n))
  {
  }

  /** Two session numbers share an id exactly when they differ by a multiple of 127 and neither is the initial one. */
  lemma SidEqual(m: nat, n: nat)
    requires m <= n
    ensures Sid(m) == Sid(n) <==> m == n || (m > 0 && (n - m) % 127 == 0)
  {
    if m > 0 {
      ModEqual(m - 1, n - 1);
    }
  }

  /** Which sessions have a given id. */
  lemma SidIs(id: u8, n: nat)
    requires id <= 0x7F
    ensures Sid(n) == id <==> if id == 0 then n == 0 else n > 0 && (n - id) % 127 == 0
  {
    if id > 0 && n > 0 {
      var q := (n - 1) / 127;
      assert n - id == 127 * q + (Sid(n) - id);
    }
  }

  lemma ModEqual(a: nat, b: nat)
    requires a <= b
    ensures a % 127 == b % 127 <==> (b - a) % 127 == 0
  {
    var q, r := a / 127, b / 127;
    assert a == 127 * q + a % 127 && b == 127 * r + b % 127;
    assert b - a == 127 * (r - q) + (b % 127 - a % 127);
  }

  // ---------------------------------------------------------------- what the request channel holds

  /** The data bytes of session `e` in flight, in order. */
  function InFlight(requests: seq<Packet>, e: nat): seq<byte> {
    if requests == [] then []
    else
      (if IsData(requests[0]) && requests[0].epoch == e then requests[0].payload else []) + InFlight(requests[1..], e)
  }

  /** Each session's packets form one stretch of the channel, opened by its Reset; `cur` is the session before it. */
  predicate Segmented(requests: seq<Packet>, cur: nat) {
    requests == [] ||
    var p := requests[0];
    if IsReset(p) then p.epoch > cur && p.request.arg == Sid(p.epoch) && Segmented(requests[1..], p.epoch)
    else p.epoch == cur && Segmented(requests[1..], cur)
  }

  function LastEpoch(requests: seq<Packet>, cur: nat): nat {
    if requests == [] then cur
    else LastEpoch(requests[1..], if IsReset(requests[0]) then requests[0].epoch else cur)
  }

  lemma {:induction false} InFlightSnoc(requests: seq<Packet>, p: Packet, e: nat)
    ensures InFlight(requests + [p], e) == InFlight(requests, e) + (if IsData(p) && p.epoch == e then p.payload else [])
  {
    if requests == [] {
      assert requests + [p] == [p] && [p][1..] == [];
    } else {
      assert (requests + [p])[1..] == requests[1..] + [p];
      InFlightSnoc(requests[1..], p, e);
    }
  }

  lemma {:induction false} InFlightWithout(requests: seq<Packet>, i: nat, e: nat)
    requires i < |requests|
    ensures |InFlight(Without(requests, i), e)| <= |InFlight(requests, e)|
  {
    if i == 0 {
      assert Without(requests, i) == requests[1..];
    } else {
      assert Without(requests, i)[1..] == Without(requests[1..], i - 1);
      InFlightWithout(requests[1..], i - 1, e);
    }
  }

  lemma {:induction false} InFlightNone(requests: seq<Packet>, e: nat)
    requires forall i :: 0 <= i < |requests| ==> requests[i].epoch != e
    ensures InFlight(requests, e) == []
  {
    if requests != [] {
      InFlightNone(requests[1..], e);
    }
  }

  lemma {:induction false} SegmentedSnoc(requests: seq<Packet>, p: Packet, cur: nat)
    requires Segmented(requests, cur)
    requires if IsReset(p) then p.epoch > LastEpoch(requests, cur) && p.request.arg == Sid(p.epoch)
             else p.epoch == LastEpoch(requests, cur)
    ensures Segmented(requests + [p], cur)
    ensures LastEpoch(requests + [p], cur) == p.epoch
  {
    if requests == [] {
      assert (requests + [p])[1..] == [];
    } else {
      assert (requests + [p])[1..] == requests[1..] + [p];
      SegmentedSnoc(requests[1..], p, if IsReset(requests[0]) then requests[0].epoch else cur);
    }
  }

  lemma {:induction false} SegmentedWithout(requests: seq<Packet>, i: nat, cur: nat)
    requires Segmented(requests, cur) && i < |requests| && !IsReset(requests[i])
    ensures Segmented(Without(requests, i), cur) && LastEpoch(Without(requests, i), cur) == LastEpoch(requests, cur)
  {
    if i == 0 {
      assert Without(requests, i) == requests[1..];
    } else {
      assert Without(requests, i)[1..] == Without(requests[1..], i - 1);
      SegmentedWithout(requests[1..], i - 1, if IsReset(requests[0]) then requests[0].epoch else cur);
    }
  }

  /** Sessions in the channel lie between the firmware's and the last announced one; the latter's Reset is in the
      channel unless the firmware already knows it. */
  lemma {:induction false} SegmentedRange(requests: seq<Packet>, cur: nat)
    requires Segmented(requests, cur)
    ensures cur <= LastEpoch(requests, cur)
    ensures forall i :: 0 <= i < |requests| ==> cur <= requests[i].epoch <= LastEpoch(requests, cur)
    ensures cur < LastEpoch(requests, cur) ==>
              exists i :: 0 <= i < |requests| && IsReset(requests[i]) && requests[i].epoch == LastEpoch(requests, cur)
  {
    if requests != [] {
      var p, next := requests[0], if IsReset(requests[0]) then requests[0].epoch else cur;
      SegmentedRange(requests[1..], next);
      if next < LastEpoch(requests[1..], next) {
        var i :| 0 <= i < |requests[1..]| && IsReset(requests[1..][i])
                 && requests[1..][i].epoch == LastEpoch(requests[1..], next);
        assert requests[i + 1] == requests[1..][i];
      } else if cur < next {
        assert IsReset(requests[0]) && requests[0].epoch == LastEpoch(requests, cur);
      }
      forall i | 0 <= i < |requests|
        ensures cur <= requests[i].epoch <= LastEpoch(requests, cur)
      {
        if i > 0 {
          assert requests[i] == requests[1..][i - 1];
        }
      }
    }
  }
}

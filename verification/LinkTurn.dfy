/**
 A turn of the firmware `loop` (Firmware/UARTEthernetBridge/main_loop.cpp) is a run of the link: at most one delivery,
 drain, fill and emission, in that order.  Everything `LinkSafety` proves about runs therefore holds of whole loops.
 */
module LinkTurn {
  import opened Bytes
  import opened Command
  import opened UartWorker
  import opened Protocol
  import opened LinkLimits
  import Uplink

  /** What a turn does: does a request arrive, may the port drain and how far, is the poll due, on which segment. */
  datatype Turn = Turn(arrives: bool, drains: bool, writable: nat, due: bool, segment: nat, waiting: seq<byte>)

  predicate Emits(turn: Turn, multiplier: nat) { turn.due && turn.segment + 1 >= multiplier }

  function StepsOf(turn: Turn, multiplier: nat): seq<Step> {
    (if turn.arrives then [DeliverRequest] else [])
    + ((if turn.drains then [Drain(turn.writable)] else [])
       + ((if turn.due then [Fill(turn.segment == 0, turn.waiting)] else [])
          + (if Emits(turn, multiplier) then [Emit] else [])))
  }

  /** The request that arrives, and a payload slot that holds it. */
  predicate Fits(s: State, turn: Turn, slot: seq<byte>) {
    && |slot| >= 4
    && (turn.arrives ==>
          && s.requests != [] && s.requests[0].request.plSz <= |slot|
          && slot[..s.requests[0].request.plSz] == s.requests[0].payload)
  }

  function Arriving(s: State, turn: Turn): Option<Request>
    requires turn.arrives ==> s.requests != []
  {
    if turn.arrives then Some(s.requests[0].request) else None
  }

  lemma RunMaybe(cfg: Config, s: State, b: bool, step: Step, rest: seq<Step>)
    requires WellFormed(cfg, s)
    ensures Run(cfg, s, (if b then [step] else []) + rest) == Run(cfg, if b then Next(cfg, s, step) else s, rest)
  {
    RunAppend(cfg, s, if b then [step] else [], rest);
    RunOne(cfg, s, step);
  }

  /** The run, step by step. */
  function Stepped(cfg: Config, s: State, turn: Turn, multiplier: nat): (t: State)
    requires WellFormed(cfg, s)
    ensures WellFormed(cfg, t)
  {
    var s1 := if turn.arrives then Next(cfg, s, DeliverRequest) else s;
    var s2 := if turn.drains then Next(cfg, s1, Drain(turn.writable)) else s1;
    var s3 := if turn.due then Next(cfg, s2, Fill(turn.segment == 0, turn.waiting)) else s2;
    if Emits(turn, multiplier) then Next(cfg, s3, Emit) else s3
  }

  lemma RunIsStepped(cfg: Config, s: State, turn: Turn, multiplier: nat)
    requires WellFormed(cfg, s)
    ensures Run(cfg, s, StepsOf(turn, multiplier)) == Stepped(cfg, s, turn, multiplier)
  {
    var fill := Fill(turn.segment == 0, turn.waiting);
    var s1 := if turn.arrives then Next(cfg, s, DeliverRequest) else s;
    var s2 := if turn.drains then Next(cfg, s1, Drain(turn.writable)) else s1;
    var s3 := if turn.due then Next(cfg, s2, fill) else s2;
    var emits := if Emits(turn, multiplier) then [Emit] else [];
    var fills := (if turn.due then [fill] else []) + emits;
    RunMaybe(cfg, s, turn.arrives, DeliverRequest, (if turn.drains then [Drain(turn.writable)] else []) + fills);
    RunMaybe(cfg, s1, turn.drains, Drain(turn.writable), fills);
    RunMaybe(cfg, s2, turn.due, fill, emits);
    RunOne(cfg, s3, Emit);
  }

  lemma SteppedUart(cfg: Config, s: State, turn: Turn, multiplier: nat, slot: seq<byte>)
    requires WellFormed(cfg, s) && Fits(s, turn, slot)
    ensures Stepped(cfg, s, turn, multiplier).uart
            == Uplink.TurnUart(s.uart, Arriving(s, turn), slot, turn.drains, turn.writable,
                               turn.due, turn.segment, turn.waiting, cfg.ioSize, cfg.payloadSize)
  {
    SameUart(cfg, s, turn, slot);
  }

  lemma SteppedOut(cfg: Config, s: State, turn: Turn, multiplier: nat, slot: seq<byte>)
    requires WellFormed(cfg, s) && Fits(s, turn, slot)
    ensures var t := Stepped(cfg, s, turn, multiplier);
            var written := Uplink.TurnWritten(s.uart, Arriving(s, turn), slot, turn.drains, turn.writable, cfg.ioSize);
            && t.epoch == s.epoch && |t.out| == |s.out| && t.out[t.fwEpoch] == s.out[t.fwEpoch] + written
            && (forall e :: 0 <= e < |s.out| && e != t.fwEpoch ==> t.out[e] == s.out[e])
  {
    SameUart(cfg, s, turn, slot);
    var t := Stepped(cfg, s, turn, multiplier);
    assert s.out[t.fwEpoch] + [] == s.out[t.fwEpoch];
  }

  lemma SteppedChannels(cfg: Config, s: State, turn: Turn, multiplier: nat, slot: seq<byte>)
    requires WellFormed(cfg, s) && Fits(s, turn, slot)
    ensures var t := Stepped(cfg, s, turn, multiplier);
            && t.echo == (if turn.arrives then s.requests[0].counter else s.echo)
            && t.port == s.port && t.requests == (if turn.arrives then s.requests[1..] else s.requests)
            && t.responses == s.responses + (if Emits(turn, multiplier)
                                             then [Answer(t.echo, Reply(t.uart), t.uart.pending, t.fwEpoch)] else [])
  {
    assert s.responses + [] == s.responses;
  }

  /** The port, the UART output, the echoed counter and the answer of a turn are those of the corresponding run. */
  lemma TurnIsRun(cfg: Config, s: State, turn: Turn, multiplier: nat, slot: seq<byte>)
    requires WellFormed(cfg, s) && Fits(s, turn, slot)
    ensures var t := Run(cfg, s, StepsOf(turn, multiplier));
            var request := Arriving(s, turn);
            && t.uart == Uplink.TurnUart(s.uart, request, slot, turn.drains, turn.writable,
                                         turn.due, turn.segment, turn.waiting, cfg.ioSize, cfg.payloadSize)
            && t.epoch == s.epoch && |t.out| == |s.out| && t.out[t.fwEpoch]
               == s.out[t.fwEpoch] + Uplink.TurnWritten(s.uart, request, slot, turn.drains, turn.writable, cfg.ioSize)
            && t.echo == (if turn.arrives then s.requests[0].counter else s.echo)
            && t.port == s.port && t.requests == (if turn.arrives then s.requests[1..] else s.requests)
            && t.responses == s.responses + (if Emits(turn, multiplier)
                                             then [Answer(t.echo, Reply(t.uart), t.uart.pending, t.fwEpoch)] else [])
  {
    RunIsStepped(cfg, s, turn, multiplier);
    SteppedUart(cfg, s, turn, multiplier, slot);
    SteppedOut(cfg, s, turn, multiplier, slot);
    SteppedChannels(cfg, s, turn, multiplier, slot);
  }

  /** Beyond the bytes in use a payload slot does not matter. */
  lemma SameUart(cfg: Config, s: State, turn: Turn, slot: seq<byte>)
    requires WellFormed(cfg, s) && Fits(s, turn, slot)
    ensures turn.arrives ==>
              var p := s.requests[0]; Handled(s.uart, p.request, slot) == Handled(s.uart, p.request, p.payload)
  {
    if turn.arrives {
      assert s.requests[0].payload[..s.requests[0].request.plSz] == s.requests[0].payload;
    }
  }
}

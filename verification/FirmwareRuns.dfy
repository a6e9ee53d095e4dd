/**
 Runs of the whole firmware `loop` (Firmware/UARTEthernetBridge/main_loop.cpp), against a reference in unbounded time:
 what the connection, the requests and the clock mean for polling, echoing and answering.
 */
module FirmwareRuns {
  import opened Arithmetic
  import opened Bytes
  import opened UartWorker
  import opened SeqWindow
  import opened Receive
  import opened Timer
  import opened Uplink
  import opened Wire
  import opened FirmwareLoop

  datatype Setup = Setup(l: Layout, multiplier: nat, defaultInterval: u32, ioSize: nat)
  {
    predicate Valid() { l.ports == 1 && multiplier > 0 && defaultInterval > 0 }
    function PkgShape(): Shape { Shape(l.PackageSize(), l.MetaSz()) }
  }

  /** One turn: the network, when the clock is read, whether a datagram can be started, and what the port's transmit
      slot and input queue hold at the poll. */
  datatype Round = Round(net: Net, now: nat, later: nat, begun: bool, used: nat, waiting: nat)

  /** The receive machine with its history, and the loop's own state. */
  datatype Bench = Bench(m: Machine, control: Control)

  predicate Fits(setup: Setup, d: Bench) {
    setup.Valid() && |d.m.buff| == setup.l.PackageSize() && d.m.tcp.pkgLeft <= setup.l.PackageSize()
  }

  /** One turn of `FirmwareLoop.Board`. */
  function Play(setup: Setup, d: Bench, r: Round): (p: (Bench, Option<Transport>))
    requires Fits(setup, d)
    ensures Fits(setup, p.0)
  {
    var (desk, transport) := Played(setup.l, setup.multiplier, setup.defaultInterval,
                                    FirmwareLoop.Desk(d.m.tcp, d.m.udp, d.m.buff, d.control),
                                    r.net, r.now, r.later, r.begun);
    (Bench(Receive.Turn(setup.PkgShape(), d.m, r.net).(udp := desk.udp), desk.control), transport)
  }

  // ---------------------------------------------------------------- the reference

  /**
   Of the connection, or since its end: the counter fields of its requests, and the one that was echoed before; the
   polls, and the numbers of the answers that left over UDP.  Of the poll timer: when it was set last and to what
   interval, how many intervals it has counted since, and how many bytes the port has given in them.
   */
  datatype Log = Log(connected: bool, requests: seq<seq<byte>>, earlier: seq<byte>, polls: nat, numbers: seq<u16>,
                     mark: nat, interval: nat, fired: nat, given: nat)
  {
    /** The instant up to which polls have been made. */
    function Served(): nat { mark + fired * interval }

    function Set(now: nat, interval: nat): (g: Log)
      ensures g.Served() == now
    {
      this.(mark := now, interval := interval, fired := 0, given := 0)
    }
  }

  /** The first request of a connection is answered with counter zero, every other with its own. */
  function EchoOf(g: Log): seq<byte> {
    if g.requests == [] then g.earlier
    else if g.connected && |g.requests| == 1 then [0, 0, 0, 0]
    else g.requests[|g.requests| - 1]
  }

  /** A connection comes up or ends: the default interval, from now on. */
  function Noted(setup: Setup, g: Log, before: bool, after: bool, now: nat): Log {
    if before == after then g
    else g.(connected := after, requests := [], earlier := EchoOf(g),
            polls := if after then 0 else g.polls, numbers := []).Set(now, setup.defaultInterval)
  }

  /** A request: the first one of a connection sets the interval, unless its share of it is zero. */
  function Requesting(setup: Setup, g: Log, field: seq<byte>, now: nat): Log
    requires |field| == 4 && setup.multiplier > 0
  {
    var h := g.(requests := g.requests + [field]);
    var share := ShareOf(field, setup.multiplier);
    if g.connected && g.requests == [] && share > 0 then h.Set(now, share) else h
  }

  /** Each segment's share of the interval that a counter field asks for. */
  function ShareOf(field: seq<byte>, multiplier: nat): nat
    requires |field| == 4 && multiplier > 0
  {
    Share(IntervalOf(field) as int, multiplier)
  }

  predicate Ticks(g: Log, later: nat) {
    later >= g.Served() + g.interval
  }

  /** When the next interval is over there is one more poll. */
  function Polling(setup: Setup, g: Log, r: Round): Log {
    if Ticks(g, r.later)
    then g.(polls := g.polls + 1, fired := g.fired + 1,
            given := g.given + FillSize(r.used, r.waiting, setup.ioSize, setup.l.payloadSz))
    else g
  }

  /** What a turn finds before its poll. */
  function BeforePoll(setup: Setup, d: Bench, g: Log, r: Round): Log
    requires Fits(setup, d)
  {
    var m := Receive.Turn(setup.PkgShape(), d.m, r.net);
    var event := Receiving(setup.PkgShape(), d.m.tcp, d.m.udp, d.m.buff, r.net).event;
    var h := Noted(setup, g, d.m.tcp.connected, m.tcp.connected, r.now);
    if event.NewRequest? then Requesting(setup, h, Field(setup.l, m.buff, Counter), r.now) else h
  }

  /** An answer leaves with every multiplier-th poll of a connection. */
  predicate Answers(setup: Setup, g: Log, later: nat)
    requires setup.multiplier > 0
  {
    g.connected && Ticks(g, later) && (g.polls + 1) % setup.multiplier == 0
  }

  function Logged(setup: Setup, d: Bench, g: Log, r: Round): Log
    requires Fits(setup, d)
  {
    var before := BeforePoll(setup, d, g, r);
    var after := Polling(setup, before, r);
    match Play(setup, d, r).1
    case Some(ByUdp(number)) => after.(numbers := after.numbers + [number])
    case _ => after
  }

  /** The clock does not run backwards, and the loop lags less than 2^32 microseconds behind. */
  predicate InTime(setup: Setup, d: Bench, g: Log, r: Round, clock: nat)
    requires Fits(setup, d)
  {
    clock <= r.now <= r.later < BeforePoll(setup, d, g, r).Served() + Timer.WRAP
  }

  // ---------------------------------------------------------------- the invariant

  predicate TimerAgrees(setup: Setup, c: Control, g: Log, clock: nat)
    requires setup.Valid()
  {
    && c.connected == g.connected && c.setPending == (g.connected && g.requests == [])
    && c.interval == g.interval > 0 && c.checkPoint == Timer.Cast32(g.Served()) && g.Served() <= clock
    && c.segment == g.polls % setup.multiplier && c.echo == EchoOf(g)
    && g.given <= setup.ioSize * g.fired
  }

  predicate NumbersAgree(clientSeq: u16, g: Log) {
    clientSeq == SeqWindow.Cast16(|g.numbers|) && g.numbers == Numbers(Consecutive(0, |g.numbers|))
  }

  ghost predicate Agrees(setup: Setup, d: Bench, g: Log, clock: nat) {
    && Fits(setup, d) && MachineInv(setup.PkgShape(), d.m)
    && g.connected == d.m.tcp.connected && TimerAgrees(setup, d.control, g, clock)
    && NumbersAgree(d.m.udp.clientSeq, g)
  }

  /** The poll timer is set. */
  lemma SetAgrees(setup: Setup, c: Control, g: Log, now: nat, interval: u32)
    requires setup.Valid() && interval > 0 && c.interval == interval && c.checkPoint == Timer.Cast32(now)
    requires c.connected == g.connected && c.setPending == (g.connected && g.requests == [])
    requires c.segment == g.polls % setup.multiplier && c.echo == EchoOf(g)
    ensures TimerAgrees(setup, c, g.Set(now, interval), now)
  {
    assert setup.ioSize * 0 == 0;
  }

  lemma NotedAgrees(setup: Setup, c: Control, g: Log, event: Event, before: bool, after: bool, clock: nat, now: nat)
    requires setup.Valid() && TimerAgrees(setup, c, g, clock) && clock <= now && g.connected == before
    requires (event.Connected? <==> !before && after) && (event.Disconnected? <==> before && !after)
    ensures var h := Noted(setup, g, before, after, now);
            TimerAgrees(setup, AfterEvent(c, event, setup.defaultInterval, now), h, now) && h.connected == after
  {
    if before != after {
      var h := g.(connected := after, requests := [], earlier := EchoOf(g), polls := if after then 0 else g.polls,
                  numbers := []);
      SetAgrees(setup, AfterEvent(c, event, setup.defaultInterval, now), h, now, setup.defaultInterval);
    }
  }

  lemma ShareIs(field: seq<byte>, multiplier: nat)
    requires |field| == 4 && multiplier > 0
    ensures NewInterval(field, multiplier) == if ShareOf(field, multiplier) > 0 then Some(ShareOf(field, multiplier))
                                              else None
  {
  }

  /** A request is noted; `share` is what it asks for. */
  lemma CountAgrees(setup: Setup, c: Control, g: Log, field: seq<byte>, share: u32, now: nat, d: Control)
    requires setup.Valid() && TimerAgrees(setup, c, g, now)
    requires d == c.(echo := if c.setPending then [0, 0, 0, 0] else field, setPending := false,
                     interval := if c.setPending && share > 0 then share else c.interval,
                     checkPoint := if c.setPending && share > 0 then Timer.Cast32(now) else c.checkPoint)
    ensures var h := g.(requests := g.requests + [field]);
            TimerAgrees(setup, d, if g.connected && g.requests == [] && share > 0 then h.Set(now, share) else h, now)
  {
    var h := g.(requests := g.requests + [field]);
    assert h.requests[|h.requests| - 1] == field && h.Served() == g.Served();
    if g.connected && g.requests == [] && share > 0 {
      SetAgrees(setup, d, h, now, share);
    }
  }

  lemma RequestAgrees(setup: Setup, c: Control, g: Log, field: seq<byte>, now: nat)
    requires setup.Valid() && TimerAgrees(setup, c, g, now) && |field| == 4
    ensures TimerAgrees(setup, Counted(c, field, setup.multiplier, now), Requesting(setup, g, field, now), now)
  {
    ShareIs(field, setup.multiplier);
    var interval := NewInterval(field, setup.multiplier);
    CountAgrees(setup, c, g, field, if interval.Some? then interval.value else 0, now,
                Counted(c, field, setup.multiplier, now));
  }

  lemma ModNext(x: nat, n: nat)
    requires n > 0
    ensures (x + 1) % n == if x % n + 1 < n then x % n + 1 else 0
  {
    var q := x / n;
    if x % n + 1 < n {
      ModUnique(x + 1, q, x % n + 1, n);
    } else {
      ModUnique(x + 1, q + 1, 0, n);
    }
  }

  lemma TickIsDue(setup: Setup, c: Control, g: Log, now: nat, later: nat)
    requires setup.Valid() && TimerAgrees(setup, c, g, now) && now <= later < g.Served() + Timer.WRAP
    ensures IsDue(c, later) <==> Ticks(g, later)
  {
    DueIsTrueTime(g.Served(), c.interval, later);
  }

  /** One interval further the checkpoint stays on the grid, and the port has given at most PORT_IO_SIZE bytes more. */
  lemma GridKeeps(mark: nat, interval: u32, fired: nat, check: u32, ioSize: nat, given: nat, more: nat)
    requires check == Timer.Cast32(mark + fired * interval) && given <= ioSize * fired && more <= ioSize
    ensures Timer.Cast32(check + interval) == Timer.Cast32(mark + (fired + 1) * interval)
    ensures mark + (fired + 1) * interval == mark + fired * interval + interval
    ensures given + more <= ioSize * (fired + 1)
  {
    CastSum(mark + fired * interval, interval);
    MulStep(interval, fired);
    MulStep(ioSize, fired);
  }

  /** The 32-bit test finds out about true time, and the checkpoint stays on the grid. */
  lemma PollAgrees(setup: Setup, c: Control, g: Log, r: Round)
    requires setup.Valid() && TimerAgrees(setup, c, g, r.now) && r.now <= r.later < g.Served() + Timer.WRAP
    ensures TimerAgrees(setup, Timed(c, setup.multiplier, r.later), Polling(setup, g, r), r.later)
    ensures IsDue(c, r.later) && Timed(c, setup.multiplier, r.later).segment == 0 && c.connected
            <==> Answers(setup, g, r.later)
  {
    TickIsDue(setup, c, g, r.now, r.later);
    ModNext(g.polls, setup.multiplier);
    GridKeeps(g.mark, c.interval, g.fired, c.checkPoint, setup.ioSize, g.given,
              FillSize(r.used, r.waiting, setup.ioSize, setup.l.payloadSz));
  }

  lemma NumbersSnoc(numbers: seq<u16>)
    requires numbers == Numbers(Consecutive(0, |numbers|))
    ensures var more := numbers + [SeqWindow.Cast16(|numbers|)]; more == Numbers(Consecutive(0, |more|))
    ensures SeqWindow.Cast16(SeqWindow.Cast16(|numbers|) + 1) == SeqWindow.Cast16(|numbers| + 1)
  {
    var q := |numbers| / SeqWindow.WRAP;
    ModShift(SeqWindow.Cast16(|numbers|) + 1, q, SeqWindow.WRAP);
  }

  /** The number for the next datagram is reset with the connection, and otherwise kept. */
  lemma SeqFollows(shape: Shape, m: Machine, net: Net)
    requires shape.Valid() && |m.buff| == shape.pkgSz && m.tcp.pkgLeft <= shape.pkgSz
    ensures var t := Receive.Turn(shape, m, net);
            t.udp.clientSeq == if m.tcp.connected == t.tcp.connected then m.udp.clientSeq else 0
  {
  }

  /** The receive machine does not look at it. */
  lemma SeqIsFree(shape: Shape, m: Machine, clientSeq: u16)
    requires MachineInv(shape, m)
    ensures MachineInv(shape, m.(udp := m.udp.(clientSeq := clientSeq)))
  {
  }

  lemma MachineKeeps(shape: Shape, m: Machine, net: Net)
    requires MachineInv(shape, m)
    ensures MachineInv(shape, Receive.Turn(shape, m, net))
  {
    TurnTcp(shape, m, net);
    TurnUdp(shape, m, net);
    TurnSound(shape, m, net);
    TurnServer(shape, m, net);
  }

  // ---------------------------------------------------------------- whole turns

  lemma BeforePollAgrees(setup: Setup, d: Bench, g: Log, r: Round, clock: nat)
    requires Agrees(setup, d, g, clock) && clock <= r.now
    ensures var received := Receiving(setup.PkgShape(), d.m.tcp, d.m.udp, d.m.buff, r.net);
            var c := Asked(AfterEvent(d.control, received.tcpEvent, setup.defaultInterval, r.now), setup.l,
                           received.buff, received.event, setup.multiplier, r.now);
            TimerAgrees(setup, c, BeforePoll(setup, d, g, r), r.now)
            && BeforePoll(setup, d, g, r).connected == Receive.Turn(setup.PkgShape(), d.m, r.net).tcp.connected
  {
    var received := Receiving(setup.PkgShape(), d.m.tcp, d.m.udp, d.m.buff, r.net);
    var m := Receive.Turn(setup.PkgShape(), d.m, r.net);
    EventSays(setup.PkgShape(), d.m.tcp, d.m.buff, r.net);
    NotedAgrees(setup, d.control, g, received.tcpEvent, d.m.tcp.connected, m.tcp.connected, clock, r.now);
    var c, h := AfterEvent(d.control, received.tcpEvent, setup.defaultInterval, r.now),
                Noted(setup, g, d.m.tcp.connected, m.tcp.connected, r.now);
    if received.event.NewRequest? {
      RequestAgrees(setup, c, h, Field(setup.l, m.buff, Counter), r.now);
    }
  }

  /** An answer leaves a turn exactly when the reference has it leave; and it goes by UDP exactly when some package of
      the connection has had a UDP port opened, a datagram of it has shown the client's port, and one can be started. */
  lemma AnswerLeaves(setup: Setup, d: Bench, g: Log, r: Round, clock: nat)
    requires Agrees(setup, d, g, clock) && InTime(setup, d, g, r, clock)
    ensures var m, transport := Receive.Turn(setup.PkgShape(), d.m, r.net), Play(setup, d, r).1;
            && (transport.Some? <==> Answers(setup, BeforePoll(setup, d, g, r), r.later))
            && (transport.Some? ==>
                  (transport.value.ByUdp? <==> PortOpened(m.tcpOut, m.begun) && FirstPort(m.ports) > 0 && r.begun))
            && (transport.Some? && transport.value.ByUdp? ==>
                  transport.value.number == SeqWindow.Cast16(|BeforePoll(setup, d, g, r).numbers|))
  {
    var received := Receiving(setup.PkgShape(), d.m.tcp, d.m.udp, d.m.buff, r.net);
    var c := Asked(AfterEvent(d.control, received.tcpEvent, setup.defaultInterval, r.now), setup.l,
                   received.buff, received.event, setup.multiplier, r.now);
    BeforePollAgrees(setup, d, g, r, clock);
    PollAgrees(setup, c, BeforePoll(setup, d, g, r), r);
    MachineKeeps(setup.PkgShape(), d.m, r.net);
    SeqFollows(setup.PkgShape(), d.m, r.net);
  }

  /** What sends an answer, once the network and the request have been seen to. */
  function Answering(setup: Setup, udp: Udp, c: Control, r: Round): (Option<Transport>, u16)
    requires setup.Valid()
  {
    if IsDue(c, r.later) && Timed(c, setup.multiplier, r.later).segment == 0 && c.connected
    then (Some(Chosen(udp, r.begun).0), Chosen(udp, r.begun).1) else (None, udp.clientSeq)
  }

  function Numbered(g: Log, transport: Option<Transport>): Log {
    match transport
    case Some(ByUdp(number)) => g.(numbers := g.numbers + [number])
    case _ => g
  }

  lemma PlayIs(setup: Setup, d: Bench, g: Log, r: Round)
    requires Fits(setup, d)
    ensures var received := Receiving(setup.PkgShape(), d.m.tcp, d.m.udp, d.m.buff, r.net);
            var m := Receive.Turn(setup.PkgShape(), d.m, r.net);
            var c := Asked(AfterEvent(d.control, received.tcpEvent, setup.defaultInterval, r.now), setup.l,
                           received.buff, received.event, setup.multiplier, r.now);
            var (transport, clientSeq) := Answering(setup, m.udp, c, r);
            && Play(setup, d, r).0.m == m.(udp := m.udp.(clientSeq := clientSeq))
            && Play(setup, d, r).0.control == Timed(c, setup.multiplier, r.later)
            && Logged(setup, d, g, r) == Numbered(Polling(setup, BeforePoll(setup, d, g, r), r), transport)
  {
  }

  lemma NumbersKeep(setup: Setup, udp: Udp, c: Control, g: Log, r: Round)
    requires setup.Valid() && NumbersAgree(udp.clientSeq, g)
    ensures var (transport, clientSeq) := Answering(setup, udp, c, r);
            NumbersAgree(clientSeq, Numbered(Polling(setup, g, r), transport))
  {
    NumbersSnoc(g.numbers);
  }

  lemma NumberedAgrees(setup: Setup, c: Control, g: Log, transport: Option<Transport>, clock: nat)
    requires setup.Valid() && TimerAgrees(setup, c, g, clock)
    ensures TimerAgrees(setup, c, Numbered(g, transport), clock) && Numbered(g, transport).connected == g.connected
  {
  }

  /** The number of the next datagram goes with the connection. */
  lemma NumbersFollow(setup: Setup, d: Bench, g: Log, r: Round, clock: nat)
    requires Agrees(setup, d, g, clock)
    ensures NumbersAgree(Receive.Turn(setup.PkgShape(), d.m, r.net).udp.clientSeq, BeforePoll(setup, d, g, r))
  {
    SeqFollows(setup.PkgShape(), d.m, r.net);
    assert Numbers(Consecutive(0, 0)) == [];
  }

  lemma RoundAgrees(setup: Setup, d: Bench, g: Log, r: Round, clock: nat)
    requires Agrees(setup, d, g, clock) && InTime(setup, d, g, r, clock)
    ensures Agrees(setup, Play(setup, d, r).0, Logged(setup, d, g, r), r.later)
  {
    var received := Receiving(setup.PkgShape(), d.m.tcp, d.m.udp, d.m.buff, r.net);
    var c := Asked(AfterEvent(d.control, received.tcpEvent, setup.defaultInterval, r.now), setup.l,
                   received.buff, received.event, setup.multiplier, r.now);
    var before, m := BeforePoll(setup, d, g, r), Receive.Turn(setup.PkgShape(), d.m, r.net);
    PlayIs(setup, d, g, r);
    BeforePollAgrees(setup, d, g, r, clock);
    MachineKeeps(setup.PkgShape(), d.m, r.net);
    NumbersFollow(setup, d, g, r, clock);
    Fold(setup, m, c, before, r, Play(setup, d, r).0, Logged(setup, d, g, r));
  }

  lemma Fold(setup: Setup, m: Machine, c: Control, before: Log, r: Round, e: Bench, after: Log)
    requires setup.Valid() && MachineInv(setup.PkgShape(), m) && TimerAgrees(setup, c, before, r.now)
    requires r.now <= r.later < before.Served() + Timer.WRAP
    requires before.connected == m.tcp.connected && NumbersAgree(m.udp.clientSeq, before)
    requires var (transport, clientSeq) := Answering(setup, m.udp, c, r);
             && e.m == m.(udp := m.udp.(clientSeq := clientSeq))
             && e.control == Timed(c, setup.multiplier, r.later)
             && after == Numbered(Polling(setup, before, r), transport)
    ensures Agrees(setup, e, after, r.later)
  {
    var (transport, clientSeq) := Answering(setup, m.udp, c, r);
    PollAgrees(setup, c, before, r);
    NumberedAgrees(setup, e.control, Polling(setup, before, r), transport, r.later);
    SeqIsFree(setup.PkgShape(), m, clientSeq);
    NumbersKeep(setup, m.udp, c, before, r);
  }

  // ---------------------------------------------------------------- runs

  function PlayAll(setup: Setup, d: Bench, g: Log, rounds: seq<Round>): (p: (Bench, Log))
    requires Fits(setup, d)
    ensures Fits(setup, p.0)
    decreases |rounds|
  {
    if rounds == [] then (d, g)
    else PlayAll(setup, Play(setup, d, rounds[0]).0, Logged(setup, d, g, rounds[0]), rounds[1..])
  }

  predicate AllInTime(setup: Setup, d: Bench, g: Log, rounds: seq<Round>, clock: nat)
    requires Fits(setup, d)
    decreases |rounds|
  {
    rounds == [] ||
    (InTime(setup, d, g, rounds[0], clock) &&
     AllInTime(setup, Play(setup, d, rounds[0]).0, Logged(setup, d, g, rounds[0]), rounds[1..], rounds[0].later))
  }

  function Last(rounds: seq<Round>, clock: nat): nat {
    if rounds == [] then clock else rounds[|rounds| - 1].later
  }

  lemma {:induction false} RunAgrees(setup: Setup, d: Bench, g: Log, rounds: seq<Round>, clock: nat)
    requires Agrees(setup, d, g, clock) && AllInTime(setup, d, g, rounds, clock)
    ensures var p := PlayAll(setup, d, g, rounds); Agrees(setup, p.0, p.1, Last(rounds, clock))
    decreases |rounds|
  {
    if rounds != [] {
      var r, rest := rounds[0], rounds[1..];
      assert Last(rest, r.later) == Last(rounds, clock);
      RoundAgrees(setup, d, g, r, clock);
      var e, h := Play(setup, d, r).0, Logged(setup, d, g, r);
      assert PlayAll(setup, d, g, rounds) == PlayAll(setup, e, h, rest) && AllInTime(setup, e, h, rest, r.later);
      RunAgrees(setup, e, h, rest, r.later);
    }
  }

  /** After `setup`, at instant `clock`. */
  predicate Boots(setup: Setup, d: Bench, g: Log, clock: nat) {
    && setup.Valid() && Booted(setup.PkgShape(), d.m)
    && d.control == Control(false, false, 0, [0, 0, 0, 0], setup.defaultInterval, Timer.Cast32(clock))
    && g == Log(false, [], [0, 0, 0, 0], 0, [], clock, setup.defaultInterval, 0, 0)
  }

  lemma BootAgrees(setup: Setup, d: Bench, g: Log, clock: nat)
    requires Boots(setup, d, g, clock)
    ensures Agrees(setup, d, g, clock)
  {
    assert Filtered([], [], 0);
    assert 0 * setup.defaultInterval == 0 && setup.ioSize * 0 == 0;
    assert Numbers(Consecutive(0, 0)) == [];
  }

  /** The loop and the reference agree at instant `last`. */
  predicate KeepsTime(setup: Setup, e: Bench, h: Log, last: nat)
    requires setup.Valid()
  {
    var c := e.control;
    && c.connected == h.connected == e.m.tcp.connected
    && c.setPending == (h.connected && h.requests == []) && c.echo == EchoOf(h)
    && c.interval == h.interval > 0 && c.checkPoint == Timer.Cast32(h.mark + h.fired * h.interval)
    && h.mark + h.fired * h.interval <= last && h.fired <= (last - h.mark) / h.interval
    && h.given <= setup.ioSize * ((last - h.mark) / h.interval)
    && c.segment == h.polls % setup.multiplier
    && h.numbers == Numbers(Consecutive(0, |h.numbers|))
    && Accepted(0xFFFF, h.numbers) == seq(|h.numbers|, _ => true)
  }

  /**
   `loop` keeps time.  On every run of whole turns in which it lags less than 2^32 microseconds behind, the flag of the
   connection is the TCP server's; the first request of a connection, and no other, sets the poll interval and is echoed
   as zero; polls are made at the end of whole intervals since the timer was set last, without drift, so that a port
   gives at most PORT_IO_SIZE bytes for each; the segment counter counts the polls of a connection; and the answers sent
   over UDP carry consecutive numbers from zero, all of which the client accepts if none is lost.
   */
  lemma LoopKeepsTime(setup: Setup, d: Bench, g: Log, rounds: seq<Round>, clock: nat)
    requires Boots(setup, d, g, clock) && AllInTime(setup, d, g, rounds, clock)
    ensures var p := PlayAll(setup, d, g, rounds); KeepsTime(setup, p.0, p.1, Last(rounds, clock))
  {
    BootAgrees(setup, d, g, clock);
    RunAgrees(setup, d, g, rounds, clock);
    var p := PlayAll(setup, d, g, rounds);
    InTimeStill(setup, p.0, p.1, Last(rounds, clock));
  }

  lemma InTimeStill(setup: Setup, e: Bench, h: Log, last: nat)
    requires Agrees(setup, e, h, last)
    ensures KeepsTime(setup, e, h, last)
  {
    Elapsed(setup.ioSize, h.fired, h.interval, last - h.mark, h.given);
    ClientAcceptsAll(|h.numbers|);
  }

  lemma Elapsed(ioSize: nat, fired: nat, interval: nat, span: int, given: nat)
    requires interval > 0 && fired * interval <= span && given <= ioSize * fired
    ensures fired <= span / interval && given <= ioSize * (span / interval)
  {
    Whole(fired, interval, span);
    MulMonotone(ioSize, fired, span / interval);
  }
}

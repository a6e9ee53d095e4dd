/**
 How a link comes to its start: from a fresh connection to the moment the firmware has processed the Open request.

 The connection may come up between two polls, or while a package that was built before is being sent: in TCP-only mode
 `OnSendPackage` opens it itself (Client/Src/TCPTransport.cpp).  In the second case the first request that the firmware
 sees is not the Open, it takes that request's counter for the poll interval, and the interval in the Open's counter
 field is echoed as a counter.

 The firmware answers as soon as a client is connected, and nothing but a request changes the counter field and the
 session id of its answers.  So a board that has served another client before answers this one, until the Open has been
 processed, with that client's last counter and session id.

 All ports of a board are taken to send their Open in the same package.
 */
module LinkStart {
  import opened Arithmetic
  import opened Bytes
  import opened Command
  import opened UartWorker
  import opened PortWorker
  import opened Protocol
  import opened LinkSafety
  import opened LinkLimits
  import Uplink

  /** `interval` is the remote poll interval that the Open request carries in its counter field. */
  datatype Setup = Setup(link: Config, interval: nat, speed: bv32)

  /** `setPending` and `echo` are the firmware's, `answers` are on their way to the client; `early` records that a
      package built before the connection was up went out over it. */
  datatype Boot = Boot(port: Port, counter: nat, epoch: nat, uart: Uart, setPending: bool, echo: nat,
                       answers: seq<Answer>, early: bool)

  datatype Event =
    | Connect                      // the transport's worker opens the connection
    | Attach                       // a local client connects
    | Tick(connects: bool)         // a poll; the connection may come up between building and sending its package
    | Flush(writable: nat)         // the firmware moves ring bytes to the UART
    | Gather(reset: bool, waiting: seq<byte>)
    | Respond                         // the firmware answers
    | Arrive                      // an answer arrives
    | Vanish(j: nat)                 // an answer is lost

  predicate WellFormed(setup: Setup, b: Boot) {
    && ValidConfig(setup.link) && b.uart.Valid() && b.uart.ring.size == setup.link.ringSize
    && b.port.session <= 0x7F
  }

  /** A client that has just been started, and a firmware whose port is in use by an earlier client, or never was: for a
      port it opens as closed, a client starts no listener and sends no data. */
  predicate First(setup: Setup, b: Boot) {
    && WellFormed(setup, b)
    && b.port == Port(false, true, false, false, 0, [], false) && b.epoch == 0 && b.answers == [] && !b.early
    && (b.uart.IsOpen() || (b.uart.ring.bytes == [] && b.uart.ring.tail == 0))
  }

  /** The connection is up on both sides: `OnConnected` on the client, `Connected` on the firmware. */
  function Joined(b: Boot): Boot {
    if b.port.connected then b else b.(port := b.port.(connected := true), setPending := true)
  }

  function AfterTick(setup: Setup, b: Boot, connects: bool): (c: Boot)
    requires WellFormed(setup, b)
    ensures WellFormed(setup, c)
  {
    var (port, request) := Polled(b.port, setup.link.port, b.counter + 1, Again);
    var built := b.(port := port, counter := b.counter + 1);
    if !b.port.connected && !connects then built  // nowhere to send it
    else
      var c := Joined(built);
      var field := if request.kind == OPEN then setup.interval else c.counter;
      c.(uart := Handled(c.uart, request, U32Bytes(setup.speed)), echo := Uplink.Echoed(c.setPending, 0, field),
         setPending := false, early := b.early || !b.port.connected)
  }

  /** What the firmware sends before it has processed the Open. */
  function Reported(b: Boot): Answer
    requires b.uart.Valid()
  {
    Answer(b.echo, Reply(b.uart), b.uart.pending, EARLIER)
  }

  /** Once the Open is out, booting is over. */
  function Next(setup: Setup, b: Boot, event: Event): (c: Boot)
    requires WellFormed(setup, b)
    ensures WellFormed(setup, c)
  {
    if !b.port.openPending then b else
      match event
      case Connect => Joined(b)
      case Attach =>
        b.(port := Reopened(b.port, setup.link.port),
           epoch := if setup.link.port.resetOnConnect then b.epoch + 1 else b.epoch)
      case Tick(connects) => AfterTick(setup, b, connects)
      case Flush(writable) => if b.uart.IsOpen() then b.(uart := Drained(b.uart, writable, setup.link.ioSize)) else b
      case Gather(reset, waiting) =>
        b.(uart := Filled(b.uart, reset, waiting, setup.link.ioSize, setup.link.payloadSize))
      case Respond => if b.port.connected then b.(answers := b.answers + [Reported(b)]) else b
      case Arrive =>
        if b.answers == [] then b
        else b.(port := Confirmed(b.port, b.answers[0].counter, b.answers[0].response.arg), answers := b.answers[1..])
      case Vanish(j) => if j < |b.answers| then b.(answers := Without(b.answers, j)) else b
  }

  function Run(setup: Setup, b: Boot, events: seq<Event>): (c: Boot)
    requires WellFormed(setup, b)
    ensures WellFormed(setup, c)
    decreases |events|
  {
    if events == [] then b else Run(setup, Next(setup, b, events[0]), events[1..])
  }

  /** The link as booting leaves it. */
  function LinkOf(b: Boot): State {
    State(b.port, b.counter, b.epoch, [], b.answers, b.uart, b.echo, 0,
          seq(b.epoch + 1, _ => []), seq(b.epoch + 1, _ => []), 0, false)
  }

  // ---------------------------------------------------------------- every way of connecting

  /** Answers from before the Open carry no counter above the one the firmware was left with. */
  predicate Leftover(answers: seq<Answer>, echo: nat) {
    forall i :: 0 <= i < |answers| ==> answers[i].epoch == EARLIER && answers[i].counter <= echo
  }

  predicate Booting(setup: Setup, first: Boot, b: Boot) {
    && b.port.window == [] && b.port.session == Sid(b.epoch)
    && (if setup.link.port.resetOnConnect then b.port.attached == b.port.resetPending == (b.epoch > 0)
        else !b.port.resetPending && b.epoch == 0)
    && (b.early ==> b.port.connected) && (b.port.connected ==> b.setPending == !b.early)
    && (b.uart.IsOpen() || (b.uart.ring.bytes == [] && b.uart.ring.tail == 0))
    && b.counter >= first.counter + (if b.early then 1 else 0)
    && b.echo == (if b.early then 0 else first.echo) && Leftover(b.answers, first.echo)
  }

  /** The port is open exactly when speed and mode are configured, and then in that mode. */
  predicate OpenAsConfigured(setup: Setup, u: Uart) {
    && (u.IsOpen() <==> setup.link.port.mode < 0xFF && setup.speed != 0)
    && (u.IsOpen() ==> u.mode == setup.link.port.mode)
  }

  /** The same, in terms of the octets of the speed. */
  predicate OpenBySlot(setup: Setup, u: Uart) {
    && (u.IsOpen() <==> setup.link.port.mode < 0xFF && !NoSpeed(U32Bytes(setup.speed)))
    && (u.IsOpen() ==> u.mode == setup.link.port.mode)
  }

  lemma SlotConfigures(setup: Setup, u: Uart)
    requires OpenBySlot(setup, u)
    ensures OpenAsConfigured(setup, u)
  {
    SpeedBits(setup.speed);
  }

  predicate Booted(setup: Setup, first: Boot, b: Boot) {
    && Start(setup.link, LinkOf(b)) && b.uart.ring.tail == 0 && OpenBySlot(setup, b.uart)
    && b.echo == (if b.early then setup.interval else 0)
    && b.counter >= first.counter + (if b.early then 2 else 1) && Leftover(b.answers, first.echo)
  }

  predicate BootInv(setup: Setup, first: Boot, b: Boot) {
    WellFormed(setup, b) && if b.port.openPending then Booting(setup, first, b) else Booted(setup, first, b)
  }

  /** A poll: before the connection is up, with it, and after it, when it sends the Open and ends booting. */
  lemma TickKeeps(setup: Setup, first: Boot, b: Boot, connects: bool)
    requires WellFormed(setup, b) && b.port.openPending && Booting(setup, first, b)
    ensures BootInv(setup, first, AfterTick(setup, b, connects))
  {
    var c := AfterTick(setup, b, connects);
    if b.port.connected {
      assert !c.port.openPending;
      assert forall i :: 0 <= i < |c.answers| ==> c.answers[i].epoch == EARLIER;
    } else {
      assert c.port.openPending;
    }
  }

  lemma AnswersKeep(setup: Setup, first: Boot, b: Boot, event: Event)
    requires WellFormed(setup, b) && b.port.openPending && Booting(setup, first, b)
    requires event.Respond? || event.Arrive? || event.Vanish?
    ensures BootInv(setup, first, Next(setup, b, event))
  {
    match event
    case Vanish(j) =>
      if j < |b.answers| {
        WithoutMembers(b.answers, j);
      }
    case _ =>
  }

  lemma EventKeeps(setup: Setup, first: Boot, b: Boot, event: Event)
    requires BootInv(setup, first, b)
    ensures BootInv(setup, first, Next(setup, b, event))
  {
    if b.port.openPending {
      match event
      case Tick(connects) => TickKeeps(setup, first, b, connects);
      case Attach => SidNext(b.epoch);
      case Connect =>
      case Flush(_) =>
      case Gather(_, _) =>
      case _ => AnswersKeep(setup, first, b, event);
    }
  }

  lemma {:induction false} RunKeepsBoot(setup: Setup, first: Boot, b: Boot, events: seq<Event>)
    requires BootInv(setup, first, b)
    ensures BootInv(setup, first, Run(setup, b, events))
    decreases |events|
  {
    if events != [] {
      EventKeeps(setup, first, b, events[0]);
      RunKeepsBoot(setup, first, Next(setup, b, events[0]), events[1..]);
    }
  }

  /**
   However the connection comes up and whatever the firmware answers meanwhile, booting ends in a start of the link,
   with the UART open exactly when speed and mode are configured, and in that mode.  The firmware then echoes zero,
   unless a package built before the connection was up went out over it: then it echoes the poll interval, and one more
   poll has been made.  No answer on its way carries more than the counter the firmware was left with.
   */
  lemma BootEndsInStart(setup: Setup, first: Boot, events: seq<Event>)
    requires First(setup, first)
    ensures var b := Run(setup, first, events);
            !b.port.openPending ==> Booted(setup, first, b) && OpenAsConfigured(setup, b.uart)
  {
    RunKeepsBoot(setup, first, first, events);
    var b := Run(setup, first, events);
    if !b.port.openPending {
      SlotConfigures(setup, b.uart);
    }
  }

  // ---------------------------------------------------------------- some ways of connecting

  lemma {:induction false} BootAppend(setup: Setup, b: Boot, x: seq<Event>, y: seq<Event>)
    requires WellFormed(setup, b)
    ensures Run(setup, b, x + y) == Run(setup, Run(setup, b, x), y)
    decreases |x|
  {
    if x == [] {
      assert x + y == y;
    } else {
      assert (x + y)[1..] == x[1..] + y;
      BootAppend(setup, Next(setup, b, x[0]), x[1..], y);
    }
  }

  lemma BootOne(setup: Setup, b: Boot, x: Event)
    requires WellFormed(setup, b)
    ensures Run(setup, b, [x]) == Next(setup, b, x)
  {
    assert [x][1..] == [];
  }

  lemma BootTwo(setup: Setup, b: Boot, x: Event, y: Event)
    requires WellFormed(setup, b)
    ensures Run(setup, b, [x, y]) == Next(setup, Next(setup, b, x), y)
  {
    assert [x, y] == [x] + [y];
    BootAppend(setup, b, [x], [y]);
    BootOne(setup, b, x);
    BootOne(setup, Next(setup, b, x), y);
  }

  /** Both happen: the Open comes first when the worker has opened the connection before the poll, and second when the
      poll's own package brings the connection up. */
  lemma BothOrdersHappen(setup: Setup, first: Boot)
    requires First(setup, first)
    ensures var b := Run(setup, first, [Connect, Tick(false)]);
            !b.port.openPending && !b.early && b.counter == first.counter + 1 && b.echo == 0 && b.answers == []
    ensures var b := Run(setup, first, [Tick(true), Tick(false)]);
            && !b.port.openPending && b.early && b.counter == first.counter + 2 && b.echo == setup.interval
            && b.answers == [] && !b.port.blocked
  {
    BootTwo(setup, first, Connect, Tick(false));
    BootTwo(setup, first, Tick(true), Tick(false));
  }

  function Times(event: Event, n: nat): seq<Event> { seq(n, _ => event) }

  lemma {:induction false} EmitMany(setup: Setup, b: Boot, n: nat)
    requires WellFormed(setup, b) && b.port.openPending && b.port.connected
    ensures Run(setup, b, Times(Respond, n)) == b.(answers := b.answers + seq(n, _ => Reported(b)))
    decreases n
  {
    if n == 0 {
      assert Times(Respond, n) == [] && b.answers + seq(n, _ => Reported(b)) == b.answers;
    } else {
      var c := Next(setup, b, Respond);
      assert Times(Respond, n)[1..] == Times(Respond, n - 1) && Reported(c) == Reported(b);
      EmitMany(setup, c, n - 1);
      assert b.answers + [Reported(b)] + seq(n - 1, _ => Reported(b)) == b.answers + seq(n, _ => Reported(b));
    }
  }

  /** The worker connects, the board answers `n` times, and then the Open is sent. */
  function Answered(n: nat): seq<Event> { [Connect] + (Times(Respond, n) + [Tick(false)]) }

  lemma AnswersPrecedeOpen(setup: Setup, first: Boot, n: nat)
    requires First(setup, first)
    ensures var b := Run(setup, first, Answered(n));
            && !b.port.openPending && !b.early && b.counter == first.counter + 1 && !b.port.blocked
            && b.answers == seq(n, _ => Reported(first))
  {
    var b1 := Next(setup, first, Connect);
    BootAppend(setup, first, [Connect], Times(Respond, n) + [Tick(false)]);
    BootOne(setup, first, Connect);
    EmitMany(setup, b1, n);
    var b2 := Run(setup, b1, Times(Respond, n));
    BootAppend(setup, b1, Times(Respond, n), [Tick(false)]);
    BootOne(setup, b2, Tick(false));
    assert Reported(b1) == Reported(first);
    assert b2.answers == seq(n, _ => Reported(first));
  }

  /** A board with an open port can empty its ring before anyone connects. */
  lemma {:induction false} DrainFirst(setup: Setup, first: Boot) returns (events: seq<Event>)
    requires First(setup, first) && setup.link.ioSize > 0
    ensures var b := Run(setup, first, events);
            First(setup, b) && b.uart.ring.bytes == [] && b.counter == first.counter && b.echo == first.echo
    decreases |first.uart.ring.bytes|
  {
    events := [];
    if first.uart.ring.bytes != [] {
      var c := Next(setup, first, Flush(1));
      var rest := DrainFirst(setup, c);
      BootAppend(setup, first, [Flush(1)], rest);
      BootOne(setup, first, Flush(1));
      events := [Flush(1)] + rest;
    }
  }

  // ---------------------------------------------------------------- what it costs

  /** The first counter whose poll cannot carry data, when the Open goes out with the first poll. */
  function FirstCounter(setup: Setup, first: Boot): nat {
    first.counter + 1 + (if setup.link.port.resetOnConnect then 1 else 0)
  }

  lemma OrderlyCost(cfg: Config, start: State)
    requires Start(cfg, start)
    ensures Orderly(cfg, start) ==> AlwaysCovered(cfg, start) && HalfRingBound(cfg, start)
  {
    if Orderly(cfg, start) {
      forall steps: seq<Step>
        ensures Covered(Protocol.Run(cfg, start, steps))
      {
        OrderlyCovers(cfg, start, steps);
      }
      OrderlySlack(cfg, start);
      HalfRingBoundHolds(cfg, start);
    }
  }

  /** When nothing in flight is ahead of the firmware's echo, that echo alone decides. */
  lemma EchoCost(cfg: Config, start: State)
    requires Start(cfg, start) && Eager(cfg, start) && PerPoll(cfg) > 0
    ensures var counter := OriginOf(cfg, start).counter;
            HalfRingBound(cfg, start) <==> (start.echo - counter) * PerPoll(cfg) <= cfg.ringSize / 2
  {
    var g := OriginOf(cfg, start);
    HalfRingBoundIff(cfg, start);
    GapProduct(g.counter, g.echo, PerPoll(cfg));
    GapProduct(g.counter, start.echo, PerPoll(cfg));
  }

  /** The counters ahead of which nothing may be after one way of connecting. */
  predicate InTime(setup: Setup, b: Boot)
    requires Start(setup.link, LinkOf(b))
  {
    var counter := OriginOf(setup.link, LinkOf(b)).counter;
    (b.early ==> setup.interval <= counter) && Latest(b.answers) <= counter
  }

  lemma InTimeIsOrderly(setup: Setup, first: Boot, b: Boot)
    requires Booted(setup, first, b)
    ensures InTime(setup, b) <==> Orderly(setup.link, LinkOf(b))
  {
  }

  /** What a link costs that booting has left in state `b`. */
  lemma BootedCost(setup: Setup, first: Boot, b: Boot)
    requires Booted(setup, first, b) && PerPoll(setup.link) > 0
    ensures InTime(setup, b) ==> AlwaysCovered(setup.link, LinkOf(b)) && HalfRingBound(setup.link, LinkOf(b))
    ensures !b.port.blocked ==> (AlwaysCovered(setup.link, LinkOf(b)) <==> InTime(setup, b))
    ensures var counter := OriginOf(setup.link, LinkOf(b)).counter;
            Latest(b.answers) <= Max(b.echo, counter) ==>
              (HalfRingBound(setup.link, LinkOf(b)) <==>
                (b.echo - counter) * PerPoll(setup.link) <= setup.link.ringSize / 2)
  {
    InTimeIsOrderly(setup, first, b);
    OrderlyCost(setup.link, LinkOf(b));
    if !b.port.blocked {
      CoveredIffOrderly(setup.link, LinkOf(b));
    }
    if Latest(b.answers) <= Max(b.echo, OriginOf(setup.link, LinkOf(b)).counter) {
      EchoCost(setup.link, LinkOf(b));
    }
  }

  /**
   What one way of connecting costs.  If neither the interval, should an early package have gone out, nor an answer from
   before the Open is ahead of the client's counter, all data in flight stays accounted for and floor(N/2)+L holds on
   every run; for a client that has not been told to wait, accounting is complete on every run only then.  And when no
   answer is ahead of what the firmware echoes, floor(N/2)+L holds on every run exactly when full payloads for the polls
   that this echo is ahead stay within half the ring.
   */
  lemma EarlyPackageCost(setup: Setup, first: Boot, events: seq<Event>)
    requires First(setup, first) && !Run(setup, first, events).port.openPending && PerPoll(setup.link) > 0
    ensures var b := Run(setup, first, events);
            var start, counter := LinkOf(b), OriginOf(setup.link, LinkOf(b)).counter;
            && Start(setup.link, start)
            && (InTime(setup, b) ==> AlwaysCovered(setup.link, start) && HalfRingBound(setup.link, start))
            && (!b.port.blocked ==> (AlwaysCovered(setup.link, start) <==> InTime(setup, b)))
            && (Latest(b.answers) <= Max(b.echo, counter) ==>
                  (HalfRingBound(setup.link, start) <==>
                    (b.echo - counter) * PerPoll(setup.link) <= setup.link.ringSize / 2))
            && b.echo == if b.early then setup.interval else 0
  {
    BootEndsInStart(setup, first, events);
    BootedCost(setup, first, Run(setup, first, events));
  }

  function Excess(a: nat, b: nat): nat { if a > b then a - b else 0 }

  lemma GapProduct(counter: nat, echo: nat, k: nat)
    ensures Gap(Origin(counter, echo)) == Excess(echo, counter)
    ensures Gap(Origin(counter, echo)) * k == if echo > counter then (echo - counter) * k else 0
    ensures echo <= counter ==> (echo - counter) * k <= 0
  {
  }

  ghost predicate AllCovered(setup: Setup, first: Boot)
    requires First(setup, first)
  {
    forall events: seq<Event> ::
      var b := Run(setup, first, events);
      !b.port.openPending ==> Start(setup.link, LinkOf(b)) && AlwaysCovered(setup.link, LinkOf(b))
  }

  ghost predicate AllBounded(setup: Setup, first: Boot)
    requires First(setup, first)
  {
    forall events: seq<Event> ::
      var b := Run(setup, first, events);
      !b.port.openPending ==> Start(setup.link, LinkOf(b)) && HalfRingBound(setup.link, LinkOf(b))
  }

  /**
   Over all ways of connecting and all runs after them: all data in flight stays accounted for if and only if neither
   the counter field a board was left with, nor the poll interval, is ahead of the first counters of the client.
   */
  lemma AllCoveredIff(setup: Setup, first: Boot)
    requires First(setup, first) && PerPoll(setup.link) > 0
    ensures AllCovered(setup, first)
            <==> first.echo <= FirstCounter(setup, first) && setup.interval <= FirstCounter(setup, first) + 1
  {
    if first.echo > FirstCounter(setup, first) {
      AnswersPrecedeOpen(setup, first, 1);
      var b := Run(setup, first, Answered(1));
      EarlyPackageCost(setup, first, Answered(1));
      assert b.answers[0].counter == first.echo;
      assert !AlwaysCovered(setup.link, LinkOf(b));
    } else if setup.interval > FirstCounter(setup, first) + 1 {
      BothOrdersHappen(setup, first);
      EarlyPackageCost(setup, first, [Tick(true), Tick(false)]);
      assert !AlwaysCovered(setup.link, LinkOf(Run(setup, first, [Tick(true), Tick(false)])));
    } else {
      forall events: seq<Event> | !Run(setup, first, events).port.openPending
        ensures var b := Run(setup, first, events);
                Start(setup.link, LinkOf(b)) && AlwaysCovered(setup.link, LinkOf(b))
      {
        BootEndsInStart(setup, first, events);
        EarlyPackageCost(setup, first, events);
      }
    }
  }

  /** The most polls that an echo which is not the client's can be ahead. */
  function Lead(setup: Setup, first: Boot): nat {
    Max(Excess(first.echo, FirstCounter(setup, first)), Excess(setup.interval, FirstCounter(setup, first) + 1))
  }

  lemma GapWithinLead(setup: Setup, first: Boot, events: seq<Event>)
    requires First(setup, first) && !Run(setup, first, events).port.openPending
    ensures var b := Run(setup, first, events);
            Start(setup.link, LinkOf(b)) && Gap(OriginOf(setup.link, LinkOf(b))) <= Lead(setup, first)
  {
    BootEndsInStart(setup, first, events);
  }

  /** A board that answers often enough before the Open. */
  lemma StaleExceeds(setup: Setup, first: Boot, n: nat) returns (events: seq<Event>)
    requires First(setup, first) && PerPoll(setup.link) > 0 && setup.link.ioSize > 0
    requires n == Excess(first.echo, FirstCounter(setup, first)) && PerPoll(setup.link) * n > setup.link.ringSize / 2
    ensures var b := Run(setup, first, events);
            && !b.port.openPending && Start(setup.link, LinkOf(b)) && !HalfRingBound(setup.link, LinkOf(b))
  {
    var drain := DrainFirst(setup, first);
    var dry := Run(setup, first, drain);
    AnswersPrecedeOpen(setup, dry, n);
    BootEndsInStart(setup, dry, Answered(n));
    var b := Run(setup, dry, Answered(n));
    ArgRoundTrip(dry.uart.ring.HalfUsed(), dry.uart.session);
    var steps := StaleAttains(setup.link, LinkOf(b), n);
    var s := Protocol.Run(setup.link, LinkOf(b), steps);
    assert |s.uart.ring.bytes| + |InFlight(s.requests, s.fwEpoch)| > setup.link.ringSize / 2 + setup.link.port.limit;
    BootAppend(setup, first, drain, Answered(n));
    events := drain + Answered(n);
  }

  lemma EarlyExceeds(setup: Setup, first: Boot, n: nat)
    requires First(setup, first) && PerPoll(setup.link) > 0
    requires n == Excess(setup.interval, FirstCounter(setup, first) + 1)
    requires PerPoll(setup.link) * n > setup.link.ringSize / 2
    ensures var b := Run(setup, first, [Tick(true), Tick(false)]);
            && !b.port.openPending && Start(setup.link, LinkOf(b)) && !HalfRingBound(setup.link, LinkOf(b))
  {
    var events := [Tick(true), Tick(false)];
    BothOrdersHappen(setup, first);
    BootEndsInStart(setup, first, events);
    var start := LinkOf(Run(setup, first, events));
    HalfRingBoundIff(setup.link, start);
    assert Gap(OriginOf(setup.link, start)) == n;
  }

  /**
   Over all ways of connecting and all runs after them: floor(N/2)+L holds if and only if full payloads, for as many
   polls as either of the two is ahead, stay within half the ring.
   */
  lemma AllBoundedIff(setup: Setup, first: Boot)
    requires First(setup, first) && PerPoll(setup.link) > 0 && setup.link.ioSize > 0
    ensures AllBounded(setup, first) <==> Lead(setup, first) * PerPoll(setup.link) <= setup.link.ringSize / 2
  {
    var k := PerPoll(setup.link);
    if Lead(setup, first) * k <= setup.link.ringSize / 2 {
      forall events: seq<Event> | !Run(setup, first, events).port.openPending
        ensures var b := Run(setup, first, events);
                Start(setup.link, LinkOf(b)) && HalfRingBound(setup.link, LinkOf(b))
      {
        GapWithinLead(setup, first, events);
        var start := LinkOf(Run(setup, first, events));
        MulMonotone(k, Gap(OriginOf(setup.link, start)), Lead(setup, first));
        HalfRingBoundHolds(setup.link, start);
      }
    } else if Lead(setup, first) == Excess(first.echo, FirstCounter(setup, first)) {
      var events := StaleExceeds(setup, first, Lead(setup, first));
      assert !HalfRingBound(setup.link, LinkOf(Run(setup, first, events)));
    } else {
      EarlyExceeds(setup, first, Lead(setup, first));
      assert !HalfRingBound(setup.link, LinkOf(Run(setup, first, [Tick(true), Tick(false)])));
    }
  }

  // ---------------------------------------------------------------- an earlier client's session id

  lemma {:induction false} AttachMany(setup: Setup, b: Boot, n: nat)
    requires WellFormed(setup, b) && b.port.openPending && setup.link.port.resetOnConnect
    requires b.port.session == Sid(b.epoch)
    ensures var c := Run(setup, b, Times(Attach, n));
            && c.epoch == b.epoch + n && c.port.session == Sid(c.epoch) && (n > 0 ==> c.port.attached)
            && c.port.openPending && c.port.connected == b.port.connected && c.answers == b.answers
    decreases n
  {
    if n == 0 {
      assert Times(Attach, n) == [];
    } else {
      SidNext(b.epoch);
      assert Times(Attach, n)[1..] == Times(Attach, n - 1);
      AttachMany(setup, Next(setup, b, Attach), n - 1);
    }
  }

  /**
   Whatever session id from 1 to 127 an earlier client has left: as many local clients later, a payload the board sent
   before the Open is taken for the current one.
   */
  lemma LeftoverIdLetsIn(setup: Setup, first: Boot) returns (events: seq<Event>)
    requires First(setup, first) && setup.link.port.resetOnConnect && 0 < first.uart.session <= 0x7F
    ensures var b := Run(setup, first, events);
            && !b.port.openPending && Start(setup.link, LinkOf(b))
            && b.answers == [Reported(first)] && Accepts(b.port, b.answers[0].response.arg)
  {
    var id := first.uart.session;
    var b2 := Next(setup, Next(setup, first, Connect), Respond);
    BootTwo(setup, first, Connect, Respond);
    assert [] + [Reported(first)] == [Reported(first)];
    AttachMany(setup, b2, id);
    var b3 := Run(setup, b2, Times(Attach, id));
    BootAppend(setup, b2, Times(Attach, id), [Tick(false)]);
    BootOne(setup, b3, Tick(false));
    ArgRoundTrip(first.uart.ring.HalfUsed(), id);
    BootAppend(setup, first, [Connect, Respond], Times(Attach, id) + [Tick(false)]);
    events := [Connect, Respond] + (Times(Attach, id) + [Tick(false)]);
    BootEndsInStart(setup, first, events);
    assert Sid(id) == id;
  }
}

/**
 The results of `LinkSafety` cannot be improved: the buffering bound is attained, its no-drop condition is necessary,
 an initial echo ahead of the client's counter costs what the bound says, and counting reopenings since an answer was
 emitted does not protect a session.
 */
module LinkLimits {
  import opened Arithmetic
  import opened RingBuffer
  import opened Bytes
  import opened SendWindow
  import opened Command
  import opened UartWorker
  import opened PortWorker
  import opened Protocol
  import opened LinkSafety

  lemma {:induction false} RunAppend(cfg: Config, s: State, a: seq<Step>, b: seq<Step>)
    requires WellFormed(cfg, s)
    ensures Run(cfg, s, a + b) == Run(cfg, Run(cfg, s, a), b)
    decreases |a|
  {
    if a == [] {
      assert a + b == b;
    } else {
      assert (a + b)[1..] == a[1..] + b;
      RunAppend(cfg, Next(cfg, s, a[0]), a[1..], b);
    }
  }

  lemma RunOne(cfg: Config, s: State, step: Step)
    requires WellFormed(cfg, s)
    ensures Run(cfg, s, [step]) == Next(cfg, s, step)
  {
    assert [step][1..] == [];
  }

  lemma RunCons(cfg: Config, s: State, step: Step, rest: seq<Step>)
    requires WellFormed(cfg, s)
    ensures Run(cfg, s, [step] + rest) == Run(cfg, Next(cfg, s, step), rest)
  {
    assert ([step] + rest)[1..] == rest;
  }

  lemma RunThree(cfg: Config, s: State, x: Step, y: Step, z: Step)
    requires WellFormed(cfg, s)
    ensures Run(cfg, s, [x, y, z]) == Next(cfg, Next(cfg, Next(cfg, s, x), y), z)
  {
    var s1 := Next(cfg, s, x);
    var s2 := Next(cfg, s1, y);
    assert [x, y, z] == [x] + ([y] + [z]);
    RunCons(cfg, s, x, [y] + [z]);
    RunCons(cfg, s1, y, [z]);
    RunOne(cfg, s2, z);
  }

  // ---------------------------------------------------------------- before the first payload

  predicate AllData(requests: seq<Packet>, e: nat) {
    forall i :: 0 <= i < |requests| ==> IsData(requests[i]) && requests[i].epoch == e && requests[i].payload != []
  }

  /** Nothing is in flight but data of the client's session, and before it the Reset if the firmware lacks it. */
  predicate Loaded(s: State) {
    if s.fwEpoch == s.epoch then AllData(s.requests, s.epoch)
    else s.requests != [] && IsReset(s.requests[0]) && s.requests[0].epoch == s.epoch
         && AllData(s.requests[1..], s.epoch)
  }

  /** A poll can send, as far as anything but the window is concerned. */
  predicate Idle(s: State) {
    s.port.attached && !s.port.resetPending && !s.port.blocked
  }

  /** The ring is empty, the window is empty, and `m` bytes are on their way. */
  predicate Clear(cfg: Config, s: State, m: nat) {
    && WellFormed(cfg, s) && Idle(s) && Loaded(s)
    && s.port.window == [] && s.uart.ring.bytes == [] && s.dropped == 0
    && |InFlight(s.requests, s.epoch)| == m
  }

  /** Moreover no answer is on its way. */
  predicate Slipping(cfg: Config, s: State, m: nat) {
    Clear(cfg, s, m) && s.responses == []
  }

  /** No answer in flight is ahead of what the firmware can repeat. */
  predicate Repeatable(cfg: Config, start: State) {
    Latest(start.responses) <= Max(start.echo, OriginOf(cfg, start).counter)
  }

  /** Moreover the ring is filled from its first cell on. */
  predicate Eager(cfg: Config, start: State) {
    Repeatable(cfg, start) && start.uart.ring.tail == 0
  }

  lemma {:induction false} LoseAnswers(cfg: Config, s: State, n: nat) returns (steps: seq<Step>)
    requires WellFormed(cfg, s) && n <= |s.responses|
    ensures Run(cfg, s, steps) == s.(responses := s.responses[n..])
    decreases n
  {
    steps := [];
    if n > 0 {
      var t := Next(cfg, s, LoseResponse(0));
      assert t.responses == s.responses[1..] && t.responses[n - 1..] == s.responses[n..];
      var rest := LoseAnswers(cfg, t, n - 1);
      RunCons(cfg, s, LoseResponse(0), rest);
      steps := [LoseResponse(0)] + rest;
    }
  }

  /** One answer of the firmware reaches a client with nothing unconfirmed. */
  lemma Refresh(cfg: Config, s: State) returns (steps: seq<Step>)
    requires WellFormed(cfg, s) && s.port.window == [] && s.responses == [] && s.uart.ring.bytes == []
    ensures Run(cfg, s, steps) == s.(port := s.port.(blocked := false))
  {
    steps := [Emit, DeliverResponse];
    var s1 := Next(cfg, s, Emit);
    assert steps == [Emit] + [DeliverResponse];
    RunCons(cfg, s, Emit, [DeliverResponse]);
    RunOne(cfg, s1, DeliverResponse);
    ArgRoundTrip(s.uart.ring.HalfUsed(), s.uart.session);
    assert s1.responses[1..] == [];
  }

  /** A local client connects if there is none. */
  lemma AttachClient(cfg: Config, start: State) returns (steps: seq<Step>)
    requires Start(cfg, start)
    ensures var s := Run(cfg, start, steps);
            && Start(cfg, s) && s.port.attached && s.port.blocked == start.port.blocked && s.counter == start.counter
            && s.responses == start.responses && s.uart == start.uart && s.echo == start.echo
  {
    steps := [];
    if !start.port.attached {
      RunOne(cfg, start, Reopen);
      SidNext(start.epoch);
      steps := [Reopen];
    }
  }

  /** And its session is announced. */
  lemma Attach(cfg: Config, start: State) returns (steps: seq<Step>)
    requires Start(cfg, start)
    ensures var s := Run(cfg, start, steps);
            && (!start.port.blocked ==> Clear(cfg, s, 0))
            && Clear(cfg, s.(port := s.port.(blocked := false)), 0) && s.responses == start.responses
            && s.uart == start.uart && s.echo == start.echo && s.counter == OriginOf(cfg, start).counter
  {
    steps := AttachClient(cfg, start);
    if cfg.port.resetOnConnect {
      var s := Run(cfg, start, steps);
      RunAppend(cfg, start, steps, [Poll(Again)]);
      RunOne(cfg, s, Poll(Again));
      steps := steps + [Poll(Again)];
    }
  }

  /** And all that was on its way is lost, except one new answer that says the ring is empty. */
  lemma Announce(cfg: Config, start: State) returns (steps: seq<Step>)
    requires Start(cfg, start)
    ensures var s := Run(cfg, start, steps);
            && Slipping(cfg, s, 0) && s.uart == start.uart
            && s.echo == start.echo && s.counter == OriginOf(cfg, start).counter
  {
    var attach := Attach(cfg, start);
    var s := Run(cfg, start, attach);
    var lose := LoseAnswers(cfg, s, |s.responses|);
    var refresh := Refresh(cfg, s.(responses := []));
    RunAppend(cfg, start, attach, lose);
    RunAppend(cfg, start, attach + lose, refresh);
    steps := attach + lose + refresh;
  }

  // ---------------------------------------------------------------- an echo ahead of the client's counter

  /** As much as one poll can take. */
  function Full(cfg: Config): Read { Got(seq(PerPoll(cfg), _ => 0)) }

  lemma LoadedSnoc(cfg: Config, s: State, input: Read)
    requires WellFormed(cfg, s) && Loaded(s) && Taken(s.port, cfg.port, input) != []
    ensures var t := AfterPoll(cfg, s, input);
            && Loaded(t)
            && |InFlight(t.requests, t.epoch)| == |InFlight(s.requests, s.epoch)| + |Taken(s.port, cfg.port, input)|
  {
    PollInFlight(cfg, s, input, s.epoch);
  }

  /** While the echo is ahead, a full payload is confirmed without having arrived. */
  lemma RoundSlipsThrough(cfg: Config, s: State, m: nat)
    requires Slipping(cfg, s, m) && s.counter < s.echo && PerPoll(cfg) > 0
    ensures var t := Run(cfg, s, [Poll(Full(cfg)), Emit, DeliverResponse]);
            && Slipping(cfg, t, m + PerPoll(cfg)) && t.uart == s.uart
            && t.counter == s.counter + 1 && t.echo == s.echo
  {
    var s1 := Next(cfg, s, Poll(Full(cfg)));
    var s2 := Next(cfg, s1, Emit);
    RunThree(cfg, s, Poll(Full(cfg)), Emit, DeliverResponse);
    var data := Taken(s.port, cfg.port, Full(cfg));
    assert |data| == PerPoll(cfg);
    LoadedSnoc(cfg, s, Full(cfg));
    assert s1.port.window == [Pkg(s1.counter, |data|)];
    ArgRoundTrip(s1.uart.ring.HalfUsed(), s1.uart.session);
    assert Newer([Pkg(s1.counter, |data|)], s.echo) == Newer([], s.echo);
  }

  lemma {:induction false} RoundsSlipThrough(cfg: Config, s: State, n: nat) returns (steps: seq<Step>)
    requires Slipping(cfg, s, 0) && s.counter + n <= s.echo && PerPoll(cfg) > 0
    ensures var t := Run(cfg, s, steps);
            Slipping(cfg, t, PerPoll(cfg) * n) && t.counter == s.counter + n && t.echo == s.echo
    decreases n
  {
    steps := [];
    if n > 0 {
      var before := RoundsSlipThrough(cfg, s, n - 1);
      var t, round := Run(cfg, s, before), [Poll(Full(cfg)), Emit, DeliverResponse];
      RoundSlipsThrough(cfg, t, PerPoll(cfg) * (n - 1));
      RunAppend(cfg, s, before, round);
      MulStep(PerPoll(cfg), n - 1);
      steps := before + round;
    }
  }

  /** Answers from before the Open do the same, once each. */
  lemma StaleSlipsThrough(cfg: Config, s: State, m: nat)
    requires Clear(cfg, s, m) && PerPoll(cfg) > 0 && s.responses != []
    requires s.responses[0].counter > s.counter && !HalfFlag(s.responses[0].response.arg)
    ensures var t := Run(cfg, s, [Poll(Full(cfg)), DeliverResponse]);
            && Clear(cfg, t, m + PerPoll(cfg)) && t.uart == s.uart && t.counter == s.counter + 1
            && t.responses == s.responses[1..]
  {
    var s1 := Next(cfg, s, Poll(Full(cfg)));
    assert [Poll(Full(cfg)), DeliverResponse] == [Poll(Full(cfg))] + [DeliverResponse];
    RunCons(cfg, s, Poll(Full(cfg)), [DeliverResponse]);
    RunOne(cfg, s1, DeliverResponse);
    var data := Taken(s.port, cfg.port, Full(cfg));
    assert |data| == PerPoll(cfg);
    LoadedSnoc(cfg, s, Full(cfg));
    assert s1.port.window == [Pkg(s1.counter, |data|)];
    assert Newer([Pkg(s1.counter, |data|)], s.responses[0].counter) == Newer([], s.responses[0].counter);
  }

  /** `n` answers that say "not half full", each ahead of the next `n` polls. */
  predicate Ahead(responses: seq<Answer>, counter: nat, n: nat) {
    && |responses| == n
    && forall i :: 0 <= i < n ==> responses[i].counter >= counter + n && !HalfFlag(responses[i].response.arg)
  }

  lemma AheadNext(responses: seq<Answer>, counter: nat, n: nat)
    requires Ahead(responses, counter, n) && n > 0
    ensures responses[0].counter > counter && !HalfFlag(responses[0].response.arg)
    ensures Ahead(responses[1..], counter + 1, n - 1)
  {
  }

  lemma {:induction false} StaleSlips(cfg: Config, s: State, m: nat, n: nat) returns (steps: seq<Step>)
    requires Clear(cfg, s, m) && PerPoll(cfg) > 0 && Ahead(s.responses, s.counter, n)
    ensures var t := Run(cfg, s, steps); Slipping(cfg, t, m + PerPoll(cfg) * n) && t.uart == s.uart
    decreases n
  {
    if n == 0 {
      assert PerPoll(cfg) * n == 0;
      steps := [];
    } else {
      var round := [Poll(Full(cfg)), DeliverResponse];
      AheadNext(s.responses, s.counter, n);
      StaleSlipsThrough(cfg, s, m);
      var rest := StaleSlips(cfg, Run(cfg, s, round), m + PerPoll(cfg), n - 1);
      RunAppend(cfg, s, round, rest);
      MulStep(PerPoll(cfg), n - 1);
      steps := round + rest;
    }
  }

  // ---------------------------------------------------------------- half a ring of confirmed bytes

  /** The firmware learns the session. */
  lemma Settle(cfg: Config, s: State) returns (steps: seq<Step>)
    requires WellFormed(cfg, s) && Loaded(s)
    ensures var t := Run(cfg, s, steps);
            && t.fwEpoch == t.epoch == s.epoch && Loaded(t) && t.port == s.port && t.responses == s.responses
            && InFlight(t.requests, t.epoch) == InFlight(s.requests, s.epoch) && t.dropped == s.dropped
            && (s.fwEpoch == s.epoch ==> t.uart == s.uart)
            && (s.uart.ring.bytes == [] ==> t.uart.ring.bytes == [])
            && (s.uart.ring.tail == 0 ==> t.uart.ring.tail == 0)
  {
    steps := [];
    if s.fwEpoch != s.epoch {
      steps := [DeliverRequest];
      RunOne(cfg, s, DeliverRequest);
      RequestInFlight(cfg, s, s.epoch);
    }
  }

  /** `n` bytes sit in the ring, from its first cell on, and all of them are confirmed. */
  predicate Confirming(cfg: Config, s: State, n: nat) {
    && WellFormed(cfg, s) && Idle(s) && s.fwEpoch == s.epoch
    && s.port.window == [] && s.requests == [] && s.responses == []
    && |s.uart.ring.bytes| == n && s.uart.ring.tail == 0 && s.dropped == 0
  }

  const ONE_BYTE: Read := Got([0])
  const ROUND: seq<Step> := [Poll(ONE_BYTE), DeliverRequest, Emit, DeliverResponse]

  /** One byte sent, stored, answered and confirmed. */
  lemma RoundConfirms(cfg: Config, s: State, n: nat)
    requires Confirming(cfg, s, n) && n < cfg.ringSize / 2 && PerPoll(cfg) > 0
    ensures Confirming(cfg, Run(cfg, s, ROUND), n + 1)
  {
    var s1 := Next(cfg, s, Poll(ONE_BYTE));
    var s2 := Next(cfg, s1, DeliverRequest);
    assert ROUND == [Poll(ONE_BYTE)] + [DeliverRequest, Emit, DeliverResponse];
    RunCons(cfg, s, Poll(ONE_BYTE), [DeliverRequest, Emit, DeliverResponse]);
    RunThree(cfg, s1, DeliverRequest, Emit, DeliverResponse);
    assert Taken(s.port, cfg.port, ONE_BYTE) == [0];
    assert s1.port.window == [Pkg(s1.counter, 1)];
    assert |s2.uart.ring.bytes| == n + 1 && s2.requests == [] && !s2.uart.ring.HalfUsed();
    ArgRoundTrip(s2.uart.ring.HalfUsed(), s2.uart.session);
    assert Newer([Pkg(s1.counter, 1)], s1.counter) == Newer([], s1.counter);
  }

  lemma {:induction false} RoundsConfirm(cfg: Config, s: State, n: nat) returns (steps: seq<Step>)
    requires Confirming(cfg, s, 0) && n <= cfg.ringSize / 2 && PerPoll(cfg) > 0
    ensures Confirming(cfg, Run(cfg, s, steps), n)
  {
    steps := [];
    if n > 0 {
      var before := RoundsConfirm(cfg, s, n - 1);
      RoundConfirms(cfg, Run(cfg, s, before), n - 1);
      RunAppend(cfg, s, before, ROUND);
      steps := before + ROUND;
    }
  }

  // ---------------------------------------------------------------- a full window on top

  /** `m` bytes are unconfirmed, `base` more are outstanding. */
  predicate Sending(cfg: Config, s: State, base: nat, m: nat) {
    && WellFormed(cfg, s) && Idle(s) && Loaded(s) && s.dropped == 0
    && Total(s.port.window) == m && Outstanding(s) == base + m
  }

  lemma PollSends(cfg: Config, s: State, base: nat, m: nat)
    requires Sending(cfg, s, base, m) && m < cfg.port.limit && PerPoll(cfg) > 0
    ensures Sending(cfg, Next(cfg, s, Poll(ONE_BYTE)), base, m + 1)
  {
    assert Taken(s.port, cfg.port, ONE_BYTE) == [0];
    LoadedSnoc(cfg, s, ONE_BYTE);
    TotalSnoc(s.port.window, Pkg(s.counter + 1, 1));
  }

  lemma {:induction false} PollsSend(cfg: Config, s: State, base: nat, m: nat) returns (steps: seq<Step>)
    requires Sending(cfg, s, base, 0) && m <= cfg.port.limit && PerPoll(cfg) > 0
    ensures var t := Run(cfg, s, steps);
            Sending(cfg, t, base, m) && t.uart == s.uart && t.epoch == s.epoch && t.fwEpoch == s.fwEpoch
  {
    steps := [];
    if m > 0 {
      var before := PollsSend(cfg, s, base, m - 1);
      var t := Run(cfg, s, before);
      RunAppend(cfg, s, before, [Poll(ONE_BYTE)]);
      RunOne(cfg, t, Poll(ONE_BYTE));
      steps := before + [Poll(ONE_BYTE)];
      PollSends(cfg, t, base, m - 1);
    }
  }

  /** `base` bytes are outstanding and none of them is in the window. */
  predicate Based(cfg: Config, s: State, base: nat) {
    Sending(cfg, s, base, 0) && (s.fwEpoch < s.epoch ==> s.uart.ring.bytes == [])
  }

  lemma BaseOfSlips(cfg: Config, s: State, n: nat) returns (steps: seq<Step>)
    requires Slipping(cfg, s, 0) && s.counter + n <= s.echo && PerPoll(cfg) > 0
    ensures Based(cfg, Run(cfg, s, steps), n * PerPoll(cfg))
  {
    steps := RoundsSlipThrough(cfg, s, n);
  }

  lemma BaseOfHalfRing(cfg: Config, s: State) returns (steps: seq<Step>)
    requires Slipping(cfg, s, 0) && s.uart.ring.tail == 0 && PerPoll(cfg) > 0
    ensures Based(cfg, Run(cfg, s, steps), cfg.ringSize / 2)
  {
    var settle := Settle(cfg, s);
    var t := Run(cfg, s, settle);
    assert t.requests == [];
    var rounds := RoundsConfirm(cfg, t, cfg.ringSize / 2);
    RunAppend(cfg, s, settle, rounds);
    steps := settle + rounds;
  }

  lemma SlackAttained(cfg: Config, start: State) returns (steps: seq<Step>)
    requires Start(cfg, start) && Eager(cfg, start) && PerPoll(cfg) > 0
    ensures Based(cfg, Run(cfg, start, steps), Slack(cfg, OriginOf(cfg, start)))
  {
    var gap := Gap(OriginOf(cfg, start));
    var before := Announce(cfg, start);
    var s := Run(cfg, start, before);
    assert 0 * PerPoll(cfg) == 0;
    var rest;
    if cfg.ringSize / 2 < gap * PerPoll(cfg) {
      assert s.counter + gap <= s.echo;
      rest := BaseOfSlips(cfg, s, gap);
    } else {
      rest := BaseOfHalfRing(cfg, s);
    }
    RunAppend(cfg, start, before, rest);
    steps := before + rest;
  }

  /** A window's worth of data on top, and the firmware in the client's session. */
  lemma TopUp(cfg: Config, s: State, base: nat) returns (steps: seq<Step>)
    requires Based(cfg, s, base) && PerPoll(cfg) > 0
    ensures var t := Run(cfg, s, steps);
            && t.fwEpoch == t.epoch && Loaded(t) && t.dropped == 0
            && |t.uart.ring.bytes| + |InFlight(t.requests, t.fwEpoch)| == base + cfg.port.limit
  {
    var polls := PollsSend(cfg, s, base, cfg.port.limit);
    var settle := Settle(cfg, Run(cfg, s, polls));
    RunAppend(cfg, s, polls, settle);
    steps := polls + settle;
  }

  /** For every start, ring size and limit some run fills the bound exactly. */
  lemma BoundAttained(cfg: Config, start: State) returns (steps: seq<Step>)
    requires Start(cfg, start) && Eager(cfg, start) && PerPoll(cfg) > 0
    ensures var s := Run(cfg, start, steps);
            && s.fwEpoch == s.epoch && Loaded(s) && s.dropped == 0
            && |s.uart.ring.bytes| + |InFlight(s.requests, s.fwEpoch)|
               == Slack(cfg, OriginOf(cfg, start)) + cfg.port.limit
  {
    var before := SlackAttained(cfg, start);
    var rest := TopUp(cfg, Run(cfg, start, before), Slack(cfg, OriginOf(cfg, start)));
    RunAppend(cfg, start, before, rest);
    steps := before + rest;
  }

  /** Delivering everything without draining: each byte ends up in the ring or is dropped. */
  lemma {:induction false} DeliverAll(cfg: Config, s: State) returns (steps: seq<Step>)
    requires WellFormed(cfg, s) && s.fwEpoch == s.epoch && Loaded(s)
    ensures var t := Run(cfg, s, steps);
            |t.uart.ring.bytes| + t.dropped
            == |s.uart.ring.bytes| + s.dropped + |InFlight(s.requests, s.epoch)|
    decreases |s.requests|
  {
    steps := [];
    if s.requests != [] {
      RequestInFlight(cfg, s, s.epoch);
      var rest := DeliverAll(cfg, Next(cfg, s, DeliverRequest));
      RunCons(cfg, s, DeliverRequest, rest);
      steps := [DeliverRequest] + rest;
    }
  }

  /** A limit of zero leaves room. */
  lemma NoPolls(cfg: Config, g: Origin)
    requires ValidConfig(cfg) && cfg.port.payloadSize > 0 && !NoDropConfig(cfg, g)
    ensures PerPoll(cfg) > 0
  {
    assert Gap(g) * 0 == 0;
  }

  lemma SomeRunDrops(cfg: Config, start: State) returns (steps: seq<Step>)
    requires Start(cfg, start) && Eager(cfg, start) && cfg.port.payloadSize > 0
    requires !NoDropConfig(cfg, OriginOf(cfg, start))
    ensures Run(cfg, start, steps).dropped > 0
  {
    NoPolls(cfg, OriginOf(cfg, start));
    var before := BoundAttained(cfg, start);
    var rest := DeliverAll(cfg, Run(cfg, start, before));
    RunAppend(cfg, start, before, rest);
    steps := before + rest;
  }

  // ---------------------------------------------------------------- exactly when

  ghost predicate NeverDrops(cfg: Config, start: State)
    requires Start(cfg, start)
  {
    forall steps: seq<Step> :: Run(cfg, start, steps).dropped == 0
  }

  /** Whatever the start, no run from it drops a byte, lossy or not, exactly when the bound fits the ring. */
  lemma NeverDropsIffRoom(cfg: Config, start: State)
    requires Start(cfg, start) && Eager(cfg, start) && cfg.port.payloadSize > 0
    ensures NeverDrops(cfg, start) <==> NoDropConfig(cfg, OriginOf(cfg, start))
  {
    if NoDropConfig(cfg, OriginOf(cfg, start)) {
      forall steps: seq<Step>
        ensures Run(cfg, start, steps).dropped == 0
      {
        EndToEndFifo(cfg, start, steps);
      }
    } else {
      var steps := SomeRunDrops(cfg, start);
      assert Run(cfg, start, steps).dropped > 0;
    }
  }

  /** A link nobody has used: no local client yet. */
  function Fresh(cfg: Config): (s: State)
    requires ValidConfig(cfg)
    ensures Start(cfg, s) && Eager(cfg, s) && Orderly(cfg, s)
  {
    State(Port(true, false, false, false, 0, [], false), 0, 0, [], [], Uart(Queue([], 0, cfg.ringSize), 6, 0, []), 0, 0,
          [[]], [[]], 0, false)
  }

  /** Over all orderly starts the link is free of drops exactly when floor(N/2)+L fits the ring. */
  lemma OrderlyNeverDropsIffRoom(cfg: Config)
    requires ValidConfig(cfg) && cfg.port.payloadSize > 0
    ensures (forall start: State | Start(cfg, start) && Orderly(cfg, start) :: NeverDrops(cfg, start))
            <==> cfg.ringSize / 2 + cfg.port.limit <= cfg.ringSize - 1
  {
    if cfg.ringSize / 2 + cfg.port.limit <= cfg.ringSize - 1 {
      forall start: State, steps: seq<Step> | Start(cfg, start) && Orderly(cfg, start)
        ensures Run(cfg, start, steps).dropped == 0
      {
        OrderlySlack(cfg, start);
        EndToEndFifo(cfg, start, steps);
      }
    } else {
      OrderlySlack(cfg, Fresh(cfg));
      NeverDropsIffRoom(cfg, Fresh(cfg));
    }
  }

  ghost predicate HalfRingBound(cfg: Config, start: State)
    requires Start(cfg, start)
  {
    forall steps: seq<Step> ::
      var s := Run(cfg, start, steps);
      |s.uart.ring.bytes| + |InFlight(s.requests, s.fwEpoch)| <= cfg.ringSize / 2 + cfg.port.limit
  }

  lemma HalfRingBoundHolds(cfg: Config, start: State)
    requires Start(cfg, start) && Gap(OriginOf(cfg, start)) * PerPoll(cfg) <= cfg.ringSize / 2
    ensures HalfRingBound(cfg, start)
  {
    forall steps: seq<Step>
      ensures var s := Run(cfg, start, steps);
              |s.uart.ring.bytes| + |InFlight(s.requests, s.fwEpoch)| <= cfg.ringSize / 2 + cfg.port.limit
    {
      RemoteBufferingBounded(cfg, start, steps);
    }
  }

  /** The bound floor(N/2)+L holds on every run from a start exactly when what the initial echo confirms early, a full
      payload per poll, stays within half the ring. */
  lemma HalfRingBoundIff(cfg: Config, start: State)
    requires Start(cfg, start) && Eager(cfg, start) && PerPoll(cfg) > 0
    ensures HalfRingBound(cfg, start) <==> Gap(OriginOf(cfg, start)) * PerPoll(cfg) <= cfg.ringSize / 2
  {
    if Gap(OriginOf(cfg, start)) * PerPoll(cfg) <= cfg.ringSize / 2 {
      HalfRingBoundHolds(cfg, start);
    } else {
      var steps := BoundAttained(cfg, start);
      var s := Run(cfg, start, steps);
      assert |s.uart.ring.bytes| + |InFlight(s.requests, s.fwEpoch)| > cfg.ringSize / 2 + cfg.port.limit;
    }
  }

  ghost predicate AlwaysCovered(cfg: Config, start: State)
    requires Start(cfg, start)
  {
    forall steps: seq<Step> :: Covered(Run(cfg, start, steps))
  }

  lemma {:induction false} CoveredNothing(requests: seq<Packet>, e: nat)
    requires forall i :: 0 <= i < |requests| ==> !(IsData(requests[i]) && requests[i].epoch == e)
    ensures InFlight(requests, e) == []
  {
    if requests != [] {
      CoveredNothing(requests[1..], e);
    }
  }

  lemma NothingCovered(s: State)
    requires s.port.window == [] && InFlight(s.requests, s.epoch) != []
    ensures !Covered(s)
  {
    if Covered(s) {
      CoveredNothing(s.requests, s.epoch);
    }
  }

  /** An answer in flight that is ahead of the client's counter confirms a payload that is. */
  lemma AnswerUncovers(cfg: Config, s: State, i: nat) returns (steps: seq<Step>)
    requires Clear(cfg, s, 0) && PerPoll(cfg) > 0
    requires i < |s.responses| && s.responses[i].counter > s.counter
    ensures !Covered(Run(cfg, s, steps))
  {
    var s1 := Next(cfg, s, Poll(Full(cfg)));
    LoadedSnoc(cfg, s, Full(cfg));
    assert |Taken(s.port, cfg.port, Full(cfg))| == PerPoll(cfg);
    assert s1.port.window == [Pkg(s1.counter, PerPoll(cfg))];
    var lose := LoseAnswers(cfg, s1, i);
    var s2 := s1.(responses := s1.responses[i..]);
    RunOne(cfg, s2, DeliverResponse);
    assert Newer(s1.port.window, s.responses[i].counter) == Newer([], s.responses[i].counter);
    NothingCovered(Next(cfg, s2, DeliverResponse));
    RunAppend(cfg, s1, lose, [DeliverResponse]);
    RunCons(cfg, s, Poll(Full(cfg)), lose + [DeliverResponse]);
    steps := [Poll(Full(cfg))] + (lose + [DeliverResponse]);
  }

  lemma StaleUncovers(cfg: Config, start: State, i: nat) returns (steps: seq<Step>)
    requires Start(cfg, start) && !start.port.blocked && PerPoll(cfg) > 0
    requires i < |start.responses| && start.responses[i].counter > OriginOf(cfg, start).counter
    ensures !Covered(Run(cfg, start, steps))
  {
    var attach := Attach(cfg, start);
    var rest := AnswerUncovers(cfg, Run(cfg, start, attach), i);
    RunAppend(cfg, start, attach, rest);
    steps := attach + rest;
  }

  lemma EchoUncovers(cfg: Config, start: State) returns (steps: seq<Step>)
    requires Start(cfg, start) && PerPoll(cfg) > 0 && start.echo > OriginOf(cfg, start).counter
    ensures !Covered(Run(cfg, start, steps))
  {
    var before := Announce(cfg, start);
    var round := RoundsSlipThrough(cfg, Run(cfg, start, before), 1);
    RunAppend(cfg, start, before, round);
    steps := before + round;
    NothingCovered(Run(cfg, start, steps));
  }

  /** On every run the client accounts for all its data in flight exactly when neither the firmware nor an answer in
      flight starts with an echo that is ahead of the client's counter. */
  lemma CoveredIffOrderly(cfg: Config, start: State)
    requires Start(cfg, start) && PerPoll(cfg) > 0 && (!start.port.blocked || Repeatable(cfg, start))
    ensures AlwaysCovered(cfg, start) <==> Orderly(cfg, start)
  {
    if Orderly(cfg, start) {
      forall steps: seq<Step>
        ensures Covered(Run(cfg, start, steps))
      {
        OrderlyCovers(cfg, start, steps);
      }
    } else if start.echo > OriginOf(cfg, start).counter {
      var steps := EchoUncovers(cfg, start);
      assert !Covered(Run(cfg, start, steps));
    } else {
      var i :| 0 <= i < |start.responses| && start.responses[i].counter == Latest(start.responses);
      var steps := StaleUncovers(cfg, start, i);
      assert !Covered(Run(cfg, start, steps));
    }
  }

  lemma AheadAttains(cfg: Config, s: State, n: nat) returns (steps: seq<Step>)
    requires Clear(cfg, s, 0) && PerPoll(cfg) > 0 && Ahead(s.responses, s.counter, n)
    ensures var t := Run(cfg, s, steps);
            |t.uart.ring.bytes| + |InFlight(t.requests, t.fwEpoch)| == PerPoll(cfg) * n + cfg.port.limit
  {
    var slips := StaleSlips(cfg, s, 0, n);
    var rest := TopUp(cfg, Run(cfg, s, slips), PerPoll(cfg) * n);
    RunAppend(cfg, s, slips, rest);
    steps := slips + rest;
  }

  /** Each answer of that kind in flight lets one more full payload through, on top of a full window. */
  lemma StaleAttains(cfg: Config, start: State, n: nat) returns (steps: seq<Step>)
    requires Start(cfg, start) && !start.port.blocked && PerPoll(cfg) > 0
    requires Ahead(start.responses, OriginOf(cfg, start).counter, n)
    ensures var s := Run(cfg, start, steps);
            |s.uart.ring.bytes| + |InFlight(s.requests, s.fwEpoch)| == PerPoll(cfg) * n + cfg.port.limit
  {
    var attach := Attach(cfg, start);
    var rest := AheadAttains(cfg, Run(cfg, start, attach), n);
    RunAppend(cfg, start, attach, rest);
    steps := attach + rest;
  }

  // ---------------------------------------------------------------- session ids repeat

  function Times(step: Step, n: nat): seq<Step> { seq(n, _ => step) }

  lemma {:induction false} ReopenMany(cfg: Config, s: State, n: nat)
    requires WellFormed(cfg, s) && cfg.port.resetOnConnect && s.port.session == Sid(s.epoch)
    ensures var t := Run(cfg, s, Times(Reopen, n));
            && t.epoch == s.epoch + n && t.port.session == Sid(t.epoch) && (n > 0 ==> t.port.attached)
            && t.responses == s.responses && t.requests == s.requests && t.uart == s.uart
            && t.fwEpoch == s.fwEpoch && t.echo == s.echo
    decreases n
  {
    if n > 0 {
      SidNext(s.epoch);
      assert Times(Reopen, n)[1..] == Times(Reopen, n - 1);
      ReopenMany(cfg, Next(cfg, s, Reopen), n - 1);
    }
  }

  const LEARN: seq<Step> := [Reopen, Poll(Again), DeliverRequest]

  /** One reopening whose Reset reaches the firmware. */
  lemma LearnSession(cfg: Config)
    requires ValidConfig(cfg) && cfg.port.resetOnConnect
    ensures var t := Run(cfg, Fresh(cfg), LEARN);
            && t.epoch == 1 == t.fwEpoch && t.uart.session == 1 == t.port.session && t.responses == []
  {
    var s1 := Next(cfg, Fresh(cfg), Reopen);
    var s2 := Next(cfg, s1, Poll(Again));
    var s3 := Next(cfg, s2, DeliverRequest);
    assert LEARN[1..] == [Poll(Again), DeliverRequest] && LEARN[1..][1..] == [DeliverRequest];
    assert Run(cfg, Fresh(cfg), LEARN) == Run(cfg, s1, LEARN[1..]) == Run(cfg, s2, LEARN[1..][1..]);
    RunOne(cfg, s2, DeliverRequest);
  }

  /** From then on the firmware lags behind: after `n` more reopenings it still answers for session 1. */
  lemma LaggingAnswer(cfg: Config, n: nat) returns (steps: seq<Step>)
    requires ValidConfig(cfg) && cfg.port.resetOnConnect
    ensures var t := Run(cfg, Fresh(cfg), steps);
            && t.epoch == 1 + n && t.fwEpoch == 1 && t.port.session == Sid(1 + n) && |t.responses| == 1
            && t.responses[0].epoch == 1 && SessionOf(t.responses[0].response.arg) == 1
  {
    var s := Run(cfg, Fresh(cfg), LEARN);
    LearnSession(cfg);
    ReopenMany(cfg, s, n);
    RunAppend(cfg, Fresh(cfg), LEARN, Times(Reopen, n));
    var u := Run(cfg, s, Times(Reopen, n));
    RunAppend(cfg, Fresh(cfg), LEARN + Times(Reopen, n), [Emit]);
    RunOne(cfg, u, Emit);
    ArgRoundTrip(u.uart.ring.HalfUsed(), u.uart.session);
    steps := LEARN + Times(Reopen, n) + [Emit];
  }

  /**
   The firmware learns session 1 and then lags: 126 reopenings later it still answers under id 1, and one reopening
   after that answer the client is in session 128, whose id is 1 again.  So counting reopenings since the emission of
   an answer does not keep a payload of an old session out; what counts is the distance to the answer's session.
   */
  lemma OneReopeningIsTooMany(cfg: Config) returns (steps: seq<Step>)
    requires ValidConfig(cfg) && cfg.port.resetOnConnect
    ensures var emitted := Run(cfg, Fresh(cfg), steps);
            var s := Next(cfg, emitted, Reopen);
            && emitted.epoch == 127 && s.epoch == 128 && |s.responses| == 1
            && s.responses[0].epoch == 1 && Accepts(s.port, s.responses[0].response.arg)
  {
    steps := LaggingAnswer(cfg, 126);
  }
}

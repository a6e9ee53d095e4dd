/**
 What every run of the link keeps: counter order, session structure, the send window, the bound on bytes buffered
 remotely, and the end-to-end byte stream.
 */
module LinkSafety {
  import opened Arithmetic
  import opened Bytes
  import opened SendWindow
  import opened Command
  import opened UartWorker
  import opened PortWorker
  import opened Protocol

  // ---------------------------------------------------------------- where a run comes from

  /**
   What a run remembers of its start: the last counter that cannot carry data, and the largest counter that the firmware
   echoed or an answer in flight carried.  That echo is the counter of no request of the run; when it lies ahead of the
   client's counter, an answer carrying it confirms requests that have not arrived.
   */
  datatype Origin = Origin(counter: nat, echo: nat)

  /** The largest counter among answers in flight. */
  function Latest(responses: seq<Answer>): (c: nat)
    ensures forall i :: 0 <= i < |responses| ==> responses[i].counter <= c
    ensures c == 0 || exists i :: 0 <= i < |responses| && responses[i].counter == c
  {
    if responses == [] then 0
    else
      var c := Latest(responses[1..]);
      assert c == 0 || exists i :: 0 < i < |responses| && responses[i].counter == c by {
        if c > 0 {
          var i :| 0 <= i < |responses[1..]| && responses[1..][i].counter == c;
          assert responses[i + 1].counter == c;
        }
      }
      Max(responses[0].counter, c)
  }

  /** The initial echo is the firmware's, or that of an answer sent before the Open, whichever is ahead. */
  function OriginOf(cfg: Config, start: State): Origin {
    Origin(start.counter + (if cfg.port.resetOnConnect then 1 else 0), Max(start.echo, Latest(start.responses)))
  }

  /** Polls with data that the initial echo confirms before they are made: those made so far, and all of them. */
  function EarlyPolls(g: Origin, counter: nat): nat {
    var last := Min(counter, g.echo);
    if last > g.counter then last - g.counter else 0
  }

  function Gap(g: Origin): nat { EarlyPolls(g, g.echo) }

  /** The most one poll can send. */
  function PerPoll(cfg: Config): nat { Min(cfg.port.payloadSize, cfg.port.limit) }

  /** What can be outstanding beside the window. */
  function Slack(cfg: Config, g: Origin): nat { Max(cfg.ringSize / 2, Gap(g) * PerPoll(cfg)) }

  function Early(cfg: Config, g: Origin, counter: nat): nat { EarlyPolls(g, counter) * PerPoll(cfg) }

  lemma EarlyStep(cfg: Config, g: Origin, counter: nat)
    ensures Early(cfg, g, counter + 1)
            == Early(cfg, g, counter) + (if g.counter <= counter < g.echo then PerPoll(cfg) else 0)
  {
    var n := EarlyPolls(g, counter);
    MulStep(PerPoll(cfg), n);
  }

  lemma EarlyInSlack(cfg: Config, g: Origin, counter: nat)
    ensures Early(cfg, g, counter) <= Gap(g) * PerPoll(cfg) <= Slack(cfg, g)
  {
    MulMonotone(PerPoll(cfg), EarlyPolls(g, counter), Gap(g));
  }

  // ---------------------------------------------------------------- the invariant, in five parts

  predicate OrderInv(cfg: Config, g: Origin, s: State) {
    && g.counter <= s.counter + 1
    && (s.counter < g.counter ==> cfg.port.resetOnConnect && (s.port.resetPending || !s.port.attached))
    && Ordered(s.port.window, s.counter) && NewerThan(s.port.window, g.counter)
    && (g.echo < s.echo ==> s.echo <= s.counter)
    && (forall i :: 0 <= i < |s.requests| ==> s.requests[i].counter <= s.counter)
    && (forall i :: 0 <= i < |s.requests| && IsData(s.requests[i]) ==> g.counter < s.requests[i].counter)
    && (forall i :: 0 <= i < |s.requests| && g.echo < s.echo ==> s.echo < s.requests[i].counter)
    && (forall i, j :: 0 <= i < j < |s.requests| ==> s.requests[i].counter < s.requests[j].counter)
    && (forall i :: 0 <= i < |s.responses| && g.echo < s.responses[i].counter ==> s.responses[i].counter <= s.echo)
    && (forall i, j :: 0 <= i < j < |s.responses| && g.echo < s.responses[i].counter ==>
          s.responses[i].counter <= s.responses[j].counter)
  }

  predicate SessionInv(cfg: Config, s: State) {
    && Segmented(s.requests, s.fwEpoch)
    && (if s.port.resetPending
        then LastEpoch(s.requests, s.fwEpoch) < s.epoch && s.port.window == [] && cfg.port.resetOnConnect
        else LastEpoch(s.requests, s.fwEpoch) == s.epoch)
    && s.port.session == Sid(s.epoch) && s.uart.session == Sid(s.fwEpoch)
    && (forall i :: 0 <= i < |s.responses| ==>
          var r := s.responses[i];
          EARLIER <= r.epoch <= s.fwEpoch && (r.epoch >= 0 ==> SessionOf(r.response.arg) == Sid(r.epoch)))
  }

  predicate NewerThan(window: seq<Pkg>, ref: nat) {
    forall i :: 0 <= i < |window| ==> window[i].counter > ref
  }

  predicate WindowInv(cfg: Config, g: Origin, s: State) {
    && Total(s.port.window) <= cfg.port.limit
    // data of the current session in flight is accounted for, unless the initial echo confirms it
    && (forall i :: 0 <= i < |s.requests| && IsData(s.requests[i]) && s.requests[i].epoch == s.epoch
                    && g.echo < s.requests[i].counter ==>
          Pkg(s.requests[i].counter, |s.requests[i].payload|) in s.port.window)
    // everything in the window is newer than the session's Reset and than any answer of an older session
    && (forall i :: 0 <= i < |s.requests| && IsReset(s.requests[i]) && s.requests[i].epoch == s.epoch ==>
          NewerThan(s.port.window, s.requests[i].counter))
    && (forall i :: 0 <= i < |s.responses| && s.responses[i].epoch < s.epoch && g.echo < s.responses[i].counter ==>
          NewerThan(s.port.window, s.responses[i].counter))
  }

  /** Bytes of the client's current session that are in flight or in the firmware ring. */
  function Outstanding(s: State): nat {
    |InFlight(s.requests, s.epoch)| + (if s.fwEpoch == s.epoch then |s.uart.ring.bytes| else 0)
  }

  /** No request of the client's current session has been answered for, or an answer with the initial echo is due. */
  predicate Unanswered(g: Origin, s: State) {
    || s.echo <= g.echo
    || s.fwEpoch < s.epoch
    || (exists i :: 0 <= i < |s.responses| && s.responses[i].counter <= g.echo)
  }

  predicate LoadInv(cfg: Config, g: Origin, s: State) {
    && Outstanding(s) <= Slack(cfg, g) + cfg.port.limit
    && (!s.port.blocked ==> Outstanding(s) <= Slack(cfg, g) + Total(s.port.window))
    // what an undelivered "not half full" answer will allow once it is delivered
    && (forall i :: 0 <= i < |s.responses| && g.echo < s.responses[i].counter
                    && !HalfFlag(s.responses[i].response.arg) ==>
          Outstanding(s) <= cfg.ringSize / 2 + BytesAfter(s.port.window, s.responses[i].counter))
    // what the initial echo, or the Reset still to come, allows
    && (Unanswered(g, s) ==> Outstanding(s) <= Early(cfg, g, s.counter) + BytesAfter(s.port.window, g.echo))
  }

  /** Sessions that the client has left. */
  predicate PastLoadInv(cfg: Config, g: Origin, s: State) {
    && (s.fwEpoch < s.epoch ==>
          |s.uart.ring.bytes| + |InFlight(s.requests, s.fwEpoch)| <= Slack(cfg, g) + cfg.port.limit)
    && (forall e :: s.fwEpoch < e < s.epoch ==>
          |InFlight(s.requests, e)| <= Gap(g) * PerPoll(cfg) + cfg.port.limit)
  }

  /** The ring has room for everything the bound allows. */
  predicate NoDropConfig(cfg: Config, g: Origin) {
    Slack(cfg, g) + cfg.port.limit <= cfg.ringSize - 1
  }

  /** Session by session: UART output, then ring, then channel make up what was read from the local client. */
  predicate SessionStream(s: State, e: nat)
    requires e < |s.sent| && e < |s.out|
  {
    if e < s.fwEpoch then s.out[e] <= s.sent[e]
    else if e == s.fwEpoch then s.out[e] + s.uart.ring.bytes + InFlight(s.requests, e) == s.sent[e]
    else s.out[e] == [] && InFlight(s.requests, e) == s.sent[e]
  }

  predicate StreamInv(cfg: Config, g: Origin, s: State)
    requires WellFormed(cfg, s)
  {
    NoDropConfig(cfg, g) ==> s.dropped == 0 && (!s.lost ==> forall e :: 0 <= e <= s.epoch ==> SessionStream(s, e))
  }

  predicate Inv(cfg: Config, g: Origin, s: State) {
    && WellFormed(cfg, s)
    && OrderInv(cfg, g, s) && SessionInv(cfg, s) && WindowInv(cfg, g, s)
    && LoadInv(cfg, g, s) && PastLoadInv(cfg, g, s) && StreamInv(cfg, g, s)
  }

  lemma StartOrder(cfg: Config, s: State)
    requires Start(cfg, s)
    ensures var g := OriginOf(cfg, s); OrderInv(cfg, g, s) && SessionInv(cfg, s) && WindowInv(cfg, g, s)
  {
  }

  lemma StartLoad(cfg: Config, s: State)
    requires Start(cfg, s)
    ensures var g := OriginOf(cfg, s); LoadInv(cfg, g, s) && PastLoadInv(cfg, g, s)
  {
    EarlyInSlack(cfg, OriginOf(cfg, s), s.counter);
    assert Outstanding(s) == 0 && forall e: nat :: InFlight(s.requests, e) == [];
  }

  lemma StartStream(cfg: Config, s: State)
    requires Start(cfg, s)
    ensures StreamInv(cfg, OriginOf(cfg, s), s)
  {
    forall e | 0 <= e <= s.epoch
      ensures SessionStream(s, e)
    {
      assert s.sent[e] == s.out[e] == InFlight(s.requests, e) == [];
    }
  }

  lemma StartInv(cfg: Config, s: State)
    requires Start(cfg, s)
    ensures Inv(cfg, OriginOf(cfg, s), s)
  {
    StartOrder(cfg, s);
    StartLoad(cfg, s);
    StartStream(cfg, s);
  }

  // ---------------------------------------------------------------- consequences used by the steps

  /** Data of the current session in flight is covered by the window packages newer than the echoed counter. */
  lemma {:induction false} InFlightInWindow(requests: seq<Packet>, window: seq<Pkg>, e: nat, ref: nat)
    requires forall i :: 0 <= i < |requests| ==> requests[i].counter > ref
    requires forall i, j :: 0 <= i < j < |requests| ==> requests[i].counter < requests[j].counter
    requires forall i :: 0 <= i < |requests| && IsData(requests[i]) && requests[i].epoch == e ==>
               Pkg(requests[i].counter, |requests[i].payload|) in window
    ensures |InFlight(requests, e)| <= BytesAfter(window, ref)
  {
    if requests != [] {
      var p, rest := requests[0], requests[1..];
      forall i | 0 <= i < |rest|
        ensures rest[i] == requests[i + 1] && rest[i].counter > p.counter
      {
      }
      InFlightInWindow(rest, window, e, p.counter);
      if IsData(p) && p.epoch == e {
        BytesAfterSplit(window, Pkg(p.counter, |p.payload|), ref);
      } else {
        NewerNewer(window, ref, p.counter);
      }
    }
  }

  lemma CoveredInFlight(cfg: Config, g: Origin, s: State)
    requires WellFormed(cfg, s) && OrderInv(cfg, g, s) && WindowInv(cfg, g, s) && g.echo < s.echo
    ensures |InFlight(s.requests, s.epoch)| <= BytesAfter(s.port.window, s.echo)
  {
    InFlightInWindow(s.requests, s.port.window, s.epoch, s.echo);
  }

  /** The client's session before the firmware knows it. */
  lemma FreshSessionLoad(cfg: Config, g: Origin, s: State)
    requires WellFormed(cfg, s) && WindowInv(cfg, g, s) && LoadInv(cfg, g, s) && s.fwEpoch < s.epoch
    ensures |InFlight(s.requests, s.epoch)| <= Gap(g) * PerPoll(cfg) + cfg.port.limit
  {
    EarlyInSlack(cfg, g, s.counter);
    BytesAfterAtMostTotal(s.port.window, g.echo);
  }

  /** Ring plus in-flight data of the session the firmware is in: the most the ring can be asked to hold. */
  lemma RingLoad(cfg: Config, g: Origin, s: State)
    requires WellFormed(cfg, s) && LoadInv(cfg, g, s) && PastLoadInv(cfg, g, s)
    ensures |s.uart.ring.bytes| + |InFlight(s.requests, s.fwEpoch)| <= Slack(cfg, g) + cfg.port.limit
  {
  }

  lemma LaterSessionsLoad(cfg: Config, g: Origin, s: State)
    requires WellFormed(cfg, s) && WindowInv(cfg, g, s) && LoadInv(cfg, g, s) && PastLoadInv(cfg, g, s)
    ensures forall e :: s.fwEpoch < e <= s.epoch ==>
              |InFlight(s.requests, e)| <= Gap(g) * PerPoll(cfg) + cfg.port.limit
  {
    if s.fwEpoch < s.epoch {
      FreshSessionLoad(cfg, g, s);
    }
  }

  // ---------------------------------------------------------------- poll

  /** A request with the next counter joins the channel, and its package the window if it carries data. */
  lemma OrderGrows(cfg: Config, g: Origin, s: State, t: State, p: Packet)
    requires OrderInv(cfg, g, s) && t.requests == s.requests + [p] && t.responses == s.responses && t.echo == s.echo
    requires t.counter == p.counter == s.counter + 1
    requires t.port.window == if IsData(p) then s.port.window + [Pkg(p.counter, |p.payload|)] else s.port.window
    requires IsData(p) ==> g.counter <= s.counter
    ensures OrderInv(cfg, g, t)
  {
  }

  lemma PollOrder(cfg: Config, g: Origin, s: State, input: Read)
    requires WellFormed(cfg, s) && OrderInv(cfg, g, s)
    ensures OrderInv(cfg, g, AfterPoll(cfg, s, input))
  {
    var t := AfterPoll(cfg, s, input);
    OrderGrows(cfg, g, s, t, t.requests[|s.requests|]);
  }

  lemma PollSession(cfg: Config, g: Origin, s: State, input: Read)
    requires WellFormed(cfg, s) && SessionInv(cfg, s)
    ensures SessionInv(cfg, AfterPoll(cfg, s, input))
  {
    var t := AfterPoll(cfg, s, input);
    SegmentedSnoc(s.requests, t.requests[|s.requests|], s.fwEpoch);
  }

  /** A request joins the channel, and its package the window if it carries data. */
  lemma WindowGrows(cfg: Config, g: Origin, s: State, t: State, p: Packet)
    requires OrderInv(cfg, g, s) && WindowInv(cfg, g, s) && t.requests == s.requests + [p] && p.epoch == s.epoch
    requires t.epoch == s.epoch && t.responses == s.responses && p.counter == s.counter + 1
    requires if IsData(p) then t.port.window == s.port.window + [Pkg(p.counter, |p.payload|)]
             else t.port.window == s.port.window && (IsReset(p) ==> s.port.window == [])
    requires Total(t.port.window) <= cfg.port.limit
    ensures WindowInv(cfg, g, t)
  {
    assert forall q :: q in s.port.window ==> q in t.port.window;
    if IsData(p) {
      assert t.port.window[|s.port.window|] == Pkg(p.counter, |p.payload|);
    }
  }

  lemma PollWindow(cfg: Config, g: Origin, s: State, input: Read)
    requires WellFormed(cfg, s) && OrderInv(cfg, g, s) && SessionInv(cfg, s) && WindowInv(cfg, g, s)
    ensures WindowInv(cfg, g, AfterPoll(cfg, s, input))
  {
    var t := AfterPoll(cfg, s, input);
    var data := Taken(s.port, cfg.port, input);
    if t.port.window != s.port.window {
      TotalSnoc(s.port.window, Pkg(t.counter, |data|));
    }
    WindowGrows(cfg, g, s, t, t.requests[|s.requests|]);
  }

  lemma PollInFlight(cfg: Config, s: State, input: Read, e: nat)
    requires WellFormed(cfg, s)
    ensures InFlight(AfterPoll(cfg, s, input).requests, e)
            == InFlight(s.requests, e) + (if e == s.epoch then Taken(s.port, cfg.port, input) else [])
  {
    InFlightSnoc(s.requests, AfterPoll(cfg, s, input).requests[|s.requests|], e);
  }

  /** A poll brings `data`, and its package the window. */
  lemma LoadGrows(cfg: Config, g: Origin, s: State, t: State, data: seq<byte>)
    requires LoadInv(cfg, g, s) && t.counter == s.counter + 1 && t.responses == s.responses && t.echo == s.echo
    requires t.epoch == s.epoch && t.fwEpoch == s.fwEpoch && t.port.blocked == s.port.blocked
    requires Outstanding(t) == Outstanding(s) + |data|
    requires data == [] ==> t.port.window == s.port.window
    requires data != [] ==>
               && t.port.window == s.port.window + [Pkg(t.counter, |data|)] && !s.port.blocked && g.counter <= s.counter
               && |data| <= PerPoll(cfg) && Total(s.port.window) + |data| <= cfg.port.limit
    requires forall i :: 0 <= i < |s.responses| && g.echo < s.responses[i].counter ==>
               s.responses[i].counter <= s.counter
    ensures LoadInv(cfg, g, t)
  {
    EarlyStep(cfg, g, s.counter);
    assert Unanswered(g, t) <==> Unanswered(g, s);
    if data != [] {
      var pkg := Pkg(t.counter, |data|);
      TotalSnoc(s.port.window, pkg);
      BytesAfterSnoc(s.port.window, pkg, g.echo);
      forall i | 0 <= i < |s.responses| && g.echo < s.responses[i].counter
        ensures BytesAfter(t.port.window, s.responses[i].counter)
                == BytesAfter(s.port.window, s.responses[i].counter) + |data|
      {
        BytesAfterSnoc(s.port.window, pkg, s.responses[i].counter);
      }
    }
  }

  lemma PollLoad(cfg: Config, g: Origin, s: State, input: Read)
    requires WellFormed(cfg, s) && OrderInv(cfg, g, s) && LoadInv(cfg, g, s)
    ensures LoadInv(cfg, g, AfterPoll(cfg, s, input))
  {
    PollInFlight(cfg, s, input, s.epoch);
    LoadGrows(cfg, g, s, AfterPoll(cfg, s, input), Taken(s.port, cfg.port, input));
  }

  lemma PollPastLoad(cfg: Config, g: Origin, s: State, input: Read)
    requires WellFormed(cfg, s) && PastLoadInv(cfg, g, s)
    ensures PastLoadInv(cfg, g, AfterPoll(cfg, s, input))
  {
    var t := AfterPoll(cfg, s, input);
    forall e: nat | e != s.epoch
      ensures InFlight(t.requests, e) == InFlight(s.requests, e)
    {
      PollInFlight(cfg, s, input, e);
      assert InFlight(s.requests, e) + [] == InFlight(s.requests, e);
    }
  }

  lemma PollStream(cfg: Config, g: Origin, s: State, input: Read)
    requires WellFormed(cfg, s) && StreamInv(cfg, g, s)
    ensures StreamInv(cfg, g, AfterPoll(cfg, s, input))
  {
    var t := AfterPoll(cfg, s, input);
    var data := Taken(s.port, cfg.port, input);
    if !s.lost && NoDropConfig(cfg, g) {
      forall e | 0 <= e <= t.epoch
        ensures SessionStream(t, e)
      {
        assert SessionStream(s, e);
        PollInFlight(cfg, s, input, e);
        if e == s.epoch == s.fwEpoch {
          assert s.out[e] + s.uart.ring.bytes + (InFlight(s.requests, e) + data)
                 == s.out[e] + s.uart.ring.bytes + InFlight(s.requests, e) + data;
        }
      }
    }
  }

  // ---------------------------------------------------------------- reopen

  lemma ReopenSession(cfg: Config, g: Origin, s: State)
    requires WellFormed(cfg, s) && SessionInv(cfg, s)
    ensures SessionInv(cfg, AfterReopen(cfg, s))
  {
    SegmentedRange(s.requests, s.fwEpoch);
    SidNext(s.epoch);
  }

  lemma ReopenOrder(cfg: Config, g: Origin, s: State)
    requires WellFormed(cfg, s) && OrderInv(cfg, g, s)
    ensures OrderInv(cfg, g, AfterReopen(cfg, s))
  {
  }

  lemma ReopenWindow(cfg: Config, g: Origin, s: State)
    requires WellFormed(cfg, s) && WindowInv(cfg, g, s)
    ensures WindowInv(cfg, g, AfterReopen(cfg, s))
  {
    var t := AfterReopen(cfg, s);
    if cfg.port.resetOnConnect {
      assert t.port.window == [];
      assert forall i :: 0 <= i < |s.requests| ==> s.requests[i].epoch != t.epoch;
    }
  }

  lemma ReopenLoad(cfg: Config, g: Origin, s: State)
    requires WellFormed(cfg, s) && LoadInv(cfg, g, s)
    ensures LoadInv(cfg, g, AfterReopen(cfg, s))
  {
    var t := AfterReopen(cfg, s);
    if cfg.port.resetOnConnect {
      InFlightNone(s.requests, s.epoch + 1);
      assert Outstanding(t) == 0;
    } else {
      assert t.port.window == s.port.window && Outstanding(t) == Outstanding(s);
      assert Unanswered(g, t) ==> Unanswered(g, s);
    }
  }

  lemma ReopenPastLoad(cfg: Config, g: Origin, s: State)
    requires WellFormed(cfg, s) && WindowInv(cfg, g, s) && LoadInv(cfg, g, s) && PastLoadInv(cfg, g, s)
    ensures PastLoadInv(cfg, g, AfterReopen(cfg, s))
  {
    if cfg.port.resetOnConnect && s.fwEpoch < s.epoch {
      FreshSessionLoad(cfg, g, s);
    }
  }

  lemma ReopenStream(cfg: Config, g: Origin, s: State)
    requires WellFormed(cfg, s) && StreamInv(cfg, g, s)
    ensures StreamInv(cfg, g, AfterReopen(cfg, s))
  {
    var t := AfterReopen(cfg, s);
    if !s.lost && NoDropConfig(cfg, g) {
      forall e | 0 <= e <= t.epoch
        ensures SessionStream(t, e)
      {
        if e <= s.epoch {
          assert SessionStream(s, e);
        } else {
          InFlightNone(s.requests, e);
        }
      }
    }
  }

  // ---------------------------------------------------------------- deliver a request

  lemma RequestOrder(cfg: Config, g: Origin, s: State)
    requires WellFormed(cfg, s) && OrderInv(cfg, g, s) && s.requests != []
    ensures OrderInv(cfg, g, AfterRequest(cfg, s))
  {
    var t := AfterRequest(cfg, s);
    assert forall i :: 0 <= i < |t.requests| ==> t.requests[i] == s.requests[i + 1];
  }

  lemma RequestSession(cfg: Config, g: Origin, s: State)
    requires WellFormed(cfg, s) && SessionInv(cfg, s) && s.requests != []
    ensures SessionInv(cfg, AfterRequest(cfg, s))
  {
  }

  lemma RequestWindow(cfg: Config, g: Origin, s: State)
    requires WellFormed(cfg, s) && WindowInv(cfg, g, s) && s.requests != []
    ensures WindowInv(cfg, g, AfterRequest(cfg, s))
  {
    var t := AfterRequest(cfg, s);
    assert forall i :: 0 <= i < |t.requests| ==> t.requests[i] == s.requests[i + 1];
  }

  lemma RequestInFlight(cfg: Config, s: State, e: nat)
    requires WellFormed(cfg, s) && s.requests != []
    ensures var p := s.requests[0];
            InFlight(s.requests, e)
            == (if IsData(p) && p.epoch == e then p.payload else []) + InFlight(AfterRequest(cfg, s).requests, e)
  {
  }

  lemma RequestLoad(cfg: Config, g: Origin, s: State)
    requires WellFormed(cfg, s) && OrderInv(cfg, g, s) && SessionInv(cfg, s) && LoadInv(cfg, g, s)
    requires s.requests != []
    ensures LoadInv(cfg, g, AfterRequest(cfg, s))
  {
    var t := AfterRequest(cfg, s);
    RequestInFlight(cfg, s, s.epoch);
    SegmentedRange(s.requests, s.fwEpoch);
    assert Outstanding(t) <= Outstanding(s);
    assert Unanswered(g, t) ==> Unanswered(g, s);
  }

  lemma RequestPastLoad(cfg: Config, g: Origin, s: State)
    requires WellFormed(cfg, s) && SessionInv(cfg, s) && LoadInv(cfg, g, s) && PastLoadInv(cfg, g, s)
    requires s.requests != []
    ensures PastLoadInv(cfg, g, AfterRequest(cfg, s))
  {
    EarlyInSlack(cfg, g, s.counter);
    SegmentedRange(s.requests, s.fwEpoch);
    forall e: nat
      ensures |InFlight(AfterRequest(cfg, s).requests, e)| <= |InFlight(s.requests, e)|
    {
      RequestInFlight(cfg, s, e);
    }
    RequestInFlight(cfg, s, s.fwEpoch);
  }

  lemma RequestStream(cfg: Config, g: Origin, s: State)
    requires WellFormed(cfg, s) && SessionInv(cfg, s)
    requires LoadInv(cfg, g, s) && PastLoadInv(cfg, g, s) && StreamInv(cfg, g, s)
    requires s.requests != []
    ensures StreamInv(cfg, g, AfterRequest(cfg, s))
  {
    var t, p := AfterRequest(cfg, s), s.requests[0];
    if NoDropConfig(cfg, g) {
      RingLoad(cfg, g, s);
      RequestInFlight(cfg, s, s.fwEpoch);
      assert !IsReset(p) ==> t.uart.ring.bytes == s.uart.ring.bytes + p.payload;
    }
    if !s.lost && NoDropConfig(cfg, g) {
      forall e | 0 <= e <= t.epoch
        ensures SessionStream(t, e)
      {
        assert SessionStream(s, e);
        DeliverStream(s, t, p, e);
      }
    }
  }

  /** Delivery moves a payload from the channel to the ring, or starts the next session. */
  lemma DeliverStream(s: State, t: State, p: Packet, e: nat)
    requires s.requests != [] && p == s.requests[0] && t.requests == s.requests[1..]
    requires e < |s.sent| && e < |s.out| && t.sent == s.sent && t.out == s.out && ValidPacket(p)
    requires s.fwEpoch <= |s.sent| && SessionStream(s, e)
    requires if IsReset(p) then p.epoch > s.fwEpoch && t.fwEpoch == p.epoch && t.uart.ring.bytes == []
             else p.epoch == s.fwEpoch == t.fwEpoch && t.uart.ring.bytes == s.uart.ring.bytes + p.payload
    ensures SessionStream(t, e)
  {
    var here := if IsData(p) && p.epoch == e then p.payload else [];
    assert InFlight(s.requests, e) == here + InFlight(t.requests, e);
    if !IsReset(p) && e == s.fwEpoch {
      assert s.out[e] + (s.uart.ring.bytes + p.payload) + InFlight(t.requests, e)
             == s.out[e] + s.uart.ring.bytes + (p.payload + InFlight(t.requests, e));
    }
  }

  // ---------------------------------------------------------------- drain, fill, emit

  /** Steps that touch neither the data nor the sessions keep the streams. */
  lemma StreamSame(cfg: Config, g: Origin, s: State, t: State)
    requires WellFormed(cfg, s) && PastLoadInv(cfg, g, s) && StreamInv(cfg, g, s) && WellFormed(cfg, t)
    requires t.requests == s.requests && t.uart.ring == s.uart.ring && t.fwEpoch == s.fwEpoch && t.epoch == s.epoch
    requires t.sent == s.sent && t.out == s.out && t.dropped == s.dropped && t.lost == s.lost
    ensures StreamInv(cfg, g, t) && PastLoadInv(cfg, g, t)
  {
    forall e | 0 <= e <= s.epoch && !s.lost && NoDropConfig(cfg, g)
      ensures SessionStream(t, e)
    {
      assert SessionStream(s, e);
    }
  }

  lemma DrainStream(cfg: Config, g: Origin, s: State, writable: nat)
    requires WellFormed(cfg, s) && StreamInv(cfg, g, s)
    ensures StreamInv(cfg, g, AfterDrain(cfg, s, writable))
  {
    var t := AfterDrain(cfg, s, writable);
    if s.uart.IsOpen() && !s.lost && NoDropConfig(cfg, g) {
      var n := DrainSize(s.uart, writable, cfg.ioSize);
      var bytes := s.uart.ring.bytes;
      forall e | 0 <= e <= t.epoch
        ensures SessionStream(t, e)
      {
        assert SessionStream(s, e);
        if e == s.fwEpoch {
          assert s.out[e] + bytes[..n] + bytes[n..] + InFlight(s.requests, e)
                 == s.out[e] + bytes + InFlight(s.requests, e);
        }
      }
    }
  }

  lemma DrainOrder(cfg: Config, g: Origin, s: State, writable: nat)
    requires WellFormed(cfg, s) && OrderInv(cfg, g, s) && WindowInv(cfg, g, s)
    ensures var t := AfterDrain(cfg, s, writable); OrderInv(cfg, g, t) && WindowInv(cfg, g, t)
  {
  }

  lemma DrainSession(cfg: Config, s: State, writable: nat)
    requires WellFormed(cfg, s) && SessionInv(cfg, s)
    ensures SessionInv(cfg, AfterDrain(cfg, s, writable))
  {
  }

  lemma DrainLoad(cfg: Config, g: Origin, s: State, writable: nat)
    requires WellFormed(cfg, s) && LoadInv(cfg, g, s) && PastLoadInv(cfg, g, s)
    ensures var t := AfterDrain(cfg, s, writable); LoadInv(cfg, g, t) && PastLoadInv(cfg, g, t)
  {
    var t := AfterDrain(cfg, s, writable);
    assert Outstanding(t) <= Outstanding(s);
  }

  lemma FillOrder(cfg: Config, g: Origin, s: State, reset: bool, waiting: seq<byte>)
    requires WellFormed(cfg, s) && OrderInv(cfg, g, s) && SessionInv(cfg, s) && WindowInv(cfg, g, s)
    ensures var t := Next(cfg, s, Fill(reset, waiting));
            OrderInv(cfg, g, t) && SessionInv(cfg, t) && WindowInv(cfg, g, t)
  {
  }

  lemma FillLoad(cfg: Config, g: Origin, s: State, reset: bool, waiting: seq<byte>)
    requires WellFormed(cfg, s) && LoadInv(cfg, g, s)
    ensures LoadInv(cfg, g, Next(cfg, s, Fill(reset, waiting)))
  {
    assert Outstanding(Next(cfg, s, Fill(reset, waiting))) == Outstanding(s);
  }

  lemma FillKeeps(cfg: Config, g: Origin, s: State, reset: bool, waiting: seq<byte>)
    requires Inv(cfg, g, s)
    ensures Inv(cfg, g, Next(cfg, s, Fill(reset, waiting)))
  {
    FillOrder(cfg, g, s, reset, waiting);
    FillLoad(cfg, g, s, reset, waiting);
    StreamSame(cfg, g, s, Next(cfg, s, Fill(reset, waiting)));
  }

  /** Before the firmware knows the current session, everything in the window is newer than a counter it echoes. */
  lemma WindowAheadOfEcho(cfg: Config, g: Origin, s: State)
    requires WellFormed(cfg, s) && OrderInv(cfg, g, s) && SessionInv(cfg, s) && WindowInv(cfg, g, s)
    requires s.fwEpoch < s.epoch && g.echo < s.echo
    ensures NewerThan(s.port.window, s.echo)
  {
    SegmentedRange(s.requests, s.fwEpoch);
    if !s.port.resetPending {
      var i :| 0 <= i < |s.requests| && IsReset(s.requests[i]) && s.requests[i].epoch == s.epoch;
      assert NewerThan(s.port.window, s.requests[i].counter);
    }
  }

  lemma EmitOrder(cfg: Config, g: Origin, s: State)
    requires WellFormed(cfg, s) && OrderInv(cfg, g, s)
    ensures OrderInv(cfg, g, Next(cfg, s, Emit))
  {
  }

  lemma EmitSession(cfg: Config, s: State)
    requires WellFormed(cfg, s) && SessionInv(cfg, s)
    ensures SessionInv(cfg, Next(cfg, s, Emit))
  {
    ArgRoundTrip(s.uart.ring.HalfUsed(), s.uart.session);
  }

  lemma EmitWindow(cfg: Config, g: Origin, s: State)
    requires WellFormed(cfg, s) && OrderInv(cfg, g, s) && SessionInv(cfg, s) && WindowInv(cfg, g, s)
    ensures WindowInv(cfg, g, Next(cfg, s, Emit))
  {
    if s.fwEpoch < s.epoch && g.echo < s.echo {
      WindowAheadOfEcho(cfg, g, s);
    }
  }

  lemma EmitLoad(cfg: Config, g: Origin, s: State)
    requires WellFormed(cfg, s) && OrderInv(cfg, g, s) && WindowInv(cfg, g, s) && LoadInv(cfg, g, s)
    ensures LoadInv(cfg, g, Next(cfg, s, Emit))
  {
    var t := Next(cfg, s, Emit);
    if g.echo < s.echo {
      CoveredInFlight(cfg, g, s);
    }
    ArgRoundTrip(s.uart.ring.HalfUsed(), s.uart.session);
    assert Outstanding(t) == Outstanding(s);
    assert Unanswered(g, t) ==> Unanswered(g, s);
  }

  // ---------------------------------------------------------------- deliver a response

  lemma ResponseOrder(cfg: Config, g: Origin, s: State)
    requires WellFormed(cfg, s) && OrderInv(cfg, g, s) && s.responses != []
    ensures OrderInv(cfg, g, Next(cfg, s, DeliverResponse))
  {
    var t, ref := Next(cfg, s, DeliverResponse), s.responses[0].counter;
    NewerOrdered(s.port.window, ref, s.counter);
    NewerMembers(s.port.window, ref);
    assert forall i :: 0 <= i < |t.port.window| ==> t.port.window[i] in s.port.window;
    assert forall i :: 0 <= i < |t.responses| ==> t.responses[i] == s.responses[i + 1];
  }

  lemma ResponseSession(cfg: Config, s: State)
    requires WellFormed(cfg, s) && SessionInv(cfg, s) && s.responses != []
    ensures SessionInv(cfg, Next(cfg, s, DeliverResponse))
  {
  }

  /** A window that only loses packages, none of data in flight beyond the initial echo, keeps its part. */
  lemma WindowShrinks(cfg: Config, g: Origin, s: State, t: State, ref: nat)
    requires WindowInv(cfg, g, s) && t.requests == s.requests && t.epoch == s.epoch
    requires s.responses != [] && t.responses == s.responses[1..]
    requires forall q :: q in t.port.window <==> q in s.port.window && q.counter > ref
    requires Total(t.port.window) <= Total(s.port.window)
    requires forall i :: 0 <= i < |s.requests| && g.echo < s.requests[i].counter ==> ref < s.requests[i].counter
    ensures WindowInv(cfg, g, t)
  {
    assert forall i :: 0 <= i < |t.responses| ==> t.responses[i] == s.responses[i + 1];
    assert forall i :: 0 <= i < |t.port.window| ==> t.port.window[i] in s.port.window;
  }

  lemma ResponseWindow(cfg: Config, g: Origin, s: State)
    requires WellFormed(cfg, s) && OrderInv(cfg, g, s) && WindowInv(cfg, g, s) && s.responses != []
    ensures WindowInv(cfg, g, Next(cfg, s, DeliverResponse))
  {
    var ref := s.responses[0].counter;
    NewerMembers(s.port.window, ref);
    BytesAfterAtMostTotal(s.port.window, ref);
    WindowShrinks(cfg, g, s, Next(cfg, s, DeliverResponse), ref);
  }

  /** An answer with the initial echo leaves what the client counts beyond it. */
  lemma EarlyResponseLoad(cfg: Config, g: Origin, s: State)
    requires WellFormed(cfg, s) && LoadInv(cfg, g, s) && s.responses != [] && s.responses[0].counter <= g.echo
    ensures var t := Next(cfg, s, DeliverResponse);
            && Outstanding(t) <= Slack(cfg, g) + Total(t.port.window)
            && BytesAfter(t.port.window, g.echo) == BytesAfter(s.port.window, g.echo)
  {
    var t, ref := Next(cfg, s, DeliverResponse), s.responses[0].counter;
    assert Unanswered(g, s);
    NewerNewer(s.port.window, ref, g.echo);
    EarlyInSlack(cfg, g, s.counter);
    BytesAfterAtMostTotal(t.port.window, g.echo);
  }

  /** An answer with a counter of this run is the end of the initial echo, except for a session it does not confirm. */
  lemma LateResponseWindow(cfg: Config, g: Origin, s: State)
    requires WellFormed(cfg, s) && OrderInv(cfg, g, s) && SessionInv(cfg, s) && WindowInv(cfg, g, s)
    requires s.responses != [] && g.echo < s.responses[0].counter
    requires Unanswered(g, Next(cfg, s, DeliverResponse))
    ensures Next(cfg, s, DeliverResponse).port.window == s.port.window && Unanswered(g, s)
  {
    var t := Next(cfg, s, DeliverResponse);
    assert s.fwEpoch < s.epoch by {
      assert forall i :: 0 <= i < |t.responses| ==> t.responses[i] == s.responses[i + 1];
    }
    NewerAll(s.port.window, s.responses[0].counter);
  }

  lemma ResponseLoad(cfg: Config, g: Origin, s: State)
    requires WellFormed(cfg, s) && OrderInv(cfg, g, s) && SessionInv(cfg, s)
    requires WindowInv(cfg, g, s) && LoadInv(cfg, g, s)
    requires s.responses != []
    ensures LoadInv(cfg, g, Next(cfg, s, DeliverResponse))
  {
    var t, ref := Next(cfg, s, DeliverResponse), s.responses[0].counter;
    assert Outstanding(t) == Outstanding(s);
    forall i | 0 <= i < |t.responses| && g.echo < t.responses[i].counter
      ensures t.responses[i] == s.responses[i + 1]
      ensures BytesAfter(t.port.window, t.responses[i].counter) == BytesAfter(s.port.window, t.responses[i].counter)
    {
      NewerNewer(s.port.window, ref, s.responses[i + 1].counter);
    }
    if ref <= g.echo {
      EarlyResponseLoad(cfg, g, s);
    } else if Unanswered(g, t) {
      LateResponseWindow(cfg, g, s);
    }
  }

  // ---------------------------------------------------------------- losses

  lemma WithoutMembers<T>(s: seq<T>, i: nat)
    requires i < |s|
    ensures |Without(s, i)| == |s| - 1
    ensures forall k :: 0 <= k < |s| - 1 ==> Without(s, i)[k] == s[if k < i then k else k + 1]
  {
  }

  lemma LoseRequestOrder(cfg: Config, g: Origin, s: State, i: nat)
    requires WellFormed(cfg, s) && OrderInv(cfg, g, s) && i < |s.requests| && !IsReset(s.requests[i])
    ensures OrderInv(cfg, g, Next(cfg, s, LoseRequest(i)))
  {
    WithoutMembers(s.requests, i);
  }

  /** The session structure depends on no more than this. */
  lemma SameSession(cfg: Config, s: State, t: State)
    requires SessionInv(cfg, s) && t.port == s.port && t.uart == s.uart && t.responses == s.responses
    requires t.epoch == s.epoch && t.fwEpoch == s.fwEpoch
    requires Segmented(t.requests, s.fwEpoch) && LastEpoch(t.requests, s.fwEpoch) == LastEpoch(s.requests, s.fwEpoch)
    ensures SessionInv(cfg, t)
  {
  }

  lemma LoseRequestSession(cfg: Config, s: State, i: nat)
    requires WellFormed(cfg, s) && SessionInv(cfg, s) && i < |s.requests| && !IsReset(s.requests[i])
    ensures SessionInv(cfg, Next(cfg, s, LoseRequest(i)))
  {
    SegmentedWithout(s.requests, i, s.fwEpoch);
    SameSession(cfg, s, Next(cfg, s, LoseRequest(i)));
  }

  lemma LoseRequestWindow(cfg: Config, g: Origin, s: State, i: nat)
    requires WellFormed(cfg, s) && WindowInv(cfg, g, s) && i < |s.requests| && !IsReset(s.requests[i])
    ensures WindowInv(cfg, g, Next(cfg, s, LoseRequest(i)))
  {
    WithoutMembers(s.requests, i);
  }

  lemma LoseRequestLoad(cfg: Config, g: Origin, s: State, i: nat)
    requires WellFormed(cfg, s) && LoadInv(cfg, g, s) && PastLoadInv(cfg, g, s)
    requires i < |s.requests| && !IsReset(s.requests[i])
    ensures var t := Next(cfg, s, LoseRequest(i)); LoadInv(cfg, g, t) && PastLoadInv(cfg, g, t)
  {
    var t := Next(cfg, s, LoseRequest(i));
    forall e: nat
      ensures |InFlight(t.requests, e)| <= |InFlight(s.requests, e)|
    {
      InFlightWithout(s.requests, i, e);
    }
    assert Outstanding(t) <= Outstanding(s);
  }

  lemma LoseResponseOrder(cfg: Config, g: Origin, s: State, j: nat)
    requires WellFormed(cfg, s) && OrderInv(cfg, g, s) && j < |s.responses|
    ensures OrderInv(cfg, g, Next(cfg, s, LoseResponse(j)))
  {
    WithoutMembers(s.responses, j);
  }

  lemma LoseResponseSession(cfg: Config, g: Origin, s: State, j: nat)
    requires WellFormed(cfg, s) && SessionInv(cfg, s) && j < |s.responses|
    ensures SessionInv(cfg, Next(cfg, s, LoseResponse(j)))
  {
    WithoutMembers(s.responses, j);
  }

  lemma LoseResponseWindow(cfg: Config, g: Origin, s: State, j: nat)
    requires WellFormed(cfg, s) && WindowInv(cfg, g, s) && j < |s.responses|
    ensures WindowInv(cfg, g, Next(cfg, s, LoseResponse(j)))
  {
    WithoutMembers(s.responses, j);
  }

  lemma LoseResponseLoad(cfg: Config, g: Origin, s: State, j: nat)
    requires WellFormed(cfg, s) && LoadInv(cfg, g, s) && j < |s.responses|
    ensures LoadInv(cfg, g, Next(cfg, s, LoseResponse(j)))
  {
    var t := Next(cfg, s, LoseResponse(j));
    WithoutMembers(s.responses, j);
    assert Outstanding(t) == Outstanding(s);
    assert Unanswered(g, t) ==> Unanswered(g, s);
  }

  // ---------------------------------------------------------------- every run

  lemma PollKeeps(cfg: Config, g: Origin, s: State, input: Read)
    requires Inv(cfg, g, s)
    ensures Inv(cfg, g, AfterPoll(cfg, s, input))
  {
    PollOrder(cfg, g, s, input);
    PollSession(cfg, g, s, input);
    PollWindow(cfg, g, s, input);
    PollLoad(cfg, g, s, input);
    PollPastLoad(cfg, g, s, input);
    PollStream(cfg, g, s, input);
  }

  lemma RequestKeeps(cfg: Config, g: Origin, s: State)
    requires Inv(cfg, g, s) && s.requests != []
    ensures Inv(cfg, g, AfterRequest(cfg, s))
  {
    RequestOrder(cfg, g, s);
    RequestSession(cfg, g, s);
    RequestWindow(cfg, g, s);
    RequestLoad(cfg, g, s);
    RequestPastLoad(cfg, g, s);
    RequestStream(cfg, g, s);
  }

  lemma EmitKeeps(cfg: Config, g: Origin, s: State)
    requires Inv(cfg, g, s)
    ensures Inv(cfg, g, Next(cfg, s, Emit))
  {
    EmitOrder(cfg, g, s);
    EmitSession(cfg, s);
    EmitWindow(cfg, g, s);
    EmitLoad(cfg, g, s);
    StreamSame(cfg, g, s, Next(cfg, s, Emit));
  }

  lemma ResponseKeeps(cfg: Config, g: Origin, s: State)
    requires Inv(cfg, g, s)
    ensures Inv(cfg, g, Next(cfg, s, DeliverResponse))
  {
    if s.responses != [] {
      ResponseOrder(cfg, g, s);
      ResponseSession(cfg, s);
      ResponseWindow(cfg, g, s);
      ResponseLoad(cfg, g, s);
      StreamSame(cfg, g, s, Next(cfg, s, DeliverResponse));
    }
  }

  lemma RequestLossKeeps(cfg: Config, g: Origin, s: State, i: nat)
    requires Inv(cfg, g, s)
    ensures Inv(cfg, g, Next(cfg, s, LoseRequest(i)))
  {
    if i < |s.requests| && !IsReset(s.requests[i]) {
      LoseRequestOrder(cfg, g, s, i);
      LoseRequestSession(cfg, s, i);
      LoseRequestWindow(cfg, g, s, i);
      LoseRequestLoad(cfg, g, s, i);
    }
  }

  lemma ResponseLossKeeps(cfg: Config, g: Origin, s: State, j: nat)
    requires Inv(cfg, g, s)
    ensures Inv(cfg, g, Next(cfg, s, LoseResponse(j)))
  {
    if j < |s.responses| {
      LoseResponseOrder(cfg, g, s, j);
      LoseResponseSession(cfg, g, s, j);
      LoseResponseWindow(cfg, g, s, j);
      LoseResponseLoad(cfg, g, s, j);
      StreamSame(cfg, g, s, Next(cfg, s, LoseResponse(j)));
    }
  }

  lemma DrainKeeps(cfg: Config, g: Origin, s: State, writable: nat)
    requires Inv(cfg, g, s)
    ensures Inv(cfg, g, AfterDrain(cfg, s, writable))
  {
    DrainOrder(cfg, g, s, writable);
    DrainSession(cfg, s, writable);
    DrainLoad(cfg, g, s, writable);
    DrainStream(cfg, g, s, writable);
  }

  lemma ReopenKeeps(cfg: Config, g: Origin, s: State)
    requires Inv(cfg, g, s)
    ensures Inv(cfg, g, AfterReopen(cfg, s))
  {
    ReopenOrder(cfg, g, s);
    ReopenSession(cfg, g, s);
    ReopenWindow(cfg, g, s);
    ReopenLoad(cfg, g, s);
    ReopenPastLoad(cfg, g, s);
    ReopenStream(cfg, g, s);
  }

  /** Every step of either side or of the channels keeps the invariant. */
  lemma StepKeeps(cfg: Config, g: Origin, s: State, step: Step)
    requires Inv(cfg, g, s)
    ensures Inv(cfg, g, Next(cfg, s, step))
  {
    match step
    case Poll(input) => PollKeeps(cfg, g, s, input);
    case Reopen => ReopenKeeps(cfg, g, s);
    case DeliverRequest =>
      if s.requests != [] {
        RequestKeeps(cfg, g, s);
      }
    case Drain(writable) => DrainKeeps(cfg, g, s, writable);
    case Fill(reset, waiting) => FillKeeps(cfg, g, s, reset, waiting);
    case Emit => EmitKeeps(cfg, g, s);
    case DeliverResponse => ResponseKeeps(cfg, g, s);
    case LoseRequest(i) => RequestLossKeeps(cfg, g, s, i);
    case LoseResponse(j) => ResponseLossKeeps(cfg, g, s, j);
  }

  lemma {:induction false} RunKeeps(cfg: Config, g: Origin, s: State, steps: seq<Step>)
    requires Inv(cfg, g, s)
    ensures Inv(cfg, g, Run(cfg, s, steps))
    decreases |steps|
  {
    if steps != [] {
      StepKeeps(cfg, g, s, steps[0]);
      RunKeeps(cfg, g, Next(cfg, s, steps[0]), steps[1..]);
    }
  }

  lemma Reachable(cfg: Config, start: State, steps: seq<Step>)
    requires Start(cfg, start)
    ensures Inv(cfg, OriginOf(cfg, start), Run(cfg, start, steps))
  {
    StartInv(cfg, start);
    RunKeeps(cfg, OriginOf(cfg, start), start, steps);
  }

  // ---------------------------------------------------------------- the main results

  /** Neither the firmware nor an answer in flight echoes a counter that a poll with data has still to reach. */
  predicate Orderly(cfg: Config, start: State) {
    OriginOf(cfg, start).echo <= OriginOf(cfg, start).counter
  }

  lemma OrderlySlack(cfg: Config, start: State)
    requires Orderly(cfg, start)
    ensures Gap(OriginOf(cfg, start)) * PerPoll(cfg) == 0 && Slack(cfg, OriginOf(cfg, start)) == cfg.ringSize / 2
  {
    assert 0 * PerPoll(cfg) == 0;
  }

  /**
   Remote buffering bound.  On every run, over channels that may lose requests (never a Reset) and responses, the ring
   together with the data in flight for it holds at most floor(N/2)+L bytes, and each later session still in the
   channel adds at most L, to a ring that its Reset will have emptied.  That is for an orderly start; for any other,
   every poll that the initial echo runs ahead may add a full payload.
   */
  lemma RemoteBufferingBounded(cfg: Config, start: State, steps: seq<Step>)
    requires Start(cfg, start)
    ensures var s, g := Run(cfg, start, steps), OriginOf(cfg, start);
            && |s.uart.ring.bytes| + |InFlight(s.requests, s.fwEpoch)| <= Slack(cfg, g) + cfg.port.limit
            && (forall e :: s.fwEpoch < e <= s.epoch ==>
                  |InFlight(s.requests, e)| <= Gap(g) * PerPoll(cfg) + cfg.port.limit)
            && (Orderly(cfg, start) ==>
                  && |s.uart.ring.bytes| + |InFlight(s.requests, s.fwEpoch)| <= cfg.ringSize / 2 + cfg.port.limit
                  && forall e :: s.fwEpoch < e <= s.epoch ==> |InFlight(s.requests, e)| <= cfg.port.limit)
  {
    Reachable(cfg, start, steps);
    var s, g := Run(cfg, start, steps), OriginOf(cfg, start);
    RingLoad(cfg, g, s);
    LaterSessionsLoad(cfg, g, s);
    if Orderly(cfg, start) {
      OrderlySlack(cfg, start);
    }
  }

  // ---------------------------------------------------------------- what was read from the local clients

  /** How many bytes a poll asks the local client for: none while there is no client, its session has not been announced
      or the firmware's ring is half full, and otherwise what neither payload slot nor limit forbids. */
  function Asks(cfg: Config, s: State): nat {
    if !s.port.attached || s.port.resetPending || s.port.blocked || Total(s.port.window) >= cfg.port.limit then 0
    else Min(cfg.port.payloadSize, cfg.port.limit - Total(s.port.window))
  }

  /** What the local client gives to one step of session `e`: of what it has to offer, the first bytes that a poll asks
      for. */
  function Gives(cfg: Config, s: State, step: Step, e: nat): seq<byte> {
    if step.Poll? && step.input.Got? && s.epoch == e
    then step.input.bytes[..Min(|step.input.bytes|, Asks(cfg, s))] else []
  }

  /** The bytes that local clients give in session `e`, poll by poll. */
  function ReadIn(cfg: Config, s: State, steps: seq<Step>, e: nat): seq<byte>
    requires WellFormed(cfg, s)
    decreases |steps|
  {
    if steps == [] then [] else Gives(cfg, s, steps[0], e) + ReadIn(cfg, Next(cfg, s, steps[0]), steps[1..], e)
  }

  /** Before the e-th reopening nothing is read in session `e`. */
  function SentBy(s: State, e: nat): seq<byte>
    requires s.epoch < |s.sent|
  {
    if e <= s.epoch then s.sent[e] else []
  }

  lemma StepReads(cfg: Config, s: State, step: Step, e: nat)
    requires WellFormed(cfg, s)
    ensures SentBy(Next(cfg, s, step), e) == SentBy(s, e) + Gives(cfg, s, step, e)
  {
    assert SentBy(s, e) + [] == SentBy(s, e);
  }

  lemma Chain(before: seq<byte>, now: seq<byte>, after: seq<byte>, rest: seq<byte>, end: seq<byte>)
    requires after == before + now && end == after + rest
    ensures end == before + (now + rest)
  {
  }

  /** `sent` is what the local clients gave, session by session. */
  lemma {:induction false} SentIsRead(cfg: Config, s: State, steps: seq<Step>, e: nat)
    requires WellFormed(cfg, s)
    ensures SentBy(Run(cfg, s, steps), e) == SentBy(s, e) + ReadIn(cfg, s, steps, e)
    decreases |steps|
  {
    if steps != [] {
      var t := Next(cfg, s, steps[0]);
      StepReads(cfg, s, steps[0], e);
      SentIsRead(cfg, t, steps[1..], e);
      Chain(SentBy(s, e), Gives(cfg, s, steps[0], e), SentBy(t, e), ReadIn(cfg, t, steps[1..], e),
            SentBy(Run(cfg, t, steps[1..]), e));
    }
  }

  /** A run of which nothing was lost or dropped, given what was read in each session. */
  predicate Delivered(s: State, read: seq<seq<byte>>) {
    && |read| == |s.out| == s.epoch + 1 && s.fwEpoch <= s.epoch
    && s.out[s.fwEpoch] + s.uart.ring.bytes + InFlight(s.requests, s.fwEpoch) == read[s.fwEpoch]
    && (forall e :: 0 <= e <= s.epoch ==> s.out[e] <= read[e])
    && (forall e :: s.fwEpoch < e <= s.epoch ==> s.out[e] == [] && InFlight(s.requests, e) == read[e])
  }

  /** What was read in every session of a run. */
  function ReadInAll(cfg: Config, start: State, steps: seq<Step>): seq<seq<byte>>
    requires WellFormed(cfg, start)
  {
    seq(Run(cfg, start, steps).epoch + 1, e requires 0 <= e => ReadIn(cfg, start, steps, e))
  }

  lemma SessionsRead(cfg: Config, start: State, steps: seq<Step>)
    requires Start(cfg, start)
    ensures Run(cfg, start, steps).sent == ReadInAll(cfg, start, steps)
  {
    var s, read := Run(cfg, start, steps), ReadInAll(cfg, start, steps);
    forall e: nat | e <= s.epoch
      ensures s.sent[e] == read[e]
    {
      SentIsRead(cfg, start, steps, e);
      assert SentBy(start, e) == [];
      assert [] + ReadIn(cfg, start, steps, e) == ReadIn(cfg, start, steps, e);
    }
  }

  lemma StreamsDelivered(s: State)
    requires |s.out| == |s.sent| == s.epoch + 1 && s.fwEpoch <= s.epoch
    requires forall e :: 0 <= e <= s.epoch ==> SessionStream(s, e)
    ensures Delivered(s, s.sent)
  {
    forall e | 0 <= e <= s.epoch
      ensures s.out[e] <= s.sent[e] && (s.fwEpoch < e ==> s.out[e] == [] && InFlight(s.requests, e) == s.sent[e])
    {
      assert SessionStream(s, e);
    }
    assert SessionStream(s, s.fwEpoch);
  }

  /**
   End-to-end FIFO.  When the bound fits the ring nothing is ever dropped; if moreover no request is lost, in the
   session the firmware is in UART output, ring and channel together are exactly what the polls have read from the local
   clients; and in every session, past or present, the UART output is a prefix of what was read in it.
   */
  lemma EndToEndFifo(cfg: Config, start: State, steps: seq<Step>)
    requires Start(cfg, start) && NoDropConfig(cfg, OriginOf(cfg, start))
    ensures var s := Run(cfg, start, steps);
            s.dropped == 0 && (!s.lost ==> Delivered(s, ReadInAll(cfg, start, steps)))
  {
    Reachable(cfg, start, steps);
    SessionsRead(cfg, start, steps);
    if !Run(cfg, start, steps).lost {
      StreamsDelivered(Run(cfg, start, steps));
    }
  }

  lemma StaleConfirmsNothing(cfg: Config, start: State, s: State)
    requires WellFormed(cfg, s) && OrderInv(cfg, OriginOf(cfg, start), s) && WindowInv(cfg, OriginOf(cfg, start), s)
    requires Orderly(cfg, start) && s.responses != [] && s.responses[0].epoch < s.epoch
    ensures Next(cfg, s, DeliverResponse).port.window == s.port.window
  {
    assert NewerThan(s.port.window, s.responses[0].counter);
    NewerAll(s.port.window, s.responses[0].counter);
  }

  /**
   Send window.  On every run the unconfirmed counters strictly increase, so popping from the front is filtering by
   counter, the window never exceeds its limit, and from an orderly start an answer emitted before the firmware knew the
   current session confirms nothing of it.
   */
  lemma WindowSafe(cfg: Config, start: State, steps: seq<Step>)
    requires Start(cfg, start)
    ensures var s := Run(cfg, start, steps);
            && Ordered(s.port.window, s.counter) && Total(s.port.window) <= cfg.port.limit
            && (Orderly(cfg, start) && s.responses != [] && s.responses[0].epoch < s.epoch ==>
                  Next(cfg, s, DeliverResponse).port.window == s.port.window)
  {
    Reachable(cfg, start, steps);
    var s := Run(cfg, start, steps);
    if Orderly(cfg, start) && s.responses != [] && s.responses[0].epoch < s.epoch {
      StaleConfirmsNothing(cfg, start, s);
    }
  }

  /** The client accounts for all data of its session in flight. */
  predicate Covered(s: State) {
    forall i :: 0 <= i < |s.requests| && IsData(s.requests[i]) && s.requests[i].epoch == s.epoch ==>
      Pkg(s.requests[i].counter, |s.requests[i].payload|) in s.port.window
  }

  lemma OrderlyCovers(cfg: Config, start: State, steps: seq<Step>)
    requires Start(cfg, start) && Orderly(cfg, start)
    ensures Covered(Run(cfg, start, steps))
  {
    Reachable(cfg, start, steps);
  }

  /**
   When the client takes the payload of an answer.  For an answer of a session of its own: when that is the current one,
   or lies a positive multiple of 127 reopenings back and is not the initial one.  For an answer from before the Open:
   when the id an earlier client left happens to be the current one.
   */
  predicate Matches(r: Answer, e: nat) {
    if r.epoch >= 0 then r.epoch == e || (r.epoch > 0 && (e - r.epoch) % 127 == 0)
    else if SessionOf(r.response.arg) == 0 then e == 0
    else e > 0 && (e - SessionOf(r.response.arg)) % 127 == 0
  }

  lemma AcceptedNow(cfg: Config, s: State)
    requires WellFormed(cfg, s) && SessionInv(cfg, s) && s.responses != []
    ensures var r := s.responses[0];
            && EARLIER <= r.epoch <= s.fwEpoch <= s.epoch
            && (Accepts(s.port, r.response.arg) <==> s.port.attached && Matches(r, s.epoch))
  {
    var r := s.responses[0];
    if r.epoch >= 0 {
      SidEqual(r.epoch, s.epoch);
    } else {
      SidIs(SessionOf(r.response.arg), s.epoch);
    }
  }

  /**
   Session isolation.  The payload of an arriving answer is accepted only by an attached client, and then exactly when
   the firmware had processed the current session's Reset before emitting it, or the port was reopened a positive
   multiple of 127 times since the session the answer was emitted in, and that was not the initial one; or when it was
   sent before the Open, and the port has been reopened as often, up to a multiple of 127, as the earlier client's was.
   */
  lemma AcceptedAnswers(cfg: Config, start: State, steps: seq<Step>)
    requires Start(cfg, start)
    ensures var s := Run(cfg, start, steps);
            s.responses != [] ==>
              var r := s.responses[0];
              && EARLIER <= r.epoch <= s.fwEpoch <= s.epoch
              && (Accepts(s.port, r.response.arg) <==> s.port.attached && Matches(r, s.epoch))
  {
    Reachable(cfg, start, steps);
    var s := Run(cfg, start, steps);
    if s.responses != [] {
      AcceptedNow(cfg, s);
    }
  }

  lemma MatchesNear(r: Answer, e: nat)
    requires Matches(r, e) && 0 <= r.epoch <= e < r.epoch + 127
    ensures r.epoch == e
  {
    var d := e - r.epoch;
    assert d % 127 == d;
  }

  /** With fewer than 127 reopenings since the session of an answer sent after the Open, it is accepted only if it
      belongs to the current session. */
  lemma SessionIsolation(cfg: Config, start: State, steps: seq<Step>)
    requires Start(cfg, start)
    ensures var s := Run(cfg, start, steps);
            (s.responses != [] && s.responses[0].epoch != EARLIER && s.epoch < s.responses[0].epoch + 127
             && Accepts(s.port, s.responses[0].response.arg))
              ==> s.responses[0].epoch == s.fwEpoch == s.epoch
  {
    AcceptedAnswers(cfg, start, steps);
    var s := Run(cfg, start, steps);
    if s.responses != [] && s.responses[0].epoch != EARLIER && s.epoch < s.responses[0].epoch + 127
       && Accepts(s.port, s.responses[0].response.arg) {
      MatchesNear(s.responses[0], s.epoch);
    }
  }
}

/**
 From the local client to the UART.  A run is a run of `Protocol` in which a poll reads from what the local client has
 written and `read` has not returned yet.
 */
module ForwardPath {
  import opened Bytes
  import opened SendWindow
  import opened PortWorker
  import opened Protocol
  import opened LinkSafety

  /** The link, and of the session's local client: what it has written and no poll has read, everything it has written
      that was read or still can be, whether it has ended its stream, and whether reading from it has failed. */
  datatype Path = Path(link: State, waiting: seq<byte>, written: seq<byte>, ended: bool, failed: bool)

  datatype Move =
    | Do(step: Step)             // any step of the link but Poll
    | Write(bytes: seq<byte>)    // the local client writes
    | End                        // it ends its stream
    | Turn(fails: bool)          // a poll; its `read` may fail

  predicate Valid(cfg: Config, d: Path) {
    Protocol.WellFormed(cfg, d.link)
  }

  /** What a `read` of the local connection meets with. */
  function Offer(d: Path, fails: bool): Read {
    if fails then Broken else if d.waiting != [] then Got(d.waiting) else if d.ended then Got([]) else Again
  }

  /** A `read` that does not fail returns the first waiting bytes, and no more than it is asked for. */
  function AfterTurn(cfg: Config, d: Path, fails: bool): (e: Path)
    requires Valid(cfg, d)
    ensures Valid(cfg, e)
  {
    var asked := Asks(cfg, d.link);
    d.(link := Protocol.Next(cfg, d.link, Poll(Offer(d, fails))),
       waiting := if fails then d.waiting else d.waiting[Min(asked, |d.waiting|)..],
       failed := d.failed || (fails && asked > 0))
  }

  /** Whatever an earlier client has written and was not read is gone with it. */
  function AfterReopen(cfg: Config, d: Path): (e: Path)
    requires Valid(cfg, d)
    ensures Valid(cfg, e)
  {
    var link := Protocol.Next(cfg, d.link, Reopen);
    Path(link, [], link.sent[link.epoch], false, false)
  }

  function Next(cfg: Config, d: Path, move: Move): (e: Path)
    requires Valid(cfg, d)
    ensures Valid(cfg, e)
  {
    match move
    case Do(step) =>
      if step.Poll? then d
      else if step.Reopen? then AfterReopen(cfg, d)
      else d.(link := Protocol.Next(cfg, d.link, step))
    case Write(bytes) =>
      if d.ended || !d.link.port.attached then d
      else d.(waiting := d.waiting + bytes, written := d.written + bytes)
    case End => d.(ended := true)
    case Turn(fails) => AfterTurn(cfg, d, fails)
  }

  function Run(cfg: Config, d: Path, moves: seq<Move>): (e: Path)
    requires Valid(cfg, d)
    ensures Valid(cfg, e)
    decreases |moves|
  {
    if moves == [] then d else Run(cfg, Next(cfg, d, moves[0]), moves[1..])
  }

  /** The link has just started; a local client may be waiting. */
  predicate Start(cfg: Config, d: Path) {
    && Protocol.Start(cfg, d.link) && d.waiting == d.written && !d.failed && (d.link.port.attached || d.waiting == [])
  }

  /** Nothing of what the client writes is passed over, doubled or reordered before it is sent; and a client is dropped
      only when all of it has been read, or reading has failed. */
  predicate Conserved(d: Path)
    requires |d.link.sent| == d.link.epoch + 1
  {
    && d.link.sent[d.link.epoch] + d.waiting == d.written
    && (d.link.port.attached || d.failed || d.waiting == [])
  }

  lemma PollSends(cfg: Config, s: State, input: Read)
    requires WellFormed(cfg, s) && Total(s.port.window) <= cfg.port.limit
    ensures var t := Protocol.Next(cfg, s, Poll(input));
            var n := if input.Got? then Min(|input.bytes|, Asks(cfg, s)) else 0;
            && t.epoch == s.epoch
            && t.sent[s.epoch] == s.sent[s.epoch] + (if input.Got? then input.bytes[..n] else [])
            && Total(t.port.window) == Total(s.port.window) + n
  {
    StepReads(cfg, s, Poll(input), s.epoch);
    var data := Taken(s.port, cfg.port, input);
    TotalSnoc(s.port.window, Pkg(s.counter + 1, |data|));
  }

  lemma PollDrops(cfg: Config, s: State, input: Read)
    requires WellFormed(cfg, s) && Total(s.port.window) <= cfg.port.limit
    ensures Protocol.Next(cfg, s, Poll(input)).port.attached
            <==> s.port.attached && !(Asks(cfg, s) > 0 && (input.Broken? || input == Got([])))
  {
  }

  /** What one poll does to the local client: it takes the first waiting bytes, as many as payload slot and limit allow;
      and it drops the client exactly when it asked for bytes and met the end of the stream or a failure. */
  predicate Served(cfg: Config, d: Path, e: Path, fails: bool)
    requires |d.link.sent| == d.link.epoch + 1 && |e.link.sent| == e.link.epoch + 1
  {
    var n := |d.waiting| - |e.waiting|;
    && e.link.epoch == d.link.epoch && e.written == d.written
    && 0 <= n && e.waiting == d.waiting[n..]
    && e.link.sent[d.link.epoch] == d.link.sent[d.link.epoch] + d.waiting[..n]
    && (d.link.port.attached && !d.link.port.resetPending && !d.link.port.blocked && !fails ==>
          e.waiting == [] || n == cfg.port.payloadSize || Total(e.link.port.window) == cfg.port.limit)
    && (e.link.port.attached <==>
          d.link.port.attached && !(Asks(cfg, d.link) > 0 && (fails || (d.waiting == [] && d.ended))))
    && e.failed == (d.failed || (fails && Asks(cfg, d.link) > 0))
  }

  lemma Serving(cfg: Config, d: Path, t: State, fails: bool)
    requires |d.link.sent| == d.link.epoch + 1 == |t.sent| && t.epoch == d.link.epoch
    requires Total(d.link.port.window) <= cfg.port.limit
    requires var input, epoch := Offer(d, fails), d.link.epoch;
             var n := if input.Got? then Min(|input.bytes|, Asks(cfg, d.link)) else 0;
             && t.sent[epoch] == d.link.sent[epoch] + (if input.Got? then input.bytes[..n] else [])
             && Total(t.port.window) == Total(d.link.port.window) + n
             && (t.port.attached <==>
                   d.link.port.attached && !(Asks(cfg, d.link) > 0 && (input.Broken? || input == Got([]))))
    ensures Served(cfg, d, d.(link := t, failed := d.failed || (fails && Asks(cfg, d.link) > 0),
                              waiting := if fails then d.waiting
                                         else d.waiting[Min(Asks(cfg, d.link), |d.waiting|)..]), fails)
  {
    assert d.link.sent[d.link.epoch] + [] == d.link.sent[d.link.epoch];
  }

  lemma TurnTakesAll(cfg: Config, d: Path, fails: bool)
    requires Valid(cfg, d) && Total(d.link.port.window) <= cfg.port.limit
    ensures Served(cfg, d, AfterTurn(cfg, d, fails), fails)
  {
    PollSends(cfg, d.link, Offer(d, fails));
    PollDrops(cfg, d.link, Offer(d, fails));
    Serving(cfg, d, AfterTurn(cfg, d, fails).link, fails);
  }

  lemma ServedConserves(cfg: Config, d: Path, e: Path, fails: bool)
    requires |d.link.sent| == d.link.epoch + 1 && |e.link.sent| == e.link.epoch + 1
    requires Served(cfg, d, e, fails) && Conserved(d)
    ensures Conserved(e)
  {
    var n := |d.waiting| - |e.waiting|;
    assert d.waiting == d.waiting[..n] + d.waiting[n..];
  }

  lemma OtherStepsKeepSent(cfg: Config, s: State, step: Step)
    requires WellFormed(cfg, s) && !step.Poll? && !step.Reopen?
    ensures var t := Protocol.Next(cfg, s, step);
            t.sent == s.sent && t.epoch == s.epoch && t.port.attached == s.port.attached
  {
  }

  lemma TurnConserves(cfg: Config, d: Path, fails: bool)
    requires Valid(cfg, d) && Total(d.link.port.window) <= cfg.port.limit && Conserved(d)
    ensures Conserved(AfterTurn(cfg, d, fails))
  {
    TurnTakesAll(cfg, d, fails);
    ServedConserves(cfg, d, AfterTurn(cfg, d, fails), fails);
  }

  lemma MoveConserves(cfg: Config, d: Path, move: Move)
    requires Valid(cfg, d) && Total(d.link.port.window) <= cfg.port.limit && Conserved(d)
    ensures Conserved(Next(cfg, d, move))
  {
    match move
    case Do(step) =>
      if !step.Poll? && !step.Reopen? {
        OtherStepsKeepSent(cfg, d.link, step);
      }
    case Write(bytes) =>
      assert d.link.sent[d.link.epoch] + (d.waiting + bytes) == d.link.sent[d.link.epoch] + d.waiting + bytes;
    case End =>
    case Turn(fails) => TurnConserves(cfg, d, fails);
  }

  /** The link makes a step, or none. */
  lemma MoveKeeps(cfg: Config, g: Origin, d: Path, move: Move)
    requires Inv(cfg, g, d.link)
    ensures Inv(cfg, g, Next(cfg, d, move).link)
  {
    match move
    case Do(step) => StepKeeps(cfg, g, d.link, step);
    case Turn(fails) => StepKeeps(cfg, g, d.link, Poll(Offer(d, fails)));
    case _ =>
  }

  lemma {:induction false} RunConserves(cfg: Config, g: Origin, d: Path, moves: seq<Move>)
    requires Inv(cfg, g, d.link) && Conserved(d)
    ensures Inv(cfg, g, Run(cfg, d, moves).link) && Conserved(Run(cfg, d, moves))
    decreases |moves|
  {
    if moves != [] {
      MoveKeeps(cfg, g, d, moves[0]);
      MoveConserves(cfg, d, moves[0]);
      RunConserves(cfg, g, Next(cfg, d, moves[0]), moves[1..]);
    }
  }

  /**
   Local client to UART, for every run.  What the polls have sent and what waits to be read are, in order, what the
   session's client has written, and a client is dropped with bytes unread only if reading failed.  If moreover the
   bound fits the ring and no request is lost, then once the firmware is in the session, UART output, ring, channel and
   waiting bytes are, in order, everything the client has written; before that channel and waiting bytes are.
   */
  lemma ClientToUart(cfg: Config, start: Path, moves: seq<Move>)
    requires Start(cfg, start)
    ensures var d := Run(cfg, start, moves);
            var s := d.link;
            && s.sent[s.epoch] + d.waiting == d.written
            && (!s.port.attached && !d.failed ==> s.sent[s.epoch] == d.written)
            && (NoDropConfig(cfg, OriginOf(cfg, start.link)) && !s.lost ==>
                  if s.fwEpoch == s.epoch
                  then s.out[s.epoch] + s.uart.ring.bytes + InFlight(s.requests, s.epoch) + d.waiting == d.written
                  else s.out[s.epoch] == [] && InFlight(s.requests, s.epoch) + d.waiting == d.written)
  {
    StartInv(cfg, start.link);
    assert [] + start.waiting == start.waiting;
    RunConserves(cfg, OriginOf(cfg, start.link), start, moves);
    var d := Run(cfg, start, moves);
    if NoDropConfig(cfg, OriginOf(cfg, start.link)) && !d.link.lost {
      assert SessionStream(d.link, d.link.epoch);
    }
    if d.waiting == [] {
      assert d.link.sent[d.link.epoch] + [] == d.link.sent[d.link.epoch];
    }
  }
}

/**
 The other direction of the link, from a UART to the local client: bytes read on polls are gathered over the segments
 of an answer, travel as its payload, are stored in the client's ring when the answer is accepted, and are written to
 the local client from there.  A run is a run of `Protocol` in which the firmware fills and emits as `loop` does, with a
 consumer on the client's ring.
 */
module ReturnPath {
  import opened Bytes
  import opened RingBuffer
  import opened Command
  import opened UartWorker
  import opened PortWorker
  import opened Protocol
  import opened LinkSafety

  /** The link, the firmware's segment counter, the client's receive ring, and history: of the firmware's session what
      its UART gave, what was already in the aggregate when the session began, and what was sent; of the client's
      session what was stored, what was taken out of the ring again, and what of that reached the local client. */
  datatype Path = Path(link: State, segment: nat, ring: Queue,
                       given: seq<byte>, carried: seq<byte>, emitted: seq<byte>,
                       stored: seq<byte>, consumed: seq<byte>, reached: seq<byte>, gap: bool, wasted: bool)

  datatype Move =
    | Do(step: Step)             // any step of the link but Fill and Emit
    | Tick(waiting: seq<byte>)   // the poll interval has passed
    | Work(handle: nat, outcome: Outcome)   // `Worker` commits a handle of that size

  /** What became of a handle: there was no local client, polling or writing failed, the client was not ready in time,
      or it took some bytes. */
  datatype Outcome = NoClient | Failed | TimedOut | Wrote(n: nat)

  predicate Valid(cfg: Config, multiplier: nat, d: Path) {
    && Protocol.WellFormed(cfg, d.link) && d.ring.Valid() && d.segment < multiplier
    && |d.link.uart.pending| <= cfg.payloadSize
  }

  /** The aggregate in the making. */
  function Partial(d: Path): seq<byte> {
    if d.segment == 0 then [] else d.link.uart.pending
  }

  /** The bytes one poll takes from the UART. */
  function Fetched(cfg: Config, d: Path, waiting: seq<byte>): seq<byte> {
    var used := |Partial(d)|;
    if d.link.uart.IsOpen() then waiting[..FillSize(used, |waiting|, cfg.ioSize, cfg.payloadSize)] else []
  }

  function AfterTick(cfg: Config, multiplier: nat, d: Path, waiting: seq<byte>): (e: Path)
    requires Valid(cfg, multiplier, d)
    ensures Valid(cfg, multiplier, e)
  {
    var filled := d.(link := Protocol.Next(cfg, d.link, Fill(d.segment == 0, waiting)), segment := d.segment + 1,
                     given := d.given + Fetched(cfg, d, waiting));
    if filled.segment < multiplier then filled
    else filled.(link := Protocol.Next(cfg, filled.link, Emit), segment := 0,
                 emitted := d.emitted + filled.link.uart.pending)
  }

  /** An answer that brings bytes of the client's session. */
  predicate Owed(s: State, r: Answer) {
    r.epoch == s.epoch && r.payload != []
  }

  /** Whether the client stores the payload of the next answer. */
  predicate Stores(d: Path)
    requires d.link.responses != []
  {
    var r := d.link.responses[0];
    Accepts(d.link.port, r.response.arg) && r.response.kind != NO_COMMAND
  }

  /** What makes the next answer leave a gap in what the session receives: no local client, a full ring, or a payload of
      a session a multiple of 127 reopenings back, or of an earlier client's session with the same id. */
  predicate Spoils(d: Path)
    requires d.link.responses != [] && d.ring.Valid()
  {
    var r, s := d.link.responses[0], d.link;
    && r.payload != []
    && (if r.epoch == s.epoch then !s.port.attached || |r.payload| > d.ring.Free()
        else s.port.attached && Matches(r, s.epoch))
  }

  function AfterAnswer(cfg: Config, multiplier: nat, d: Path): (e: Path)
    requires Valid(cfg, multiplier, d) && d.link.responses != []
    ensures Valid(cfg, multiplier, e)
  {
    var r := d.link.responses[0];
    var payload := r.payload[..Min(|r.payload|, r.response.plSz)];
    var e := d.(link := Protocol.Next(cfg, d.link, DeliverResponse), gap := d.gap || Spoils(d));
    if Stores(d)
    then e.(ring := Enqueued(d.ring, payload), stored := d.stored + payload[..Min(|payload|, d.ring.Free())])
    else e
  }

  function AfterStep(cfg: Config, multiplier: nat, d: Path, step: Step): (e: Path)
    requires Valid(cfg, multiplier, d)
    ensures Valid(cfg, multiplier, e)
  {
    var link := Protocol.Next(cfg, d.link, step);
    match step
    case Reopen =>
      if cfg.port.resetOnConnect
      then d.(link := link, ring := Drop(d.ring), stored := [], consumed := [], reached := [],
             gap := false, wasted := false)
      else d.(link := link)
    case DeliverRequest =>
      if d.link.requests != [] && IsReset(d.link.requests[0])
      then d.(link := link, given := [], carried := Partial(d), emitted := [])
      else d.(link := link)
    case DeliverResponse => if d.link.responses == [] then d else AfterAnswer(cfg, multiplier, d)
    case LoseResponse(j) =>
      d.(link := link, gap := d.gap || (j < |d.link.responses| && Owed(d.link, d.link.responses[j])))
    case Fill(_, _) => d
    case Emit => d
    case Poll(_) => d.(link := link)
    case LoseRequest(_) => d.(link := link)
    case Drain(_) => d.(link := link)
  }

  /** Only what was written has reached the local client; every other outcome commits the whole handle all the same. */
  function AfterWork(d: Path, handle: nat, outcome: Outcome): (e: Path)
    requires d.ring.Valid()
    ensures e.ring.Valid() && e.link == d.link && e.segment == d.segment
  {
    var room := Min(handle, |d.ring.bytes|);
    var used := if outcome.Wrote? then Min(outcome.n, room) else room;
    d.(ring := Dequeued(d.ring, used), consumed := d.consumed + d.ring.bytes[..used],
       reached := if outcome.Wrote? then d.reached + d.ring.bytes[..used] else d.reached,
       wasted := d.wasted || Wastes(d, handle, outcome))
  }

  /** Bytes are thrown away: by any outcome but a write, of a handle that is not empty. */
  predicate Wastes(d: Path, handle: nat, outcome: Outcome) {
    !outcome.Wrote? && handle > 0 && d.ring.bytes != []
  }

  function Next(cfg: Config, multiplier: nat, d: Path, move: Move): (e: Path)
    requires Valid(cfg, multiplier, d)
    ensures Valid(cfg, multiplier, e)
  {
    match move
    case Do(step) => AfterStep(cfg, multiplier, d, step)
    case Tick(waiting) => AfterTick(cfg, multiplier, d, waiting)
    case Work(handle, outcome) => AfterWork(d, handle, outcome)
  }

  function Run(cfg: Config, multiplier: nat, d: Path, moves: seq<Move>): (e: Path)
    requires Valid(cfg, multiplier, d)
    ensures Valid(cfg, multiplier, e)
    decreases |moves|
  {
    if moves == [] then d else Run(cfg, multiplier, Next(cfg, multiplier, d, moves[0]), moves[1..])
  }

  /** The link has just started: the firmware's session is empty, and what the client has stored by then, if anything,
      is of an earlier one. */
  predicate Start(cfg: Config, multiplier: nat, d: Path) {
    && Valid(cfg, multiplier, d) && Protocol.Start(cfg, d.link)
    && d.given == d.emitted == [] && d.carried == Partial(d) && Sized(d.link.responses)
    && AllStored(d) && AllReached(d) && (d.stored != [] ==> d.gap)
  }

  // ---------------------------------------------------------------- what the answer channel holds

  /** The payload bytes of session `e` on their way. */
  function Payloads(responses: seq<Answer>, e: nat): seq<byte> {
    if responses == [] then []
    else (if responses[0].epoch == e then responses[0].payload else []) + Payloads(responses[1..], e)
  }

  lemma {:induction false} PayloadsSnoc(responses: seq<Answer>, r: Answer, e: nat)
    ensures Payloads(responses + [r], e) == Payloads(responses, e) + (if r.epoch == e then r.payload else [])
  {
    if responses == [] {
      assert responses + [r] == [r] && [r][1..] == [];
    } else {
      var first := if responses[0].epoch == e then responses[0].payload else [];
      var last := if r.epoch == e then r.payload else [];
      assert (responses + [r])[1..] == responses[1..] + [r];
      PayloadsSnoc(responses[1..], r, e);
      assert first + (Payloads(responses[1..], e) + last) == first + Payloads(responses[1..], e) + last;
    }
  }

  lemma {:induction false} PayloadsNone(responses: seq<Answer>, e: nat)
    requires forall i :: 0 <= i < |responses| ==> responses[i].epoch != e
    ensures Payloads(responses, e) == []
  {
    if responses != [] {
      PayloadsNone(responses[1..], e);
    }
  }

  lemma {:induction false} PayloadsWithout(responses: seq<Answer>, j: nat, e: nat)
    requires j < |responses| && (responses[j].epoch != e || responses[j].payload == [])
    ensures Payloads(Without(responses, j), e) == Payloads(responses, e)
  {
    if j == 0 {
      assert Without(responses, j) == responses[1..];
      assert [] + Payloads(responses[1..], e) == Payloads(responses[1..], e);
    } else {
      assert Without(responses, j)[1..] == Without(responses[1..], j - 1);
      PayloadsWithout(responses[1..], j - 1, e);
    }
  }

  // ---------------------------------------------------------------- the invariant

  /** Answers say how long their payload is. */
  predicate Sized(responses: seq<Answer>) {
    forall i :: 0 <= i < |responses| ==>
      var r := responses[i];
      r.response.plSz == |r.payload| && (r.response.kind == NO_COMMAND <==> r.payload == [])
  }

  /** The firmware's session. */
  predicate AllSent(d: Path) {
    d.emitted + Partial(d) == d.carried + d.given
  }

  /** The client's ring. */
  predicate AllStored(d: Path) {
    d.consumed + d.ring.bytes == d.stored
  }

  /** The local client. */
  predicate AllReached(d: Path) {
    if d.wasted then |d.reached| < |d.consumed| else d.reached == d.consumed
  }

  /** The client's session, without a gap. */
  predicate AllArrives(d: Path) {
    !d.gap ==> d.stored + Payloads(d.link.responses, d.link.epoch)
               == if d.link.fwEpoch == d.link.epoch then d.emitted else []
  }

  predicate Conserved(d: Path) {
    Sized(d.link.responses) && AllSent(d) && AllStored(d) && AllReached(d) && AllArrives(d)
  }

  /** A tick is at most two steps of the link. */
  lemma TickSteps(cfg: Config, multiplier: nat, d: Path, waiting: seq<byte>)
    requires Valid(cfg, multiplier, d)
    ensures var filled := Protocol.Next(cfg, d.link, Fill(d.segment == 0, waiting));
            && filled.uart.pending == Partial(d) + Fetched(cfg, d, waiting)
            && filled.responses == d.link.responses && filled.epoch == d.link.epoch && filled.fwEpoch == d.link.fwEpoch
            && AfterTick(cfg, multiplier, d, waiting).link
               == if d.segment + 1 < multiplier then filled else Protocol.Next(cfg, filled, Emit)
  {
    assert Partial(d) + [] == Partial(d);
  }

  lemma BothGrow(emitted: seq<byte>, partial: seq<byte>, carried: seq<byte>, given: seq<byte>, data: seq<byte>)
    requires emitted + partial == carried + given
    ensures emitted + (partial + data) == carried + (given + data)
  {
    assert emitted + (partial + data) == emitted + partial + data;
    assert carried + (given + data) == carried + given + data;
  }

  lemma SizedSnoc(responses: seq<Answer>, r: Answer)
    requires Sized(responses) && Sized([r])
    ensures Sized(responses + [r])
  {
    assert r == [r][0];
  }

  lemma SizedTail(responses: seq<Answer>)
    requires Sized(responses) && responses != []
    ensures Sized(responses[1..])
  {
    assert forall i :: 0 <= i < |responses[1..]| ==> responses[1..][i] == responses[i + 1];
  }

  lemma OwedGrows(stored: seq<byte>, coming: seq<byte>, emitted: seq<byte>, payload: seq<byte>)
    requires stored + coming == emitted
    ensures stored + (coming + payload) == emitted + payload
  {
    assert stored + (coming + payload) == stored + coming + payload;
  }

  /** The payload of a completed aggregate joins the channel and what was sent. */
  lemma SentArrives(d: Path, e: Path, r: Answer)
    requires AllArrives(d)
    requires e.link.responses == d.link.responses + [r] && r.epoch == d.link.fwEpoch
    requires e.link.epoch == d.link.epoch && e.link.fwEpoch == d.link.fwEpoch
    requires e.stored == d.stored && e.gap == d.gap && e.emitted == d.emitted + r.payload
    ensures AllArrives(e)
  {
    PayloadsSnoc(d.link.responses, r, d.link.epoch);
    var before := Payloads(d.link.responses, d.link.epoch);
    if !d.gap {
      if r.epoch == d.link.epoch {
        OwedGrows(d.stored, before, d.emitted, r.payload);
      } else {
        assert before + [] == before;
      }
    }
  }

  /** The consumer's account stays. */
  predicate SameConsumer(d: Path, e: Path) {
    e.consumed == d.consumed && e.reached == d.reached && e.wasted == d.wasted
  }

  /** The client's side of the account and its session stay. */
  predicate SameClient(d: Path, e: Path) {
    && e.ring == d.ring && e.stored == d.stored && SameConsumer(d, e) && e.gap == d.gap
    && e.link.epoch == d.link.epoch && e.link.fwEpoch == d.link.fwEpoch
    && e.carried == d.carried
  }

  /** Bytes join the aggregate. */
  lemma ReadAccount(d: Path, e: Path, data: seq<byte>)
    requires Conserved(d) && SameClient(d, e) && e.link.responses == d.link.responses && e.emitted == d.emitted
    requires Partial(e) == Partial(d) + data && e.given == d.given + data
    ensures Conserved(e)
  {
    BothGrow(d.emitted, Partial(d), d.carried, d.given, data);
  }

  /** Bytes complete the aggregate, and it is sent. */
  lemma SendAccount(d: Path, e: Path, data: seq<byte>, r: Answer)
    requires Conserved(d) && SameClient(d, e) && e.link.responses == d.link.responses + [r]
    requires r.payload == Partial(d) + data && r.epoch == d.link.fwEpoch
    requires r.response.plSz == |r.payload| && (r.response.kind == NO_COMMAND <==> r.payload == [])
    requires Partial(e) == [] && e.given == d.given + data && e.emitted == d.emitted + r.payload
    ensures Conserved(e)
  {
    BothGrow(d.emitted, Partial(d), d.carried, d.given, data);
    SizedSnoc(d.link.responses, r);
    SentArrives(d, e, r);
    assert e.emitted + [] == e.emitted;
  }

  /** A poll reads bytes into the aggregate; the last one sends it under the firmware's session. */
  lemma TickConserves(cfg: Config, multiplier: nat, d: Path, waiting: seq<byte>)
    requires Valid(cfg, multiplier, d) && Conserved(d)
    ensures Conserved(AfterTick(cfg, multiplier, d, waiting))
  {
    var e, data := AfterTick(cfg, multiplier, d, waiting), Fetched(cfg, d, waiting);
    TickSteps(cfg, multiplier, d, waiting);
    if d.segment + 1 < multiplier {
      ReadAccount(d, e, data);
    } else {
      SendAccount(d, e, data, Answer(d.link.echo, Reply(e.link.uart), e.link.uart.pending, d.link.fwEpoch));
    }
  }

  /** What of the next answer is stored. */
  function StoredNow(d: Path): seq<byte>
    requires d.link.responses != [] && d.ring.Valid()
  {
    var payload := d.link.responses[0].payload;
    if Stores(d) then payload[..Min(|payload|, d.ring.Free())] else []
  }

  /** Everything an answer changes. */
  lemma AnswerEffect(cfg: Config, multiplier: nat, d: Path)
    requires Valid(cfg, multiplier, d) && d.link.responses != [] && Sized(d.link.responses)
    ensures var e := AfterAnswer(cfg, multiplier, d);
            && e.link.responses == d.link.responses[1..] && SameSides(d, e) && SameConsumer(d, e)
            && e.stored == d.stored + StoredNow(d) && e.ring.bytes == d.ring.bytes + StoredNow(d)
            && e.gap == (d.gap || Spoils(d))
  {
    var r := d.link.responses[0];
    assert r.payload[..Min(|r.payload|, r.response.plSz)] == r.payload;
    assert d.ring.bytes + [] == d.ring.bytes && d.stored + [] == d.stored;
  }

  /** The firmware's account and both session numbers stay. */
  predicate SameSides(d: Path, e: Path) {
    && e.emitted == d.emitted && e.carried == d.carried && e.given == d.given && Partial(e) == Partial(d)
    && e.link.epoch == d.link.epoch && e.link.fwEpoch == d.link.fwEpoch
  }

  /** An answer that leaves no gap is stored in full if it is of the session, and not at all otherwise. */
  lemma AnswerTaken(cfg: Config, d: Path)
    requires WellFormed(cfg, d.link) && SessionInv(cfg, d.link) && d.ring.Valid() && d.link.responses != []
    requires Sized(d.link.responses) && !Spoils(d)
    ensures var r := d.link.responses[0]; StoredNow(d) == if r.epoch == d.link.epoch then r.payload else []
  {
    AcceptedNow(cfg, d.link);
  }

  /** Without a gap, what the session is owed moves from the channel to what it has stored. */
  lemma SessionGrows(d: Path, e: Path, stored: seq<byte>)
    requires AllArrives(d) && d.link.responses != [] && e.link.responses == d.link.responses[1..] && SameSides(d, e)
    requires e.stored == d.stored + stored && (e.gap || !d.gap)
    requires !e.gap ==>
               stored == if d.link.responses[0].epoch == d.link.epoch then d.link.responses[0].payload else []
    ensures AllArrives(e)
  {
    var rest := Payloads(d.link.responses[1..], d.link.epoch);
    assert d.stored + (stored + rest) == d.stored + stored + rest;
  }

  /** What an arriving answer does to the account of a session. */
  lemma AnswerArrives(d: Path, e: Path, stored: seq<byte>, spoils: bool)
    requires Conserved(d) && d.link.responses != [] && e.link.responses == d.link.responses[1..] && SameSides(d, e)
    requires SameConsumer(d, e) && e.stored == d.stored + stored && e.ring.bytes == d.ring.bytes + stored
    requires e.gap == (d.gap || spoils)
    requires !spoils ==>
               stored == if d.link.responses[0].epoch == d.link.epoch then d.link.responses[0].payload else []
    ensures Conserved(e)
  {
    SizedTail(d.link.responses);
    OwedGrows(d.consumed, d.ring.bytes, d.stored, stored);
    SessionGrows(d, e, stored);
    assert AllSent(e) && AllStored(e) && AllReached(e);
  }

  lemma AnswerConserves(cfg: Config, multiplier: nat, d: Path)
    requires Valid(cfg, multiplier, d) && SessionInv(cfg, d.link) && d.link.responses != [] && Conserved(d)
    ensures Conserved(AfterAnswer(cfg, multiplier, d))
  {
    AnswerEffect(cfg, multiplier, d);
    if !Spoils(d) {
      AnswerTaken(cfg, d);
    }
    AnswerArrives(d, AfterAnswer(cfg, multiplier, d), StoredNow(d), Spoils(d));
  }

  /** Steps that touch neither the answer channel nor either end of this direction. */
  lemma OtherStepConserves(cfg: Config, multiplier: nat, d: Path, step: Step)
    requires Valid(cfg, multiplier, d) && Conserved(d)
    requires step.Poll? || step.LoseRequest? || step.Drain? || step.Fill? || step.Emit?
    ensures Conserved(AfterStep(cfg, multiplier, d, step))
  {
  }

  /** A new session, of the client or of the firmware, starts an empty account; nothing of it is on its way yet. */
  lemma NewSession(d: Path, e: Path)
    requires Sized(d.link.responses) && e.link.responses == d.link.responses && AllSent(e) && AllStored(e)
    requires AllReached(e)
    requires !e.gap ==> e.stored == Payloads(d.link.responses, e.link.epoch) == []
    requires e.link.fwEpoch == e.link.epoch ==> e.emitted == []
    ensures Conserved(e)
  {
  }

  lemma ReopenConserves(cfg: Config, multiplier: nat, d: Path)
    requires Valid(cfg, multiplier, d) && SessionInv(cfg, d.link) && Conserved(d)
    ensures Conserved(AfterStep(cfg, multiplier, d, Reopen))
  {
    if cfg.port.resetOnConnect {
      NothingYet(cfg, d, d.link.epoch + 1);
      NewSession(d, AfterStep(cfg, multiplier, d, Reopen));
    }
  }

  /** Nothing of a session is on its way before the firmware knows it. */
  lemma NothingYet(cfg: Config, d: Path, e: nat)
    requires WellFormed(cfg, d.link) && SessionInv(cfg, d.link) && d.link.fwEpoch < e
    ensures Payloads(d.link.responses, e) == []
  {
    PayloadsNone(d.link.responses, e);
  }

  /** The Reset of a session the client is already in, or has already left, starts the firmware's account. */
  lemma ResetStarts(d: Path, e: Path)
    requires Conserved(d) && d.link.fwEpoch < d.link.epoch && Payloads(d.link.responses, d.link.epoch) == []
    requires e.link.responses == d.link.responses && e.link.epoch == d.link.epoch && SameConsumer(d, e)
    requires e.ring == d.ring && e.stored == d.stored && e.gap == d.gap
    requires e.emitted == e.given == [] && e.carried == Partial(d) == Partial(e)
    ensures Conserved(e)
  {
    assert [] + Partial(d) == Partial(d) + [];
    NewSession(d, e);
  }

  lemma RequestConserves(cfg: Config, multiplier: nat, d: Path)
    requires Valid(cfg, multiplier, d) && SessionInv(cfg, d.link) && Conserved(d)
    ensures Conserved(AfterStep(cfg, multiplier, d, DeliverRequest))
  {
    if d.link.requests != [] && IsReset(d.link.requests[0]) {
      SegmentedRange(d.link.requests, d.link.fwEpoch);
      assert d.link.fwEpoch < d.link.requests[0].epoch <= d.link.epoch;
      NothingYet(cfg, d, d.link.epoch);
      ResetStarts(d, AfterStep(cfg, multiplier, d, DeliverRequest));
    }
  }

  /** Losing an answer of another session, or without payload, does not matter; losing another leaves a gap. */
  lemma LossArrives(d: Path, e: Path, j: nat)
    requires Conserved(d) && j < |d.link.responses| && e.link.responses == Without(d.link.responses, j)
    requires SameSides(d, e) && SameConsumer(d, e) && e.stored == d.stored && e.ring == d.ring
    requires e.gap == (d.gap || Owed(d.link, d.link.responses[j]))
    ensures Conserved(e)
  {
    WithoutMembers(d.link.responses, j);
    if !Owed(d.link, d.link.responses[j]) {
      PayloadsWithout(d.link.responses, j, d.link.epoch);
    }
  }

  lemma LossConserves(cfg: Config, multiplier: nat, d: Path, j: nat)
    requires Valid(cfg, multiplier, d) && Conserved(d)
    ensures Conserved(AfterStep(cfg, multiplier, d, LoseResponse(j)))
  {
    if j < |d.link.responses| {
      LossArrives(d, AfterStep(cfg, multiplier, d, LoseResponse(j)), j);
    }
  }

  lemma WorkConserves(d: Path, handle: nat, outcome: Outcome)
    requires d.ring.Valid() && Conserved(d)
    ensures Conserved(AfterWork(d, handle, outcome))
  {
    var room := Min(handle, |d.ring.bytes|);
    var used := if outcome.Wrote? then Min(outcome.n, room) else room;
    assert d.consumed + d.ring.bytes[..used] + d.ring.bytes[used..] == d.consumed + d.ring.bytes;
    assert d.consumed + [] == d.consumed;
  }

  lemma StepConserves(cfg: Config, multiplier: nat, d: Path, step: Step)
    requires Valid(cfg, multiplier, d) && SessionInv(cfg, d.link) && Conserved(d)
    ensures Conserved(AfterStep(cfg, multiplier, d, step))
  {
    match step
    case Reopen => ReopenConserves(cfg, multiplier, d);
    case DeliverRequest => RequestConserves(cfg, multiplier, d);
    case DeliverResponse =>
      if d.link.responses != [] {
        AnswerConserves(cfg, multiplier, d);
      }
    case LoseResponse(j) => LossConserves(cfg, multiplier, d, j);
    case _ => OtherStepConserves(cfg, multiplier, d, step);
  }

  lemma MoveConserves(cfg: Config, multiplier: nat, d: Path, move: Move)
    requires Valid(cfg, multiplier, d) && SessionInv(cfg, d.link) && Conserved(d)
    ensures Conserved(Next(cfg, multiplier, d, move))
  {
    match move
    case Tick(waiting) => TickConserves(cfg, multiplier, d, waiting);
    case Work(handle, outcome) => WorkConserves(d, handle, outcome);
    case Do(step) => StepConserves(cfg, multiplier, d, step);
  }

  lemma StepLink(cfg: Config, multiplier: nat, d: Path, step: Step)
    requires Valid(cfg, multiplier, d)
    ensures AfterStep(cfg, multiplier, d, step).link in {d.link, Protocol.Next(cfg, d.link, step)}
  {
  }

  /** Every move is a run of the link of at most two steps. */
  lemma MoveIsRun(cfg: Config, multiplier: nat, g: Origin, d: Path, move: Move)
    requires Valid(cfg, multiplier, d) && Inv(cfg, g, d.link)
    ensures Inv(cfg, g, Next(cfg, multiplier, d, move).link)
  {
    match move
    case Tick(waiting) =>
      var fill := Fill(d.segment == 0, waiting);
      TickSteps(cfg, multiplier, d, waiting);
      StepKeeps(cfg, g, d.link, fill);
      StepKeeps(cfg, g, Protocol.Next(cfg, d.link, fill), Emit);
    case Do(step) =>
      StepLink(cfg, multiplier, d, step);
      StepKeeps(cfg, g, d.link, step);
    case Work(_, _) =>
  }

  lemma {:induction false} RunConserves(cfg: Config, multiplier: nat, g: Origin, d: Path, moves: seq<Move>)
    requires Valid(cfg, multiplier, d) && Inv(cfg, g, d.link) && Conserved(d)
    ensures var e := Run(cfg, multiplier, d, moves); Inv(cfg, g, e.link) && Conserved(e)
    decreases |moves|
  {
    if moves != [] {
      MoveConserves(cfg, multiplier, d, moves[0]);
      MoveIsRun(cfg, multiplier, g, d, moves[0]);
      RunConserves(cfg, multiplier, g, Next(cfg, multiplier, d, moves[0]), moves[1..]);
    }
  }

  lemma StartConserves(cfg: Config, multiplier: nat, start: Path)
    requires Start(cfg, multiplier, start)
    ensures Conserved(start)
  {
    assert [] + Partial(start) == Partial(start) + [];
    PayloadsNone(start.link.responses, start.link.epoch);
  }

  /** The accounts put together. */
  lemma EndsMeet(d: Path)
    requires Conserved(d)
    ensures d.emitted + Partial(d) == d.carried + d.given && d.consumed + d.ring.bytes == d.stored
    ensures d.reached == d.consumed <==> !d.wasted
    ensures !d.gap && d.link.fwEpoch == d.link.epoch ==>
              && d.stored + Payloads(d.link.responses, d.link.epoch) + Partial(d) == d.carried + d.given
              && d.consumed <= d.carried + d.given
    ensures !d.gap && d.link.fwEpoch != d.link.epoch ==> d.stored == d.consumed == []
  {
    var coming := Payloads(d.link.responses, d.link.epoch);
    assert d.consumed <= d.stored <= d.stored + coming <= d.stored + coming + Partial(d);
  }

  /**
   UART to local client, for every run.  In the session the firmware is in, what was sent and the partial aggregate are
   what the aggregate carried over when the session began and what the UART has given since.  In the client's session,
   what `Worker` has taken out and what the ring holds are what was stored; and what was taken out has reached the local
   client if and only if `Worker` never threw a handle away.  And unless something left a gap (a payload of the session
   lost, or arriving while no local client was attached, or not fitting the ring, or one let in from another session),
   once the firmware is in the client's session what was stored, the payloads on their way and the partial aggregate
   are, in order, those bytes; before that nothing has been stored.
   */
  lemma UartToClient(cfg: Config, multiplier: nat, start: Path, moves: seq<Move>)
    requires Start(cfg, multiplier, start)
    ensures var d := Run(cfg, multiplier, start, moves);
            && d.emitted + Partial(d) == d.carried + d.given
            && d.consumed + d.ring.bytes == d.stored
            && (d.reached == d.consumed <==> !d.wasted)
            && (!d.gap && d.link.fwEpoch == d.link.epoch ==>
                  && d.stored + Payloads(d.link.responses, d.link.epoch) + Partial(d) == d.carried + d.given
                  && d.consumed <= d.carried + d.given && (!d.wasted ==> d.reached <= d.carried + d.given))
            && (!d.gap && d.link.fwEpoch != d.link.epoch ==> d.stored == d.consumed == [])
  {
    StartInv(cfg, start.link);
    StartConserves(cfg, multiplier, start);
    RunConserves(cfg, multiplier, OriginOf(cfg, start.link), start, moves);
    EndsMeet(Run(cfg, multiplier, start, moves));
  }

  /**
   A local client that is not ready in time loses the handle, and gets what comes after it: from any state in which it
   has got everything so far, two bytes that differ are enough for what it has got to be no prefix of what was stored,
   while nothing is missing anywhere before the ring.
   */
  lemma TimeoutSkips(cfg: Config, multiplier: nat, d: Path)
    requires Valid(cfg, multiplier, d) && Conserved(d) && !d.wasted
    requires |d.ring.bytes| >= 2 && d.ring.bytes[0] != d.ring.bytes[1]
    ensures var e := Run(cfg, multiplier, d, [Work(1, TimedOut), Work(1, Wrote(1))]);
            && e.reached == d.reached + [d.ring.bytes[1]] && !(e.reached <= e.stored)
            && e.stored == d.stored && e.gap == d.gap && e.wasted
  {
    var x, y := Work(1, TimedOut), Work(1, Wrote(1));
    var d1 := Next(cfg, multiplier, d, x);
    var d2 := Next(cfg, multiplier, d1, y);
    assert [x, y][1..] == [y] && [y][1..] == [];
    assert Run(cfg, multiplier, d, [x, y]) == Run(cfg, multiplier, d1, [y]) == Run(cfg, multiplier, d2, []);
    assert d1.ring.bytes == d.ring.bytes[1..] && d1.ring.bytes[..1] == [d.ring.bytes[1]];
    var n := |d.consumed|;
    assert d.stored[n] == d.ring.bytes[0] && d2.reached[n] == d.ring.bytes[1];
  }
}

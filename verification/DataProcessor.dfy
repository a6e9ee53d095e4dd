/**
 The client's per-port loops (Client/Src/DataProcessor.cpp): a poll asks every port for its request, writes commands and
 payloads into the package and sends it; an incoming package is split over the ports again.
 */
module DataProcessor {
  import opened Bytes
  import opened Command
  import opened PortWorker
  import opened Receive
  import opened RingBuffer
  import opened SeqWindow
  import opened UartWorker
  import opened Wire

  // ---------------------------------------------------------------- what a poll asks of a port

  /** A port about to be polled, and what its local client has for it. */
  datatype Asked = Asked(port: Port, settings: Settings, speed: bv32, input: Read)
  {
    predicate Valid() { settings.payloadSize < 0x100 }

    function Request(counter: nat): Command.Request
      requires Valid()
    {
      Polled(port, settings, counter, input).1
    }

    function After(counter: nat): Port
      requires Valid()
    {
      Polled(port, settings, counter, input).0
    }

    function Payload(counter: nat): (payload: seq<byte>)
      requires Valid()
      ensures |payload| == Request(counter).plSz
    {
      if Request(counter).kind == DATA then Taken(port, settings, input)
      else if Request(counter).kind == OPEN then U32Bytes(speed)
      else []
    }
  }

  /** The first request of a connected port opens it: the other side's port is then open if and only if mode and speed
      are configured, and in that mode. */
  lemma FirstRequestOpens(a: Asked, counter: nat, u: Uart, slot: seq<byte>)
    requires a.Valid() && a.port.connected && a.port.openPending && u.Valid()
    requires |slot| >= a.Request(counter).plSz && slot[..a.Request(counter).plSz] == a.Payload(counter)
    ensures a.Request(counter).kind == OPEN && |slot| >= 4 && !a.After(counter).openPending
    ensures var v := Handled(u, a.Request(counter), slot);
            && (v.IsOpen() <==> a.settings.mode < 0xFF && a.speed != 0)
            && (v.IsOpen() ==> v.mode == a.settings.mode)
  {
    OpenSetsMode(u, a.Request(counter), slot, a.speed);
  }

  ghost predicate AllValid(asked: seq<Asked>) {
    forall i :: 0 <= i < |asked| ==> asked[i].Valid()
  }

  ghost function Requests(asked: seq<Asked>, counter: nat): (r: seq<Request>)
    requires AllValid(asked)
    ensures |r| == |asked|
  {
    seq(|asked|, i requires 0 <= i < |asked| => asked[i].Request(counter))
  }

  ghost function Payloads(asked: seq<Asked>, counter: nat): (r: seq<seq<byte>>)
    requires AllValid(asked)
    ensures |r| == |asked|
  {
    seq(|asked|, i requires 0 <= i < |asked| => asked[i].Payload(counter))
  }

  ghost function Ask(port: PortWorker, input: Read): Asked
    reads port, port.tracker
  {
    Asked(port.View(), port.settings, port.speed, input)
  }

  // ---------------------------------------------------------------- the poll

  ghost predicate Ready(l: Layout, port: PortWorker, counter: nat, txBuff: array<byte>)
    reads port, port.tracker, port.rxRingBuff, port.rxRingBuff.storage
  {
    && port.Valid() && port.settings.payloadSize == l.payloadSz && l.payloadSz >= 4
    && counter > port.tracker.last && txBuff != port.rxRingBuff.storage
  }

  /** A port writes its payload into its own slot and nowhere else. */
  lemma SlotFilled(l: Layout, a: seq<byte>, b: seq<byte>, i: nat, payload: seq<byte>)
    requires |a| == |b| == l.PackageSize() && i < l.ports && |payload| <= l.payloadSz
    requires l.PortOffset(i) + l.payloadSz <= |a|
    requires a[..l.PortOffset(i)] == b[..l.PortOffset(i)]
    requires a[l.PortOffset(i) + l.payloadSz..] == b[l.PortOffset(i) + l.payloadSz..]
    requires b[l.PortOffset(i)..l.PortOffset(i) + |payload|] == payload
    ensures Field(l, b, Payload(i))[..|payload|] == payload
    ensures forall q | Exists(l, q) && q != Payload(i) :: Field(l, b, q) == Field(l, a, q)
  {
    RegionInside(l, Payload(i));
    FieldsOutside(l, a, b, Payload(i));
  }

  /** The port's part of a turn: it writes into its own payload slot. */
  method FillSlot(l: Layout, port: PortWorker, i: nat, counter: nat, input: Read, txBuff: array<byte>)
    returns (request: Request)
    requires txBuff.Length == l.PackageSize() && i < l.ports && Ready(l, port, counter, txBuff)
    modifies port, port.tracker, txBuff
    ensures port.Valid() && port.View() == old(Ask(port, input)).After(counter)
    ensures request == old(Ask(port, input)).Request(counter) && request.plSz <= l.payloadSz
    ensures Field(l, txBuff[..], Payload(i))[..request.plSz] == old(Ask(port, input)).Payload(counter)
    ensures forall q | Exists(l, q) && q != Payload(i) :: Field(l, txBuff[..], q) == old(Field(l, txBuff[..], q))
  {
    ghost var before := txBuff[..];
    RegionInside(l, Payload(i));
    ghost var payload := Ask(port, input).Payload(counter);
    request := port.ProcessTX(counter, input, txBuff, l.PortOffset(i));
    SlotFilled(l, before, txBuff[..], i, payload);
  }

  /** One turn of the poll loop. */
  method PollPort(l: Layout, port: PortWorker, i: nat, counter: nat, input: Read, txBuff: array<byte>)
    returns (request: Request)
    requires txBuff.Length == l.PackageSize() && i < l.ports && Ready(l, port, counter, txBuff)
    modifies port, port.tracker, txBuff
    ensures port.Valid() && port.View() == old(Ask(port, input)).After(counter)
    ensures request == old(Ask(port, input)).Request(counter) && request.plSz <= l.payloadSz
    ensures SlotOf(Field(l, txBuff[..], Slot(i))) == request
    ensures Field(l, txBuff[..], Payload(i))[..request.plSz] == old(Ask(port, input)).Payload(counter)
    ensures forall q | Exists(l, q) && q != Slot(i) && q != Payload(i) ::
              Field(l, txBuff[..], q) == old(Field(l, txBuff[..], q))
  {
    request := FillSlot(l, port, i, counter, input, txBuff);
    SlotRoundTrip(request);
    WriteField(l, txBuff, Slot(i), SlotBytes(request));
    assert Field(l, txBuff[..], Slot(i)) == SlotBytes(request);
  }

  /** A port's command and payload join those already written. */
  lemma DecodesMore(l: Layout, a: seq<byte>, b: seq<byte>, asked: seq<Asked>, counter: nat, i: nat)
    requires |a| == |b| == l.PackageSize() && i < l.ports == |asked| && AllValid(asked)
    requires Decodes(l, a, Requests(asked, counter), Payloads(asked, counter), i)
    requires forall q | Exists(l, q) && q != Slot(i) && q != Payload(i) :: Field(l, b, q) == Field(l, a, q)
    requires SlotOf(Field(l, b, Slot(i))) == asked[i].Request(counter)
    requires asked[i].Request(counter).plSz <= l.payloadSz
    requires Field(l, b, Payload(i))[..asked[i].Request(counter).plSz] == asked[i].Payload(counter)
    ensures Decodes(l, b, Requests(asked, counter), Payloads(asked, counter), i + 1)
  {
    DecodesSame(l, a, b, Requests(asked, counter), Payloads(asked, counter), i);
  }

  /** Two ports share neither handler nor tracker, and no port's ring is the package. */
  ghost predicate Separate(ports: seq<PortWorker>, txBuff: array<byte>) {
    && (forall i, j :: 0 <= i < j < |ports| ==> ports[i] != ports[j] && ports[i].tracker != ports[j].tracker)
    && (forall i :: 0 <= i < |ports| ==> txBuff != ports[i].rxRingBuff.storage)
  }

  ghost predicate ToBeAsked(l: Layout, port: PortWorker, input: Read, counter: nat, txBuff: array<byte>, asked: Asked)
    reads port, port.tracker, port.rxRingBuff, port.rxRingBuff.storage
  {
    Ready(l, port, counter, txBuff) && Ask(port, input) == asked
  }

  ghost predicate WasAsked(port: PortWorker, counter: nat, asked: Asked)
    requires asked.Valid()
    reads port, port.tracker, port.rxRingBuff, port.rxRingBuff.storage
  {
    port.Valid() && port.View() == asked.After(counter)
  }

  /** The ports from `i` on are still to be asked. */
  ghost predicate ToAsk(l: Layout, ports: seq<PortWorker>, inputs: seq<Read>, counter: nat, txBuff: array<byte>,
                        asked: seq<Asked>, i: nat)
    requires |ports| == |inputs| == |asked|
    reads ports, set p | p in ports :: p.tracker
    reads set p | p in ports :: p.rxRingBuff
    reads set p | p in ports :: p.rxRingBuff.storage
  {
    forall k :: i <= k < |ports| ==> ToBeAsked(l, ports[k], inputs[k], counter, txBuff, asked[k])
  }

  /** The ports before `i` have been asked. */
  ghost predicate HaveAsked(ports: seq<PortWorker>, counter: nat, asked: seq<Asked>, i: nat)
    requires i <= |ports| == |asked| && AllValid(asked)
    reads ports, set p | p in ports :: p.tracker
    reads set p | p in ports :: p.rxRingBuff
    reads set p | p in ports :: p.rxRingBuff.storage
  {
    forall k :: 0 <= k < i ==> WasAsked(ports[k], counter, asked[k])
  }

  ghost predicate Sized(l: Layout, ports: seq<PortWorker>, inputs: seq<Read>, asked: seq<Asked>, txBuff: array<byte>) {
    txBuff.Length == l.PackageSize() && |ports| == |inputs| == |asked| == l.ports && AllValid(asked)
  }

  /** The poll loop has come to port `i`: the ports before it have been asked, and what they answered is in the package;
      the others are still to be asked. */
  ghost predicate Polling(l: Layout, ports: seq<PortWorker>, inputs: seq<Read>, counter: nat, asked: seq<Asked>,
                          txBuff: array<byte>, i: nat)
    requires Sized(l, ports, inputs, asked, txBuff)
    reads txBuff, ports, set p | p in ports :: p.tracker
    reads set p | p in ports :: p.rxRingBuff
    reads set p | p in ports :: p.rxRingBuff.storage
  {
    && i <= |ports| && Separate(ports, txBuff)
    && ToAsk(l, ports, inputs, counter, txBuff, asked, i) && HaveAsked(ports, counter, asked, i)
    && Decodes(l, txBuff[..], Requests(asked, counter), Payloads(asked, counter), i)
  }

  method PollNext(l: Layout, ports: seq<PortWorker>, inputs: seq<Read>, counter: nat, ghost asked: seq<Asked>,
                  i: nat, txBuff: array<byte>) returns (request: Request)
    requires Sized(l, ports, inputs, asked, txBuff)
    requires Polling(l, ports, inputs, counter, asked, txBuff, i) && i < |ports|
    modifies ports[i], ports[i].tracker, txBuff
    ensures Polling(l, ports, inputs, counter, asked, txBuff, i + 1)
    ensures request == asked[i].Request(counter)
  {
    ghost var before := txBuff[..];
    request := PollPort(l, ports[i], i, counter, inputs[i], txBuff);
    forall k | 0 <= k < |ports| && k != i
      ensures ports[k] != ports[i] && ports[k].tracker != ports[i].tracker
    {
    }
    forall k | i < k < |ports|
      ensures ToBeAsked(l, ports[k], inputs[k], counter, txBuff, asked[k])
    {
      assert old(ToBeAsked(l, ports[k], inputs[k], counter, txBuff, asked[k]));
    }
    forall k | 0 <= k < i
      ensures WasAsked(ports[k], counter, asked[k])
    {
      assert old(WasAsked(ports[k], counter, asked[k]));
    }
    DecodesMore(l, before, txBuff[..], asked, counter, i);
  }

  /** The counter field, after the loop. */
  method PutCounter(l: Layout, ports: seq<PortWorker>, inputs: seq<Read>, counter: nat, ghost asked: seq<Asked>,
                    txBuff: array<byte>, value: bv32)
    requires Sized(l, ports, inputs, asked, txBuff)
    requires Polling(l, ports, inputs, counter, asked, txBuff, |ports|)
    modifies txBuff
    ensures Polling(l, ports, inputs, counter, asked, txBuff, |ports|)
    ensures CounterOf(Field(l, txBuff[..], Counter)) == value
  {
    ghost var before := txBuff[..];
    WriteCounter(l, txBuff, value);
    DecodesSame(l, before, txBuff[..], Requests(asked, counter), Payloads(asked, counter), |ports|);
  }

  /** Whether one of the first `n` requests asks for TCP, and whether one opens a port. */
  predicate Triggered(requests: seq<Request>, n: nat, useTCP: bool, openTriggered: bool)
    requires n <= |requests|
  {
    && (useTCP <==> AnyOf(requests, n, {OPEN, CLOSE, RESET}))
    && (openTriggered <==> AnyOf(requests, n, {OPEN}))
  }

  lemma TriggeredNext(requests: seq<Request>, n: nat, useTCP: bool, openTriggered: bool)
    requires n < |requests| && Triggered(requests, n, useTCP, openTriggered)
    ensures var kind := requests[n].kind;
            Triggered(requests, n + 1, useTCP || kind == OPEN || kind == CLOSE || kind == RESET,
                      openTriggered || kind == OPEN)
  {
    AnyOfNext(requests, n, {OPEN, CLOSE, RESET});
    AnyOfNext(requests, n, {OPEN});
  }

  /** The loop: does any port ask for TCP, is any port opened. */
  method PollPorts(l: Layout, ports: seq<PortWorker>, inputs: seq<Read>, counter: nat, ghost asked: seq<Asked>,
                   txBuff: array<byte>) returns (useTCP: bool, openTriggered: bool)
    requires Sized(l, ports, inputs, asked, txBuff)
    requires Polling(l, ports, inputs, counter, asked, txBuff, 0)
    modifies ports, set p | p in ports :: p.tracker
    modifies txBuff
    ensures Polling(l, ports, inputs, counter, asked, txBuff, |ports|)
    ensures Triggered(Requests(asked, counter), l.ports, useTCP, openTriggered)
  {
    ghost var requests := Requests(asked, counter);
    useTCP, openTriggered := false, false;
    for i := 0 to |ports|
      invariant Polling(l, ports, inputs, counter, asked, txBuff, i)
      invariant Triggered(requests, i, useTCP, openTriggered)
    {
      assert ports[i] in ports;
      var request := PollNext(l, ports, inputs, counter, asked, i, txBuff);
      TriggeredNext(requests, i, useTCP, openTriggered);
      useTCP := useTCP || request.kind == OPEN || request.kind == CLOSE || request.kind == RESET;
      openTriggered := openTriggered || request.kind == OPEN;
    }
  }

  /** The counter field holds the poll interval if a port is opened, and the event's counter otherwise. */
  predicate Stamped(l: Layout, package: seq<byte>, requests: seq<Request>, pollInterval: bv32, counter: nat) {
    && |package| == l.PackageSize() && |requests| == l.ports
    && var field := Field(l, package, Counter);
       if AnyOf(requests, l.ports, {OPEN}) then CounterOf(field) == pollInterval
       else NumberOf(field) == counter % 0x1_0000_0000
  }

  /**
   The poll of all ports.  Every port goes through one poll with the event's counter; the package holds its command and
   its payload; the counter field holds the event's counter, or the remote poll interval when a port is opened; and TCP
   is used when a port is opened, closed or reset, or UDP is off.
   */
  method OnPollEvent(l: Layout, ports: seq<PortWorker>, inputs: seq<Read>, counter: nat, ghost asked: seq<Asked>,
                     pollInterval: bv32, udpEnabled: bool, txBuff: array<byte>) returns (useTCP: bool)
    requires Sized(l, ports, inputs, asked, txBuff)
    requires Polling(l, ports, inputs, counter, asked, txBuff, 0)
    modifies ports, set p | p in ports :: p.tracker
    modifies txBuff
    ensures Polling(l, ports, inputs, counter, asked, txBuff, |ports|)
    ensures Stamped(l, txBuff[..], Requests(asked, counter), pollInterval, counter)
    ensures useTCP <==> !udpEnabled || AnyOf(Requests(asked, counter), l.ports, {OPEN, CLOSE, RESET})
  {
    var openTriggered;
    useTCP, openTriggered := PollPorts(l, ports, inputs, counter, asked, txBuff);
    PutCounter(l, ports, inputs, counter, asked, txBuff, if openTriggered then pollInterval else Low32(counter));
    if !openTriggered {
      CounterReadsBack(Field(l, txBuff[..], Counter), counter);
    }
    if !udpEnabled {
      useTCP := true;
    }
  }

  /** The package passes the receivers' checksum test and carries the header number. */
  predicate Sealed(l: Layout, package: seq<byte>, header: u16) {
    |package| == l.PackageSize() && CrcOk(Shape(l.PackageSize(), l.MetaSz()), package) && HeaderField(package) == header
  }

  /**
   A whole request package, from the ports to the wire: it passes the receivers' checksum test, carries the transport's
   header number, and the other side reads every port's command and payload and the counter as they went in.
   */
  method SendPackage(l: Layout, ports: seq<PortWorker>, inputs: seq<Read>, counter: nat, ghost asked: seq<Asked>,
                     pollInterval: bv32, udpEnabled: bool, header: u16, txBuff: array<byte>) returns (useTCP: bool)
    requires Sized(l, ports, inputs, asked, txBuff)
    requires Polling(l, ports, inputs, counter, asked, txBuff, 0)
    modifies ports, set p | p in ports :: p.tracker
    modifies txBuff
    ensures Sealed(l, txBuff[..], header)
    ensures Polling(l, ports, inputs, counter, asked, txBuff, |ports|)
    ensures Stamped(l, txBuff[..], Requests(asked, counter), pollInterval, counter)
    ensures useTCP <==> !udpEnabled || AnyOf(Requests(asked, counter), l.ports, {OPEN, CLOSE, RESET})
  {
    useTCP := OnPollEvent(l, ports, inputs, counter, asked, pollInterval, udpEnabled, txBuff);
    Seal(l, ports, inputs, counter, asked, txBuff, header);
  }

  method Seal(l: Layout, ports: seq<PortWorker>, inputs: seq<Read>, counter: nat, ghost asked: seq<Asked>,
              txBuff: array<byte>, header: u16)
    requires Sized(l, ports, inputs, asked, txBuff)
    requires Polling(l, ports, inputs, counter, asked, txBuff, |ports|)
    modifies txBuff
    ensures Polling(l, ports, inputs, counter, asked, txBuff, |ports|)
    ensures Sealed(l, txBuff[..], header)
    ensures Field(l, txBuff[..], Counter) == old(Field(l, txBuff[..], Counter))
  {
    ghost var before := txBuff[..];
    SealPackage(l, txBuff, header);
    DecodesSame(l, before, txBuff[..], Requests(asked, counter), Payloads(asked, counter), |ports|);
  }

  // ---------------------------------------------------------------- an incoming package

  /** What a response does to a port and its receive ring. */
  datatype Told = Told(port: Port, ring: Queue)
  {
    function After(counter: nat, response: Response, payload: seq<byte>): Told
      requires ring.Valid() && response.plSz <= |payload|
    {
      Told(Confirmed(port, counter, response.arg),
           if Accepts(port, response.arg) && response.kind != NO_COMMAND
           then Enqueued(ring, payload[..response.plSz]) else ring)
    }
  }

  /** `Response::Map`, apart from the counter. */
  function ResponseOf(l: Layout, package: seq<byte>, i: nat): Response
    requires |package| == l.PackageSize() && i < l.ports
  {
    var c := SlotOf(Field(l, package, Slot(i)));
    Response(c.kind, c.arg, c.plSz)
  }

  /** The package from a port's payload slot on. */
  function PayloadFrom(l: Layout, package: seq<byte>, i: nat): (payload: seq<byte>)
    requires |package| == l.PackageSize() && i < l.ports
    ensures |payload| >= l.payloadSz && payload[..l.payloadSz] == Field(l, package, Payload(i))
  {
    RegionInside(l, Payload(i));
    package[l.PortOffset(i)..]
  }

  ghost predicate Is(port: PortWorker, told: Told)
    reads port, port.tracker, port.rxRingBuff, port.rxRingBuff.storage
  {
    port.Valid() && port.View() == told.port && port.rxRingBuff.queue == told.ring
  }

  /** No two ports share an object. */
  ghost predicate Apart(ports: seq<PortWorker>) {
    forall i, j :: 0 <= i < j < |ports| ==>
      && ports[i] != ports[j] && ports[i].tracker != ports[j].tracker && ports[i].rxRingBuff != ports[j].rxRingBuff
      && ports[i].rxRingBuff.storage != ports[j].rxRingBuff.storage
  }

  /** The package can be read: no response claims more payload than the package holds. */
  predicate Readable(l: Layout, package: seq<byte>) {
    && |package| == l.PackageSize()
    && forall i: nat :: i < l.ports ==> ResponseOf(l, package, i).plSz <= |PayloadFrom(l, package, i)|
  }

  /** The ports before `i` have been told, the others not yet. */
  ghost predicate Telling(l: Layout, ports: seq<PortWorker>, told: seq<Told>, counter: nat, package: seq<byte>, i: nat)
    reads ports, set p | p in ports :: p.tracker
    reads set p | p in ports :: p.rxRingBuff
    reads set p | p in ports :: p.rxRingBuff.storage
  {
    && Readable(l, package) && i <= |ports| == |told| == l.ports && Apart(ports)
    && (forall k :: 0 <= k < |ports| ==> told[k].ring.Valid())
    && (forall k :: 0 <= k < i ==>
          Is(ports[k], told[k].After(counter, ResponseOf(l, package, k), PayloadFrom(l, package, k))))
    && (forall k :: i <= k < |ports| ==> Is(ports[k], told[k]))
  }

  method TellPort(port: PortWorker, ghost told: Told, counter: nat, response: Response, payload: seq<byte>)
    requires told.ring.Valid() && response.plSz <= |payload| && Is(port, told)
    modifies port, port.tracker, port.rxRingBuff, port.rxRingBuff.storage
    ensures Is(port, told.After(counter, response, payload))
  {
    port.ProcessRX(counter, response, payload);
  }

  method TellNext(l: Layout, ports: seq<PortWorker>, ghost told: seq<Told>, counter: nat, package: seq<byte>, i: nat)
    requires Telling(l, ports, told, counter, package, i) && i < |ports|
    modifies ports[i], ports[i].tracker, ports[i].rxRingBuff, ports[i].rxRingBuff.storage
    ensures Telling(l, ports, told, counter, package, i + 1)
  {
    TellPort(ports[i], told[i], counter, ResponseOf(l, package, i), PayloadFrom(l, package, i));
    forall k | 0 <= k < |ports| && k != i
      ensures ports[k] != ports[i] && ports[k].tracker != ports[i].tracker
      ensures ports[k].rxRingBuff != ports[i].rxRingBuff && ports[k].rxRingBuff.storage != ports[i].rxRingBuff.storage
    {
    }
    forall k | i < k < |ports|
      ensures Is(ports[k], told[k])
    {
      assert old(Is(ports[k], told[k]));
    }
    forall k | 0 <= k < i
      ensures Is(ports[k], told[k].After(counter, ResponseOf(l, package, k), PayloadFrom(l, package, k)))
    {
      assert old(Is(ports[k], told[k].After(counter, ResponseOf(l, package, k), PayloadFrom(l, package, k))));
    }
  }

  /** A package that carries responses and, for each port, its payload. */
  ghost predicate Answers(l: Layout, package: seq<byte>, responses: seq<Response>, payloads: seq<seq<byte>>) {
    InPlace(l, package, responses, payloads) && Carries(l, package, responses, l.ports)
  }

  /** The payloads are in their slots. */
  ghost predicate InPlace(l: Layout, package: seq<byte>, responses: seq<Response>, payloads: seq<seq<byte>>) {
    && |package| == l.PackageSize() && |responses| == |payloads| == l.ports
    && forall i: nat :: i < l.ports ==>
         responses[i].plSz <= |payloads[i]| <= l.payloadSz
         && Field(l, package, Payload(i))[..|payloads[i]|] == payloads[i]
  }

  /** Each port is given its own response and, of its own payload, as many bytes as that response says. */
  lemma AnswerIsSplit(l: Layout, package: seq<byte>, responses: seq<Response>, payloads: seq<seq<byte>>, i: nat)
    requires Answers(l, package, responses, payloads) && i < l.ports
    ensures ResponseOf(l, package, i) == responses[i]
    ensures responses[i].plSz <= |PayloadFrom(l, package, i)|
    ensures PayloadFrom(l, package, i)[..responses[i].plSz] == payloads[i][..responses[i].plSz]
  {
    var n, all := responses[i].plSz, PayloadFrom(l, package, i);
    assert all[..n] == all[..l.payloadSz][..|payloads[i]|][..n];
  }

  /** A port after a response: confirmed by it, and with its bytes in the ring if they are for the current client. */
  ghost predicate Heard(port: PortWorker, told: Told, counter: nat, response: Response, data: seq<byte>)
    requires told.ring.Valid()
    reads port, port.tracker, port.rxRingBuff, port.rxRingBuff.storage
  {
    && port.Valid() && port.View() == Confirmed(told.port, counter, response.arg)
    && port.rxRingBuff.queue == if told.port.attached && told.port.session == SessionOf(response.arg)
                                   && response.kind != NO_COMMAND
                                then Enqueued(told.ring, data) else told.ring
  }

  /**
   An incoming package: every port is confirmed by the one counter of the package and its own response, and takes the
   bytes of its own slot, and of no other, when it accepts them.  Whatever responses and payloads went into the package,
   those are what the ports get.
   */
  method OnIncomingPackageEvent(l: Layout, ports: seq<PortWorker>, ghost told: seq<Told>, counter: nat,
                                package: seq<byte>, ghost responses: seq<Response>, ghost payloads: seq<seq<byte>>)
    requires Telling(l, ports, told, counter, package, 0) && CounterOf(Field(l, package, Counter)) == Low32(counter)
    modifies ports, set p | p in ports :: p.tracker
    modifies set p | p in ports :: p.rxRingBuff
    modifies set p | p in ports :: p.rxRingBuff.storage
    ensures Telling(l, ports, told, counter, package, |ports|)
    ensures Answers(l, package, responses, payloads) ==>
              forall i :: 0 <= i < |ports| ==>
                Heard(ports[i], told[i], counter, responses[i], payloads[i][..responses[i].plSz])
  {
    for i := 0 to |ports|
      invariant Telling(l, ports, told, counter, package, i)
    {
      assert ports[i] in ports;
      TellNext(l, ports, told, counter, package, i);
    }
    if Answers(l, package, responses, payloads) {
      forall i | 0 <= i < |ports|
        ensures Heard(ports[i], told[i], counter, responses[i], payloads[i][..responses[i].plSz])
      {
        AnswerIsSplit(l, package, responses, payloads, i);
      }
    }
  }

  lemma AnswersReadable(l: Layout, package: seq<byte>, responses: seq<Response>, payloads: seq<seq<byte>>)
    requires Answers(l, package, responses, payloads)
    ensures Readable(l, package)
  {
    forall i: nat | i < l.ports
      ensures ResponseOf(l, package, i).plSz <= |PayloadFrom(l, package, i)|
    {
      AnswerIsSplit(l, package, responses, payloads, i);
    }
  }

  /** The firmware's part. */
  method FinishAnswer(l: Layout, txBuff: array<byte>, responses: seq<Response>, header: u16,
                      ghost payloads: seq<seq<byte>>)
    requires txBuff.Length == l.PackageSize() && InPlace(l, txBuff[..], responses, payloads)
    modifies txBuff
    ensures Answers(l, txBuff[..], responses, payloads) && Sealed(l, txBuff[..], header)
    ensures Field(l, txBuff[..], Counter) == old(Field(l, txBuff[..], Counter))
  {
    SendAnswer(l, txBuff, responses, header);
  }

  /**
   From the firmware's answer to the client's ports.  The payloads are in their slots and the counter in its field; the
   responses are written over the commands and the package is sealed.  It passes the client's checksum test, and when
   the client has split it every port has heard its own response and payload.
   */
  method AnswerReachesPorts(l: Layout, txBuff: array<byte>, responses: seq<Response>, header: u16,
                            ports: seq<PortWorker>, ghost told: seq<Told>, counter: nat,
                            ghost payloads: seq<seq<byte>>)
    requires txBuff.Length == l.PackageSize() && InPlace(l, txBuff[..], responses, payloads)
    requires CounterOf(Field(l, txBuff[..], Counter)) == Low32(counter)
    requires |ports| == |told| == l.ports && Apart(ports)
    requires forall k :: 0 <= k < |ports| ==>
               told[k].ring.Valid() && Is(ports[k], told[k]) && txBuff != ports[k].rxRingBuff.storage
    modifies txBuff, ports, set p | p in ports :: p.tracker
    modifies set p | p in ports :: p.rxRingBuff
    modifies set p | p in ports :: p.rxRingBuff.storage
    ensures Sealed(l, txBuff[..], header)
    ensures forall i :: 0 <= i < |ports| ==>
              Heard(ports[i], told[i], counter, responses[i], payloads[i][..responses[i].plSz])
  {
    FinishAnswer(l, txBuff, responses, header, payloads);
    var package := txBuff[..];
    AnswersReadable(l, package, responses, payloads);
    OnIncomingPackageEvent(l, ports, told, counter, package, responses, payloads);
  }
}

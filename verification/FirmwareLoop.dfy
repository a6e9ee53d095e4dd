/**
 The whole firmware `loop` (Firmware/UARTEthernetBridge/main_loop.cpp) of a board with one UART: TCP, then UDP with
 TCP's event, the request, the drain, the poll, and the answer over UDP if possible and over TCP otherwise, all on the
 two shared package buffers.
 */
module FirmwareLoop {
  import opened Bytes
  import opened Command
  import opened UartWorker
  import opened SeqWindow
  import opened Receive
  import opened Timer
  import opened Uplink
  import opened Wire

  datatype Transport = ByUdp(number: u16) | ByTcp

  /** The answer's transport and the sequence number the UDP server holds afterwards; `begun` is whether a datagram can
      be started. */
  function Chosen(udp: Udp, begun: bool): (Transport, u16) {
    if udp.serverStarted && udp.clientUDPPort >= 1 && begun
    then (ByUdp(udp.clientSeq), Cast16(udp.clientSeq + 1)) else (ByTcp, udp.clientSeq)
  }

  /** What sending, or not sending, an answer does to the UDP server. */
  predicate Sent(before: Udp, after: Udp, begun: bool, transport: Option<Transport>) {
    && after == before.(clientSeq := after.clientSeq)
    && (if transport.Some? then (transport.value, after.clientSeq) == Chosen(before, begun)
        else after.clientSeq == before.clientSeq)
  }

  /** What the network part of a turn leaves: TCP server, UDP server, receive buffer, TCP's event, the turn's event. */
  datatype Received = Received(tcp: Tcp, udp: Udp, buff: seq<byte>, tcpEvent: Event, event: Event)

  function Receiving(shape: Shape, tcp: Tcp, udp: Udp, buff: seq<byte>, net: Net): (r: Received)
    requires shape.Valid() && |buff| == shape.pkgSz && tcp.pkgLeft <= shape.pkgSz
    ensures |r.buff| == shape.pkgSz
  {
    var t := TcpTurn(shape, tcp, buff, net);
    var u := UdpTurn(shape, udp, t.1, t.2, net);
    Received(t.0, u.0, u.1, t.2, u.2)
  }

  /** What TCP's event means for polling. */
  function AfterEvent(c: Control, tcpEvent: Event, defaultInterval: u32, now: nat): Control {
    if tcpEvent.Connected? then Joined(c, defaultInterval, now)
    else if tcpEvent.Disconnected? then Parted(c, defaultInterval, now)
    else c
  }

  /** The request of a package for the one port. */
  function RequestOf(l: Layout, buff: seq<byte>): Request
    requires |buff| == l.PackageSize() && l.ports == 1
  {
    SlotOf(Field(l, buff, Slot(0)))
  }

  function Requested(l: Layout, buff: seq<byte>, event: Event): Option<Request>
    requires |buff| == l.PackageSize() && l.ports == 1
  {
    if event.NewRequest? then Some(RequestOf(l, buff)) else None
  }

  /** The command and the payload that a client has put into a package for the port are what the port is given. */
  lemma RequestIsRead(l: Layout, buff: seq<byte>, requests: seq<Request>, payloads: seq<seq<byte>>)
    requires |buff| == l.PackageSize() && l.ports == |requests| == |payloads| == 1
    requires Decodes(l, buff, requests, payloads, 1)
    ensures RequestOf(l, buff) == requests[0] && l.PortOffset(0) + |payloads[0]| <= |buff|
    ensures buff[l.PortOffset(0)..][..|payloads[0]|] == payloads[0]
  {
    RegionInside(l, Payload(0));
    assert Field(l, buff, Payload(0))[..|payloads[0]|] == buff[l.PortOffset(0)..][..|payloads[0]|];
  }

  /** The request of a turn, if there is one, in the counter field and the poll timer. */
  function Asked(c: Control, l: Layout, buff: seq<byte>, event: Event, multiplier: nat, now: nat): Control
    requires |buff| == l.PackageSize() && l.ports == 1 && multiplier > 0
  {
    if event.NewRequest? then Counted(c, Field(l, buff, Counter), multiplier, now) else c
  }

  /** What a board holds beside its port: servers, receive buffer, flags and timer. */
  datatype Desk = Desk(tcp: Tcp, udp: Udp, buff: seq<byte>, control: Control)

  /** A turn of `loop` apart from the port, and whether and how it answers: `now` is when the connection and the request
      are looked at, `later` when the poll timer is. */
  function Played(l: Layout, multiplier: nat, defaultInterval: u32, d: Desk, net: Net, now: nat, later: nat,
                  begun: bool): (r: (Desk, Option<Transport>))
    requires l.ports == 1 && multiplier > 0 && |d.buff| == l.PackageSize() && d.tcp.pkgLeft <= l.PackageSize()
    ensures |r.0.buff| == l.PackageSize() && r.0.tcp.pkgLeft <= l.PackageSize()
  {
    var r := Receiving(Shape(l.PackageSize(), l.MetaSz()), d.tcp, d.udp, d.buff, net);
    var c := Asked(AfterEvent(d.control, r.tcpEvent, defaultInterval, now), l, r.buff, r.event, multiplier, now);
    var after := Timed(c, multiplier, later);
    if IsDue(c, later) && after.segment == 0 && c.connected
    then
      var (transport, clientSeq) := Chosen(r.udp, begun);
      (Desk(r.tcp, r.udp.(clientSeq := clientSeq), r.buff, after), Some(transport))
    else (Desk(r.tcp, r.udp, r.buff, after), None)
  }

  /** A payload field that stays keeps the aggregate in it. */
  lemma AggregateKept(l: Layout, before: seq<byte>, after: seq<byte>, used: nat)
    requires l.ports == 1 && |before| == |after| == l.PackageSize() && used <= l.payloadSz
    requires Field(l, after, Payload(0)) == Field(l, before, Payload(0))
    ensures l.PortOffset(0) + used <= |after|
    ensures after[l.PortOffset(0)..l.PortOffset(0) + used] == before[l.PortOffset(0)..l.PortOffset(0) + used]
  {
    RegionInside(l, Payload(0));
    var from := l.PortOffset(0);
    assert after[from..from + used] == Field(l, after, Payload(0))[..used];
    assert before[from..from + used] == Field(l, before, Payload(0))[..used];
  }

  class Board {
    const l: Layout
    const rxBuff: array<byte>
    const txBuff: array<byte>
    const tcp: TCPServer
    const udp: UDPServer
    const main: MainLoop

    /** The objects fit together, whatever the counter field of the answer holds. */
    ghost predicate Wired()
      reads this, tcp, udp, main, main.worker, main.worker.rxRingBuff, main.worker.rxRingBuff.storage
      reads main.worker.txBuff
    {
      && l.ports == 1 && l.payloadSz == main.worker.payloadSize && main.worker.offset == l.PortOffset(0)
      && rxBuff.Length == txBuff.Length == l.PackageSize()
      && tcp.Valid() && udp.Valid() && main.Valid()
      && tcp.shape == udp.shape == Shape(l.PackageSize(), l.MetaSz())
      && tcp.rxBuff == udp.rxBuff == main.worker.rxBuff == rxBuff && main.worker.txBuff == txBuff
    }

    ghost predicate Valid()
      reads this, tcp, udp, main, main.worker, main.worker.rxRingBuff, main.worker.rxRingBuff.storage, txBuff
      reads main.worker.txBuff
    {
      Wired() && Field(l, txBuff[..], Counter) == main.echo
    }

    ghost function View(): Desk
      reads this, tcp, udp, main, main.pollTimer, rxBuff
    {
      Desk(Tcp(tcp.connected, tcp.pkgLeft), udp.View(), rxBuff[..], main.State())
    }

    constructor (l: Layout, rxBuff: array<byte>, txBuff: array<byte>, tcp: TCPServer, udp: UDPServer, main: MainLoop)
      requires l.ports == 1 && l.payloadSz == main.worker.payloadSize && main.worker.offset == l.PortOffset(0)
      requires rxBuff.Length == txBuff.Length == l.PackageSize()
      requires tcp.Valid() && udp.Valid() && main.Valid()
      requires tcp.shape == udp.shape == Shape(l.PackageSize(), l.MetaSz())
      requires tcp.rxBuff == udp.rxBuff == main.worker.rxBuff == rxBuff && main.worker.txBuff == txBuff
      requires Field(l, txBuff[..], Counter) == main.echo
      ensures Valid() && this.l == l && this.rxBuff == rxBuff && this.txBuff == txBuff
      ensures this.tcp == tcp && this.udp == udp && this.main == main
    {
      this.l, this.rxBuff, this.txBuff := l, rxBuff, txBuff;
      this.tcp, this.udp, this.main := tcp, udp, main;
    }

    /** The aggregate survives a write to another field of the answer. */
    lemma WorkerKept(before: seq<byte>)
      requires l.ports == 1 && l.payloadSz == main.worker.payloadSize && main.worker.offset == l.PortOffset(0)
      requires txBuff.Length == |before| == l.PackageSize() && main.worker.txUsedSz <= l.payloadSz
      requires Field(l, txBuff[..], Payload(0)) == Field(l, before, Payload(0))
      ensures l.PortOffset(0) + main.worker.txUsedSz <= |before|
      ensures txBuff[l.PortOffset(0)..l.PortOffset(0) + main.worker.txUsedSz]
              == before[l.PortOffset(0)..l.PortOffset(0) + main.worker.txUsedSz]
    {
      AggregateKept(l, before, txBuff[..], main.worker.txUsedSz);
    }

    /** The payload slot of the answer starts with the aggregate. */
    lemma AggregateInPlace()
      requires Valid()
      ensures |main.worker.View().pending| <= l.payloadSz
      ensures Field(l, txBuff[..], Payload(0))[..|main.worker.View().pending|] == main.worker.View().pending
    {
      RegionInside(l, Payload(0));
    }

    /** The network events of a turn, and what a connection or its end means for polling. */
    method ReceivePart(net: Net, now: nat) returns (event: Event)
      requires Valid()
      modifies tcp, udp, rxBuff, main, main.pollTimer
      ensures Valid()
      ensures var r := Receiving(tcp.shape, old(Tcp(tcp.connected, tcp.pkgLeft)), old(udp.View()), old(rxBuff[..]),
                                 net);
              && Received(Tcp(tcp.connected, tcp.pkgLeft), udp.View(), rxBuff[..], r.tcpEvent, event) == r
              && main.State() == AfterEvent(old(main.State()), r.tcpEvent, main.defaultInterval, now)
      ensures main.worker.View() == old(main.worker.View())
    {
      var tcpEvent, event1 := tcp.ProcessRX(net);
      if tcpEvent.Connected? {
        main.OnConnected(now);
      } else if tcpEvent.Disconnected? {
        main.OnDisconnected(now);
      }
      var snoozed;
      event, snoozed := udp.ProcessRX(tcpEvent, net);
    }

    /** The header number and the checksum. */
    method Seal(header: u16)
      requires Valid()
      modifies txBuff
      ensures Valid() && main.worker.View() == old(main.worker.View())
      ensures CrcOk(tcp.shape, txBuff[..]) && HeaderField(txBuff[..]) == header
      ensures forall q | Exists(l, q) && q != Header && q != Crc ::
                Field(l, txBuff[..], q) == old(Field(l, txBuff[..], q))
    {
      ghost var before := txBuff[..];
      SealPackage(l, txBuff, header);
      WorkerKept(before);
    }

    /** `UDPServer::ProcessTX`, and `TCPServer::ProcessTX` if it cannot send. */
    method SendAnswer(begun: bool) returns (transport: Transport)
      requires Valid()
      modifies udp, txBuff
      ensures Valid() && main.worker.View() == old(main.worker.View())
      ensures (transport, udp.clientSeq) == Chosen(old(udp.View()), begun)
      ensures udp.View() == old(udp.View()).(clientSeq := udp.clientSeq)
      ensures CrcOk(tcp.shape, txBuff[..])
      ensures HeaderField(txBuff[..]) == if transport.ByUdp? then transport.number else 0
      ensures forall q | Exists(l, q) && q != Header && q != Crc ::
                Field(l, txBuff[..], q) == old(Field(l, txBuff[..], q))
    {
      if udp.serverStarted && udp.clientUDPPort >= 1 && begun {
        transport := ByUdp(udp.clientSeq);
        Seal(udp.clientSeq);
        udp.clientSeq := Cast16(udp.clientSeq + 1);
      } else {
        transport := ByTcp;
        Seal(0);
      }
    }

    /** The response goes into the answer, and the answer to the client if one is connected. */
    method AnswerPart(response: Response, begun: bool) returns (transport: Option<Transport>)
      requires Valid()
      modifies udp, txBuff
      ensures Valid() && main.worker.View() == old(main.worker.View())
      ensures transport.Some? == main.tcpClientState
      ensures if transport.Some? then (transport.value, udp.clientSeq) == Chosen(old(udp.View()), begun)
              else udp.clientSeq == old(udp.clientSeq)
      ensures udp.View() == old(udp.View()).(clientSeq := udp.clientSeq)
      ensures transport.Some? ==>
                && CrcOk(tcp.shape, txBuff[..])
                && HeaderField(txBuff[..]) == if transport.value.ByUdp? then transport.value.number else 0
      ensures SlotOf(Field(l, txBuff[..], Slot(0))) == Request(response.kind, response.arg, response.plSz)
      ensures Field(l, txBuff[..], Payload(0)) == old(Field(l, txBuff[..], Payload(0)))
    {
      ghost var before := txBuff[..];
      var c := Request(response.kind, response.arg, response.plSz);
      SlotRoundTrip(c);
      WriteField(l, txBuff, Slot(0), SlotBytes(c));
      assert Field(l, txBuff[..], Slot(0)) == SlotBytes(c);
      WorkerKept(before);
      transport := None;
      if main.tcpClientState {
        var t := SendAnswer(begun);
        transport := Some(t);
      }
    }

    /** The counter field of the answer. */
    method PutEcho()
      requires Wired() && |main.echo| == 4
      modifies txBuff
      ensures Valid() && main.worker.View() == old(main.worker.View())
    {
      ghost var before := txBuff[..];
      WriteField(l, txBuff, Counter, main.echo);
      assert Field(l, txBuff[..], Counter) == main.echo;
      WorkerKept(before);
    }

    /** The request, the drain and the poll. */
    method WorkPart(event: Event, resetComplete: bool, writable: nat, now: nat, later: nat, waiting: seq<byte>)
      returns (written: seq<byte>, answer: Option<Response>)
      requires Valid() && (event.NewRequest? ==> RequestOf(l, rxBuff[..]).plSz <= l.payloadSz)
      modifies main, main.pollTimer, main.worker, main.worker.rxRingBuff, main.worker.rxRingBuff.storage, txBuff
      ensures Valid()
      ensures var request := Requested(l, rxBuff[..], event);
              var c := Asked(old(main.State()), l, rxBuff[..], event, main.multiplier, now);
              && main.State() == Timed(c, main.multiplier, later)
              && main.worker.View() == TurnUart(old(main.worker.View()), request, rxBuff[l.PortOffset(0)..],
                                                resetComplete, writable, IsDue(c, later), c.segment, waiting,
                                                main.worker.ioSize, main.worker.payloadSize)
              && answer == (if IsDue(c, later) && main.State().segment == 0 then Some(Reply(main.worker.View()))
                            else None)
              && written == TurnWritten(old(main.worker.View()), request, rxBuff[l.PortOffset(0)..],
                                        resetComplete, writable, main.worker.ioSize)
    {
      ghost var before := txBuff[..];
      var request, counterField := Requested(l, rxBuff[..], event), Field(l, rxBuff[..], Counter);
      written, answer := main.Turn(request, counterField, resetComplete, writable, now, later, waiting);
      if event.NewRequest? {
        PutEcho();
      } else {
        RegionInside(l, Payload(0));
        FieldsOutside(l, before, txBuff[..], Payload(0));
      }
    }

    /** The answer as it leaves: it passes the client's test, and holds the response and the counter to echo. */
    ghost predicate Holds(transport: Transport)
      requires Valid()
      reads this, tcp, udp, main, main.worker, main.worker.rxRingBuff, main.worker.rxRingBuff.storage, txBuff
      reads main.worker.txBuff, main.pollTimer
    {
      var response := Reply(main.worker.View());
      && CrcOk(tcp.shape, txBuff[..])
      && HeaderField(txBuff[..]) == (if transport.ByUdp? then transport.number else 0)
      && SlotOf(Field(l, txBuff[..], Slot(0))) == Request(response.kind, response.arg, response.plSz)
      && Field(l, txBuff[..], Counter) == main.State().echo
    }

    /** All of a turn but the receiving. */
    method RestOfTurn(event: Event, resetComplete: bool, writable: nat, now: nat, later: nat, waiting: seq<byte>,
                      begun: bool) returns (written: seq<byte>, transport: Option<Transport>)
      requires Valid() && (event.NewRequest? ==> RequestOf(l, rxBuff[..]).plSz <= l.payloadSz)
      modifies udp, main, main.pollTimer, main.worker, main.worker.rxRingBuff, main.worker.rxRingBuff.storage, txBuff
      ensures Valid()
      ensures var request := Requested(l, rxBuff[..], event);
              var c := Asked(old(main.State()), l, rxBuff[..], event, main.multiplier, now);
              && main.State() == Timed(c, main.multiplier, later)
              && main.worker.View() == TurnUart(old(main.worker.View()), request, rxBuff[l.PortOffset(0)..],
                                                resetComplete, writable, IsDue(c, later), c.segment, waiting,
                                                main.worker.ioSize, main.worker.payloadSize)
              && written == TurnWritten(old(main.worker.View()), request, rxBuff[l.PortOffset(0)..],
                                        resetComplete, writable, main.worker.ioSize)
              && transport.Some? == (IsDue(c, later) && main.State().segment == 0 && c.connected)
      ensures Sent(old(udp.View()), udp.View(), begun, transport)
      ensures transport.Some? ==> Holds(transport.value)
    {
      var answer;
      written, answer := WorkPart(event, resetComplete, writable, now, later, waiting);
      transport := None;
      if answer.Some? {
        transport := AnswerPart(answer.value, begun);
      }
    }

    /**
     One turn, with everything it leaves behind: connection, servers and buffer as the network part says; flags, echo,
     segment and timer as the connection, the request and the clock say; the port as the request, the drain and, if the
     interval has passed, the fill say.  An answer leaves exactly when the interval has passed, this was the last
     segment and a client is connected; it then passes the client's checksum test, and holds the response and the
     counter to echo.
     */
    method Loop(net: Net, resetComplete: bool, writable: nat, now: nat, later: nat, waiting: seq<byte>, begun: bool)
      returns (written: seq<byte>, transport: Option<Transport>)
      requires Valid()
      requires var r := Receiving(tcp.shape, Tcp(tcp.connected, tcp.pkgLeft), udp.View(), rxBuff[..], net);
               r.event.NewRequest? ==> RequestOf(l, r.buff).plSz <= l.payloadSz
      modifies tcp, udp, rxBuff, txBuff
      modifies main, main.pollTimer, main.worker, main.worker.rxRingBuff, main.worker.rxRingBuff.storage
      ensures Valid()
      ensures var r := Receiving(tcp.shape, old(Tcp(tcp.connected, tcp.pkgLeft)), old(udp.View()), old(rxBuff[..]),
                                 net);
              var request := Requested(l, r.buff, r.event);
              var c := Asked(AfterEvent(old(main.State()), r.tcpEvent, main.defaultInterval, now), l, r.buff, r.event,
                             main.multiplier, now);
              && Tcp(tcp.connected, tcp.pkgLeft) == r.tcp && rxBuff[..] == r.buff
              && main.State() == Timed(c, main.multiplier, later)
              && main.worker.View() == TurnUart(old(main.worker.View()), request, r.buff[l.PortOffset(0)..],
                                                resetComplete, writable, IsDue(c, later), c.segment, waiting,
                                                main.worker.ioSize, main.worker.payloadSize)
              && written == TurnWritten(old(main.worker.View()), request, r.buff[l.PortOffset(0)..],
                                        resetComplete, writable, main.worker.ioSize)
              && transport.Some? == (IsDue(c, later) && main.State().segment == 0 && c.connected)
              && Sent(r.udp, udp.View(), begun, transport)
      ensures (View(), transport)
              == Played(l, main.multiplier, main.defaultInterval, old(View()), net, now, later, begun)
      ensures transport.Some? ==> Holds(transport.value)
    {
      var event := ReceivePart(net, now);
      written, transport := RestOfTurn(event, resetComplete, writable, now, later, waiting, begun);
    }
  }
}

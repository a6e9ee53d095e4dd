/**
 The firmware's receive machine: `TCPServer::ProcessRX` and `UDPServer::ProcessRX` share one package buffer and one
 event, and `loop` runs them in that order (Firmware/UARTEthernetBridge/tcpserver.cpp, udpserver.cpp, main_loop.cpp);
 and the client's TCP receive loop (Client/Src/TCPTransport.cpp).  What the network delivers is a parameter.
 */
module Receive {
  import opened Arithmetic
  import opened Bytes
  import opened SeqWindow
  import Crc8

  datatype Shape = Shape(pkgSz: nat, metaSz: nat)
  {
    predicate Valid() { 2 <= metaSz < pkgSz }
  }

  /** The metadata is followed by its checksum: the test both receivers make. */
  predicate CrcOk(shape: Shape, block: seq<byte>)
    requires shape.Valid() && |block| == shape.pkgSz
  {
    Crc8.Checksum(block[..shape.metaSz]) == block[shape.metaSz]
  }

  /** It is the test whose strength `Crc8` is about, on the metadata and the checksum byte. */
  lemma CrcOkIsPasses(shape: Shape, block: seq<byte>)
    requires shape.Valid() && |block| == shape.pkgSz
    ensures CrcOk(shape, block) <==> Crc8.Passes(block[..shape.metaSz + 1])
  {
    assert block[..shape.metaSz + 1][..shape.metaSz] == block[..shape.metaSz];
  }

  /** So no receiver takes a package that differs from a valid one by an odd number of bits, or by a burst of at most
      eight, in metadata and checksum. */
  lemma DamagedPackageRejected(shape: Shape, block: seq<byte>, damaged: seq<byte>, error: seq<byte>, start: nat)
    requires shape.Valid() && |block| == |damaged| == shape.pkgSz && |error| == shape.metaSz + 1
    requires CrcOk(shape, block) && damaged[..shape.metaSz + 1] == Crc8.Flip(block[..shape.metaSz + 1], error)
    requires Crc8.Odd(Crc8.Bits(error)) || Crc8.Burst(Crc8.Bits(error), start)
    ensures !CrcOk(shape, damaged)
  {
    CrcOkIsPasses(shape, block);
    CrcOkIsPasses(shape, damaged);
    if Crc8.Odd(Crc8.Bits(error)) {
      Crc8.OddErrorsDetected(block[..shape.metaSz + 1], error);
    } else {
      Crc8.BurstsDetected(block[..shape.metaSz + 1], error, start);
    }
  }

  // ---------------------------------------------------------------- reference: a byte stream cut into packages

  datatype Cut = Cut(packages: seq<seq<byte>>, rest: seq<byte>, failed: bool)

  /** Whole blocks up to the first one with a bad checksum. */
  function CutStream(shape: Shape, stream: seq<byte>): Cut
    requires shape.Valid()
  {
    if |stream| < shape.pkgSz then Cut([], stream, false)
    else if !CrcOk(shape, stream[..shape.pkgSz]) then Cut([], stream, true)
    else
      var c := CutStream(shape, stream[shape.pkgSz..]);
      c.(packages := [stream[..shape.pkgSz]] + c.packages)
  }

  /** Bytes that do not complete a block only lengthen the rest. */
  lemma {:induction false} CutGrows(shape: Shape, stream: seq<byte>, more: seq<byte>)
    requires shape.Valid() && !CutStream(shape, stream).failed
    ensures |CutStream(shape, stream).rest| < shape.pkgSz
    ensures |CutStream(shape, stream).rest| + |more| < shape.pkgSz ==>
              CutStream(shape, stream + more) == CutStream(shape, stream).(rest := CutStream(shape, stream).rest + more)
  {
    if |stream| >= shape.pkgSz {
      assert (stream + more)[..shape.pkgSz] == stream[..shape.pkgSz];
      assert (stream + more)[shape.pkgSz..] == stream[shape.pkgSz..] + more;
      CutGrows(shape, stream[shape.pkgSz..], more);
    }
  }

  /** Bytes that complete a block deliver it, or end the stream when its checksum is wrong. */
  lemma {:induction false} CutCompletes(shape: Shape, stream: seq<byte>, more: seq<byte>)
    requires shape.Valid() && !CutStream(shape, stream).failed
    requires |CutStream(shape, stream).rest| + |more| == shape.pkgSz
    ensures var c, block := CutStream(shape, stream), CutStream(shape, stream).rest + more;
            if CrcOk(shape, block) then CutStream(shape, stream + more) == Cut(c.packages + [block], [], false)
            else CutStream(shape, stream + more).packages == c.packages && CutStream(shape, stream + more).failed
  {
    if |stream| >= shape.pkgSz {
      assert (stream + more)[..shape.pkgSz] == stream[..shape.pkgSz];
      assert (stream + more)[shape.pkgSz..] == stream[shape.pkgSz..] + more;
      CutCompletes(shape, stream[shape.pkgSz..], more);
      var c := CutStream(shape, stream[shape.pkgSz..]);
      assert [stream[..shape.pkgSz]] + (c.packages + [c.rest + more])
             == [stream[..shape.pkgSz]] + c.packages + [c.rest + more];
    } else {
      assert (stream + more)[..shape.pkgSz] == stream + more;
      assert (stream + more)[shape.pkgSz..] == [];
    }
  }

  // ---------------------------------------------------------------- one turn of the machine

  /** `ClientEvent`; each constructor carries the union member that is meaningful for it. */
  datatype Event =
    | NoEvent(pkgReading: bool)
    | Connected(remoteAddr: nat)
    | Disconnected
    | NewRequest(udpPort: u16)

  /** What one turn finds: a pending connection, the alarm and connection status, the TCP bytes that have arrived,
      whether the UDP port could be opened, and a datagram with its source port. */
  datatype Net = Net(pending: Option<nat>, alarm: bool, alive: bool, arrived: seq<byte>,
                     begun: bool, datagram: Option<Datagram>)
  datatype Datagram = Datagram(bytes: seq<byte>, port: u16)

  datatype Tcp = Tcp(connected: bool, pkgLeft: nat)
  datatype Udp = Udp(clientAddr: Option<nat>, clientUDPPort: u16, serverSeq: u16, clientSeq: u16, serverStarted: bool)

  /** Little-endian 16-bit header field: UDP port in TCP packages, sequence number in datagrams. */
  function HeaderField(block: seq<byte>): u16
    requires |block| >= 2
  {
    block[0] as int + 0x100 * (block[1] as int)
  }

  /** How many of the arrived bytes a turn reads. */
  function ReadSize(tcp: Tcp, net: Net): nat {
    if tcp.connected && !net.alarm && net.alive then Min(tcp.pkgLeft, |net.arrived|) else 0
  }

  function TcpTurn(shape: Shape, tcp: Tcp, buff: seq<byte>, net: Net): (r: (Tcp, seq<byte>, Event))
    requires shape.Valid() && |buff| == shape.pkgSz && tcp.pkgLeft <= shape.pkgSz
    ensures |r.1| == shape.pkgSz && r.0.pkgLeft <= shape.pkgSz
  {
    if !tcp.connected then
      if net.pending.None? then (tcp, buff, NoEvent(false))
      else (Tcp(true, shape.pkgSz), buff, Connected(net.pending.value))
    else if net.alarm || !net.alive then (tcp.(connected := false), buff, Disconnected)
    else if net.arrived == [] then (tcp, buff, NoEvent(tcp.pkgLeft < shape.pkgSz))
    else
      var n := ReadSize(tcp, net);
      var filled := Overwrite(buff, shape.pkgSz - tcp.pkgLeft, net.arrived[..n]);
      var left := tcp.pkgLeft - n;
      if left > 0 then (tcp.(pkgLeft := left), filled, NoEvent(true))
      else if !CrcOk(shape, filled) then (Tcp(false, left), filled, Disconnected)
      else (tcp.(pkgLeft := shape.pkgSz), filled, NewRequest(HeaderField(filled)))
  }

  /** Whether a turn of the UDP server reads a datagram into the shared buffer. */
  predicate ReadsDatagram(udp: Udp, event: Event, net: Net) {
    event.NoEvent? && udp.serverStarted && !event.pkgReading && net.datagram.Some? && net.datagram.value.bytes != []
  }

  predicate ValidDatagram(shape: Shape, d: Datagram)
    requires shape.Valid()
  {
    |d.bytes| >= shape.pkgSz && CrcOk(shape, d.bytes[..shape.pkgSz])
  }

  function UdpTurn(shape: Shape, udp: Udp, buff: seq<byte>, event: Event, net: Net): (r: (Udp, seq<byte>, Event))
    requires shape.Valid() && |buff| == shape.pkgSz
    ensures |r.1| == shape.pkgSz
  {
    match event
    case Connected(addr) => (Udp(Some(addr), 0, 0, 0, false), buff, event)
    case Disconnected => (Udp(None, 0, 0, 0, false), buff, event)
    case NewRequest(port) =>
      (if !udp.serverStarted && port > 0 then udp.(serverStarted := net.begun) else udp, buff, event)
    case NoEvent(_) =>
      if !ReadsDatagram(udp, event, net) then
        (udp, buff, if udp.serverStarted && !event.pkgReading then NoEvent(false) else event)
      else
        var d := net.datagram.value;
        var filled := Overwrite(buff, 0, d.bytes[..Min(|d.bytes|, shape.pkgSz)]);
        if ValidDatagram(shape, d) && Newer(udp.serverSeq, HeaderField(filled)) then
          var port := if udp.clientUDPPort < 1 then d.port else udp.clientUDPPort;
          (udp.(serverSeq := HeaderField(filled), clientUDPPort := port), filled, NewRequest(0))
        else
          (udp, filled, NoEvent(false))
  }

  // ---------------------------------------------------------------- runs of the machine

  /** The machine, and the history of the current (or last) connection: where it came from; TCP bytes read; packages
      handed to the workers from TCP, and whether the UDP port could be opened with each; datagrams read, whatever they
      are, and the valid ones; packages handed over from UDP, and the ports they came from. */
  datatype Machine = Machine(tcp: Tcp, udp: Udp, buff: seq<byte>,
                             peer: Option<nat>, stream: seq<byte>, tcpOut: seq<seq<byte>>, begun: seq<bool>,
                             heard: seq<seq<byte>>, datagrams: seq<seq<byte>>,
                             udpOut: seq<seq<byte>>, ports: seq<u16>)

  function Turn(shape: Shape, m: Machine, net: Net): (t: Machine)
    requires shape.Valid() && |m.buff| == shape.pkgSz && m.tcp.pkgLeft <= shape.pkgSz
    ensures |t.buff| == shape.pkgSz && t.tcp.pkgLeft <= shape.pkgSz
  {
    var (tcp, buff1, event1) := TcpTurn(shape, m.tcp, m.buff, net);
    var (udp, buff2, event2) := UdpTurn(shape, m.udp, buff1, event1, net);
    if event1.Connected? then Machine(tcp, udp, buff2, net.pending, [], [], [], [], [], [], [])
    else
      var hears := ReadsDatagram(m.udp, event1, net);
      var byUdp := event1.NoEvent? && event2.NewRequest?;
      Machine(tcp, udp, buff2, m.peer, m.stream + net.arrived[..ReadSize(m.tcp, net)],
              if event1.NewRequest? then m.tcpOut + [buff2] else m.tcpOut,
              if event1.NewRequest? then m.begun + [net.begun] else m.begun,
              if hears then m.heard + [net.datagram.value.bytes] else m.heard,
              if hears && ValidDatagram(shape, net.datagram.value) then m.datagrams + [buff2] else m.datagrams,
              if byUdp then m.udpOut + [buff2] else m.udpOut,
              if byUdp then m.ports + [if net.datagram.Some? then net.datagram.value.port else 0] else m.ports)
  }

  function Turns(shape: Shape, m: Machine, nets: seq<Net>): (t: Machine)
    requires shape.Valid() && |m.buff| == shape.pkgSz && m.tcp.pkgLeft <= shape.pkgSz
    ensures |t.buff| == shape.pkgSz && t.tcp.pkgLeft <= shape.pkgSz
    decreases |nets|
  {
    if nets == [] then m else Turns(shape, Turn(shape, m, nets[0]), nets[1..])
  }

  /** After boot: nobody connected. */
  predicate Booted(shape: Shape, m: Machine) {
    && shape.Valid() && |m.buff| == shape.pkgSz && m.tcp.pkgLeft <= shape.pkgSz
    && !m.tcp.connected && m.udp == Udp(None, 0, 0, 0, false)
    && m.stream == [] && m.tcpOut == [] && m.begun == []
    && m.heard == [] && m.datagrams == [] && m.udpOut == [] && m.ports == []
  }

  function SeqNumbers(datagrams: seq<seq<byte>>): seq<u16>
    requires forall i :: 0 <= i < |datagrams| ==> |datagrams[i]| >= 2
  {
    seq(|datagrams|, i requires 0 <= i < |datagrams| => HeaderField(datagrams[i]))
  }

  function Select<T>(items: seq<T>, keep: seq<bool>): seq<T>
    requires |items| == |keep|
  {
    if items == [] then [] else (if keep[0] then [items[0]] else []) + Select(items[1..], keep[1..])
  }

  lemma {:induction false} SelectSnoc<T>(items: seq<T>, keep: seq<bool>, x: T, k: bool)
    requires |items| == |keep|
    ensures Select(items + [x], keep + [k]) == Select(items, keep) + (if k then [x] else [])
  {
    if items == [] {
      assert (items + [x])[1..] == [] && (keep + [k])[1..] == [];
    } else {
      assert (items + [x])[1..] == items[1..] + [x] && (keep + [k])[1..] == keep[1..] + [k];
      SelectSnoc(items[1..], keep[1..], x, k);
    }
  }

  lemma {:induction false} AcceptedSnoc(last: u16, numbers: seq<u16>, n: u16)
    ensures |Accepted(last, numbers)| == |numbers|
    ensures Accepted(last, numbers + [n]) == Accepted(last, numbers) + [Newer(LastSeq(last, numbers), n)]
    ensures LastSeq(last, numbers + [n]) == if Newer(LastSeq(last, numbers), n) then n else LastSeq(last, numbers)
    decreases |numbers|
  {
    if numbers == [] {
      assert (numbers + [n])[1..] == [];
    } else {
      var next := if Newer(last, numbers[0]) then numbers[0] else last;
      assert (numbers + [n])[0] == numbers[0] && (numbers + [n])[1..] == numbers[1..] + [n];
      AcceptedSnoc(next, numbers[1..], n);
      assert Accepted(last, numbers + [n]) == [Newer(last, numbers[0])] + Accepted(next, numbers[1..] + [n]);
    }
  }

  /** While connected, the buffer starts with the bytes of the package in progress. */
  predicate InProgress(shape: Shape, tcp: Tcp, buff: seq<byte>, c: Cut)
    requires shape.Valid() && |buff| == shape.pkgSz && tcp.pkgLeft <= shape.pkgSz
  {
    tcp.connected ==> 0 < tcp.pkgLeft && !c.failed && c.rest == buff[..shape.pkgSz - tcp.pkgLeft]
  }

  predicate TcpInv(shape: Shape, m: Machine)
    requires shape.Valid() && |m.buff| == shape.pkgSz && m.tcp.pkgLeft <= shape.pkgSz
  {
    && CutStream(shape, m.stream).packages == m.tcpOut
    && InProgress(shape, m.tcp, m.buff, CutStream(shape, m.stream))
    && (!m.tcp.connected ==> !m.udp.serverStarted)
  }

  /** `out` is what the sequence window lets through of `datagrams`, and `last` the number it then holds. */
  predicate Filtered(datagrams: seq<seq<byte>>, out: seq<seq<byte>>, last: u16) {
    && (forall i :: 0 <= i < |datagrams| ==> |datagrams[i]| >= 2)
    && last == LastSeq(0, SeqNumbers(datagrams))
    && |Accepted(0, SeqNumbers(datagrams))| == |datagrams|
    && out == Select(datagrams, Accepted(0, SeqNumbers(datagrams)))
  }

  lemma FilteredSnoc(datagrams: seq<seq<byte>>, out: seq<seq<byte>>, last: u16, block: seq<byte>)
    requires Filtered(datagrams, out, last) && |block| >= 2
    ensures var n := HeaderField(block);
            if Newer(last, n) then Filtered(datagrams + [block], out + [block], n)
            else Filtered(datagrams + [block], out, last)
  {
    var numbers, n := SeqNumbers(datagrams), HeaderField(block);
    assert SeqNumbers(datagrams + [block]) == numbers + [n];
    AcceptedSnoc(0, numbers, n);
    SelectSnoc(datagrams, Accepted(0, numbers), block, Newer(last, n));
    assert out + [] == out;
  }

  ghost predicate UdpInv(shape: Shape, m: Machine) {
    && (exists last :: Filtered(m.datagrams, m.udpOut, last))
    && (m.tcp.connected ==> Filtered(m.datagrams, m.udpOut, m.udp.serverSeq))
  }

  predicate WholePackage(shape: Shape, d: seq<byte>)
    requires shape.Valid()
  {
    |d| == shape.pkgSz && CrcOk(shape, d)
  }

  /** What is in datagrams that are long enough and whose first `pkgSz` bytes pass the checksum test. */
  function Sound(shape: Shape, heard: seq<seq<byte>>): seq<seq<byte>>
    requires shape.Valid()
  {
    if heard == [] then []
    else
      var d := heard[|heard| - 1];
      Sound(shape, heard[..|heard| - 1])
      + (if |d| >= shape.pkgSz && CrcOk(shape, d[..shape.pkgSz]) then [d[..shape.pkgSz]] else [])
  }

  /** The first port that is not zero. */
  function FirstPort(ports: seq<u16>): u16 {
    if ports == [] then 0
    else if FirstPort(ports[..|ports| - 1]) > 0 then FirstPort(ports[..|ports| - 1])
    else ports[|ports| - 1]
  }

  /** Some package of the connection asked for a UDP port, and it could be opened. */
  predicate PortOpened(packages: seq<seq<byte>>, begun: seq<bool>) {
    exists i :: 0 <= i < |packages| && i < |begun| && begun[i] && |packages[i]| >= 2 && HeaderField(packages[i]) > 0
  }

  /** What the UDP side hands over. */
  predicate SoundInv(shape: Shape, m: Machine)
    requires shape.Valid()
  {
    && m.datagrams == Sound(shape, m.heard)
    && (forall i :: 0 <= i < |m.udpOut| ==> WholePackage(shape, m.udpOut[i]))
  }

  /** What it has to do with the connection. */
  predicate ServerInv(m: Machine) {
    && |m.begun| == |m.tcpOut|
    && (m.udp.serverStarted <==> m.tcp.connected && PortOpened(m.tcpOut, m.begun))
    && (m.tcp.connected ==> m.peer.Some? && m.udp.clientAddr == m.peer && m.udp.clientUDPPort == FirstPort(m.ports))
  }

  ghost predicate MachineInv(shape: Shape, m: Machine) {
    && shape.Valid() && |m.buff| == shape.pkgSz && m.tcp.pkgLeft <= shape.pkgSz
    && TcpInv(shape, m) && UdpInv(shape, m) && SoundInv(shape, m) && ServerInv(m)
  }

  /** A TCP turn of an open connection continues the cut of its stream. */
  lemma TcpTurnCuts(shape: Shape, tcp: Tcp, buff: seq<byte>, net: Net, stream: seq<byte>)
    requires shape.Valid() && |buff| == shape.pkgSz && tcp.pkgLeft <= shape.pkgSz && tcp.connected
    requires InProgress(shape, tcp, buff, CutStream(shape, stream))
    ensures var (t, filled, event) := TcpTurn(shape, tcp, buff, net);
            var before, after := CutStream(shape, stream), CutStream(shape, stream + net.arrived[..ReadSize(tcp, net)]);
            && InProgress(shape, t, filled, after) && !event.Connected?
            && after.packages == before.packages + (if event.NewRequest? then [filled] else [])
            && (event == NoEvent(false) ==> t.connected && t.pkgLeft == shape.pkgSz)
            && (!t.connected ==> event.Disconnected?)
  {
    var n := ReadSize(tcp, net);
    var more := net.arrived[..n];
    if n == 0 {
      assert stream + more == stream;
    } else {
      var held := buff[..shape.pkgSz - tcp.pkgLeft];
      var filled := Overwrite(buff, shape.pkgSz - tcp.pkgLeft, more);
      assert filled[..|held| + n] == held + more;
      if n < tcp.pkgLeft {
        CutGrows(shape, stream, more);
      } else {
        assert filled[..shape.pkgSz] == filled;
        CutCompletes(shape, stream, more);
      }
    }
  }

  /** A UDP turn leaves the buffer alone unless TCP is between packages. */
  lemma UdpTurnHarmless(shape: Shape, udp: Udp, buff: seq<byte>, event: Event, net: Net)
    requires shape.Valid() && |buff| == shape.pkgSz
    ensures var (u, filled, e) := UdpTurn(shape, udp, buff, event, net);
            && (event != NoEvent(false) || !udp.serverStarted ==> filled == buff)
            && (event.Connected? || event.Disconnected? ==> !u.serverStarted)
            && (event.NoEvent? ==> u.serverStarted == udp.serverStarted)
  {
  }

  /** A turn of the whole machine, given how the cut of the stream moves from `before` to `after`. */
  lemma TurnFollowsCut(shape: Shape, m: Machine, net: Net, before: Cut, after: Cut)
    requires shape.Valid() && |m.buff| == shape.pkgSz && m.tcp.pkgLeft <= shape.pkgSz && m.tcp.connected
    requires before.packages == m.tcpOut
    requires var (t, filled, event) := TcpTurn(shape, m.tcp, m.buff, net);
             && InProgress(shape, t, filled, after) && !event.Connected?
             && after.packages == before.packages + (if event.NewRequest? then [filled] else [])
             && (event == NoEvent(false) ==> t.connected && t.pkgLeft == shape.pkgSz)
             && (!t.connected ==> event.Disconnected?)
    ensures var t := Turn(shape, m, net);
            && after.packages == t.tcpOut && InProgress(shape, t.tcp, t.buff, after)
            && (!t.tcp.connected ==> !t.udp.serverStarted)
  {
    var (tcp, buff, event) := TcpTurn(shape, m.tcp, m.buff, net);
    UdpTurnHarmless(shape, m.udp, buff, event, net);
    var (udp, filled, e) := UdpTurn(shape, m.udp, buff, event, net);
    if event == NoEvent(false) {
      assert filled[..0] == buff[..0];
    }
  }

  lemma TurnTcp(shape: Shape, m: Machine, net: Net)
    requires MachineInv(shape, m)
    ensures TcpInv(shape, Turn(shape, m, net))
  {
    if m.tcp.connected {
      var more := net.arrived[..ReadSize(m.tcp, net)];
      TcpTurnCuts(shape, m.tcp, m.buff, net, m.stream);
      TurnFollowsCut(shape, m, net, CutStream(shape, m.stream), CutStream(shape, m.stream + more));
    } else {
      assert m.stream + net.arrived[..0] == m.stream;
      UdpTurnHarmless(shape, m.udp, m.buff, NoEvent(false), net);
    }
  }

  /** What a UDP turn does to the sequence window. */
  lemma UdpTurnWindow(shape: Shape, udp: Udp, buff: seq<byte>, event: Event, net: Net)
    requires shape.Valid() && |buff| == shape.pkgSz
    ensures var (u, filled, e) := UdpTurn(shape, udp, buff, event, net);
            if event.Connected? || event.Disconnected? then u.serverSeq == 0 && e == event
            else if ReadsDatagram(udp, event, net) && ValidDatagram(shape, net.datagram.value) then
              && filled == net.datagram.value.bytes[..shape.pkgSz]
              && e.NewRequest? == Newer(udp.serverSeq, HeaderField(filled))
              && u.serverSeq == if e.NewRequest? then HeaderField(filled) else udp.serverSeq
            else u.serverSeq == udp.serverSeq && e.NewRequest? == event.NewRequest?
  {
  }

  /** Reading a valid datagram extends the filtered history by one. */
  lemma DatagramFiltered(shape: Shape, m: Machine, buff: seq<byte>, event: Event, net: Net)
    requires shape.Valid() && |buff| == shape.pkgSz && Filtered(m.datagrams, m.udpOut, m.udp.serverSeq)
    requires ReadsDatagram(m.udp, event, net) && ValidDatagram(shape, net.datagram.value)
    ensures var (u, filled, e) := UdpTurn(shape, m.udp, buff, event, net);
            Filtered(m.datagrams + [filled], if e.NewRequest? then m.udpOut + [filled] else m.udpOut, u.serverSeq)
  {
    UdpTurnWindow(shape, m.udp, buff, event, net);
    FilteredSnoc(m.datagrams, m.udpOut, m.udp.serverSeq, UdpTurn(shape, m.udp, buff, event, net).1);
  }

  lemma TurnUdp(shape: Shape, m: Machine, net: Net)
    requires MachineInv(shape, m)
    ensures UdpInv(shape, Turn(shape, m, net))
  {
    var (tcp, buff, event) := TcpTurn(shape, m.tcp, m.buff, net);
    var t := Turn(shape, m, net);
    if event.Connected? {
      assert Filtered([], [], 0);
    } else if ReadsDatagram(m.udp, event, net) && ValidDatagram(shape, net.datagram.value) {
      DatagramFiltered(shape, m, buff, event, net);
      assert Filtered(t.datagrams, t.udpOut, t.udp.serverSeq);
    } else {
      UdpTurnWindow(shape, m.udp, buff, event, net);
      assert t.datagrams == m.datagrams && t.udpOut == m.udpOut;
    }
  }

  /** One more package, and whether the UDP port could be opened with it. */
  lemma PortOpenedSnoc(packages: seq<seq<byte>>, begun: seq<bool>, block: seq<byte>, b: bool)
    requires |packages| == |begun| && |block| >= 2
    ensures PortOpened(packages + [block], begun + [b])
            <==> PortOpened(packages, begun) || (b && HeaderField(block) > 0)
  {
    var more, flags := packages + [block], begun + [b];
    if PortOpened(packages, begun) {
      var i :| 0 <= i < |packages| && begun[i] && |packages[i]| >= 2 && HeaderField(packages[i]) > 0;
      assert more[i] == packages[i] && flags[i] == begun[i];
    } else if b && HeaderField(block) > 0 {
      assert more[|packages|] == block && flags[|packages|];
    }
  }

  lemma FirstPortSnoc(ports: seq<u16>, port: u16)
    ensures FirstPort(ports + [port]) == if FirstPort(ports) > 0 then FirstPort(ports) else port
  {
    assert (ports + [port])[..|ports|] == ports;
  }

  lemma SoundSnoc(shape: Shape, heard: seq<seq<byte>>, d: seq<byte>)
    requires shape.Valid()
    ensures Sound(shape, heard + [d])
            == Sound(shape, heard) + (if |d| >= shape.pkgSz && CrcOk(shape, d[..shape.pkgSz]) then [d[..shape.pkgSz]]
                                      else [])
  {
    assert (heard + [d])[..|heard|] == heard;
  }

  lemma TurnSound(shape: Shape, m: Machine, net: Net)
    requires MachineInv(shape, m)
    ensures SoundInv(shape, Turn(shape, m, net))
  {
    var (tcp, buff, event) := TcpTurn(shape, m.tcp, m.buff, net);
    UdpTurnWindow(shape, m.udp, buff, event, net);
    if event.NoEvent? && ReadsDatagram(m.udp, event, net) {
      SoundSnoc(shape, m.heard, net.datagram.value.bytes);
    }
  }

  /** What TCP's event says about the connection. */
  lemma EventSays(shape: Shape, tcp: Tcp, buff: seq<byte>, net: Net)
    requires shape.Valid() && |buff| == shape.pkgSz && tcp.pkgLeft <= shape.pkgSz
    ensures var (t, filled, event) := TcpTurn(shape, tcp, buff, net);
            && (event.Connected? <==> !tcp.connected && t.connected)
            && (event.Connected? ==> net.pending == Some(event.remoteAddr))
            && (event.Disconnected? <==> tcp.connected && !t.connected)
            && (event.NewRequest? ==> t.connected && event.udpPort == HeaderField(filled))
  {
  }

  /** What the UDP server makes of it. */
  lemma ServerFollows(shape: Shape, udp: Udp, buff: seq<byte>, event: Event, net: Net)
    requires shape.Valid() && |buff| == shape.pkgSz
    ensures var (u, filled, e) := UdpTurn(shape, udp, buff, event, net);
            match event
            case Connected(addr) => !u.serverStarted && u.clientAddr == Some(addr) && u.clientUDPPort == 0
            case Disconnected => !u.serverStarted
            case NewRequest(port) =>
              && (u.serverStarted <==> udp.serverStarted || (net.begun && port > 0))
              && u.clientAddr == udp.clientAddr && u.clientUDPPort == udp.clientUDPPort && filled == buff
            case NoEvent(_) =>
              && u.serverStarted == udp.serverStarted && u.clientAddr == udp.clientAddr
              && (e.NewRequest? ==> net.datagram.Some?)
              && u.clientUDPPort == if e.NewRequest? && udp.clientUDPPort == 0 then net.datagram.value.port
                                    else udp.clientUDPPort
  {
  }

  /** Whatever a turn of TCP has brought, the UDP server follows the connection. */
  lemma TurnServer(shape: Shape, m: Machine, net: Net)
    requires MachineInv(shape, m)
    ensures ServerInv(Turn(shape, m, net))
  {
    var (tcp, buff, event) := TcpTurn(shape, m.tcp, m.buff, net);
    EventSays(shape, m.tcp, m.buff, net);
    ServerFollows(shape, m.udp, buff, event, net);
    if event.NewRequest? {
      PortOpenedSnoc(m.tcpOut, m.begun, buff, net.begun);
    } else if net.datagram.Some? {
      FirstPortSnoc(m.ports, net.datagram.value.port);
    }
  }

  /**
   When a connection comes up and when it ends, how much is read, and when a datagram is: a connection ends by the
   alarm, by the other side, or by a block with a bad checksum, and not otherwise; everything that has arrived is read,
   up to the end of a package; and a datagram is read exactly when the UDP server runs and TCP is between packages with
   nothing to read.
   */
  lemma TurnMeans(shape: Shape, m: Machine, net: Net)
    requires MachineInv(shape, m)
    ensures var t := Turn(shape, m, net);
            && (!m.tcp.connected ==> (t.tcp.connected <==> net.pending.Some?) && t.heard == if t.tcp.connected then []
                                                                                            else m.heard)
            && (m.tcp.connected ==>
                  && (t.tcp.connected <==> !net.alarm && net.alive && !CutStream(shape, t.stream).failed)
                  && t.stream == m.stream + (if net.alarm || !net.alive then []
                                             else net.arrived[..Min(m.tcp.pkgLeft, |net.arrived|)])
                  && t.heard == m.heard + (if !net.alarm && net.alive && net.arrived == []
                                              && m.tcp.pkgLeft == shape.pkgSz && m.udp.serverStarted
                                              && net.datagram.Some? && net.datagram.value.bytes != []
                                           then [net.datagram.value.bytes] else []))
  {
    TurnTcp(shape, m, net);
    if m.tcp.connected {
      TcpTurnCuts(shape, m.tcp, m.buff, net, m.stream);
      assert net.arrived[..0] == [] && m.heard + [] == m.heard;
      var n := ReadSize(m.tcp, net);
      var more := net.arrived[..n];
      if n > 0 && n == m.tcp.pkgLeft {
        CutCompletes(shape, m.stream, more);
      } else {
        CutGrows(shape, m.stream, more);
      }
    }
  }

  lemma {:induction false} TurnsKeep(shape: Shape, m: Machine, nets: seq<Net>)
    requires MachineInv(shape, m)
    ensures MachineInv(shape, Turns(shape, m, nets))
    decreases |nets|
  {
    if nets != [] {
      TurnTcp(shape, m, nets[0]);
      TurnUdp(shape, m, nets[0]);
      TurnSound(shape, m, nets[0]);
      TurnServer(shape, m, nets[0]);
      TurnsKeep(shape, Turn(shape, m, nets[0]), nets[1..]);
    }
  }

  // ---------------------------------------------------------------- the main results

  /** A cut loses nothing: its blocks and the rest make up the stream. */
  lemma {:induction false} CutWhole(shape: Shape, stream: seq<byte>)
    requires shape.Valid()
    ensures Concat(CutStream(shape, stream).packages) + CutStream(shape, stream).rest == stream
  {
    if |stream| >= shape.pkgSz && CrcOk(shape, stream[..shape.pkgSz]) {
      var first, rest := stream[..shape.pkgSz], stream[shape.pkgSz..];
      var c := CutStream(shape, rest);
      CutWhole(shape, rest);
      ConcatCons(first, c.packages, c.rest);
      assert CutStream(shape, stream) == c.(packages := [first] + c.packages);
      assert Concat([first] + c.packages) + c.rest == first + rest == stream;
    }
  }

  /**
   Fragmentation and datagrams do not matter.  On every run, however the TCP bytes were split over turns and whatever
   datagrams arrived in between, the packages handed over from TCP are the connection's stream cut into blocks up to
   the first bad checksum; while connected, the shared buffer starts with exactly the stream bytes of the package in
   progress.
   */
  lemma TcpPackagesAreTheStream(shape: Shape, boot: Machine, nets: seq<Net>)
    requires Booted(shape, boot)
    ensures var m := Turns(shape, boot, nets);
            && m.tcpOut == CutStream(shape, m.stream).packages
            && (m.tcp.connected ==>
                  && 0 < m.tcp.pkgLeft && !CutStream(shape, m.stream).failed
                  && Concat(m.tcpOut) + m.buff[..shape.pkgSz - m.tcp.pkgLeft] == m.stream)
  {
    assert Filtered([], [], 0);
    TurnsKeep(shape, boot, nets);
    CutWhole(shape, Turns(shape, boot, nets).stream);
  }

  /**
   From UDP the workers get, of the datagrams read since the connection, the sound ones that pass its sequence window,
   in order; each of them passes the checksum test, so a damaged one is never handed over.
   */
  lemma UdpPackagesAreFiltered(shape: Shape, boot: Machine, nets: seq<Net>)
    requires Booted(shape, boot)
    ensures var m := Turns(shape, boot, nets);
            && UdpInv(shape, m) && m.datagrams == Sound(shape, m.heard)
            && (forall d :: d in m.udpOut ==> |d| == shape.pkgSz && CrcOk(shape, d))
  {
    assert Filtered([], [], 0);
    TurnsKeep(shape, boot, nets);
  }

  /** The UDP server runs exactly while a connection lasts of which some package has asked for a port that could be
      opened; it serves the address the connection came from, at the first port a package came from. */
  lemma UdpFollowsConnection(shape: Shape, boot: Machine, nets: seq<Net>)
    requires Booted(shape, boot)
    ensures var m := Turns(shape, boot, nets);
            && (m.udp.serverStarted <==> m.tcp.connected && PortOpened(m.tcpOut, m.begun))
            && (m.tcp.connected ==> m.udp.clientAddr == m.peer && m.udp.clientUDPPort == FirstPort(m.ports))
  {
    assert Filtered([], [], 0);
    TurnsKeep(shape, boot, nets);
  }

  lemma SelectOne(first: seq<byte>, index: int, rest: seq<seq<byte>>, kept: seq<int>, keep: bool)
    requires |first| >= 2 && HeaderField(first) == Cast16(index)
    requires (forall i :: 0 <= i < |rest| ==> |rest[i]| >= 2) && SeqNumbers(rest) == Numbers(kept)
    ensures var out := (if keep then [first] else []) + rest;
            && (forall i :: 0 <= i < |out| ==> |out[i]| >= 2)
            && SeqNumbers(out) == Numbers((if keep then [index] else []) + kept)
  {
    if keep {
      SeqNumbersCons(first, rest);
      NumbersCons(index, kept);
    } else {
      assert [] + rest == rest && [] + kept == kept;
    }
  }

  lemma {:induction false} SelectNumbers(datagrams: seq<seq<byte>>, indices: seq<int>, keep: seq<bool>)
    requires |datagrams| == |indices| == |keep| && forall i :: 0 <= i < |datagrams| ==> |datagrams[i]| >= 2
    requires SeqNumbers(datagrams) == Numbers(indices)
    ensures forall i :: 0 <= i < |Select(datagrams, keep)| ==> |Select(datagrams, keep)[i]| >= 2
    ensures SeqNumbers(Select(datagrams, keep)) == Numbers(Kept(indices, keep))
  {
    if datagrams != [] {
      assert HeaderField(datagrams[0]) == SeqNumbers(datagrams)[0] == Numbers(indices)[0];
      assert SeqNumbers(datagrams[1..]) == SeqNumbers(datagrams)[1..] == Numbers(indices)[1..] == Numbers(indices[1..]);
      SelectNumbers(datagrams[1..], indices[1..], keep[1..]);
      SelectOne(datagrams[0], indices[0], Select(datagrams[1..], keep[1..]), Kept(indices[1..], keep[1..]), keep[0]);
    }
  }

  lemma NumbersCons(x: int, rest: seq<int>)
    ensures Numbers([x] + rest) == [Cast16(x)] + Numbers(rest)
  {
  }

  lemma SeqNumbersCons(block: seq<byte>, rest: seq<seq<byte>>)
    requires |block| >= 2 && forall i :: 0 <= i < |rest| ==> |rest[i]| >= 2
    ensures SeqNumbers([block] + rest) == [HeaderField(block)] + SeqNumbers(rest)
  {
  }

  /** If the valid datagrams' true indices stay within the window, those handed over come in strictly increasing order
      of index: nothing is handed over twice or out of order. */
  lemma UdpNeverRepeats(shape: Shape, boot: Machine, nets: seq<Net>, indices: seq<int>) returns (kept: seq<int>)
    requires Booted(shape, boot) && InWindow(0, indices)
    requires forall d :: d in Turns(shape, boot, nets).datagrams ==> |d| >= 2
    requires SeqNumbers(Turns(shape, boot, nets).datagrams) == Numbers(indices)
    ensures Ascending(0, kept) && forall i :: i in kept ==> i in indices
    ensures var out := Turns(shape, boot, nets).udpOut;
            (forall d :: d in out ==> |d| >= 2) && SeqNumbers(out) == Numbers(kept)
  {
    var m := Turns(shape, boot, nets);
    assert Filtered([], [], 0);
    TurnsKeep(shape, boot, nets);
    assert |SeqNumbers(m.datagrams)| == |Numbers(indices)|;
    NoDuplicateNoReorder(0, indices);
    var keep := Accepted(0, Numbers(indices));
    kept := Kept(indices, keep);
    SelectNumbers(m.datagrams, indices, keep);
    KeptMembers(indices, keep);
  }

  lemma {:induction false} KeptMembers(indices: seq<int>, keep: seq<bool>)
    requires |indices| == |keep|
    ensures forall i :: i in Kept(indices, keep) ==> i in indices
  {
    if indices != [] {
      KeptMembers(indices[1..], keep[1..]);
    }
  }

  // ---------------------------------------------------------------- the objects

  class TCPServer {
    const shape: Shape
    const rxBuff: array<byte>
    var connected: bool
    var pkgLeft: nat

    ghost predicate Valid()
      reads this
    {
      shape.Valid() && rxBuff.Length == shape.pkgSz && pkgLeft <= shape.pkgSz
    }

    constructor (shape: Shape, rxBuff: array<byte>)
      requires shape.Valid() && rxBuff.Length == shape.pkgSz
      ensures Valid() && !connected && this.shape == shape && this.rxBuff == rxBuff
    {
      this.shape, this.rxBuff := shape, rxBuff;
      connected, pkgLeft := false, 0;
    }

    /** `snoozed`: whether the connection alarm is put off. */
    method ProcessRX(net: Net) returns (event: Event, snoozed: bool)
      requires Valid()
      modifies this, rxBuff
      ensures Valid() && snoozed == (event.Connected? || event.NewRequest?)
      ensures (Tcp(connected, pkgLeft), rxBuff[..], event)
              == TcpTurn(shape, old(Tcp(connected, pkgLeft)), old(rxBuff[..]), net)
    {
      if !connected {
        if net.pending.None? {
          return NoEvent(false), false;
        }
        connected, pkgLeft := true, shape.pkgSz;
        return Connected(net.pending.value), true;
      }
      if net.alarm || !net.alive {
        connected := false;
        return Disconnected, false;
      }
      var avail := |net.arrived|;
      if avail < 1 {
        return NoEvent(pkgLeft < shape.pkgSz), false;
      }
      var n := if pkgLeft > avail then avail else pkgLeft;
      CopyInto(rxBuff, shape.pkgSz - pkgLeft, net.arrived[..n]);
      pkgLeft := pkgLeft - n;
      if pkgLeft > 0 {
        return NoEvent(true), false;
      }
      var block := rxBuff[..];
      var crc := Crc8.Crc8Firmware(block[..shape.metaSz]);
      if crc != block[shape.metaSz] {
        connected := false;
        return Disconnected, false;
      }
      pkgLeft := shape.pkgSz;
      return NewRequest(HeaderField(block)), true;
    }
  }

  class UDPServer {
    const shape: Shape
    const rxBuff: array<byte>
    var clientAddr: Option<nat>
    var clientUDPPort: u16
    var serverSeq: u16
    var clientSeq: u16
    var serverStarted: bool

    ghost predicate Valid()
      reads this
    {
      shape.Valid() && rxBuff.Length == shape.pkgSz
    }

    ghost function View(): Udp
      reads this
    {
      Udp(clientAddr, clientUDPPort, serverSeq, clientSeq, serverStarted)
    }

    constructor (shape: Shape, rxBuff: array<byte>)
      requires shape.Valid() && rxBuff.Length == shape.pkgSz
      ensures Valid() && View() == Udp(None, 0, 0, 0, false) && this.shape == shape && this.rxBuff == rxBuff
    {
      this.shape, this.rxBuff := shape, rxBuff;
      clientAddr, clientUDPPort, serverSeq, clientSeq, serverStarted := None, 0, 0, 0, false;
    }

    /** True when the datagram in the buffer is not newer; otherwise its number is remembered. */
    method DropOldSeq() returns (drop: bool)
      requires Valid()
      modifies this`serverSeq
      ensures drop == !Newer(old(serverSeq), HeaderField(rxBuff[..]))
      ensures serverSeq == if drop then old(serverSeq) else HeaderField(rxBuff[..])
    {
      var checkSeq := HeaderField(rxBuff[..]);
      if Cast16(serverSeq - checkSeq) > Cast16(checkSeq - serverSeq) {
        serverSeq := checkSeq;
        return false;
      }
      return true;
    }

    method ProcessRX(ctlEvent: Event, net: Net) returns (event: Event, snoozed: bool)
      requires Valid()
      modifies this, rxBuff
      ensures Valid() && snoozed == (ctlEvent.NoEvent? && event.NewRequest?)
      ensures (View(), rxBuff[..], event) == UdpTurn(shape, old(View()), old(rxBuff[..]), ctlEvent, net)
    {
      match ctlEvent {
        case Disconnected =>
          serverStarted, clientUDPPort, serverSeq, clientSeq, clientAddr := false, 0, 0, 0, None;
          return ctlEvent, false;
        case Connected(addr) =>
          serverStarted, clientUDPPort, serverSeq, clientSeq, clientAddr := false, 0, 0, 0, Some(addr);
          return ctlEvent, false;
        case NewRequest(udpPort) =>
          if !serverStarted && udpPort > 0 {
            serverStarted := net.begun;
          }
          return ctlEvent, false;
        case NoEvent(pkgReading) =>
          if !serverStarted || pkgReading {
            return ctlEvent, false;
          }
      }
      if net.datagram.None? || |net.datagram.value.bytes| < 1 {
        return NoEvent(false), false;
      }
      var d := net.datagram.value;
      var dr := Min(|d.bytes|, shape.pkgSz);
      CopyInto(rxBuff, 0, d.bytes[..dr]);
      if dr != shape.pkgSz {
        return NoEvent(false), false;
      }
      var block := rxBuff[..];
      assert block == d.bytes[..shape.pkgSz];
      var crc := Crc8.Crc8Firmware(block[..shape.metaSz]);
      if crc != block[shape.metaSz] {
        return NoEvent(false), false;
      }
      var drop := DropOldSeq();
      if drop {
        return NoEvent(false), false;
      }
      if clientUDPPort < 1 {
        clientUDPPort := d.port;
      }
      return NewRequest(0), true;
    }
  }

  /** The receiving part of `loop`: TCP first, then UDP with TCP's event, on the one shared buffer.  The connection
      alarm is put off by a new connection and by every request handed over. */
  method ReceiveTurn(tcp: TCPServer, udp: UDPServer, net: Net)
    returns (tcpEvent: Event, event: Event, snoozed: bool)
    requires tcp.Valid() && udp.Valid() && tcp.rxBuff == udp.rxBuff && tcp.shape == udp.shape
    modifies tcp, udp, tcp.rxBuff
    ensures tcp.Valid() && udp.Valid() && snoozed == (tcpEvent.Connected? || event.NewRequest?)
    ensures var r := TcpTurn(tcp.shape, old(Tcp(tcp.connected, tcp.pkgLeft)), old(tcp.rxBuff[..]), net);
            && Tcp(tcp.connected, tcp.pkgLeft) == r.0 && tcpEvent == r.2
            && (udp.View(), tcp.rxBuff[..], event) == UdpTurn(tcp.shape, old(udp.View()), r.1, tcpEvent, net)
  {
    var byTcp, byUdp;
    tcpEvent, byTcp := tcp.ProcessRX(net);
    event, byUdp := udp.ProcessRX(tcpEvent, net);
    snoozed := byTcp || byUdp;
  }

  /** Both ways a piece can continue a stream that has `held` in progress. */
  lemma CutContinues(shape: Shape, stream: seq<byte>, piece: seq<byte>, held: seq<byte>)
    requires shape.Valid() && !CutStream(shape, stream).failed && held == CutStream(shape, stream).rest
    requires |held| + |piece| <= shape.pkgSz
    ensures var before, after := CutStream(shape, stream), CutStream(shape, stream + piece);
            if |held| + |piece| < shape.pkgSz then after == before.(rest := held + piece)
            else if CrcOk(shape, held + piece) then after == Cut(before.packages + [held + piece], [], false)
            else after.packages == before.packages && after.failed
  {
    if |held| + |piece| < shape.pkgSz {
      CutGrows(shape, stream, piece);
    } else {
      CutCompletes(shape, stream, piece);
    }
  }

  /** The receive loop has read a stream with cut `c`. */
  predicate Collected(shape: Shape, buff: seq<byte>, dataLeft: nat, packages: seq<seq<byte>>, failed: bool, c: Cut)
    requires |buff| == shape.pkgSz
  {
    && packages == c.packages && failed == c.failed
    && (!failed ==> 0 < dataLeft <= shape.pkgSz && c.rest == buff[..shape.pkgSz - dataLeft])
  }

  /** One successful `recv`: the piece goes behind the bytes in progress; the last one brings the checksum test. */
  method ReceivePiece(shape: Shape, rxBuff: array<byte>, dataLeft: nat, piece: seq<byte>, packages: seq<seq<byte>>,
                      ghost stream: seq<byte>) returns (left: nat, sent: seq<seq<byte>>, failed: bool)
    requires shape.Valid() && rxBuff.Length == shape.pkgSz && 0 < |piece| <= dataLeft
    requires Collected(shape, rxBuff[..], dataLeft, packages, false, CutStream(shape, stream))
    modifies rxBuff
    ensures Collected(shape, rxBuff[..], left, sent, failed, CutStream(shape, stream + piece))
    ensures !failed ==> left == if |piece| == dataLeft then shape.pkgSz else dataLeft - |piece|
  {
    ghost var held := rxBuff[..shape.pkgSz - dataLeft];
    assert rxBuff[..][..shape.pkgSz - dataLeft] == held;
    CopyInto(rxBuff, shape.pkgSz - dataLeft, piece);
    assert rxBuff[..][..|held| + |piece|] == held + piece;
    CutContinues(shape, stream, piece, held);
    left, sent, failed := dataLeft - |piece|, packages, false;
    if left == 0 {
      var block := rxBuff[..];
      assert block == held + piece;
      var crc := Crc8.Crc8Client(block[..shape.metaSz]);
      if block[shape.metaSz] != crc {
        failed := true;
      } else {
        sent, left := packages + [block], shape.pkgSz;
        assert block[..0] == [];
      }
    }
  }

  /** How many of the available bytes the calls from the i-th on read when `left` are missing to a whole package and
      each call returns at most its limit. */
  function Reads(pkgSz: nat, left: nat, available: nat, limits: seq<nat>, i: nat): nat
    decreases |limits| - i
  {
    if i >= |limits| then 0
    else
      var dr := Min(limits[i], Min(left, available));
      dr + Reads(pkgSz, if dr == left then pkgSz else left - dr, available - dr, limits, i + 1)
  }

  /** How many of the calls from the i-th on are not interrupted. */
  function Successful(limits: seq<nat>, i: nat): nat
    decreases |limits| - i
  {
    if i >= |limits| then 0 else (if limits[i] > 0 then 1 else 0) + Successful(limits, i + 1)
  }

  /** Every call that is not interrupted gets on, as long as there is something to read. */
  lemma {:induction false} ReadsGetOn(pkgSz: nat, left: nat, available: nat, limits: seq<nat>, i: nat)
    requires 0 < left <= pkgSz
    ensures Min(available, Successful(limits, i)) <= Reads(pkgSz, left, available, limits, i) <= available
    decreases |limits| - i
  {
    if i < |limits| {
      var dr := Min(limits[i], Min(left, available));
      ReadsGetOn(pkgSz, if dr == left then pkgSz else left - dr, available - dr, limits, i + 1);
    }
  }

  /** `n` calls that may return a whole package each get one. */
  lemma {:induction false} ReadsWholePackages(pkgSz: nat, available: nat, limits: seq<nat>, i: nat, n: nat)
    requires pkgSz > 0 && i + n == |limits| && (forall k :: i <= k < |limits| ==> limits[k] >= pkgSz)
    requires available >= pkgSz * n
    ensures Reads(pkgSz, pkgSz, available, limits, i) == pkgSz * n
    decreases n
  {
    if n > 0 {
      MulStep(pkgSz, n - 1);
      ReadsWholePackages(pkgSz, available - pkgSz, limits, i + 1, n - 1);
    } else {
      assert pkgSz * 0 == 0;
    }
  }

  /** `consumed` of `size` bytes are read, and the calls to come read what is missing to `total`. */
  predicate ToCome(total: nat, consumed: nat, size: nat, pkgSz: nat, left: nat, limits: seq<nat>, i: nat) {
    left > 0 && consumed <= size && consumed + Reads(pkgSz, left, size - consumed, limits, i) == total
  }

  lemma ReadsStep(total: nat, consumed: nat, size: nat, pkgSz: nat, left: nat, limits: seq<nat>, i: nat)
    requires ToCome(total, consumed, size, pkgSz, left, limits, i) && i < |limits| && pkgSz > 0
    ensures var dr := Min(limits[i], Min(left, size - consumed));
            ToCome(total, consumed + dr, size, pkgSz, if dr == left then pkgSz else left - dr, limits, i + 1)
  {
    var dr := Min(limits[i], Min(left, size - consumed));
    assert size - consumed - dr == size - (consumed + dr);
  }

  /** The receive loop has come to its i-th call, having read `consumed` bytes; all calls together read `total`. */
  ghost predicate InLoop(shape: Shape, buff: seq<byte>, arrived: seq<byte>, limits: seq<nat>, total: nat, i: nat,
                         consumed: nat, dataLeft: nat, packages: seq<seq<byte>>, failed: bool)
    requires shape.Valid() && |buff| == shape.pkgSz
  {
    && consumed <= |arrived|
    && Collected(shape, buff, dataLeft, packages, failed, CutStream(shape, arrived[..consumed]))
    && (!failed ==> ToCome(total, consumed, |arrived|, shape.pkgSz, dataLeft, limits, i))
  }

  /** What one call leaves behind. */
  lemma CallDone(shape: Shape, buff: seq<byte>, arrived: seq<byte>, limits: seq<nat>, total: nat, i: nat,
                 consumed: nat, dataLeft: nat, dr: nat, left: nat, sent: seq<seq<byte>>, failed: bool)
    requires shape.Valid() && |buff| == shape.pkgSz && i < |limits|
    requires ToCome(total, consumed, |arrived|, shape.pkgSz, dataLeft, limits, i)
    requires dr == Min(limits[i], Min(dataLeft, |arrived| - consumed))
    requires Collected(shape, buff, left, sent, failed,
                       CutStream(shape, arrived[..consumed] + arrived[consumed..consumed + dr]))
    requires !failed ==> left == if dr == dataLeft then shape.pkgSz else dataLeft - dr
    ensures InLoop(shape, buff, arrived, limits, total, i + 1, consumed + dr, left, sent, failed)
  {
    ReadsStep(total, consumed, |arrived|, shape.pkgSz, dataLeft, limits, i);
    assert arrived[..consumed + dr] == arrived[..consumed] + arrived[consumed..consumed + dr];
  }

  /** One `recv`. */
  method ReceiveOnce(shape: Shape, rxBuff: array<byte>, arrived: seq<byte>, limits: seq<nat>, ghost total: nat, i: nat,
                     consumed: nat, dataLeft: nat, packages: seq<seq<byte>>)
    returns (dr: nat, left: nat, sent: seq<seq<byte>>, failed: bool)
    requires shape.Valid() && rxBuff.Length == shape.pkgSz && i < |limits|
    requires InLoop(shape, rxBuff[..], arrived, limits, total, i, consumed, dataLeft, packages, false)
    modifies rxBuff
    ensures InLoop(shape, rxBuff[..], arrived, limits, total, i + 1, consumed + dr, left, sent, failed)
  {
    dr := Min(limits[i], Min(dataLeft, |arrived| - consumed));
    var piece := arrived[consumed..consumed + dr];
    left, sent, failed := dataLeft, packages, false;
    if dr > 0 {
      left, sent, failed := ReceivePiece(shape, rxBuff, dataLeft, piece, packages, arrived[..consumed]);
    } else {
      assert arrived[..consumed] + piece == arrived[..consumed];
    }
    CallDone(shape, rxBuff[..], arrived, limits, total, i, consumed, dataLeft, dr, left, sent, failed);
  }

  /** What the loop leaves behind when it ends. */
  lemma LoopEnds(shape: Shape, buff: seq<byte>, arrived: seq<byte>, limits: seq<nat>, total: nat, i: nat,
                 consumed: nat, dataLeft: nat, packages: seq<seq<byte>>, failed: bool)
    requires shape.Valid() && |buff| == shape.pkgSz
    requires InLoop(shape, buff, arrived, limits, total, i, consumed, dataLeft, packages, failed)
    requires failed || i >= |limits|
    ensures packages == CutStream(shape, arrived[..consumed]).packages
    ensures failed == CutStream(shape, arrived[..consumed]).failed
    ensures !failed ==> consumed == total
    ensures Concat(packages) + CutStream(shape, arrived[..consumed]).rest == arrived[..consumed]
  {
    CutWhole(shape, arrived[..consumed]);
  }

  /** The client's receive loop on one connection: each `recv` returns at most `limits[i]` of the bytes still needed,
      zero standing for an interrupted call.  Whatever the pieces, the packages sent on are the cut of what was read,
      and unless a block fails, that is as much as the calls give. */
  method ClientReceive(shape: Shape, rxBuff: array<byte>, arrived: seq<byte>, limits: seq<nat>)
    returns (packages: seq<seq<byte>>, consumed: nat, failed: bool)
    requires shape.Valid() && rxBuff.Length == shape.pkgSz
    modifies rxBuff
    ensures consumed <= |arrived|
    ensures packages == CutStream(shape, arrived[..consumed]).packages
    ensures failed == CutStream(shape, arrived[..consumed]).failed
    ensures Concat(packages) + CutStream(shape, arrived[..consumed]).rest == arrived[..consumed]
    ensures !failed ==> consumed == Reads(shape.pkgSz, shape.pkgSz, |arrived|, limits, 0)
    ensures !failed ==> consumed >= Min(|arrived|, Successful(limits, 0))
  {
    ghost var total := Reads(shape.pkgSz, shape.pkgSz, |arrived|, limits, 0);
    ReadsGetOn(shape.pkgSz, shape.pkgSz, |arrived|, limits, 0);
    packages, consumed, failed := [], 0, false;
    var dataLeft := shape.pkgSz;
    var i := 0;
    assert arrived[..0] == [] && rxBuff[..][..0] == [];
    while i < |limits| && !failed
      invariant i <= |limits|
      invariant InLoop(shape, rxBuff[..], arrived, limits, total, i, consumed, dataLeft, packages, failed)
      decreases |limits| - i
    {
      var dr;
      dr, dataLeft, packages, failed :=
        ReceiveOnce(shape, rxBuff, arrived, limits, total, i, consumed, dataLeft, packages);
      consumed, i := consumed + dr, i + 1;
    }
    LoopEnds(shape, rxBuff[..], arrived, limits, total, i, consumed, dataLeft, packages, failed);
  }
}

/**
 Package layout and codecs for any number of ports and any payload size (Client/Src/Config.cpp, Command.cpp,
 DataProcessor.cpp, the packing half of TCPTransport.cpp and UDPTransport.cpp; MapRequest, WriteResponse and the
 interval decoding in Firmware/UARTEthernetBridge/main_loop.cpp).
 */
module Wire {
  import opened Arithmetic
  import opened Bytes
  import opened Command
  import Crc8
  import opened SeqWindow
  import opened Receive

  const PKG_HDR_SZ: nat := 6
  const PKG_CNT_OFFSET: nat := 2
  const PKG_CNT_SIZE: nat := 4
  const CMD_HDR_SIZE: nat := 3
  const META_CRC_SZ: nat := 1

  datatype Layout = Layout(ports: nat, payloadSz: nat)
  {
    function MetaSz(): nat { PKG_HDR_SZ + CMD_HDR_SIZE * ports }
    function PackageSize(): nat { MetaSz() + META_CRC_SZ + payloadSz * ports }
    function PortOffset(i: nat): nat { MetaSz() + META_CRC_SZ + payloadSz * i }
  }

  function SlotOffset(i: nat): nat { PKG_HDR_SZ + i * CMD_HDR_SIZE }

  // ---------------------------------------------------------------- the layout tiles the package

  datatype Region = Header | Counter | Slot(i: nat) | Crc | Payload(i: nat)

  predicate Exists(l: Layout, r: Region) {
    (r.Slot? ==> r.i < l.ports) && (r.Payload? ==> r.i < l.ports)
  }

  function Start(l: Layout, r: Region): nat {
    match r
    case Header => 0
    case Counter => PKG_CNT_OFFSET
    case Slot(i) => SlotOffset(i)
    case Crc => l.MetaSz()
    case Payload(i) => l.PortOffset(i)
  }

  function Size(l: Layout, r: Region): nat {
    match r
    case Header => 2
    case Counter => PKG_CNT_SIZE
    case Slot(_) => CMD_HDR_SIZE
    case Crc => META_CRC_SZ
    case Payload(_) => l.payloadSz
  }

  predicate Covers(l: Layout, r: Region, x: nat) {
    Exists(l, r) && Start(l, r) <= x < Start(l, r) + Size(l, r)
  }

  /** Slots of `p` bytes lie one behind the other. */
  lemma SlotBefore(p: nat, i: nat, n: nat)
    requires i < n
    ensures p * i + p <= p * n && p * i + p == p * (i + 1)
  {
    MulStep(p, i);
    MulMonotone(p, i + 1, n);
  }

  /** No region sticks out of the package. */
  lemma RegionInside(l: Layout, r: Region)
    requires Exists(l, r)
    ensures Start(l, r) + Size(l, r) <= l.PackageSize()
  {
    if r.Payload? {
      SlotBefore(l.payloadSz, r.i, l.ports);
    }
  }

  /** Two different regions share no byte. */
  lemma RegionsDisjoint(l: Layout, r: Region, q: Region)
    requires Exists(l, r) && Exists(l, q) && r != q
    ensures Start(l, r) + Size(l, r) <= Start(l, q) || Start(l, q) + Size(l, q) <= Start(l, r)
  {
    if r.Payload? && q.Payload? {
      if r.i < q.i {
        SlotBefore(l.payloadSz, r.i, q.i);
      } else {
        SlotBefore(l.payloadSz, q.i, r.i);
      }
    }
  }

  /** Every byte of the package belongs to some region. */
  lemma RegionsCover(l: Layout, x: nat) returns (r: Region)
    requires x < l.PackageSize()
    ensures Covers(l, r, x)
  {
    if x < 2 {
      r := Header;
    } else if x < PKG_HDR_SZ {
      r := Counter;
    } else if x < l.MetaSz() {
      r := Slot((x - PKG_HDR_SZ) / CMD_HDR_SIZE);
    } else if x == l.MetaSz() {
      r := Crc;
    } else {
      r := Payload(Position(x - l.MetaSz() - META_CRC_SZ, l.payloadSz, l.ports));
    }
  }

  /** The payload slot that holds byte `y` of the payload area. */
  function Position(y: nat, p: nat, n: nat): (i: nat)
    requires y < p * n
    ensures i < n && p * i <= y < p * i + p
    decreases n
  {
    if y >= p * (n - 1) then n - 1
    else Position(y, p, n - 1)
  }

  // ---------------------------------------------------------------- codecs

  /** `Request::Write` and `WriteResponse` put the same three bytes. */
  function SlotBytes(c: Request): seq<byte> { [c.kind as byte, c.arg as byte, c.plSz as byte] }

  /** `MapRequest`, and `Response::Map` apart from the counter. */
  function SlotOf(field: seq<byte>): Request
    requires |field| == CMD_HDR_SIZE
  {
    Request(field[0] as int, field[1] as int, field[2] as int)
  }

  // Conversion to an octet and back, in blocks small enough to be decided quickly.
  lemma Octets0(x: int) requires 0 <= x < 16 ensures (x as byte) as int == x {}
  lemma Octets1(x: int) requires 16 <= x < 32 ensures (x as byte) as int == x {}
  lemma Octets2(x: int) requires 32 <= x < 48 ensures (x as byte) as int == x {}
  lemma Octets3(x: int) requires 48 <= x < 64 ensures (x as byte) as int == x {}
  lemma Octets4(x: int) requires 64 <= x < 80 ensures (x as byte) as int == x {}
  lemma Octets5(x: int) requires 80 <= x < 96 ensures (x as byte) as int == x {}
  lemma Octets6(x: int) requires 96 <= x < 112 ensures (x as byte) as int == x {}
  lemma Octets7(x: int) requires 112 <= x < 128 ensures (x as byte) as int == x {}
  lemma Octets8(x: int) requires 128 <= x < 144 ensures (x as byte) as int == x {}
  lemma Octets9(x: int) requires 144 <= x < 160 ensures (x as byte) as int == x {}
  lemma OctetsA(x: int) requires 160 <= x < 176 ensures (x as byte) as int == x {}
  lemma OctetsB(x: int) requires 176 <= x < 192 ensures (x as byte) as int == x {}
  lemma OctetsC(x: int) requires 192 <= x < 208 ensures (x as byte) as int == x {}
  lemma OctetsD(x: int) requires 208 <= x < 224 ensures (x as byte) as int == x {}
  lemma OctetsE(x: int) requires 224 <= x < 240 ensures (x as byte) as int == x {}
  lemma OctetsF(x: int) requires 240 <= x < 256 ensures (x as byte) as int == x {}

  lemma ByteRoundTrip(x: u8)
    ensures (x as byte) as int == x
  {
    if x < 0x80 {
      if x < 16 { Octets0(x); } else if x < 32 { Octets1(x); }
      else if x < 48 { Octets2(x); } else if x < 64 { Octets3(x); }
      else if x < 80 { Octets4(x); } else if x < 96 { Octets5(x); }
      else if x < 112 { Octets6(x); } else if x < 128 { Octets7(x); }
    } else {
      if x < 144 { Octets8(x); } else if x < 160 { Octets9(x); }
      else if x < 176 { OctetsA(x); } else if x < 192 { OctetsB(x); }
      else if x < 208 { OctetsC(x); } else if x < 224 { OctetsD(x); }
      else if x < 240 { OctetsE(x); } else if x < 256 { OctetsF(x); }
    }
  }

  lemma SlotRoundTrip(c: Request)
    ensures SlotOf(SlotBytes(c)) == c
  {
    ByteRoundTrip(c.kind);
    ByteRoundTrip(c.arg);
    ByteRoundTrip(c.plSz);
  }

  /** `WriteU16Value`. */
  function U16Bytes(v: u16): seq<byte> { [(v % 0x100) as byte, (v / 0x100) as byte] }

  lemma U16RoundTrip(v: u16, block: seq<byte>)
    requires |block| >= 2 && block[..2] == U16Bytes(v)
    ensures HeaderField(block) == v
  {
    ByteRoundTrip(v % 0x100);
    ByteRoundTrip(v / 0x100);
    assert block[0] == block[..2][0] && block[1] == block[..2][1];
  }

  /** Four octets put together, lowest first. */
  function Join(b0: byte, b1: byte, b2: byte, b3: byte): bv32 {
    (b0 as bv32) | ((b1 as bv32) << 8) | ((b2 as bv32) << 16) | ((b3 as bv32) << 24)
  }

  lemma JoinSplit(v: bv32)
    ensures var b := U32Bytes(v); Join(b[0], b[1], b[2], b[3]) == v
  {
    var b := U32Bytes(v);
    JoinBits(v, b[0], b[1], b[2], b[3]);
  }

  lemma JoinBits(v: bv32, b0: byte, b1: byte, b2: byte, b3: byte)
    requires b0 == (v & 0xFF) as byte && b1 == ((v >> 8) & 0xFF) as byte
    requires b2 == ((v >> 16) & 0xFF) as byte && b3 == ((v >> 24) & 0xFF) as byte
    ensures (b0 as bv32) | ((b1 as bv32) << 8) | ((b2 as bv32) << 16) | ((b3 as bv32) << 24) == v
  {
  }

  lemma HighBits(b0: byte, b1: byte, b2: byte, b3: byte)
    ensures ((((b0 as bv32) | ((b1 as bv32) << 8) | ((b2 as bv32) << 16) | ((b3 as bv32) << 24)) >> 24) & 0xFF) as byte
            == b3
  {
  }

  lemma SmallBits(v: bv32)
    requires v < 0x1_0000
    ensures ((v >> 16) & 0xFF) as byte == ((v >> 24) & 0xFF) as byte
  {
  }

  /** The event counter as a 32-bit field, put together from its four low digits to base 256. */
  function Low32(counter: nat): bv32 {
    Join(Digit(counter), Digit(counter / 0x100), Digit(counter / 0x100 / 0x100), Digit(counter / 0x100 / 0x100 / 0x100))
  }

  function Digit(n: nat): byte { (n % 0x100) as byte }

  /** The number that four octets stand for, lowest first. */
  function NumberOf(b: seq<byte>): nat
    requires |b| == 4
  {
    b[0] as int + 0x100 * (b[1] as int) + 0x1_0000 * (b[2] as int) + 0x100_0000 * (b[3] as int)
  }

  lemma SplitJoin(b0: byte, b1: byte, b2: byte, b3: byte)
    ensures U32Bytes(Join(b0, b1, b2, b3)) == [b0, b1, b2, b3]
  {
  }

  /** Four octets are determined by the 32-bit value they make up. */
  lemma CounterIsInjective(b: seq<byte>, v: bv32)
    requires |b| == 4 && CounterOf(b) == v
    ensures b == U32Bytes(v)
  {
    SplitJoin(b[0], b[1], b[2], b[3]);
  }

  /** A counter field that was written from an event counter holds that counter modulo 2^32. */
  lemma CounterReadsBack(b: seq<byte>, counter: nat)
    requires |b| == 4 && CounterOf(b) == Low32(counter)
    ensures NumberOf(b) == counter % 0x1_0000_0000
  {
    var n1 := counter / 0x100;
    var n2 := n1 / 0x100;
    var n3 := n2 / 0x100;
    CounterIsInjective(b, Low32(counter));
    SplitJoin(Digit(counter), Digit(n1), Digit(n2), Digit(n3));
    ByteRoundTrip(counter % 0x100);
    ByteRoundTrip(n1 % 0x100);
    ByteRoundTrip(n2 % 0x100);
    ByteRoundTrip(n3 % 0x100);
    Digits(counter);
  }

  lemma Digits(n: nat)
    ensures var n1 := n / 0x100;
            var n2 := n1 / 0x100;
            var n3 := n2 / 0x100;
            n % 0x100 + 0x100 * (n1 % 0x100) + 0x1_0000 * (n2 % 0x100) + 0x100_0000 * (n3 % 0x100)
            == n % 0x1_0000_0000
  {
    var n1 := n / 0x100;
    var n2 := n1 / 0x100;
    var n3 := n2 / 0x100;
    var low := n % 0x100 + 0x100 * (n1 % 0x100) + 0x1_0000 * (n2 % 0x100) + 0x100_0000 * (n3 % 0x100);
    assert n == low + 0x1_0000_0000 * (n3 / 0x100);
    ModUnique(n, n3 / 0x100, low, 0x1_0000_0000);
  }

  /** The counter as `Response::Map` reads it. */
  function CounterOf(b: seq<byte>): bv32
    requires |b| == 4
  {
    Join(b[0], b[1], b[2], b[3])
  }

  /** The counter field round-trips every 32-bit value. */
  lemma CounterRoundTrip(v: bv32)
    ensures CounterOf(U32Bytes(v)) == v
  {
    JoinSplit(v);
  }

  /** The poll interval as the firmware reads it: byte 2 stands in for byte 3. */
  function IntervalOf(b: seq<byte>): bv32
    requires |b| == 4
  {
    Join(b[0], b[1], b[2], b[2])
  }

  /** The interval survives exactly when its two high bytes are equal, in particular below 65536. */
  lemma IntervalRoundTrip(v: bv32)
    ensures IntervalOf(U32Bytes(v)) == v <==> U32Bytes(v)[2] == U32Bytes(v)[3]
    ensures v < 0x1_0000 ==> IntervalOf(U32Bytes(v)) == v
  {
    var b := U32Bytes(v);
    JoinSplit(v);
    HighBits(b[0], b[1], b[2], b[2]);
    if v < 0x1_0000 {
      SmallBits(v);
    }
  }

  /** The smallest interval that does not survive. */
  lemma IntervalFails()
    ensures IntervalOf(U32Bytes(0x1_0000)) == 0x101_0000
  {
  }

  // ---------------------------------------------------------------- building and reading packages

  /** The bytes of one region. */
  function Field(l: Layout, b: seq<byte>, r: Region): (f: seq<byte>)
    requires |b| == l.PackageSize() && Exists(l, r)
    ensures |f| == Size(l, r)
  {
    RegionInside(l, r);
    b[Start(l, r)..Start(l, r) + Size(l, r)]
  }

  lemma FieldElsewhere(l: Layout, b: seq<byte>, r: Region, chunk: seq<byte>, q: Region)
    requires |b| == l.PackageSize() && Exists(l, r) && Exists(l, q) && r != q && |chunk| <= Size(l, r)
    ensures Start(l, r) + |chunk| <= |b|
    ensures Field(l, Overwrite(b, Start(l, r), chunk), q) == Field(l, b, q)
  {
    RegionInside(l, r);
    RegionInside(l, q);
    RegionsDisjoint(l, r, q);
    SliceElsewhere(b, Start(l, r), chunk, Start(l, q), Size(l, q));
  }

  lemma FieldThere(l: Layout, b: seq<byte>, r: Region, chunk: seq<byte>)
    requires |b| == l.PackageSize() && Exists(l, r) && |chunk| <= Size(l, r)
    ensures Start(l, r) + |chunk| <= |b|
    ensures Field(l, Overwrite(b, Start(l, r), chunk), r)[..|chunk|] == chunk
  {
    RegionInside(l, r);
  }

  /** Write a region from its start; every other region keeps its bytes. */
  method WriteField(l: Layout, buff: array<byte>, r: Region, chunk: seq<byte>)
    requires buff.Length == l.PackageSize() && Exists(l, r) && |chunk| <= Size(l, r)
    modifies buff
    ensures Field(l, buff[..], r)[..|chunk|] == chunk
    ensures forall q | Exists(l, q) && q != r :: Field(l, buff[..], q) == old(Field(l, buff[..], q))
  {
    ghost var before := buff[..];
    RegionInside(l, r);
    CopyInto(buff, Start(l, r), chunk);
    FieldThere(l, before, r, chunk);
    forall q | Exists(l, q) && q != r
      ensures Field(l, buff[..], q) == Field(l, before, q)
    {
      FieldElsewhere(l, before, r, chunk, q);
    }
  }

  /** The first `n` ports' requests and payloads can be read back from `b`. */
  predicate Decodes(l: Layout, b: seq<byte>, requests: seq<Request>, payloads: seq<seq<byte>>, n: nat)
    requires |b| == l.PackageSize() && n <= l.ports && n <= |requests| && n <= |payloads|
  {
    forall i: nat :: i < n ==>
      && SlotOf(Field(l, b, Slot(i))) == requests[i]
      && |payloads[i]| <= l.payloadSz && Field(l, b, Payload(i))[..|payloads[i]|] == payloads[i]
  }

  lemma DecodesSame(l: Layout, a: seq<byte>, b: seq<byte>, requests: seq<Request>, payloads: seq<seq<byte>>, n: nat)
    requires |a| == |b| == l.PackageSize() && n <= l.ports && n <= |requests| && n <= |payloads|
    requires Decodes(l, a, requests, payloads, n)
    requires forall i: nat | i < n ::
               Field(l, a, Slot(i)) == Field(l, b, Slot(i)) && Field(l, a, Payload(i)) == Field(l, b, Payload(i))
    ensures Decodes(l, b, requests, payloads, n)
  {
  }

  method WriteCounter(l: Layout, txBuff: array<byte>, value: bv32)
    requires txBuff.Length == l.PackageSize()
    modifies txBuff
    ensures CounterOf(Field(l, txBuff[..], Counter)) == value
    ensures forall q | Exists(l, q) && q != Counter :: Field(l, txBuff[..], q) == old(Field(l, txBuff[..], q))
  {
    WriteField(l, txBuff, Counter, U32Bytes(value));
    assert Field(l, txBuff[..], Counter) == U32Bytes(value);
    CounterRoundTrip(value);
  }

  /** Fields of one kind, from the i-th on. */
  function SlotFields(l: Layout, b: seq<byte>, i: nat): seq<seq<byte>>
    requires |b| == l.PackageSize() && i <= l.ports
    decreases l.ports - i
  {
    if i == l.ports then [] else [Field(l, b, Slot(i))] + SlotFields(l, b, i + 1)
  }

  function PayloadFields(l: Layout, b: seq<byte>, i: nat): seq<seq<byte>>
    requires |b| == l.PackageSize() && i <= l.ports
    decreases l.ports - i
  {
    if i == l.ports then [] else [Field(l, b, Payload(i))] + PayloadFields(l, b, i + 1)
  }

  lemma {:induction false} SlotsInRow(l: Layout, b: seq<byte>, i: nat)
    requires |b| == l.PackageSize() && i <= l.ports
    ensures Concat(SlotFields(l, b, i)) == b[PKG_HDR_SZ + CMD_HDR_SIZE * i..l.MetaSz()]
    decreases l.ports - i
  {
    if i < l.ports {
      SlotsInRow(l, b, i + 1);
      RegionInside(l, Slot(i));
      assert ([Field(l, b, Slot(i))] + SlotFields(l, b, i + 1))[1..] == SlotFields(l, b, i + 1);
    }
  }

  lemma {:induction false} PayloadsInRow(l: Layout, b: seq<byte>, i: nat)
    requires |b| == l.PackageSize() && i <= l.ports
    ensures l.PortOffset(i) <= |b| && Concat(PayloadFields(l, b, i)) == b[l.PortOffset(i)..]
    decreases l.ports - i
  {
    MulMonotone(l.payloadSz, i, l.ports);
    if i < l.ports {
      PayloadsInRow(l, b, i + 1);
      MulStep(l.payloadSz, i);
      RegionInside(l, Payload(i));
      assert ([Field(l, b, Payload(i))] + PayloadFields(l, b, i + 1))[1..] == PayloadFields(l, b, i + 1);
    }
  }

  /** A package is its fields one after the other: header, counter, commands port by port, checksum, payloads port by
      port. */
  lemma PackageIsItsFields(l: Layout, b: seq<byte>)
    requires |b| == l.PackageSize()
    ensures b == Field(l, b, Header) + Field(l, b, Counter) + Concat(SlotFields(l, b, 0)) + Field(l, b, Crc)
                 + Concat(PayloadFields(l, b, 0))
  {
    SlotsInRow(l, b, 0);
    PayloadsInRow(l, b, 0);
    assert l.payloadSz * 0 == 0;
  }

  /** Writing inside the span of one region leaves the other fields alone. */
  lemma FieldsOutside(l: Layout, a: seq<byte>, b: seq<byte>, r: Region)
    requires |a| == |b| == l.PackageSize() && Exists(l, r) && Start(l, r) + Size(l, r) <= |a|
    requires a[..Start(l, r)] == b[..Start(l, r)] && a[Start(l, r) + Size(l, r)..] == b[Start(l, r) + Size(l, r)..]
    ensures forall q | Exists(l, q) && q != r :: Field(l, b, q) == Field(l, a, q)
  {
    forall q | Exists(l, q) && q != r
      ensures Field(l, b, q) == Field(l, a, q)
    {
      RegionInside(l, q);
      RegionsDisjoint(l, r, q);
      SameSlice(a, b, Start(l, r), Size(l, r), Start(l, q), Size(l, q));
    }
  }

  /** Whether one of the first `n` requests is of one of the given kinds. */
  predicate AnyOf(requests: seq<Request>, n: nat, kinds: set<u8>)
    requires n <= |requests|
  {
    exists i :: 0 <= i < n && requests[i].kind in kinds
  }

  lemma AnyOfNext(requests: seq<Request>, n: nat, kinds: set<u8>)
    requires n < |requests|
    ensures AnyOf(requests, n + 1, kinds) <==> AnyOf(requests, n, kinds) || requests[n].kind in kinds
  {
  }

  /** The transport's part: port or sequence number into the header, then the checksum of the metadata.  The package
      then passes the receivers' check, and nothing else in it has changed. */
  method SealPackage(l: Layout, txBuff: array<byte>, header: u16)
    requires txBuff.Length == l.PackageSize()
    modifies txBuff
    ensures CrcOk(Shape(l.PackageSize(), l.MetaSz()), txBuff[..]) && HeaderField(txBuff[..]) == header
    ensures forall q | Exists(l, q) && q != Header && q != Crc ::
              Field(l, txBuff[..], q) == old(Field(l, txBuff[..], q))
  {
    WriteField(l, txBuff, Header, U16Bytes(header));
    assert Field(l, txBuff[..], Header) == U16Bytes(header);
    var meta := txBuff[..l.MetaSz()];
    var crc := Crc8.Crc8Client(meta);
    ghost var b0 := txBuff[..];
    WriteField(l, txBuff, Crc, [crc]);
    assert Field(l, txBuff[..], Crc)[0] == crc;
    MetaSame(l, b0, txBuff[..]);
    U16RoundTrip(header, txBuff[..]);
  }

  /** Packages that agree on header, counter and slots agree on the metadata. */
  lemma MetaSame(l: Layout, a: seq<byte>, b: seq<byte>)
    requires |a| == |b| == l.PackageSize()
    requires forall q | Exists(l, q) && q != Crc :: Field(l, a, q) == Field(l, b, q)
    ensures a[..l.MetaSz()] == b[..l.MetaSz()]
  {
    forall x: nat | x < l.MetaSz()
      ensures a[x] == b[x]
    {
      var r := RegionsCover(l, x);
      RegionInside(l, r);
      assert Field(l, a, r)[x - Start(l, r)] == Field(l, b, r)[x - Start(l, r)];
    }
  }

  /** The commands in a package are those of the given responses, port by port. */
  predicate Carries(l: Layout, b: seq<byte>, responses: seq<Response>, n: nat)
    requires |b| == l.PackageSize() && n <= l.ports == |responses|
  {
    forall i: nat :: i < n ==>
      SlotOf(Field(l, b, Slot(i))) == Request(responses[i].kind, responses[i].arg, responses[i].plSz)
  }

  /** The firmware's answer: the payload slots and the echoed counter are in place, the commands are written over the
      slots, and the package is sealed. */
  method SendAnswer(l: Layout, txBuff: array<byte>, responses: seq<Response>, header: u16)
    requires txBuff.Length == l.PackageSize() && |responses| == l.ports
    modifies txBuff
    ensures CrcOk(Shape(l.PackageSize(), l.MetaSz()), txBuff[..]) && HeaderField(txBuff[..]) == header
    ensures Carries(l, txBuff[..], responses, l.ports)
    ensures Field(l, txBuff[..], Counter) == old(Field(l, txBuff[..], Counter))
    ensures forall i: nat :: i < l.ports ==> Field(l, txBuff[..], Payload(i)) == old(Field(l, txBuff[..], Payload(i)))
  {
    var i := 0;
    while i < l.ports
      invariant i <= l.ports
      invariant Carries(l, txBuff[..], responses, i)
      invariant Field(l, txBuff[..], Counter) == old(Field(l, txBuff[..], Counter))
      invariant forall k: nat :: k < l.ports ==>
                  Field(l, txBuff[..], Payload(k)) == old(Field(l, txBuff[..], Payload(k)))
    {
      var c := Request(responses[i].kind, responses[i].arg, responses[i].plSz);
      SlotRoundTrip(c);
      WriteField(l, txBuff, Slot(i), SlotBytes(c));
      assert Field(l, txBuff[..], Slot(i)) == SlotBytes(c);
      i := i + 1;
    }
    SealPackage(l, txBuff, header);
  }
}

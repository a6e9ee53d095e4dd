/**
 Sixteen-bit datagram sequence numbers (Client/Src/UDPConnection.cpp, `DropOldSeq` in
 Firmware/UARTEthernetBridge/udpserver.cpp).  Both receivers run the same test on wrapping 16-bit differences.  The
 theorems relate it to the true, unbounded index of a datagram.
 */
module SeqWindow {
  import opened Arithmetic

  const WRAP: nat := 0x1_0000

  type u16 = x: int | 0 <= x < 0x1_0000

  /** `static_cast<uint16_t>`. */
  function Cast16(x: int): u16 { x % WRAP }

  /** The comparison both sides make. */
  predicate Newer(last: u16, test: u16) {
    Cast16(last - test) > Cast16(test - last)
  }

  /** It accepts exactly the numbers 1 to 32767 ahead of the last accepted one, modulo 2^16: "greater than" of section
      3.2 of RFC 1982 with SERIAL_BITS 16, and false where that is undefined. */
  lemma NewerIsSerialGreater(last: u16, test: u16)
    ensures Newer(last, test) <==> 1 <= Cast16(test - last) <= 0x7FFF
    ensures Newer(last, test) <==> (last < test && test - last < 0x8000) || (last > test && last - test > 0x8000)
  {
    var d := test - last;
    if d >= 0 {
      assert Cast16(d) == d && (d > 0 ==> Cast16(-d) == WRAP - d);
    } else {
      assert Cast16(-d) == -d && Cast16(d) == WRAP + d;
    }
  }

  /** For true indices less than 2^15 apart the 16-bit test is the comparison of the indices. */
  lemma NewerIsLater(lastIndex: int, index: int)
    requires -0x8000 < index - lastIndex < 0x8000
    ensures Newer(Cast16(lastIndex), Cast16(index)) <==> lastIndex < index
  {
    NewerIsSerialGreater(Cast16(lastIndex), Cast16(index));
    var d := index - lastIndex;
    CastDifference(index, lastIndex);
    assert d >= 0 ==> Cast16(d) == d;
    assert d < 0 ==> Cast16(d) == d + WRAP;
  }

  lemma CastDifference(a: int, b: int)
    ensures Cast16(Cast16(a) - Cast16(b)) == Cast16(a - b)
  {
    var q, r := a / WRAP, b / WRAP;
    assert a == q * WRAP + Cast16(a) && b == r * WRAP + Cast16(b);
    ModShift(Cast16(a) - Cast16(b), q - r, WRAP);
    assert a - b == Cast16(a) - Cast16(b) + (q - r) * WRAP;
  }

  // ---------------------------------------------------------------- runs of a receiver

  /** Sequence number a receiver holds after the given datagrams. */
  function LastSeq(last: u16, arrived: seq<u16>): u16
    decreases |arrived|
  {
    if arrived == [] then last
    else LastSeq(if Newer(last, arrived[0]) then arrived[0] else last, arrived[1..])
  }

  /** The datagrams a receiver lets through, by position of arrival. */
  function Accepted(last: u16, arrived: seq<u16>): seq<bool>
    decreases |arrived|
  {
    if arrived == [] then []
    else [Newer(last, arrived[0])] + Accepted(if Newer(last, arrived[0]) then arrived[0] else last, arrived[1..])
  }

  /** Reference receiver: keep a datagram when its true index exceeds every index kept before. */
  function Increasing(last: int, indices: seq<int>): seq<bool>
    decreases |indices|
  {
    if indices == [] then []
    else [last < indices[0]] + Increasing(if last < indices[0] then indices[0] else last, indices[1..])
  }

  /** Every datagram arrives within half the number space of the last one kept. */
  predicate InWindow(last: int, indices: seq<int>)
    decreases |indices|
  {
    indices == [] ||
    (-0x8000 < indices[0] - last < 0x8000 && InWindow(if last < indices[0] then indices[0] else last, indices[1..]))
  }

  function Numbers(indices: seq<int>): seq<u16> {
    seq(|indices|, i requires 0 <= i < |indices| => Cast16(indices[i]))
  }

  function Kept(indices: seq<int>, keep: seq<bool>): seq<int>
    requires |indices| == |keep|
  {
    if indices == [] then [] else (if keep[0] then [indices[0]] else []) + Kept(indices[1..], keep[1..])
  }

  /** Over unbounded runs, through any number of wrap-arounds, the 16-bit receiver keeps what the reference keeps. */
  lemma {:induction false} ReceiverKeepsLater(last: int, indices: seq<int>)
    requires InWindow(last, indices)
    ensures Accepted(Cast16(last), Numbers(indices)) == Increasing(last, indices)
    decreases |indices|
  {
    if indices != [] {
      NewerIsLater(last, indices[0]);
      assert Numbers(indices)[1..] == Numbers(indices[1..]);
      ReceiverKeepsLater(if last < indices[0] then indices[0] else last, indices[1..]);
    }
  }

  lemma {:induction false} IncreasingLength(last: int, indices: seq<int>)
    ensures |Increasing(last, indices)| == |indices|
    decreases |indices|
  {
    if indices != [] {
      IncreasingLength(if last < indices[0] then indices[0] else last, indices[1..]);
    }
  }

  /** Strictly increasing, starting above `last`. */
  predicate Ascending(last: int, kept: seq<int>) {
    && (forall i :: 0 <= i < |kept| ==> kept[i] > last)
    && (forall i, j :: 0 <= i < j < |kept| ==> kept[i] < kept[j])
  }

  lemma AscendingCons(last: int, x: int, rest: seq<int>)
    requires last < x && Ascending(x, rest)
    ensures Ascending(last, [x] + rest)
  {
  }

  lemma {:induction false} KeptIncrease(last: int, indices: seq<int>)
    requires |Increasing(last, indices)| == |indices|
    ensures Ascending(last, Kept(indices, Increasing(last, indices)))
    decreases |indices|
  {
    if indices != [] {
      var next := if last < indices[0] then indices[0] else last;
      assert Increasing(last, indices)[1..] == Increasing(next, indices[1..]);
      KeptIncrease(next, indices[1..]);
      var rest := Kept(indices[1..], Increasing(next, indices[1..]));
      if last < indices[0] {
        AscendingCons(last, indices[0], rest);
      } else {
        assert [] + rest == rest;
      }
    }
  }

  /** What is kept is strictly increasing: no duplicate and no reordered datagram gets through. */
  lemma NoDuplicateNoReorder(last: int, indices: seq<int>)
    requires InWindow(last, indices)
    ensures |Accepted(Cast16(last), Numbers(indices))| == |indices|
    ensures Ascending(last, Kept(indices, Accepted(Cast16(last), Numbers(indices))))
  {
    ReceiverKeepsLater(last, indices);
    IncreasingLength(last, indices);
    KeptIncrease(last, indices);
  }

  // ---------------------------------------------------------------- from the reset states

  /** Indices `from`, `from + 1`, ... */
  function Consecutive(from: int, n: nat): seq<int> { seq(n, i => from + i) }

  /** In a loss-free run a receiver drops exactly the datagrams up to the index it starts from. */
  lemma {:induction false} LossFree(last: int, from: int, n: nat)
    requires -0x8000 < from - last <= 1
    ensures var a := Accepted(Cast16(last), Numbers(Consecutive(from, n)));
            |a| == n && forall k :: 0 <= k < n ==> (a[k] <==> from + k > last)
    decreases n
  {
    if n > 0 {
      var indices := Consecutive(from, n);
      NewerIsLater(last, from);
      assert Numbers(indices)[1..] == Numbers(Consecutive(from + 1, n - 1));
      LossFree(if from > last then from else last, from + 1, n - 1);
    }
  }

  /** Client: `rxSeq` starts at 65535 and the firmware numbers from 0, so every datagram is accepted. */
  lemma ClientAcceptsAll(n: nat)
    ensures Cast16(-1) == 0xFFFF
    ensures Accepted(0xFFFF, Numbers(Consecutive(0, n))) == seq(n, _ => true)
  {
    LossFree(-1, 0, n);
  }

  /** Firmware: `serverSeq` starts at 0 and the client numbers from 65535, so exactly the first two are rejected. */
  lemma FirmwareRejectsFirstTwo(n: nat)
    ensures Cast16(-1) == 0xFFFF
    ensures Accepted(0, Numbers(Consecutive(-1, n))) == seq(n, k => k >= 2)
  {
    LossFree(0, -1, n);
  }

  // ---------------------------------------------------------------- the object

  class UDPConnection {
    var rxSeq: u16
    var txSeq: u16

    constructor ()
      ensures rxSeq == txSeq == 0xFFFF
    {
      rxSeq, txSeq := 0xFFFF, 0xFFFF;
    }

    /** Numbers handed out count up modulo 2^16 from the stored one. */
    method TXSeqIncrement() returns (number: u16)
      modifies this`txSeq
      ensures number == old(txSeq) && txSeq == Cast16(old(txSeq) + 1)
    {
      number := txSeq;
      txSeq := if txSeq == 0xFFFF then 0 else txSeq + 1;
    }

    method RXSeqCheckIncrement(testSeq: u16) returns (ok: bool)
      modifies this`rxSeq
      ensures ok <==> 1 <= Cast16(testSeq - old(rxSeq)) <= 0x7FFF
      ensures [ok] == Accepted(old(rxSeq), [testSeq]) && rxSeq == LastSeq(old(rxSeq), [testSeq])
    {
      NewerIsSerialGreater(rxSeq, testSeq);
      assert [testSeq][1..] == [];
      if Cast16(rxSeq - testSeq) > Cast16(testSeq - rxSeq) {
        rxSeq := testSeq;
        return true;
      }
      return false;
    }
  }
}

/**
 The loopback tester's `loop` (LoopbackTestingFirmware/SerialLoopbackTester/main_loop.cpp): serial to ring, ring to
 serial.  Either transfer may move fewer bytes than it is asked for.
 */
module Loopback {
  import opened Bytes
  import opened RingBuffer

  /** What one turn finds at the serial port: bytes that have arrived since the last one, how many of them `readBytes`
      would give at most, room in the output queue, and how many bytes `write` would take at most. */
  datatype Moment = Moment(arrived: seq<byte>, readable: nat, writable: nat, accepted: nat)

  /** One turn: one piece is read to the ring and one piece written back, each as long as port and storage allow;
      nothing is lost, doubled or reordered. */
  method LoopTurn(ring: DataBuffer, waiting: seq<byte>, m: Moment) returns (written: seq<byte>, left: seq<byte>)
    requires ring.Valid()
    modifies ring, ring.storage
    ensures ring.Valid() && ring.queue.size == old(ring.queue.size)
    ensures |written| <= Min(m.writable, m.accepted) && |waiting| - |left| <= m.readable
    ensures old(ring.queue.bytes) + waiting == written + ring.queue.bytes + left
    ensures |waiting| - |left| == Min(Min(m.readable, |waiting|),
                                      Min(old(ring.queue.Free()), ring.storage.Length - old(ring.head)))
    ensures |written| == Min(Min(m.writable, m.accepted),
                             Min(|old(ring.queue.bytes)| + |waiting| - |left|, ring.storage.Length - old(ring.tail)))
  {
    ghost var before := ring.queue.bytes;
    var n := ring.PutUpTo(waiting[..Min(m.readable, |waiting|)]);
    left := waiting[n..];
    ghost var stored := ring.queue.bytes;
    written := ring.TakeUpTo(Min(m.writable, m.accepted));
    TurnAccount(before, waiting, Min(m.readable, |waiting|), n, stored, |written|);
  }

  /** A prefix of what waits is stored, and a prefix of what is then stored is written. */
  lemma TurnAccount(before: seq<byte>, waiting: seq<byte>, offered: nat, n: nat, stored: seq<byte>, k: nat)
    requires n <= offered <= |waiting| && stored == before + waiting[..offered][..n] && k <= |stored|
    ensures before + waiting == stored[..k] + stored[k..] + waiting[n..]
  {
    assert waiting[..offered][..n] == waiting[..n];
    assert waiting == waiting[..n] + waiting[n..];
  }

  function Arrivals(moments: seq<Moment>): seq<byte> {
    if moments == [] then [] else moments[0].arrived + Arrivals(moments[1..])
  }

  lemma {:induction false} ArrivalsSnoc(moments: seq<Moment>, m: Moment)
    ensures Arrivals(moments + [m]) == Arrivals(moments) + m.arrived
  {
    if moments == [] {
      assert (moments + [m])[1..] == [];
    } else {
      assert (moments + [m])[1..] == moments[1..] + [m];
      ArrivalsSnoc(moments[1..], m);
    }
  }

  /** What one more turn does to the account of a run. */
  lemma Account(initial: seq<byte>, arrived: seq<byte>, more: seq<byte>, sent: seq<byte>, stored: seq<byte>,
                waiting: seq<byte>, written: seq<byte>, after: seq<byte>, left: seq<byte>)
    requires initial + arrived == sent + stored + waiting
    requires stored + (waiting + more) == written + after + left
    ensures initial + (arrived + more) == sent + written + after + left
  {
    assert initial + (arrived + more) == sent + stored + waiting + more == sent + (stored + (waiting + more));
    assert sent + (written + after + left) == sent + written + after + left;
  }

  /** Any run of the tester: what it has written, then the ring, then what is waiting to be read, is exactly what the
      ring held at first and everything that has arrived. */
  method LoopRun(ring: DataBuffer, moments: seq<Moment>) returns (written: seq<byte>, waiting: seq<byte>)
    requires ring.Valid()
    modifies ring, ring.storage
    ensures ring.Valid()
    ensures old(ring.queue.bytes) + Arrivals(moments) == written + ring.queue.bytes + waiting
  {
    ghost var initial := ring.queue.bytes;
    written, waiting := [], [];
    for i := 0 to |moments|
      invariant ring.Valid()
      invariant initial + Arrivals(moments[..i]) == written + ring.queue.bytes + waiting
    {
      var m := moments[i];
      ghost var stored, before := ring.queue.bytes, waiting;
      var piece, left := LoopTurn(ring, waiting + m.arrived, m);
      ArrivalsSnoc(moments[..i], m);
      assert moments[..i + 1] == moments[..i] + [m];
      Account(initial, Arrivals(moments[..i]), m.arrived, written, stored, before, piece, ring.queue.bytes, left);
      written, waiting := written + piece, left;
    }
    assert moments[..|moments|] == moments;
  }
}

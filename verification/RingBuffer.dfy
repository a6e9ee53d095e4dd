/**
 The circular byte buffer that the client, the firmware and the loopback tester each carry a copy of
 (Client/Src/DataBuffer.cpp, Firmware/UARTEthernetBridge/databuffer.cpp,
 LoopbackTestingFirmware/SerialLoopbackTester/databuffer.cpp).

 `Ring` is the buffer as a value, with the index arithmetic of the source and, beside it, an independent
 reference reading: a FIFO queue of at most N-1 bytes with `Push` and `Pop`.  `DataBuffer` is the mutable
 object of the source; pointers into the storage are modelled as indices.
 */
module RingBuffer {
  import opened Bytes

  datatype Ring = Ring(cells: seq<byte>, head: nat, tail: nat)
  {
    predicate Valid() { head < |cells| && tail < |cells| }

    /** The bytes stored, oldest first. */
    function Contents(): seq<byte>
      requires Valid()
    {
      if head >= tail then cells[tail..head] else cells[tail..] + cells[..head]
    }

    function Used(): nat
      requires Valid()
    {
      |Contents()|
    }

    /** One cell always stays empty. */
    function Free(): nat
      requires Valid()
    {
      |cells| - 1 - Used()
    }

    /** `maxSz` of `GetHead`. */
    function HeadRoom(): nat
      requires Valid()
    {
      if head < tail then tail - head - 1 else |cells| - head - (if tail > 0 then 0 else 1)
    }

    /** `maxSz` of `GetTail`. */
    function TailRoom(): nat
      requires Valid()
    {
      if head >= tail then head - tail else |cells| - tail
    }

    /** `UsedSize` as the client and the firmware compute it. */
    function ReportedSize(): nat
      requires Valid()
    {
      if head >= tail then head - tail else |cells| - (tail - head - 1)
    }

    /** `UsedSize` as the loopback tester computes it. */
    function LoopbackReportedSize(): nat
      requires Valid()
    {
      if head >= tail then head - tail else (|cells| - tail) + head
    }

    predicate IsHalfUsed()
      requires Valid()
    {
      ReportedSize() > |cells| / 2
    }
  }

  /** An index advanced past the end of the storage continues at its start. */
  function Wrap(index: nat, size: nat): nat {
    if index >= size then index - size else index
  }

  /** Pointer update of `Commit`: anything at or past the end goes back to the first cell. */
  function Advance(index: nat, usedSz: nat, size: nat): nat {
    if index + usedSz >= size then 0 else index + usedSz
  }

  /** Distance from the head to cell `i`, going upwards and around the end. */
  function CellAge(r: Ring, i: nat): nat
    requires r.Valid() && i < |r.cells|
  {
    if i >= r.head then i - r.head else i + |r.cells| - r.head
  }

  /** FIFO append of as much of `data` as fits; the i-th byte goes to cell head+i modulo the size. */
  function Push(r: Ring, data: seq<byte>): Ring
    requires r.Valid()
  {
    var n := Min(|data|, r.Free());
    Ring(seq(|r.cells|, i requires 0 <= i < |r.cells| => if CellAge(r, i) < n then data[CellAge(r, i)] else r.cells[i]),
         Wrap(r.head + n, |r.cells|), r.tail)
  }

  /** FIFO removal of the `n` oldest bytes. */
  function Pop(r: Ring, n: nat): Ring
    requires r.Valid() && n <= r.Used()
  {
    r.(tail := Wrap(r.tail + n, |r.cells|))
  }

  datatype Handle = Handle(pos: nat, maxSz: nat)

  /** `Commit`: the handle's address decides which pointer moves. */
  function Committed(r: Ring, handle: Handle, usedSz: nat): Ring
    requires r.Valid()
  {
    if handle.pos == r.head then r.(head := Advance(r.head, usedSz, |r.cells|))
    else r.(tail := Advance(r.tail, usedSz, |r.cells|))
  }

  function Emptied(r: Ring): (e: Ring)
    requires r.Valid()
    ensures e.Valid() && e.Contents() == [] && |e.cells| == |r.cells|
  {
    Ring(r.cells, 0, 0)
  }

  // ---------------------------------------------------------------- the ring is a bounded FIFO queue

  lemma ContentsAt(r: Ring, i: nat)
    requires r.Valid() && i < r.Used()
    ensures r.tail + i < 2 * |r.cells|
    ensures r.Contents()[i] == r.cells[Wrap(r.tail + i, |r.cells|)]
    ensures CellAge(r, Wrap(r.tail + i, |r.cells|)) > r.Free()
  {
  }

  /** Push appends the longest prefix that fits, never exceeds capacity N-1, and leaves the tail alone. */
  lemma PushIsAppend(r: Ring, data: seq<byte>)
    requires r.Valid()
    ensures Push(r, data).Valid() && |Push(r, data).cells| == |r.cells| && Push(r, data).tail == r.tail
    ensures Push(r, data).Contents() == r.Contents() + data[..Min(|data|, r.Free())]
    ensures Push(r, data).Used() <= |r.cells| - 1
  {
    var n, p, size := Min(|data|, r.Free()), Push(r, data), |r.cells|;
    assert p.Used() == r.Used() + n;
    forall i: nat | i < p.Used()
      ensures p.Contents()[i] == (r.Contents() + data[..n])[i]
    {
      ContentsAt(p, i);
      if i < r.Used() {
        ContentsAt(r, i);
      } else {
        assert CellAge(r, Wrap(r.tail + i, size)) == i - r.Used();
      }
    }
  }

  lemma PopIsDrop(r: Ring, n: nat)
    requires r.Valid() && n <= r.Used()
    ensures Pop(r, n).Valid() && Pop(r, n).Contents() == r.Contents()[n..]
  {
    if r.head >= r.tail {
      assert r.cells[r.tail..r.head][n..] == r.cells[r.tail + n..r.head];
    } else if r.tail + n < |r.cells| {
      assert (r.cells[r.tail..] + r.cells[..r.head])[n..] == r.cells[r.tail + n..] + r.cells[..r.head];
    } else {
      var m := r.tail + n - |r.cells|;
      assert (r.cells[r.tail..] + r.cells[..r.head])[n..] == r.cells[m..r.head];
    }
  }

  /** The free cells start at the head: room at the head is all of them up to the end of the storage, so it is zero only
      when the queue is full. */
  lemma HeadRoomFacts(r: Ring)
    requires r.Valid()
    ensures r.HeadRoom() == Min(r.Free(), |r.cells| - r.head)
    ensures r.HeadRoom() <= r.Free() && r.head + r.HeadRoom() <= |r.cells|
    ensures r.HeadRoom() == 0 <==> r.Free() == 0
  {
  }

  /** The stored bytes start at the tail, and so does its room. */
  lemma TailRoomFacts(r: Ring)
    requires r.Valid()
    ensures r.TailRoom() == Min(r.Used(), |r.cells| - r.tail)
    ensures r.TailRoom() <= r.Used() && r.tail + r.TailRoom() <= |r.cells|
    ensures r.TailRoom() == 0 <==> r.Contents() == []
    ensures r.cells[r.tail..r.tail + r.TailRoom()] == r.Contents()[..r.TailRoom()]
  {
  }

  /** Copying a chunk to the handed-out cells and committing the head handle is a FIFO append. */
  lemma ChunkWriteIsPush(r: Ring, chunk: seq<byte>)
    requires r.Valid() && |chunk| <= r.HeadRoom()
    ensures r.head + |chunk| <= |r.cells|
    ensures r.(cells := r.cells[..r.head] + chunk + r.cells[r.head + |chunk|..],
               head := Advance(r.head, |chunk|, |r.cells|)) == Push(r, chunk)
  {
    HeadRoomFacts(r);
    var w := r.cells[..r.head] + chunk + r.cells[r.head + |chunk|..];
    forall i: nat | i < |r.cells|
      ensures w[i] == Push(r, chunk).cells[i]
    {
    }
    assert w == Push(r, chunk).cells;
  }

  // ---------------------------------------------------------------- fill level

  /**
   The loopback copy of `UsedSize` is exact.  The client and firmware form is exact when the stored bytes do not
   wrap and one too high when they do; it is still zero only for the empty buffer and never exceeds the size, and a
   buffer that reports "not half used" holds at most half its size.
   */
  lemma FillLevel(r: Ring)
    requires r.Valid()
    ensures r.LoopbackReportedSize() == |r.Contents()|
    ensures r.ReportedSize() == |r.Contents()| + (if r.head >= r.tail then 0 else 1)
    ensures r.ReportedSize() <= |r.cells|
    ensures r.ReportedSize() == 0 <==> r.Contents() == []
    ensures !r.IsHalfUsed() ==> |r.Contents()| <= |r.cells| / 2
    ensures r.IsHalfUsed() ==> |r.Contents()| >= |r.cells| / 2
  {
  }

  // ---------------------------------------------------------------- the queue a ring stands for

  /** What matters about a ring from outside: its bytes, and where in the storage the oldest of them lies. */
  datatype Queue = Queue(bytes: seq<byte>, tail: nat, size: nat)
  {
    predicate Valid() { |bytes| < size && tail < size }

    function Free(): nat
      requires Valid()
    {
      size - 1 - |bytes|
    }

    /** `IsHalfUsed`, with the client and firmware form of `UsedSize`. */
    predicate HalfUsed() {
      |bytes| + (if tail + |bytes| >= size then 1 else 0) > size / 2
    }
  }

  function QueueOf(r: Ring): Queue
    requires r.Valid()
  {
    Queue(r.Contents(), r.tail, |r.cells|)
  }

  /** FIFO append of the longest prefix that fits. */
  function Enqueued(q: Queue, data: seq<byte>): (p: Queue)
    requires q.Valid()
    ensures p.Valid() && p.size == q.size
  {
    q.(bytes := q.bytes + data[..Min(|data|, q.Free())])
  }

  /** FIFO removal. */
  function Dequeued(q: Queue, n: nat): (p: Queue)
    requires q.Valid() && n <= |q.bytes|
    ensures p.Valid() && p.size == q.size
  {
    q.(bytes := q.bytes[n..], tail := Wrap(q.tail + n, q.size))
  }

  function Drop(q: Queue): (p: Queue)
    requires q.Valid()
    ensures p.Valid() && p.bytes == [] && p.size == q.size
  {
    Queue([], 0, q.size)
  }

  lemma RingIsQueue(r: Ring)
    requires r.Valid()
    ensures QueueOf(r).Valid() && QueueOf(r).Free() == r.Free() && QueueOf(r).HalfUsed() == r.IsHalfUsed()
  {
    FillLevel(r);
  }

  /** The ring operations do to the cells what the queue operations do to the queue. */
  lemma PushIsEnqueue(r: Ring, data: seq<byte>)
    requires r.Valid()
    ensures QueueOf(r).Valid() && Push(r, data).Valid() && QueueOf(Push(r, data)) == Enqueued(QueueOf(r), data)
  {
    PushIsAppend(r, data);
    RingIsQueue(r);
  }

  lemma PopIsDequeue(r: Ring, n: nat)
    requires r.Valid() && n <= r.Used()
    ensures QueueOf(r).Valid() && Pop(r, n).Valid() && QueueOf(Pop(r, n)) == Dequeued(QueueOf(r), n)
  {
    PopIsDrop(r, n);
    RingIsQueue(r);
  }

  /** Copying a chunk to the cells handed out at the head and committing it enqueues it. */
  lemma CommitHeadIsEnqueue(r: Ring, chunk: seq<byte>)
    requires r.Valid() && |chunk| <= r.HeadRoom()
    ensures r.head + |chunk| <= |r.cells|
    ensures var w := Committed(r.(cells := Overwrite(r.cells, r.head, chunk)), Handle(r.head, r.HeadRoom()), |chunk|);
            w.Valid() && QueueOf(r).Valid() && QueueOf(w) == Enqueued(QueueOf(r), chunk)
  {
    HeadRoomFacts(r);
    ChunkWriteIsPush(r, chunk);
    PushIsEnqueue(r, chunk);
  }

  /** Committing used bytes of a tail handle of a non-empty ring pops them. */
  lemma CommitTailIsPop(r: Ring, n: nat)
    requires r.Valid() && 0 < r.TailRoom() && n <= r.TailRoom()
    ensures r.head != r.tail && n <= r.Used()
    ensures Committed(r, Handle(r.tail, r.TailRoom()), n) == Pop(r, n)
    ensures r.tail + n <= |r.cells| && r.cells[r.tail..r.tail + n] == r.Contents()[..n]
  {
    TailRoomFacts(r);
    assert r.cells[r.tail..r.tail + n] == r.cells[r.tail..r.tail + r.TailRoom()][..n];
  }

  /** The first `done` bytes of `data` have been appended to `before`, and all of them fitted. */
  predicate Holds(q: Queue, before: Queue, data: seq<byte>, done: nat)
    requires before.Valid()
  {
    done <= |data| && done <= before.Free() && q == Enqueued(before, data[..done])
  }

  /** One turn of a copy loop: the next `n` bytes still fit. */
  lemma HoldsMore(q: Queue, before: Queue, data: seq<byte>, done: nat, n: nat)
    requires before.Valid() && q.Valid() && Holds(q, before, data, done)
    requires done + n <= |data| && n <= q.Free()
    ensures Holds(Enqueued(q, data[done..done + n]), before, data, done + n)
  {
    assert data[..done + n] == data[..done] + data[done..done + n];
    assert before.bytes + data[..done] + data[done..done + n] == before.bytes + data[..done + n];
  }

  /** The end of a copy loop: everything is stored, or the queue is full. */
  lemma HoldsAll(q: Queue, before: Queue, data: seq<byte>, done: nat)
    requires before.Valid() && q.Valid() && Holds(q, before, data, done)
    requires done == |data| || q.Free() == 0
    ensures q == Enqueued(before, data)
  {
    assert data[..done] == data[..Min(|data|, before.Free())];
  }

  /** One turn of a drain loop. */
  lemma DequeueStep(q: Queue, done: nat, n: nat)
    requires q.Valid() && done + n <= |q.bytes|
    ensures Dequeued(Dequeued(q, done), n) == Dequeued(q, done + n)
    ensures q.bytes[..done] + Dequeued(q, done).bytes[..n] == q.bytes[..done + n]
  {
    assert q.bytes[done..][n..] == q.bytes[done + n..];
  }

  // ---------------------------------------------------------------- the mutable object

  class DataBuffer {
    const storage: array<byte>
    var head: nat
    var tail: nat

    /** The queue that head, tail and the cells stand for. */
    ghost var queue: Queue

    ghost predicate Valid()
      reads this, storage
    {
      head < storage.Length && tail < storage.Length && queue.Valid() && queue == QueueOf(View())
    }

    ghost function View(): Ring
      requires head < storage.Length && tail < storage.Length
      reads this, storage
    {
      Ring(storage[..], head, tail)
    }

    constructor (size: nat)
      requires size > 0
      ensures Valid() && fresh(storage) && queue == Queue([], 0, size)
    {
      storage := new byte[size];
      head, tail := 0, 0;
      queue := Queue([], 0, size);
    }

    method GetHead() returns (handle: Handle)
      requires Valid()
      ensures handle.pos == head && handle.maxSz == View().HeadRoom() == Min(queue.Free(), storage.Length - head)
      ensures handle.maxSz <= queue.Free() && (handle.maxSz == 0 <==> queue.Free() == 0)
      ensures handle.pos + handle.maxSz <= storage.Length
    {
      HeadRoomFacts(View());
      handle := Handle(head, if head < tail then tail - head - 1
                             else storage.Length - head - (if tail > 0 then 0 else 1));
    }

    ghost function TailHandle(): Handle
      requires head < storage.Length && tail < storage.Length
      reads this, storage
    {
      Handle(tail, View().TailRoom())
    }

    method GetTail() returns (handle: Handle)
      requires Valid()
      ensures handle == TailHandle() && handle.maxSz == Min(|queue.bytes|, storage.Length - tail)
      ensures handle.maxSz == 0 <==> queue.bytes == []
    {
      TailRoomFacts(View());
      handle := Handle(tail, if head >= tail then head - tail else storage.Length - tail);
    }

    /** `Commit`: the object-level statement for any handle; what it means for the queue is in `Put` and `Take`. */
    method Commit(handle: Handle, usedSz: nat)
      requires head < storage.Length && tail < storage.Length
      modifies this
      ensures head < storage.Length && tail < storage.Length && queue == old(queue)
      ensures View() == Committed(old(View()), handle, usedSz)
    {
      if handle.pos == head {
        head := head + usedSz;
        if head >= storage.Length { head := 0; }
      } else {
        tail := tail + usedSz;
        if tail >= storage.Length { tail := 0; }
      }
    }

    /** `memcpy` to the cells handed out at the head, and commit. */
    method Put(handle: Handle, chunk: seq<byte>)
      requires Valid() && handle.pos == head && |chunk| <= View().HeadRoom()
      modifies this, storage
      ensures Valid() && queue == Enqueued(old(queue), chunk) && tail == old(tail)
    {
      ghost var before := View();
      CommitHeadIsEnqueue(before, chunk);
      CopyInto(storage, head, chunk);
      Commit(handle, |chunk|);
      queue := Enqueued(queue, chunk);
    }

    /** Read `usedSz` of the cells handed out at the tail, and commit. */
    method Take(handle: Handle, usedSz: nat) returns (bytes: seq<byte>)
      requires Valid() && handle == TailHandle() && 0 < handle.maxSz && usedSz <= handle.maxSz <= |queue.bytes|
      modifies this
      ensures Valid() && bytes == old(queue).bytes[..usedSz] && queue == Dequeued(old(queue), usedSz)
    {
      ghost var before := View();
      CommitTailIsPop(before, usedSz);
      PopIsDequeue(before, usedSz);
      bytes := storage[tail..tail + usedSz];
      assert bytes == before.cells[tail..tail + usedSz];
      Commit(handle, usedSz);
      queue := Dequeued(queue, usedSz);
    }

    /** Take a head handle and fill as much of it as `data` does: none only if there is nothing to store or no room. */
    method PutUpTo(data: seq<byte>) returns (n: nat)
      requires Valid()
      modifies this, storage
      ensures Valid() && n <= |data| && n <= old(queue).Free() && queue == Enqueued(old(queue), data[..n])
      ensures n == Min(|data|, Min(old(queue).Free(), storage.Length - old(head))) && tail == old(tail)
      ensures n == 0 ==> data == [] || old(queue).Free() == 0
    {
      var head := GetHead();
      n := if |data| > head.maxSz then head.maxSz else |data|;
      if n > 0 {
        Put(head, data[..n]);
      } else {
        assert queue.bytes + data[..0] == queue.bytes;
      }
    }

    /** Take a tail handle and use as much of it as `limit` allows: the oldest bytes, none only if there are none. */
    method TakeUpTo(limit: nat) returns (bytes: seq<byte>)
      requires Valid()
      modifies this
      ensures Valid() && |bytes| <= limit && |bytes| <= |old(queue).bytes|
      ensures bytes == old(queue).bytes[..|bytes|] && queue == Dequeued(old(queue), |bytes|)
      ensures |bytes| == Min(limit, Min(|old(queue).bytes|, storage.Length - old(tail)))
      ensures bytes == [] ==> limit == 0 || old(queue).bytes == []
    {
      var tail := GetTail();
      var usedSz := if limit > tail.maxSz then tail.maxSz else limit;
      bytes := [];
      if usedSz > 0 {
        bytes := Take(tail, usedSz);
      }
    }

    method UsedSize() returns (size: nat)
      requires Valid()
      ensures size == |queue.bytes| + (if head >= tail then 0 else 1)
    {
      size := if head >= tail then head - tail else storage.Length - (tail - head - 1);
    }

    method IsHalfUsed() returns (half: bool)
      requires Valid()
      ensures half == queue.HalfUsed()
    {
      RingIsQueue(View());
      var size := UsedSize();
      half := size > storage.Length / 2;
    }

    method Reset()
      requires Valid()
      modifies this
      ensures Valid() && queue == Drop(old(queue))
    {
      head, tail := 0, 0;
      queue := Drop(queue);
    }
  }
}

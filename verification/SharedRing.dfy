/**
 The client's receive ring shared by two threads (Client/Src/PortWorker.cpp): `ProcessRX` appends under the lock;
 `Worker` takes a tail handle under the lock, reads the handed-out cells with the lock released, and commits later.
 A run is any interleaving of those critical sections.  Nothing here assumes that the consumer is quick: any number
 of appends may fall between taking a handle and committing it.
 */
module SharedRing {
  import opened Bytes
  import opened RingBuffer

  datatype Step =
    | Append(payload: seq<byte>)  // ProcessRX stores an accepted payload
    | Take                        // Worker calls GetTail
    | Release(usedSz: nat)        // Worker commits what it wrote to the local client, or discarded

  /** `visible`, `stored` and `consumed` record history: the bytes under the handle when it was taken,
      every byte stored so far and every byte committed by the consumer so far. */
  datatype Shared = Shared(ring: Ring, held: Option<Handle>, visible: seq<byte>,
                           stored: seq<byte>, consumed: seq<byte>)

  predicate Enabled(s: Shared, step: Step)
    requires s.ring.Valid()
  {
    match step
    case Append(_) => true
    case Take => s.held.None?
    case Release(n) => s.held.Some? && s.held.value.maxSz > 0 && n <= s.held.value.maxSz
  }

  function Next(s: Shared, step: Step): Shared
    requires s.ring.Valid()
  {
    match step
    case Append(payload) =>
      s.(ring := Push(s.ring, payload), stored := s.stored + payload[..Min(|payload|, s.ring.Free())])
    case Take =>
      var h := Handle(s.ring.tail, s.ring.TailRoom());
      TailRoomFacts(s.ring);
      // an empty handle is dropped again without a commit
      if h.maxSz < 1 then s else s.(held := Some(h), visible := s.ring.cells[h.pos..h.pos + h.maxSz])
    case Release(n) =>
      if s.held.None? || n > |s.visible| then s else
        s.(ring := Committed(s.ring, s.held.value, n), held := None, consumed := s.consumed + s.visible[..n])
  }

  ghost predicate Run(steps: seq<Step>, first: Shared, last: Shared)
    decreases |steps|
  {
    first.ring.Valid() &&
    if steps == [] then first == last
    else Enabled(first, steps[0]) && Run(steps[1..], Next(first, steps[0]), last)
  }

  predicate Start(s: Shared) {
    s.ring.Valid() && s.ring.Contents() == [] && s.held.None? && s.stored == [] && s.consumed == []
  }

  /** The handed-out cells still hold what was handed out, are still the oldest stored bytes, and the head has not
      come round to the held address. */
  predicate Intact(r: Ring, h: Handle, visible: seq<byte>)
    requires r.Valid()
  {
    && 0 < h.maxSz == |visible|
    && h.pos == r.tail != r.head
    && h.maxSz <= r.TailRoom() && h.pos + h.maxSz <= |r.cells|
    && r.cells[h.pos..h.pos + h.maxSz] == visible
    && visible <= r.Contents()
  }

  predicate HandleIntact(s: Shared)
    requires s.ring.Valid() && s.held.Some?
  {
    Intact(s.ring, s.held.value, s.visible)
  }

  predicate Safe(s: Shared) {
    && s.ring.Valid()
    && s.consumed + s.ring.Contents() == s.stored
    && (s.held.Some? ==> HandleIntact(s))
  }

  /** Appending leaves the cells handed out at the tail alone, and does not bring the head round to them. */
  lemma HandedOutKept(r: Ring, payload: seq<byte>, k: nat)
    requires r.Valid() && r.head != r.tail && k <= r.TailRoom()
    ensures r.tail + k <= |r.cells| && Push(r, payload).head != r.tail
    ensures Push(r, payload).cells[r.tail..r.tail + k] == r.cells[r.tail..r.tail + k]
  {
    forall i: nat | r.tail <= i < r.tail + k
      ensures Push(r, payload).cells[i] == r.cells[i]
    {
      assert CellAge(r, i) >= r.Free();
    }
  }

  lemma AppendIntact(r: Ring, payload: seq<byte>, h: Handle, visible: seq<byte>)
    requires r.Valid() && Intact(r, h, visible)
    ensures Push(r, payload).Valid() && Intact(Push(r, payload), h, visible)
  {
    PushIsAppend(r, payload);
    HandedOutKept(r, payload, h.maxSz);
  }

  lemma AppendSafe(s: Shared, payload: seq<byte>)
    requires Safe(s)
    ensures Safe(Next(s, Append(payload)))
  {
    var stored := payload[..Min(|payload|, s.ring.Free())];
    PushIsAppend(s.ring, payload);
    assert s.consumed + (s.ring.Contents() + stored) == s.consumed + s.ring.Contents() + stored;
    if s.held.Some? {
      AppendIntact(s.ring, payload, s.held.value, s.visible);
    }
  }

  /** Committing a held handle always moves the tail, and removes exactly the first n bytes that were visible. */
  lemma ReleaseMovesTail(s: Shared, n: nat)
    requires Safe(s) && s.held.Some? && n <= s.held.value.maxSz
    ensures var t := Next(s, Release(n));
            && t.ring == Pop(s.ring, n) && t.ring.head == s.ring.head
            && s.ring.Contents() == s.visible[..n] + t.ring.Contents()
  {
    PopIsDrop(s.ring, n);
    assert s.ring.Contents() == s.ring.Contents()[..n] + s.ring.Contents()[n..];
  }

  lemma TakeSafe(s: Shared)
    requires Safe(s) && s.held.None?
    ensures Safe(Next(s, Take))
  {
    TailRoomFacts(s.ring);
    var t := Next(s, Take);
    if s.ring.TailRoom() > 0 {
      assert t.held == Some(Handle(s.ring.tail, s.ring.TailRoom()));
      assert t.visible == s.ring.Contents()[..s.ring.TailRoom()];
      assert s.ring.tail != s.ring.head;
    }
  }

  lemma ReleaseSafe(s: Shared, n: nat)
    requires Safe(s) && s.held.Some? && n <= s.held.value.maxSz
    ensures Safe(Next(s, Release(n)))
  {
    ReleaseMovesTail(s, n);
    var t := Next(s, Release(n));
    assert t.consumed + t.ring.Contents() == s.consumed + (s.visible[..n] + t.ring.Contents());
  }

  lemma StepSafe(s: Shared, step: Step)
    requires Safe(s) && Enabled(s, step)
    ensures Safe(Next(s, step))
  {
    match step
    case Append(payload) => AppendSafe(s, payload);
    case Take => TakeSafe(s);
    case Release(n) => ReleaseSafe(s, n);
  }

  /** In every interleaving a held handle stays intact, and the bytes committed followed by the bytes stored in the
      ring are, in order, exactly the bytes accepted into it. */
  lemma {:induction false} InterleavingSafe(steps: seq<Step>, first: Shared, last: Shared)
    requires Safe(first) && Run(steps, first, last)
    ensures Safe(last)
    decreases |steps|
  {
    if steps != [] {
      StepSafe(first, steps[0]);
      InterleavingSafe(steps[1..], Next(first, steps[0]), last);
    }
  }

  lemma SharedRingSafe(steps: seq<Step>, first: Shared, last: Shared)
    requires Start(first) && Run(steps, first, last)
    ensures last.ring.Valid() && last.consumed + last.ring.Contents() == last.stored
    ensures last.held.Some? ==> HandleIntact(last)
  {
    InterleavingSafe(steps, first, last);
  }

  /** A payload is stored as far as it fits, whether or not a handle is held. */
  lemma AppendStores(s: Shared, payload: seq<byte>)
    requires Safe(s)
    ensures var t, n := Next(s, Append(payload)), Min(|payload|, s.ring.Free());
            && t.stored == s.stored + payload[..n] && t.ring.Contents() == s.ring.Contents() + payload[..n]
            && t.held == s.held && t.consumed == s.consumed
  {
    PushIsAppend(s.ring, payload);
  }

  /** `Worker` takes a handle and commits all of it. */
  function Emptying(s: Shared): Shared
    requires s.ring.Valid()
  {
    var t := Next(s, Take);
    if t.held.None? || !t.ring.Valid() then t else Next(t, Release(t.held.value.maxSz))
  }

  /** Popping all that the tail handle shows leaves the tail at the first cell or the ring empty. */
  lemma PopRoom(r: Ring)
    requires r.Valid()
    ensures r.TailRoom() <= r.Used()
    ensures var p := Pop(r, r.TailRoom());
            p.Valid() && |p.cells| == |r.cells| && p.Contents() == r.Contents()[r.TailRoom()..]
            && (p.tail == 0 || p.Contents() == [])
  {
    TailRoomFacts(r);
    PopIsDrop(r, r.TailRoom());
  }

  lemma FullRelease(s: Shared)
    requires Safe(s) && s.held.Some? && s.held.value.maxSz == s.ring.TailRoom()
    ensures var t := Next(s, Release(s.held.value.maxSz));
            && Safe(t) && t.held.None? && t.stored == s.stored && t.ring == Pop(s.ring, s.ring.TailRoom())
  {
    ReleaseSafe(s, s.held.value.maxSz);
    ReleaseMovesTail(s, s.held.value.maxSz);
  }

  lemma EmptyingTakes(s: Shared)
    requires Safe(s) && s.held.None?
    ensures var t := Emptying(s);
            && Safe(t) && t.held.None? && t.stored == s.stored
            && t.ring.Contents() == s.ring.Contents()[s.ring.TailRoom()..]
            && (t.ring.tail == 0 || t.ring.Contents() == [])
  {
    TakeSafe(s);
    PopRoom(s.ring);
    if s.ring.TailRoom() > 0 {
      FullRelease(Next(s, Take));
    }
  }

  /** Two handles are enough to empty the ring: the stored bytes lie in at most two pieces. */
  lemma TwoHandlesEmpty(s: Shared)
    requires Safe(s) && s.held.None?
    ensures var t := Emptying(s); Safe(t) && Emptying(t).ring.Valid() && Emptying(t).consumed == s.stored
  {
    EmptyingTakes(s);
    var t := Emptying(s);
    EmptyingTakes(t);
    TailRoomFacts(t.ring);
    var u := Emptying(t);
    assert u.ring.Contents() == [];
    assert u.consumed + [] == u.consumed;
  }

  /**
   `OnPortOpen` may reset the ring while `Worker` holds a handle.  Whatever is stored between the reset and the commit
   of that stale handle, the commit leaves the number of stored bytes as it is exactly when the consumer used no bytes
   at all: otherwise it moves the head over cells that no payload was stored in, or the tail over bytes that were never
   handed out.
   */
  lemma ResetUnderHandle(s: Shared, payload: seq<byte>, n: nat)
    requires Safe(s) && s.held.Some? && n <= s.held.value.maxSz
    ensures var stored := Push(Emptied(s.ring), payload);
            stored.Valid()
            && var after := Committed(stored, s.held.value, n);
               after.Valid() && (after.Used() == stored.Used() <==> n == 0)
  {
    assert s.held.value.maxSz < |s.ring.cells|;
    PushIsAppend(Emptied(s.ring), payload);
    var stored := Push(Emptied(s.ring), payload);
    assert stored.tail == 0 && stored.head == stored.Used();
  }
}

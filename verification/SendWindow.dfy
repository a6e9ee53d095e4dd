/**
 The client's account of bytes sent to the remote ring and not yet confirmed
 (Client/Src/RemoteBufferTracker.cpp).  Counters are the timer's event counter, taken here before it wraps.
 */
module SendWindow {

  datatype Pkg = Pkg(counter: nat, size: nat)

  /** Bytes in all packages. */
  function Total(pkgs: seq<Pkg>): nat {
    if pkgs == [] then 0 else pkgs[0].size + Total(pkgs[1..])
  }

  /** Reference reading of confirmation: keep the packages newer than `ref`, wherever they are in the list. */
  function Newer(pkgs: seq<Pkg>, ref: nat): seq<Pkg> {
    if pkgs == [] then []
    else if pkgs[0].counter > ref then [pkgs[0]] + Newer(pkgs[1..], ref)
    else Newer(pkgs[1..], ref)
  }

  /** Bytes in packages newer than `ref`. */
  function BytesAfter(pkgs: seq<Pkg>, ref: nat): nat {
    Total(Newer(pkgs, ref))
  }

  /** Counters strictly increase along the list and do not pass `last`. */
  predicate Ordered(pkgs: seq<Pkg>, last: nat) {
    && (forall i :: 0 <= i < |pkgs| ==> pkgs[i].counter <= last)
    && (forall i, j :: 0 <= i < j < |pkgs| ==> pkgs[i].counter < pkgs[j].counter)
  }

  /** `GetAvailSpace`. */
  function Avail(pkgs: seq<Pkg>, blocked: bool, limit: nat): nat {
    if blocked || Total(pkgs) > limit then 0 else limit - Total(pkgs)
  }

  lemma {:induction false} TotalSnoc(pkgs: seq<Pkg>, p: Pkg)
    ensures Total(pkgs + [p]) == Total(pkgs) + p.size
  {
    if pkgs == [] {
      assert (pkgs + [p])[1..] == [];
    } else {
      assert (pkgs + [p])[1..] == pkgs[1..] + [p];
      TotalSnoc(pkgs[1..], p);
    }
  }

  /** One step of the two sums. */
  lemma BytesAfterCons(pkgs: seq<Pkg>, ref: nat)
    requires pkgs != []
    ensures BytesAfter(pkgs, ref) == (if pkgs[0].counter > ref then pkgs[0].size else 0) + BytesAfter(pkgs[1..], ref)
  {
    assert ([pkgs[0]] + Newer(pkgs[1..], ref))[1..] == Newer(pkgs[1..], ref);
  }

  lemma {:induction false} NewerSnoc(pkgs: seq<Pkg>, p: Pkg, ref: nat)
    ensures Newer(pkgs + [p], ref) == Newer(pkgs, ref) + (if p.counter > ref then [p] else [])
  {
    if pkgs == [] {
      assert (pkgs + [p])[1..] == [];
    } else {
      assert (pkgs + [p])[1..] == pkgs[1..] + [p];
      NewerSnoc(pkgs[1..], p, ref);
    }
  }

  lemma BytesAfterSnoc(pkgs: seq<Pkg>, p: Pkg, ref: nat)
    ensures BytesAfter(pkgs + [p], ref) == BytesAfter(pkgs, ref) + (if p.counter > ref then p.size else 0)
  {
    NewerSnoc(pkgs, p, ref);
    TotalSnoc(Newer(pkgs, ref), p);
    assert Newer(pkgs, ref) + [] == Newer(pkgs, ref);
  }

  lemma {:induction false} NewerAll(pkgs: seq<Pkg>, ref: nat)
    requires forall i :: 0 <= i < |pkgs| ==> pkgs[i].counter > ref
    ensures Newer(pkgs, ref) == pkgs
  {
    if pkgs != [] {
      NewerAll(pkgs[1..], ref);
    }
  }

  lemma {:induction false} NewerMembers(pkgs: seq<Pkg>, ref: nat)
    ensures forall p :: p in Newer(pkgs, ref) <==> p in pkgs && p.counter > ref
  {
    if pkgs != [] {
      NewerMembers(pkgs[1..], ref);
    }
  }

  /** Confirming twice is confirming the later of the two. */
  lemma {:induction false} NewerNewer(pkgs: seq<Pkg>, a: nat, b: nat)
    requires a <= b
    ensures Newer(Newer(pkgs, a), b) == Newer(pkgs, b)
    ensures BytesAfter(pkgs, b) <= BytesAfter(pkgs, a)
  {
    if pkgs != [] {
      NewerNewer(pkgs[1..], a, b);
      BytesAfterCons(pkgs, a);
      BytesAfterCons(pkgs, b);
      var kept := [pkgs[0]] + Newer(pkgs[1..], a);
      assert kept[1..] == Newer(pkgs[1..], a);
    }
  }

  lemma {:induction false} BytesAfterAtMostTotal(pkgs: seq<Pkg>, ref: nat)
    ensures BytesAfter(pkgs, ref) <= Total(pkgs)
  {
    if pkgs != [] {
      BytesAfterCons(pkgs, ref);
      BytesAfterAtMostTotal(pkgs[1..], ref);
    }
  }

  /** A package counts in full between its own counter and any earlier reference. */
  lemma {:induction false} BytesAfterSplit(pkgs: seq<Pkg>, p: Pkg, ref: nat)
    requires p in pkgs && p.counter > ref
    ensures BytesAfter(pkgs, ref) >= p.size + BytesAfter(pkgs, p.counter)
  {
    BytesAfterCons(pkgs, ref);
    BytesAfterCons(pkgs, p.counter);
    if p in pkgs[1..] {
      BytesAfterSplit(pkgs[1..], p, ref);
    } else {
      assert p == pkgs[0];
      NewerNewer(pkgs[1..], ref, p.counter);
    }
  }

  lemma OrderedCons(p: Pkg, rest: seq<Pkg>, last: nat)
    requires Ordered(rest, last) && p.counter <= last && forall i :: 0 <= i < |rest| ==> rest[i].counter > p.counter
    ensures Ordered([p] + rest, last)
  {
  }

  lemma {:induction false} NewerOrdered(pkgs: seq<Pkg>, ref: nat, last: nat)
    requires Ordered(pkgs, last)
    ensures Ordered(Newer(pkgs, ref), last)
  {
    if pkgs != [] {
      var rest := Newer(pkgs[1..], ref);
      NewerOrdered(pkgs[1..], ref, last);
      NewerMembers(pkgs[1..], ref);
      forall i | 0 <= i < |rest|
        ensures rest[i].counter > pkgs[0].counter
      {
        assert rest[i] in pkgs[1..];
      }
      OrderedCons(pkgs[0], rest, last);
    }
  }

  /** On an ordered list, popping old packages from the front loses nothing and keeps nothing that filtering would
      not: `k` is where the pop loop stops. */
  lemma {:induction false} PopIsFilter(pkgs: seq<Pkg>, k: nat, ref: nat, last: nat)
    requires Ordered(pkgs, last) && k <= |pkgs|
    requires forall i :: 0 <= i < k ==> pkgs[i].counter <= ref
    requires k < |pkgs| ==> pkgs[k].counter > ref
    ensures pkgs[k..] == Newer(pkgs, ref)
  {
    if k == 0 {
      NewerAll(pkgs, ref);
    } else {
      PopIsFilter(pkgs[1..], k - 1, ref, last);
      assert pkgs[1..][k - 1..] == pkgs[k..];
    }
  }

  lemma WindowSnoc(pkgs: seq<Pkg>, p: Pkg, last: nat)
    requires Ordered(pkgs, last)
    ensures Ordered(pkgs + [p], p.counter) <==> forall q :: q in pkgs ==> q.counter < p.counter
  {
    var all := pkgs + [p];
    if Ordered(all, p.counter) {
      forall q | q in pkgs
        ensures q.counter < p.counter
      {
        var i :| 0 <= i < |pkgs| && pkgs[i] == q;
        assert all[i].counter < all[|pkgs|].counter;
      }
    }
  }

  class RemoteBufferTracker {
    const bufferLimit: nat
    var isBlocked: bool
    var dataSent: seq<Pkg>

    /** Newest counter handed to `AddPackage`, and the window invariant every operation keeps. */
    ghost var last: nat
    ghost predicate Valid()
      reads this
    {
      Ordered(dataSent, last) && Total(dataSent) <= bufferLimit
    }

    constructor (limit: nat)
      ensures Valid() && dataSent == [] && !isBlocked && bufferLimit == limit && last == 0
    {
      bufferLimit := limit;
      isBlocked := false;
      dataSent := [];
      last := 0;
    }

    /** Keeps the window invariant exactly when the counter is newer than all in the window and the size fits, as for a
        caller that sends no more than `GetAvailSpace` allowed. */
    method AddPackage(size: nat, counter: nat)
      modifies this
      ensures last == counter && isBlocked == old(isBlocked)
      ensures dataSent == old(dataSent) + [Pkg(counter, size)]
      ensures old(Valid()) ==>
                (Valid() <==> (forall p :: p in old(dataSent) ==> p.counter < counter)
                              && Total(old(dataSent)) + size <= bufferLimit)
      ensures old(Valid()) && counter > old(last) && size <= old(Avail(dataSent, isBlocked, bufferLimit)) ==> Valid()
    {
      TotalSnoc(dataSent, Pkg(counter, size));
      if Ordered(dataSent, last) {
        WindowSnoc(dataSent, Pkg(counter, size), last);
      }
      dataSent := dataSent + [Pkg(counter, size)];
      last := counter;
    }

    method ConfirmPackage(refCounter: nat, writeBlocked: bool)
      requires Valid()
      modifies this
      ensures Valid() && isBlocked == writeBlocked && last == old(last)
      ensures dataSent == Newer(old(dataSent), refCounter)
    {
      isBlocked := writeBlocked;
      ghost var before := dataSent;
      ghost var k: nat := 0;
      while dataSent != [] && dataSent[0].counter <= refCounter
        invariant k <= |before| && dataSent == before[k..]
        invariant forall i :: 0 <= i < k ==> before[i].counter <= refCounter
        invariant isBlocked == writeBlocked && last == old(last)
        decreases |dataSent|
      {
        dataSent := dataSent[1..];
        k := k + 1;
      }
      PopIsFilter(before, k, refCounter, last);
      NewerOrdered(before, refCounter, last);
      BytesAfterAtMostTotal(before, refCounter);
    }

    /** On every reachable window the over-limit branch is dead: the answer is the exact remainder. */
    method GetAvailSpace() returns (avail: nat)
      requires Valid()
      ensures avail == if isBlocked then 0 else bufferLimit - Total(dataSent)
    {
      if isBlocked { return 0; }
      var totalSent := 0;
      var i := 0;
      while i < |dataSent|
        invariant i <= |dataSent| && totalSent + Total(dataSent[i..]) == Total(dataSent)
      {
        totalSent := totalSent + dataSent[i].size;
        i := i + 1;
        assert dataSent[i - 1..][1..] == dataSent[i..];
      }
      avail := 0;
      if totalSent > bufferLimit {
        assert false;
      } else {
        avail := bufferLimit - totalSent;
      }
    }

    method Reset()
      requires Valid()
      modifies this
      ensures Valid() && dataSent == [] && isBlocked == old(isBlocked) && last == old(last)
    {
      dataSent := [];
    }
  }
}

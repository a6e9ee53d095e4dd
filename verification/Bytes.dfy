/** Octets as the source's `uint8_t`, and small helpers over sequences of them. */
module Bytes {

  type byte = bv8

  datatype Option<+T> = None | Some(value: T)

  function Min(a: nat, b: nat): nat { if a <= b then a else b }
  function Max(a: nat, b: nat): nat { if a <= b then b else a }

  /** The concatenation of a list of byte strings. */
  function Concat(parts: seq<seq<byte>>): seq<byte> {
    if parts == [] then [] else parts[0] + Concat(parts[1..])
  }

  lemma ConcatCons(first: seq<byte>, parts: seq<seq<byte>>, rest: seq<byte>)
    ensures Concat([first] + parts) + rest == first + (Concat(parts) + rest)
  {
    assert ([first] + parts)[1..] == parts;
  }

  lemma {:induction false} ConcatSnoc(parts: seq<seq<byte>>, last: seq<byte>)
    ensures Concat(parts + [last]) == Concat(parts) + last
  {
    if parts == [] {
      assert parts + [last] == [last];
      assert Concat([last][1..]) == [];
    } else {
      assert (parts + [last])[1..] == parts[1..] + [last];
      ConcatSnoc(parts[1..], last);
    }
  }

  /** A byte string with `chunk` written over it from `pos` on. */
  function Overwrite(buff: seq<byte>, pos: nat, chunk: seq<byte>): (r: seq<byte>)
    requires pos + |chunk| <= |buff|
    ensures |r| == |buff|
  {
    buff[..pos] + chunk + buff[pos + |chunk|..]
  }

  /** `memcpy` into an array. */
  method CopyInto(target: array<byte>, pos: nat, chunk: seq<byte>)
    requires pos + |chunk| <= target.Length
    modifies target
    ensures target[..] == Overwrite(old(target[..]), pos, chunk)
  {
    forall i | 0 <= i < |chunk| {
      target[pos + i] := chunk[i];
    }
  }

  /** Appending behind the `used` bytes of a slice, seen from the whole array. */
  lemma SliceAppend(before: seq<byte>, after: seq<byte>, from: nat, used: nat, chunk: seq<byte>)
    requires from + used + |chunk| <= |before|
    requires after == Overwrite(before, from + used, chunk)
    ensures after[from..from + used + |chunk|] == before[from..from + used] + chunk
  {
  }

  /** Write `chunk` at the start of a slot of `size` bytes; nothing outside the slot changes. */
  method WriteSlot(target: array<byte>, from: nat, size: nat, chunk: seq<byte>)
    requires |chunk| <= size && from + size <= target.Length
    modifies target
    ensures target[from..from + |chunk|] == chunk
    ensures target[..from] == old(target[..from]) && target[from + size..] == old(target[from + size..])
  {
    CopyInto(target, from, chunk);
    assert target[..] == Overwrite(old(target[..]), from, chunk);
  }

  lemma SliceOfSuffix(s: seq<byte>, from: nat, n: nat)
    requires from + n <= |s|
    ensures s[from..][..n] == s[from..from + n]
  {
  }

  /** Strings that agree outside a span agree on every slice outside it. */
  lemma SameSlice(a: seq<byte>, b: seq<byte>, pos: nat, size: nat, from: nat, n: nat)
    requires |a| == |b| && pos + size <= |a| && from + n <= |a| && (pos + size <= from || from + n <= pos)
    requires a[..pos] == b[..pos] && a[pos + size..] == b[pos + size..]
    ensures a[from..from + n] == b[from..from + n]
  {
    forall i | from <= i < from + n
      ensures a[i] == b[i]
    {
      if i < pos {
        assert a[i] == a[..pos][i] && b[i] == b[..pos][i];
      } else {
        assert a[i] == a[pos + size..][i - pos - size] && b[i] == b[pos + size..][i - pos - size];
      }
    }
  }

  /** Overwriting leaves every slice on either side alone. */
  lemma SliceElsewhere(b: seq<byte>, pos: nat, chunk: seq<byte>, from: nat, n: nat)
    requires pos + |chunk| <= |b| && from + n <= |b| && (pos + |chunk| <= from || from + n <= pos)
    ensures Overwrite(b, pos, chunk)[from..from + n] == b[from..from + n]
  {
    var w := Overwrite(b, pos, chunk);
    assert w[..pos] == b[..pos] && w[pos + |chunk|..] == b[pos + |chunk|..];
    SameSlice(w, b, pos, |chunk|, from, n);
  }
}

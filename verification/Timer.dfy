/**
 The firmware's poll timer over a wrapping 32-bit microsecond clock
 (Firmware/UARTEthernetBridge/intervaltimer.cpp, the poll part of main_loop.cpp).
 */
module Timer {
  import opened Arithmetic
  import opened UartWorker

  const WRAP: nat := 0x1_0000_0000

  type u32 = x: int | 0 <= x < 0x1_0000_0000

  /** `unsigned long` arithmetic; also what `micros()` shows of the true time. */
  function Cast32(x: int): u32 { x % WRAP }

  class IntervalTimer {
    var interval: u32
    var checkPoint: u32

    constructor (now: nat)
      ensures interval == 1 && checkPoint == Cast32(now)
    {
      interval, checkPoint := 1, Cast32(now);
    }

    method SetInterval(now: nat, intervalUsec: u32)
      modifies this
      ensures interval == (if intervalUsec > 0 then intervalUsec else 1) && checkPoint == Cast32(now)
    {
      interval := if intervalUsec > 0 then intervalUsec else 1;
      checkPoint := Cast32(now);
    }

    /** The 32-bit test. */
    method Update(now: nat) returns (due: bool)
      ensures due == Due(checkPoint, interval, now)
    {
      due := Cast32(Cast32(now) - checkPoint) >= interval;
    }

    method Reset(now: nat)
      modifies this
      ensures interval == old(interval) && checkPoint == Cast32(now)
    {
      checkPoint := Cast32(now);
    }

    method Next()
      modifies this
      ensures interval == old(interval) && checkPoint == Cast32(old(checkPoint) + interval)
    {
      checkPoint := Cast32(checkPoint + interval);
    }
  }

  predicate Due(checkPoint: u32, interval: u32, now: nat) {
    Cast32(Cast32(now) - checkPoint) >= interval
  }

  lemma CastSum(a: int, b: int)
    ensures Cast32(Cast32(a) + b) == Cast32(a + b)
  {
    var q := a / WRAP;
    assert a == q * WRAP + Cast32(a);
    ModShift(Cast32(a) + b, q, WRAP);
  }

  /** While the loop lags less than 2^32 microseconds behind, the 32-bit test is the test in true time. */
  lemma DueIsTrueTime(check: nat, interval: u32, now: nat)
    requires check <= now < check + WRAP
    ensures Due(Cast32(check), interval, now) <==> now - check >= interval
  {
    var d := now - check;
    assert now == check + d;
    CastSum(check, d);
    var c: int := Cast32(check);
    assert Cast32(now) == Cast32(c + d);
    CastSum(c + d, -c);
    assert Cast32(Cast32(c + d) + -c) == Cast32(d) == d;
  }

  // ---------------------------------------------------------------- runs of the loop

  /** One turn of `loop`: its time, and what the port's transmit slot and input queue hold then. */
  datatype Turn = Turn(now: nat, used: nat, waiting: nat)

  /** The 32-bit timer over a run: final checkpoint, firings, bytes read from the port. */
  datatype Outcome = Outcome(checkPoint: u32, firings: nat, bytesRead: nat)

  function Loop(o: Outcome, interval: u32, ioSize: nat, payloadSize: nat, turns: seq<Turn>): Outcome
    decreases |turns|
  {
    if turns == [] then o
    else
      var t := turns[0];
      var o1 := if Due(o.checkPoint, interval, t.now)
                then Outcome(Cast32(o.checkPoint + interval), o.firings + 1,
                             o.bytesRead + FillSize(t.used, t.waiting, ioSize, payloadSize))
                else o;
      Loop(o1, interval, ioSize, payloadSize, turns[1..])
  }

  /** Time does not run backwards and each turn comes less than 2^32 microseconds after the true checkpoint. */
  predicate Timely(check: nat, interval: u32, turns: seq<Turn>)
    decreases |turns|
  {
    turns == [] ||
    var t := turns[0];
    && check <= t.now < check + WRAP
    && (forall i :: 0 < i < |turns| ==> t.now <= turns[i].now)
    && Timely(if t.now - check >= interval then check + interval else check, interval, turns[1..])
  }

  /** The instant `k` intervals after `check`. */
  function After(check: nat, interval: nat, k: nat): nat
    decreases k
  {
    if k == 0 then check else After(check + interval, interval, k - 1)
  }

  lemma {:induction false} AfterIs(check: nat, interval: nat, k: nat)
    ensures After(check, interval, k) == check + k * interval
    decreases k
  {
    if k > 0 {
      AfterIs(check + interval, interval, k - 1);
    }
  }

  /** `k` reads of at most `n` bytes. */
  function AtMost(n: nat, k: nat): nat {
    if k == 0 then 0 else n + AtMost(n, k - 1)
  }

  lemma {:induction false} AtMostIs(n: nat, k: nat)
    ensures AtMost(n, k) == n * k
  {
    if k > 0 {
      AtMostIs(n, k - 1);
    }
  }

  /**
   No drift: after k firings the checkpoint is the start time plus k intervals exactly, never ahead of the clock; and
   the port has given at most ioSize bytes per firing.
   */
  lemma {:induction false} NoDrift(check: nat, o: Outcome, interval: u32, ioSize: nat, payloadSize: nat,
                                   turns: seq<Turn>, last: nat)
    requires o.checkPoint == Cast32(check) && Timely(check, interval, turns) && check <= last
    requires forall i :: 0 <= i < |turns| ==> turns[i].now <= last
    ensures var r := Loop(o, interval, ioSize, payloadSize, turns);
            && r.firings >= o.firings
            && var k := r.firings - o.firings;
               r.checkPoint == Cast32(After(check, interval, k)) && After(check, interval, k) <= last
               && r.bytesRead <= o.bytesRead + AtMost(ioSize, k)
    decreases |turns|
  {
    if turns != [] {
      var t := turns[0];
      DueIsTrueTime(check, interval, t.now);
      if t.now - check >= interval {
        CastSum(check, interval);
        var read := FillSize(t.used, t.waiting, ioSize, payloadSize);
        var o1 := Outcome(Cast32(o.checkPoint + interval), o.firings + 1, o.bytesRead + read);
        NoDrift(check + interval, o1, interval, ioSize, payloadSize, turns[1..], last);
      } else {
        NoDrift(check, o, interval, ioSize, payloadSize, turns[1..], last);
      }
    }
  }

  /** Rate bound: by time `last` a port has been read at most ioSize bytes for each whole interval since the start. */
  lemma RateBound(start: nat, interval: u32, ioSize: nat, payloadSize: nat, turns: seq<Turn>, last: nat)
    requires interval > 0 && Timely(start, interval, turns) && start <= last
    requires forall i :: 0 <= i < |turns| ==> turns[i].now <= last
    ensures var r := Loop(Outcome(Cast32(start), 0, 0), interval, ioSize, payloadSize, turns);
            && r.checkPoint == Cast32(start + r.firings * interval) && start + r.firings * interval <= last
            && r.firings <= (last - start) / interval && r.bytesRead <= ioSize * ((last - start) / interval)
  {
    var o := Outcome(Cast32(start), 0, 0);
    NoDrift(start, o, interval, ioSize, payloadSize, turns, last);
    var r := Loop(o, interval, ioSize, payloadSize, turns);
    var q := (last - start) / interval;
    AfterIs(start, interval, r.firings);
    AtMostIs(ioSize, r.firings);
    Whole(r.firings, interval, last - start);
    MulMonotone(ioSize, r.firings, q);
  }

  lemma Whole(k: nat, d: nat, y: nat)
    requires d > 0 && k * d <= y
    ensures k <= y / d
  {
    if k > y / d {
      assert y == d * (y / d) + y % d;
      MulMonotone(d, y / d + 1, k);
    }
  }
}

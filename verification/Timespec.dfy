/**
 Deadlines of my_global.h where they are not those of Windows: seconds and nanoseconds, set from a clock that counts
 100-nanosecond ticks. The unsigned 64-bit arithmetic of the source is written out.
 */
module Timespec {

  const TWO_TO_THE_64: nat := 0x1_0000_0000_0000_0000
  const TICKS_PER_SECOND: nat := 10_000_000
  const NANOSECONDS_PER_SECOND: nat := 1_000_000_000

  type Ulonglong = n: int | 0 <= n < 0x1_0000_0000_0000_0000

  /** The value of an expression in `ulonglong`. */
  function Wrapped(n: int): Ulonglong {
    n % TWO_TO_THE_64
  }

  lemma {:induction false} WrappedIsCongruent(n: int)
    ensures exists k: int :: n == Wrapped(n) + k * TWO_TO_THE_64
  {
    var k := n / TWO_TO_THE_64;
    assert n == Wrapped(n) + k * TWO_TO_THE_64;
  }

  lemma {:induction false} CongruentWrapsAlike(m: int, n: int, k: int)
    requires m == n + k * TWO_TO_THE_64
    ensures Wrapped(m) == Wrapped(n)
  {
  }

  /** Wrapping early makes no difference to what is wrapped later. */
  lemma {:induction false} WrapsOnce(n: int, factor: int, term: int)
    ensures Wrapped(Wrapped(n) * factor + term) == Wrapped(n * factor + term)
  {
    WrappedIsCongruent(n);
    var k: int :| n == Wrapped(n) + k * TWO_TO_THE_64;
    assert n * factor == Wrapped(n) * factor + (k * factor) * TWO_TO_THE_64;
    CongruentWrapsAlike(n * factor + term, Wrapped(n) * factor + term, k * factor);
  }

  // -------------------------------------------------------------- the struct

  class Timespec {
    var tvSec: int
    var tvNsec: int

    constructor (sec: int, nsec: int)
      ensures tvSec == sec && tvNsec == nsec
    {
      tvSec, tvNsec := sec, nsec;
    }

    /** The time in nanoseconds. */
    ghost function Total(): int
      reads this
    {
      Nanoseconds(tvSec, tvNsec)
    }

    ghost predicate Normalised()
      reads this
    {
      InASecond(tvNsec)
    }
  }

  function Nanoseconds(sec: int, nsec: int): int {
    sec * NANOSECONDS_PER_SECOND + nsec
  }

  predicate InASecond(nsec: int) {
    0 <= nsec < NANOSECONDS_PER_SECOND
  }

  // ----------------------------------------------------------------- setting

  /** The nanosecond that a deadline names: the sum of ticks wraps, the odd nanoseconds are kept. */
  ghost function Deadline(clock: Ulonglong, nsec: Ulonglong): nat {
    100 * Wrapped(clock + nsec / 100) + nsec % 100
  }

  /** clock is what my_getsystime returns. */
  method SetTimespecNsec(abstime: Timespec, clock: Ulonglong, nsec: Ulonglong)
    modifies abstime
    ensures abstime.Normalised() && abstime.Total() == Deadline(clock, nsec)
  {
    var now := Wrapped(clock + nsec / 100);
    abstime.tvSec := now / TICKS_PER_SECOND;
    abstime.tvNsec := now % TICKS_PER_SECOND * 100 + nsec % 100;
  }

  method SetTimespec(abstime: Timespec, clock: Ulonglong, sec: Ulonglong)
    modifies abstime
    ensures abstime.Normalised() && abstime.Total() == Deadline(clock, Wrapped(sec * NANOSECONDS_PER_SECOND))
  {
    SetTimespecNsec(abstime, clock, Wrapped(sec * NANOSECONDS_PER_SECOND));
  }

  /** The deadline is the clock plus the delay, unless the count of ticks runs over. */
  lemma {:induction false} DeadlineIsExact(clock: Ulonglong, nsec: Ulonglong)
    ensures Deadline(clock, nsec) == 100 * clock + nsec <==> clock + nsec / 100 < TWO_TO_THE_64
  {
    assert nsec == 100 * (nsec / 100) + nsec % 100;
  }

  lemma {:induction false} DeadlineAtMost(clock: Ulonglong, nsec: Ulonglong)
    ensures Deadline(clock, nsec) <= 100 * clock + nsec
  {
    var ticks := clock + nsec / 100;
    assert Wrapped(ticks) <= ticks;
    assert nsec == 100 * (nsec / 100) + nsec % 100;
  }

  /** A delay in seconds is honoured exactly when neither its product nor the count of ticks runs over. */
  lemma {:induction false} DelayInSeconds(clock: Ulonglong, sec: Ulonglong)
    ensures Deadline(clock, Wrapped(sec * NANOSECONDS_PER_SECOND)) == 100 * clock + sec * NANOSECONDS_PER_SECOND
       <==> sec * NANOSECONDS_PER_SECOND < TWO_TO_THE_64 && clock + sec * TICKS_PER_SECOND < TWO_TO_THE_64
  {
    var product := sec * NANOSECONDS_PER_SECOND;
    var nsec := Wrapped(product);
    assert product == 100 * (sec * TICKS_PER_SECOND);
    if product < TWO_TO_THE_64 {
      assert nsec == product && nsec / 100 == sec * TICKS_PER_SECOND;
      DeadlineIsExact(clock, nsec);
    } else {
      assert nsec < product;
      DeadlineAtMost(clock, nsec);
    }
  }

  /** A second from the last clock reading is not honoured, and 18446744074 seconds, some 585 years, never are. */
  lemma {:induction false} DelaysThatRunOver()
    ensures Deadline(TWO_TO_THE_64 - 1, Wrapped(NANOSECONDS_PER_SECOND))
         != 100 * (TWO_TO_THE_64 - 1) + NANOSECONDS_PER_SECOND
    ensures Deadline(0, Wrapped(18446744074 * NANOSECONDS_PER_SECOND)) != 18446744074 * NANOSECONDS_PER_SECOND
  {
    DelayInSeconds(TWO_TO_THE_64 - 1, 1);
    DelayInSeconds(0, 18446744074);
  }

  // -------------------------------------------------------------- comparing

  method CmpTimespec(ts1: Timespec, ts2: Timespec) returns (c: int)
    ensures c == Compared(ts1.tvSec, ts1.tvNsec, ts2.tvSec, ts2.tvNsec)
    ensures ts1.Normalised() && ts2.Normalised() ==> c == Sign(ts1.Total() - ts2.Total())
  {
    ComparedIsTheOrder(ts1.tvSec, ts1.tvNsec, ts2.tvSec, ts2.tvNsec);
    if ts1.tvSec > ts2.tvSec || (ts1.tvSec == ts2.tvSec && ts1.tvNsec > ts2.tvNsec) {
      return 1;
    }
    if ts1.tvSec < ts2.tvSec || (ts1.tvSec == ts2.tvSec && ts1.tvNsec < ts2.tvNsec) {
      return -1;
    }
    return 0;
  }

  function Sign(n: int): int {
    if n > 0 then 1 else if n < 0 then -1 else 0
  }

  /** Seconds first, then nanoseconds. */
  function Compared(sec1: int, nsec1: int, sec2: int, nsec2: int): int {
    if sec1 != sec2 then Sign(sec1 - sec2) else Sign(nsec1 - nsec2)
  }

  lemma {:induction false} ComparedIsTheOrder(sec1: int, nsec1: int, sec2: int, nsec2: int)
    ensures InASecond(nsec1) && InASecond(nsec2)
        ==> Compared(sec1, nsec1, sec2, nsec2) == Sign(Nanoseconds(sec1, nsec1) - Nanoseconds(sec2, nsec2))
  {
  }

  /** Comparing with any normalised time gives the order of total nanoseconds. */
  ghost predicate ComparesByTotal(sec: int, nsec: int) {
    forall sec2, nsec2 :: InASecond(nsec2) ==>
      Compared(sec, nsec, sec2, nsec2) == Sign(Nanoseconds(sec, nsec) - Nanoseconds(sec2, nsec2))
  }

  /**
   The comparison is by total nanoseconds for exactly the normalised times: one with too many nanoseconds counts as less
   than the next full second, one with a negative number as more than the last nanosecond of the second before.
   */
  lemma {:induction false} ComparingNeedsNormalTimes(sec: int, nsec: int)
    ensures ComparesByTotal(sec, nsec) <==> InASecond(nsec)
  {
    if InASecond(nsec) {
      forall sec2, nsec2 | InASecond(nsec2)
        ensures Compared(sec, nsec, sec2, nsec2) == Sign(Nanoseconds(sec, nsec) - Nanoseconds(sec2, nsec2))
      {
        ComparedIsTheOrder(sec, nsec, sec2, nsec2);
      }
    } else if nsec < 0 {
      assert Compared(sec, nsec, sec - 1, NANOSECONDS_PER_SECOND - 1) == 1;
    } else {
      assert Compared(sec, nsec, sec + 1, 0) == -1;
    }
  }

  // -------------------------------------------------------------- difference

  method DiffTimespec(ts1: Timespec, ts2: Timespec) returns (d: Ulonglong)
    ensures d == Wrapped(ts1.Total() - ts2.Total())
  {
    var seconds := Wrapped(Wrapped(ts1.tvSec - ts2.tvSec) * NANOSECONDS_PER_SECOND);
    var sum := Wrapped(seconds + ts1.tvNsec);
    d := Wrapped(sum - ts2.tvNsec);
    WrapsOnce(ts1.tvSec - ts2.tvSec, NANOSECONDS_PER_SECOND, 0);
    var exact := (ts1.tvSec - ts2.tvSec) * NANOSECONDS_PER_SECOND;
    WrapsOnce(exact, 1, ts1.tvNsec);
    WrapsOnce(exact + ts1.tvNsec, 1, -ts2.tvNsec);
  }

  /**
   Whatever the clock read, and whether or not either sum ran over, two deadlines set from one reading are as far apart
   as their delays.
   */
  lemma {:induction false} DeadlinesKeepTheirDistance(clock: Ulonglong, nsec1: Ulonglong, nsec2: Ulonglong)
    ensures Wrapped(Deadline(clock, nsec1) - Deadline(clock, nsec2)) == Wrapped(nsec1 - nsec2)
    ensures nsec1 >= nsec2 ==> Wrapped(Deadline(clock, nsec1) - Deadline(clock, nsec2)) == nsec1 - nsec2
  {
    var k1 := DeadlineIsCongruent(clock, nsec1);
    var k2 := DeadlineIsCongruent(clock, nsec2);
    DistanceWraps(Deadline(clock, nsec1), Deadline(clock, nsec2), nsec1 - nsec2, k1, k2);
    WrappedIsSmall(nsec1 - nsec2);
  }

  lemma {:induction false} DistanceWraps(d1: int, d2: int, distance: int, k1: int, k2: int)
    requires d1 - d2 == distance + k1 * TWO_TO_THE_64 - k2 * TWO_TO_THE_64
    ensures Wrapped(d1 - d2) == Wrapped(distance)
  {
    CongruentWrapsAlike(d1 - d2, distance, k1 - k2);
  }

  lemma {:induction false} WrappedIsSmall(n: int)
    ensures 0 <= n < TWO_TO_THE_64 ==> Wrapped(n) == n
  {
  }

  lemma {:induction false} DeadlineIsCongruent(clock: Ulonglong, nsec: Ulonglong) returns (k: int)
    ensures Deadline(clock, nsec) == 100 * clock + nsec + k * TWO_TO_THE_64
  {
    var ticks: int := clock + nsec / 100;
    WrappedIsCongruent(ticks);
    var j: int :| ticks == Wrapped(ticks) + j * TWO_TO_THE_64;
    assert nsec == 100 * (nsec / 100) + nsec % 100;
    k := -100 * j;
  }
}

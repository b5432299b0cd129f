/** The timespec macros, POSIX and Windows forms.  TIME counts 100 ns units, NSEC nanoseconds. */
module Timespec {
  import opened CTypes
  import Division

  /** Division that truncates towards zero, for a positive divisor. */
  function TruncDiv(a: int, b: int): int
    requires b > 0
  {
    if a >= 0 then a / b else -((-a) / b)
  }

  // ----- POSIX -----

  lemma U64Is(v: int)
    requires 0 <= v < 0x2_0000_0000_0000_0000
    ensures U64(v) == if v < 0x1_0000_0000_0000_0000 then v else v - 0x1_0000_0000_0000_0000
  {
  }

  lemma Recombined(ticks: nat, ns: nat)
    requires ns < 100
    ensures ticks / 10_000_000 * 1_000_000_000 + (ticks % 10_000_000 * 100 + ns) == ticks * 100 + ns
    ensures ticks % 10_000_000 * 100 + ns < 1_000_000_000
  {
  }

  class PosixTime {
    var sec: int
    var nsec: int

    constructor ()
      ensures sec == 0 && nsec == 0
    {
      sec, nsec := 0, 0;
    }

    /** The time in nanoseconds. */
    function Total(): int
      reads this
    {
      sec * 1_000_000_000 + nsec
    }

    ghost predicate Normal()
      reads this
    {
      0 <= nsec < 1_000_000_000
    }

    /** set_timespec_time_nsec.  Both arguments are unsigned 64-bit; the field is always normal, and
        the total is conserved exactly when the sum of the ticks does not overflow. */
    method SetTimeNsec(time: int, nsecArg: int)
      requires 0 <= time < 0x1_0000_0000_0000_0000 && 0 <= nsecArg < 0x1_0000_0000_0000_0000
      modifies this
      ensures Normal()
      ensures Total() == time * 100 + nsecArg - (if time + nsecArg / 100 < 0x1_0000_0000_0000_0000 then 0 else 0x1_0000_0000_0000_0000 * 100)
      ensures Total() == time * 100 + nsecArg <==> time + nsecArg / 100 < 0x1_0000_0000_0000_0000
    {
      var n := U64(nsecArg);
      U64Is(nsecArg);
      var now := U64(time + n / 100);
      U64Is(time + n / 100);
      sec := now / 10_000_000;
      nsec := now % 10_000_000 * 100 + n % 100;
      Recombined(now, n % 100);
    }
  }

  datatype Instant = Instant(sec: int, nsec: int)

  function InNs(a: Instant): int {
    a.sec * 1_000_000_000 + a.nsec
  }

  predicate IsNormal(a: Instant) {
    0 <= a.nsec < 1_000_000_000
  }

  function CmpPosix(a: Instant, b: Instant): int {
    if a.sec > b.sec || (a.sec == b.sec && a.nsec > b.nsec) then 1
    else if a.sec < b.sec || (a.sec == b.sec && a.nsec < b.nsec) then -1
    else 0
  }

  function DiffPosix(a: Instant, b: Instant): int {
    U64(U64((a.sec - b.sec) * 1_000_000_000) + a.nsec - b.nsec)
  }

  function Sign(v: int): int {
    if v > 0 then 1 else if v < 0 then -1 else 0
  }

  lemma U64Sum(x: int, y: int)
    ensures U64(U64(x) + y) == U64(x + y)
  {
    var m := 0x1_0000_0000_0000_0000;
    var q, z := x / m, x % m + y;
    assert x + y == m * (q + z / m) + z % m;
    Division.Unique(x + y, m, q + z / m, z % m);
  }

  /** cmp_timespec is the numeric order of normal times, diff_timespec their difference modulo 2^64. */
  lemma PosixIsNumeric(a: Instant, b: Instant)
    ensures IsNormal(a) && IsNormal(b) ==> CmpPosix(a, b) == Sign(InNs(a) - InNs(b))
    ensures DiffPosix(a, b) == U64(InNs(a) - InNs(b))
  {
    U64Sum((a.sec - b.sec) * 1_000_000_000, a.nsec - b.nsec);
  }

  // ----- Windows -----

  /** `i` is the time `back` nanoseconds before `time`, rounded up to 100 ns, with 2^64 added if it is
      before the first there is. */
  predicate BeforeBy(time: int, back: int, i: int) {
    var j := if time - back / 100 < -0x8000_0000_0000_0000 then i - 0x1_0000_0000_0000_0000 else i;
    j * 100 - 100 < time * 100 - back <= j * 100
  }

  lemma S64Is(v: int)
    requires -0x1_8000_0000_0000_0000 <= v < 0x1_8000_0000_0000_0000
    ensures S64(v) == if v < -0x8000_0000_0000_0000 then v + 0x1_0000_0000_0000_0000
                      else if v >= 0x8000_0000_0000_0000 then v - 0x1_0000_0000_0000_0000
                      else v
  {
  }

  /** `i` is `time` and `nsec` together, rounded down to 100 ns. */
  predicate RoundedDown(time: int, nsec: int, i: int) {
    i * 100 <= time * 100 + nsec < i * 100 + 100
  }

  lemma WindowsSets(time: int, nsec: int, i: int)
    requires -0x8000_0000_0000_0000 <= time < 0x8000_0000_0000_0000 && 0 <= nsec < 0x1_0000_0000_0000_0000
    requires i == S64(time + TruncDiv(S64(nsec), 100))
    ensures RoundedDown(time, nsec, i) <==> nsec < 0x8000_0000_0000_0000 && time + nsec / 100 < 0x8000_0000_0000_0000
    ensures nsec < 0x8000_0000_0000_0000 && time + nsec / 100 >= 0x8000_0000_0000_0000 ==>
      RoundedDown(time, nsec, i + 0x1_0000_0000_0000_0000)
    ensures nsec >= 0x8000_0000_0000_0000 ==> BeforeBy(time, 0x1_0000_0000_0000_0000 - nsec, i)
  {
    S64Is(nsec);
    if nsec < 0x8000_0000_0000_0000 {
      S64Is(time + nsec / 100);
    } else {
      S64Is(time - (0x1_0000_0000_0000_0000 - nsec) / 100);
    }
  }

  class WindowsTime {
    var i64: int
    var maxTimeoutMsec: int

    constructor ()
      ensures i64 == 0 && maxTimeoutMsec == 0
    {
      i64, maxTimeoutMsec := 0, 0;
    }

    /** The arguments are a signed and an unsigned 64-bit number.  The result is the time rounded down
        to 100 ns exactly when NSEC survives its cast to signed and the sum does not overflow. */
    method SetTimeNsec(time: int, nsecArg: int)
      requires -0x8000_0000_0000_0000 <= time < 0x8000_0000_0000_0000 && 0 <= nsecArg < 0x1_0000_0000_0000_0000
      modifies this
      ensures RoundedDown(time, nsecArg, i64)
              <==> nsecArg < 0x8000_0000_0000_0000 && time + nsecArg / 100 < 0x8000_0000_0000_0000
      ensures nsecArg < 0x8000_0000_0000_0000 && time + nsecArg / 100 >= 0x8000_0000_0000_0000 ==>
        RoundedDown(time, nsecArg, i64 + 0x1_0000_0000_0000_0000)
      ensures nsecArg >= 0x8000_0000_0000_0000 ==> BeforeBy(time, 0x1_0000_0000_0000_0000 - nsecArg, i64)
      ensures maxTimeoutMsec == nsecArg / 1000000 <==> nsecArg / 1000000 < 0x8000_0000
      ensures -0x8000_0000 <= maxTimeoutMsec < 0x8000_0000
      ensures (nsecArg / 1000000 - maxTimeoutMsec) % 0x1_0000_0000 == 0
    {
      i64 := S64(time + TruncDiv(S64(nsecArg), 100));
      maxTimeoutMsec := S32(nsecArg / 1000000);
      WindowsSets(time, nsecArg, i64);
    }
  }

  function CmpWindows(a: int, b: int): int {
    if a > b then 1 else if a < b then -1 else 0
  }

  function DiffWindows(a: int, b: int): int {
    S64((a - b) * 100)
  }

  /** The two forms set from the same arguments, as far as neither overflows. */
  ghost predicate SameTime(time: int, nsec: int, p: Instant, w: int) {
    && 0 <= time && 0 <= nsec && time + nsec / 100 < 0x8000_0000_0000_0000
    && IsNormal(p) && InNs(p) == time * 100 + nsec
    && w == time + nsec / 100
  }

  /** One call of each form on the same arguments. */
  method SetBoth(time: int, nsec: int, p: PosixTime, w: WindowsTime)
    requires 0 <= time && 0 <= nsec < 0x8000_0000_0000_0000 && time + nsec / 100 < 0x8000_0000_0000_0000
    modifies p, w
    ensures SameTime(time, nsec, Instant(p.sec, p.nsec), w.i64)
  {
    p.SetTimeNsec(time, nsec);
    w.SetTimeNsec(time, nsec);
  }

  lemma Rounds(time: int, nsec: int, p: Instant, w: int)
    requires SameTime(time, nsec, p, w)
    ensures w * 100 <= InNs(p) < w * 100 + 100
  {
  }

  lemma S64InRange(v: int)
    requires -0x8000_0000_0000_0000 <= v < 0x8000_0000_0000_0000
    ensures S64(v) == v
  {
  }

  /** cmp_timespec on Windows is 1, -1 or 0 as the first time is the later, the earlier or the same. */
  lemma WindowsCompares(w1: int, w2: int)
    ensures CmpWindows(w1, w2) == 1 <==> w1 > w2
    ensures CmpWindows(w1, w2) == -1 <==> w1 < w2
    ensures CmpWindows(w1, w2) == 0 <==> w1 == w2
  {
  }

  /** Times 100 ns or more apart are told apart as on POSIX, and the difference has the sign of the
      comparison as long as it is in range. */
  lemma WindowsTellsApart(t1: int, n1: int, p1: Instant, w1: int, t2: int, n2: int, p2: Instant, w2: int)
    requires SameTime(t1, n1, p1, w1) && SameTime(t2, n2, p2, w2)
    ensures InNs(p1) - InNs(p2) >= 100 ==> CmpWindows(w1, w2) == 1
    ensures InNs(p1) - InNs(p2) <= -100 ==> CmpWindows(w1, w2) == -1
    ensures CmpWindows(w1, w2) == 0 ==> -100 < InNs(p1) - InNs(p2) < 100
    ensures -0x8000_0000_0000_0000 <= (w1 - w2) * 100 < 0x8000_0000_0000_0000 ==>
      Sign(DiffWindows(w1, w2)) == CmpWindows(w1, w2)
  {
    Rounds(t1, n1, p1, w1);
    Rounds(t2, n2, p2, w2);
    WindowsCompares(w1, w2);
    if -0x8000_0000_0000_0000 <= (w1 - w2) * 100 < 0x8000_0000_0000_0000 {
      S64InRange((w1 - w2) * 100);
    }
  }

  /** The Windows form is the POSIX one rounded down to 100 ns: it never orders two times the other way
      round, and differences are off by less than 100 ns. */
  lemma WindowsRoundsPosix(t1: int, n1: int, p1: Instant, w1: int, t2: int, n2: int, p2: Instant, w2: int)
    requires SameTime(t1, n1, p1, w1) && SameTime(t2, n2, p2, w2)
    ensures w1 * 100 <= InNs(p1) < w1 * 100 + 100
    ensures CmpWindows(w1, w2) != 0 ==> CmpWindows(w1, w2) == CmpPosix(p1, p2)
    ensures CmpPosix(p1, p2) == 0 ==> CmpWindows(w1, w2) == 0
    ensures -100 < (w1 - w2) * 100 - (InNs(p1) - InNs(p2)) < 100
    ensures -0x8000_0000_0000_0000 <= (w1 - w2) * 100 < 0x8000_0000_0000_0000 ==>
      -100 < DiffWindows(w1, w2) - (InNs(p1) - InNs(p2)) < 100
  {
    PosixIsNumeric(p1, p2);
    Rounds(t1, n1, p1, w1);
    Rounds(t2, n2, p2, w2);
    if -0x8000_0000_0000_0000 <= (w1 - w2) * 100 < 0x8000_0000_0000_0000 {
      S64InRange((w1 - w2) * 100);
    }
  }
}

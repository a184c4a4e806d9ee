/**
 The timed wait that is cut into slices, and the deadline of each slice.
 */
module TimedWait {

  const WRAP := 0x1_0000_0000
  const TIMED_OUT := 110
  const SECOND := 1_000_000_000

  /** The length of a slice, in milliseconds. */
  function Slice(msecs: nat): nat {
    if msecs / 4 == 0 then 1 else msecs / 4
  }

  /** The number of slices it takes to reach `msecs`. */
  function Slices(msecs: nat): nat {
    if msecs < 8 then msecs else if msecs % 4 == 0 then 4 else if msecs == 11 then 6 else 5
  }

  function Total(slices: nat, slice: nat): nat {
    slices * slice
  }

  lemma TotalStep(k: nat, t: nat)
    ensures Total(k + 1, t) == Total(k, t) + t
  {
  }

  lemma TotalMonotone(k: nat, n: nat, t: nat)
    requires k <= n
    ensures Total(k, t) <= Total(n, t)
  {
    assert n * t == k * t + (n - k) * t;
  }

  /** Adding slices up never overflows the 32-bit counter before the loop ends. */
  predicate Counts(msecs: nat) {
    msecs % 4 == 0 || 5 * (msecs / 4) < WRAP
  }

  /** At most seven slices are as many as it takes, and no more. */
  lemma FewSlices(msecs: nat)
    requires msecs > 0
    ensures 1 <= Slices(msecs) <= 7
    ensures msecs <= Total(Slices(msecs), Slice(msecs)) < msecs + Slice(msecs)
  {
    if msecs < 8 {
      assert Slice(msecs) == 1;
    } else if msecs == 11 {
      assert Slice(msecs) == 2;
    } else {
      assert msecs == 4 * Slice(msecs) + msecs % 4;
    }
  }

  // ---------- the 32-bit count ----------

  /** What the count shows after `k` slices. */
  function Counter(t: nat, k: nat): nat {
    if k == 0 then 0 else (Counter(t, k - 1) + t) % WRAP
  }

  lemma {:induction false} CounterIs(t: nat, k: nat)
    ensures Counter(t, k) == Total(k, t) % WRAP
  {
    if k > 0 {
      CounterIs(t, k - 1);
      TotalStep(k - 1, t);
      RemainderOfSum(Total(k - 1, t), t);
    }
  }

  lemma RemainderOfSum(x: nat, t: nat)
    ensures (x % WRAP + t) % WRAP == (x + t) % WRAP
  {
  }

  /** The loop that counts to `msecs` makes `n` passes if nobody wakes it. */
  ghost predicate Passes(msecs: nat, n: nat) {
    Counter(Slice(msecs), n) >= msecs && forall k :: 0 <= k < n ==> Counter(Slice(msecs), k) < msecs
  }

  lemma PassesUnique(msecs: nat, m: nat, n: nat)
    requires Passes(msecs, m) && Passes(msecs, n)
    ensures m == n
  {
  }

  lemma EarlierSlices(msecs: nat, k: nat)
    requires 0 < msecs < WRAP && k < Slices(msecs)
    ensures Total(k, Slice(msecs)) < msecs
  {
    FewSlices(msecs);
    TotalStep(k, Slice(msecs));
    TotalMonotone(k + 1, Slices(msecs), Slice(msecs));
  }

  lemma SlicesTotal(msecs: nat)
    requires 0 < msecs < WRAP
    ensures Counts(msecs) ==> Total(Slices(msecs), Slice(msecs)) < WRAP
    ensures !Counts(msecs) ==> WRAP <= Total(Slices(msecs), Slice(msecs))
  {
    if msecs < 8 {
      assert Slice(msecs) == 1;
    } else if msecs != 11 && msecs % 4 != 0 {
      assert Total(5, Slice(msecs)) == 5 * (msecs / 4);
    }
  }

  lemma EarlierCounter(msecs: nat, k: nat)
    requires 0 < msecs < WRAP && k < Slices(msecs)
    ensures Counter(Slice(msecs), k) < msecs
  {
    EarlierSlices(msecs, k);
    CounterIs(Slice(msecs), k);
  }

  lemma LastCounter(msecs: nat)
    requires 0 < msecs < WRAP
    ensures Counter(Slice(msecs), Slices(msecs)) >= msecs <==> Counts(msecs)
  {
    FewSlices(msecs);
    SlicesTotal(msecs);
    CounterIs(Slice(msecs), Slices(msecs));
    AboveWrap(Total(Slices(msecs), Slice(msecs)), msecs);
  }

  lemma AboveWrap(total: nat, msecs: nat)
    requires msecs <= total < msecs + WRAP && msecs < WRAP
    ensures total % WRAP >= msecs <==> total < WRAP
  {
    assert total % WRAP == if total < WRAP then total else total - WRAP;
  }

  /** The loop makes just as many passes as it takes slices if and only if the count does not wrap before. */
  lemma CountsExactly(msecs: nat)
    requires 0 < msecs < WRAP
    ensures Passes(msecs, Slices(msecs)) <==> Counts(msecs)
  {
    LastCounter(msecs);
    forall k | 0 <= k < Slices(msecs) ensures Counter(Slice(msecs), k) < msecs {
      EarlierCounter(msecs, k);
    }
  }

  // ---------- the loop ends all the same ----------

  const QUARTER := 0x4000_0000

  function Power(n: nat): nat {
    if n == 0 then 1 else 2 * Power(n - 1)
  }

  lemma {:induction false} TenTimesDoubled(n: nat)
    ensures Power(n + 10) == 0x400 * Power(n)
  {
    if n == 0 {
      assert Power(10) == 0x400;
    } else {
      TenTimesDoubled(n - 1);
    }
  }

  /** The only odd divisor of a power of two is 1. */
  lemma {:induction false} OddDivisor(d: nat, u: nat, n: nat)
    requires d * u == Power(n) && d % 2 == 1
    ensures d == 1
    decreases n
  {
    if n == 0 {
      if d > 1 {
        ProductAtLeast(d, u);
      }
    } else {
      var v := u / 2;
      HalfOfProduct(d, u, Power(n - 1));
      OddDivisor(d, v, n - 1);
    }
  }

  lemma ProductAtLeast(d: nat, u: nat)
    ensures u > 0 ==> d * u >= d
    ensures u == 0 ==> d * u == 0
  {
  }

  lemma HalfOfProduct(d: nat, u: nat, p: nat)
    requires d * u == 2 * p && d % 2 == 1
    ensures d * (u / 2) == p
  {
    var a, v := d / 2, u / 2;
    assert d * u == 2 * (a * u) + u;
    assert u % 2 == 0;
    assert u == 2 * v;
    assert d * u == 2 * (d * v);
  }

  lemma DivisorOfQuarter(d: nat, u: nat)
    requires d * u == QUARTER && d > 4
    ensures d % 4 == 0
  {
    assert Power(9) == 0x200 && Power(10) == 0x400;
    TenTimesDoubled(9);
    TenTimesDoubled(10);
    TenTimesDoubled(19);
    TenTimesDoubled(20);
    assert Power(30) == QUARTER && Power(29) == QUARTER / 2;
    if d % 2 == 1 {
      OddDivisor(d, u, 30);
    } else {
      var e := d / 2;
      assert d == 2 * e && d * u == 2 * (e * u);
      if e % 2 == 1 {
        OddDivisor(e, u, 29);
      }
    }
  }

  /** A count just below the wrap, when a quarter of the range is a multiple of what a slice falls short of it. */
  lemma NearTheWrap(t: nat, u: nat, d: nat)
    requires t == QUARTER - u && 0 < u < QUARTER && d * u == QUARTER && d > 4
    ensures Total(d + 1, t) % WRAP == WRAP - u
  {
    DivisorOfQuarter(d, u);
    var q := d / 4;
    assert Total(d + 1, t) == d * QUARTER + QUARTER - d * u - u by {
      assert (d + 1) * (QUARTER - u) == (d + 1) * QUARTER - (d + 1) * u;
      assert (d + 1) * u == d * u + u;
    }
    assert Total(d + 1, t) == (q - 1) * WRAP + (WRAP - u);
  }

  /** And when it is not. */
  lemma NotFarFromTheWrap(t: nat, u: nat, j: nat, rem: nat)
    requires t == QUARTER - u && 0 < rem < u < QUARTER && j * u == QUARTER - rem + u && j >= 2
    ensures Total(4 * j, t) % WRAP == WRAP - 4 * (u - rem)
  {
    assert Total(4 * j, t) == 4 * j * QUARTER - 4 * (j * u) by {
      assert 4 * j * (QUARTER - u) == 4 * j * QUARTER - 4 * j * u;
      assert 4 * j * u == 4 * (j * u);
    }
    assert Total(4 * j, t) == (j - 2) * WRAP + (WRAP - 4 * (u - rem));
  }

  /** Even when the count wraps it reaches the time in the end. */
  lemma WaitEnds(msecs: nat) returns (n: nat)
    requires 0 < msecs < WRAP
    ensures Counter(Slice(msecs), n) >= msecs
  {
    if Counts(msecs) {
      n := Slices(msecs);
      CountsExactly(msecs);
    } else {
      n := WrappedWaitEnds(msecs);
    }
  }

  lemma WrappedWaitEnds(msecs: nat) returns (n: nat)
    requires 0 < msecs < WRAP && !Counts(msecs)
    ensures Counter(Slice(msecs), n) >= msecs
  {
    var t := Slice(msecs);
    var u := QUARTER - t;
    assert 0 < u <= 214748364 && msecs <= WRAP - 4 * u + 3;
    var d, rem := QUARTER / u, QUARTER % u;
    Division(QUARTER, u, d, rem);
    if rem == 0 {
      n := d + 1;
      NearTheWrap(t, u, d);
    } else {
      n := 4 * (d + 1);
      assert (d + 1) * u == d * u + u;
      NotFarFromTheWrap(t, u, d + 1, rem);
    }
    CounterIs(t, n);
  }

  lemma Division(n: nat, u: nat, d: nat, rem: nat)
    requires u > 0 && d == n / u && rem == n % u
    ensures d * u == n - rem && rem < u
    ensures 5 * u <= n ==> d > 4
  {
    if d <= 4 {
      assert d * u <= 4 * u;
    }
  }

  /**
   The wait: `answers` are what each slice's wait returns, `forever` what an unlimited wait returns.
   `waited` is the number of slices begun. The loop always ends.
   */
  method CondTimeoutNp(msecs: nat, answers: nat -> int, forever: int) returns (ret: int, waited: nat)
    requires msecs < WRAP
    ensures msecs == 0 ==> ret == forever && waited == 0
    ensures msecs > 0 ==> waited > 0 && ret == answers(waited - 1) && forall k :: 0 <= k < waited - 1 ==> answers(k) == TIMED_OUT
    ensures msecs > 0 && ret == TIMED_OUT ==> Passes(msecs, waited)
    ensures msecs > 0 && ret != TIMED_OUT ==> forall k :: 0 <= k < waited ==> Counter(Slice(msecs), k) < msecs
    ensures msecs > 0 && ret == TIMED_OUT && Counts(msecs) ==>
      waited == Slices(msecs) <= 7 && msecs <= Total(waited, Slice(msecs)) < msecs + Slice(msecs)
  {
    ret, waited := forever, 0;
    if msecs != 0 {
      var t := msecs / 4;
      if t == 0 {
        t := 1;
      }
      ret, waited := Sliced(msecs, t, answers);
      if ret == TIMED_OUT {
        OnTime(msecs, waited);
      }
    }
  }

  /** Slice after slice, until a wait returns for another reason than its end. */
  method Sliced(msecs: nat, t: nat, answers: nat -> int) returns (ret: int, waited: nat)
    requires 0 < msecs < WRAP && t == Slice(msecs)
    ensures waited > 0 && ret == answers(waited - 1) && forall k :: 0 <= k < waited - 1 ==> answers(k) == TIMED_OUT
    ensures forall k :: 0 <= k < waited ==> Counter(t, k) < msecs
    ensures ret == TIMED_OUT ==> Counter(t, waited) >= msecs
  {
    ret, waited := 0, 0;
    ghost var n := WaitEnds(msecs);
    var i := 0;
    while i < msecs
      invariant i == Counter(t, waited) && waited <= n
      invariant forall k :: 0 <= k < waited ==> Counter(t, k) < msecs
      invariant forall k :: 0 <= k < waited ==> answers(k) == TIMED_OUT
      invariant waited > 0 ==> ret == TIMED_OUT
      decreases n - waited
    {
      ret := answers(waited);
      waited := waited + 1;
      if ret != TIMED_OUT {
        return;
      }
      i := (i + t) % WRAP;
    }
  }

  lemma OnTime(msecs: nat, n: nat)
    requires 0 < msecs < WRAP && Passes(msecs, n)
    ensures Counts(msecs) ==> n == Slices(msecs) <= 7 && msecs <= Total(n, Slice(msecs)) < msecs + Slice(msecs)
  {
    if Counts(msecs) {
      CountsExactly(msecs);
      PassesUnique(msecs, n, Slices(msecs));
      FewSlices(msecs);
    }
  }

  /** Just above four fifths of the range the count has wrapped after the fifth slice, and the loop goes on. */
  lemma LongWaitWraps(msecs: nat, n: nat)
    requires 0 < msecs < WRAP && !Counts(msecs) && Passes(msecs, n)
    ensures n > Slices(msecs) && Counter(Slice(msecs), Slices(msecs)) < msecs
  {
    LastCounter(msecs);
    forall k | 0 <= k < Slices(msecs) ensures Counter(Slice(msecs), k) < msecs {
      EarlierCounter(msecs, k);
    }
  }

  class Timespec {
    var sec: int
    var nsec: int

    constructor ()
      ensures sec == 0 && nsec == 0
    {
      sec, nsec := 0, 0;
    }

    ghost function Nanoseconds(): int
      reads this
    {
      sec * SECOND + nsec
    }

    /** The deadline `msec` from now: exact, and with less than a second of nanoseconds. */
    method SetRelative(nowSec: nat, nowUsec: nat, msec: nat)
      requires nowUsec < 1_000_000
      modifies this
      ensures 0 <= nsec < SECOND
      ensures Nanoseconds() == nowSec * SECOND + nowUsec * 1000 + msec * 1_000_000
    {
      sec := nowSec + msec / 1000;
      nsec := (nowUsec + msec % 1000 * 1000) * 1000;
      assert nsec < 0x8000_0000; // no overflow where `long` has 32 bits
      if nsec >= SECOND {
        sec := sec + 1;
        nsec := nsec - SECOND;
      }
    }
  }
}

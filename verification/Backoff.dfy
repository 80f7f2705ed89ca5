/** Exponential backoff with jitter and a deadline on the total time spent waiting. */
module Backoffs {
  import opened Wrappers

  const MAX_SECS: real := 1_000_000.0

  datatype BackoffConfig = BackoffConfig(initBackoff: real, maxBackoff: real, base: real, deadline: Option<real>)

  /** Durations are not negative, and the multiplier is at least one. */
  predicate ValidConfig(c: BackoffConfig) {
    0.0 <= c.initBackoff && 0.0 <= c.maxBackoff && 1.0 <= c.base && (c.deadline.Some? ==> 0.0 <= c.deadline.value)
  }

  ghost function Sum(xs: seq<real>): (r: real) {
    if xs == [] then 0.0 else Sum(xs[..|xs| - 1]) + xs[|xs| - 1]
  }

  lemma SumSnoc(xs: seq<real>, x: real)
    ensures Sum(xs + [x]) == Sum(xs) + x
  {
    assert (xs + [x])[..|xs|] == xs;
  }

  /** A random source: the `i`-th draw from a range `lo..=hi` that is not empty lies in it. */
  ghost predicate DrawsWithin(rng: (real, real, nat) -> real) {
    forall lo, hi, i :: lo <= hi ==> lo <= rng(lo, hi, i) <= hi
  }

  /** `n` times `x`. */
  ghost function Times(n: nat, x: real): (r: real) {
    if n == 0 then 0.0 else Times(n - 1, x) + x
  }

  function Scaled(x: real, base: real): real {
    x * base
  }

  lemma AtLeast(x: real, base: real)
    requires 0.0 <= x && 1.0 <= base
    ensures x <= Scaled(x, base)
  {
  }

  function Capped(x: real, max: real): real {
    if max < x then max else x
  }

  /** The `k`-th wait after a `first` one, as the random source draws them. */
  function Wait(rng: (real, real, nat) -> real, init: real, max: real, base: real, first: real, k: nat): real {
    if k == 0 then first
    else Capped(rng(init, Scaled(Wait(rng, init, max, base, first, k - 1), base), k), max)
  }

  class Backoff {
    const initBackoff: real
    const maxBackoffSecs: real
    const base: real
    const deadline: Option<real>
    var nextBackoffSecs: real
    var total: real

    /** The next backoff is always within the configured bounds, so the range it is multiplied into is
        never empty. */
    ghost predicate Valid()
      reads this
    {
      0.0 <= initBackoff <= nextBackoffSecs <= maxBackoffSecs && 1.0 <= base && 0.0 <= total
    }

    constructor (config: BackoffConfig)
      requires ValidConfig(config)
      ensures Valid() && total == 0.0 && nextBackoffSecs == initBackoff
      ensures maxBackoffSecs == config.maxBackoff && deadline == config.deadline && base == config.base
      ensures initBackoff == if config.initBackoff < config.maxBackoff then config.initBackoff else config.maxBackoff
    {
      maxBackoffSecs := config.maxBackoff;
      initBackoff := if config.initBackoff < config.maxBackoff then config.initBackoff else config.maxBackoff;
      nextBackoffSecs := if config.initBackoff < config.maxBackoff then config.initBackoff else config.maxBackoff;
      base := config.base;
      deadline := config.deadline;
      total := 0.0;
    }

    /** The next time to wait. What is returned lags one draw behind what is charged to the deadline. */
    method Next(rng: (real, real, nat) -> real, i: nat) returns (r: Option<real>)
      requires Valid() && DrawsWithin(rng)
      modifies this
      ensures Valid() && total == old(total) + nextBackoffSecs
      ensures nextBackoffSecs == Capped(rng(initBackoff, Scaled(old(nextBackoffSecs), base), i), maxBackoffSecs)
      ensures r.Some? ==> r.value == old(nextBackoffSecs)
      ensures r == None <==> (deadline.Some? && deadline.value <= total) || MAX_SECS < old(nextBackoffSecs)
    {
      hide Scaled;
      AtLeast(nextBackoffSecs, base);
      var draw := rng(initBackoff, Scaled(nextBackoffSecs, base), i);
      var nextBackoff := Capped(draw, maxBackoffSecs);
      total := total + nextBackoff;
      var res := nextBackoffSecs;
      nextBackoffSecs := nextBackoff;
      if deadline.Some? && total >= deadline.value {
        return None;
      }
      r := if 0.0 <= res <= MAX_SECS then Some(res) else None;
    }
  }

  /** One attempt of the operation: it is finished, or failed and to be retried. */
  datatype Attempt<B, E> = Break(value: B) | Continue(error: E)

  /** How retrying ends; `Panicked` is the failed lookup of a deadline that was never configured, and
      `Pending` means that the given attempts are used up. */
  datatype Outcome<B, E> = Finished(value: B) | DeadlineExceeded(deadline: real, error: E) | Panicked | Pending

  /** Retries, sleeping between attempts. `attempts` is what the operation yields; the
      loop stops early when they run out. */
  method RetryWithBackoff<B, E>(backoff: Backoff, attempts: seq<Attempt<B, E>>, rng: (real, real, nat) -> real)
    returns (r: Outcome<B, E>, made: nat, sleeps: seq<real>)
    requires backoff.Valid() && DrawsWithin(rng)
    modifies backoff
    // every wait is within bounds, and on a fresh backoff all of them together stay below the deadline
    ensures forall i :: 0 <= i < |sleeps| ==> backoff.initBackoff <= sleeps[i] <= backoff.maxBackoffSecs
    ensures backoff.deadline.Some? && sleeps != [] ==>
      old(backoff.total) + Sum(sleeps) < backoff.deadline.value + old(backoff.nextBackoffSecs) - backoff.initBackoff
    ensures forall i :: 0 <= i < |sleeps| ==> sleeps[i] == WaitOf(rng, backoff, old(backoff.nextBackoffSecs), i)
    // so a fresh backoff with a deadline and a positive first wait makes boundedly many attempts
    ensures made <= |attempts| && |sleeps| == if r.Pending? then made else made - 1
    ensures old(backoff.total) == 0.0 && old(backoff.nextBackoffSecs) == backoff.initBackoff > 0.0 ==>
      backoff.deadline.Some? ==>
      made <= 1 || made as real < backoff.deadline.value / backoff.initBackoff + 1.0
    // all attempts before the last failed, and the last one decides
    ensures forall i :: 0 <= i < made - 1 ==> attempts[i].Continue?
    ensures r.Finished? <==> made > 0 && attempts[made - 1].Break?
    ensures r.Finished? ==> r.value == attempts[made - 1].value
    // it gives up at the first failed attempt at which the waits charged reach the deadline or the wait is too long;
    // without a deadline the lookup of the deadline fails then
    ensures forall k :: 0 < k < made ==> !Ends(rng, backoff, old(backoff.nextBackoffSecs), old(backoff.total), k)
    ensures r.DeadlineExceeded? || r.Panicked? <==>
      && made > 0 && attempts[made - 1].Continue?
      && Ends(rng, backoff, old(backoff.nextBackoffSecs), old(backoff.total), made)
    ensures r.Panicked? ==> backoff.deadline == None
    ensures r.DeadlineExceeded? ==> backoff.deadline == Some(r.deadline) && attempts[made - 1] == Continue(r.error)
    ensures r.Pending? ==> made == |attempts|
    // every failed attempt has drawn and charged a wait
    ensures
      var failed: nat := if r.Finished? then made - 1 else made;
      && backoff.nextBackoffSecs == WaitOf(rng, backoff, old(backoff.nextBackoffSecs), failed)
      && backoff.total == Charged(rng, backoff, old(backoff.nextBackoffSecs), old(backoff.total), failed)
  {
    hide Times, Sum, Wait, WaitOf, Scaled, Capped, Slept, Charged;
    sleeps := [];
    made := 0;
    ghost var first, total := backoff.nextBackoffSecs, backoff.total;
    NothingSlept(rng, backoff, first);
    ChargedStep(rng, backoff, first, total, 0);
    while made < |attempts|
      invariant made <= |attempts| && made == |sleeps| && backoff.Valid()
      invariant forall i :: 0 <= i < made ==> attempts[i].Continue?
      invariant old(backoff.total) + Sum(sleeps) + backoff.nextBackoffSecs == first + backoff.total
      invariant backoff.deadline.Some? && sleeps != [] ==> backoff.total < backoff.deadline.value
      invariant Slept(rng, backoff, first, sleeps) && backoff.nextBackoffSecs == WaitOf(rng, backoff, first, made)
      invariant backoff.total == Charged(rng, backoff, first, total, made)
      invariant forall k :: 0 < k <= made ==> !Ends(rng, backoff, first, total, k)
    {
      var attempt := attempts[made];
      FewAttempts(rng, backoff, first, sleeps, made + 1);
      made := made + 1;
      if attempt.Break? {
        return Finished(attempt.value), made, sleeps;
      }
      WaitStep(rng, backoff, first, made);
      ChargedStep(rng, backoff, first, total, made);
      var wait := backoff.Next(rng, made);
      if wait == None {
        if backoff.deadline.Some? {
          return DeadlineExceeded(backoff.deadline.value, attempt.error), made, sleeps;
        }
        return Panicked, made, sleeps;
      }
      SleptMore(rng, backoff, first, sleeps, wait.value);
      sleeps := sleeps + [wait.value];
    }
    FewAttempts(rng, backoff, first, sleeps, made);
    r := Pending;
  }

  /** The waits slept so far, each within bounds and not too long. */
  ghost predicate Slept(rng: (real, real, nat) -> real, b: Backoff, first: real, sleeps: seq<real>) {
    && (forall i :: 0 <= i < |sleeps| ==> sleeps[i] == WaitOf(rng, b, first, i))
    && (forall i :: 0 <= i < |sleeps| ==> b.initBackoff <= sleeps[i] <= b.maxBackoffSecs && sleeps[i] <= MAX_SECS)
    && Times(|sleeps|, b.initBackoff) <= Sum(sleeps)
  }

  lemma NothingSlept(rng: (real, real, nat) -> real, b: Backoff, first: real)
    ensures Slept(rng, b, first, []) && Sum([]) == 0.0 && WaitOf(rng, b, first, 0) == first
  {
  }

  lemma SleptMore(rng: (real, real, nat) -> real, b: Backoff, first: real, sleeps: seq<real>, x: real)
    requires Slept(rng, b, first, sleeps) && x == WaitOf(rng, b, first, |sleeps|)
    requires b.initBackoff <= x <= b.maxBackoffSecs && x <= MAX_SECS
    ensures Slept(rng, b, first, sleeps + [x]) && Sum(sleeps + [x]) == Sum(sleeps) + x
  {
    hide WaitOf, Sum, Times;
    SumSnoc(sleeps, x);
    TimesStep(|sleeps|, b.initBackoff);
    var more := sleeps + [x];
    assert |more| == |sleeps| + 1;
    forall i | 0 <= i < |more|
      ensures more[i] == WaitOf(rng, b, first, i) && b.initBackoff <= more[i] <= b.maxBackoffSecs && more[i] <= MAX_SECS
    {
      assert more[i] == if i < |sleeps| then sleeps[i] else x;
    }
  }

  lemma TimesStep(n: nat, x: real)
    ensures Times(n + 1, x) == Times(n, x) + x
  {
  }

  /** Few attempts fit below a deadline, and every wait was within bounds. */
  lemma FewAttempts(rng: (real, real, nat) -> real, b: Backoff, first: real, sleeps: seq<real>, made: nat)
    requires Slept(rng, b, first, sleeps) && made <= |sleeps| + 1
    ensures forall i :: 0 <= i < |sleeps| ==> sleeps[i] == WaitOf(rng, b, first, i)
    ensures forall i :: 0 <= i < |sleeps| ==> b.initBackoff <= sleeps[i] <= b.maxBackoffSecs && sleeps[i] <= MAX_SECS
    ensures b.initBackoff > 0.0 && b.deadline.Some? && Sum(sleeps) < b.deadline.value ==>
      made as real < b.deadline.value / b.initBackoff + 1.0
  {
    hide WaitOf, Sum;
    AttemptsBounded(|sleeps|, b.initBackoff, if b.deadline.Some? then b.deadline.value else 0.0);
    assert made as real <= |sleeps| as real + 1.0;
  }

  /** The waits of a backoff. */
  ghost function WaitOf(rng: (real, real, nat) -> real, b: Backoff, first: real, k: nat): real {
    Wait(rng, b.initBackoff, b.maxBackoffSecs, b.base, first, k)
  }

  /** What is charged to the deadline after k draws. */
  ghost function Charged(rng: (real, real, nat) -> real, b: Backoff, first: real, total: real, k: nat): real {
    if k == 0 then total else Charged(rng, b, first, total, k - 1) + WaitOf(rng, b, first, k)
  }

  lemma ChargedStep(rng: (real, real, nat) -> real, b: Backoff, first: real, total: real, k: nat)
    ensures k == 0 ==> Charged(rng, b, first, total, k) == total
    ensures k > 0 ==>
      Charged(rng, b, first, total, k) == Charged(rng, b, first, total, k - 1) + WaitOf(rng, b, first, k)
  {
  }

  /** Retrying ends when attempt k fails: the deadline is reached, or the wait behind it would be too long. */
  ghost predicate Ends(rng: (real, real, nat) -> real, b: Backoff, first: real, total: real, k: nat)
    requires k > 0
  {
    || (b.deadline.Some? && b.deadline.value <= Charged(rng, b, first, total, k))
    || MAX_SECS < WaitOf(rng, b, first, k - 1)
  }

  lemma WaitStep(rng: (real, real, nat) -> real, b: Backoff, first: real, k: nat)
    ensures k == 0 ==> WaitOf(rng, b, first, k) == first
    ensures k > 0 ==>
      var draw := rng(b.initBackoff, Scaled(WaitOf(rng, b, first, k - 1), b.base), k);
      WaitOf(rng, b, first, k) == Capped(draw, b.maxBackoffSecs)
  {
  }

  lemma {:induction false} TimesIsProduct(n: nat, x: real)
    ensures Times(n, x) == n as real * x
  {
    if n != 0 {
      TimesIsProduct(n - 1, x);
      assert (n - 1) as real * x + x == n as real * x;
    }
  }

  lemma AttemptsBounded(n: nat, init: real, deadline: real)
    ensures init > 0.0 && Times(n, init) < deadline ==> n as real < deadline / init
  {
    if init > 0.0 && Times(n, init) < deadline {
      TimesIsProduct(n, init);
      assert deadline / init * init == deadline;
      ScaledBack(n as real, deadline / init, init);
    }
  }

  lemma ScaledBack(x: real, y: real, c: real)
    requires c > 0.0 && x * c < y * c
    ensures x < y
  {
    assert (y - x) * c > 0.0;
  }

  // ---------- waits that are too long ----------

  /** The source that always draws the greatest value. */
  const GREATEST: (real, real, nat) -> real := (lo, hi, i) => hi

  /** When waits start at `init`, no draw ever leads to one of more than a million seconds exactly when the first
      one is not longer, and the others are capped at that or cannot grow. */
  lemma NeverTooLongIff(init: real, max: real, base: real)
    requires 0.0 <= init <= max && 1.0 <= base
    ensures
      (forall rng: (real, real, nat) -> real, k: nat ::
         DrawsWithin(rng) ==> Wait(rng, init, max, base, init, k) <= MAX_SECS)
      <==> init <= MAX_SECS && (max <= MAX_SECS || base == 1.0 || init == 0.0)
  {
    if init <= MAX_SECS && (max <= MAX_SECS || base == 1.0 || init == 0.0) {
      forall rng: (real, real, nat) -> real, k: nat | DrawsWithin(rng)
        ensures Wait(rng, init, max, base, init, k) <= MAX_SECS
      {
        StaysShort(rng, init, max, base, k);
      }
    } else {
      assert DrawsWithin(GREATEST);
      if init > MAX_SECS {
        assert Wait(GREATEST, init, max, base, init, 0) > MAX_SECS;
      } else {
        GrowsTooLong(init, max, base);
      }
    }
  }

  lemma {:induction false} StaysShort(rng: (real, real, nat) -> real, init: real, max: real, base: real, k: nat)
    requires 0.0 <= init <= max && 1.0 <= base && DrawsWithin(rng)
    ensures init <= Wait(rng, init, max, base, init, k) <= max
    ensures base == 1.0 || init == 0.0 ==> Wait(rng, init, max, base, init, k) == init
  {
    if k > 0 {
      StaysShort(rng, init, max, base, k - 1);
      AtLeast(Wait(rng, init, max, base, init, k - 1), base);
    }
  }

  /** The greatest draws add at least `init * (base - 1)` each time, up to the cap. */
  lemma {:induction false} GrowsBy(init: real, max: real, base: real, k: nat)
    requires 0.0 <= init <= max && 1.0 <= base
    ensures Wait(GREATEST, init, max, base, init, k) >= Capped(init + Times(k, init * (base - 1.0)), max)
    ensures Wait(GREATEST, init, max, base, init, k) >= init
  {
    if k > 0 {
      GrowsBy(init, max, base, k - 1);
      var w := Wait(GREATEST, init, max, base, init, k - 1);
      ScaledGrows(w, init, base);
    }
  }

  lemma ScaledGrows(w: real, init: real, base: real)
    requires 0.0 <= init <= w && 1.0 <= base
    ensures Scaled(w, base) >= w + init * (base - 1.0) && Scaled(w, base) >= init
  {
    assert w * base == w + w * (base - 1.0);
    assert (w - init) * (base - 1.0) >= 0.0;
    assert w * (base - 1.0) >= init * (base - 1.0) >= 0.0;
  }

  lemma GrowsTooLong(init: real, max: real, base: real)
    requires 0.0 < init <= MAX_SECS < max && 1.0 < base
    ensures exists k: nat :: Wait(GREATEST, init, max, base, init, k) > MAX_SECS
  {
    var step := init * (base - 1.0);
    assert step > 0.0;
    var k := EnoughSteps(step, MAX_SECS);
    GrowsBy(init, max, base, k);
  }

  lemma EnoughSteps(step: real, x: real) returns (k: nat)
    requires step > 0.0 && x >= 0.0
    ensures Times(k, step) > x
  {
    var q := x / step;
    assert q * step == x;
    assert q >= 0.0;
    k := q.Floor + 1;
    TimesIsProduct(k, step);
    assert (k as real - q) * step > 0.0;
  }

  /** A backoff of eleven and a half days between two attempts is too long; without a deadline that is a panic. */
  lemma TooLongAtOnce(rng: (real, real, nat) -> real)
    ensures Wait(rng, 1_000_001.0, 1_000_001.0, 2.0, 1_000_001.0, 0) > MAX_SECS
  {
  }
}

/** Jittered exponential backoff (computeBackoffMs in src/hcm/hcm-outbox.service.js). */
module Backoff {

  const CAP := 60_000

  function Pow2(n: nat): nat {
    if n == 0 then 1 else 2 * Pow2(n - 1)
  }

  /** The wait before jitter. */
  function Base(attempt: nat): int {
    var b := Pow2(attempt) * 500;
    if CAP <= b then CAP else b
  }

  predicate Jitter(r: real) { 0.0 <= r < 1.0 }

  /** random is the value drawn by Math.random(). */
  function ComputeBackoffMs(attempt: nat, random: real): int {
    var base := Base(attempt) as real;
    var jitter := base * 0.3 * (random * 2.0 - 1.0);
    var wait := (base + jitter).Floor;
    if wait < 100 then 100 else wait
  }

  lemma BaseTable(k: nat)
    ensures k == 1 ==> Base(k) == 1000
    ensures k == 2 ==> Base(k) == 2000
    ensures k == 3 ==> Base(k) == 4000
    ensures k == 4 ==> Base(k) == 8000
    ensures k == 5 ==> Base(k) == 16000
    ensures k == 6 ==> Base(k) == 32000
    ensures k >= 7 ==> Base(k) == CAP
  {
    assert Pow2(2) == 4 && Pow2(3) == 8;
    assert Pow2(4) == 16 && Pow2(5) == 32;
    assert Pow2(6) == 64 && Pow2(7) == 128;
    if k >= 7 { Pow2Grows(7, k); }
  }

  lemma {:induction false} Pow2Grows(j: nat, k: nat)
    requires j <= k
    ensures Pow2(j) <= Pow2(k)
    decreases k - j
  {
    if j < k { Pow2Grows(j, k - 1); }
  }

  /** From the first attempt on the wait lies in [0.7, 1.3) times the base; the floor of 100 ms never applies. */
  lemma WaitRange(k: nat, random: real)
    requires k >= 1 && Jitter(random)
    ensures 0.7 * Base(k) as real <= ComputeBackoffMs(k, random) as real < 1.3 * Base(k) as real
  {
    BaseTable(k);
    var b := Base(k);
    JitterRange(b, random);
    WholeSevenTenths(b);
    hide Base, ComputeBackoffMs;
    FloorRange(b as real + b as real * 0.3 * (random * 2.0 - 1.0), b / 10 * 7);
    WaitIsFloor(k, random);
  }

  lemma WholeSevenTenths(b: int)
    requires b % 1000 == 0
    ensures (b / 10 * 7) as real == 0.7 * b as real
  {
    var q := b / 10;
    assert b == 10 * q;
  }

  lemma JitterRange(b: int, random: real)
    requires b >= 0 && Jitter(random)
    ensures 0.7 * b as real <= b as real + b as real * 0.3 * (random * 2.0 - 1.0)
    ensures b > 0 ==> b as real + b as real * 0.3 * (random * 2.0 - 1.0) < 1.3 * b as real
  {
    var x, u := b as real, random * 2.0 - 1.0;
    Scale(x * 0.3, -1.0, u);
    if b > 0 { ScaleStrict(x * 0.3, u, 1.0); }
  }

  lemma Scale(x: real, u: real, v: real)
    requires x >= 0.0 && u <= v
    ensures x * u <= x * v
  {
  }

  lemma ScaleStrict(x: real, u: real, v: real)
    requires x > 0.0 && u < v
    ensures x * u < x * v
  {
  }

  lemma FloorRange(x: real, low: int)
    requires low as real <= x
    ensures low <= x.Floor && x.Floor as real <= x
  {
  }

  lemma WaitIsFloor(k: nat, random: real)
    ensures var x := (Base(k) as real + Base(k) as real * 0.3 * (random * 2.0 - 1.0)).Floor;
            ComputeBackoffMs(k, random) == if x < 100 then 100 else x
  {
  }

  /** The jitter is even: a draw of r waits 0.7 + 0.6r of the base, in whole milliseconds. */
  lemma WaitIsEven(k: nat, random: real)
    requires k >= 1 && Jitter(random)
    ensures var b := if k >= 7 then 60_000 else 500 * Pow2(k);
            ComputeBackoffMs(k, random) == (b as real * (0.7 + 0.6 * random)).Floor
  {
    BaseTable(k);
    assert Pow2(1) == 2 && Pow2(2) == 4 && Pow2(3) == 8;
    assert Pow2(4) == 16 && Pow2(5) == 32 && Pow2(6) == 64;
    JitterRange(Base(k), random);
    WholeSevenTenths(Base(k));
    SameJitter(Base(k) as real, random);
    hide ComputeBackoffMs, Base;
    FloorRange(Base(k) as real + Base(k) as real * 0.3 * (random * 2.0 - 1.0), Base(k) / 10 * 7);
    WaitIsFloor(k, random);
  }

  lemma SameJitter(b: real, random: real)
    ensures b + b * 0.3 * (random * 2.0 - 1.0) == b * (0.7 + 0.6 * random)
  {
  }

  /** Up to the seventh attempt each wait is longer than the one before, whatever the two draws. */
  lemma WaitsIncrease(k: nat, r1: real, r2: real)
    requires 1 <= k <= 6 && Jitter(r1) && Jitter(r2)
    ensures ComputeBackoffMs(k, r1) < ComputeBackoffMs(k + 1, r2)
  {
    WaitRange(k, r1);
    WaitRange(k + 1, r2);
    BaseTable(k);
    BaseTable(k + 1);
    hide ComputeBackoffMs, Base;
  }

  /** The waits before jitter of a row that fails n times and is then DEAD, added up: none follows the last failure. */
  function TotalBase(n: nat): int
    requires n >= 1
  {
    if n <= 7 then 500 * (Pow2(n) - 2) else 63_000 + 60_000 * (n - 7)
  }

  lemma TotalBaseStep(n: nat)
    requires n >= 2
    ensures TotalBase(n) == TotalBase(n - 1) + Base(n - 1)
  {
    BaseTable(n - 1);
    assert Pow2(1) == 2 && Pow2(2) == 4 && Pow2(3) == 8;
    assert Pow2(4) == 16 && Pow2(5) == 32;
    assert Pow2(6) == 64 && Pow2(7) == 128;
  }

  lemma TotalBaseOfOne()
    ensures TotalBase(1) == 0
  {
    assert Pow2(1) == 2;
  }
}

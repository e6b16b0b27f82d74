/** The incremental average of src/moving_average.h, for samples of type int. */
module MovingAverages {
  import opened Words

  /** The size of the ring behind the average clock error. */
  const SIZE := 32

  /** The average of `n` samples with one more. */
  function Filled(average: int, n: nat, v: int): int { TruncDiv(average * n + v, n + 1) }

  /** The average after one sample has taken the place of another. */
  function Slid(average: int, v: int, oldest: int): int { average + TruncDiv(v - oldest, SIZE) }

  /**
   * The average that the program keeps after these samples. It never adds up the ring: each sample changes the average
   * by a division that drops its remainder.
   */
  function Average(h: seq<int>): int {
    if h == [] then 0
    else
      var n, v := |h| - 1, h[|h| - 1];
      if n < SIZE then Filled(Average(h[..n]), n, v) else Slid(Average(h[..n]), v, h[n - SIZE])
  }

  function Sum(s: seq<int>): int {
    if s == [] then 0 else Sum(s[..|s| - 1]) + s[|s| - 1]
  }

  /** The samples that are still in the ring. */
  function Ring(h: seq<int>): seq<int> {
    if |h| <= SIZE then h else h[|h| - SIZE..]
  }

  predicate Between(h: seq<int>, lo: int, hi: int) { forall i | 0 <= i < |h| :: lo <= h[i] <= hi }

  function Abs(x: int): nat { if x < 0 then -x else x }

  lemma Remainder(a: int, b: int)
    requires b > 0
    ensures Abs(a - b * TruncDiv(a, b)) <= b - 1
    ensures a >= 0 ==> 0 <= a - b * TruncDiv(a, b)
    ensures a <= 0 ==> a - b * TruncDiv(a, b) <= 0
  {
    if a < 0 {
      var q := (-a) / b;
      assert -a - b * q == (-a) % b;
      assert TruncDiv(a, b) == -q;
      assert b * -q == -(b * q);
    }
  }

  lemma QuotientWithin(a: int, b: int, lo: int, hi: int)
    requires b > 0 && b * lo <= a <= b * hi
    ensures lo <= TruncDiv(a, b) <= hi
  {
    var q := TruncDiv(a, b);
    Remainder(a, b);
    Product(b, q + 1, lo);
    Product(b, hi, q - 1);
  }

  lemma Product(b: nat, x: int, y: int)
    ensures x <= y ==> b * x <= b * y
    ensures b * (x + 1) == b * x + b && b * (x - 1) == b * x - b && b * (y - 1) == b * y - b
  {}

  lemma WithinStep(a: int, n: nat, v: int, lo: int, hi: int)
    requires (n == 0 || lo <= a <= hi) && lo <= v <= hi
    ensures lo <= TruncDiv(a * n + v, n + 1) <= hi
  {
    hide TruncDiv;
    if n > 0 {
      Product(n, lo, a);
      Product(n, a, hi);
    } else {
      assert a * n == 0;
    }
    assert (n + 1) * lo == n * lo + lo && (n + 1) * hi == n * hi + hi;
    QuotientWithin(a * n + v, n + 1, lo, hi);
  }

  lemma AverageNext(h: seq<int>)
    requires h != []
    ensures var n, v := |h| - 1, h[|h| - 1];
            Average(h) == if n < SIZE then Filled(Average(h[..n]), n, v) else Slid(Average(h[..n]), v, h[n - SIZE])
  {}

  /** While the ring fills, the average lies between the smallest and the largest sample. */
  lemma {:induction false} WithinWhileFilling(h: seq<int>, lo: int, hi: int)
    requires 0 < |h| <= SIZE && Between(h, lo, hi)
    ensures lo <= Average(h) <= hi
    decreases |h|
  {
    hide TruncDiv, Average;
    var n, v := |h| - 1, h[|h| - 1];
    if n > 0 {
      WithinWhileFilling(h[..n], lo, hi);
    }
    AverageNext(h);
    WithinStep(Average(h[..n]), n, v, lo, hi);
  }

  /** How far `n` averages can be from the sum of `n` samples. */
  function FillingDrift(n: nat): nat { if n == 0 then 0 else FillingDrift(n - 1) + n - 1 }

  lemma DriftStep(a: int, n: nat, v: int, sum: int, d: nat)
    requires Abs(n * a - sum) <= d
    ensures Abs((n + 1) * TruncDiv(a * n + v, n + 1) - (sum + v)) <= d + n
  {
    hide TruncDiv;
    Remainder(a * n + v, n + 1);
  }

  lemma {:induction false} DriftWhileFilling(h: seq<int>)
    requires |h| <= SIZE
    ensures Abs(|h| * Average(h) - Sum(h)) <= FillingDrift(|h|)
    decreases |h|
  {
    hide TruncDiv, Average;
    if h != [] {
      var n, v := |h| - 1, h[|h| - 1];
      DriftWhileFilling(h[..n]);
      AverageNext(h);
      DriftStep(Average(h[..n]), n, v, Sum(h[..n]), FillingDrift(n));
    } else {
      assert |h| * Average(h) == 0;
    }
  }

  lemma {:induction false} FillingDriftIsTriangular(n: nat)
    ensures 2 * FillingDrift(n) == n * (n - 1)
  {
    if n > 0 {
      FillingDriftIsTriangular(n - 1);
    }
  }

  lemma {:induction false} SumTail(s: seq<int>)
    requires s != []
    ensures Sum(s) == s[0] + Sum(s[1..])
    decreases |s|
  {
    if |s| > 1 {
      SumTail(s[..|s| - 1]);
      assert s[..|s| - 1][1..] == s[1..][..|s[1..]| - 1];
    }
  }

  lemma RingMoves(h: seq<int>, v: int)
    requires |h| >= SIZE
    ensures Ring(h + [v]) == Ring(h)[1..] + [v] && Ring(h)[0] == h[|h| - SIZE] && |Ring(h)| == SIZE
    ensures Sum(Ring(h + [v])) == Sum(Ring(h)) - h[|h| - SIZE] + v
  {
    var r := Ring(h);
    assert Ring(h + [v]) == r[1..] + [v];
    SumTail(r);
    assert (r[1..] + [v])[..|r[1..] + [v]| - 1] == r[1..];
  }

  /** After `m` more samples, 32 times the average is off the sum of the ring by at most 496 + 31 m. */
  lemma {:induction false} Drift(h: seq<int>)
    requires |h| >= SIZE
    ensures Abs(SIZE * Average(h) - Sum(Ring(h))) <= 496 + 31 * (|h| - SIZE)
    decreases |h|
  {
    hide TruncDiv, Ring;
    if |h| == SIZE {
      DriftWhileFilling(h);
      FillingDriftIsTriangular(SIZE);
      RingOfShort(h);
    } else {
      var n, v := |h| - 1, h[|h| - 1];
      Drift(h[..n]);
      RingMoves(h[..n], v);
      assert h == h[..n] + [v];
      Remainder(v - h[n - SIZE], SIZE);
    }
  }

  lemma RingOfShort(h: seq<int>)
    requires |h| <= SIZE
    ensures Ring(h) == h
  {}

  lemma {:induction false} SumBound(s: seq<int>, b: nat)
    requires Between(s, 0 - b as int, b)
    ensures Abs(Sum(s)) <= |s| * b
  {
    if s != [] {
      SumBound(s[..|s| - 1], b);
      assert |s| * b == (|s| - 1) * b + b;
    }
  }

  // ---------------------------------------------------------------- widths

  /** Every intermediate value of moving_average_add fits an int. */
  predicate Fits(h: seq<int>, v: int) {
    var n := |h|;
    -0x8000_0000 <= Average(h + [v]) < 0x8000_0000 &&
    if n < SIZE then -0x8000_0000 <= Average(h) * n < 0x8000_0000 && -0x8000_0000 <= Average(h) * n + v < 0x8000_0000
    else -0x8000_0000 <= v - h[n - SIZE] < 0x8000_0000
  }

  /** Samples of at most one window interval, which is all that the clock lets through, do not overflow for 2^30 samples. */
  lemma NoOverflow(h: seq<int>, v: int)
    requires Between(h + [v], -0x8_0000, 0x8_0000) && |h| < 0x4000_0000
    ensures Fits(h, v)
  {
    hide TruncDiv, Average;
    var b: nat := 0x8_0000;
    var n := |h|;
    assert h == (h + [v])[..n] && v == (h + [v])[n];
    assert Between(h, -0x8_0000, 0x8_0000) by {
      forall i | 0 <= i < n ensures -0x8_0000 <= h[i] <= 0x8_0000 {
        assert h[i] == (h + [v])[i];
      }
    }
    if n < SIZE {
      if n > 0 {
        WithinWhileFilling(h, -0x8_0000, 0x8_0000);
        Product(n, -0x8_0000, Average(h));
        Product(n, Average(h), 0x8_0000);
      } else {
        assert Average(h) * n == 0;
      }
      WithinWhileFilling(h + [v], -0x8_0000, 0x8_0000);
    } else {
      Drift(h + [v]);
      SumBound(Ring(h + [v]), b);
    }
  }

  // ---------------------------------------------------------------- the drift is real

  /** A ring in which only the oldest sample is not zero. */
  function Lap(x: int): (h: seq<int>)
    ensures |h| == SIZE
  {
    [x] + Zeros(SIZE - 1)
  }

  function Fall(j: nat): seq<int> {
    if j == 0 then Lap(0) else Lap(31 * j) + Fall(j - 1)
  }

  /** One sample jumps up by 31 * 32 and comes down in steps of 31, each of which is dropped as a remainder. */
  function Climb(k: nat): seq<int> {
    if k == 0 then Lap(0) else Climb(k - 1) + (Lap(992) + Fall(31))
  }

  lemma {:induction false} ZerosKeep(h: seq<int>, x: int, k: nat)
    requires |h| >= SIZE && k < SIZE && Ring(h) == Zeros(SIZE - 1) + [x]
    ensures Average(h + Zeros(k)) == Average(h)
    decreases k
  {
    hide TruncDiv, Average;
    if k == 0 {
      assert h + Zeros(0) == h;
    } else {
      var g := h + Zeros(k - 1);
      assert h + Zeros(k) == g + [0];
      ZerosKeep(h, x, k - 1);
      assert g[|g| - SIZE] == Ring(h)[k - 1] == 0;
      AverageNext(g + [0]);
      assert TruncDiv(0, SIZE) == 0 by {
        Remainder(0, SIZE);
      }
    }
  }

  lemma LapRing(h: seq<int>, x: int)
    ensures Ring(h + Lap(x)) == Lap(x)
  {}

  lemma LapOfZeros()
    ensures Lap(0) == Zeros(SIZE)
  {}

  lemma RingBegins(h: seq<int>, y: int, x: int)
    requires |h| >= SIZE && Ring(h) == Lap(y)
    ensures h[|h| - SIZE] == y && Ring(h + [x]) == Zeros(SIZE - 1) + [x]
  {
    RingMoves(h, x);
    assert Ring(h)[0] == y && Ring(h)[1..] == Zeros(SIZE - 1);
  }

  lemma LapStep(h: seq<int>, y: int, x: int)
    requires |h| >= SIZE && Ring(h) == Lap(y)
    ensures Ring(h + Lap(x)) == Lap(x) && Average(h + Lap(x)) == Average(h) + TruncDiv(x - y, SIZE)
  {
    hide TruncDiv, Average, Ring, Zeros;
    var g := h + [x];
    LapRing(h, x);
    AverageNext(g);
    RingBegins(h, y, x);
    assert g[..|h|] == h;
    ZerosKeep(g, x, SIZE - 1);
    assert g + Zeros(SIZE - 1) == h + Lap(x);
  }

  lemma {:induction false} FallKeeps(h: seq<int>, j: nat)
    requires |h| >= SIZE && Ring(h) == Lap(31 * (j + 1))
    ensures Ring(h + Fall(j)) == Lap(0) && Average(h + Fall(j)) == Average(h)
    decreases j
  {
    hide Average, Lap, Ring;
    LapStep(h, 31 * (j + 1), 31 * j);
    if j > 0 {
      FallKeeps(h + Lap(31 * j), j - 1);
      assert h + Fall(j) == h + Lap(31 * j) + Fall(j - 1);
    }
  }

  lemma AverageOfNothing()
    ensures Average([]) == 0
  {}

  lemma {:induction false} AverageOfZeros(n: nat)
    requires n <= SIZE
    ensures Average(Zeros(n)) == 0
  {
    hide Average, TruncDiv;
    if n > 0 {
      AverageOfZeros(n - 1);
      assert Zeros(n)[..n - 1] == Zeros(n - 1);
      AverageNext(Zeros(n));
      WithinStep(0, n - 1, 0, 0, 0);
    } else {
      assert Zeros(n) == [];
      AverageOfNothing();
    }
  }

  lemma {:induction false} ClimbRises(k: nat)
    ensures |Climb(k)| >= SIZE && Ring(Climb(k)) == Lap(0) && Average(Climb(k)) == 31 * k
  {
    hide Average, Lap, Fall;
    if k == 0 {
      AverageOfZeros(SIZE);
      LapOfZeros();
    } else {
      var h := Climb(k - 1);
      ClimbRises(k - 1);
      LapStep(h, 0, 992);
      FallKeeps(h + Lap(992), 31);
      assert Climb(k) == h + Lap(992) + Fall(31);
    }
  }

  lemma {:induction false} FallBetween(j: nat)
    requires j <= 31
    ensures Between(Fall(j), 0, 992)
  {
    if j > 0 {
      FallBetween(j - 1);
    }
  }

  lemma {:induction false} ClimbBetween(k: nat)
    ensures Between(Climb(k), 0, 992)
  {
    hide Fall;
    if k > 0 {
      ClimbBetween(k - 1);
      FallBetween(31);
    }
  }

  /** Once the ring is full nothing keeps the average near the samples: for every bound, samples from 0 to 992 pass it. */
  lemma AverageLeavesSamples(bound: nat)
    ensures exists h :: Between(h, 0, 992) && Average(h) > bound
  {
    ClimbBetween(bound + 1);
    ClimbRises(bound + 1);
    assert Average(Climb(bound + 1)) > bound;
  }

  // ---------------------------------------------------------------- the ring

  /** One sample of 32 and zeros after it. */
  function HighStart(n: nat): (h: seq<int>)
    ensures |h| == n
  {
    seq(n, i => if i == 0 then 32 else 0)
  }

  /** While the ring fills, the average falls to 0; when the first sample leaves, it falls by one more. */
  lemma {:induction false} HighStartAverage(n: nat)
    requires n > 0
    ensures n == 1 ==> Average(HighStart(n)) == 32
    ensures 2 <= n <= SIZE ==> 0 <= Average(HighStart(n)) <= if n <= 18 then 18 - n else 0
    ensures n > SIZE ==> Average(HighStart(n)) == -1
  {
    hide Average, Filled, Slid;
    var h := HighStart(n);
    AverageNext(h);
    assert h[..n - 1] == HighStart(n - 1);
    FirstSteps();
    if n == 1 {
      AverageOfNothing();
    } else {
      HighStartAverage(n - 1);
      var before := Average(HighStart(n - 1));
      if 2 < n <= SIZE {
        FilledFalls(before, n - 1);
      }
    }
  }

  lemma FirstSteps()
    ensures Filled(0, 0, 32) == 32 && Filled(32, 1, 0) == 16 && Slid(0, 0, 32) == -1 && Slid(-1, 0, 0) == -1
  {}

  lemma FilledFalls(average: nat, n: nat)
    requires n > 0
    ensures 0 <= Filled(average, n, 0) <= if average == 0 then 0 else average - 1
  {
    Product(n + 1, average, Filled(average, n, 0));
    Remainder(average * n, n + 1);
    assert (n + 1) * average == average * n + average;
  }

  /** Whatever `n` samples there are, the average lies between any bounds of them. */
  ghost predicate StaysWithin(n: nat) {
    forall h: seq<int>, lo: int, hi: int | Between(h, lo, hi) && |h| == n :: lo <= Average(h) <= hi
  }

  /** The average is bound to the samples exactly as long as the ring has not been overwritten. */
  lemma WithinExactlyWhileFilling(n: nat)
    requires n > 0
    ensures StaysWithin(n) <==> n <= SIZE
  {
    hide Average;
    if n <= SIZE {
      forall h: seq<int>, lo: int, hi: int | Between(h, lo, hi) && |h| == n ensures lo <= Average(h) <= hi {
        WithinWhileFilling(h, lo, hi);
      }
    } else {
      HighStartAverage(n);
      assert Between(HighStart(n), 0, 32);
    }
  }

  /** The ring holds the last samples, the oldest at the position that is written next. */
  predicate Holds(b: seq<i32>, position: nat, full: bool, h: seq<int>) {
    |b| == SIZE && position < SIZE &&
    if full then |h| >= SIZE && b[position..] + b[..position] == Ring(h)
    else |h| < SIZE && position == |h| && b[..position] == h
  }

  lemma HoldsNext(b: seq<i32>, position: nat, full: bool, h: seq<int>, v: i32)
    requires Holds(b, position, full, h)
    ensures var next := position + 1;
            Holds(b[position := v], if next == SIZE then 0 else next, full || next == SIZE, h + [v])
    ensures if full then |h| >= SIZE && b[position] == h[|h| - SIZE] else position == |h| < SIZE
  {
    if full {
      RingMoves(h, v);
      assert b[position] == (b[position..] + b[..position])[0];
    } else if position + 1 == SIZE {
      RingOfShort(h + [v]);
    }
  }

  class MovingAverage {
    const buffer: array<i32>
    var position: nat
    var bufferFull: bool
    var average: i32
    /** All samples so far. */
    ghost var history: seq<int>

    ghost predicate Valid()
      reads this, buffer
    {
      buffer.Length == SIZE && position < SIZE && average == Average(history) &&
      Holds(buffer[..], position, bufferFull, history)
    }

    constructor ()
      ensures Valid() && history == [] && fresh(buffer)
    {
      buffer := new i32[SIZE](_ => 0);
      position, bufferFull, average, history := 0, false, 0, [];
    }

    method Add(value: i32)
      requires Valid() && Fits(history, value)
      modifies this, buffer
      ensures Valid() && history == old(history) + [value]
    {
      hide Average, Holds, Filled, Slid;
      AverageNext(history + [value]);
      assert (history + [value])[..|history|] == history;
      HoldsNext(buffer[..], position, bufferFull, history, value);
      if bufferFull {
        average := Slid(average, value, buffer[position]);
      } else {
        average := Filled(average, position, value);
      }
      buffer[position] := value;
      position := position + 1;
      history := history + [value];
      if position == SIZE {
        position := 0;
        bufferFull := true;
      }
    }
  }
}

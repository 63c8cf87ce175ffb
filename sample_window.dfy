/**
 * The sliding window of the last N sensor readings that both sketches keep
 * in the globals `tempReadings`, `humReadings`, `sampleIndex` and
 * `validSamples`, and `calculateAverage`, which averages one of the arrays.
 * Readings are exact reals; the sketches use `float`.
 */
module SampleWindow {

  /** One successful acquisition: a temperature and a humidity. */
  datatype Reading = Reading(temperature: real, humidity: real)

  /** The arguments of `displayData`: the two averages and the number of signal bars. */
  datatype Display = Display(avgTemp: real, avgHum: real, signalLevel: int)

  /** Exact sum of `s`, accumulated from the left as `calculateAverage` does. */
  function Sum(s: seq<real>): real
  {
    if s == [] then 0.0 else Sum(s[..|s| - 1]) + s[|s| - 1]
  }

  /** The unweighted arithmetic mean of a non-empty sequence. */
  function Mean(s: seq<real>): (m: real)
    requires s != []
    ensures m * |s| as real == Sum(s)
  {
    Sum(s) / |s| as real
  }

  function Min(a: int, b: int): int
  {
    if a <= b then a else b
  }

  function Temperatures(h: seq<Reading>): (t: seq<real>)
    ensures |t| == |h| && forall k :: 0 <= k < |h| ==> t[k] == h[k].temperature
  {
    seq(|h|, k requires 0 <= k < |h| => h[k].temperature)
  }

  function Humidities(h: seq<Reading>): (u: seq<real>)
    ensures |u| == |h| && forall k :: 0 <= k < |h| ==> u[k] == h[k].humidity
  {
    seq(|h|, k requires 0 <= k < |h| => h[k].humidity)
  }

  /** The last `n` elements of `h`: the readings a full window should hold. */
  function Recent(h: seq<real>, n: nat): (r: seq<real>)
    requires n <= |h|
    ensures |r| == n
  {
    h[|h| - n..]
  }

  /**
   * The array contents after the values `h` have been written, one after the
   * other, into an `n`-slot array that started all zero (`= {0}`), the k-th
   * value (counting from 0) going to slot k mod n.
   */
  function Replay(h: seq<real>, n: nat): (w: seq<real>)
    requires n > 0
    ensures |w| == n
  {
    if h == [] then seq(n, _ => 0.0)
    else Replay(h[..|h| - 1], n)[Slot(|h| - 1, n) := h[|h| - 1]]
  }

  /** The slot that the k-th value is written to: k mod n, by repeated subtraction. */
  function Slot(k: nat, n: nat): (s: nat)
    requires n > 0
    ensures s < n
    decreases k
  {
    if k < n then k else Slot(k - n, n)
  }

  // ---- arithmetic on slot indices (the solver needs these spelled out for a variable modulus)

  lemma DivMod(a: int, n: int)
    requires 0 < n
    ensures a == (a / n) * n + a % n && 0 <= a % n < n
  {
  }

  lemma MulAtLeast(d: int, n: int)
    requires 0 < n && d >= 1
    ensures d * n >= n
  {
  }

  lemma MulAtMost(d: int, n: int)
    requires 0 < n && d <= -1
    ensures d * n <= -n
  {
  }

  /** The remainder is determined by any decomposition a == q * n + r with 0 <= r < n. */
  lemma ModUnique(a: int, n: int, q: int, r: int)
    requires 0 < n && 0 <= r < n && a == q * n + r
    ensures a % n == r
  {
    DivMod(a, n);
    assert (q - a / n) * n == a % n - r;
    if q - a / n >= 1 {
      MulAtLeast(q - a / n, n);
    } else if q - a / n <= -1 {
      MulAtMost(q - a / n, n);
    }
  }

  lemma ModShift(a: nat, n: nat)
    requires 0 < n <= a
    ensures (a - n) % n == a % n
  {
    var q := (a - n) / n;
    DivMod(a - n, n);
    assert a == (q + 1) * n + (a - n) % n;
    ModUnique(a, n, q + 1, (a - n) % n);
  }

  /** Slot agrees with Dafny's (Euclidean, here also C's) remainder. */
  lemma {:induction false} SlotIsMod(k: nat, n: nat)
    requires n > 0
    ensures Slot(k, n) == k % n
    decreases k
  {
    if k < n {
      ModUnique(k, n, 0, k);
    } else {
      SlotIsMod(k - n, n);
      ModShift(k, n);
    }
  }

  /** The slot after slot s wraps to 0 past the end: `(sampleIndex + 1) % N`. */
  lemma NextSlot(s: nat, n: nat)
    requires s < n
    ensures (s + 1) % n == if s + 1 == n then 0 else s + 1
  {
    if s + 1 == n {
      ModUnique(s + 1, n, 1, 0);
    } else {
      ModUnique(s + 1, n, 0, s + 1);
    }
  }

  /** Consecutive values go to consecutive slots, wrapping at n. */
  lemma {:induction false} SlotStep(k: nat, n: nat)
    requires n > 0
    ensures Slot(k + 1, n) == if Slot(k, n) + 1 == n then 0 else Slot(k, n) + 1
    decreases k
  {
    if k >= n {
      SlotStep(k - n, n);
    }
  }

  /** Fewer than n values apart, two values never share a slot. */
  lemma {:induction false} SlotDistinct(a: nat, b: nat, n: nat)
    requires 0 < n && a < b < a + n
    ensures Slot(a, n) != Slot(b, n)
    decreases a
  {
    if a >= n {
      SlotDistinct(a - n, b - n, n);
    } else if b >= n {
      assert Slot(b, n) == b - n by {
        assert b - n < n;
      }
    }
  }

  // ---- what the window holds

  /** Pushing one more value writes it to slot (number of earlier values) mod n. */
  lemma ReplayAppend(h: seq<real>, x: real, n: nat)
    requires n > 0
    ensures Replay(h + [x], n) == Replay(h, n)[Slot(|h|, n) := x]
  {
    assert (h + [x])[..|h|] == h;
  }

  /** While the window fills, slot j holds the j-th reading, or still its initial 0. */
  lemma {:induction false} ReplayFilling(h: seq<real>, n: nat, j: nat)
    requires 0 < n && |h| <= n && j < n
    ensures Replay(h, n)[j] == if j < |h| then h[j] else 0.0
  {
    if h != [] {
      var h' := h[..|h| - 1];
      if j != |h| - 1 {
        ReplayFilling(h', n, j);
      }
    }
  }

  /** After exactly n pushes the slots hold the readings in push order. */
  lemma ReplayFull(h: seq<real>, n: nat)
    requires 0 < n && |h| == n
    ensures Replay(h, n) == h
  {
    forall j | 0 <= j < n
      ensures Replay(h, n)[j] == h[j]
    {
      ReplayFilling(h, n, j);
    }
  }

  /**
   * Once at least n readings have been pushed, each of the last n readings
   * h[k] sits in slot k mod n: the window holds exactly the last n readings,
   * one per slot.
   */
  lemma {:induction false} ReplayRecent(h: seq<real>, n: nat, k: nat)
    requires 0 < n <= |h| && |h| - n <= k < |h|
    ensures Replay(h, n)[Slot(k, n)] == h[k]
  {
    if |h| == n {
      ReplayFull(h, n);
    } else {
      var h' := h[..|h| - 1];
      if k != |h| - 1 {
        ReplayRecent(h', n, k);
        SlotDistinct(k, |h| - 1, n);
      }
    }
  }

  /** The slot `sampleIndex` points at holds the oldest reading of the window. */
  lemma OldestAtNextSlot(h: seq<real>, n: nat)
    requires 0 < n <= |h|
    ensures Replay(h, n)[Slot(|h|, n)] == Recent(h, n)[0]
  {
    ReplayRecent(h, n, |h| - n);
  }

  /** What one more reading does to both arrays and to the write index. */
  lemma PushReading(h: seq<Reading>, r: Reading, n: nat)
    requires n > 0
    ensures Replay(Temperatures(h + [r]), n) == Replay(Temperatures(h), n)[Slot(|h|, n) := r.temperature]
    ensures Replay(Humidities(h + [r]), n) == Replay(Humidities(h), n)[Slot(|h|, n) := r.humidity]
    ensures (Slot(|h|, n) + 1) % n == Slot(|h| + 1, n)
  {
    assert Temperatures(h + [r]) == Temperatures(h) + [r.temperature];
    assert Humidities(h + [r]) == Humidities(h) + [r.humidity];
    ReplayAppend(Temperatures(h), r.temperature, n);
    ReplayAppend(Humidities(h), r.humidity, n);
    SlotAdvance(|h|, n);
  }

  /** `sampleIndex = (sampleIndex + 1) % N` keeps the index at the slot of the next value. */
  lemma SlotAdvance(k: nat, n: nat)
    requires n > 0
    ensures (Slot(k, n) + 1) % n == Slot(k + 1, n)
  {
    NextSlot(Slot(k, n), n);
    SlotStep(k, n);
  }

  // ---- sums

  lemma {:induction false} SumFront(s: seq<real>)
    requires s != []
    ensures Sum(s) == s[0] + Sum(s[1..])
  {
    if |s| > 1 {
      SumFront(s[..|s| - 1]);
      assert s[..|s| - 1][1..] == s[1..][..|s| - 2];
    }
  }

  lemma {:induction false} SumUpdate(s: seq<real>, i: nat, x: real)
    requires i < |s|
    ensures Sum(s[i := x]) == Sum(s) - s[i] + x
  {
    var t := s[i := x];
    if i == |s| - 1 {
      assert t[..|t| - 1] == s[..|s| - 1];
    } else {
      SumUpdate(s[..|s| - 1], i, x);
      assert t[..|t| - 1] == s[..|s| - 1][i := x];
    }
  }

  /** The sum over the window equals the sum of the last n readings pushed. */
  lemma {:induction false} ReplaySum(h: seq<real>, n: nat)
    requires 0 < n <= |h|
    ensures Sum(Replay(h, n)) == Sum(Recent(h, n))
  {
    if |h| == n {
      ReplayFull(h, n);
      assert Recent(h, n) == h;
    } else {
      var h' := h[..|h| - 1];
      var x := h[|h| - 1];
      var i := Slot(|h'|, n);
      var w := Recent(h', n);
      assert Replay(h, n) == Replay(h', n)[i := x];
      ReplaySum(h', n);
      OldestAtNextSlot(h', n);
      SumUpdate(Replay(h', n), i, x);
      assert Sum(Replay(h, n)) == Sum(w) - w[0] + x;
      SumFront(w);
      assert Recent(h, n) == w[1..] + [x];
      assert (w[1..] + [x])[..n - 1] == w[1..];
    }
  }

  /** The window's mean is the mean of the last n readings pushed. */
  lemma ReplayMean(h: seq<real>, n: nat)
    requires 0 < n <= |h|
    ensures Mean(Replay(h, n)) == Mean(Recent(h, n))
  {
    ReplaySum(h, n);
  }

  lemma {:induction false} SumOfCopies(s: seq<real>, x: real)
    requires forall k :: 0 <= k < |s| ==> s[k] == x
    ensures Sum(s) == |s| as real * x
  {
    if s != [] {
      SumOfCopies(s[..|s| - 1], x);
    }
  }

  /** n copies of one reading average to exactly that reading. */
  lemma {:induction false} SumBounds(s: seq<real>, lo: real, hi: real)
    requires forall k :: 0 <= k < |s| ==> lo <= s[k] <= hi
    ensures |s| as real * lo <= Sum(s) <= |s| as real * hi
  {
    if s != [] {
      SumBounds(s[..|s| - 1], lo, hi);
    }
  }

  /** A mean never leaves the range of the values averaged. */
  lemma MeanBounds(s: seq<real>, lo: real, hi: real)
    requires s != []
    requires forall k :: 0 <= k < |s| ==> lo <= s[k] <= hi
    ensures lo <= Mean(s) <= hi
  {
    SumBounds(s, lo, hi);
  }

  lemma MeanOfCopies(s: seq<real>, x: real)
    requires s != []
    requires forall k :: 0 <= k < |s| ==> s[k] == x
    ensures Mean(s) == x
  {
    SumOfCopies(s, x);
  }

  /** Feeding the same value n times in a row makes the window's mean that value. */
  lemma SteadyInputMean(h: seq<real>, n: nat, x: real)
    requires 0 < n <= |h|
    requires forall k :: |h| - n <= k < |h| ==> h[k] == x
    ensures Mean(Replay(h, n)) == x
  {
    ReplayMean(h, n);
    var r := Recent(h, n);
    forall k | 0 <= k < n
      ensures r[k] == x
    {
      assert r[k] == h[|h| - n + k];
    }
    MeanOfCopies(r, x);
  }

  /**
   * `calculateAverage(readings, numReadings)`: sums the first `numReadings`
   * slots and divides by their count.
   */
  method CalculateAverage(readings: array<real>, numReadings: int) returns (average: real)
    requires 0 < numReadings <= readings.Length
    ensures average == Mean(readings[..numReadings])
  {
    var sum := 0.0;
    for i := 0 to numReadings
      invariant sum == Sum(readings[..i])
    {
      assert readings[..i + 1][..i] == readings[..i];
      sum := sum + readings[i];
    }
    average := sum / numReadings as real;
  }

  /**
   * The two parallel arrays, the write index and the fill counter.  The ghost
   * `history` lists every reading pushed so far; Valid() ties the concrete
   * state to it.
   */
  class Window {
    const N: nat
    const tempReadings: array<real>
    const humReadings: array<real>
    var sampleIndex: int
    var validSamples: int
    ghost var history: seq<Reading>

    ghost predicate Valid()
      reads this, tempReadings, humReadings
    {
      && 0 < N
      && tempReadings.Length == N && humReadings.Length == N
      && tempReadings != humReadings
      && 0 <= sampleIndex < N && sampleIndex == Slot(|history|, N)
      && 0 <= validSamples <= N && validSamples == Min(|history|, N)
      && tempReadings[..] == Replay(Temperatures(history), N)
      && humReadings[..] == Replay(Humidities(history), N)
    }

    /** The test `validSamples == NUM_SAMPLES` that guards the averaging. */
    predicate Ready()
      reads this, tempReadings, humReadings
      ensures Valid() ==> (Ready() <==> N <= |history|)
    {
      validSamples == N
    }

    /** The globals at start-up: zeroed arrays and both counters 0. */
    constructor (n: nat)
      requires n > 0
      ensures Valid() && N == n && history == []
      ensures fresh(tempReadings) && fresh(humReadings)
      ensures sampleIndex == 0 && validSamples == 0
      ensures forall j :: 0 <= j < n ==> tempReadings[j] == 0.0 && humReadings[j] == 0.0
    {
      N := n;
      tempReadings := new real[n](_ => 0.0);
      humReadings := new real[n](_ => 0.0);
      sampleIndex := 0;
      validSamples := 0;
      history := [];
      new;
      assert tempReadings[..] == Replay([], n);
      assert humReadings[..] == Replay([], n);
    }

    /**
     * The update of `loop()` for a valid reading: both values go to slot
     * `sampleIndex` and nowhere else, the index advances modulo N and the
     * counter grows by one until it reaches N.
     */
    method Push(temperature: real, humidity: real)
      requires Valid()
      modifies this, tempReadings, humReadings
      ensures Valid()
      ensures history == old(history) + [Reading(temperature, humidity)]
      ensures tempReadings[..] == old(tempReadings[..])[old(sampleIndex) := temperature]
      ensures humReadings[..] == old(humReadings[..])[old(sampleIndex) := humidity]
      ensures sampleIndex == (old(sampleIndex) + 1) % N
      ensures validSamples == if old(validSamples) < N then old(validSamples) + 1 else N
    {
      ghost var h' := history + [Reading(temperature, humidity)];
      PushReading(history, Reading(temperature, humidity), N);
      tempReadings[sampleIndex] := temperature;
      assert tempReadings[..] == Replay(Temperatures(h'), N);
      humReadings[sampleIndex] := humidity;
      assert humReadings[..] == Replay(Humidities(h'), N);
      sampleIndex := (sampleIndex + 1) % N;
      assert sampleIndex == Slot(|h'|, N);
      if validSamples < N {
        validSamples := validSamples + 1;
      }
      history := h';
    }

    /**
     * The two `calculateAverage` calls of `loop()` once the window is ready:
     * the means of the temperatures and humidities of the last N readings.
     */
    method Averages() returns (avgTemp: real, avgHum: real)
      requires Valid() && Ready()
      ensures |history| >= N
      ensures avgTemp == Mean(Recent(Temperatures(history), N))
      ensures avgHum == Mean(Recent(Humidities(history), N))
    {
      avgTemp := CalculateAverage(tempReadings, N);
      avgHum := CalculateAverage(humReadings, N);
      assert tempReadings[..N] == tempReadings[..] && humReadings[..N] == humReadings[..];
      ReplayMean(Temperatures(history), N);
      ReplayMean(Humidities(history), N);
    }
  }
}

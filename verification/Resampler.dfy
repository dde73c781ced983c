/**
 Linear resampling of a mono frame into the buffer reserved when the port was opened.
 */
module Resampler {
  import opened Wrappers
  import opened PcmFormat

  predicate IsPcm16(x: int) { -32768 <= x <= 32767 }

  /** How many samples `n` source samples become. */
  function DestinationSamples(n: nat, src: nat, dst: nat): nat
    requires src > 0
  {
    n * dst / src
  }

  /** The samples reserved at open: the longest of the profile's frame, the asked-for frame and the budget plus one. */
  function ReservedSamples(dst: nat, profileMs: nat, formatMs: nat, latencyMs: nat): nat {
    dst * ScratchMs(profileMs, formatMs, latencyMs) / 1000
  }

  function ScratchMs(profileMs: nat, formatMs: nat, latencyMs: nat): nat {
    var m := if profileMs < formatMs then formatMs else profileMs;
    if m < latencyMs + 1 then latencyMs + 1 else m
  }

  function Lower(i: nat, src: nat, dst: nat): nat
    requires dst > 0
  {
    i * src / dst
  }

  function Upper(i: nat, src: nat, dst: nat, n: nat): nat
    requires dst > 0
  {
    var lower := Lower(i, src, dst);
    if lower + 1 < n then lower + 1 else lower
  }

  function Fraction(i: nat, src: nat, dst: nat): nat
    requires dst > 0
  {
    i * src % dst
  }

  // ----- Range facts

  lemma ProductOrder(a: int, b: int, k: int)
    requires a <= b && k >= 0
    ensures a * k <= b * k
  {
  }

  lemma CancelFactor(a: int, b: int, k: int)
    requires k > 0 && a * k < b * k
    ensures a < b
  {
    if a >= b {
      ProductOrder(b, a, k);
    }
  }

  lemma QuotientBound(x: nat, n: nat, d: nat)
    requires d > 0 && x < n * d
    ensures x / d < n
  {
    var q := x / d;
    assert q * d <= x;
    CancelFactor(q, n, d);
  }

  /** Every source index read is in range. */
  lemma IndexInRange(n: nat, src: nat, dst: nat, i: nat)
    requires src > 0 && dst > 0 && i < DestinationSamples(n, src, dst)
    ensures Lower(i, src, dst) < n && Upper(i, src, dst, n) < n
  {
    var d := DestinationSamples(n, src, dst);
    assert d * src <= n * dst;
    ProductOrder(i + 1, d, src);
    assert (i + 1) * src == i * src + src;
    QuotientBound(i * src, n, dst);
  }

  lemma CancelFactorWeak(a: int, b: int, k: int)
    requires k > 0 && a * k <= b * k
    ensures a <= b
  {
    assert (b + 1) * k == b * k + k;
    if a > b {
      ProductOrder(b + 1, a, k);
    }
  }

  lemma FloorBetween(x: nat, d: nat, lo: int, hi: int)
    requires d > 0 && lo * d <= x <= hi * d
    ensures lo <= x / d <= hi
  {
    var q := x / d;
    assert q * d <= x < q * d + d;
    assert (q + 1) * d == q * d + d;
    CancelFactor(lo, q + 1, d);
    CancelFactorWeak(q, hi, d);
  }

  /** A value between two integers stays between them when its quotient is truncated. */
  lemma TruncatedBetween(x: int, d: nat, lo: int, hi: int)
    requires d > 0 && lo * d <= x <= hi * d
    ensures lo <= TruncDiv(x, d) <= hi
  {
    if x >= 0 {
      FloorBetween(x, d, lo, hi);
    } else {
      assert (-hi) * d == -(hi * d) && (-lo) * d == -(lo * d);
      FloorBetween(-x, d, -hi, -lo);
    }
  }

  function Min(a: int, b: int): int { if a < b then a else b }
  function Max(a: int, b: int): int { if a < b then b else a }

  /** The weighted sum of two neighbours lies between multiples of them. */
  lemma WeightedBetween(a: int, b: int, d: nat, f: nat)
    requires 0 <= f < d
    ensures Min(a, b) * d <= a * (d - f) + b * f <= Max(a, b) * d
  {
    var lo, hi := Min(a, b), Max(a, b);
    ProductOrder(lo, a, d - f);
    ProductOrder(lo, b, f);
    ProductOrder(a, hi, d - f);
    ProductOrder(b, hi, f);
    assert lo * (d - f) + lo * f == lo * d;
    assert hi * (d - f) + hi * f == hi * d;
  }

  /** The output at `i`: between its two neighbours, and equal to the exact interpolation rounded toward zero. */
  predicate Interpolates(pcm: seq<int>, src: nat, dst: nat, i: nat, out: int)
    requires src > 0 && dst > 0 && i < DestinationSamples(|pcm|, src, dst)
  {
    IndexInRange(|pcm|, src, dst, i);
    var a, b, f := pcm[Lower(i, src, dst)], pcm[Upper(i, src, dst, |pcm|)], Fraction(i, src, dst);
    && Min(a, b) <= out <= Max(a, b)
    && IsTruncated(out, a * (dst - f) + b * f, dst)
  }

  /** `q` is `x / d` rounded toward zero, said without dividing. */
  predicate IsTruncated(q: int, x: int, d: nat) {
    (x >= 0 ==> x - d < q * d <= x) && (x <= 0 ==> x <= q * d < x + d)
  }

  /**
   The resampling loop. It refuses a frame that becomes empty or does not fit the reserved buffer;
   otherwise every output interpolates its two neighbours and so fits 16 bits.
   */
  method Resample(pcm: seq<int>, src: nat, dst: nat, scratch: array<int>) returns (ok: bool, count: nat)
    requires src > 0 && dst > 0 && forall i | 0 <= i < |pcm| :: IsPcm16(pcm[i])
    modifies scratch
    ensures count == DestinationSamples(|pcm|, src, dst) && count * src <= |pcm| * dst < (count + 1) * src
    ensures ok <==> 0 < count <= scratch.Length
    ensures ok ==> forall i | 0 <= i < count :: Interpolates(pcm, src, dst, i, scratch[i]) && IsPcm16(scratch[i])
    ensures !ok ==> scratch[..] == old(scratch[..])
  {
    count := DestinationSamples(|pcm|, src, dst);
    FloorExact(|pcm| * dst, src);
    if count == 0 || count > scratch.Length {
      return false, count;
    }
    var index := 0;
    while index < count
      invariant index <= count
      invariant forall i | 0 <= i < index :: Interpolates(pcm, src, dst, i, scratch[i]) && IsPcm16(scratch[i])
    {
      IndexInRange(|pcm|, src, dst, index);
      var lower := index * src / dst;
      var upper := if lower + 1 < |pcm| then lower + 1 else lower;
      var value := Interpolated(pcm[lower], pcm[upper], dst, index * src % dst);
      assert Interpolates(pcm, src, dst, index, value);
      scratch[index] := value;
      index := index + 1;
    }
    return true, count;
  }

  method Interpolated(a: int, b: int, dst: nat, fraction: nat) returns (value: int)
    requires dst > 0 && fraction < dst
    ensures Min(a, b) <= value <= Max(a, b)
    ensures IsTruncated(value, a * (dst - fraction) + b * fraction, dst)
  {
    var x := a * (dst - fraction) + b * fraction;
    WeightedBetween(a, b, dst, fraction);
    TruncatedBetween(x, dst, Min(a, b), Max(a, b));
    TruncatesTowardZero(x, dst);
    value := TruncDiv(x, dst);
  }

  lemma TruncatesTowardZero(x: int, d: nat)
    requires d > 0
    ensures IsTruncated(TruncDiv(x, d), x, d)
  {
    if x >= 0 {
      assert x / d * d <= x < x / d * d + d;
    } else {
      var y := -x;
      assert y / d * d <= y < y / d * d + d;
      assert (-(y / d)) * d == -(y / d * d);
    }
  }

  // ----- What the output is of a signal

  lemma FloorExact(x: nat, d: nat)
    requires d > 0
    ensures x / d * d <= x < (x / d + 1) * d && x / d * d + x % d == x
  {
    assert (x / d + 1) * d == x / d * d + d;
  }

  lemma WeightedLine(c: int, g: int, k: int, d: int, f: int)
    ensures (c + g * k) * (d - f) + (c + g * (k + 1)) * f == c * d + g * (k * d + f)
  {
    assert g * (k * d + f) == g * k * d + g * f;
    assert (c + g * (k + 1)) * f == (c + g * k) * f + g * f;
    assert (c + g * k) * (d - f) + (c + g * k) * f == (c + g * k) * d;
  }

  lemma PointOnLine(c: int, g: int, k: int, d: int)
    ensures (c + g * k) * d == c * d + g * (k * d)
  {
  }

  /** `pcm` is a straight line. */
  predicate IsLine(pcm: seq<int>, c: int, g: int) { forall k | 0 <= k < |pcm| :: pcm[k] == c + g * k }

  /**
   A straight line stays that line: up to the time of the last source sample, output `i` is its value at source time
   `i * src / dst`, rounded toward zero. From then on the output is the last sample.
   */
  lemma LineKept(pcm: seq<int>, c: int, g: int, src: nat, dst: nat, i: nat, out: int)
    requires src > 0 && dst > 0 && i < DestinationSamples(|pcm|, src, dst) && IsLine(pcm, c, g)
    requires Interpolates(pcm, src, dst, i, out)
    ensures i * src <= (|pcm| - 1) * dst ==> IsTruncated(out, c * dst + g * (i * src), dst)
    ensures i * src >= (|pcm| - 1) * dst ==> out == pcm[|pcm| - 1]
  {
    var n, k, f := |pcm|, Lower(i, src, dst), Fraction(i, src, dst);
    IndexInRange(n, src, dst, i);
    FloorExact(i * src, dst);
    assert k * dst + f == i * src && f < dst && k < n;
    if k + 1 < n {
      ProductOrder(k + 1, n - 1, dst);
      assert (k + 1) * dst == k * dst + dst;
      WeightedLine(c, g, k, dst, f);
    } else {
      assert k == n - 1;
      PointOnLine(c, g, k, dst);
      assert pcm[k] * (dst - f) + pcm[k] * f == pcm[k] * dst;
    }
  }

  /** At equal rates the output is the input. */
  lemma SameRateCopies(pcm: seq<int>, rate: nat, i: nat, out: int)
    requires rate > 0 && i < DestinationSamples(|pcm|, rate, rate) && Interpolates(pcm, rate, rate, i, out)
    ensures i < |pcm| && out == pcm[i]
  {
    FloorExact(i * rate, rate);
    IndexInRange(|pcm|, rate, rate, i);
    var k, f := Lower(i, rate, rate), Fraction(i, rate, rate);
    if k < i {
      ProductOrder(k + 1, i, rate);
    }
    CancelFactorWeak(k, i, rate);
    assert k == i && f == 0;
    TruncatedExact(out, pcm[i], rate);
  }

  lemma TruncatedExact(q: int, a: int, d: nat)
    requires d > 0 && IsTruncated(q, a * d, d)
    ensures q == a
  {
    if q < a {
      ProductOrder(q + 1, a, d);
    } else if a < q {
      ProductOrder(a + 1, q, d);
    }
  }

  // ----- The reserved buffer

  /** The number of samples of a mono 16-bit frame. */
  function MonoSamples(f: Frame): nat { |f.payload| / 2 }

  /**
   Every mono frame that the latency budget admits resamples to at most the samples reserved at
   open, whatever its rate: the one millisecond added to the budget covers the truncated duration.
   */
  lemma FitsReserved(f: Frame, dst: nat, profileMs: nat, formatMs: nat, latencyMs: nat)
    requires Playable(f, 1) && PcmDurationMs(f) <= latencyMs
    ensures DestinationSamples(MonoSamples(f), f.format.sampleRateHz, dst)
         <= ReservedSamples(dst, profileMs, formatMs, latencyMs)
  {
    var n, src := MonoSamples(f), f.format.sampleRateHz;
    assert f.format.bitsPerSample / 8 * f.format.channels == 2;
    assert n * 1000 / src <= latencyMs;
    DurationBounds(n, src, latencyMs);
    var d, s := DestinationSamples(n, src, dst), ScratchMs(profileMs, formatMs, latencyMs);
    ScaledBound(n, src, dst, latencyMs, d);
    ProductOrder(latencyMs + 1, s, dst);
    assert s * dst == dst * s && (latencyMs + 1) * dst <= s * dst;
    assert d * 1000 <= dst * s;
  }

  lemma DurationBounds(n: nat, src: nat, latencyMs: nat)
    requires src > 0 && n * 1000 / src <= latencyMs
    ensures n * 1000 < (latencyMs + 1) * src
  {
    var q := n * 1000 / src;
    assert n * 1000 < q * src + src;
    ProductOrder(q + 1, latencyMs + 1, src);
    assert (q + 1) * src == q * src + src;
  }

  lemma ScaledBound(n: nat, src: nat, dst: nat, latencyMs: nat, d: nat)
    requires src > 0 && n * 1000 < (latencyMs + 1) * src && d == n * dst / src
    ensures d * 1000 <= (latencyMs + 1) * dst
  {
    FloorTimes(n * dst, src);
    ProductOrder(n * 1000, (latencyMs + 1) * src, dst);
    Regroup(d, 1000, src);
    Regroup(n, 1000, dst);
    Regroup(latencyMs + 1, src, dst);
    CancelFactorWeak(d * 1000, (latencyMs + 1) * dst, src);
  }

  lemma FloorTimes(x: nat, d: nat)
    requires d > 0
    ensures x / d * d <= x
  {
  }

  lemma Regroup(a: int, b: int, c: int)
    ensures a * b * c == a * c * b
  {
  }
}

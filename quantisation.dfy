/** Mixed-radix colour quantisation: each channel is divided by a step size and
    the three quotients become the digits of a base-`BASE` bucket number.
    `ColorClassifier::compute_idx` fixes the step at 5; the Python scripts take
    it as an option whose default is also 5. */
module Quantisation {
  import opened Domain

  const STEP_SIZE: nat := 5
  const BASE: nat := 255 / STEP_SIZE + 1

  /** `int(255 / step) + 1`, the number of levels per channel for a step size. */
  function Base(step: nat): (base: nat)
    requires step > 0
    ensures base >= 1 && (base - 1) * step <= 255 < base * step
  {
    255 / step + 1
  }

  /** The bucket number with digits `qr`, `qg`, `qb` (least significant first). */
  function MixedRadix(qr: nat, qg: nat, qb: nat, base: nat): nat
  {
    qr + base * qg + base * base * qb
  }

  /** The bucket of a pixel for a step size: the formula of `compute_idx`,
      of `segment_by_color` and of `make_color`. */
  function Bucket(p: Pixel, step: nat): nat
    requires step > 0
  {
    MixedRadix(p.r / step, p.g / step, p.b / step, Base(step))
  }

  /** `compute_idx`: the bucket of a pixel in the classifier's table. */
  function ComputeIdx(p: Pixel): (idx: nat)
    ensures idx < BASE * BASE * BASE
    ensures idx == Bucket(p, STEP_SIZE)
  {
    QuantisedChannel(p.r, STEP_SIZE);
    QuantisedChannel(p.g, STEP_SIZE);
    QuantisedChannel(p.b, STEP_SIZE);
    MixedRadixRange(p.r / STEP_SIZE, p.g / STEP_SIZE, p.b / STEP_SIZE, BASE);
    MixedRadix(p.r / STEP_SIZE, p.g / STEP_SIZE, p.b / STEP_SIZE, BASE)
  }

  /** A quantised channel is a digit: `x / step < Base(step)`; for step 5 the
      largest digit, 255 / 5, is exactly BASE - 1 = 51. */
  lemma QuantisedChannel(x: Channel, step: nat)
    requires step > 0
    ensures x / step < Base(step)
    ensures step == STEP_SIZE ==> Base(step) == BASE == 52 && 255 / step == BASE - 1
  {
    DivMonotone(x, 255, step);
  }

  lemma DivMonotone(a: nat, b: nat, d: nat)
    requires a <= b && d > 0
    ensures a / d <= b / d
  {
    if a / d > b / d {
      assert (a / d - b / d) * d == (a - a % d) - (b - b % d);
      MulAtLeast(a / d - b / d, d);
    }
  }

  lemma MulAtLeast(a: int, d: int)
    requires a >= 1 && d > 0
    ensures a * d >= d
  {
    assert (a - 1) * d >= 0;
  }

  lemma {:induction false} MixedRadixRange(qr: nat, qg: nat, qb: nat, base: nat)
    requires qr < base && qg < base && qb < base
    ensures MixedRadix(qr, qg, qb, base) < base * base * base
  {
    TwoDigits(qr, qg, base);
    MulMonotone(base * base, qb, base - 1);
    assert base * base * (base - 1) + base * base == base * base * base;
  }

  /** Division with remainder determines quotient and remainder. */
  lemma DivModOf(n: nat, d: nat, q: nat, r: nat)
    requires 0 <= r < d && n == q * d + r
    ensures n / d == q && n % d == r
  {
    var q', r' := n / d, n % d;
    assert n == q' * d + r';
    if q > q' {
      assert (q - q') * d == r' - r;
      MulAtLeast(q - q', d);
    } else if q < q' {
      assert (q' - q) * d == r - r';
      MulAtLeast(q' - q, d);
    }
  }

  /** The lowest digit of `lo + base * hi` and the number above it. */
  lemma LowDigit(lo: nat, hi: nat, base: nat)
    requires lo < base
    ensures (lo + base * hi) / base == hi && (lo + base * hi) % base == lo
  {
    DivModOf(lo + base * hi, base, hi, lo);
  }

  lemma MixedRadixNested(qr: nat, qg: nat, qb: nat, base: nat)
    ensures MixedRadix(qr, qg, qb, base) == qr + base * (qg + base * qb)
    ensures MixedRadix(qr, qg, qb, base) == (qr + base * qg) + (base * base) * qb
  {
  }

  lemma TwoDigits(qr: nat, qg: nat, base: nat)
    requires qr < base && qg < base
    ensures qr + base * qg < base * base
  {
    assert base * qg <= base * (base - 1);
  }

  /** Decoding a bucket recovers its three digits. */
  lemma {:induction false} MixedRadixDecode(qr: nat, qg: nat, qb: nat, base: nat)
    requires qr < base && qg < base && qb < base
    ensures var idx := MixedRadix(qr, qg, qb, base);
      && idx % base == qr
      && (idx / base) % base == qg
      && idx / (base * base) == qb
  {
    MixedRadixNested(qr, qg, qb, base);
    LowDigit(qr, qg + base * qb, base);
    LowDigit(qg, qb, base);
    TwoDigits(qr, qg, base);
    LowDigit(qr + base * qg, qb, base * base);
  }

  /** Every number below `base`^3 is the bucket of its own three digits. */
  lemma {:induction false} MixedRadixEncode(idx: nat, base: nat)
    requires 0 < base && idx < base * base * base
    ensures idx % base < base && (idx / base) % base < base && 0 <= idx / (base * base) < base
    ensures idx == MixedRadix(idx % base, (idx / base) % base, idx / (base * base), base)
  {
    var qr, m := idx % base, idx / base;
    var qg, qb := m % base, m / base;
    EuclidSplit(idx, base);
    EuclidSplit(m, base);
    MixedRadixNested(qr, qg, qb, base);
    assert idx == MixedRadix(qr, qg, qb, base);
    assert qb < base by {
      if qb >= base {
        MulMonotone(base * base, base, qb);
      }
    }
    MixedRadixDecode(qr, qg, qb, base);
  }

  lemma EuclidSplit(n: nat, d: nat)
    requires d > 0
    ensures n == n % d + d * (n / d)
  {
  }

  lemma MulMonotone(a: nat, b: nat, c: nat)
    requires b <= c
    ensures a * b <= a * c
  {
  }

  lemma MixedRadixInjective(qr: nat, qg: nat, qb: nat, qr': nat, qg': nat, qb': nat, base: nat)
    requires qr < base && qg < base && qb < base
    requires qr' < base && qg' < base && qb' < base
    requires MixedRadix(qr, qg, qb, base) == MixedRadix(qr', qg', qb', base)
    ensures qr == qr' && qg == qg' && qb == qb'
  {
    MixedRadixDecode(qr, qg, qb, base);
    MixedRadixDecode(qr', qg', qb', base);
  }

  /** The round trip of `compute_idx`: the bucket's base-52 digits are the
      pixel's channels divided by 5. */
  lemma ComputeIdxDecode(p: Pixel)
    ensures ComputeIdx(p) % BASE == p.r / STEP_SIZE
    ensures (ComputeIdx(p) / BASE) % BASE == p.g / STEP_SIZE
    ensures ComputeIdx(p) / (BASE * BASE) == p.b / STEP_SIZE
  {
    MixedRadixDecode(p.r / STEP_SIZE, p.g / STEP_SIZE, p.b / STEP_SIZE, BASE);
  }

  /** Two pixels share a bucket exactly when every channel has the same
      quotient by the step size. */
  lemma SameBucket(p: Pixel, q: Pixel)
    ensures ComputeIdx(p) == ComputeIdx(q) <==>
      p.r / STEP_SIZE == q.r / STEP_SIZE && p.g / STEP_SIZE == q.g / STEP_SIZE && p.b / STEP_SIZE == q.b / STEP_SIZE
  {
    if ComputeIdx(p) == ComputeIdx(q) {
      ComputeIdxDecode(p);
      ComputeIdxDecode(q);
    }
  }
}

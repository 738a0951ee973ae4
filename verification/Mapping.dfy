/** Gray-coded constellation mapping and max-log soft demapping
    (crates/s2g-phy/src/mapping.rs), with the normalisation factor as any positive real. */
module Mapping {
  import opened Params
  import opened Words
  import opened Arith
  import opened Llr

  // ---- Axis levels ----

  /** Value of binary digits, most significant first. */
  function Value(d: seq<Bit>): nat {
    if |d| == 0 then 0 else 2 * Value(d[..|d| - 1]) + (if d[|d| - 1] then 1 else 0)
  }

  /** The `m` binary digits of a number, most significant first. */
  function Digits(n: nat, m: nat): (d: seq<Bit>)
    ensures |d| == m
  {
    if m == 0 then [] else Digits(n / 2, m - 1) + [n % 2 == 1]
  }

  lemma {:induction false} DigitsOfValue(d: seq<Bit>)
    ensures Value(d) < Pow2(|d|) && Digits(Value(d), |d|) == d
  {
    if |d| > 0 {
      DigitsOfValue(d[..|d| - 1]);
      assert d == d[..|d| - 1] + [d[|d| - 1]];
    }
  }

  /** Digit `i` of n ^ (n >> 1). */
  function GrayBit(d: seq<Bit>, i: nat): Bit
    requires i < |d|
  {
    d[i] != (i > 0 && d[i - 1])
  }

  /** Sum of the Gray digits in positions `lo` to `hi - 1`. */
  function RangeXor(g: seq<Bit>, lo: int, hi: nat): Bit
    requires hi <= |g|
    decreases hi
  {
    if hi == 0 || hi <= lo then false else RangeXor(g, lo, hi - 1) != g[hi - 1]
  }

  /** Inverse Gray code: every digit is the sum of all Gray digits up to it. */
  function Ungray(g: seq<Bit>): (d: seq<Bit>)
    ensures |d| == |g|
  {
    seq(|g|, i requires 0 <= i < |g| => RangeXor(g, 0, i + 1))
  }

  /** The inverse Gray code is inverted by the Gray code. */
  lemma {:induction false} GrayOfUngray(g: seq<Bit>, i: nat)
    requires i < |g|
    ensures GrayBit(Ungray(g), i) == g[i]
  {
    assert RangeXor(g, 0, i + 1) == (RangeXor(g, 0, i) != g[i]);
    assert !RangeXor(g, 0, 0);
  }

  function Level(bits: seq<Bit>): int {
    2 * Value(Ungray(bits)) - (Pow2(|bits|) - 1)
  }

  lemma {:induction false} RangeSplit(g: seq<Bit>, lo: int, mid: nat, hi: nat)
    requires lo <= mid <= hi <= |g|
    ensures RangeXor(g, lo, hi) == (RangeXor(g, lo, mid) != RangeXor(g, mid, hi))
  {
    if hi > mid {
      RangeSplit(g, lo, mid, hi - 1);
    }
  }

  lemma {:induction false} RangeBelow(g: seq<Bit>, lo: int, hi: nat)
    requires lo <= 0 && hi <= |g|
    ensures RangeXor(g, lo, hi) == RangeXor(g, 0, hi)
  {
    if hi > 0 {
      RangeBelow(g, lo, hi - 1);
    }
  }

  /** `n >> sh` on digits. */
  function ShiftRight(d: seq<Bit>, sh: nat): (r: seq<Bit>)
    ensures |r| == |d|
  {
    seq(|d|, i requires 0 <= i < |d| => i >= sh && d[i - sh])
  }

  /** The prefix sums by doubling shifts. */
  method AxisLevel(bits: seq<Bit>) returns (level: int)
    ensures level == Level(bits)
  {
    var (m, n) := (|bits|, bits);
    var sh := 1;
    while sh < m
      invariant sh >= 1 && |n| == m
      invariant forall i | 0 <= i < m :: n[i] == RangeXor(bits, i + 1 - sh, i + 1)
      decreases m - sh
    {
      var shifted := ShiftRight(n, sh);
      forall i | 0 <= i < m
        ensures (n[i] != shifted[i]) == RangeXor(bits, i + 1 - 2 * sh, i + 1)
      {
        DoubleRange(bits, sh, i);
      }
      n := seq(m, i requires 0 <= i < m => n[i] != shifted[i]);
      sh := 2 * sh;
    }
    forall i | 0 <= i < m
      ensures n[i] == Ungray(bits)[i]
    {
      RangeBelow(bits, i + 1 - sh, i + 1);
    }
    assert n == Ungray(bits);
    level := 2 * Value(n) - (Pow2(m) - 1);
  }

  lemma {:induction false} DoubleRange(g: seq<Bit>, sh: nat, i: nat)
    requires sh >= 1 && i < |g|
    ensures RangeXor(g, i + 1 - 2 * sh, i + 1)
            == (RangeXor(g, i + 1 - sh, i + 1) != (i >= sh && RangeXor(g, i + 1 - 2 * sh, i + 1 - sh)))
  {
    if i >= sh {
      RangeSplit(g, i + 1 - 2 * sh, i + 1 - sh, i + 1);
    } else {
      RangeBelow(g, i + 1 - sh, i + 1);
      RangeBelow(g, i + 1 - 2 * sh, i + 1);
    }
  }

  // ---- Soft decisions on one axis ----

  /** Amplitude of Gray index `n` among `2^m` levels. */
  function Amplitude(n: nat, m: nat, k: real): real {
    ((2 * n - (Pow2(m) - 1)) as real) * k
  }

  function Distance(y: real, n: nat, m: nat, k: real): real {
    (y - Amplitude(n, m, k)) * (y - Amplitude(n, m, k))
  }

  datatype Best = Far | At(d: real)
  {
    predicate Above(x: real) {
      Far? || x < d
    }
  }

  /** Least squared distance among the first `n` levels whose Gray digit `bit` is `v`. */
  function BestTo(y: real, m: nat, k: real, bit: nat, v: Bit, n: nat): Best
    requires bit < m
  {
    if n == 0 then Far
    else
      var b := BestTo(y, m, k, bit, v, n - 1);
      if GrayBit(Digits(n - 1, m), bit) == v && b.Above(Distance(y, n - 1, m, k)) then At(Distance(y, n - 1, m, k)) else b
  }

  function BestOf(y: real, m: nat, k: real, bit: nat, v: Bit): Best
    requires bit < m
  {
    BestTo(y, m, k, bit, v, Pow2(m))
  }

  /** Every digit value occurs among the levels, so both minima exist. */
  function AxisLlr(y: real, m: nat, k: real, bit: nat): real
    requires bit < m
  {
    var (b0, b1) := (BestOf(y, m, k, bit, false), BestOf(y, m, k, bit, true));
    if b0.At? && b1.At? then b1.d - b0.d else 0.0
  }

  method AxisLlrs(y: real, m: nat, k: real) returns (out: seq<real>)
    ensures |out| == m && forall bit | 0 <= bit < m :: out[bit] == AxisLlr(y, m, k, bit)
  {
    hide Distance, GrayBit, Digits;
    var best0 := new Best[m](_ => Far);
    var best1 := new Best[m](_ => Far);
    for n := 0 to Pow2(m)
      invariant forall b | 0 <= b < m :: best0[b] == BestTo(y, m, k, b, false, n)
      invariant forall b | 0 <= b < m :: best1[b] == BestTo(y, m, k, b, true, n)
    {
      var d2 := Distance(y, n, m, k);
      var pat := Digits(n, m);
      for bit := 0 to m
        invariant forall b | 0 <= b < m :: best0[b] == BestTo(y, m, k, b, false, if b < bit then n + 1 else n)
        invariant forall b | 0 <= b < m :: best1[b] == BestTo(y, m, k, b, true, if b < bit then n + 1 else n)
      {
        if GrayBit(pat, bit) {
          if best1[bit].Above(d2) {
            best1[bit] := At(d2);
          }
        } else {
          if best0[bit].Above(d2) {
            best0[bit] := At(d2);
          }
        }
      }
    }
    out := [];
    for bit := 0 to m
      invariant |out| == bit && forall b | 0 <= b < bit :: out[b] == AxisLlr(y, m, k, b)
      invariant forall b | 0 <= b < m :: best0[b] == BestOf(y, m, k, b, false) && best1[b] == BestOf(y, m, k, b, true)
    {
      out := out + [if best0[bit].At? && best1[bit].At? then best1[bit].d - best0[bit].d else 0.0];
    }
  }

  // ---- Decisions are right within half the level spacing ----

  lemma {:induction false} BestAtMost(y: real, m: nat, k: real, bit: nat, n: nat, levels: nat)
    requires bit < m && n < levels
    ensures var b := BestTo(y, m, k, bit, GrayBit(Digits(n, m), bit), levels);
            b.At? && b.d <= Distance(y, n, m, k)
  {
    hide Distance, GrayBit;
    if n < levels - 1 {
      BestAtMost(y, m, k, bit, n, levels - 1);
    }
  }

  lemma {:induction false} BestAtLeast(y: real, m: nat, k: real, bit: nat, v: Bit, levels: nat, bound: real)
    requires bit < m
    requires forall n | 0 <= n < levels && GrayBit(Digits(n, m), bit) == v :: Distance(y, n, m, k) > bound
    ensures var b := BestTo(y, m, k, bit, v, levels);
            b.At? ==> b.d > bound
  {
    hide Distance, GrayBit;
    if levels > 0 {
      BestAtLeast(y, m, k, bit, v, levels - 1, bound);
    }
  }

  lemma {:induction false} SquareGrows(a: real, b: real)
    requires -b < a < b
    ensures a * a < b * b
  {
    assert (b - a) * (b + a) > 0.0 by { MulPositive(b - a, b + a); }
    assert (b - a) * (b + a) == b * b - a * a;
  }

  lemma {:induction false} MulPositive(a: real, b: real)
    requires a > 0.0 && b > 0.0
    ensures a * b > 0.0
  {
  }

  lemma {:induction false} Spacing(n: nat, p: nat, m: nat, k: real)
    requires n < p && k > 0.0
    ensures Amplitude(p, m, k) - Amplitude(n, m, k) >= 2.0 * k
  {
    var d := (p - n - 1) as real;
    assert Amplitude(p, m, k) - Amplitude(n, m, k) == (2.0 * d + 2.0) * k;
    assert d * k >= 0.0;
  }

  /** An observation within half the spacing of level `n` is closer to it than to any other. */
  lemma {:induction false} NearestLevel(y: real, n: nat, p: nat, m: nat, k: real)
    requires k > 0.0 && p != n
    requires -k < y - Amplitude(n, m, k) < k
    ensures Distance(y, n, m, k) < Distance(y, p, m, k)
  {
    hide Amplitude;
    var (a, b) := (y - Amplitude(n, m, k), y - Amplitude(p, m, k));
    if n < p {
      Spacing(n, p, m, k);
      SquareGrows(a, -b);
      assert (-b) * (-b) == b * b;
    } else {
      Spacing(p, n, m, k);
      SquareGrows(a, b);
    }
  }

  /** Each digit value is taken by some level. */
  lemma {:induction false} DigitTaken(m: nat, bit: nat, v: Bit) returns (n: nat)
    requires bit < m
    ensures n < Pow2(m) && GrayBit(Digits(n, m), bit) == v
  {
    var g := seq(m, i => i == bit && v);
    DigitsOfValue(Ungray(g));
    GrayOfUngray(g, bit);
    n := Value(Ungray(g));
  }

  /** Soft decisions on one axis have the sign of the bits sent whenever the observation is
      within half the level spacing of the level sent. */
  lemma {:induction false} AxisRight(y: real, bits: seq<Bit>, k: real, bit: nat)
    requires k > 0.0 && bit < |bits|
    requires -k < y - (Level(bits) as real) * k < k
    ensures Toward(AxisLlr(y, |bits|, k, bit), bits[bit]) > 0.0
  {
    hide Distance, GrayBit, Digits, BestTo, Pow2;
    var (m, n) := (|bits|, Value(Ungray(bits)));
    DigitsOfValue(Ungray(bits));
    GrayOfUngray(bits, bit);
    BestAtMost(y, m, k, bit, n, Pow2(m));
    var other := !bits[bit];
    var p := DigitTaken(m, bit, other);
    BestAtMost(y, m, k, bit, p, Pow2(m));
    forall q | 0 <= q < Pow2(m) && GrayBit(Digits(q, m), bit) == other
      ensures Distance(y, q, m, k) > Distance(y, n, m, k)
    {
      NearestLevel(y, n, q, m, k);
    }
    BestAtLeast(y, m, k, bit, other, Pow2(m), Distance(y, n, m, k));
  }

  // ---- Symbols ----

  datatype Point = Point(re: real, im: real)

  /** Bits per axis. */
  function Half(nb: nat): nat {
    if nb == 1 then 1 else nb / 2
  }

  /** Interleaved bits of point `k`. */
  function Group(bits: seq<Bit>, nb: nat, k: nat): (g: seq<Bit>)
    requires nb > 0 && |bits| == 52 * nb && k < 52
    ensures |g| == nb
  {
    MulStrict(k, 52, nb);
    MulNonneg(k, nb);
    bits[k * nb..k * nb + nb]
  }

  function MapGroup(g: seq<Bit>, kMod: real): Point
    requires |g| > 0
  {
    var half := Half(|g|);
    if |g| == 1 then Point((Level(g) as real) * kMod, 0.0)
    else Point((Level(g[..half]) as real) * kMod, (Level(g[half..]) as real) * kMod)
  }

  /** Ideal points of one symbol. */
  ghost predicate Mapped(bits: seq<Bit>, points: seq<Point>, nb: nat, kMod: real)
    requires nb > 0
  {
    && |bits| == 52 * nb && |points| == 52
    && forall k | 0 <= k < 52 :: points[k] == MapGroup(Group(bits, nb, k), kMod)
  }

  method Map(bits: seq<Bit>, nb: nat, kMod: real) returns (points: seq<Point>)
    requires nb == 1 || (nb > 0 && nb % 2 == 0)
    requires |bits| == 52 * nb
    ensures Mapped(bits, points, nb, kMod)
  {
    hide Level, Group;
    points := [];
    for k := 0 to 52
      invariant |points| == k && forall i | 0 <= i < k :: points[i] == MapGroup(Group(bits, nb, i), kMod)
    {
      var g := Group(bits, nb, k);
      if nb == 1 {
        var i := AxisLevel(g);
        points := points + [Point((i as real) * kMod, 0.0)];
      } else {
        var half := nb / 2;
        var i := AxisLevel(g[..half]);
        var q := AxisLevel(g[half..]);
        points := points + [Point((i as real) * kMod, (q as real) * kMod)];
      }
    }
  }

  /** LLR of bit `b` of a received point. */
  function PointLlr(p: Point, w: real, nb: nat, kMod: real, b: nat): real
    requires b < nb && (nb == 1 || nb % 2 == 0)
  {
    var half := Half(nb);
    if b < half then AxisLlr(p.re, half, kMod, b) * w else AxisLlr(p.im, half, kMod, b - half) * w
  }

  /** LLRs of a received symbol, `nb` per point. */
  ghost predicate Demapped(points: seq<Point>, csi: seq<real>, llrs: seq<real>, nb: nat, kMod: real)
    requires nb == 1 || (nb > 0 && nb % 2 == 0)
  {
    && |points| == |csi| == 52 && |llrs| == 52 * nb
    && forall k, b | 0 <= k < 52 && 0 <= b < nb ::
         0 <= Place(k, nb, b) < |llrs| && llrs[Place(k, nb, b)] == PointLlr(points[k], csi[k], nb, kMod, b)
  }

  /** Position of bit `b` of point `k`. */
  function Place(k: nat, nb: nat, b: nat): int {
    k * nb + b
  }

  lemma {:induction false} PlaceInside(k: nat, nb: nat, b: nat)
    requires k < 52 && b < nb
    ensures 0 <= Place(k, nb, b) < 52 * nb
    ensures Place(k, nb, b) / nb == k && Place(k, nb, b) % nb == b
  {
    MulStrict(k, 52, nb);
    MulNonneg(k, nb);
    DivModUnique(k * nb + b, k, b, nb);
  }

  /** Every position belongs to some bit of some point. */
  lemma {:induction false} PlaceOf(i: nat, nb: nat) returns (k: nat, b: nat)
    requires nb > 0 && i < 52 * nb
    ensures k < 52 && b < nb && i == Place(k, nb, b)
  {
    k, b := i / nb, i % nb;
    assert i == k * nb + b;
    MulOrder(k, 52, nb);
  }

  method DemapLlrs(points: seq<Point>, csi: seq<real>, nb: nat, kMod: real) returns (llrs: seq<real>)
    requires nb == 1 || (nb > 0 && nb % 2 == 0)
    requires |points| == |csi| == 52
    ensures Demapped(points, csi, llrs, nb, kMod)
  {
    hide AxisLlr;
    llrs := [];
    var half := Half(nb);
    for k := 0 to 52
      invariant |llrs| == k * nb
      invariant forall j, b | 0 <= j < k && 0 <= b < nb ::
                  0 <= Place(j, nb, b) < |llrs| && llrs[Place(j, nb, b)] == PointLlr(points[j], csi[j], nb, kMod, b)
    {
      var add := OnePoint(points[k], csi[k], nb, kMod);
      ghost var before := llrs;
      llrs := llrs + add;
      forall j, b | 0 <= j < k + 1 && 0 <= b < nb
        ensures 0 <= Place(j, nb, b) < |llrs| && llrs[Place(j, nb, b)] == PointLlr(points[j], csi[j], nb, kMod, b)
      {
        if j == k {
          assert Place(j, nb, b) == |before| + b;
        } else {
          assert llrs[Place(j, nb, b)] == before[Place(j, nb, b)];
        }
      }
      assert (k + 1) * nb == k * nb + nb;
    }
  }

  method OnePoint(p: Point, w: real, nb: nat, kMod: real) returns (out: seq<real>)
    requires nb == 1 || (nb > 0 && nb % 2 == 0)
    ensures |out| == nb && forall b | 0 <= b < nb :: out[b] == PointLlr(p, w, nb, kMod, b)
  {
    hide AxisLlr;
    var half := Half(nb);
    var re := AxisLlrs(p.re, half, kMod);
    out := seq(half, b requires 0 <= b < half => re[b] * w);
    if nb > 1 {
      var im := AxisLlrs(p.im, half, kMod);
      out := out + seq(half, b requires 0 <= b < half => im[b] * w);
    }
  }

  /** A received point within half the level spacing of the ideal one on each used axis. */
  ghost predicate Near(p: Point, ideal: Point, nb: nat, kMod: real) {
    && -kMod < p.re - ideal.re < kMod
    && (nb > 1 ==> -kMod < p.im - ideal.im < kMod)
  }

  /** Demapping a received point gives every bit of its group the right sign. */
  lemma {:induction false} PointRight(p: Point, g: seq<Bit>, w: real, kMod: real, b: nat)
    requires |g| == 1 || (|g| > 0 && |g| % 2 == 0)
    requires kMod > 0.0 && w > 0.0 && b < |g| && Near(p, MapGroup(g, kMod), |g|, kMod)
    ensures Toward(PointLlr(p, w, |g|, kMod, b), g[b]) > 0.0
  {
    hide AxisLlr, Level;
    var half := Half(|g|);
    if |g| == 1 {
      AxisRight(p.re, g, kMod, b);
      SignKept(AxisLlr(p.re, half, kMod, b), w, g[b]);
    } else if b < half {
      AxisRight(p.re, g[..half], kMod, b);
      SignKept(AxisLlr(p.re, half, kMod, b), w, g[b]);
    } else {
      AxisRight(p.im, g[half..], kMod, b - half);
      SignKept(AxisLlr(p.im, half, kMod, b - half), w, g[b]);
    }
  }

  lemma {:induction false} SignKept(x: real, w: real, b: Bit)
    requires Toward(x, b) > 0.0 && w > 0.0
    ensures Toward(x * w, b) > 0.0
  {
    MulPositive(Toward(x, b), w);
    assert Toward(x * w, b) == Toward(x, b) * w;
  }

  lemma {:induction false} GroupBit(bits: seq<Bit>, nb: nat, k: nat, b: nat)
    requires nb > 0 && |bits| == 52 * nb && k < 52 && b < nb
    ensures 0 <= Place(k, nb, b) < |bits| && Group(bits, nb, k)[b] == bits[Place(k, nb, b)]
  {
    PlaceInside(k, nb, b);
  }

  lemma {:induction false} PlaceRight(bits: seq<Bit>, ideal: seq<Point>, points: seq<Point>, csi: seq<real>, llrs: seq<real>, nb: nat, kMod: real,
                   k: nat, b: nat)
    requires nb == 1 || (nb > 0 && nb % 2 == 0)
    requires kMod > 0.0 && Mapped(bits, ideal, nb, kMod) && Demapped(points, csi, llrs, nb, kMod)
    requires k < 52 && b < nb && csi[k] > 0.0 && Near(points[k], ideal[k], nb, kMod)
    ensures 0 <= Place(k, nb, b) < 52 * nb && Toward(llrs[Place(k, nb, b)], bits[Place(k, nb, b)]) > 0.0
  {
    hide PointLlr, MapGroup, Near, Place, Group;
    GroupBit(bits, nb, k, b);
    PointRight(points[k], Group(bits, nb, k), csi[k], kMod, b);
  }

  /** Demapping inverts mapping under any noise below half the level spacing and any positive
      channel weights: every LLR has the sign of the bit sent. */
  lemma {:induction false} DemapRight(bits: seq<Bit>, ideal: seq<Point>, points: seq<Point>, csi: seq<real>, llrs: seq<real>, nb: nat, kMod: real)
    requires nb == 1 || (nb > 0 && nb % 2 == 0)
    requires kMod > 0.0 && Mapped(bits, ideal, nb, kMod) && Demapped(points, csi, llrs, nb, kMod)
    requires forall k | 0 <= k < 52 :: csi[k] > 0.0 && Near(points[k], ideal[k], nb, kMod)
    ensures Agrees(llrs, bits)
  {
    hide PointLlr, MapGroup, Near, Place, Group;
    forall i | 0 <= i < |bits|
      ensures Toward(llrs[i], bits[i]) > 0.0
    {
      var k, b := PlaceOf(i, nb);
      PlaceRight(bits, ideal, points, csi, llrs, nb, kMod, k, b);
    }
  }

  /** LLR `i` of a demapped symbol. */
  function DemapAt(points: seq<Point>, csi: seq<real>, nb: nat, kMod: real, i: nat): real
    requires nb == 1 || (nb > 0 && nb % 2 == 0)
    requires |points| == |csi| == 52 && i < 52 * nb
  {
    PointLlr(points[PointOf(i, nb)], csi[PointOf(i, nb)], nb, kMod, BitOf(i, nb))
  }

  /** Which point, and which of its bits, position `i` belongs to. */
  function PointOf(i: nat, nb: nat): (k: nat)
    requires nb > 0 && i < 52 * nb
    ensures k < 52
  {
    PlaceBound(i, nb);
    i / nb
  }

  function BitOf(i: nat, nb: nat): (b: nat)
    requires nb > 0
    ensures b < nb
  {
    i % nb
  }

  lemma {:induction false} PlaceBound(i: nat, nb: nat)
    requires nb > 0 && i < 52 * nb
    ensures i / nb < 52
  {
    var k, b := PlaceOf(i, nb);
    PlaceInside(k, nb, b);
  }

  /** All LLRs of a received symbol in order. */
  function SymbolDemap(points: seq<Point>, csi: seq<real>, nb: nat, kMod: real): (llrs: seq<real>)
    requires nb == 1 || (nb > 0 && nb % 2 == 0)
    requires |points| == |csi| == 52
    ensures |llrs| == 52 * nb
  {
    seq(52 * nb, i requires 0 <= i < 52 * nb => DemapAt(points, csi, nb, kMod, i))
  }

  lemma {:induction false} DemapUnique(points: seq<Point>, csi: seq<real>, llrs: seq<real>, nb: nat, kMod: real)
    requires nb == 1 || (nb > 0 && nb % 2 == 0)
    requires |points| == |csi| == 52 && |llrs| == 52 * nb
    ensures Demapped(points, csi, llrs, nb, kMod) <==> llrs == SymbolDemap(points, csi, nb, kMod)
  {
    hide PointLlr, Place;
    if Demapped(points, csi, llrs, nb, kMod) {
      forall i | 0 <= i < 52 * nb
        ensures llrs[i] == SymbolDemap(points, csi, nb, kMod)[i]
      {
        var k, b := PlaceOf(i, nb);
        PlaceInside(k, nb, b);
      }
    }
    if llrs == SymbolDemap(points, csi, nb, kMod) {
      forall k, b | 0 <= k < 52 && 0 <= b < nb
        ensures 0 <= Place(k, nb, b) < |llrs| && llrs[Place(k, nb, b)] == PointLlr(points[k], csi[k], nb, kMod, b)
      {
        PlaceInside(k, nb, b);
      }
    }
  }
}

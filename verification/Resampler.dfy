/** Streaming rate conversion by two (crates/s2g-dsp/src/lib.rs). The filter taps are
    arbitrary. */
module Resampler {
  const NTAPS: nat := 47
  const KEEP_LIMIT: nat := 4096

  datatype Complex = Complex(re: real, im: real)
  {
    function Plus(z: Complex): Complex {
      Complex(re + z.re, im + z.im)
    }

    function Times(k: real): Complex {
      Complex(re * k, im * k)
    }
  }

  const ZERO: Complex := Complex(0.0, 0.0)

  /** Sample `i` of a stream that is zero before its start. */
  function At(x: seq<Complex>, i: int): Complex {
    if 0 <= i < |x| then x[i] else ZERO
  }

  /** Sample `i` of the stream with a zero stuffed after every sample. */
  function Stuffed(x: seq<Complex>, i: int): Complex {
    if i % 2 == 0 then At(x, i / 2) else ZERO
  }

  // ---- Convolution ----

  /** Sum over the first `k` taps at position `m` of the zero-stuffed stream. */
  function StuffedSum(taps: seq<real>, x: seq<Complex>, m: int, k: nat): Complex
    requires k <= |taps|
  {
    if k == 0 then ZERO else StuffedSum(taps, x, m, k - 1).Plus(Stuffed(x, m - (k - 1)).Times(taps[k - 1]))
  }

  /** Sum over the first `k` taps at position `m` of the stream. */
  function PlainSum(taps: seq<real>, x: seq<Complex>, m: int, k: nat): Complex
    requires k <= |taps|
  {
    if k == 0 then ZERO else PlainSum(taps, x, m, k - 1).Plus(At(x, m - (k - 1)).Times(taps[k - 1]))
  }

  /** Twice the convolution of the zero-stuffed stream, at the two positions of each input sample
      from `n` to `upTo`. */
  function Interpolated(taps: seq<real>, x: seq<Complex>, n: nat, upTo: nat): seq<Complex>
    requires n <= upTo
  {
    if n == upTo then []
    else Interpolated(taps, x, n, upTo - 1)
         + [StuffedSum(taps, x, 2 * (upTo - 1), |taps|).Times(2.0), StuffedSum(taps, x, 2 * (upTo - 1) + 1, |taps|).Times(2.0)]
  }

  /** The convolution at the even positions from `n` to `upTo`. */
  function Decimated(taps: seq<real>, x: seq<Complex>, n: nat, upTo: nat): seq<Complex>
    requires n <= upTo
  {
    if n == upTo then []
    else Decimated(taps, x, n, upTo - 1) + if (upTo - 1) % 2 == 0 then [PlainSum(taps, x, upTo - 1, |taps|)] else []
  }

  // ---- Splitting the stream ----

  /** Output for positions already past does not depend on what follows. */
  lemma {:induction false} StuffedSumPrefix(taps: seq<real>, x: seq<Complex>, y: seq<Complex>, m: nat, k: nat)
    requires k <= |taps| && m / 2 < |x| <= |y| && y[..|x|] == x
    ensures StuffedSum(taps, x, m, k) == StuffedSum(taps, y, m, k)
  {
    if k > 0 {
      StuffedSumPrefix(taps, x, y, m, k - 1);
      var i: int := m - (k - 1);
      if i % 2 == 0 && 0 <= i / 2 {
        assert y[i / 2] == y[..|x|][i / 2];
      }
    }
  }

  lemma {:induction false} PlainSumPrefix(taps: seq<real>, x: seq<Complex>, y: seq<Complex>, m: nat, k: nat)
    requires k <= |taps| && m < |x| <= |y| && y[..|x|] == x
    ensures PlainSum(taps, x, m, k) == PlainSum(taps, y, m, k)
  {
    if k > 0 {
      PlainSumPrefix(taps, x, y, m, k - 1);
      var i: int := m - (k - 1);
      if 0 <= i {
        assert y[i] == y[..|x|][i];
      }
    }
  }

  lemma {:induction false} InterpolatedPrefix(taps: seq<real>, x: seq<Complex>, y: seq<Complex>, n: nat, upTo: nat)
    requires n <= upTo <= |x| <= |y| && y[..|x|] == x
    ensures Interpolated(taps, x, n, upTo) == Interpolated(taps, y, n, upTo)
  {
    if n < upTo {
      InterpolatedPrefix(taps, x, y, n, upTo - 1);
      StuffedSumPrefix(taps, x, y, 2 * (upTo - 1), |taps|);
      StuffedSumPrefix(taps, x, y, 2 * (upTo - 1) + 1, |taps|);
    }
  }

  lemma {:induction false} DecimatedPrefix(taps: seq<real>, x: seq<Complex>, y: seq<Complex>, n: nat, upTo: nat)
    requires n <= upTo <= |x| <= |y| && y[..|x|] == x
    ensures Decimated(taps, x, n, upTo) == Decimated(taps, y, n, upTo)
  {
    if n < upTo {
      DecimatedPrefix(taps, x, y, n, upTo - 1);
      PlainSumPrefix(taps, x, y, upTo - 1, |taps|);
    }
  }

  lemma {:induction false} InterpolatedJoin(taps: seq<real>, x: seq<Complex>, n: nat, mid: nat, upTo: nat)
    requires n <= mid <= upTo
    ensures Interpolated(taps, x, n, mid) + Interpolated(taps, x, mid, upTo) == Interpolated(taps, x, n, upTo)
  {
    if mid < upTo {
      InterpolatedJoin(taps, x, n, mid, upTo - 1);
    }
  }

  lemma {:induction false} DecimatedJoin(taps: seq<real>, x: seq<Complex>, n: nat, mid: nat, upTo: nat)
    requires n <= mid <= upTo
    ensures Decimated(taps, x, n, mid) + Decimated(taps, x, mid, upTo) == Decimated(taps, x, n, upTo)
  {
    if mid < upTo {
      DecimatedJoin(taps, x, n, mid, upTo - 1);
    }
  }

  /** Two samples out for one in. */
  lemma {:induction false} InterpolatedLength(taps: seq<real>, x: seq<Complex>, n: nat, upTo: nat)
    requires n <= upTo
    ensures |Interpolated(taps, x, n, upTo)| == 2 * (upTo - n)
  {
    if n < upTo {
      InterpolatedLength(taps, x, n, upTo - 1);
    }
  }

  /** One sample out for two in, the odd one carried over. */
  lemma {:induction false} DecimatedLength(taps: seq<real>, x: seq<Complex>, upTo: nat)
    ensures |Decimated(taps, x, 0, upTo)| == (upTo + 1) / 2
  {
    if 0 < upTo {
      DecimatedLength(taps, x, upTo - 1);
    }
  }

  // ---- History ----

  /** The history holds the latest samples, at least as many as there are taps. */
  ghost predicate Latest(hist: seq<Complex>, x: seq<Complex>) {
    NTAPS <= |hist| && forall k | 0 <= k < |hist| :: hist[k] == At(x, |x| - |hist| + k)
  }

  lemma {:induction false} LatestPush(hist: seq<Complex>, x: seq<Complex>, v: Complex)
    requires Latest(hist, x)
    ensures Latest(hist + [v], x + [v])
  {
  }

  /** Dropping all but the last samples loses nothing that a filter still needs. */
  lemma {:induction false} LatestTrim(hist: seq<Complex>, x: seq<Complex>, keep: nat)
    requires Latest(hist, x) && NTAPS <= keep <= |hist|
    ensures Latest(hist[|hist| - keep..], x)
  {
  }

  lemma {:induction false} LatestStart(zeros: seq<Complex>)
    requires |zeros| == NTAPS && forall i | 0 <= i < NTAPS :: zeros[i] == ZERO
    ensures Latest(zeros, [])
  {
  }

  /** History after one more sample, trimmed when it has grown too long. */
  method Remember(hist: seq<Complex>, ghost x: seq<Complex>) returns (kept: seq<Complex>)
    requires Latest(hist, x) && |hist| <= KEEP_LIMIT + 1
    ensures Latest(kept, x) && |kept| <= KEEP_LIMIT
  {
    kept := hist;
    if |hist| > KEEP_LIMIT {
      LatestTrim(hist, x, NTAPS);
      kept := hist[|hist| - NTAPS..];
    }
  }

  // ---- Interpolator ----

  class HalfbandInterp2 {
    const taps: seq<real>
    var hist: seq<Complex>
    ghost var stream: seq<Complex>

    ghost predicate Valid()
      reads this
    {
      |taps| == NTAPS && Latest(hist, stream) && |hist| <= KEEP_LIMIT
    }

    constructor (taps: seq<real>)
      requires |taps| == NTAPS
      ensures Valid() && stream == [] && this.taps == taps
    {
      this.taps := taps;
      hist := seq(NTAPS, _ => ZERO);
      stream := [];
      LatestStart(seq(NTAPS, _ => ZERO));
    }

    /** One chunk: two output samples for each input sample. */
    method Process(input: seq<Complex>) returns (out: seq<Complex>)
      requires Valid()
      modifies this
      ensures Valid() && stream == old(stream) + input
      ensures out == Interpolated(taps, stream, |old(stream)|, |stream|)
    {
      hide Latest;
      out := [];
      ghost var from := |stream|;
      for i := 0 to |input|
        invariant Valid() && stream == old(stream) + input[..i]
        invariant out == Interpolated(taps, stream, from, |stream|)
      {
        ghost var before := stream;
        assert input[..i + 1] == input[..i] + [input[i]];
        var a, b := Push(input[i]);
        InterpolatedPrefix(taps, before, stream, from, |before|);
        out := out + [a.Times(2.0), b.Times(2.0)];
      }
      assert input[..|input|] == input;
    }

    /** One sample in, the sums at its two positions out. */
    method Push(v: Complex) returns (a: Complex, b: Complex)
      requires Valid()
      modifies this
      ensures Valid() && stream == old(stream) + [v]
      ensures a == StuffedSum(taps, stream, 2 * (|stream| - 1), |taps|)
      ensures b == StuffedSum(taps, stream, 2 * (|stream| - 1) + 1, |taps|)
    {
      hide Latest, StuffedSum;
      LatestPush(hist, stream, v);
      hist := hist + [v];
      stream := stream + [v];
      a := Phase(taps, hist, stream, 0);
      b := Phase(taps, hist, stream, 1);
      hist := Remember(hist, stream);
    }
  }

  lemma {:induction false} PlusNothing(z: Complex, k: real)
    ensures z.Plus(ZERO.Times(k)) == z
  {
  }

  /** Two more taps, the second of which meets a stuffed zero. */
  lemma {:induction false} TwoTaps(taps: seq<real>, x: seq<Complex>, n: int, phase: nat, q: nat)
    requires phase < 2 && phase + 2 * q < |taps|
    ensures var t := phase + 2 * q;
            StuffedSum(taps, x, 2 * n + phase, if t + 2 <= |taps| then t + 2 else |taps|)
            == StuffedSum(taps, x, 2 * n + phase, t).Plus(At(x, n - q).Times(taps[t]))
  {
    hide Complex.Plus, Complex.Times, At;
    var (m, t) := (2 * n + phase, phase + 2 * q);
    assert m - t == 2 * (n - q);
    assert StuffedSum(taps, x, m, t + 1) == StuffedSum(taps, x, m, t).Plus(Stuffed(x, m - t).Times(taps[t]));
    if t + 2 <= |taps| {
      assert m - (t + 1) == 2 * (n - q - 1) + 1;
      assert Stuffed(x, m - (t + 1)) == ZERO;
      PlusNothing(StuffedSum(taps, x, m, t + 1), taps[t + 1]);
      assert StuffedSum(taps, x, m, t + 2) == StuffedSum(taps, x, m, t + 1).Plus(Stuffed(x, m - (t + 1)).Times(taps[t + 1]));
    }
  }

  lemma {:induction false} NoTaps(taps: seq<real>, x: seq<Complex>, n: int, phase: nat)
    requires phase < 2 && phase <= |taps|
    ensures StuffedSum(taps, x, 2 * n + phase, phase) == ZERO
  {
  }

  /** Only taps of the same parity as the output position meet a sample that is not stuffed. */
  method Phase(taps: seq<real>, hist: seq<Complex>, ghost x: seq<Complex>, phase: nat) returns (acc: Complex)
    requires |taps| == NTAPS && Latest(hist, x) && |x| > 0 && phase < 2
    ensures acc == StuffedSum(taps, x, 2 * (|x| - 1) + phase, |taps|)
  {
    hide StuffedSum;
    ghost var n := |x| - 1;
    var at := 2 * (|hist| - 1) + phase;
    acc := ZERO;
    NoTaps(taps, x, n, phase);
    var tap := phase;
    ghost var q := 0;
    while tap < NTAPS
      invariant tap == phase + 2 * q && q <= 24
      invariant acc == StuffedSum(taps, x, 2 * n + phase, if tap < NTAPS then tap else NTAPS)
    {
      var j := (at - tap) / 2;
      assert j == |hist| - 1 - q && j - |hist| + |x| == n - q;
      TwoTaps(taps, x, n, phase, q);
      acc := acc.Plus(hist[j].Times(taps[tap]));
      tap := tap + 2;
      q := q + 1;
    }
  }

  // ---- Decimator ----

  class HalfbandDecim2 {
    const taps: seq<real>
    var hist: seq<Complex>
    var parity: nat
    ghost var stream: seq<Complex>

    ghost predicate Valid()
      reads this
    {
      |taps| == NTAPS && Latest(hist, stream) && |hist| <= KEEP_LIMIT && parity == |stream| % 2
    }

    constructor (taps: seq<real>)
      requires |taps| == NTAPS
      ensures Valid() && stream == [] && this.taps == taps
    {
      this.taps := taps;
      hist := seq(NTAPS, _ => ZERO);
      parity := 0;
      stream := [];
      LatestStart(seq(NTAPS, _ => ZERO));
    }

    /** One chunk: an output sample for every input sample at an even place of the stream. */
    method Process(input: seq<Complex>) returns (out: seq<Complex>)
      requires Valid()
      modifies this
      ensures Valid() && stream == old(stream) + input
      ensures out == Decimated(taps, stream, |old(stream)|, |stream|)
    {
      hide Latest;
      out := [];
      ghost var from := |stream|;
      for i := 0 to |input|
        invariant Valid() && stream == old(stream) + input[..i]
        invariant out == Decimated(taps, stream, from, |stream|)
      {
        ghost var before := stream;
        assert input[..i + 1] == input[..i] + [input[i]];
        var emit, y := Push(input[i]);
        DecimatedPrefix(taps, before, stream, from, |before|);
        if emit {
          out := out + [y];
        }
      }
      assert input[..|input|] == input;
    }

    /** One sample in, and out if its place is even. */
    method Push(v: Complex) returns (emit: bool, y: Complex)
      requires Valid()
      modifies this
      ensures Valid() && stream == old(stream) + [v]
      ensures emit == (|old(stream)| % 2 == 0)
      ensures emit ==> y == PlainSum(taps, stream, |stream| - 1, |taps|)
    {
      hide Latest, PlainSum;
      LatestPush(hist, stream, v);
      hist := hist + [v];
      stream := stream + [v];
      parity := 1 - parity;
      emit, y := parity == 1, ZERO;
      if emit {
        y := Latest47(taps, hist, stream);
      }
      hist := Remember(hist, stream);
    }
  }

  /** The convolution at the newest sample, zero taps skipped. */
  method Latest47(taps: seq<real>, hist: seq<Complex>, ghost x: seq<Complex>) returns (acc: Complex)
    requires |taps| == NTAPS && Latest(hist, x) && |x| > 0
    ensures acc == PlainSum(taps, x, |x| - 1, |taps|)
  {
    acc := ZERO;
    for k := 0 to NTAPS
      invariant acc == PlainSum(taps, x, |x| - 1, k)
    {
      assert hist[|hist| - 1 - k] == At(x, |x| - |hist| + (|hist| - 1 - k));
      if taps[k] != 0.0 && k < |hist| {
        acc := acc.Plus(hist[|hist| - 1 - k].Times(taps[k]));
      }
    }
  }

  // ---- Any split ----

  function Joined(chunks: seq<seq<Complex>>, n: nat): seq<Complex>
    requires n <= |chunks|
  {
    if n == 0 then [] else Joined(chunks, n - 1) + chunks[n - 1]
  }

  /** However the input is split into chunks, the interpolator emits exactly twice the convolution of
      the whole zero-stuffed stream. */
  method InterpolateAll(taps: seq<real>, chunks: seq<seq<Complex>>) returns (out: seq<Complex>)
    requires |taps| == NTAPS
    ensures out == Interpolated(taps, Joined(chunks, |chunks|), 0, |Joined(chunks, |chunks|)|)
    ensures |out| == 2 * |Joined(chunks, |chunks|)|
  {
    var f := new HalfbandInterp2(taps);
    out := [];
    for i := 0 to |chunks|
      invariant f.Valid() && fresh(f) && f.taps == taps && f.stream == Joined(chunks, i)
      invariant out == Interpolated(taps, f.stream, 0, |f.stream|)
    {
      ghost var before := f.stream;
      var more := f.Process(chunks[i]);
      InterpolatedPrefix(taps, before, f.stream, 0, |before|);
      InterpolatedJoin(taps, f.stream, 0, |before|, |f.stream|);
      out := out + more;
    }
    InterpolatedLength(taps, f.stream, 0, |f.stream|);
  }

  /** However the input is split into chunks, the decimator emits exactly the convolution at the even
      places of the whole stream. */
  method DecimateAll(taps: seq<real>, chunks: seq<seq<Complex>>) returns (out: seq<Complex>)
    requires |taps| == NTAPS
    ensures out == Decimated(taps, Joined(chunks, |chunks|), 0, |Joined(chunks, |chunks|)|)
    ensures |out| == (|Joined(chunks, |chunks|)| + 1) / 2
  {
    var f := new HalfbandDecim2(taps);
    out := [];
    for i := 0 to |chunks|
      invariant f.Valid() && fresh(f) && f.taps == taps && f.stream == Joined(chunks, i)
      invariant out == Decimated(taps, f.stream, 0, |f.stream|)
    {
      ghost var before := f.stream;
      var more := f.Process(chunks[i]);
      DecimatedPrefix(taps, before, f.stream, 0, |before|);
      DecimatedJoin(taps, f.stream, 0, |before|, |f.stream|);
      out := out + more;
    }
    DecimatedLength(taps, f.stream, |f.stream|);
  }

  // ---- Components ----

  /** The real or the imaginary parts of a stream. */
  function Parts(x: seq<Complex>, imaginary: bool): (r: seq<real>)
    ensures |r| == |x|
  {
    seq(|x|, i requires 0 <= i < |x| => if imaginary then x[i].im else x[i].re)
  }

  /** Sum of products of taps with every `every`-th place of the stuffed stream, or all of them. */
  function RealSum(taps: seq<real>, x: seq<real>, m: int, k: nat, stuffed: bool): real
    requires k <= |taps|
  {
    if k == 0 then 0.0
    else
      var i: int := m - (k - 1);
      var j := if stuffed then i / 2 else i;
      RealSum(taps, x, m, k - 1, stuffed) + taps[k - 1] * (if (!stuffed || i % 2 == 0) && 0 <= j < |x| then x[j] else 0.0)
  }

  lemma {:induction false} Component(z: Complex, w: Complex, k: real)
    ensures z.Plus(w.Times(k)).re == z.re + k * w.re && z.Plus(w.Times(k)).im == z.im + k * w.im
  {
  }

  /** Filtering complex samples filters their real and imaginary parts alike and apart. */
  lemma {:induction false} PartsConvolved(taps: seq<real>, x: seq<Complex>, m: int, k: nat)
    requires k <= |taps|
    ensures StuffedSum(taps, x, m, k) == Complex(RealSum(taps, Parts(x, false), m, k, true), RealSum(taps, Parts(x, true), m, k, true))
    ensures PlainSum(taps, x, m, k) == Complex(RealSum(taps, Parts(x, false), m, k, false), RealSum(taps, Parts(x, true), m, k, false))
  {
    hide Complex.Plus, Complex.Times;
    if k > 0 {
      PartsConvolved(taps, x, m, k - 1);
      Component(StuffedSum(taps, x, m, k - 1), Stuffed(x, m - (k - 1)), taps[k - 1]);
      Component(PlainSum(taps, x, m, k - 1), At(x, m - (k - 1)), taps[k - 1]);
    }
  }
}

/** Binary convolutional code: K = 7 encoder, puncturing and the soft Viterbi
    decoder (crates/s2g-phy/src/bcc.rs). Log-likelihood ratios are exact reals,
    and a path metric that has not been reached is `Unreachable` in place of the
    source's large negative sentinel. */
module Bcc {
  import opened Params

  /** The six previous input bits, the newest in the most significant place. */
  type State = s: nat | s < 64

  /** The seven bits under the generator taps: the current input, then the state. */
  function Window(x: Bit, s: State): (v: nat)
    ensures v < 128
  {
    (if x then 64 else 0) + s
  }

  function Xor(a: Bit, b: Bit): Bit {
    a != b
  }

  predicate Odd(v: nat) {
    v % 2 == 1
  }

  /** Parity of the window under generator 133 (octal): taps 6, 4, 3, 1, 0. */
  function OutA(x: Bit, s: State): Bit {
    var v := Window(x, s);
    Xor(Odd(v / 64), Xor(Odd(v / 16), Xor(Odd(v / 8), Xor(Odd(v / 2), Odd(v)))))
  }

  /** Parity of the window under generator 171 (octal): taps 6, 5, 4, 3, 0. */
  function OutB(x: Bit, s: State): Bit {
    var v := Window(x, s);
    Xor(Odd(v / 64), Xor(Odd(v / 32), Xor(Odd(v / 16), Xor(Odd(v / 8), Odd(v)))))
  }

  function Advance(x: Bit, s: State): State {
    Window(x, s) / 2
  }

  /** Setting the current input leaves the parity of every older tap alone. */
  lemma {:induction false} OlderTaps(s: State)
    ensures (64 + s) / 64 == 1 && s / 64 == 0
    ensures Odd((64 + s) / 32) == Odd(s / 32)
    ensures Odd((64 + s) / 16) == Odd(s / 16)
    ensures Odd((64 + s) / 8) == Odd(s / 8)
    ensures Odd((64 + s) / 2) == Odd(s / 2)
    ensures Odd(64 + s) == Odd(s)
  {
    var v: nat := s;
    assert (64 + v) / 32 == 2 + v / 32;
    assert (64 + v) / 16 == 4 + v / 16;
    assert (64 + v) / 8 == 8 + v / 8;
    assert (64 + v) / 2 == 32 + v / 2;
  }

  /** Both generators tap the current input, so either output reveals it. */
  lemma {:induction false} OutputsRevealInput(s: State)
    ensures OutA(true, s) != OutA(false, s)
    ensures OutB(true, s) != OutB(false, s)
  {
    OlderTaps(s);
  }

  // ---- Puncturing ----

  // The keep flags [A0, B0, A1, B1, ...] of one period, with step k at place k mod period:
  // 1/2 keeps 11; 2/3 keeps 11 10; 3/4 keeps 11 10 01; 5/6 keeps 11 10 01 10 01.

  predicate KeepA(rate: CodeRate, k: nat) {
    match rate
    case R12 => true
    case R23 => true
    case R34 => k % 3 != 2
    case R56 => k % 5 != 2 && k % 5 != 4
  }

  predicate KeepB(rate: CodeRate, k: nat) {
    match rate
    case R12 => true
    case R23 => k % 2 == 0
    case R34 => k % 3 != 1
    case R56 => k % 5 != 1 && k % 5 != 3
  }

  /** No puncturing step steals both coded bits. */
  lemma {:induction false} SomeBitKept(rate: CodeRate, k: nat)
    ensures KeepA(rate, k) || KeepB(rate, k)
  {
  }

  function Pick(keep: bool, b: Bit): seq<Bit> {
    if keep then [b] else []
  }

  // ---- The code, step by step ----

  /** Encoder state after the first `t` input bits. */
  function StateAfter(bits: seq<Bit>, t: nat): State
    requires t <= |bits|
  {
    if t == 0 then 0 else Advance(bits[t - 1], StateAfter(bits, t - 1))
  }

  /** The bits one trellis step transmits. */
  function StepBits(rate: CodeRate, k: nat, x: Bit, s: State): seq<Bit> {
    Pick(KeepA(rate, k), OutA(x, s)) + Pick(KeepB(rate, k), OutB(x, s))
  }

  /** Coded bits transmitted for the first `t` input bits. */
  function CodedUpTo(bits: seq<Bit>, rate: CodeRate, t: nat): seq<Bit>
    requires t <= |bits|
  {
    if t == 0 then []
    else
      CodedUpTo(bits, rate, t - 1) + StepBits(rate, t - 1, bits[t - 1], StateAfter(bits, t - 1))
  }

  function Coded(bits: seq<Bit>, rate: CodeRate): seq<Bit> {
    CodedUpTo(bits, rate, |bits|)
  }

  /** Number of coded bits kept in the first `t` trellis steps. */
  function KeptBefore(rate: CodeRate, t: nat): nat {
    if t == 0 then 0
    else KeptBefore(rate, t - 1)
         + (if KeepA(rate, t - 1) then 1 else 0) + (if KeepB(rate, t - 1) then 1 else 0)
  }

  lemma {:induction false} CodedLength(bits: seq<Bit>, rate: CodeRate, t: nat)
    requires t <= |bits|
    ensures |CodedUpTo(bits, rate, t)| == KeptBefore(rate, t)
  {
    if t > 0 {
      CodedLength(bits, rate, t - 1);
    }
  }

  lemma {:induction false} KeptStep(rate: CodeRate, t: nat)
    ensures KeptBefore(rate, t + 1)
            == KeptBefore(rate, t) + (if KeepA(rate, t) then 1 else 0) + (if KeepB(rate, t) then 1 else 0)
    ensures KeptBefore(rate, 0) == 0
  {
  }

  /** Which bits are kept depends on the place in the period. */
  lemma {:induction false} KeptInPeriod(rate: CodeRate, n: nat, i: nat)
    requires n % rate.Num() == 0 && i < rate.Num()
    ensures KeepA(rate, n + i) == KeepA(rate, i) && KeepB(rate, n + i) == KeepB(rate, i)
  {
  }

  /** One puncture period takes `num` inputs and keeps `den` coded bits. */
  lemma {:induction false} KeptPerPeriod(rate: CodeRate, n: nat)
    requires n % rate.Num() == 0
    ensures KeptBefore(rate, n + rate.Num()) == KeptBefore(rate, n) + rate.Den()
  {
    hide KeptBefore;
    KeptFrom(rate, n, 0);
    match rate
    case R12 => KeptFrom(rate, n, 1);
    case R23 => KeptFrom(rate, n, 2);
    case R34 => KeptFrom(rate, n, 3);
    case R56 => KeptFrom(rate, n, 5);
  }

  /** Bits kept in the first `i` steps of a period. */
  function KeptWithin(rate: CodeRate, i: nat): nat {
    if i == 0 then 0
    else KeptWithin(rate, i - 1) + (if KeepA(rate, i - 1) then 1 else 0) + (if KeepB(rate, i - 1) then 1 else 0)
  }

  lemma {:induction false} KeptFrom(rate: CodeRate, n: nat, i: nat)
    requires n % rate.Num() == 0 && i <= rate.Num()
    ensures KeptBefore(rate, n + i) == KeptBefore(rate, n) + KeptWithin(rate, i)
    ensures KeptWithin(rate, 0) == 0 && KeptWithin(R12, 1) == 2 && KeptWithin(R23, 2) == 3 && KeptWithin(R34, 3) == 4
    ensures KeptWithin(R56, 5) == 6
  {
    hide KeptBefore;
    WholePeriods();
    if i > 0 {
      hide KeepA, KeepB;
      KeptFrom(rate, n, i - 1);
      KeptStep(rate, n + (i - 1));
      KeptInPeriod(rate, n, i - 1);
    }
  }

  lemma {:induction false} WholePeriods()
    ensures KeptWithin(R12, 1) == 2 && KeptWithin(R23, 2) == 3 && KeptWithin(R34, 3) == 4 && KeptWithin(R56, 5) == 6
  {
    assert KeptWithin(R56, 3) == 4;
  }

  /** `punctured_len`: whole puncture periods of `num` inputs send `den` bits each. */
  lemma {:induction false} PuncturedLength(rate: CodeRate, periods: nat)
    ensures KeptBefore(rate, rate.Num() * periods) == rate.Den() * periods
  {
    hide KeptBefore;
    if periods == 0 {
      KeptStep(rate, 0);
    } else {
      PuncturedLength(rate, periods - 1);
      PeriodArithmetic(rate, periods);
      KeptPerPeriod(rate, rate.Num() * (periods - 1));
    }
  }

  lemma {:induction false} PeriodArithmetic(rate: CodeRate, periods: nat)
    requires periods > 0
    ensures rate.Num() * (periods - 1) >= 0 && (rate.Num() * (periods - 1)) % rate.Num() == 0
    ensures rate.Num() * periods == rate.Num() * (periods - 1) + rate.Num()
    ensures rate.Den() * periods == rate.Den() * (periods - 1) + rate.Den()
  {
    match rate case R12 => case R23 => case R34 => case R56 =>
  }

  /** Rate-1/2 encoder: a shift register driven over the input bits. */
  method EncodeR12(bits: seq<Bit>) returns (out: seq<Bit>)
    ensures |out| == 2 * |bits|
    ensures forall k | 0 <= k < |bits| ::
              out[2 * k] == OutA(bits[k], StateAfter(bits, k)) && out[2 * k + 1] == OutB(bits[k], StateAfter(bits, k))
  {
    hide OutA, OutB, Window;
    out := [];
    var sh: State := 0;
    for i := 0 to |bits|
      invariant sh == StateAfter(bits, i)
      invariant |out| == 2 * i
      invariant forall k | 0 <= k < i ::
                  out[2 * k] == OutA(bits[k], StateAfter(bits, k)) && out[2 * k + 1] == OutB(bits[k], StateAfter(bits, k))
    {
      var x := bits[i];
      out := out + [OutA(x, sh)];
      out := out + [OutB(x, sh)];
      sh := Advance(x, sh);
    }
  }

  /** Encode, then drop the stolen bits. */
  method Encode(bits: seq<Bit>, rate: CodeRate) returns (out: seq<Bit>)
    ensures out == Coded(bits, rate)
  {
    hide OutA, OutB, KeepA, KeepB, Advance, StateAfter, CodedUpTo, Pick;
    var mother := EncodeR12(bits);
    out := [];
    CodedStart(bits, rate);
    for k := 0 to |bits|
      invariant out == CodedUpTo(bits, rate, k)
    {
      CodedNext(bits, rate, k);
      AppendPicks(out, KeepA(rate, k), mother[2 * k], KeepB(rate, k), mother[2 * k + 1]);
      if KeepA(rate, k) {
        out := out + [mother[2 * k]];
      }
      if KeepB(rate, k) {
        out := out + [mother[2 * k + 1]];
      }
    }
  }

  lemma {:induction false} CodedStart(bits: seq<Bit>, rate: CodeRate)
    ensures CodedUpTo(bits, rate, 0) == []
  {
  }

  lemma {:induction false} CodedNext(bits: seq<Bit>, rate: CodeRate, k: nat)
    requires k < |bits|
    ensures CodedUpTo(bits, rate, k + 1)
            == CodedUpTo(bits, rate, k) + (Pick(KeepA(rate, k), OutA(bits[k], StateAfter(bits, k)))
                                           + Pick(KeepB(rate, k), OutB(bits[k], StateAfter(bits, k))))
  {
  }

  lemma {:induction false} AppendPicks(out: seq<Bit>, p: bool, a: Bit, q: bool, b: Bit)
    ensures (if q then (if p then out + [a] else out) + [b] else if p then out + [a] else out)
            == out + (Pick(p, a) + Pick(q, b))
  {
  }

  // ---- Injectivity ----

  lemma {:induction false} PrefixState(x: seq<Bit>, y: seq<Bit>, t: nat)
    requires t <= |x| && t <= |y|
    requires forall i | 0 <= i < t :: x[i] == y[i]
    ensures StateAfter(x, t) == StateAfter(y, t)
  {
    if t > 0 {
      PrefixState(x, y, t - 1);
    }
  }

  lemma {:induction false} StepInjective(rate: CodeRate, k: nat, x: Bit, y: Bit, s: State)
    requires StepBits(rate, k, x, s) == StepBits(rate, k, y, s)
    ensures x == y
  {
    SomeBitKept(rate, k);
    OutputsRevealInput(s);
    assert StepBits(rate, k, x, s)[0] == StepBits(rate, k, y, s)[0];
  }

  /** One more trellis step splits off the end of the coded bits. */
  lemma {:induction false} CodedSplit(x: seq<Bit>, y: seq<Bit>, rate: CodeRate, t: nat)
    requires t < |x| && t < |y|
    requires CodedUpTo(x, rate, t + 1) == CodedUpTo(y, rate, t + 1)
    ensures CodedUpTo(x, rate, t) == CodedUpTo(y, rate, t)
    ensures StepBits(rate, t, x[t], StateAfter(x, t)) == StepBits(rate, t, y[t], StateAfter(y, t))
  {
    CodedLength(x, rate, t);
    CodedLength(y, rate, t);
    SplitEqual(CodedUpTo(x, rate, t), StepBits(rate, t, x[t], StateAfter(x, t)),
               CodedUpTo(y, rate, t), StepBits(rate, t, y[t], StateAfter(y, t)));
  }

  /** The punctured code is injective: the coded bits of `t` steps determine the inputs. */
  lemma {:induction false} CodeInjective(x: seq<Bit>, y: seq<Bit>, rate: CodeRate, t: nat)
    requires t <= |x| && t <= |y|
    requires CodedUpTo(x, rate, t) == CodedUpTo(y, rate, t)
    ensures forall i | 0 <= i < t :: x[i] == y[i]
  {
    hide *;
    if t > 0 {
      CodedSplit(x, y, rate, t - 1);
      CodeInjective(x, y, rate, t - 1);
      PrefixState(x, y, t - 1);
      StepInjective(rate, t - 1, x[t - 1], y[t - 1], StateAfter(x, t - 1));
    }
  }

  lemma {:induction false} SplitEqual<T>(a: seq<T>, b: seq<T>, c: seq<T>, d: seq<T>)
    requires a + b == c + d && |a| == |c|
    ensures a == c && b == d
  {
    assert (a + b)[..|a|] == a && (c + d)[..|c|] == c;
    assert (a + b)[|a|..] == b && (c + d)[|c|..] == d;
  }
}

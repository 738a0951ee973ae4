/** The decoder returns a best terminated path, and inverts the encoder whenever every
    received LLR has the sign of the transmitted bit. */
module ViterbiProofs {
  import opened Params
  import opened Bcc
  import opened Llr
  import opened Viterbi

  // ---- Scores of input sequences ----

  /** Sum of the branch metrics along the first `t` steps of `bits`. */
  function ScoreAfter(bits: seq<Bit>, pairs: seq<Pair>, t: nat): real
    requires t <= |bits| && t <= |pairs|
  {
    if t == 0 then 0.0
    else ScoreAfter(bits, pairs, t - 1) + Branch(pairs[t - 1], bits[t - 1], StateAfter(bits, t - 1))
  }

  /** Correlation of received LLRs with a sequence of coded bits: the quantity to maximise. */
  function Correlation(code: seq<Bit>, llrs: seq<real>): real {
    if |code| == 0 then 0.0
    else
      var n := |code| - 1;
      Correlation(code[..n], llrs) + Toward(LlrAt(llrs, n), code[n])
  }

  lemma {:induction false} CorrelationAppend(code: seq<Bit>, keep: bool, b: Bit, llrs: seq<real>)
    ensures Correlation(code + Pick(keep, b), llrs)
            == Correlation(code, llrs) + Toward(if keep then LlrAt(llrs, |code|) else 0.0, b)
  {
    if keep {
      assert (code + [b])[..|code|] == code;
    } else {
      assert code + Pick(keep, b) == code;
    }
  }

  /** The bits of one trellis step add its branch metric to the correlation. */
  lemma {:induction false} CorrelationStep(code: seq<Bit>, rate: CodeRate, k: nat, x: Bit, s: State, llrs: seq<real>)
    requires |code| == KeptBefore(rate, k)
    ensures Correlation(code + StepBits(rate, k, x, s), llrs)
            == Correlation(code, llrs) + Branch(PairAt(llrs, rate, k), x, s)
  {
    hide OutA, OutB, KeepA, KeepB, KeptBefore, Correlation, LlrAt;
    var (pa, pb) := (Pick(KeepA(rate, k), OutA(x, s)), Pick(KeepB(rate, k), OutB(x, s)));
    CorrelationAppend(code, KeepA(rate, k), OutA(x, s), llrs);
    CorrelationAppend(code + pa, KeepB(rate, k), OutB(x, s), llrs);
    assert code + (pa + pb) == (code + pa) + pb;
  }

  /** The trellis score of an input is the correlation of its punctured code bits. */
  lemma {:induction false} ScoreIsCorrelation(bits: seq<Bit>, llrs: seq<real>, rate: CodeRate, t: nat)
    requires t <= |bits|
    ensures ScoreAfter(bits, Depuncture(llrs, rate, |bits|), t) == Correlation(CodedUpTo(bits, rate, t), llrs)
  {
    hide Branch, StepBits, PairAt, Correlation, StateAfter;
    if t == 0 {
      EmptyCorrelation(llrs);
    } else {
      ScoreIsCorrelation(bits, llrs, rate, t - 1);
      CodedLength(bits, rate, t - 1);
      CorrelationStep(CodedUpTo(bits, rate, t - 1), rate, t - 1, bits[t - 1], StateAfter(bits, t - 1), llrs);
    }
  }

  lemma {:induction false} EmptyCorrelation(llrs: seq<real>)
    ensures Correlation([], llrs) == 0.0
  {
  }

  // ---- One add-compare-select step ----

  lemma {:induction false} BranchEnds(x: Bit, s: State)
    ensures InputOf(Advance(x, s)) == x
    ensures Predecessor(Advance(x, s), s % 2 == 1) == s
  {
  }

  /** No branch into a state is better than the one selected. */
  lemma {:induction false} BestDominates(metric: seq<Metric>, p: Pair, x: Bit, s: State)
    requires |metric| == 64 && metric[s].Reached?
    ensures var b := Best(metric, p, Advance(x, s)).0;
            b.Reached? && metric[s].v + Branch(p, x, s) <= b.v
  {
    hide Branch;
    BranchEnds(x, s);
  }

  /** The selected metric is attained by the recorded predecessor. */
  lemma {:induction false} BestAttained(metric: seq<Metric>, p: Pair, ns: State)
    requires |metric| == 64 && Best(metric, p, ns).0.Reached?
    ensures var (m, oldest) := Best(metric, p, ns);
            var s := Predecessor(ns, oldest);
            metric[s].Reached? && m.v == metric[s].v + Branch(p, InputOf(ns), s)
  {
    hide Branch;
  }

  // ---- Whole runs ----

  /** Every input sequence is bounded by the metric of the state it ends in. */
  lemma {:induction false} MetricBounds(pairs: seq<Pair>, x: seq<Bit>, t: nat)
    requires t <= |pairs| && t <= |x|
    ensures var m := MetricsAt(pairs, t)[StateAfter(x, t)];
            m.Reached? && ScoreAfter(x, pairs, t) <= m.v
  {
    hide Best, Branch, Advance;
    if t > 0 {
      MetricBounds(pairs, x, t - 1);
      BestDominates(MetricsAt(pairs, t - 1), pairs[t - 1], x[t - 1], StateAfter(x, t - 1));
    }
  }

  lemma {:induction false} PrefixScore(x: seq<Bit>, y: seq<Bit>, pairs: seq<Pair>, t: nat)
    requires t <= |x| && t <= |y| && t <= |pairs|
    requires forall i | 0 <= i < t :: x[i] == y[i]
    ensures ScoreAfter(x, pairs, t) == ScoreAfter(y, pairs, t)
    ensures StateAfter(x, t) == StateAfter(y, t)
  {
    hide Branch;
    PrefixState(x, y, t);
    if t > 0 {
      PrefixState(x, y, t - 1);
      PrefixScore(x, y, pairs, t - 1);
    }
  }

  /** The survivor of a reached state ends in that state and attains its metric. */
  lemma {:induction false} SurvivorAttains(pairs: seq<Pair>, t: nat, state: State)
    requires t <= |pairs| && MetricsAt(pairs, t)[state].Reached?
    ensures StateAfter(Survivor(pairs, t, state), t) == state
    ensures ScoreAfter(Survivor(pairs, t, state), pairs, t) == MetricsAt(pairs, t)[state].v
  {
    hide Best, Branch, Advance;
    if t > 0 {
      var prev := Predecessor(state, DecisionAt(pairs, t - 1, state));
      BestAttained(MetricsAt(pairs, t - 1), pairs[t - 1], state);
      SurvivorAttains(pairs, t - 1, prev);
      PrefixScore(Survivor(pairs, t - 1, prev), Survivor(pairs, t, state), pairs, t - 1);
    }
  }

  /** Viterbi optimality: among all terminated input sequences of length `n`, the decoder returns
      one whose coded bits correlate best with the received LLRs. */
  lemma {:induction false} DecodeOptimal(llrs: seq<real>, rate: CodeRate, n: nat, x: seq<Bit>)
    requires |x| == n && StateAfter(x, n) == 0
    ensures StateAfter(Decode(llrs, rate, n), n) == 0
    ensures Correlation(Coded(x, rate), llrs) <= Correlation(Coded(Decode(llrs, rate, n), rate), llrs)
  {
    hide StateAfter, MetricsAt, ScoreAfter, Survivor, Correlation, CodedUpTo, Depuncture;
    var pairs := Depuncture(llrs, rate, n);
    var y := Decode(llrs, rate, n);
    MetricBounds(pairs, x, n);
    SurvivorAttains(pairs, n, 0);
    ScoreIsCorrelation(x, llrs, rate, n);
    ScoreIsCorrelation(y, llrs, rate, n);
  }

  /** Whatever was received, the decoded sequence is a terminated one. */
  lemma {:induction false} DecodeTerminated(llrs: seq<real>, rate: CodeRate, n: nat)
    ensures StateAfter(Decode(llrs, rate, n), n) == 0
  {
    var zeros := seq(n, _ => false);
    ZerosHalve(zeros, 0, n);
    DecodeOptimal(llrs, rate, n, zeros);
  }

  // ---- The decoder inverts the encoder ----

  /** Agreeing LLRs correlate strictly better with the code sent than with any other sequence. */
  lemma {:induction false} AgreementWins(code: seq<Bit>, other: seq<Bit>, llrs: seq<real>)
    requires |code| == |other| <= |llrs|
    requires forall i | 0 <= i < |code| :: Toward(llrs[i], code[i]) > 0.0
    ensures Correlation(other, llrs) <= Correlation(code, llrs)
    ensures Correlation(other, llrs) == Correlation(code, llrs) ==> other == code
  {
    if |code| > 0 {
      var n := |code| - 1;
      AgreementWins(code[..n], other[..n], llrs);
      assert code == code[..n] + [code[n]] && other == other[..n] + [other[n]];
    }
  }

  /** Viterbi inverts the encoder at every rate, on every terminated input and all agreeing LLRs. */
  lemma {:induction false} DecodeInverts(bits: seq<Bit>, rate: CodeRate, llrs: seq<real>)
    requires StateAfter(bits, |bits|) == 0
    requires Agrees(llrs, Coded(bits, rate))
    ensures Decode(llrs, rate, |bits|) == bits
  {
    hide StateAfter, MetricsAt, Survivor, Correlation, CodedUpTo, Decode;
    var n := |bits|;
    var y := Decode(llrs, rate, n);
    DecodeOptimal(llrs, rate, n, bits);
    CodedLength(bits, rate, n);
    CodedLength(y, rate, n);
    AgreementWins(Coded(bits, rate), Coded(y, rate), llrs);
    CodeInjective(bits, y, rate, n);
  }

  lemma {:induction false} ZerosHalve(bits: seq<Bit>, from: nat, t: nat)
    requires from <= t <= |bits|
    requires forall i | from <= i < t :: !bits[i]
    ensures from == 0 || from + 6 <= t ==> StateAfter(bits, t) == 0
    ensures from + 5 == t ==> StateAfter(bits, t) < 2
    ensures from + 4 == t ==> StateAfter(bits, t) < 4
    ensures from + 3 == t ==> StateAfter(bits, t) < 8
    ensures from + 2 == t ==> StateAfter(bits, t) < 16
    ensures from + 1 == t ==> StateAfter(bits, t) < 32
  {
    if from < t {
      ZerosHalve(bits, from, t - 1);
    }
  }

  /** Six zero tail bits return the encoder to state zero. */
  lemma {:induction false} TailTerminates(bits: seq<Bit>)
    ensures StateAfter(bits + seq(N_TAIL, _ => false), |bits| + N_TAIL) == 0
  {
    ZerosHalve(bits + seq(N_TAIL, _ => false), |bits|, |bits| + N_TAIL);
  }
}

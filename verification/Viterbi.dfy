/** The soft-decision Viterbi decoder of crates/s2g-phy/src/bcc.rs: the loops
    over mutable arrays, the recursion they compute, and its optimality. */
module Viterbi {
  import opened Params
  import opened Words
  import opened Bcc
  import opened Llr

  /** A path metric; `Unreachable` stands for the source's sentinel. */
  datatype Metric = Unreachable | Reached(v: real)
  {
    /** The comparison `this > other`. */
    predicate Beats(other: Metric) {
      Reached? && (other.Unreachable? || v > other.v)
    }
  }

  /** The depunctured LLRs (for A and for B) of one trellis step. */
  type Pair = (real, real)

  // ---- What the decoder computes ----

  function LlrAt(llrs: seq<real>, i: nat): real {
    if i < |llrs| then llrs[i] else 0.0
  }

  /** Stolen positions and positions past the end of the input carry no information. */
  function PairAt(llrs: seq<real>, rate: CodeRate, k: nat): Pair {
    var i := KeptBefore(rate, k);
    var j := if KeepA(rate, k) then i + 1 else i;
    (if KeepA(rate, k) then LlrAt(llrs, i) else 0.0,
     if KeepB(rate, k) then LlrAt(llrs, j) else 0.0)
  }

  function Depuncture(llrs: seq<real>, rate: CodeRate, n: nat): (pairs: seq<Pair>)
    ensures |pairs| == n
  {
    seq(n, k requires 0 <= k < n => PairAt(llrs, rate, k))
  }

  /** Branch metric: correlation of the LLR pair with the two branch outputs. */
  function Branch(p: Pair, x: Bit, s: State): real {
    Toward(p.0, OutA(x, s)) + Toward(p.1, OutB(x, s))
  }

  /** Metric of arriving over input `x` from a state with metric `m`. */
  function Extend(m: Metric, p: Pair, x: Bit, s: State): Metric {
    match m
    case Unreachable => Unreachable
    case Reached(v) => Reached(v + Branch(p, x, s))
  }

  /** The input that leads into state `ns`, and its predecessor with the given oldest bit. */
  function InputOf(ns: State): Bit {
    ns >= 32
  }

  function Predecessor(ns: State, oldest: bool): (s: State)
    ensures Advance(InputOf(ns), s) == ns
  {
    var s := 2 * (ns % 32) + (if oldest then 1 else 0);
    s
  }

  /** The best way into `ns` among predecessors below `done`, and the oldest bit of its origin;
      a tie keeps the predecessor visited first. */
  function BestBelow(metric: seq<Metric>, p: Pair, ns: State, done: nat): (r: (Metric, bool))
    requires |metric| == 64
  {
    var x := InputOf(ns);
    var (s0, s1) := (Predecessor(ns, false), Predecessor(ns, true));
    var m0 := if s0 < done then Extend(metric[s0], p, x, s0) else Unreachable;
    var m1 := if s1 < done then Extend(metric[s1], p, x, s1) else Unreachable;
    if m1.Beats(m0) then (m1, true) else (m0, false)
  }

  /** Visiting state `s` only affects the state its branch leads into. */
  lemma {:induction false} BestBelowNext(metric: seq<Metric>, p: Pair, ns: State, s: State)
    requires |metric| == 64
    ensures var before := BestBelow(metric, p, ns, s);
            var cand := Extend(metric[s], p, InputOf(ns), s);
            BestBelow(metric, p, ns, s + 1)
            == if Advance(InputOf(ns), s) == ns && cand.Beats(before.0) then (cand, s % 2 == 1) else before
  {
    hide Extend;
  }

  function Best(metric: seq<Metric>, p: Pair, ns: State): (Metric, bool)
    requires |metric| == 64
  {
    BestBelow(metric, p, ns, 64)
  }

  /** Path metrics of the 64 states after `t` trellis steps. */
  function MetricsAt(pairs: seq<Pair>, t: nat): (m: seq<Metric>)
    requires t <= |pairs|
    ensures |m| == 64
  {
    if t == 0 then seq(64, s => if s == 0 then Reached(0.0) else Unreachable)
    else
      var prev := MetricsAt(pairs, t - 1);
      seq(64, ns requires 0 <= ns < 64 => Best(prev, pairs[t - 1], ns).0)
  }

  /** The survivor decision of state `ns` at step `t`: the oldest bit of its origin. */
  function DecisionAt(pairs: seq<Pair>, t: nat, ns: State): bool
    requires t < |pairs|
  {
    Best(MetricsAt(pairs, t), pairs[t], ns).1
  }

  /** The input sequence of the survivor that ends in `state` after `t` steps. */
  function Survivor(pairs: seq<Pair>, t: nat, state: State): (bits: seq<Bit>)
    requires t <= |pairs|
    ensures |bits| == t
  {
    if t == 0 then []
    else
      var prev := Predecessor(state, DecisionAt(pairs, t - 1, state));
      Survivor(pairs, t - 1, prev) + [InputOf(state)]
  }

  /** Decoded bits: the survivor of state zero. */
  function Decode(llrs: seq<real>, rate: CodeRate, n: nat): (bits: seq<Bit>)
    ensures |bits| == n
  {
    Survivor(Depuncture(llrs, rate, n), n, 0)
  }

  // ---- The decoder ----

  method ViterbiDecode(llrs: seq<real>, rate: CodeRate, n: nat) returns (out: seq<Bit>)
    ensures out == Decode(llrs, rate, n)
  {
    hide GetBit, Best, Depuncture, Pow2;
    var pairs := DepunctureInto(llrs, rate, n);
    var metric := new Metric[64](s => if s == 0 then Reached(0.0) else Unreachable);
    var decisions := new nat[n](_ => 0);
    assert metric[..] == MetricsAt(pairs, 0);
    for step := 0 to n
      invariant metric.Length == 64 && metric[..] == MetricsAt(pairs, step)
      invariant forall k, ns: State | 0 <= k < step :: GetBit(decisions[k], ns) == DecisionAt(pairs, k, ns)
      invariant forall k | 0 <= k < step :: decisions[k] < Pow2(64)
    {
      var next, dec := Step(metric, pairs[step]);
      metric := next;
      decisions[step] := dec;
      assert metric[..] == MetricsAt(pairs, step + 1);
    }
    out := Traceback(pairs, decisions);
  }

  /** Walk the LLRs once, leaving a zero where a coded bit was stolen. */
  method DepunctureInto(llrs: seq<real>, rate: CodeRate, n: nat) returns (pairs: seq<Pair>)
    ensures pairs == Depuncture(llrs, rate, n)
  {
    pairs := [];
    var idx := 0;
    for k := 0 to n
      invariant idx == KeptBefore(rate, k)
      invariant |pairs| == k
      invariant forall i | 0 <= i < k :: pairs[i] == PairAt(llrs, rate, i)
    {
      var (a, b) := (0.0, 0.0);
      if KeepA(rate, k) {
        a := LlrAt(llrs, idx);
        idx := idx + 1;
      }
      if KeepB(rate, k) {
        b := LlrAt(llrs, idx);
        idx := idx + 1;
      }
      pairs := pairs + [(a, b)];
    }
  }

  /** One add-compare-select step over all states; `dec` packs the 64 decisions in one word. */
  method Step(metric: array<Metric>, p: Pair) returns (next: array<Metric>, dec: nat)
    requires metric.Length == 64
    ensures fresh(next) && next.Length == 64
    ensures forall ns: State :: next[ns] == Best(metric[..], p, ns).0
    ensures forall ns: State :: GetBit(dec, ns) == Best(metric[..], p, ns).1
    ensures dec < Pow2(64)
  {
    hide OutA, OutB, Branch, GetBit, SetBit, Pow2, BestBelow;
    next := new Metric[64](_ => Unreachable);
    dec := 0;
    ghost var was := metric[..];
    StepStart(was, p);
    for s := 0 to 64
      invariant metric[..] == was
      invariant forall ns: State :: next[ns] == BestBelow(was, p, ns, s).0
      invariant forall ns: State :: GetBit(dec, ns) == BestBelow(was, p, ns, s).1
      invariant dec < Pow2(64)
    {
      forall ns: State {
        BestBelowNext(was, p, ns, s);
      }
      var m := metric[s];
      if m.Unreachable? {
        continue;
      }
      for x := 0 to 2
        invariant metric[..] == was
        invariant forall ns: State :: next[ns] == BestBelow(was, p, ns, if ns / 32 < x then s + 1 else s).0
        invariant forall ns: State :: GetBit(dec, ns) == BestBelow(was, p, ns, if ns / 32 < x then s + 1 else s).1
        invariant dec < Pow2(64)
      {
        var cand := Extend(m, p, x == 1, s);
        var ns := Advance(x == 1, s);
        if cand.Beats(next[ns]) {
          next[ns] := cand;
          ghost var was' := dec;
          dec := SetBit(dec, ns, s % 2 == 1);
          SetBitWidth(was', ns, s % 2 == 1, 64);
          forall j: State
            ensures GetBit(dec, j) == if j == ns then s % 2 == 1 else GetBit(was', j)
          {
            SetBitGet(was', ns, s % 2 == 1, j);
          }
        }
      }
    }
  }

  /** Before any state is visited nothing is reached and the decision word is zero. */
  lemma {:induction false} StepStart(metric: seq<Metric>, p: Pair)
    requires |metric| == 64
    ensures forall ns: State :: BestBelow(metric, p, ns, 0) == (Unreachable, false)
    ensures forall ns: State :: !GetBit(0, ns)
    ensures 0 < Pow2(64)
  {
    forall ns: State
      ensures !GetBit(0, ns)
    {
      ZeroBits(ns);
    }
  }

  /** Follow the stored decisions back from state zero. */
  method Traceback(ghost pairs: seq<Pair>, decisions: array<nat>) returns (out: seq<Bit>)
    requires |pairs| == decisions.Length
    requires forall k, ns: State | 0 <= k < |pairs| :: GetBit(decisions[k], ns) == DecisionAt(pairs, k, ns)
    ensures out == Survivor(pairs, |pairs|, 0)
  {
    hide GetBit, DecisionAt;
    var n := decisions.Length;
    var bits := new Bit[n](_ => false);
    var state: State := 0;
    for step := n downto 0
      invariant Survivor(pairs, n, 0) == Survivor(pairs, step, state) + bits[step..]
    {
      ghost var tail := bits[step + 1..];
      bits[step] := InputOf(state);
      var oldest := GetBit(decisions[step], state);
      state := Predecessor(state, oldest);
      assert bits[step..] == [bits[step]] + tail;
    }
    out := bits[..];
  }
}

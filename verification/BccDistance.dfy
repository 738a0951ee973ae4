/** The minimum distance of the convolutional code at every rate, and the errors that the Viterbi
    decoder therefore corrects. */
module BccDistance {
  import opened Params
  import opened Bcc
  import opened Llr
  import opened Viterbi
  import opened ViterbiProofs
  import Arith

  // ---- Generators ----

  /** The six inputs before the current one, newest first, or how two inputs differ there. */
  datatype Past = Past(p1: Bit, p2: Bit, p3: Bit, p4: Bit, p5: Bit, p6: Bit)

  const NONE: Past := Past(false, false, false, false, false, false)

  function Shift(x: Bit, p: Past): Past {
    Past(x, p.p1, p.p2, p.p3, p.p4, p.p5)
  }

  /** Generator 133 (octal). */
  function TapsA(x: Bit, p: Past): Bit {
    Xor(x, Xor(p.p2, Xor(p.p3, Xor(p.p5, p.p6))))
  }

  /** Generator 171 (octal). */
  function TapsB(x: Bit, p: Past): Bit {
    Xor(x, Xor(p.p1, Xor(p.p2, Xor(p.p3, p.p6))))
  }

  function Inputs(s: State): Past {
    Past(Odd(s / 32), Odd(s / 16), Odd(s / 8), Odd(s / 4), Odd(s / 2), Odd(s))
  }

  /** The input `back` steps before step `t`, zero before the first. */
  function InputAt(bits: seq<Bit>, t: nat, back: nat): Bit
    requires t <= |bits|
  {
    back <= t && back > 0 && bits[t - back]
  }

  lemma {:induction false} OddPlus(z: nat, m: nat)
    ensures Odd(2 * m + z) == Odd(z)
  {
  }

  /** The new input enters at the top, everything else moves down by one. */
  lemma {:induction false} Halved(v: nat, x: nat)
    requires v < 64 && x < 2
    ensures var w := (64 * x + v) / 2;
            && w / 32 == x && w / 16 == 2 * x + v / 32 && w / 8 == 2 * (2 * x) + v / 16
            && w / 4 == 2 * (4 * x) + v / 8 && w / 2 == 2 * (8 * x) + v / 4 && w == 2 * (16 * x) + v / 2
  {
  }

  lemma {:induction false} AdvanceShifts(x: Bit, s: State)
    ensures Inputs(Advance(x, s)) == Shift(x, Inputs(s))
  {
    var v: nat := s;
    var b: nat := if x then 1 else 0;
    assert Odd(b) == x;
    Halved(v, b);
    hide Odd;
    OddPlus(v / 32, b);
    OddPlus(v / 16, 2 * b);
    OddPlus(v / 8, 4 * b);
    OddPlus(v / 4, 8 * b);
    OddPlus(v / 2, 16 * b);
  }

  lemma {:induction false} OutputsAre(x: Bit, s: State)
    ensures OutA(x, s) == TapsA(x, Inputs(s)) && OutB(x, s) == TapsB(x, Inputs(s))
  {
    OlderTaps(s);
  }

  /** The encoder convolves: its outputs at step `t` are the sums over the taps of generators 133
      and 171 of the inputs at and before `t`. */
  lemma {:induction false} Convolves(bits: seq<Bit>, t: nat)
    requires t < |bits|
    ensures var p := Past(InputAt(bits, t, 1), InputAt(bits, t, 2), InputAt(bits, t, 3), InputAt(bits, t, 4), InputAt(bits, t, 5), InputAt(bits, t, 6));
            OutA(bits[t], StateAfter(bits, t)) == TapsA(bits[t], p) && OutB(bits[t], StateAfter(bits, t)) == TapsB(bits[t], p)
  {
    hide OutA, OutB, TapsA, TapsB, StateAfter, Inputs;
    OutputsAre(bits[t], StateAfter(bits, t));
    StateIs(bits, t);
  }

  lemma {:induction false} StateIs(bits: seq<Bit>, t: nat)
    requires t <= |bits|
    ensures Inputs(StateAfter(bits, t))
            == Past(InputAt(bits, t, 1), InputAt(bits, t, 2), InputAt(bits, t, 3), InputAt(bits, t, 4), InputAt(bits, t, 5), InputAt(bits, t, 6))
  {
    hide Advance;
    if t > 0 {
      StateIs(bits, t - 1);
      AdvanceShifts(bits[t - 1], StateAfter(bits, t - 1));
    }
  }

  // ---- Differences ----

  function Difference(p: Past, q: Past): Past {
    Past(Xor(p.p1, q.p1), Xor(p.p2, q.p2), Xor(p.p3, q.p3), Xor(p.p4, q.p4), Xor(p.p5, q.p5), Xor(p.p6, q.p6))
  }

  /** How many of the kept outputs of a step differ, where inputs differ by `d` after `p`. */
  function Weight(rate: CodeRate, k: nat, d: Bit, p: Past): nat {
    (if KeepA(rate, k) && TapsA(d, p) then 1 else 0) + (if KeepB(rate, k) && TapsB(d, p) then 1 else 0)
  }

  lemma {:induction false} TapsLinear(x: Bit, y: Bit, p: Past, q: Past)
    ensures TapsA(Xor(x, y), Difference(p, q)) == Xor(TapsA(x, p), TapsA(y, q))
    ensures TapsB(Xor(x, y), Difference(p, q)) == Xor(TapsB(x, p), TapsB(y, q))
  {
  }

  /** In how many places two sequences differ. */
  function Distance(a: seq<Bit>, b: seq<Bit>): nat
    requires |a| == |b|
  {
    if |a| == 0 then 0 else Distance(a[..|a| - 1], b[..|b| - 1]) + if a[|a| - 1] != b[|b| - 1] then 1 else 0
  }

  lemma {:induction false} DistanceAppend(a: seq<Bit>, b: seq<Bit>, keep: bool, x: Bit, y: Bit)
    requires |a| == |b|
    ensures Distance(a + Pick(keep, x), b + Pick(keep, y)) == Distance(a, b) + if keep && x != y then 1 else 0
  {
    if keep {
      assert (a + [x])[..|a|] == a && (b + [y])[..|b|] == b;
    } else {
      assert a + [] == a && b + [] == b;
    }
  }

  lemma {:induction false} WeightIs(rate: CodeRate, k: nat, x: Bit, y: Bit, s: State, t: State)
    ensures Weight(rate, k, Xor(x, y), Difference(Inputs(s), Inputs(t)))
            == (if KeepA(rate, k) && OutA(x, s) != OutA(y, t) then 1 else 0) + (if KeepB(rate, k) && OutB(x, s) != OutB(y, t) then 1 else 0)
  {
    hide KeepA, KeepB, OutA, OutB, Inputs, TapsA, TapsB, Difference;
    OutputsAre(x, s);
    OutputsAre(y, t);
    TapsLinear(x, y, Inputs(s), Inputs(t));
  }

  lemma {:induction false} PickLength(keep: bool, x: Bit, y: Bit)
    ensures |Pick(keep, x)| == |Pick(keep, y)|
  {
  }

  lemma {:induction false} StepAppended(a: seq<Bit>, rate: CodeRate, k: nat, x: Bit, s: State)
    ensures a + StepBits(rate, k, x, s) == a + Pick(KeepA(rate, k), OutA(x, s)) + Pick(KeepB(rate, k), OutB(x, s))
    ensures |StepBits(rate, k, x, s)| == |Pick(KeepA(rate, k), OutA(x, s))| + |Pick(KeepB(rate, k), OutB(x, s))|
  {
    hide KeepA, KeepB, OutA, OutB, Pick;
  }

  lemma {:induction false} StepDistance(a: seq<Bit>, b: seq<Bit>, rate: CodeRate, k: nat, x: Bit, y: Bit, s: State, t: State)
    requires |a| == |b|
    ensures |StepBits(rate, k, x, s)| == |StepBits(rate, k, y, t)|
    ensures Distance(a + StepBits(rate, k, x, s), b + StepBits(rate, k, y, t))
            == Distance(a, b) + Weight(rate, k, Xor(x, y), Difference(Inputs(s), Inputs(t)))
  {
    hide Distance, KeepA, KeepB, OutA, OutB, Inputs, Weight, Difference, Pick;
    WeightIs(rate, k, x, y, s, t);
    PickLength(KeepA(rate, k), OutA(x, s), OutA(y, t));
    PickLength(KeepB(rate, k), OutB(x, s), OutB(y, t));
    hide StepBits;
    var (ka, kb) := (KeepA(rate, k), KeepB(rate, k));
    DistanceAppend(a, b, ka, OutA(x, s), OutA(y, t));
    DistanceAppend(a + Pick(ka, OutA(x, s)), b + Pick(ka, OutA(y, t)), kb, OutB(x, s), OutB(y, t));
    StepAppended(a, rate, k, x, s);
    StepAppended(b, rate, k, y, t);
  }

  // ---- What it costs to come back together ----

  function MinDistance(rate: CodeRate): nat {
    match rate case R12 => 10 case R23 => 6 case R34 => 5 case R56 => 4
  }

  // The least number of kept outputs in which two paths that differ by `p` still differ before they
  // have come together, by the place of the next step in the puncturing period.

  function RestR12(p: Past): nat {
    if p.p1 then
      if p.p2 then
        if p.p3 then
          if p.p4 then (if p.p5 then 6 else 7) else (if p.p5 then 7 else 6)
        else
          if p.p4 then (if p.p5 then (if p.p6 then 7 else 5) else 6) else (if p.p5 then 6 else 7)
      else
        if p.p3 then
          if p.p4 then (if p.p5 then 7 else 6) else (if p.p5 then 6 else 7)
        else
          if p.p4 then (if p.p5 then (if p.p6 then 4 else 6) else 5) else (if p.p5 then (if p.p6 then 5 else 7) else 8)
    else
      if p.p2 then
        if p.p3 then
          if p.p4 then (if p.p5 then 6 else (if p.p6 then 7 else 5)) else (if p.p5 then 5 else 6)
        else
          if p.p4 then (if p.p5 then 7 else 6) else (if p.p5 then 4 else (if p.p6 then 5 else 7))
      else
        if p.p3 then
          if p.p4 then (if p.p5 then 5 else (if p.p6 then 4 else 6)) else (if p.p5 then 6 else (if p.p6 then 3 else 5))
        else
          if p.p4 then (if p.p5 then 4 else (if p.p6 then 5 else 3)) else (if p.p5 then 3 else (if p.p6 then 2 else 0))
  }

  function RestR23At0(p: Past): nat {
    if p.p1 then
      if p.p2 then
        if p.p3 then
          if p.p4 then (if p.p5 then (if p.p6 then 3 else 4) else 4) else 4
        else
          if p.p4 then (if p.p5 then (if p.p6 then 4 else 3) else 5) else (if p.p5 then (if p.p6 then 4 else 5) else 4)
      else
        if p.p3 then
          if p.p5 then 4 else 5
        else
          if p.p4 then (if p.p5 then (if p.p6 then 3 else 4) else 3) else (if p.p5 then 4 else 5)
    else
      if p.p2 then
        if p.p3 then
          if p.p4 then (if p.p5 then 4 else (if p.p6 then 4 else 3)) else (if p.p5 then 4 else (if p.p6 then 3 else 4))
        else
          if p.p4 then 4 else (if p.p5 then 4 else (if p.p6 then 3 else 5))
      else
        if p.p3 then
          if p.p4 then (if p.p5 then 3 else (if p.p6 then 3 else 4)) else (if p.p5 then 4 else (if p.p6 then 2 else 4))
        else
          if p.p4 then (if p.p5 then 3 else (if p.p6 then 4 else 3)) else (if p.p5 then 2 else (if p.p6 then 2 else 0))
  }

  function RestR23At1(p: Past): nat {
    if p.p1 then
      if p.p2 then
        if p.p3 then
          if p.p4 then (if p.p5 then (if p.p6 then 4 else 3) else 4) else (if p.p5 then 4 else (if p.p6 then 4 else 3))
        else
          if p.p4 then 4 else (if p.p5 then (if p.p6 then 4 else 3) else 4)
      else
        if p.p3 then
          if p.p4 then (if p.p5 then 4 else (if p.p6 then 4 else 3)) else (if p.p5 then (if p.p6 then 5 else 4) else (if p.p6 then 4 else 5))
        else
          if p.p4 then (if p.p5 then 4 else (if p.p6 then 5 else 4)) else (if p.p5 then (if p.p6 then 3 else 4) else (if p.p6 then 4 else 5))
    else
      if p.p2 then
        if p.p3 then
          if p.p4 then (if p.p5 then (if p.p6 then 3 else 4) else (if p.p6 then 4 else 3)) else (if p.p5 then (if p.p6 then 3 else 4) else (if p.p6 then 5 else 4))
        else
          if p.p4 then 4 else (if p.p5 then (if p.p6 then 3 else 2) else (if p.p6 then 4 else 5))
      else
        if p.p3 then
          if p.p4 then (if p.p5 then 3 else (if p.p6 then 3 else 4)) else (if p.p5 then (if p.p6 then 3 else 4) else 3)
        else
          if p.p4 then (if p.p5 then (if p.p6 then 2 else 3) else (if p.p6 then 3 else 2)) else (if p.p5 then (if p.p6 then 2 else 3) else (if p.p6 then 1 else 0))
  }

  function RestR34At0(p: Past): nat {
    if p.p1 then
      if p.p2 then
        if p.p3 then
          if p.p4 then (if p.p5 then (if p.p6 then 2 else 4) else 4) else (if p.p5 then (if p.p6 then 3 else 2) else 4)
        else
          if p.p4 then (if p.p5 then (if p.p6 then 3 else 2) else 3) else (if p.p5 then (if p.p6 then 4 else 3) else 4)
      else
        if p.p3 then
          if p.p4 then (if p.p5 then (if p.p6 then 4 else 3) else 5) else (if p.p5 then 3 else 4)
        else
          if p.p4 then 3 else (if p.p5 then 3 else 4)
    else
      if p.p2 then
        if p.p3 then
          if p.p4 then (if p.p5 then 4 else (if p.p6 then 4 else 3)) else 3
        else
          3
      else
        if p.p3 then
          if p.p4 then 3 else (if p.p5 then 4 else (if p.p6 then 2 else 3))
        else
          if p.p4 then (if p.p5 then 2 else (if p.p6 then 4 else 2)) else (if p.p5 then 2 else (if p.p6 then 2 else 0))
  }

  function RestR34At1(p: Past): nat {
    if p.p1 then
      if p.p2 then
        if p.p3 then
          if p.p4 then (if p.p5 then (if p.p6 then 4 else 3) else (if p.p6 then 2 else 3)) else (if p.p5 then (if p.p6 then 3 else 4) else (if p.p6 then 4 else 3))
        else
          if p.p4 then (if p.p5 then 4 else (if p.p6 then 3 else 4)) else (if p.p6 then 3 else 4)
      else
        if p.p3 then
          if p.p4 then (if p.p5 then (if p.p6 then 3 else 4) else 3) else (if p.p5 then (if p.p6 then 2 else 3) else 3)
        else
          if p.p4 then (if p.p5 then (if p.p6 then 2 else 3) else 3) else (if p.p6 then 3 else 4)
    else
      if p.p2 then
        if p.p3 then
          if p.p4 then (if p.p5 then (if p.p6 then 2 else 3) else 3) else (if p.p5 then 2 else 3)
        else
          if p.p4 then (if p.p5 then (if p.p6 then 3 else 4) else 3) else (if p.p5 then (if p.p6 then 3 else 2) else 3)
      else
        if p.p3 then
          if p.p5 then 3 else (if p.p6 then 2 else 3)
        else
          if p.p4 then (if p.p5 then 3 else (if p.p6 then 3 else 2)) else (if p.p5 then (if p.p6 then 1 else 2) else (if p.p6 then 1 else 0))
  }

  function RestR34At2(p: Past): nat {
    if p.p1 then
      if p.p2 then
        if p.p3 then
          if p.p4 then (if p.p5 then (if p.p6 then 3 else 2) else 4) else (if p.p5 then 4 else (if p.p6 then 3 else 4))
        else
          if p.p4 then (if p.p5 then 3 else (if p.p6 then 2 else 3)) else (if p.p6 then 4 else 3)
      else
        if p.p3 then
          if p.p4 then (if p.p5 then 3 else (if p.p6 then 2 else 3)) else 3
        else
          if p.p4 then (if p.p5 then (if p.p6 then 3 else 4) else 3) else (if p.p6 then 3 else 4)
    else
      if p.p2 then
        if p.p3 then
          if p.p4 then (if p.p5 then (if p.p6 then 4 else 3) else 3) else (if p.p6 then 4 else 3)
        else
          if p.p4 then (if p.p6 then 4 else 3) else (if p.p5 then (if p.p6 then 2 else 3) else (if p.p6 then 3 else 4))
      else
        if p.p3 then
          if p.p4 then (if p.p6 then 2 else 3) else (if p.p5 then (if p.p6 then 4 else 3) else (if p.p6 then 2 else 3))
        else
          if p.p4 then (if p.p6 then 3 else 2) else (if p.p5 then (if p.p6 then 3 else 2) else (if p.p6 then 1 else 0))
  }

  function RestR56At0(p: Past): nat {
    if p.p1 then
      if p.p2 then
        if p.p3 then
          if p.p4 then (if p.p5 then 2 else 3) else (if p.p5 then (if p.p6 then 2 else 3) else 2)
        else
          if p.p4 then (if p.p5 then 3 else 4) else 3
      else
        if p.p3 then
          if p.p4 then 3 else (if p.p5 then 2 else 3)
        else
          if p.p4 then 3 else (if p.p5 then (if p.p6 then 2 else 3) else 3)
    else
      if p.p2 then
        if p.p3 then
          if p.p4 then (if p.p5 then 4 else (if p.p6 then 3 else 2)) else 2
        else
          if p.p4 then (if p.p5 then 3 else (if p.p6 then 2 else 3)) else 3
      else
        if p.p3 then
          if p.p4 then (if p.p5 then 3 else (if p.p6 then 3 else 2)) else (if p.p5 then 3 else (if p.p6 then 1 else 2))
        else
          if p.p4 then (if p.p5 then 2 else (if p.p6 then 3 else 2)) else (if p.p5 then 2 else (if p.p6 then 2 else 0))
  }

  function RestR56At1(p: Past): nat {
    if p.p1 then
      if p.p2 then
        if p.p3 then
          if p.p4 then (if p.p5 then 2 else 3) else (if p.p5 then 3 else (if p.p6 then 3 else 2))
        else
          if p.p4 then (if p.p5 then (if p.p6 then 3 else 2) else 2) else (if p.p5 then (if p.p6 then 3 else 2) else 3)
      else
        if p.p3 then
          if p.p4 then (if p.p5 then 3 else (if p.p6 then 3 else 2)) else 3
        else
          if p.p4 then (if p.p5 then 2 else (if p.p6 then 3 else 2)) else (if p.p5 then 3 else (if p.p6 then 3 else 2))
    else
      if p.p2 then
        if p.p3 then
          if p.p4 then (if p.p5 then (if p.p6 then 2 else 3) else (if p.p6 then 2 else 1)) else (if p.p5 then 3 else (if p.p6 then 3 else 2))
        else
          if p.p4 then (if p.p5 then 3 else (if p.p6 then 2 else 3)) else (if p.p5 then (if p.p6 then 3 else 2) else 2)
      else
        if p.p3 then
          if p.p4 then (if p.p5 then (if p.p6 then 3 else 2) else (if p.p6 then 1 else 2)) else (if p.p5 then 2 else (if p.p6 then 2 else 3))
        else
          if p.p4 then (if p.p5 then (if p.p6 then 2 else 3) else (if p.p6 then 2 else 1)) else (if p.p5 then (if p.p6 then 1 else 2) else (if p.p6 then 1 else 0))
  }

  function RestR56At2(p: Past): nat {
    if p.p1 then
      if p.p2 then
        if p.p3 then
          if p.p4 then (if p.p5 then (if p.p6 then 2 else 3) else 3) else (if p.p5 then (if p.p6 then 3 else 2) else 3)
        else
          if p.p4 then (if p.p5 then (if p.p6 then 3 else 2) else 3) else (if p.p5 then (if p.p6 then 2 else 3) else 3)
      else
        if p.p3 then
          if p.p4 then 3 else (if p.p5 then 3 else (if p.p6 then 3 else 2))
        else
          if p.p4 then (if p.p5 then (if p.p6 then 3 else 2) else (if p.p6 then 2 else 3)) else (if p.p5 then (if p.p6 then 3 else 2) else 3)
    else
      if p.p2 then
        if p.p3 then
          if p.p4 then (if p.p5 then (if p.p6 then 2 else 3) else (if p.p6 then 3 else 2)) else (if p.p5 then 2 else (if p.p6 then 2 else 3))
        else
          if p.p4 then 3 else (if p.p5 then 2 else (if p.p6 then 3 else 2))
      else
        if p.p3 then
          if p.p4 then (if p.p5 then (if p.p6 then 2 else 1) else (if p.p6 then 3 else 2)) else (if p.p5 then (if p.p6 then 3 else 2) else 2)
        else
          if p.p4 then (if p.p5 then (if p.p6 then 2 else 1) else 2) else (if p.p5 then (if p.p6 then 2 else 1) else (if p.p6 then 1 else 0))
  }

  function RestR56At3(p: Past): nat {
    if p.p1 then
      if p.p2 then
        if p.p3 then
          if p.p5 then 3 else (if p.p6 then 2 else 3)
        else
          if p.p4 then 3 else (if p.p6 then 2 else 3)
      else
        if p.p3 then
          if p.p4 then (if p.p5 then (if p.p6 then 2 else 3) else 2) else (if p.p5 then 3 else 2)
        else
          if p.p4 then (if p.p5 then (if p.p6 then 1 else 2) else 2) else (if p.p5 then 2 else (if p.p6 then 2 else 3))
    else
      if p.p2 then
        if p.p3 then
          if p.p5 then (if p.p6 then 2 else 3) else 3
        else
          if p.p4 then (if p.p5 then 3 else (if p.p6 then 3 else 2)) else (if p.p5 then (if p.p6 then 3 else 2) else 3)
      else
        if p.p3 then
          if p.p4 then (if p.p5 then (if p.p6 then 3 else 2) else (if p.p6 then 2 else 3)) else (if p.p5 then 3 else (if p.p6 then 2 else 3))
        else
          if p.p4 then (if p.p5 then 3 else (if p.p6 then 3 else 2)) else (if p.p5 then (if p.p6 then 1 else 2) else (if p.p6 then 1 else 0))
  }

  function RestR56At4(p: Past): nat {
    if p.p1 then
      if p.p2 then
        if p.p3 then
          if p.p4 then (if p.p6 then 3 else 2) else (if p.p5 then 3 else (if p.p6 then 2 else 3))
        else
          if p.p4 then (if p.p5 then 2 else (if p.p6 then 3 else 2)) else 2
      else
        if p.p3 then
          if p.p4 then 3 else (if p.p5 then (if p.p6 then 3 else 2) else (if p.p6 then 4 else 3))
        else
          3
    else
      if p.p2 then
        if p.p3 then
          if p.p4 then 3 else (if p.p5 then 3 else (if p.p6 then 3 else 2))
        else
          if p.p4 then (if p.p6 then 3 else 2) else (if p.p5 then (if p.p6 then 1 else 2) else (if p.p6 then 2 else 3))
      else
        if p.p3 then
          if p.p4 then (if p.p6 then 2 else 3) else (if p.p5 then 3 else (if p.p6 then 2 else 3))
        else
          if p.p4 then (if p.p5 then 2 else (if p.p6 then 3 else 2)) else (if p.p5 then (if p.p6 then 3 else 2) else (if p.p6 then 1 else 0))
  }

  /** At place `m` of the period. */
  function RestAt(rate: CodeRate, m: nat, p: Past): nat {
    match (rate, m)
    case (R12, _) => RestR12(p)
    case (R23, 0) => RestR23At0(p)
    case (R23, _) => RestR23At1(p)
    case (R34, 0) => RestR34At0(p)
    case (R34, 1) => RestR34At1(p)
    case (R34, _) => RestR34At2(p)
    case (R56, 0) => RestR56At0(p)
    case (R56, 1) => RestR56At1(p)
    case (R56, 2) => RestR56At2(p)
    case (R56, 3) => RestR56At3(p)
    case (R56, _) => RestR56At4(p)
  }

  function Rest(rate: CodeRate, k: nat, p: Past): nat {
    RestAt(rate, k % rate.Num(), p)
  }

  lemma {:induction false} StepR12(d: Bit, p: Past)
    ensures RestR12(p) <= Weight(R12, 0, d, p) + RestR12(Shift(d, p))
    ensures p == NONE && d ==> Weight(R12, 0, d, p) + RestR12(Shift(d, p)) >= MinDistance(R12)
  {
  }

  lemma {:induction false} StepR23At0(d: Bit, p: Past)
    ensures RestR23At0(p) <= Weight(R23, 0, d, p) + RestR23At1(Shift(d, p))
    ensures p == NONE && d ==> Weight(R23, 0, d, p) + RestR23At1(Shift(d, p)) >= MinDistance(R23)
  {
  }

  lemma {:induction false} StepR23At1(d: Bit, p: Past)
    ensures RestR23At1(p) <= Weight(R23, 1, d, p) + RestR23At0(Shift(d, p))
    ensures p == NONE && d ==> Weight(R23, 1, d, p) + RestR23At0(Shift(d, p)) >= MinDistance(R23)
  {
  }

  lemma {:induction false} StepR34At0(d: Bit, p: Past)
    ensures RestR34At0(p) <= Weight(R34, 0, d, p) + RestR34At1(Shift(d, p))
    ensures p == NONE && d ==> Weight(R34, 0, d, p) + RestR34At1(Shift(d, p)) >= MinDistance(R34)
  {
  }

  lemma {:induction false} StepR34At1(d: Bit, p: Past)
    ensures RestR34At1(p) <= Weight(R34, 1, d, p) + RestR34At2(Shift(d, p))
    ensures p == NONE && d ==> Weight(R34, 1, d, p) + RestR34At2(Shift(d, p)) >= MinDistance(R34)
  {
  }

  lemma {:induction false} StepR34At2(d: Bit, p: Past)
    ensures RestR34At2(p) <= Weight(R34, 2, d, p) + RestR34At0(Shift(d, p))
    ensures p == NONE && d ==> Weight(R34, 2, d, p) + RestR34At0(Shift(d, p)) >= MinDistance(R34)
  {
  }

  lemma {:induction false} StepR56At0(d: Bit, p: Past)
    ensures RestR56At0(p) <= Weight(R56, 0, d, p) + RestR56At1(Shift(d, p))
    ensures p == NONE && d ==> Weight(R56, 0, d, p) + RestR56At1(Shift(d, p)) >= MinDistance(R56)
  {
  }

  lemma {:induction false} StepR56At1(d: Bit, p: Past)
    ensures RestR56At1(p) <= Weight(R56, 1, d, p) + RestR56At2(Shift(d, p))
    ensures p == NONE && d ==> Weight(R56, 1, d, p) + RestR56At2(Shift(d, p)) >= MinDistance(R56)
  {
  }

  lemma {:induction false} StepR56At2(d: Bit, p: Past)
    ensures RestR56At2(p) <= Weight(R56, 2, d, p) + RestR56At3(Shift(d, p))
    ensures p == NONE && d ==> Weight(R56, 2, d, p) + RestR56At3(Shift(d, p)) >= MinDistance(R56)
  {
  }

  lemma {:induction false} StepR56At3(d: Bit, p: Past)
    ensures RestR56At3(p) <= Weight(R56, 3, d, p) + RestR56At4(Shift(d, p))
    ensures p == NONE && d ==> Weight(R56, 3, d, p) + RestR56At4(Shift(d, p)) >= MinDistance(R56)
  {
  }

  lemma {:induction false} StepR56At4(d: Bit, p: Past)
    ensures RestR56At4(p) <= Weight(R56, 4, d, p) + RestR56At0(Shift(d, p))
    ensures p == NONE && d ==> Weight(R56, 4, d, p) + RestR56At0(Shift(d, p)) >= MinDistance(R56)
  {
  }

  lemma {:induction false} RestAtStep(rate: CodeRate, m: nat, d: Bit, p: Past)
    requires m < rate.Num()
    ensures RestAt(rate, m, p) <= Weight(rate, m, d, p) + RestAt(rate, if m + 1 == rate.Num() then 0 else m + 1, Shift(d, p))
    ensures p == NONE && d ==> Weight(rate, m, d, p) + RestAt(rate, if m + 1 == rate.Num() then 0 else m + 1, Shift(d, p)) >= MinDistance(rate)
  {
    hide TapsA, TapsB, Shift, Weight, RestR12, RestR23At0, RestR23At1, RestR34At0, RestR34At1, RestR34At2,
         RestR56At0, RestR56At1, RestR56At2, RestR56At3, RestR56At4;
    match (rate, m)
    case (R12, _) => StepR12(d, p);
    case (R23, 0) => StepR23At0(d, p);
    case (R23, _) => StepR23At1(d, p);
    case (R34, 0) => StepR34At0(d, p);
    case (R34, 1) => StepR34At1(d, p);
    case (R34, _) => StepR34At2(d, p);
    case (R56, 0) => StepR56At0(d, p);
    case (R56, 1) => StepR56At1(d, p);
    case (R56, 2) => StepR56At2(d, p);
    case (R56, 3) => StepR56At3(d, p);
    case (R56, _) => StepR56At4(d, p);
  }

  lemma {:induction false} NextPlace(n: nat, k: nat)
    requires n > 0
    ensures (k + 1) % n == (if k % n + 1 == n then 0 else k % n + 1) && k % n < n
  {
    var (q, r) := (k / n, k % n);
    assert k == q * n + r;
    if r + 1 == n {
      assert (q + 1) * n == q * n + n;
      Arith.DivModUnique(k + 1, q + 1, 0, n);
    } else {
      Arith.DivModUnique(k + 1, q, r + 1, n);
    }
  }

  lemma {:induction false} RestStep(rate: CodeRate, k: nat, d: Bit, p: Past)
    ensures Rest(rate, k, p) <= Weight(rate, k, d, p) + Rest(rate, k + 1, Shift(d, p))
    ensures p == NONE && d ==> Weight(rate, k, d, p) + Rest(rate, k + 1, Shift(d, p)) >= MinDistance(rate)
  {
    WeightPeriodic(rate, k, d, p);
    assert rate.Num() > 0;
    hide Weight, RestAt, Shift, MinDistance, CodeRate.Num;
    NextPlace(rate.Num(), k);
    RestAtStep(rate, k % rate.Num(), d, p);
  }

  lemma {:induction false} NothingLeft(rate: CodeRate, k: nat)
    ensures Rest(rate, k, NONE) == 0
  {
  }

  lemma {:induction false} WeightPeriodic(rate: CodeRate, k: nat, d: Bit, p: Past)
    ensures Weight(rate, k, d, p) == Weight(rate, k % rate.Num(), d, p)
  {
  }

  // ---- The theorem ----

  ghost predicate Terminated(bits: seq<Bit>) {
    StateAfter(bits, |bits|) == 0
  }

  function Apart(x: seq<Bit>, y: seq<Bit>, t: nat): Past
    requires t <= |x| == |y|
  {
    Difference(Inputs(StateAfter(x, t)), Inputs(StateAfter(y, t)))
  }

  function DistanceUpTo(x: seq<Bit>, y: seq<Bit>, rate: CodeRate, t: nat): nat
    requires t <= |x| == |y|
  {
    CodedLength(x, rate, t);
    CodedLength(y, rate, t);
    Distance(CodedUpTo(x, rate, t), CodedUpTo(y, rate, t))
  }

  lemma {:induction false} DistanceNext(x: seq<Bit>, y: seq<Bit>, rate: CodeRate, t: nat)
    requires t < |x| == |y|
    ensures DistanceUpTo(x, y, rate, t + 1) == DistanceUpTo(x, y, rate, t) + Weight(rate, t, Xor(x[t], y[t]), Apart(x, y, t))
    ensures Apart(x, y, t + 1) == Shift(Xor(x[t], y[t]), Apart(x, y, t))
  {
    hide Distance, StepBits, Weight, Inputs, Advance;
    CodedLength(x, rate, t);
    CodedLength(y, rate, t);
    StepDistance(CodedUpTo(x, rate, t), CodedUpTo(y, rate, t), rate, t, x[t], y[t], StateAfter(x, t), StateAfter(y, t));
    AdvanceShifts(x[t], StateAfter(x, t));
    AdvanceShifts(y[t], StateAfter(y, t));
  }

  /** From step `t` on the distance grows by at least what is left. */
  lemma {:induction false} Remaining(x: seq<Bit>, y: seq<Bit>, rate: CodeRate, t: nat)
    requires t <= |x| == |y| && Terminated(x) && Terminated(y)
    ensures DistanceUpTo(x, y, rate, t) + Rest(rate, t, Apart(x, y, t)) <= DistanceUpTo(x, y, rate, |x|)
    decreases |x| - t
  {
    hide DistanceUpTo, Rest, Weight, StateAfter;
    if t < |x| {
      DistanceNext(x, y, rate, t);
      RestStep(rate, t, Xor(x[t], y[t]), Apart(x, y, t));
      Remaining(x, y, rate, t + 1);
    } else {
      NothingLeft(rate, t);
    }
  }

  lemma {:induction false} FirstDifference(x: seq<Bit>, y: seq<Bit>, from: nat) returns (t: nat)
    requires |x| == |y| && x != y && from <= |x| && forall i | 0 <= i < from :: x[i] == y[i]
    ensures t < |x| && x[t] != y[t] && forall i | 0 <= i < t :: x[i] == y[i]
    decreases |x| - from
  {
    assert from == |x| ==> x == y;
    t := from;
    if x[from] == y[from] {
      t := FirstDifference(x, y, from + 1);
    }
  }

  /** Two different terminated inputs have code words that differ in at least 10, 6, 5 or 4 places
      at rates 1/2, 2/3, 3/4 and 5/6. */
  lemma {:induction false} CodesApart(x: seq<Bit>, y: seq<Bit>, rate: CodeRate)
    requires |x| == |y| && x != y && Terminated(x) && Terminated(y)
    ensures |Coded(x, rate)| == |Coded(y, rate)| && Distance(Coded(x, rate), Coded(y, rate)) >= MinDistance(rate)
  {
    hide Rest, Weight, StateAfter, CodedUpTo, Distance, MinDistance, Inputs, Terminated;
    CodedLength(x, rate, |x|);
    CodedLength(y, rate, |y|);
    var t := FirstDifference(x, y, 0);
    PrefixState(x, y, t);
    DistanceNext(x, y, rate, t);
    RestStep(rate, t, true, NONE);
    Remaining(x, y, rate, t + 1);
  }

  // ---- Errors corrected ----

  /** Hard decisions: every LLR is one or minus one. */
  ghost predicate HardLlrs(llrs: seq<real>) {
    forall i | 0 <= i < |llrs| :: llrs[i] == 1.0 || llrs[i] == -1.0
  }

  /** How many LLRs have the sign of the other bit. */
  function Errors(code: seq<Bit>, llrs: seq<real>): nat
    requires |code| <= |llrs|
  {
    if |code| == 0 then 0
    else Errors(code[..|code| - 1], llrs) + if Toward(llrs[|code| - 1], code[|code| - 1]) < 0.0 then 1 else 0
  }

  lemma {:induction false} CorrelationCounts(code: seq<Bit>, llrs: seq<real>)
    requires |code| <= |llrs| && HardLlrs(llrs)
    ensures Correlation(code, llrs) == (|code| - 2 * Errors(code, llrs)) as real
  {
    if |code| > 0 {
      CorrelationCounts(code[..|code| - 1], llrs);
    }
  }

  /** Where two words differ, one of them is in error. */
  lemma {:induction false} ErrorsAdd(code: seq<Bit>, other: seq<Bit>, llrs: seq<real>)
    requires |code| == |other| <= |llrs| && HardLlrs(llrs)
    ensures Distance(code, other) <= Errors(code, llrs) + Errors(other, llrs)
  {
    if |code| > 0 {
      ErrorsAdd(code[..|code| - 1], other[..|other| - 1], llrs);
    }
  }

  /** Whatever bits are flipped on the way, up to four at rate 1/2, two at 2/3 and 3/4 and one at
      5/6, the decoder returns what was sent. */
  lemma {:induction false} ErrorsCorrected(bits: seq<Bit>, rate: CodeRate, llrs: seq<real>)
    requires Terminated(bits) && |llrs| == |Coded(bits, rate)| && HardLlrs(llrs)
    requires 2 * Errors(Coded(bits, rate), llrs) < MinDistance(rate)
    ensures Decode(llrs, rate, |bits|) == bits
  {
    hide StateAfter, Correlation, CodedUpTo, Decode, HardLlrs, Distance, Errors, MinDistance;
    var n := |bits|;
    var y := Decode(llrs, rate, n);
    DecodeOptimal(llrs, rate, n, bits);
    CodedLength(bits, rate, n);
    CodedLength(y, rate, n);
    CorrelationCounts(Coded(bits, rate), llrs);
    CorrelationCounts(Coded(y, rate), llrs);
    if y != bits {
      CodesApart(y, bits, rate);
      ErrorsAdd(Coded(y, rate), Coded(bits, rate), llrs);
    }
  }
}

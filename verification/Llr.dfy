/** Log-likelihood ratios: positive for bit 0, negative for bit 1. */
module Llr {
  import opened Params

  /** `x` taken with the sign of the bit: non-negative exactly when it does not contradict it. */
  function Toward(x: real, b: Bit): real {
    if b then -x else x
  }

  /** Every LLR is nonzero and has the sign of the bit sent. */
  ghost predicate Agrees(llrs: seq<real>, code: seq<Bit>) {
    |llrs| == |code| && forall i | 0 <= i < |code| :: Toward(llrs[i], code[i]) > 0.0
  }

  /** Some evidence may be missing, none is wrong. */
  ghost predicate NoneWrong(llrs: seq<real>, word: seq<Bit>) {
    |llrs| == |word| && forall v | 0 <= v < |word| :: Toward(llrs[v], word[v]) >= 0.0
  }
}

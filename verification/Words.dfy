/** Machine words seen as natural numbers: single bits are read and written
    with a shift and a mask in the source; here they are given by recursion on
    the binary expansion, so the same definitions serve every word width. */
module Words {

  function Pow2(n: nat): (p: nat)
    ensures p > 0
  {
    if n == 0 then 1 else 2 * Pow2(n - 1)
  }

  /** `(w >> i) & 1`. */
  predicate GetBit(w: nat, i: nat) {
    if i == 0 then w % 2 == 1 else GetBit(w / 2, i - 1)
  }

  /** `(w & !(1 << i)) | (b << i)`. */
  function SetBit(w: nat, i: nat, b: bool): nat {
    if i == 0 then 2 * (w / 2) + (if b then 1 else 0)
    else 2 * SetBit(w / 2, i - 1, b) + w % 2
  }

  /** Writing one bit of a word changes that bit and no other. */
  lemma {:induction false} SetBitGet(w: nat, i: nat, b: bool, j: nat)
    ensures GetBit(SetBit(w, i, b), j) == if i == j then b else GetBit(w, j)
  {
    if i > 0 {
      assert SetBit(w, i, b) / 2 == SetBit(w / 2, i - 1, b);
      if j > 0 {
        SetBitGet(w / 2, i - 1, b, j - 1);
      }
    }
  }

  /** A word of `n` bits stays one when a bit below `n` is written. */
  lemma {:induction false} SetBitWidth(w: nat, i: nat, b: bool, n: nat)
    requires i < n && w < Pow2(n)
    ensures SetBit(w, i, b) < Pow2(n)
  {
    if i > 0 {
      SetBitWidth(w / 2, i - 1, b, n - 1);
    }
  }

  lemma {:induction false} ZeroBits(i: nat)
    ensures !GetBit(0, i)
  {
    if i > 0 {
      ZeroBits(i - 1);
    }
  }

  /** Words of the same width with the same bits are equal. */
  lemma {:induction false} BitsDetermine(v: nat, w: nat, n: nat)
    requires v < Pow2(n) && w < Pow2(n)
    requires forall i | 0 <= i < n :: GetBit(v, i) == GetBit(w, i)
    ensures v == w
  {
    if n > 0 {
      assert GetBit(v, 0) == GetBit(w, 0);
      forall i | 0 <= i < n - 1
        ensures GetBit(v / 2, i) == GetBit(w / 2, i)
      {
        assert GetBit(v, i + 1) == GetBit(w, i + 1);
      }
      BitsDetermine(v / 2, w / 2, n - 1);
    }
  }
}

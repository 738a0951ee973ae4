/** BCC interleaver (crates/s2g-phy/src/interleaver.rs) and the LDPC tone mapper
    (crates/s2g-phy/src/ofdm.rs): permutations with explicit inverses. */
module Interleaver {
  import opened Params
  import opened Arith

  function Stride(nBpscs: nat): (s: nat)
    ensures s >= 1
  {
    if nBpscs / 2 < 1 then 1 else nBpscs / 2
  }

  /** First permutation, Eq 21-76. */
  function FirstPerm(nRow: nat, k: nat): nat {
    nRow * (k % 13) + k / 13
  }

  /** Second permutation, Eq 21-77, within a symbol of `nCbps` bits. */
  function SecondPerm(s: nat, nCbps: nat, i: nat): int
    requires s > 0 && nCbps > 0
  {
    s * (i / s) + (i + nCbps - (13 * i) / nCbps) % s
  }

  function PermAt(nBpscs: nat, k: nat): int
    requires nBpscs > 0
  {
    SecondPerm(Stride(nBpscs), 52 * nBpscs, FirstPerm(4 * nBpscs, k))
  }

  /** Bits per point for which the permutation is used: one, or any even number. */
  predicate Regular(nBpscs: nat) {
    nBpscs == 1 || (nBpscs >= 2 && nBpscs % 2 == 0)
  }

  // ---- The inverse ----

  function FirstInverse(nRow: nat, i: nat): nat
    requires nRow > 0
  {
    13 * (i % nRow) + i / nRow
  }

  function SecondInverse(s: nat, nRow: nat, nCbps: nat, j: nat): int
    requires s > 0 && nRow > 0
  {
    s * (j / s) + (j - nCbps + j / nRow) % s
  }

  function InverseAt(nBpscs: nat, j: nat): int
    requires nBpscs > 0
  {
    var i := SecondInverse(Stride(nBpscs), 4 * nBpscs, 52 * nBpscs, j);
    if i < 0 then 0 else FirstInverse(4 * nBpscs, i)
  }

  lemma {:induction false} FirstPermInverse(nRow: nat, k: nat)
    requires nRow > 0 && k < 13 * nRow
    ensures var i := FirstPerm(nRow, k);
            && i / nRow == k % 13 && i % nRow == k / 13 && i < 13 * nRow
            && FirstInverse(nRow, i) == k
  {
    var (c, r) := (k % 13, k / 13);
    assert nRow * c == c * nRow;
    DivModUnique(FirstPerm(nRow, k), c, r, nRow);
    MulStrict(c, 13, nRow);
  }

  /** In a symbol of thirteen columns of `nRow` bits, `13 * i / nCbps` is the column of `i`. */
  lemma {:induction false} ColumnOf(nRow: nat, i: nat)
    requires nRow > 0
    ensures (13 * i) / (13 * nRow) == i / nRow
  {
    var (c, r) := (i / nRow, i % nRow);
    assert i == c * nRow + r;
    assert 13 * i == c * (13 * nRow) + 13 * r;
    DivModUnique(13 * i, c, 13 * r, 13 * nRow);
  }

  /** Rotation of a residue and its inverse. */
  lemma {:induction false} RotateBack(s: nat, i: nat, shift: int)
    requires s > 0
    ensures var j := s * (i / s) + (i + shift) % s;
            && j / s == i / s && j % s == (i + shift) % s
            && s * (j / s) + (j - shift) % s == i
  {
    var (q, r) := (i / s, (i + shift) % s);
    var j := s * q + r;
    assert s * q == q * s;
    DivModUnique(j, q, r, s);
    var m := (i + shift) / s;
    assert i + shift == m * s + r;
    var i0 := i % s;
    assert i == q * s + i0;
    assert j - shift == q * s + r - shift == q * s + (i - m * s);
    assert j - shift == (2 * q - m) * s + i0;
    DivModUnique(j - shift, 2 * q - m, i0, s);
  }

  /** Rotating within a group of `s` does not leave the column, as columns are whole groups. */
  lemma {:induction false} SameColumn(s: nat, groups: nat, i: nat, j: nat)
    requires s > 0 && groups > 0 && i / s == j / s
    ensures i / (groups * s) == j / (groups * s)
    ensures groups * s > 0
  {
    MulStrict(0, groups, s);
    GroupColumn(s, groups, i);
    GroupColumn(s, groups, j);
  }

  lemma {:induction false} GroupColumn(s: nat, groups: nat, i: nat)
    requires s > 0 && groups > 0 && groups * s > 0
    ensures i / (groups * s) == (i / s) / groups
  {
    var (q, r) := (i / s, i % s);
    var (c, g) := (q / groups, q % groups);
    assert i == q * s + r && q == c * groups + g;
    assert q * s == c * (groups * s) + g * s;
    MulStrict(g, groups, s);
    MulNonneg(g, s);
    DivModUnique(i, c, g * s + r, groups * s);
  }

  /** Positions in the same column lie in the same symbol. */
  lemma {:induction false} ColumnInside(nRow: nat, x: nat, y: nat)
    requires nRow > 0 && x < 13 * nRow && x / nRow == y / nRow
    ensures y < 13 * nRow
  {
    var c := x / nRow;
    assert x == c * nRow + x % nRow && y == c * nRow + y % nRow;
    MulOrder(c, 13, nRow);
    MulStrict(c, 13, nRow);
  }

  function Rotated(s: nat, i: nat, shift: int): int
    requires s > 0
  {
    s * (i / s) + (i + shift) % s
  }

  /** Rotating a position within its group is undone by rotating back, in the same column. */
  lemma {:induction false} RotateInColumn(s: nat, groups: nat, i: nat, shift: int)
    requires s > 0 && groups > 0 && i < 13 * (groups * s)
    ensures groups * s > 0
    ensures var j := Rotated(s, i, shift);
            && 0 <= j < 13 * (groups * s) && j / (groups * s) == i / (groups * s)
            && Rotated(s, j, -shift) == i
  {
    RotateBack(s, i, shift);
    var j := s * (i / s) + (i + shift) % s;
    MulNonneg(s, i / s);
    SameColumn(s, groups, i, j);
    ColumnInside(groups * s, i, j);
  }

  lemma {:induction false} SecondPermValue(s: nat, nRow: nat, i: nat)
    requires s > 0 && nRow > 0
    ensures SecondPerm(s, 13 * nRow, i) == Rotated(s, i, 13 * nRow - i / nRow)
  {
    ColumnOf(nRow, i);
    assert i + 13 * nRow - i / nRow == i + (13 * nRow - i / nRow);
  }

  lemma {:induction false} SecondInverseValue(s: nat, nRow: nat, j: nat)
    requires s > 0 && nRow > 0
    ensures SecondInverse(s, nRow, 13 * nRow, j) == Rotated(s, j, j / nRow - 13 * nRow)
  {
    assert j - 13 * nRow + j / nRow == j + (j / nRow - 13 * nRow);
  }

  lemma {:induction false} SecondPermInverse(s: nat, groups: nat, nRow: nat, i: nat)
    requires s > 0 && groups > 0 && nRow == groups * s && i < 13 * nRow
    ensures nRow > 0
    ensures var j := SecondPerm(s, 13 * nRow, i);
            && 0 <= j < 13 * nRow && SecondInverse(s, nRow, 13 * nRow, j) == i
  {
    hide SecondPerm, SecondInverse, Rotated;
    MulStrict(0, groups, s);
    SecondPermValue(s, nRow, i);
    RotateInColumn(s, groups, i, 13 * nRow - i / nRow);
    SecondInverseValue(s, nRow, SecondPerm(s, 13 * nRow, i));
  }

  lemma {:induction false} SecondInversePerm(s: nat, groups: nat, nRow: nat, j: nat)
    requires s > 0 && groups > 0 && nRow == groups * s && j < 13 * nRow
    ensures nRow > 0
    ensures var i := SecondInverse(s, nRow, 13 * nRow, j);
            && 0 <= i < 13 * nRow && SecondPerm(s, 13 * nRow, i) == j
  {
    hide SecondPerm, SecondInverse, Rotated;
    MulStrict(0, groups, s);
    SecondInverseValue(s, nRow, j);
    RotateInColumn(s, groups, j, j / nRow - 13 * nRow);
    SecondPermValue(s, nRow, SecondInverse(s, nRow, 13 * nRow, j));
  }

  lemma {:induction false} FirstInversePerm(nRow: nat, i: nat)
    requires nRow > 0 && i < 13 * nRow
    ensures var k := FirstInverse(nRow, i);
            k < 13 * nRow && FirstPerm(nRow, k) == i
  {
    var (c, r) := (i / nRow, i % nRow);
    assert i == c * nRow + r;
    MulOrder(c, 13, nRow);
    DivModUnique(13 * r + c, r, c, 13);
    assert nRow * c == c * nRow;
  }

  /** The interleaver is a bijection for one and for every even number of bits per point. */
  lemma {:induction false} PermBijective(nBpscs: nat, k: nat)
    requires Regular(nBpscs) && k < 52 * nBpscs
    ensures 0 <= PermAt(nBpscs, k) < 52 * nBpscs
    ensures InverseAt(nBpscs, PermAt(nBpscs, k)) == k
  {
    hide SecondPerm, SecondInverse, FirstPerm, FirstInverse;
    var (s, nRow) := (Stride(nBpscs), 4 * nBpscs);
    var groups := if nBpscs == 1 then 4 else 8;
    assert groups * s == nRow;
    FirstPermInverse(nRow, k);
    SecondPermInverse(s, groups, nRow, FirstPerm(nRow, k));
  }

  // ---- Interleaving ----

  /** `out` holds the interleaved `bits`. */
  ghost predicate Interleaved<T(!new)>(bits: seq<T>, out: seq<T>, nBpscs: nat)
    requires nBpscs > 0
  {
    && |bits| == |out| == 52 * nBpscs
    && forall k | 0 <= k < |bits| :: 0 <= PermAt(nBpscs, k) < |out| && out[PermAt(nBpscs, k)] == bits[k]
  }

  method DataPerm(nBpscs: nat) returns (perm: seq<nat>)
    requires Regular(nBpscs)
    ensures |perm| == 52 * nBpscs
    ensures forall k | 0 <= k < |perm| :: perm[k] == PermAt(nBpscs, k) < 52 * nBpscs
  {
    hide PermAt, InverseAt;
    var nCbps := 52 * nBpscs;
    var p := new nat[nCbps](_ => 0);
    for k := 0 to nCbps
      invariant forall i | 0 <= i < k :: p[i] == PermAt(nBpscs, i) < nCbps
    {
      PermBijective(nBpscs, k);
      p[k] := PermAt(nBpscs, k);
    }
    perm := p[..];
  }

  /** Interleave one Data symbol. */
  method Interleave(bits: seq<Bit>, nBpscs: nat) returns (out: seq<Bit>)
    requires Regular(nBpscs) && |bits| == 52 * nBpscs
    ensures Interleaved(bits, out, nBpscs)
  {
    hide PermAt, InverseAt;
    var perm := DataPerm(nBpscs);
    var o := new Bit[|bits|](_ => false);
    for k := 0 to |bits|
      invariant forall i | 0 <= i < k :: o[perm[i]] == bits[i]
    {
      forall i | 0 <= i < k
        ensures perm[i] != perm[k]
      {
        PermBijective(nBpscs, i);
        PermBijective(nBpscs, k);
      }
      o[perm[k]] := bits[k];
    }
    out := o[..];
  }

  /** Inverse permutation over the LLRs of one Data symbol. */
  method DeinterleaveLlrs(llrs: seq<real>, nBpscs: nat) returns (out: seq<real>)
    requires Regular(nBpscs) && |llrs| == 52 * nBpscs
    ensures Interleaved(out, llrs, nBpscs)
  {
    hide PermAt;
    var perm := DataPerm(nBpscs);
    var o := new real[|llrs|](_ => 0.0);
    for k := 0 to |llrs|
      invariant forall i | 0 <= i < k :: o[i] == llrs[perm[i]]
    {
      o[k] := llrs[perm[k]];
    }
    out := o[..];
  }

  /** An interleaved symbol is determined by its input: every output position is written. */
  lemma {:induction false} InterleaveUnique<T(!new)>(a: seq<T>, x: seq<T>, y: seq<T>, nBpscs: nat)
    requires Regular(nBpscs) && Interleaved(a, x, nBpscs) && Interleaved(a, y, nBpscs)
    ensures x == y
  {
    hide PermAt, InverseAt;
    forall j | 0 <= j < |x|
      ensures x[j] == y[j]
    {
      PermOnto(nBpscs, j);
    }
  }

  /** The other direction: every position is the image of its inverse. */
  lemma {:induction false} PermOnto(nBpscs: nat, j: nat)
    requires Regular(nBpscs) && j < 52 * nBpscs
    ensures 0 <= InverseAt(nBpscs, j) < 52 * nBpscs
    ensures PermAt(nBpscs, InverseAt(nBpscs, j)) == j
  {
    hide SecondPerm, SecondInverse, FirstPerm, FirstInverse;
    var (s, nRow) := (Stride(nBpscs), 4 * nBpscs);
    var groups := if nBpscs == 1 then 4 else 8;
    assert groups * s == nRow;
    SecondInversePerm(s, groups, nRow, j);
    FirstInversePerm(nRow, SecondInverse(s, nRow, 52 * nBpscs, j));
  }

  // ---- The permutations as functions on whole symbols ----

  function InterleavedBits(bits: seq<Bit>, nBpscs: nat): (out: seq<Bit>)
    requires Regular(nBpscs) && |bits| == 52 * nBpscs
    ensures |out| == |bits|
  {
    seq(|bits|, j requires 0 <= j < |bits| => (PermOnto(nBpscs, j); bits[InverseAt(nBpscs, j)]))
  }

  function DeinterleavedLlrs(llrs: seq<real>, nBpscs: nat): (out: seq<real>)
    requires Regular(nBpscs) && |llrs| == 52 * nBpscs
    ensures |out| == |llrs|
  {
    seq(|llrs|, k requires 0 <= k < |llrs| => (PermBijective(nBpscs, k); llrs[PermAt(nBpscs, k)]))
  }

  lemma {:induction false} InterleavedIs(bits: seq<Bit>, out: seq<Bit>, nBpscs: nat)
    requires Regular(nBpscs) && |bits| == 52 * nBpscs
    ensures Interleaved(bits, out, nBpscs) <==> out == InterleavedBits(bits, nBpscs)
  {
    hide PermAt, InverseAt;
    forall k | 0 <= k < |bits|
      ensures 0 <= PermAt(nBpscs, k) < |bits| && InterleavedBits(bits, nBpscs)[PermAt(nBpscs, k)] == bits[k]
    {
      PermBijective(nBpscs, k);
    }
    assert Interleaved(bits, InterleavedBits(bits, nBpscs), nBpscs);
    if Interleaved(bits, out, nBpscs) {
      InterleaveUnique(bits, out, InterleavedBits(bits, nBpscs), nBpscs);
    }
  }

  lemma {:induction false} DeinterleavedIs(llrs: seq<real>, out: seq<real>, nBpscs: nat)
    requires Regular(nBpscs) && |llrs| == |out| == 52 * nBpscs
    ensures Interleaved(out, llrs, nBpscs) <==> out == DeinterleavedLlrs(llrs, nBpscs)
  {
    hide PermAt, InverseAt;
    forall k | 0 <= k < |llrs|
      ensures 0 <= PermAt(nBpscs, k) < |llrs|
    {
      PermBijective(nBpscs, k);
    }
  }

  // ---- LDPC tone mapper ----

  /** Data tone that carries constellation point `k`: D_TM = 4 over 52 tones. */
  function ToneIndex(k: nat): nat
    requires k < 52
    ensures ToneIndex(k) < 52
  {
    4 * (k % 13) + (k * 4) / 52
  }

  /** Which point tone `t` carries. */
  function ToneSource(t: nat): (k: nat)
    requires t < 52
    ensures k < 52
  {
    13 * (t % 4) + t / 4
  }

  /** The tone mapper is a bijection on the 52 data tones. */
  lemma {:induction false} ToneBijective(k: nat)
    requires k < 52
    ensures ToneSource(ToneIndex(k)) == k && ToneIndex(ToneSource(k)) == k
  {
    var (c, r) := (k % 13, k / 13);
    DivModUnique(4 * k, r, 4 * c, 52);
    DivModUnique(4 * c + r, c, r, 4);
    var (q, s) := (k / 4, k % 4);
    var t := 13 * s + q;
    DivModUnique(t, s, q, 13);
    DivModUnique(4 * t, s, 4 * q, 52);
  }
}

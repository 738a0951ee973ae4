/** Systematic encoding through the dual-diagonal parity part, and why its result
    is the one codeword with the given information bits. */
module LdpcEncoder {
  import opened Params
  import opened LdpcCode
  import opened Arith

  // ---- The structure the encoder relies on ----

  /** Sum over the first `m` block rows of what block column `bj` contributes at row `r`. */
  function ColSum(c: Code, bits: seq<Bit>, bj: nat, r: nat, m: nat): Bit
    requires c.Shaped() && m <= c.Mb() && bj < c.Width()
  {
    if m == 0 then false else ColSum(c, bits, bj, r, m - 1) != Term(c, bits, m - 1, bj, r)
  }

  /** The first parity column of blocks sums to the identity. */
  ghost predicate FirstColumnIdentity(c: Code)
    requires c.Shaped()
  {
    forall bits: seq<Bit>, r: nat | r < c.z :: ColSum(c, bits, c.kb, r, c.Mb()) == Cell(bits, c.z, c.kb, r)
  }

  /** Shift in parity column `j` of a block row. */
  function ParityShift(c: Code, bi: nat, j: nat): int
    requires c.Shaped() && bi < c.Mb() && j < c.Mb()
  {
    c.proto[bi][c.kb + j]
  }

  /** Parity column `j >= 1` holds two identity blocks, in block rows `j - 1` and `j`. */
  predicate Diagonal(c: Code)
    requires c.Shaped()
  {
    forall bi, j | 0 <= bi < c.Mb() && 1 <= j < c.Mb() ::
      if bi == j - 1 || bi == j then ParityShift(c, bi, j) == 0 else ParityShift(c, bi, j) < 0
  }

  ghost predicate DualDiagonal(c: Code)
    requires c.Shaped()
  {
    FirstColumnIdentity(c) && Diagonal(c)
  }

  /** The first parity column of the standard's tables: a shift `x` on top and bottom, and an
      identity block in between. */
  predicate ThreeEntryColumn(c: Code, mid: nat)
    requires c.Shaped()
  {
    && 0 < mid < c.Mb() - 1
    && c.proto[0][c.kb] >= 0 && c.proto[c.Mb() - 1][c.kb] == c.proto[0][c.kb]
    && c.proto[mid][c.kb] == 0
    && forall bi | 0 < bi < c.Mb() - 1 && bi != mid :: c.proto[bi][c.kb] < 0
  }

  lemma {:induction false} ThreeEntrySum(c: Code, mid: nat, bits: seq<Bit>, r: nat, m: nat)
    requires c.Shaped() && ThreeEntryColumn(c, mid) && r < c.z && m <= c.Mb()
    ensures var outer := Cell(bits, c.z, c.kb, Rotate(r, c.proto[0][c.kb], c.z));
            var inner := Cell(bits, c.z, c.kb, r);
            ColSum(c, bits, c.kb, r, m)
            == if m == 0 then false else if m <= mid then outer else if m < c.Mb() then outer != inner else inner
  {
    hide Rotate, Cell;
    if m > 0 {
      ThreeEntrySum(c, mid, bits, r, m - 1);
    }
  }

  lemma {:induction false} ThreeEntryIdentity(c: Code, mid: nat)
    requires c.Shaped() && ThreeEntryColumn(c, mid)
    ensures FirstColumnIdentity(c)
  {
    hide Cell, ColSum, ThreeEntryColumn;
    forall bits: seq<Bit>, r: nat | r < c.z
      ensures ColSum(c, bits, c.kb, r, c.Mb()) == Cell(bits, c.z, c.kb, r)
    {
      ThreeEntrySum(c, mid, bits, r, c.Mb());
      MidInside(c, mid);
    }
  }

  lemma {:induction false} MidInside(c: Code, mid: nat)
    requires c.Shaped() && ThreeEntryColumn(c, mid)
    ensures 0 < mid < c.Mb() - 1
  {
  }

  // ---- Sums over rows and columns ----

  function AllRows(c: Code, bits: seq<Bit>, r: nat, m: nat, n: nat): Bit
    requires c.Shaped() && m <= c.Mb() && n <= c.Width()
  {
    if m == 0 then false else AllRows(c, bits, r, m - 1, n) != RowSum(c, bits, m - 1, r, n)
  }

  /** One more block column adds its column sum to the sum of all rows. */
  lemma {:induction false} AllRowsNextColumn(c: Code, bits: seq<Bit>, r: nat, m: nat, n: nat)
    requires c.Shaped() && m <= c.Mb() && n < c.Width()
    ensures AllRows(c, bits, r, m, n + 1) == (AllRows(c, bits, r, m, n) != ColSum(c, bits, n, r, m))
  {
    hide Term;
    if m > 0 {
      AllRowsNextColumn(c, bits, r, m - 1, n);
    }
  }

  lemma {:induction false} DiagonalSum(c: Code, bits: seq<Bit>, j: nat, r: nat, m: nat)
    requires c.Shaped() && Diagonal(c) && 1 <= j < c.Mb() && r < c.z && m <= c.Mb()
    ensures ColSum(c, bits, c.kb + j, r, m) == (m == j && Cell(bits, c.z, c.kb + j, r))
  {
    hide Cell;
    if m > 0 {
      DiagonalSum(c, bits, j, r, m - 1);
      assert ParityShift(c, m - 1, j) == c.proto[m - 1][c.kb + j];
    }
  }

  /** All rows together leave the information sums and the first parity block. */
  lemma {:induction false} AllRowsValue(c: Code, bits: seq<Bit>, r: nat, j: nat)
    requires c.Shaped() && DualDiagonal(c) && r < c.z && 1 <= j <= c.Mb()
    ensures AllRows(c, bits, r, c.Mb(), c.kb + j)
            == (AllRows(c, bits, r, c.Mb(), c.kb) != Cell(bits, c.z, c.kb, r))
  {
    hide Cell, AllRows, ColSum, Diagonal;
    if j == 1 {
      AllRowsNextColumn(c, bits, r, c.Mb(), c.kb);
    } else {
      AllRowsValue(c, bits, r, j - 1);
      AllRowsNextColumn(c, bits, r, c.Mb(), c.kb + j - 1);
      DiagonalSum(c, bits, j - 1, r, c.Mb());
    }
  }

  /** Beyond its diagonal block a row other than the last has nothing. */
  lemma {:induction false} RowTail(c: Code, bits: seq<Bit>, bi: nat, r: nat, j: nat)
    requires c.Shaped() && Diagonal(c) && bi < c.Mb() - 1 && r < c.z && bi + 1 < j <= c.Mb()
    ensures RowSum(c, bits, bi, r, c.kb + j)
            == (RowSum(c, bits, bi, r, c.kb + bi + 1) != Cell(bits, c.z, c.kb + bi + 1, r))
  {
    hide Cell;
    if j > bi + 2 {
      RowTail(c, bits, bi, r, j - 1);
      assert ParityShift(c, bi, j - 1) < 0;
    } else {
      assert ParityShift(c, bi, bi + 1) == 0;
    }
  }

  // ---- The encoder's recurrence ----

  /** p0 is the sum of all information sums; p_{i+1} closes parity equation i. */
  ghost predicate Recurrence(c: Code, bits: seq<Bit>)
    requires c.Shaped()
  {
    && (forall r | 0 <= r < c.z :: FirstParity(c, bits, r))
    && (forall i, r | 0 <= i < c.Mb() - 1 && 0 <= r < c.z :: NextParity(c, bits, i, r))
  }

  predicate FirstParity(c: Code, bits: seq<Bit>, r: nat)
    requires c.Shaped()
  {
    Cell(bits, c.z, c.kb, r) == AllRows(c, bits, r, c.Mb(), c.kb)
  }

  predicate NextParity(c: Code, bits: seq<Bit>, i: nat, r: nat)
    requires c.Shaped() && i < c.Mb() - 1
  {
    Cell(bits, c.z, c.kb + i + 1, r) == RowSum(c, bits, i, r, c.kb + i + 1)
  }

  lemma {:induction false} AllRowsZero(c: Code, bits: seq<Bit>, r: nat, m: nat, n: nat)
    requires c.Shaped() && m <= c.Mb() && n <= c.Width()
    requires forall i | 0 <= i < m :: !RowSum(c, bits, i, r, n)
    ensures !AllRows(c, bits, r, m, n)
  {
    hide RowSum;
    if m > 0 {
      AllRowsZero(c, bits, r, m - 1, n);
    }
  }

  lemma {:induction false} OneEquation(c: Code, bits: seq<Bit>, bi: nat, r: nat)
    requires c.Shaped() && DualDiagonal(c) && bi < c.Mb() && r < c.z
    ensures bi < c.Mb() - 1 ==>
              (RowSum(c, bits, bi, r, c.Width()) <==>
               Cell(bits, c.z, c.kb + bi + 1, r) != RowSum(c, bits, bi, r, c.kb + bi + 1))
    ensures AllRows(c, bits, r, c.Mb(), c.Width())
            == (AllRows(c, bits, r, c.Mb(), c.kb) != Cell(bits, c.z, c.kb, r))
  {
    hide Cell, RowSum, AllRows;
    AllRowsValue(c, bits, r, c.Mb());
    if bi < c.Mb() - 1 {
      RowTail(c, bits, bi, r, c.Mb());
    }
  }

  /** A vector meets every parity equation exactly when it follows the encoder's recurrence. */
  lemma {:induction false} RecurrenceIffChecks(c: Code, bits: seq<Bit>)
    requires c.Shaped() && DualDiagonal(c)
    ensures Recurrence(c, bits) <==> SatisfiesChecks(c, bits)
  {
    hide Cell, RowSum, DualDiagonal;
    var (mb, w) := (c.Mb(), c.Width());
    if Recurrence(c, bits) {
      forall bi, r | 0 <= bi < mb && 0 <= r < c.z
        ensures !RowSum(c, bits, bi, r, w)
      {
        OneEquation(c, bits, bi, r);
        assert bi < mb - 1 ==> NextParity(c, bits, bi, r);
        if bi == mb - 1 {
          forall i | 0 <= i < mb - 1
            ensures !RowSum(c, bits, i, r, w)
          {
            OneEquation(c, bits, i, r);
            assert NextParity(c, bits, i, r);
          }
          assert FirstParity(c, bits, r);
          AllRowsZero(c, bits, r, mb - 1, w);
        }
      }
    }
    if SatisfiesChecks(c, bits) {
      forall r | 0 <= r < c.z
        ensures FirstParity(c, bits, r)
      {
        OneEquation(c, bits, 0, r);
        AllRowsZero(c, bits, r, mb, w);
      }
      forall i, r | 0 <= i < mb - 1 && 0 <= r < c.z
        ensures NextParity(c, bits, i, r)
      {
        OneEquation(c, bits, i, r);
      }
    }
  }

  // ---- Uniqueness ----

  /** The first `n` blocks of two vectors agree. */
  ghost predicate AgreeUpTo(c: Code, a: seq<Bit>, b: seq<Bit>, n: nat) {
    forall j, r: nat | 0 <= j < n && r < c.z :: Cell(a, c.z, j, r) == Cell(b, c.z, j, r)
  }

  lemma {:induction false} RowSumLocal(c: Code, a: seq<Bit>, b: seq<Bit>, bi: nat, r: nat, n: nat)
    requires c.Shaped() && bi < c.Mb() && n <= c.Width() && AgreeUpTo(c, a, b, n)
    ensures RowSum(c, a, bi, r, n) == RowSum(c, b, bi, r, n)
  {
    hide Cell;
    if n > 0 {
      RowSumLocal(c, a, b, bi, r, n - 1);
    }
  }

  lemma {:induction false} AllRowsLocal(c: Code, a: seq<Bit>, b: seq<Bit>, r: nat, m: nat, n: nat)
    requires c.Shaped() && m <= c.Mb() && n <= c.Width() && AgreeUpTo(c, a, b, n)
    ensures AllRows(c, a, r, m, n) == AllRows(c, b, r, m, n)
  {
    hide AgreeUpTo, RowSum;
    if m > 0 {
      AllRowsLocal(c, a, b, r, m - 1, n);
      RowSumLocal(c, a, b, m - 1, r, n);
    }
  }

  lemma {:induction false} RecurrenceDetermines(c: Code, a: seq<Bit>, b: seq<Bit>, n: nat)
    requires c.Shaped() && Recurrence(c, a) && Recurrence(c, b)
    requires AgreeUpTo(c, a, b, c.kb) && n <= c.Mb()
    ensures AgreeUpTo(c, a, b, c.kb + n)
  {
    hide Cell, RowSum, AllRows;
    if n > 0 {
      RecurrenceDetermines(c, a, b, n - 1);
      forall j, r: nat | c.kb + n - 1 <= j < c.kb + n && r < c.z
        ensures Cell(a, c.z, j, r) == Cell(b, c.z, j, r)
      {
        if n == 1 {
          AllRowsLocal(c, a, b, r, c.Mb(), c.kb);
          assert FirstParity(c, a, r) && FirstParity(c, b, r);
        } else {
          RowSumLocal(c, a, b, n - 2, r, c.kb + n - 1);
          assert NextParity(c, a, n - 2, r) && NextParity(c, b, n - 2, r);
        }
      }
    }
  }

  /** A position splits into a block and an offset. */
  lemma {:induction false} Position(i: nat, z: nat, w: nat)
    requires z > 0 && i < w * z
    ensures i / z < w && i % z < z && Flat(i / z, z, i % z) == i
  {
    MulOrder(i / z, w, z);
  }

  /** The information bits determine the codeword. */
  lemma {:induction false} CodewordUnique(c: Code, info: seq<Bit>, a: seq<Bit>, b: seq<Bit>)
    requires c.Shaped() && DualDiagonal(c)
    requires SystematicCodeword(c, info, a) && SystematicCodeword(c, info, b)
    ensures a == b
  {
    hide RowSum, DualDiagonal, Recurrence, AgreeUpTo;
    RecurrenceIffChecks(c, a);
    RecurrenceIffChecks(c, b);
    MulNonneg(c.Mb(), c.z);
    assert c.Width() * c.z == c.kb * c.z + c.Mb() * c.z;
    InfoAgrees(c, info, a);
    InfoAgrees(c, info, b);
    AgreeThrough(c, a, info, b);
    RecurrenceDetermines(c, a, b, c.Mb());
    AgreeSame(c, a, b);
  }

  lemma {:induction false} AgreeThrough(c: Code, a: seq<Bit>, info: seq<Bit>, b: seq<Bit>)
    requires AgreeUpTo(c, info, a, c.kb) && AgreeUpTo(c, info, b, c.kb)
    ensures AgreeUpTo(c, a, b, c.kb)
  {
    hide Cell;
    forall j, r: nat | 0 <= j < c.kb && r < c.z
      ensures Cell(a, c.z, j, r) == Cell(b, c.z, j, r)
    {
      assert Cell(info, c.z, j, r) == Cell(a, c.z, j, r) && Cell(info, c.z, j, r) == Cell(b, c.z, j, r);
    }
  }

  lemma {:induction false} AgreeSame(c: Code, a: seq<Bit>, b: seq<Bit>)
    requires c.Shaped() && AgreeUpTo(c, a, b, c.Width()) && |a| == |b| == c.Width() * c.z
    ensures a == b
  {
    forall i | 0 <= i < |a|
      ensures a[i] == b[i]
    {
      Position(i, c.z, c.Width());
      assert Cell(a, c.z, i / c.z, i % c.z) == Cell(b, c.z, i / c.z, i % c.z);
    }
  }

  // ---- The encoder ----

  /** Information bits followed by parity blocks. */
  function Assemble(info: seq<Bit>, blocks: seq<seq<Bit>>): seq<Bit> {
    if |blocks| == 0 then info
    else Assemble(info, blocks[..|blocks| - 1]) + blocks[|blocks| - 1]
  }

  /** Appending a block keeps the earlier cells and adds its own. */
  lemma {:induction false} AppendBlock(word: seq<Bit>, block: seq<Bit>, z: nat, w: nat)
    requires z > 0 && |word| == w * z && |block| == z
    ensures |word + block| == (w + 1) * z
    ensures forall j, r: nat | 0 <= j < w && r < z :: Cell(word + block, z, j, r) == Cell(word, z, j, r)
    ensures forall r | 0 <= r < z :: Cell(word + block, z, w, r) == block[r]
  {
    forall j, r: nat | 0 <= j < w && r < z
      ensures Cell(word + block, z, j, r) == Cell(word, z, j, r)
    {
      FlatBound(j, z, r, w);
    }
  }

  /** Block `kb + j` of the word is `blocks[j]`. */
  ghost predicate BlocksIn(c: Code, word: seq<Bit>, blocks: seq<seq<Bit>>)
    requires c.Shaped() && |word| == (c.kb + |blocks|) * c.z
    requires forall j | 0 <= j < |blocks| :: |blocks[j]| == c.z
  {
    forall j, r | 0 <= j < |blocks| && 0 <= r < c.z :: Cell(word, c.z, c.kb + j, r) == blocks[j][r]
  }

  lemma {:induction false} AssembleLength(c: Code, info: seq<Bit>, blocks: seq<seq<Bit>>)
    requires c.Shaped() && |info| == c.K()
    requires forall j | 0 <= j < |blocks| :: |blocks[j]| == c.z
    ensures |Assemble(info, blocks)| == (c.kb + |blocks|) * c.z
    ensures forall i | 0 <= i < |info| :: i < |Assemble(info, blocks)| && Assemble(info, blocks)[i] == info[i]
  {
    if |blocks| > 0 {
      var n := |blocks|;
      AssembleLength(c, info, blocks[..n - 1]);
      assert (c.kb + n) * c.z == (c.kb + n - 1) * c.z + c.z;
    }
  }

  lemma {:induction false} InfoAgrees(c: Code, info: seq<Bit>, word: seq<Bit>)
    requires c.Shaped() && |info| == c.K() <= |word| && forall i | 0 <= i < |info| :: word[i] == info[i]
    ensures AgreeUpTo(c, info, word, c.kb)
  {
    hide Flat;
    forall j, r: nat | 0 <= j < c.kb && r < c.z
      ensures Cell(info, c.z, j, r) == Cell(word, c.z, j, r)
    {
      FlatBound(j, c.z, r, c.kb);
    }
  }

  lemma {:induction false} AssembleBlocks(c: Code, info: seq<Bit>, blocks: seq<seq<Bit>>)
    requires c.Shaped() && |info| == c.K()
    requires forall j | 0 <= j < |blocks| :: |blocks[j]| == c.z
    ensures |Assemble(info, blocks)| == (c.kb + |blocks|) * c.z
    ensures BlocksIn(c, Assemble(info, blocks), blocks)
  {
    hide Cell;
    AssembleLength(c, info, blocks);
    if |blocks| > 0 {
      var front := blocks[..|blocks| - 1];
      AssembleLength(c, info, front);
      AssembleBlocks(c, info, front);
      LastBlockIn(c, Assemble(info, front), blocks);
    }
  }

  lemma {:induction false} AssembleCells(c: Code, info: seq<Bit>, blocks: seq<seq<Bit>>)
    requires c.Shaped() && |info| == c.K()
    requires forall j | 0 <= j < |blocks| :: |blocks[j]| == c.z
    ensures |Assemble(info, blocks)| == (c.kb + |blocks|) * c.z
    ensures forall i | 0 <= i < |info| :: Assemble(info, blocks)[i] == info[i]
    ensures AgreeUpTo(c, info, Assemble(info, blocks), c.kb)
    ensures BlocksIn(c, Assemble(info, blocks), blocks)
  {
    hide Assemble, AgreeUpTo, BlocksIn;
    AssembleLength(c, info, blocks);
    AssembleBlocks(c, info, blocks);
    MulNonneg(|blocks|, c.z);
    assert (c.kb + |blocks|) * c.z == c.kb * c.z + |blocks| * c.z;
    InfoAgrees(c, info, Assemble(info, blocks));
  }

  lemma {:induction false} LastBlockIn(c: Code, word: seq<Bit>, blocks: seq<seq<Bit>>)
    requires c.Shaped() && |blocks| > 0 && |word| == (c.kb + |blocks| - 1) * c.z
    requires forall j | 0 <= j < |blocks| :: |blocks[j]| == c.z
    requires BlocksIn(c, word, blocks[..|blocks| - 1])
    ensures |word + blocks[|blocks| - 1]| == (c.kb + |blocks|) * c.z
    ensures BlocksIn(c, word + blocks[|blocks| - 1], blocks)
  {
    hide Cell;
    var (n, front) := (|blocks|, blocks[..|blocks| - 1]);
    var longer := word + blocks[n - 1];
    AppendBlock(word, blocks[n - 1], c.z, c.kb + n - 1);
    forall j, r | 0 <= j < n && 0 <= r < c.z
      ensures Cell(longer, c.z, c.kb + j, r) == blocks[j][r]
    {
      if j < n - 1 {
        assert front[j] == blocks[j];
        assert Cell(word, c.z, c.kb + j, r) == front[j][r];
      }
    }
  }

  /** `acc[r] ^= block[(r + s) mod z]` for every `r`. */
  method AddRotated(acc: array<Bit>, block: seq<Bit>, s: nat)
    requires acc.Length == |block| > 0
    modifies acc
    ensures forall r | 0 <= r < acc.Length :: acc[r] == (old(acc[r]) != block[Rotate(r, s, acc.Length)])
  {
    for r := 0 to acc.Length
      invariant forall q | 0 <= q < r :: acc[q] == (old(acc[q]) != block[Rotate(q, s, acc.Length)])
      invariant forall q | r <= q < acc.Length :: acc[q] == old(acc[q])
    {
      acc[r] := acc[r] != block[Rotate(r, s, acc.Length)];
    }
  }

  lemma {:induction false} SliceCell(info: seq<Bit>, z: nat, b: nat, w: nat)
    requires z > 0 && b < w && |info| >= w * z
    ensures b * z <= (b + 1) * z <= |info| && |info[b * z..(b + 1) * z]| == z
    ensures forall q | 0 <= q < z :: info[b * z..(b + 1) * z][q] == Cell(info, z, b, q)
  {
    assert (b + 1) * z == b * z + z;
    MulStrict(b, w, z);
  }

  /** The information sum A_i s of one block row. */
  method InfoSum(c: Code, info: seq<Bit>, bi: nat) returns (sum: seq<Bit>)
    requires c.Shaped() && |info| == c.K() && bi < c.Mb()
    ensures |sum| == c.z && forall r | 0 <= r < c.z :: sum[r] == RowSum(c, info, bi, r, c.kb)
  {
    hide Rotate, Cell;
    var acc := new Bit[c.z](_ => false);
    for bj := 0 to c.kb
      invariant forall r | 0 <= r < c.z :: acc[r] == RowSum(c, info, bi, r, bj)
    {
      var s := c.proto[bi][bj];
      if s < 0 {
        continue;
      }
      SliceCell(info, c.z, bj, c.kb);
      AddRotated(acc, info[bj * c.z..(bj + 1) * c.z], s);
    }
    sum := acc[..];
  }

  /** Systematic encoding: p0 is the sum of the information sums, and each further parity
      block closes the parity equations of one block row. */
  method Encode(c: Code, info: seq<Bit>) returns (out: seq<Bit>)
    requires c.Shaped() && |info| == c.K()
    ensures |out| == c.N() && forall i | 0 <= i < c.K() :: out[i] == info[i]
    ensures Recurrence(c, out)
    ensures DualDiagonal(c) ==> SystematicCodeword(c, info, out)
  {
    hide Rotate, Cell, RowSum, DualDiagonal, AgreeUpTo, Assemble;
    var (z, mb) := (c.z, c.Mb());
    var sums: seq<seq<Bit>> := [];
    for bi := 0 to mb
      invariant |sums| == bi
      invariant forall i | 0 <= i < bi :: |sums[i]| == z && forall r | 0 <= r < z :: sums[i][r] == RowSum(c, info, i, r, c.kb)
    {
      var sum := InfoSum(c, info, bi);
      sums := sums + [sum];
    }
    var p0 := new Bit[z](_ => false);
    for bi := 0 to mb
      invariant forall r | 0 <= r < z :: p0[r] == AllRows(c, info, r, bi, c.kb)
    {
      var a := sums[bi];
      for r := 0 to z
        invariant forall q | 0 <= q < r :: p0[q] == AllRows(c, info, q, bi + 1, c.kb)
        invariant forall q | r <= q < z :: p0[q] == AllRows(c, info, q, bi, c.kb)
      {
        p0[r] := p0[r] != a[r];
      }
    }
    var parity: seq<seq<Bit>> := [p0[..]];
    for bi := 0 to mb - 1
      invariant |parity| == bi + 1
      invariant Closed(c, info, parity)
    {
      var p := ParityBlock(c, info, sums[bi], parity, bi);
      ClosedStep(c, info, parity, p);
      parity := parity + [p];
    }
    out := info;
    assert out == Assemble(info, parity[..0]) by { EmptyAssemble(info, parity); }
    for i := 0 to mb
      invariant out == Assemble(info, parity[..i])
    {
      NextAssemble(info, parity, i);
      out := out + parity[i];
    }
    assert parity[..mb] == parity;
    ClosedIsRecurrence(c, info, parity);
    if DualDiagonal(c) {
      RecurrenceIffChecks(c, out);
    }
  }

  lemma {:induction false} EmptyAssemble(info: seq<Bit>, blocks: seq<seq<Bit>>)
    ensures Assemble(info, blocks[..0]) == info
  {
  }

  lemma {:induction false} NextAssemble(info: seq<Bit>, blocks: seq<seq<Bit>>, i: nat)
    requires i < |blocks|
    ensures Assemble(info, blocks[..i + 1]) == Assemble(info, blocks[..i]) + blocks[i]
  {
    assert blocks[..i + 1][..i] == blocks[..i];
  }

  /** The parity blocks so far follow the recurrence. */
  ghost predicate Closed(c: Code, info: seq<Bit>, parity: seq<seq<Bit>>)
    requires c.Shaped() && 1 <= |parity| <= c.Mb()
  {
    && (forall j | 0 <= j < |parity| :: |parity[j]| == c.z)
    && (forall r | 0 <= r < c.z :: parity[0][r] == AllRows(c, info, r, c.Mb(), c.kb))
    && (forall i, r | 0 <= i < |parity| - 1 && 0 <= r < c.z :: BlockCloses(c, info, parity, i, r))
  }

  ghost predicate BlockCloses(c: Code, info: seq<Bit>, parity: seq<seq<Bit>>, i: nat, r: nat)
    requires c.Shaped() && |parity| <= c.Mb() && i < |parity| - 1
  {
    r < |parity[i + 1]| && parity[i + 1][r] == RowSum(c, Assemble(info, parity[..i + 1]), i, r, c.kb + i + 1)
  }

  /** p_{bi+1}: the information sum of row `bi` plus its earlier parity blocks. */
  method ParityBlock(c: Code, info: seq<Bit>, sum: seq<Bit>, parity: seq<seq<Bit>>, bi: nat) returns (p: seq<Bit>)
    requires c.Shaped() && |info| == c.K() && bi < c.Mb() - 1 && |parity| == bi + 1
    requires |sum| == c.z && forall r | 0 <= r < c.z :: sum[r] == RowSum(c, info, bi, r, c.kb)
    requires forall j | 0 <= j < |parity| :: |parity[j]| == c.z
    ensures |p| == c.z && forall r | 0 <= r < c.z :: p[r] == RowSum(c, Assemble(info, parity), bi, r, c.kb + bi + 1)
  {
    hide Rotate, Cell, Assemble, AgreeUpTo;
    ghost var word := Assemble(info, parity);
    AssembleCells(c, info, parity);
    var acc := new Bit[c.z](r requires 0 <= r < |sum| => sum[r]);
    forall r | 0 <= r < c.z
      ensures acc[r] == RowSum(c, word, bi, r, c.kb)
    {
      RowSumLocal(c, info, word, bi, r, c.kb);
    }
    for bj := 0 to bi + 1
      invariant forall r | 0 <= r < c.z :: acc[r] == RowSum(c, word, bi, r, c.kb + bj)
    {
      var s := c.proto[bi][c.kb + bj];
      if s < 0 {
        continue;
      }
      AddRotated(acc, parity[bj], s);
    }
    p := acc[..];
  }

  lemma {:induction false} ClosedStep(c: Code, info: seq<Bit>, parity: seq<seq<Bit>>, p: seq<Bit>)
    requires c.Shaped() && 1 <= |parity| < c.Mb() && Closed(c, info, parity) && |p| == c.z
    requires forall r | 0 <= r < c.z :: p[r] == RowSum(c, Assemble(info, parity), |parity| - 1, r, c.kb + |parity|)
    ensures Closed(c, info, parity + [p])
  {
    hide RowSum, Assemble, AllRows;
    var all := parity + [p];
    forall i, r | 0 <= i < |all| - 1 && 0 <= r < c.z
      ensures BlockCloses(c, info, all, i, r)
    {
      if i < |parity| - 1 {
        assert BlockCloses(c, info, parity, i, r);
        assert all[..i + 1] == parity[..i + 1];
      } else {
        assert all[..i + 1] == parity;
      }
    }
  }

  lemma {:induction false} ClosedIsRecurrence(c: Code, info: seq<Bit>, parity: seq<seq<Bit>>)
    requires c.Shaped() && |info| == c.K() && |parity| == c.Mb() && Closed(c, info, parity)
    ensures var out := Assemble(info, parity);
            |out| == c.N() && (forall i | 0 <= i < c.K() :: out[i] == info[i]) && Recurrence(c, out)
  {
    hide RowSum, Assemble, Cell, AgreeUpTo, AllRows;
    var out := Assemble(info, parity);
    AssembleCells(c, info, parity);
    forall r | 0 <= r < c.z
      ensures FirstParity(c, out, r)
    {
      AllRowsLocal(c, info, out, r, c.Mb(), c.kb);
      assert Cell(out, c.z, c.kb + 0, r) == parity[0][r];
    }
    forall i, r | 0 <= i < c.Mb() - 1 && 0 <= r < c.z
      ensures NextParity(c, out, i, r)
    {
      assert BlockCloses(c, info, parity, i, r);
      PrefixAgrees(c, info, parity, i + 1);
      RowSumLocal(c, Assemble(info, parity[..i + 1]), out, i, r, c.kb + i + 1);
      assert Cell(out, c.z, c.kb + (i + 1), r) == parity[i + 1][r];
    }
  }

  lemma {:induction false} PrefixAgrees(c: Code, info: seq<Bit>, blocks: seq<seq<Bit>>, n: nat)
    requires c.Shaped() && |info| == c.K() && n <= |blocks|
    requires forall j | 0 <= j < |blocks| :: |blocks[j]| == c.z
    ensures AgreeUpTo(c, Assemble(info, blocks[..n]), Assemble(info, blocks), c.kb + n)
  {
    hide Assemble, Cell;
    AssembleCells(c, info, blocks);
    AssembleCells(c, info, blocks[..n]);
    forall j, r: nat | 0 <= j < c.kb + n && r < c.z
      ensures Cell(Assemble(info, blocks[..n]), c.z, j, r) == Cell(Assemble(info, blocks), c.z, j, r)
    {
      if j >= c.kb {
        var i := j - c.kb;
        assert Cell(Assemble(info, blocks[..n]), c.z, c.kb + i, r) == blocks[..n][i][r];
        assert Cell(Assemble(info, blocks), c.z, c.kb + i, r) == blocks[i][r];
      }
    }
  }
}

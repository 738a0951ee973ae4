/** Quasi-cyclic LDPC codes with a dual-diagonal parity part: construction,
    systematic encoding and the syndrome check (crates/s2g-phy/src/ldpc.rs). */
module LdpcCode {
  import opened Params
  import opened Arith

  /** `proto[bi][bj]` is the cyclic shift of a `z` by `z` block, negative for the null block;
      the first `kb` block columns hold information bits, the other `|proto|` hold parity bits. */
  datatype Code = Code(z: nat, kb: nat, proto: seq<seq<int>>, checks: seq<seq<nat>>)
  {
    function Mb(): nat { |proto| }
    function Width(): nat { kb + |proto| }
    function K(): nat { kb * z }
    function M(): nat { |proto| * z }
    function N(): nat { (kb + |proto|) * z }

    predicate Shaped() {
      z > 0 && |proto| >= 2 && forall bi | 0 <= bi < |proto| :: |proto[bi]| == kb + |proto|
    }

    /** The checks are the expanded rows of the prototype. */
    ghost predicate Valid() {
      && Shaped()
      && |checks| == M()
      && forall bi, r | 0 <= bi < Mb() && 0 <= r < z ::
           Flat(bi, z, r) < |checks| && checks[Flat(bi, z, r)] == Adjacent(this, bi, r, Width())
    }
  }

  // ---- Block indexing ----

  function Flat(b: nat, z: nat, r: nat): nat {
    b * z + r
  }

  lemma {:induction false} FlatBound(b: nat, z: nat, r: nat, w: nat)
    requires b < w && r < z
    ensures Flat(b, z, r) < w * z
  {
    MulStrict(b, w, z);
  }

  lemma {:induction false} FlatInjective(b: nat, r: nat, c: nat, q: nat, z: nat)
    requires r < z && q < z
    ensures Flat(b, z, r) == Flat(c, z, q) <==> b == c && r == q
  {
    DivModUnique(Flat(b, z, r), b, r, z);
    DivModUnique(Flat(c, z, q), c, q, z);
  }

  /** Row `r` of the permutation block P_s has its one in column `(r + s) mod z`. */
  function Rotate(r: nat, s: nat, z: nat): (q: nat)
    requires z > 0
    ensures q < z
    ensures s == 0 && r < z ==> q == r
  {
    (r + s) % z
  }

  function BitAt(bits: seq<Bit>, i: nat): Bit {
    i < |bits| && bits[i]
  }

  function Cell(bits: seq<Bit>, z: nat, b: nat, r: nat): Bit {
    BitAt(bits, Flat(b, z, r))
  }

  // ---- Parity checks ----

  /** What block (`bi`, `bj`) contributes to parity equation `r` of block row `bi`. */
  function Term(c: Code, bits: seq<Bit>, bi: nat, bj: nat, r: nat): Bit
    requires c.Shaped() && bi < c.Mb() && bj < c.Width()
  {
    var s := c.proto[bi][bj];
    if s < 0 then false else Cell(bits, c.z, bj, Rotate(r, s, c.z))
  }

  /** Sum over the first `n` blocks of a row. */
  function RowSum(c: Code, bits: seq<Bit>, bi: nat, r: nat, n: nat): Bit
    requires c.Shaped() && bi < c.Mb() && n <= c.Width()
  {
    if n == 0 then false else RowSum(c, bits, bi, r, n - 1) != Term(c, bits, bi, n - 1, r)
  }

  /** Every parity equation of the prototype holds. */
  ghost predicate SatisfiesChecks(c: Code, bits: seq<Bit>)
    requires c.Shaped()
  {
    forall bi, r | 0 <= bi < c.Mb() && 0 <= r < c.z :: !RowSum(c, bits, bi, r, c.Width())
  }

  /** A codeword with the given information part. */
  ghost predicate SystematicCodeword(c: Code, info: seq<Bit>, word: seq<Bit>)
    requires c.Shaped()
  {
    && |info| == c.K() && |word| == c.N()
    && (forall i | 0 <= i < c.K() :: word[i] == info[i])
    && SatisfiesChecks(c, word)
  }

  // ---- The expanded adjacency ----

  /** Variables of check `r` of block row `bi` within the first `n` block columns. */
  function Adjacent(c: Code, bi: nat, r: nat, n: nat): seq<nat>
    requires c.Shaped() && bi < c.Mb() && n <= c.Width()
  {
    if n == 0 then []
    else
      var s := c.proto[bi][n - 1];
      Adjacent(c, bi, r, n - 1) + (if s < 0 then [] else [Flat(n - 1, c.z, Rotate(r, s, c.z))])
  }

  function ParityOf(check: seq<nat>, bits: seq<Bit>, n: nat): Bit
    requires n <= |check|
  {
    if n == 0 then false else ParityOf(check, bits, n - 1) != BitAt(bits, check[n - 1])
  }

  lemma {:induction false} ParityPrefix(a: seq<nat>, b: seq<nat>, bits: seq<Bit>, n: nat)
    requires n <= |a|
    ensures ParityOf(a + b, bits, n) == ParityOf(a, bits, n)
  {
    if n > 0 {
      ParityPrefix(a, b, bits, n - 1);
    }
  }

  /** Folding the adjacency list of a check evaluates its parity equation. */
  lemma {:induction false} AdjacentParity(c: Code, bits: seq<Bit>, bi: nat, r: nat, n: nat)
    requires c.Shaped() && bi < c.Mb() && n <= c.Width()
    ensures ParityOf(Adjacent(c, bi, r, n), bits, |Adjacent(c, bi, r, n)|) == RowSum(c, bits, bi, r, n)
  {
    hide Rotate, Flat, BitAt;
    if n > 0 {
      AdjacentParity(c, bits, bi, r, n - 1);
      var s := c.proto[bi][n - 1];
      var a := Adjacent(c, bi, r, n - 1);
      var b := if s < 0 then [] else [Flat(n - 1, c.z, Rotate(r, s, c.z))];
      ParityPrefix(a, b, bits, |a|);
      if s < 0 {
        assert a + b == a;
      }
    }
  }

  /** Every variable of a check is in range, and a check lists no variable twice. */
  lemma {:induction false} AdjacentDistinct(c: Code, bi: nat, r: nat, n: nat)
    requires c.Shaped() && bi < c.Mb() && n <= c.Width()
    ensures forall i | 0 <= i < |Adjacent(c, bi, r, n)| :: Adjacent(c, bi, r, n)[i] < n * c.z
    ensures forall i, j | 0 <= i < j < |Adjacent(c, bi, r, n)| :: Adjacent(c, bi, r, n)[i] < Adjacent(c, bi, r, n)[j]
  {
    if n > 0 {
      AdjacentDistinct(c, bi, r, n - 1);
      var s := c.proto[bi][n - 1];
      assert n * c.z == (n - 1) * c.z + c.z;
      if s >= 0 {
        FlatBound(n - 1, c.z, Rotate(r, s, c.z), n);
      }
    }
  }

  /** Build a code from its prototype, expanding every block into its ones. */
  method Build(z: nat, kb: nat, proto: seq<seq<int>>) returns (c: Code)
    requires Code(z, kb, proto, []).Shaped()
    ensures c.z == z && c.kb == kb && c.proto == proto && c.Valid()
  {
    hide Adjacent, Flat, Rotate, Expanded;
    ghost var c0 := Code(z, kb, proto, []);
    var checks := new seq<nat>[|proto| * z](_ => []);
    NothingExpanded(c0, checks[..]);
    for bi := 0 to |proto|
      invariant Expanded(c0, checks[..], bi, 0, 0)
    {
      var row := proto[bi];
      for bj := 0 to |row|
        invariant Expanded(c0, checks[..], bi, bj, 0)
      {
        var s := row[bj];
        if s < 0 {
          NullBlock(c0, checks[..], bi, bj);
          continue;
        }
        ExpandBlock(c0, checks, z, s, bi, bj);
      }
      RowDone(c0, checks[..], bi);
    }
    c := Code(z, kb, proto, checks[..]);
    AdjacencyIgnoresChecks(c0, c);
  }

  /** Add the `z` ones of one block to their checks. */
  method ExpandBlock(ghost c: Code, checks: array<seq<nat>>, z: nat, s: nat, bi: nat, bj: nat)
    requires c.Shaped() && z == c.z && bi < c.Mb() && bj < c.Width() && c.proto[bi][bj] == s
    requires Expanded(c, checks[..], bi, bj, 0)
    modifies checks
    ensures Expanded(c, checks[..], bi, bj + 1, 0)
  {
    hide Adjacent, Rotate;
    for r := 0 to z
      invariant Expanded(c, checks[..], bi, bj, r)
    {
      var col := bj * z + Rotate(r, s, z);
      FlatBound(bi, z, r, c.Mb());
      OneEntry(c, checks[..], bi, bj, r);
      ghost var at := Flat(bi, z, r);
      ghost var after := checks[..][at := checks[..][at] + [Flat(bj, z, Rotate(r, s, z))]];
      checks[bi * z + r] := checks[bi * z + r] + [col];
      assert checks[..] == after;
    }
    BlockDone(c, checks[..], bi, bj);
  }

  /** Construction progress: block rows before `bi` are complete, and in row `bi` the checks
      before `r` have the first `bj + 1` blocks and the others the first `bj`. */
  ghost predicate Expanded(c: Code, checks: seq<seq<nat>>, bi: nat, bj: nat, r: nat)
    requires c.Shaped() && bi <= c.Mb() && bj <= c.Width() && (r > 0 ==> bj < c.Width())
  {
    && |checks| == c.Mb() * c.z
    && forall b, q | 0 <= b < c.Mb() && 0 <= q < c.z ::
         Flat(b, c.z, q) < |checks| && checks[Flat(b, c.z, q)] == Adjacent(c, b, q, Progress(c, bi, bj, r, b, q))
  }

  function Progress(c: Code, bi: nat, bj: nat, r: nat, b: nat, q: nat): (n: nat)
    requires bj <= c.Width() && (r > 0 ==> bj < c.Width())
    ensures n <= c.Width()
  {
    if b < bi then c.Width() else if b > bi then 0 else if q < r then bj + 1 else bj
  }

  lemma {:induction false} NothingExpanded(c: Code, checks: seq<seq<nat>>)
    requires c.Shaped() && |checks| == c.Mb() * c.z
    requires forall i | 0 <= i < |checks| :: checks[i] == []
    ensures Expanded(c, checks, 0, 0, 0)
  {
    hide Flat;
    forall b, q | 0 <= b < c.Mb() && 0 <= q < c.z
      ensures Flat(b, c.z, q) < |checks|
    {
      FlatBound(b, c.z, q, c.Mb());
    }
  }

  lemma {:induction false} OneEntry(c: Code, checks: seq<seq<nat>>, bi: nat, bj: nat, r: nat)
    requires c.Shaped() && bi < c.Mb() && bj < c.Width() && r < c.z && c.proto[bi][bj] >= 0
    requires Expanded(c, checks, bi, bj, r)
    requires Flat(bi, c.z, r) < |checks|
    ensures Expanded(c, checks[Flat(bi, c.z, r) := checks[Flat(bi, c.z, r)] + [Flat(bj, c.z, Rotate(r, c.proto[bi][bj], c.z))]], bi, bj, r + 1)
  {
    hide Flat, Rotate;
    var after := checks[Flat(bi, c.z, r) := checks[Flat(bi, c.z, r)] + [Flat(bj, c.z, Rotate(r, c.proto[bi][bj], c.z))]];
    forall b, q | 0 <= b < c.Mb() && 0 <= q < c.z
      ensures Flat(b, c.z, q) < |after| && after[Flat(b, c.z, q)] == Adjacent(c, b, q, Progress(c, bi, bj, r + 1, b, q))
    {
      FlatInjective(b, q, bi, r, c.z);
    }
  }

  lemma {:induction false} NullBlock(c: Code, checks: seq<seq<nat>>, bi: nat, bj: nat)
    requires c.Shaped() && bi < c.Mb() && bj < c.Width() && c.proto[bi][bj] < 0
    requires Expanded(c, checks, bi, bj, 0)
    ensures Expanded(c, checks, bi, bj + 1, 0)
  {
    hide Flat, Rotate;
    forall b, q | 0 <= b < c.Mb() && 0 <= q < c.z
      ensures checks[Flat(b, c.z, q)] == Adjacent(c, b, q, Progress(c, bi, bj + 1, 0, b, q))
    {
      if b == bi {
        assert Adjacent(c, b, q, bj + 1) == Adjacent(c, b, q, bj) + [];
      }
    }
  }

  lemma {:induction false} BlockDone(c: Code, checks: seq<seq<nat>>, bi: nat, bj: nat)
    requires c.Shaped() && bi < c.Mb() && bj < c.Width()
    requires Expanded(c, checks, bi, bj, c.z)
    ensures Expanded(c, checks, bi, bj + 1, 0)
  {
    hide Flat, Adjacent;
    forall b, q | 0 <= b < c.Mb() && 0 <= q < c.z
      ensures checks[Flat(b, c.z, q)] == Adjacent(c, b, q, Progress(c, bi, bj + 1, 0, b, q))
    {
      assert Progress(c, bi, bj, c.z, b, q) == Progress(c, bi, bj + 1, 0, b, q);
    }
  }

  lemma {:induction false} RowDone(c: Code, checks: seq<seq<nat>>, bi: nat)
    requires c.Shaped() && bi < c.Mb()
    requires Expanded(c, checks, bi, c.Width(), 0)
    ensures Expanded(c, checks, bi + 1, 0, 0)
  {
    hide Flat, Adjacent;
    forall b, q | 0 <= b < c.Mb() && 0 <= q < c.z
      ensures checks[Flat(b, c.z, q)] == Adjacent(c, b, q, Progress(c, bi + 1, 0, 0, b, q))
    {
      assert b <= bi ==> Progress(c, bi, c.Width(), 0, b, q) == c.Width();
      assert Adjacent(c, b, q, Progress(c, bi, c.Width(), 0, b, q)) == checks[Flat(b, c.z, q)];
    }
  }

  lemma {:induction false} AdjacencyIgnoresChecks(c: Code, d: Code)
    requires c.Shaped() && d == c.(checks := d.checks)
    requires Expanded(c, d.checks, c.Mb(), 0, 0)
    ensures d.Valid()
  {
    hide Flat;
    forall bi, r | 0 <= bi < d.Mb() && 0 <= r < d.z
      ensures d.checks[Flat(bi, d.z, r)] == Adjacent(d, bi, r, d.Width())
    {
      SameAdjacent(c, d, bi, r, d.Width());
    }
  }

  lemma {:induction false} SameAdjacent(c: Code, d: Code, bi: nat, r: nat, n: nat)
    requires c.Shaped() && d == c.(checks := d.checks) && bi < c.Mb() && n <= c.Width()
    ensures Adjacent(c, bi, r, n) == Adjacent(d, bi, r, n)
  {
    hide Flat, Rotate;
    if n > 0 {
      SameAdjacent(c, d, bi, r, n - 1);
    }
  }

  /** Syndrome check over the expanded adjacency. */
  method IsCodeword(c: Code, bits: seq<Bit>) returns (ok: bool)
    requires c.Valid() && |bits| == c.N()
    ensures ok <==> SatisfiesChecks(c, bits)
  {
    hide BitAt;
    ok := true;
    for i := 0 to |c.checks|
      invariant ok <==> forall k | 0 <= k < i :: !ParityOf(c.checks[k], bits, |c.checks[k]|)
    {
      var acc := false;
      var check := c.checks[i];
      CheckInRange(c, i);
      for j := 0 to |check|
        invariant acc == ParityOf(check, bits, j)
      {
        assert BitAt(bits, check[j]) == bits[check[j]] by { BitInRange(bits, check[j]); }
        acc := acc != bits[check[j]];
      }
      ok := ok && !acc;
    }
    ChecksMeanRows(c, bits);
  }

  lemma {:induction false} BitInRange(bits: seq<Bit>, i: nat)
    requires i < |bits|
    ensures BitAt(bits, i) == bits[i]
  {
  }

  /** Check `i` belongs to block row `i / z`, and its variables are in range and distinct. */
  lemma {:induction false} CheckInRange(c: Code, i: nat)
    requires c.Valid() && i < |c.checks|
    ensures i / c.z < c.Mb() && Flat(i / c.z, c.z, i % c.z) == i
    ensures c.checks[i] == Adjacent(c, i / c.z, i % c.z, c.Width())
    ensures forall j | 0 <= j < |c.checks[i]| :: c.checks[i][j] < c.N()
    ensures forall j, k | 0 <= j < k < |c.checks[i]| :: c.checks[i][j] != c.checks[i][k]
  {
    var (bi, r) := (i / c.z, i % c.z);
    assert i == bi * c.z + r;
    MulOrder(bi, c.Mb(), c.z);
    assert Flat(bi, c.z, r) == i;
    AdjacentDistinct(c, bi, r, c.Width());
  }

  /** Check `bi * z + r` is parity equation `r` of block row `bi`. */
  lemma {:induction false} CheckIsRow(c: Code, bits: seq<Bit>, bi: nat, r: nat)
    requires c.Valid() && bi < c.Mb() && r < c.z
    ensures var f := Flat(bi, c.z, r);
            f < |c.checks| && ParityOf(c.checks[f], bits, |c.checks[f]|) == RowSum(c, bits, bi, r, c.Width())
  {
    hide Flat, ParityOf, RowSum, Adjacent;
    AdjacentParity(c, bits, bi, r, c.Width());
  }

  lemma {:induction false} RowOfCheck(c: Code, bits: seq<Bit>, k: nat)
    requires c.Valid() && k < |c.checks|
    ensures k / c.z < c.Mb() && ParityOf(c.checks[k], bits, |c.checks[k]|) == RowSum(c, bits, k / c.z, k % c.z, c.Width())
  {
    hide Flat, ParityOf, RowSum, Adjacent;
    CheckInRange(c, k);
    CheckIsRow(c, bits, k / c.z, k % c.z);
  }

  lemma {:induction false} ChecksMeanRows(c: Code, bits: seq<Bit>)
    requires c.Valid()
    ensures (forall k | 0 <= k < |c.checks| :: !ParityOf(c.checks[k], bits, |c.checks[k]|)) <==> SatisfiesChecks(c, bits)
  {
    hide ParityOf, RowSum, Code.Valid, Flat;
    assert c.Shaped() by { ValidShaped(c); }
    if forall k | 0 <= k < |c.checks| :: !ParityOf(c.checks[k], bits, |c.checks[k]|) {
      forall bi, r | 0 <= bi < c.Mb() && 0 <= r < c.z
        ensures !RowSum(c, bits, bi, r, c.Width())
      {
        CheckIsRow(c, bits, bi, r);
      }
    }
    if SatisfiesChecks(c, bits) {
      forall k | 0 <= k < |c.checks|
        ensures !ParityOf(c.checks[k], bits, |c.checks[k]|)
      {
        RowOfCheck(c, bits, k);
      }
    }
  }

  lemma {:induction false} ValidShaped(c: Code)
    requires c.Valid()
    ensures c.Shaped()
  {
  }
}

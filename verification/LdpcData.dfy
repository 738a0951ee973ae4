/** Encoding and decoding a PPDU's data bits: shortened, punctured and repeated codewords
    (`encode_data` and `decode_data` of crates/s2g-phy/src/ldpc.rs). */
module LdpcData {
  import opened Params
  import opened Arith
  import opened LdpcCode
  import opened LdpcEncoder
  import opened LdpcSoundness
  import opened LdpcPpdu
  import opened AnnexF

  // ---- The code of a PPDU ----

  /** `c` is the expanded code of the parameters' block length and rate. */
  ghost predicate CodeOf(p: PpduParams, c: Code) {
    BlockLength(p.l) && c.Valid() && c == Unexpanded(p.l, p.rate).(checks := c.checks)
  }

  method GetCode(p: PpduParams) returns (c: Code)
    requires BlockLength(p.l)
    ensures CodeOf(p, c) && Suits(p, c)
  {
    hide PrototypeRow, DualDiagonal;
    PrototypesDualDiagonal(p.l, p.rate);
    c := Build(p.l / 24, 24 - BlockRows(p.rate), Prototype(p.l, p.rate));
    CodeSuits(p, c);
  }

  lemma {:induction false} AdjacentCount(c: Code, bi: nat, r: nat, i: nat, j: nat, n: nat)
    requires c.Shaped() && bi < c.Mb() && i < j < c.Width() && n <= c.Width()
    requires c.proto[bi][i] >= 0 && c.proto[bi][j] >= 0
    ensures |Adjacent(c, bi, r, n)| >= (if n > j then 2 else if n > i then 1 else 0)
  {
    hide Flat, Rotate;
    if n > 0 {
      AdjacentCount(c, bi, r, i, j, n - 1);
    }
  }

  /** What the encoder and the decoder rely on: a dual-diagonal code of the right size whose
      checks have at least two variables. */
  ghost predicate Suits(p: PpduParams, c: Code) {
    && c.Valid() && DualDiagonal(c) && DegreeTwo(c)
    && c.K() == p.K() && c.N() == p.l && c.M() == p.M() && c.K() + c.M() == c.N() && c.M() > 0
  }

  /** The standard's codes have all of it. */
  lemma {:induction false} CodeSuits(p: PpduParams, c: Code)
    requires CodeOf(p, c)
    ensures Suits(p, c)
  {
    var u := Unexpanded(p.l, p.rate);
    PrototypesDualDiagonal(p.l, p.rate);
    SameShape(u, c);
    InfoSize(p.l, p.rate);
    forall k | 0 <= k < |c.checks|
      ensures |c.checks[k]| >= 2
    {
      CheckInRange(c, k);
      RowDegree(p, c, k / c.z, k % c.z);
    }
  }

  lemma {:induction false} InfoSize(l: nat, rate: CodeRate)
    requires BlockLength(l)
    ensures Unexpanded(l, rate).K() == l * rate.Num() / rate.Den()
  {
    hide Prototype;
    match rate case R12 => case R23 => case R34 => case R56 =>
  }

  lemma {:induction false} SameShape(u: Code, c: Code)
    requires u.Shaped() && c == u.(checks := c.checks) && DualDiagonal(u)
    ensures DualDiagonal(c)
  {
    forall bits: seq<Bit>, r: nat | r < c.z
      ensures ColSum(c, bits, c.kb, r, c.Mb()) == Cell(bits, c.z, c.kb, r)
    {
      SameColSum(u, c, bits, r, c.Mb());
      assert ColSum(u, bits, u.kb, r, u.Mb()) == Cell(bits, u.z, u.kb, r);
    }
    assert forall bi, j | 0 <= bi < c.Mb() && 1 <= j < c.Mb() :: ParityShift(c, bi, j) == ParityShift(u, bi, j);
  }

  lemma {:induction false} SameColSum(u: Code, c: Code, bits: seq<Bit>, r: nat, m: nat)
    requires u.Shaped() && c == u.(checks := c.checks) && m <= u.Mb()
    ensures ColSum(u, bits, u.kb, r, m) == ColSum(c, bits, c.kb, r, m)
  {
    hide Cell, Rotate;
    if m > 0 {
      SameColSum(u, c, bits, r, m - 1);
    }
  }

  lemma {:induction false} RowDegree(p: PpduParams, c: Code, bi: nat, r: nat)
    requires CodeOf(p, c) && bi < c.Mb()
    ensures |Adjacent(c, bi, r, c.Width())| >= 2
  {
    hide Adjacent, PrototypeRow;
    var mb := c.Mb();
    RowStandard(p.l, p.rate, bi);
    assert c.proto[bi] == PrototypeRow(p.l, p.rate, bi);
    var (i, j) := if bi == 0 then (0, 1) else if bi == mb - 1 then (0, mb - 1) else (bi, bi + 1);
    assert c.proto[bi][24 - mb + i] == StandardEntry(mb, bi, i);
    assert c.proto[bi][24 - mb + j] == StandardEntry(mb, bi, j);
    AdjacentCount(c, bi, r, 24 - mb + i, 24 - mb + j, c.Width());
  }

  // ---- Sizes of the codewords ----

  function ShrtOf(p: PpduParams, j: nat): (n: nat)
    requires Balanced(p) && j < p.nCw
    ensures n <= p.K()
  {
    SplitBound(p.nShrt, p.nCw, p.K(), j);
    Split(p.nShrt, p.nCw, j)
  }

  function PuncOf(p: PpduParams, j: nat): (n: nat)
    requires Balanced(p) && j < p.nCw
    ensures n <= p.M()
  {
    CodewordBits(p.nCw, p.l, p.rate);
    SplitBound(p.nPunc, p.nCw, p.M(), j);
    Split(p.nPunc, p.nCw, j)
  }

  function RepOf(p: PpduParams, j: nat): nat
    requires Balanced(p) && j < p.nCw
  {
    Split(p.nRep, p.nCw, j)
  }

  function InfoLen(p: PpduParams, j: nat): (n: nat)
    requires Balanced(p) && j < p.nCw
    ensures n + ShrtOf(p, j) == p.K() < p.l
  {
    CodewordBits(p.nCw, p.l, p.rate);
    p.K() - ShrtOf(p, j)
  }

  function ParityLen(p: PpduParams, j: nat): (n: nat)
    requires Balanced(p) && j < p.nCw
    ensures p.K() + n + PuncOf(p, j) == p.l
  {
    p.M() - PuncOf(p, j)
  }

  function BaseLen(p: PpduParams, j: nat): (n: nat)
    requires Balanced(p) && j < p.nCw
    ensures n == InfoLen(p, j) + ParityLen(p, j)
  {
    InfoLen(p, j) + ParityLen(p, j)
  }

  /** Where the data bits, and the transmitted bits, of codeword `j` start. */
  function InfoPos(p: PpduParams, j: nat): nat
    requires Balanced(p) && j <= p.nCw
  {
    if j == 0 then 0 else InfoPos(p, j - 1) + InfoLen(p, j - 1)
  }

  function TxPos(p: PpduParams, j: nat): nat
    requires Balanced(p) && j <= p.nCw
  {
    if j == 0 then 0 else TxPos(p, j - 1) + BaseLen(p, j - 1) + RepOf(p, j - 1)
  }

  lemma {:induction false} PosSums(p: PpduParams, j: nat)
    requires Balanced(p) && j <= p.nCw
    ensures InfoPos(p, j) == j * p.K() - SplitSum(p.nShrt, p.nCw, j)
    ensures TxPos(p, j) == j * p.l - SplitSum(p.nShrt, p.nCw, j) - SplitSum(p.nPunc, p.nCw, j) + SplitSum(p.nRep, p.nCw, j)
  {
    if j > 0 {
      PosSums(p, j - 1);
      assert j * p.K() == (j - 1) * p.K() + p.K();
      assert j * p.l == (j - 1) * p.l + p.l;
    }
  }

  /** The data bits of all codewords are the PPDU's data bits, and their transmitted bits fill
      its coded bits exactly. */
  lemma {:induction false} PositionsClose(p: PpduParams)
    requires Balanced(p)
    ensures InfoPos(p, p.nCw) == p.nPld
    ensures TxPos(p, p.nCw) == p.nAvbits
  {
    PosSums(p, p.nCw);
    SplitTotal(p.nShrt, p.nCw);
    SplitTotal(p.nPunc, p.nCw);
    SplitTotal(p.nRep, p.nCw);
  }

  lemma {:induction false} PosMonotone(p: PpduParams, j: nat, k: nat)
    requires Balanced(p) && j <= k <= p.nCw
    ensures InfoPos(p, j) <= InfoPos(p, k) && TxPos(p, j) <= TxPos(p, k)
  {
    if j < k {
      PosMonotone(p, j, k - 1);
    }
  }

  /** Codeword `j` occupies its part of the data and of the coded bits. */
  lemma {:induction false} SegmentInside(p: PpduParams, j: nat)
    requires Balanced(p) && j < p.nCw
    ensures InfoPos(p, j) + InfoLen(p, j) == InfoPos(p, j + 1) <= p.nPld
    ensures TxPos(p, j) + BaseLen(p, j) + RepOf(p, j) == TxPos(p, j + 1) <= p.nAvbits
    ensures RepOf(p, j) > 0 ==> BaseLen(p, j) > 0
  {
    PosMonotone(p, j + 1, p.nCw);
    PositionsClose(p);
    CodewordBits(p.nCw, p.l, p.rate);
    DivModUnique(0, 0, 0, p.nCw);
  }

  // ---- What is transmitted ----

  /** Information part of codeword `j`: its data bits, then the shortened zeros. */
  function InfoOf(p: PpduParams, data: seq<Bit>, j: nat): (info: seq<Bit>)
    requires Balanced(p) && |data| == p.nPld && j < p.nCw
    ensures |info| == p.K()
  {
    SegmentInside(p, j);
    data[InfoPos(p, j)..InfoPos(p, j + 1)] + seq(ShrtOf(p, j), _ => false)
  }

  /** A codeword without its shortened and punctured bits. */
  function BaseBits(p: PpduParams, word: seq<Bit>, j: nat): (s: seq<Bit>)
    requires Balanced(p) && j < p.nCw && |word| == p.l
    ensures |s| == BaseLen(p, j)
  {
    word[..InfoLen(p, j)] + word[p.K()..p.K() + ParityLen(p, j)]
  }

  /** Position in the codeword of transmitted bit `src` of codeword `j`. */
  function SourceIndex(p: PpduParams, j: nat, src: nat): (v: nat)
    requires Balanced(p) && j < p.nCw && src < BaseLen(p, j)
    ensures v < p.l
  {
    if src < InfoLen(p, j) then src else p.K() + (src - InfoLen(p, j))
  }

  /** Which transmitted bit repetition `i` copies. */
  function RepeatSource(i: nat, base: nat): (s: nat)
    requires base > 0
    ensures s < base
  {
    i % base
  }

  /** `coded` carries `data` through the systematic codewords `words`. */
  ghost predicate Carries(p: PpduParams, c: Code, data: seq<Bit>, words: seq<seq<Bit>>, coded: seq<Bit>)
    requires Balanced(p) && Suits(p, c)
  {
    && |data| == p.nPld && |coded| == p.nAvbits && |words| == p.nCw
    && forall j | 0 <= j < p.nCw :: SegmentCarries(p, c, data, words[j], coded, j)
  }

  /** Codeword `j` encodes its share of the data; its transmitted bits are the codeword without
      the shortened and the last parity bits, then a cyclic repetition of those bits. */
  ghost predicate SegmentCarries(p: PpduParams, c: Code, data: seq<Bit>, word: seq<Bit>, coded: seq<Bit>, j: nat)
    requires Balanced(p) && Suits(p, c) && |data| == p.nPld && j < p.nCw
  {
    var (at, base) := (TxPos(p, j), BaseLen(p, j));
    && SystematicCodeword(c, InfoOf(p, data, j), word) && |word| == p.l
    && at + base + RepOf(p, j) <= |coded|
    && coded[at..at + base] == BaseBits(p, word, j)
    && forall i | 0 <= i < RepOf(p, j) :: base > 0 && coded[at + base + i] == BaseBits(p, word, j)[RepeatSource(i, base)]
  }

  method EncodeData(p: PpduParams, c: Code, data: seq<Bit>) returns (out: seq<Bit>, ghost words: seq<seq<Bit>>)
    requires Balanced(p) && Suits(p, c) && |data| == p.nPld
    ensures |out| == p.nAvbits
    ensures Carries(p, c, data, words, out)
  {
    hide SegmentCarries, DualDiagonal, SystematicCodeword, Recurrence;
    out, words := [], [];
    for j := 0 to p.nCw
      invariant |out| == TxPos(p, j) && |words| == j
      invariant forall k | 0 <= k < j :: SegmentCarries(p, c, data, words[k], out, k)
    {
      SegmentInside(p, j);
      var tx, word := EncodeOne(p, c, data, j);
      ghost var before := out;
      out := out + tx;
      words := words + [word];
      forall k | 0 <= k <= j
        ensures SegmentCarries(p, c, data, words[k], out, k)
      {
        if k < j {
          SegmentKept(p, c, data, words[k], before, tx, k);
        } else {
          SegmentPlaced(p, c, data, word, before, tx, j);
        }
      }
    }
    PositionsClose(p);
  }

  /** One codeword of the loop of `encode_data`. */
  method EncodeOne(p: PpduParams, c: Code, data: seq<Bit>, j: nat) returns (tx: seq<Bit>, ghost word: seq<Bit>)
    requires Balanced(p) && Suits(p, c) && |data| == p.nPld && j < p.nCw
    ensures SystematicCodeword(c, InfoOf(p, data, j), word) && |word| == p.l
    ensures |tx| == BaseLen(p, j) + RepOf(p, j)
    ensures tx[..BaseLen(p, j)] == BaseBits(p, word, j)
    ensures forall i | 0 <= i < RepOf(p, j) :: BaseLen(p, j) > 0 && tx[BaseLen(p, j) + i] == BaseBits(p, word, j)[RepeatSource(i, BaseLen(p, j))]
  {
    hide SystematicCodeword, DualDiagonal, Recurrence, Balanced, InfoPos, TxPos;
    SegmentInside(p, j);
    var cw := Encode(c, InfoOf(p, data, j));
    word := cw;
    WordLength(p, c, data, word, j);
    tx := cw[..InfoLen(p, j)];
    tx := tx + cw[p.K()..p.K() + ParityLen(p, j)];
    var base := |tx|;
    for i := 0 to RepOf(p, j)
      invariant |tx| == base + i && tx[..base] == BaseBits(p, word, j)
      invariant forall k | 0 <= k < i :: tx[base + k] == BaseBits(p, word, j)[RepeatSource(k, base)]
    {
      var b := tx[RepeatSource(i, base)];
      tx := tx + [b];
    }
  }

  lemma {:induction false} WordLength(p: PpduParams, c: Code, data: seq<Bit>, word: seq<Bit>, j: nat)
    requires Balanced(p) && Suits(p, c) && |data| == p.nPld && j < p.nCw
    requires SystematicCodeword(c, InfoOf(p, data, j), word)
    ensures |word| == p.l && 0 <= p.K() + ParityLen(p, j) <= p.l && InfoLen(p, j) <= p.l
  {
  }

  lemma {:induction false} SegmentKept(p: PpduParams, c: Code, data: seq<Bit>, word: seq<Bit>, before: seq<Bit>, tx: seq<Bit>, k: nat)
    requires Balanced(p) && Suits(p, c) && |data| == p.nPld && k < p.nCw
    requires SegmentCarries(p, c, data, word, before, k)
    ensures SegmentCarries(p, c, data, word, before + tx, k)
  {
    hide SystematicCodeword, InfoOf, TxPos, BaseLen, RepOf, BaseBits, RepeatSource;
    var (at, base) := (TxPos(p, k), BaseLen(p, k));
    assert (before + tx)[at..at + base] == before[at..at + base];
  }

  lemma {:induction false} SegmentPlaced(p: PpduParams, c: Code, data: seq<Bit>, word: seq<Bit>, before: seq<Bit>, tx: seq<Bit>, j: nat)
    requires Balanced(p) && Suits(p, c) && |data| == p.nPld && j < p.nCw && |before| == TxPos(p, j)
    requires SystematicCodeword(c, InfoOf(p, data, j), word) && |word| == p.l
    requires |tx| == BaseLen(p, j) + RepOf(p, j)
    requires tx[..BaseLen(p, j)] == BaseBits(p, word, j)
    requires forall i | 0 <= i < RepOf(p, j) :: BaseLen(p, j) > 0 && tx[BaseLen(p, j) + i] == BaseBits(p, word, j)[RepeatSource(i, BaseLen(p, j))]
    ensures SegmentCarries(p, c, data, word, before + tx, j)
  {
    hide SystematicCodeword, InfoOf, TxPos, BaseLen, RepOf, BaseBits, RepeatSource;
    var (at, base) := (TxPos(p, j), BaseLen(p, j));
    assert (before + tx)[at..at + base] == tx[..base];
  }
}

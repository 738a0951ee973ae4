/** PPDU-level LDPC parameters: codeword choice, shortening, puncturing and repetition
    (`PpduParams` of crates/s2g-phy/src/ldpc.rs). The source computes in floating point what is
    computed here in exact fractions of the code rate. */
module LdpcPpdu {
  import opened Params
  import opened Arith
  import opened AnnexF

  datatype PpduParams = PpduParams(
    rate: CodeRate, nPld: nat, nAvbits: nat, nCw: nat, l: nat,
    nShrt: nat, nPunc: nat, nRep: nat, nSym: nat, extra: bool)
  {
    /** Information and parity bits of one codeword. */
    function K(): nat { l * rate.Num() / rate.Den() }
    function M(): int { l - K() }
  }

  function MonusZero(x: int): nat {
    if x < 0 then 0 else x
  }

  function Times(a: nat, b: nat): nat {
    MulNonneg(a, b);
    a * b
  }

  function Quotient(a: nat, b: nat): nat
    requires b > 0
  {
    a / b
  }

  function CeilDiv(a: nat, b: nat): nat
    requires b > 0
  {
    (a + b - 1) / b
  }

  /** Number of codewords and codeword length, Table 19-16. */
  function ChooseCodewords(nPld: nat, nAvbits: nat, rate: CodeRate): (r: (nat, nat))
    ensures BlockLength(r.1)
  {
    var (a, b) := (rate.Num(), rate.Den());
    if nAvbits <= 648 then (1, if nAvbits * b >= nPld * b + 912 * (b - a) then 1296 else 648)
    else if nAvbits <= 1296 then (1, if nAvbits * b >= nPld * b + 1464 * (b - a) then 1944 else 1296)
    else if nAvbits <= 1944 then (1, 1944)
    else if nAvbits <= 2592 then (2, if nAvbits * b >= nPld * b + 2916 * (b - a) then 1944 else 1296)
    else (CeilDiv(nPld * b, 1944 * a), 1944)
  }

  /** Whether puncturing would cost too much and one more symbol is spent instead. */
  predicate NeedsExtraSymbol(rate: CodeRate, nShrt: nat, nPunc: nat, parity: nat) {
    var (a, b) := (rate.Num(), rate.Den());
    || (10 * nPunc > parity && 10 * nShrt * (b - a) < 12 * nPunc * a)
    || 10 * nPunc > 3 * parity
  }

  /** Information bits of all codewords, `n_cw * l * r`. */
  function TotalInfo(nCw: nat, l: nat, rate: CodeRate): nat {
    Times(Times(nCw, l), rate.Num()) / rate.Den()
  }

  function TotalParity(nCw: nat, l: nat, rate: CodeRate): nat {
    MonusZero(Times(nCw, l) - TotalInfo(nCw, l, rate))
  }

  function Shortened(nPld: nat, nCw: nat, l: nat, rate: CodeRate): nat {
    MonusZero(TotalInfo(nCw, l, rate) - nPld)
  }

  function Punctured(nPld: nat, nAvbits: nat, nCw: nat, l: nat, rate: CodeRate): nat {
    MonusZero(Times(nCw, l) - (nAvbits + Shortened(nPld, nCw, l, rate)))
  }

  function Repeated(nPld: nat, nAvbits: nat, nCw: nat, l: nat, rate: CodeRate): nat {
    MonusZero(nAvbits - TotalParity(nCw, l, rate) - nPld)
  }

  /** The parameters for `nPld` data bits in `av0` coded bits of symbols of `nCbps`. */
  function ParamsFor(nPld: nat, av0: nat, nCbps: nat, rate: CodeRate): (p: PpduParams)
    requires nCbps > 0
    ensures BlockLength(p.l) && p.rate == rate
  {
    var (nCw, l) := ChooseCodewords(nPld, av0, rate);
    var nShrt := Shortened(nPld, nCw, l, rate);
    var extra := NeedsExtraSymbol(rate, nShrt, Punctured(nPld, av0, nCw, l, rate), TotalParity(nCw, l, rate));
    var nAvbits := if extra then av0 + nCbps else av0;
    PpduParams(rate, nPld, nAvbits, nCw, l, nShrt, Punctured(nPld, nAvbits, nCw, l, rate),
               Repeated(nPld, nAvbits, nCw, l, rate), Quotient(nAvbits, nCbps), extra)
  }

  /** Encoding parameters for a PPDU of `nSymInit` initial symbols. */
  function NewParams(nSymInit: nat, nDbps: nat, nCbps: nat, rate: CodeRate): (p: PpduParams)
    requires nCbps > 0
    ensures BlockLength(p.l) && p.rate == rate
  {
    ParamsFor(Times(nSymInit, nDbps), Times(nSymInit, nCbps), nCbps, rate)
  }

  // ---- Accounting ----

  /** The bit counts of a PPDU close: all information bits are data or shortened, all transmitted
      bits are what remains of the codewords plus repetition, and no count is negative. */
  ghost predicate Balanced(p: PpduParams) {
    && p.nCw >= 1 && BlockLength(p.l)
    && p.nCw * p.K() == p.nPld + p.nShrt
    && p.nCw * p.l + p.nRep == p.nAvbits + p.nShrt + p.nPunc
    && p.nPunc <= p.nCw * p.M()
    && (p.nPunc == 0 || p.nRep == 0)
    && p.nPld > 0
  }

  lemma {:induction false} RateProduct(n: nat, nDbps: nat, nCbps: nat, rate: CodeRate)
    requires nDbps * rate.Den() == nCbps * rate.Num()
    ensures n * nDbps * rate.Den() == n * nCbps * rate.Num()
  {
    var (a, b) := (rate.Num(), rate.Den());
    assert n * nDbps * b == n * (nDbps * b) && n * nCbps * a == n * (nCbps * a);
  }

  /** The codewords chosen have room for all data bits. */
  lemma {:induction false} EnoughInformationBits(nPld: nat, nAvbits: nat, rate: CodeRate)
    requires nPld * rate.Den() == nAvbits * rate.Num() && nPld > 0
    ensures var (nCw, l) := ChooseCodewords(nPld, nAvbits, rate);
            nCw >= 1 && nPld * rate.Den() <= nCw * l * rate.Num()
  {
    match rate case R12 => case R23 => case R34 => case R56 =>
  }

  /** Information bits of `nCw` codewords. */
  lemma {:induction false} CodewordBits(nCw: nat, l: nat, rate: CodeRate)
    requires BlockLength(l)
    ensures var k := l * rate.Num() / rate.Den();
            && k * rate.Den() == l * rate.Num() && k < l
            && nCw * l * rate.Num() / rate.Den() == nCw * k
  {
    match rate case R12 => case R23 => case R34 => case R56 =>
  }

  lemma {:induction false} CountsClose(rate: CodeRate, nPld: nat, av: nat, nCw: nat, l: nat)
    requires BlockLength(l) && nCw >= 1 && nPld > 0
    requires nPld * rate.Den() <= nCw * l * rate.Num()
    requires nPld <= av
    ensures var k := l * rate.Num() / rate.Den();
            var (shrt, punc, rep) := (Shortened(nPld, nCw, l, rate), Punctured(nPld, av, nCw, l, rate), Repeated(nPld, av, nCw, l, rate));
            && nCw * k == nPld + shrt
            && nCw * l + rep == av + shrt + punc
            && punc <= nCw * (l - k) && (punc == 0 || rep == 0)
  {
    CodewordBits(nCw, l, rate);
    match rate case R12 => case R23 => case R34 => case R56 =>
  }

  lemma {:induction false} ParamsForBalanced(nPld: nat, av0: nat, nCbps: nat, rate: CodeRate)
    requires nPld > 0 && nCbps > 0 && nPld * rate.Den() == av0 * rate.Num()
    ensures var p := ParamsFor(nPld, av0, nCbps, rate);
            && Balanced(p) && p.nPld == nPld
            && p.nAvbits == (if p.extra then av0 + nCbps else av0)
            && p.nSym == p.nAvbits / nCbps
  {
    hide NeedsExtraSymbol, ChooseCodewords, BlockLength, Shortened, Punctured, Repeated, TotalParity, Times;
    EnoughInformationBits(nPld, av0, rate);
    assert nPld <= av0 by { match rate case R12 => case R23 => case R34 => case R56 => }
    var p := ParamsFor(nPld, av0, nCbps, rate);
    CountsClose(rate, nPld, p.nAvbits, p.nCw, p.l);
  }

  /** LDPC accounting: for every symbol count and every MCS whose data bits per symbol are the
      coded bits times the rate, the counts close, the transmitted bits fill whole symbols, and
      the extra-symbol flag is the difference between final and initial symbol count. */
  lemma {:induction false} ParamsBalanced(nSymInit: nat, nDbps: nat, nCbps: nat, rate: CodeRate)
    requires nSymInit >= 1 && nDbps > 0 && nCbps > 0 && nDbps * rate.Den() == nCbps * rate.Num()
    ensures var p := NewParams(nSymInit, nDbps, nCbps, rate);
            && Balanced(p)
            && p.nPld == nSymInit * nDbps
            && p.nAvbits == p.nSym * nCbps
            && p.nSym == nSymInit + (if p.extra then 1 else 0)
  {
    hide Balanced, ParamsFor;
    var (nPld, av0) := (nSymInit * nDbps, nSymInit * nCbps);
    RateProduct(nSymInit, nDbps, nCbps, rate);
    assert nPld > 0 by { MulStrict(0, nSymInit, nDbps); }
    MulNonneg(nSymInit, nCbps);
    ParamsForBalanced(nPld, av0, nCbps, rate);
    DivModUnique(av0, nSymInit, 0, nCbps);
    assert av0 + nCbps == (nSymInit + 1) * nCbps;
    DivModUnique(av0 + nCbps, nSymInit + 1, 0, nCbps);
  }

  /** The receiver rebuilds the transmitter's parameters from the symbol count and the flag. */
  lemma {:induction false} ReceiverRebuilds(nSymInit: nat, nDbps: nat, nCbps: nat, rate: CodeRate)
    requires nSymInit >= 1 && nDbps > 0 && nCbps > 0 && nDbps * rate.Den() == nCbps * rate.Num()
    ensures var p := NewParams(nSymInit, nDbps, nCbps, rate);
            NewParams(InitialSymbols(p.nSym, p.extra), nDbps, nCbps, rate) == p
  {
    hide NewParams, Balanced;
    ParamsBalanced(nSymInit, nDbps, nCbps, rate);
  }

  /** N_SYM,init as the receiver derives it: `n_sym.saturating_sub(extra).max(1)`. */
  function InitialSymbols(nSym: nat, extra: bool): nat {
    var n := MonusZero(nSym - (if extra then 1 else 0));
    if n < 1 then 1 else n
  }

  // ---- What the table and the extra symbol come to ----

  /** As data bits are coded bits times the rate, the choice depends on the coded bits alone: the
      shortest codeword that holds them all, two of 1296 bits, or as few as possible of 1944. */
  lemma {:induction false} CodewordsChosen(nPld: nat, av: nat, rate: CodeRate)
    requires nPld > 0 && nPld * rate.Den() == av * rate.Num()
    ensures var (nCw, l) := ChooseCodewords(nPld, av, rate);
            && nCw * l >= av
            && (av <= 648 ==> nCw == 1 && l == 648) && (648 < av <= 1296 ==> nCw == 1 && l == 1296)
            && (1296 < av <= 1944 ==> nCw == 1 && l == 1944) && (1944 < av <= 2592 ==> nCw == 2 && l == 1296)
            && (2592 < av ==> l == 1944 && 1944 * (nCw - 1) < av)
  {
    match rate case R12 => case R23 => case R34 => case R56 =>
  }

  /** Shortening and puncturing before any symbol is added: the codeword bits not sent, split in
      the proportion of information to parity. */
  lemma {:induction false} InitialCounts(nPld: nat, av: nat, nCw: nat, l: nat, rate: CodeRate)
    requires BlockLength(l) && nCw * l >= av && nPld * rate.Den() == av * rate.Num()
    ensures var (a, b) := (rate.Num(), rate.Den());
            && Shortened(nPld, nCw, l, rate) * b == (nCw * l - av) * a
            && Punctured(nPld, av, nCw, l, rate) * b == (nCw * l - av) * (b - a)
            && TotalParity(nCw, l, rate) * b == nCw * l * (b - a)
  {
    InfoShare(nCw, l, rate);
    hide TotalInfo, Times;
    CountsFrom(nPld, av, nCw * l, TotalInfo(nCw, l, rate), rate);
  }

  lemma {:induction false} InfoShare(nCw: nat, l: nat, rate: CodeRate)
    requires BlockLength(l)
    ensures nCw * l >= 0 && Times(nCw, l) == nCw * l && TotalInfo(nCw, l, rate) * rate.Den() == nCw * l * rate.Num()
  {
    CodewordBits(nCw, l, rate);
    MulNonneg(nCw, l);
    var k := l * rate.Num() / rate.Den();
    assert nCw * k * rate.Den() == nCw * (k * rate.Den()) && nCw * l * rate.Num() == nCw * (l * rate.Num());
  }

  lemma {:induction false} CountsFrom(nPld: nat, av: nat, n: nat, info: nat, rate: CodeRate)
    requires n >= av && nPld * rate.Den() == av * rate.Num() && info * rate.Den() == n * rate.Num()
    ensures info >= nPld && n >= av + (info - nPld)
    ensures var (a, b) := (rate.Num(), rate.Den());
            (info - nPld) * b == (n - av) * a && (n - (av + (info - nPld))) * b == (n - av) * (b - a) && (n - info) * b == n * (b - a)
  {
    match rate case R12 => case R23 => case R34 => case R56 =>
  }

  lemma {:induction false} ThresholdIs(rate: CodeRate, shrt: nat, punc: nat, parity: nat, n: nat, av: nat)
    requires n >= av && shrt * rate.Den() == (n - av) * rate.Num()
    requires punc * rate.Den() == (n - av) * (rate.Den() - rate.Num()) && parity * rate.Den() == n * (rate.Den() - rate.Num())
    ensures NeedsExtraSymbol(rate, shrt, punc, parity) <==> 10 * av < 9 * n
  {
    match rate case R12 => case R23 => case R34 => case R56 =>
  }

  /** The extra symbol is spent exactly when the initial symbols fill less than nine tenths of the
      codewords. */
  lemma {:induction false} ExtraIffSparse(nPld: nat, av0: nat, nCbps: nat, rate: CodeRate)
    requires nPld > 0 && nCbps > 0 && nPld * rate.Den() == av0 * rate.Num()
    ensures var p := ParamsFor(nPld, av0, nCbps, rate);
            p.nCw * p.l >= av0 && (p.extra <==> 10 * av0 < 9 * (p.nCw * p.l))
  {
    hide ChooseCodewords, BlockLength, Shortened, Punctured, TotalParity, Repeated, NeedsExtraSymbol, CodeRate.Num, CodeRate.Den;
    CodewordsChosen(nPld, av0, rate);
    var (nCw, l) := ChooseCodewords(nPld, av0, rate);
    InitialCounts(nPld, av0, nCw, l, rate);
    ThresholdIs(rate, Shortened(nPld, nCw, l, rate), Punctured(nPld, av0, nCw, l, rate), TotalParity(nCw, l, rate), nCw * l, av0);
  }

  /** Parity bits of all codewords. */
  function Parity(p: PpduParams): real {
    (p.nCw * p.l) as real * (1.0 - p.rate.Num() as real / p.rate.Den() as real)
  }

  /** Parity bits that the initial symbols leave out. */
  function Missing(p: PpduParams, av0: nat): real {
    ((p.nCw * p.l - av0) as real) * (1.0 - p.rate.Num() as real / p.rate.Den() as real)
  }

  /** What is punctured in the end. Without the extra symbol it is what the initial symbols leave
      out, at most a tenth of the parity bits. With it, it would have been more than that, and
      shortening less than 1.2 R / (1 - R) times as much; a whole symbol less remains. */
  lemma {:induction false} PuncturedAtMost(nSymInit: nat, nDbps: nat, nCbps: nat, rate: CodeRate)
    requires nSymInit >= 1 && nDbps > 0 && nCbps > 0 && nDbps * rate.Den() == nCbps * rate.Num()
    ensures var (p, av0) := (NewParams(nSymInit, nDbps, nCbps, rate), nSymInit * nCbps);
            var r := rate.Num() as real / rate.Den() as real;
            && (!p.extra ==> p.nPunc as real == Missing(p, av0) && p.nPunc as real <= 0.1 * Parity(p))
            && (p.extra ==> Missing(p, av0) > 0.1 * Parity(p) && (p.nShrt as real) * (1.0 - r) < 1.2 * (r * Missing(p, av0)))
            && (p.extra ==> p.nPunc as real == if Missing(p, av0) < nCbps as real then 0.0 else Missing(p, av0) - nCbps as real)
  {
    hide ParamsFor, NewParams, Times, Missing, Parity, CodeRate.Num, CodeRate.Den;
    var (nPld, av0) := (nSymInit * nDbps, nSymInit * nCbps);
    RateProduct(nSymInit, nDbps, nCbps, rate);
    assert nPld > 0 by { MulStrict(0, nSymInit, nDbps); }
    MulNonneg(nSymInit, nCbps);
    NewParamsAre(nSymInit, nDbps, nCbps, rate);
    PuncturedFor(nPld, av0, nCbps, rate);
    var p := NewParams(nSymInit, nDbps, nCbps, rate);
    ShortPositive(rate, Missing(p, av0));
    ParityNonneg(p);
  }

  lemma {:induction false} ShortPositive(rate: CodeRate, x: real)
    ensures var r := rate.Num() as real / rate.Den() as real; x > 0.0 ==> r * x > 0.0
  {
    match rate case R12 => case R23 => case R34 => case R56 =>
  }

  lemma {:induction false} ParityNonneg(p: PpduParams)
    ensures Parity(p) >= 0.0
  {
    match p.rate case R12 => case R23 => case R34 => case R56 =>
  }

  lemma {:induction false} NewParamsAre(nSymInit: nat, nDbps: nat, nCbps: nat, rate: CodeRate)
    requires nCbps > 0
    ensures nSymInit * nDbps >= 0 && nSymInit * nCbps >= 0
    ensures NewParams(nSymInit, nDbps, nCbps, rate) == ParamsFor(nSymInit * nDbps, nSymInit * nCbps, nCbps, rate)
  {
    hide ParamsFor;
    MulNonneg(nSymInit, nDbps);
    MulNonneg(nSymInit, nCbps);
  }

  lemma {:induction false} PuncturedFor(nPld: nat, av0: nat, nCbps: nat, rate: CodeRate)
    requires nPld > 0 && nCbps > 0 && nPld * rate.Den() == av0 * rate.Num()
    ensures var p := ParamsFor(nPld, av0, nCbps, rate);
            var r := rate.Num() as real / rate.Den() as real;
            && (p.nShrt as real) * (1.0 - r) == r * Missing(p, av0)
            && (p.extra <==> Missing(p, av0) > 0.1 * Parity(p))
            && (!p.extra ==> p.nPunc as real == Missing(p, av0))
            && (p.extra ==> p.nPunc as real == if Missing(p, av0) < nCbps as real then 0.0 else Missing(p, av0) - nCbps as real)
  {
    hide NeedsExtraSymbol, ChooseCodewords, BlockLength, TotalParity, Repeated, Shortened, Punctured, CodeRate.Num, CodeRate.Den, Missing, Parity;
    CodewordsChosen(nPld, av0, rate);
    var (nCw, l) := ChooseCodewords(nPld, av0, rate);
    var p := ParamsFor(nPld, av0, nCbps, rate);
    ExtraIffSparse(nPld, av0, nCbps, rate);
    InitialCounts(nPld, av0, nCw, l, rate);
    SharesInReals(p, Punctured(nPld, av0, nCw, l, rate), av0);
    PuncturedMore(nPld, av0, nCbps, nCw, l, rate);
  }

  lemma {:induction false} PuncturedMore(nPld: nat, av: nat, more: nat, nCw: nat, l: nat, rate: CodeRate)
    ensures Punctured(nPld, av + more, nCw, l, rate) == MonusZero(Punctured(nPld, av, nCw, l, rate) - more)
  {
  }

  lemma {:induction false} SharesInReals(p: PpduParams, punc: nat, av: nat)
    requires p.nCw * p.l >= av && p.nShrt * p.rate.Den() == (p.nCw * p.l - av) * p.rate.Num()
    requires punc * p.rate.Den() == (p.nCw * p.l - av) * (p.rate.Den() - p.rate.Num())
    ensures var r := p.rate.Num() as real / p.rate.Den() as real;
            && (p.nShrt as real) * (1.0 - r) == r * Missing(p, av)
            && punc as real == Missing(p, av)
            && (10 * av < 9 * (p.nCw * p.l) <==> Missing(p, av) > 0.1 * Parity(p))
  {
    RealShares(p.rate, p.nShrt, punc, p.nCw * p.l, av);
  }

  lemma {:induction false} RealShares(rate: CodeRate, shrt: nat, punc: nat, n: nat, av: nat)
    requires n >= av && shrt * rate.Den() == (n - av) * rate.Num() && punc * rate.Den() == (n - av) * (rate.Den() - rate.Num())
    ensures var r := rate.Num() as real / rate.Den() as real;
            && (shrt as real) * (1.0 - r) == r * (((n - av) as real) * (1.0 - r))
            && punc as real == ((n - av) as real) * (1.0 - r)
            && (10 * av < 9 * n <==> ((n - av) as real) * (1.0 - r) > 0.1 * ((n as real) * (1.0 - r)))
  {
    match rate case R12 => case R23 => case R34 => case R56 =>
  }

  // ---- Sharing counts between codewords ----

  /** The first `total mod n` codewords take one more. */
  function Split(total: nat, n: nat, j: nat): nat
    requires n > 0
  {
    total / n + (if j < total % n then 1 else 0)
  }

  function SplitSum(total: nat, n: nat, j: nat): nat
    requires n > 0
  {
    if j == 0 then 0 else SplitSum(total, n, j - 1) + Split(total, n, j - 1)
  }

  lemma {:induction false} SplitSumValue(total: nat, n: nat, j: nat)
    requires n > 0
    ensures SplitSum(total, n, j) == j * (total / n) + (if j < total % n then j else total % n)
  {
    if j > 0 {
      SplitSumValue(total, n, j - 1);
      assert j * (total / n) == (j - 1) * (total / n) + total / n;
    }
  }

  /** The shares add up to the total. */
  lemma {:induction false} SplitTotal(total: nat, n: nat)
    requires n > 0
    ensures SplitSum(total, n, n) == total
  {
    SplitSumValue(total, n, n);
  }

  /** No share exceeds a bound that the total respects on average. */
  lemma {:induction false} SplitBound(total: nat, n: nat, m: nat, j: nat)
    requires n > 0 && total <= n * m
    ensures Split(total, n, j) <= m
  {
    var (q, r) := (total / n, total % n);
    assert total == q * n + r;
    MulOrder(m, q, n);
  }
}

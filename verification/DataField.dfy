/** The Data field bit chain: from PSDU octets to constellation points (the coded-bit part of
    `generate_with_info`, crates/s2g-phy/src/tx.rs), and what each symbol carries. */
module DataField {
  import opened Params
  import opened Bits
  import opened Arith
  import opened Bcc
  import opened Scrambler
  import opened Interleaver
  import opened Mapping
  import opened LdpcCode
  import opened LdpcPpdu
  import opened LdpcData

  function Zeros(n: nat): (z: seq<Bit>)
    ensures |z| == n
  {
    seq(n, _ => false)
  }

  /** Modes the bit chain serves: a row of the MCS table and a positive normalisation. */
  ghost predicate Mode(p: McsParams, kMod: real) {
    p.Valid() && p.nDbps >= 26 && kMod > 0.0
  }

  lemma {:induction false} ModeRegular(p: McsParams, kMod: real)
    requires Mode(p, kMod)
    ensures Regular(p.nBpscs) && (p.nBpscs == 1 || (p.nBpscs > 0 && p.nBpscs % 2 == 0)) && p.nCbps == 52 * p.nBpscs
  {
  }

  /** SERVICE, PSDU and padding, `total` bits before scrambling. */
  function PlainBits(psdu: seq<Octet>, total: nat): (bits: seq<Bit>)
    requires N_SERVICE + 8 * |psdu| <= total
    ensures |bits| == total
  {
    Zeros(N_SERVICE) + BytesToBits(psdu) + Zeros(total - N_SERVICE - 8 * |psdu|)
  }

  // ---- Coded bits ----

  /** BCC input: the scrambled bits and six zero tail bits. */
  function BccInput(psdu: seq<Octet>, seed: nat, total: nat): (bits: seq<Bit>)
    requires N_SERVICE + 8 * |psdu| + N_TAIL <= total
    ensures |bits| == total
  {
    Scrambled(seed, PlainBits(psdu, total - N_TAIL)) + Zeros(N_TAIL)
  }

  /** How an LDPC PPDU was encoded: parameters, code and codewords. */
  datatype LdpcEncoding = LdpcEncoding(params: PpduParams, code: Code, words: seq<seq<Bit>>)

  ghost predicate LdpcCoded(p: McsParams, nInit: nat, psdu: seq<Octet>, seed: nat, e: LdpcEncoding, coded: seq<Bit>)
    requires p.nCbps > 0
  {
    && Balanced(e.params) && e.params == NewParams(nInit, p.nDbps, p.nCbps, p.rate)
    && CodeOf(e.params, e.code) && Suits(e.params, e.code)
    && N_SERVICE + 8 * |psdu| <= e.params.nPld
    && Carries(e.params, e.code, Scrambled(seed, PlainBits(psdu, e.params.nPld)), e.words, coded)
  }

  /** Whole puncture periods fill whole symbols. */
  lemma {:induction false} BccLength(p: McsParams, bits: seq<Bit>, nSym: nat)
    requires p.Valid() && |bits| == nSym * p.nDbps
    ensures |Coded(bits, p.rate)| == nSym * p.nCbps
  {
    hide CodedUpTo, KeptBefore;
    var rate := p.rate;
    var q := p.nCbps - p.nDbps;
    assert rate.Den() == rate.Num() + 1 || rate == R12;
    assert p.nDbps == rate.Num() * q && p.nCbps == rate.Den() * q by {
      match rate case R12 => case R23 => case R34 => case R56 =>
    }
    CodedLength(bits, rate, |bits|);
    PuncturedLength(rate, nSym * q);
    assert rate.Num() * (nSym * q) == nSym * (rate.Num() * q);
    assert rate.Den() * (nSym * q) == nSym * (rate.Den() * q);
  }

  /** Scrambled and BCC-coded bits of a PSDU in `nSym` symbols. */
  method CodeBcc(p: McsParams, psdu: seq<Octet>, seed: nat, nSym: nat) returns (coded: seq<Bit>)
    requires p.Valid() && N_SERVICE + 8 * |psdu| + N_TAIL <= nSym * p.nDbps
    ensures coded == Coded(BccInput(psdu, seed, nSym * p.nDbps), p.rate) && |coded| == nSym * p.nCbps
  {
    hide Coded, SequenceBit;
    var total := nSym * p.nDbps;
    var nPad := total - 8 * |psdu| - N_SERVICE - N_TAIL;
    var plain := Zeros(N_SERVICE) + BytesToBits(psdu) + Zeros(nPad);
    var bits := new Bit[|plain|](i requires 0 <= i < |plain| => plain[i]);
    assert bits[..] == plain == PlainBits(psdu, total - N_TAIL);
    ScrambleInPlace(seed, bits, bits.Length);
    var input := bits[..] + Zeros(N_TAIL);
    assert input == BccInput(psdu, seed, total);
    coded := Encode(input, p.rate);
    BccLength(p, input, nSym);
  }

  /** Scrambled and LDPC-coded bits of a PSDU in `nInit` initial symbols. */
  method CodeLdpc(p: McsParams, psdu: seq<Octet>, seed: nat, nInit: nat) returns (coded: seq<Bit>, ghost e: LdpcEncoding)
    requires p.Valid() && p.nDbps > 0 && nInit >= 1 && N_SERVICE + 8 * |psdu| <= nInit * p.nDbps
    ensures |coded| == NewParams(nInit, p.nDbps, p.nCbps, p.rate).nSym * p.nCbps
    ensures LdpcCoded(p, nInit, psdu, seed, e, coded)
  {
    hide NewParams, CodeOf, Suits, Carries, Balanced, SequenceBit;
    var lp := NewParams(nInit, p.nDbps, p.nCbps, p.rate);
    ParamsBalanced(nInit, p.nDbps, p.nCbps, p.rate);
    var nPad := nInit * p.nDbps - 8 * |psdu| - N_SERVICE;
    var plain := Zeros(N_SERVICE) + BytesToBits(psdu) + Zeros(nPad);
    var bits := new Bit[|plain|](i requires 0 <= i < |plain| => plain[i]);
    assert bits[..] == plain == PlainBits(psdu, lp.nPld);
    ScrambleInPlace(seed, bits, bits.Length);
    assert bits[..] == Scrambled(seed, PlainBits(psdu, lp.nPld));
    var c := GetCode(lp);
    ghost var words;
    coded, words := EncodeData(lp, c, bits[..]);
    e := LdpcEncoding(lp, c, words);
    CodedSize(lp, c, bits[..], words, coded);
  }

  lemma {:induction false} CodedSize(lp: PpduParams, c: Code, data: seq<Bit>, words: seq<seq<Bit>>, coded: seq<Bit>)
    requires Balanced(lp) && Suits(lp, c) && Carries(lp, c, data, words, coded)
    ensures |coded| == lp.nAvbits
  {
  }

  // ---- Symbols ----

  /** The points that carry one symbol's coded bits. */
  ghost predicate SymbolSent(bits: seq<Bit>, tones: seq<Point>, p: McsParams, coding: Coding, kMod: real)
    requires Mode(p, kMod) && |bits| == p.nCbps
  {
    ModeRegular(p, kMod);
    && |tones| == 52
    && match coding
       case BccCoding => Mapped(InterleavedBits(bits, p.nBpscs), tones, p.nBpscs, kMod)
       case LdpcCoding => forall k | 0 <= k < 52 :: tones[ToneIndex(k)] == MapGroup(Group(bits, p.nBpscs, k), kMod)
  }

  method SendSymbol(bits: seq<Bit>, p: McsParams, coding: Coding, kMod: real) returns (tones: seq<Point>)
    requires Mode(p, kMod) && |bits| == p.nCbps
    ensures SymbolSent(bits, tones, p, coding, kMod)
  {
    hide MapGroup, Group, PermAt, InverseAt;
    ModeRegular(p, kMod);
    match coding
    case BccCoding =>
      var ilv := Interleave(bits, p.nBpscs);
      InterleavedIs(bits, ilv, p.nBpscs);
      tones := Map(ilv, p.nBpscs, kMod);
    case LdpcCoding =>
      var points := Map(bits, p.nBpscs, kMod);
      tones := ToneMap(points);
  }

  /** Constellation point `k` goes out on data tone `t(k)`. */
  method ToneMap(points: seq<Point>) returns (tones: seq<Point>)
    requires |points| == 52
    ensures |tones| == 52 && forall k | 0 <= k < 52 :: tones[ToneIndex(k)] == points[k]
  {
    hide ToneIndex, ToneSource;
    var out := new Point[52](_ => Point(0.0, 0.0));
    for k := 0 to 52
      invariant forall i | 0 <= i < k :: out[ToneIndex(i)] == points[i]
    {
      forall i | 0 <= i < k
        ensures ToneIndex(i) != ToneIndex(k)
      {
        ToneBijective(i);
        ToneBijective(k);
      }
      out[ToneIndex(k)] := points[k];
    }
    tones := out[..];
  }

  lemma {:induction false} SliceInside(n: nat, nSym: nat, nCbps: nat)
    requires n < nSym
    ensures 0 <= n * nCbps <= n * nCbps + nCbps <= nSym * nCbps
  {
    MulNonneg(n, nCbps);
    MulNonneg(nSym - n - 1, nCbps);
    assert (nSym - n - 1) * nCbps == nSym * nCbps - n * nCbps - nCbps;
  }

  /** Coded bits of symbol `n`. */
  function SymbolBits(coded: seq<Bit>, nSym: nat, nCbps: nat, n: nat): (bits: seq<Bit>)
    requires |coded| == nSym * nCbps && n < nSym
    ensures |bits| == nCbps
  {
    SliceInside(n, nSym, nCbps);
    coded[n * nCbps..n * nCbps + nCbps]
  }

  /** All points of a Data field. */
  ghost predicate FieldSent(coded: seq<Bit>, tones: seq<seq<Point>>, nSym: nat, p: McsParams, coding: Coding, kMod: real)
    requires Mode(p, kMod) && |coded| == nSym * p.nCbps
  {
    |tones| == nSym && forall n | 0 <= n < nSym :: SymbolSent(SymbolBits(coded, nSym, p.nCbps, n), tones[n], p, coding, kMod)
  }

  method SendField(coded: seq<Bit>, nSym: nat, p: McsParams, coding: Coding, kMod: real) returns (tones: seq<seq<Point>>)
    requires Mode(p, kMod) && |coded| == nSym * p.nCbps
    ensures FieldSent(coded, tones, nSym, p, coding, kMod)
  {
    hide SymbolSent;
    tones := [];
    for n := 0 to nSym
      invariant |tones| == n && forall i | 0 <= i < n :: SymbolSent(SymbolBits(coded, nSym, p.nCbps, i), tones[i], p, coding, kMod)
    {
      var t := SendSymbol(SymbolBits(coded, nSym, p.nCbps, n), p, coding, kMod);
      tones := tones + [t];
    }
  }
}

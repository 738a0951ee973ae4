/** End to end: the receiver recovers the scrambler seed and the PSDU from symbols that stay
    within half the constellation spacing of what the transmitter sent. */
module BitChain {
  import opened Wrappers
  import opened Params
  import opened Bits
  import opened Llr
  import Bcc
  import Viterbi
  import opened ViterbiProofs
  import opened Scrambler
  import opened Interleaver
  import opened Mapping
  import opened LdpcCode
  import opened LdpcPpdu
  import opened LdpcData
  import opened LdpcReceive
  import opened DataField
  import opened DataDecoder
  import Words
  import AnnexF

  /** Received tones with positive weights, each within half the level spacing of the one sent. */
  ghost predicate Clean(s: Symbol, tones: seq<Point>, nb: nat, kMod: real) {
    && s.Sized() && |tones| == 52
    && forall t | 0 <= t < 52 :: s.csi[t] > 0.0 && Near(s.data[t], tones[t], nb, kMod)
  }

  ghost predicate FieldClean(heard: seq<Symbol>, tones: seq<seq<Point>>, nb: nat, kMod: real) {
    |heard| == |tones| && forall n | 0 <= n < |heard| :: Clean(heard[n], tones[n], nb, kMod)
  }

  // ---- One symbol ----

  lemma {:induction false} BccSymbolRight(bits: seq<Bit>, tones: seq<Point>, s: Symbol, nb: nat, kMod: real)
    requires Regular(nb) && (nb == 1 || nb % 2 == 0) && kMod > 0.0 && |bits| == 52 * nb
    requires Mapped(InterleavedBits(bits, nb), tones, nb, kMod) && Clean(s, tones, nb, kMod)
    ensures Agrees(DeinterleavedLlrs(SymbolDemap(s.data, s.csi, nb, kMod), nb), bits)
  {
    hide PermAt, InverseAt, DemapAt, MapGroup, Near, Mapped, Demapped, InterleavedBits;
    var l := SymbolDemap(s.data, s.csi, nb, kMod);
    var ilv := InterleavedBits(bits, nb);
    DemapUnique(s.data, s.csi, l, nb, kMod);
    DemapRight(ilv, tones, s.data, s.csi, l, nb, kMod);
    InterleavedIs(bits, ilv, nb);
    forall k | 0 <= k < |bits|
      ensures Toward(DeinterleavedLlrs(l, nb)[k], bits[k]) > 0.0
    {
      PermBijective(nb, k);
    }
  }

  lemma {:induction false} LdpcBitRight(bits: seq<Bit>, tones: seq<Point>, s: Symbol, nb: nat, kMod: real, k: nat, b: nat)
    requires (nb == 1 || (nb > 0 && nb % 2 == 0)) && kMod > 0.0 && |bits| == 52 * nb && k < 52 && b < nb
    requires |tones| == 52 && tones[ToneIndex(k)] == MapGroup(Group(bits, nb, k), kMod)
    requires Clean(s, tones, nb, kMod)
    ensures 0 <= Place(k, nb, b) < 52 * nb
    ensures Toward(ToneDemapped(SymbolDemap(s.data, s.csi, nb, kMod), nb)[Place(k, nb, b)], bits[Place(k, nb, b)]) > 0.0
  {
    hide PointLlr, MapGroup, Near, Group;
    var l := SymbolDemap(s.data, s.csi, nb, kMod);
    PlaceInside(k, nb, b);
    PlaceInside(ToneIndex(k), nb, b);
    GroupBit(bits, nb, k, b);
    PointRight(s.data[ToneIndex(k)], Group(bits, nb, k), s.csi[ToneIndex(k)], kMod, b);
  }

  lemma {:induction false} LdpcSymbolRight(bits: seq<Bit>, tones: seq<Point>, s: Symbol, nb: nat, kMod: real)
    requires (nb == 1 || (nb > 0 && nb % 2 == 0)) && kMod > 0.0 && |bits| == 52 * nb
    requires |tones| == 52 && forall k | 0 <= k < 52 :: tones[ToneIndex(k)] == MapGroup(Group(bits, nb, k), kMod)
    requires Clean(s, tones, nb, kMod)
    ensures Agrees(ToneDemapped(SymbolDemap(s.data, s.csi, nb, kMod), nb), bits)
  {
    hide PointLlr, MapGroup, Clean, Group, ToneDemapped, SymbolDemap, ToneIndex, Place;
    CleanSized(s, tones, nb, kMod);
    forall i | 0 <= i < |bits|
      ensures Toward(ToneDemapped(SymbolDemap(s.data, s.csi, nb, kMod), nb)[i], bits[i]) > 0.0
    {
      var k, b := PlaceOf(i, nb);
      LdpcBitRight(bits, tones, s, nb, kMod, k, b);
    }
  }

  /** A clean symbol gives every coded bit an LLR of the right sign. */
  lemma {:induction false} SymbolRight(cfg: Config, bits: seq<Bit>, tones: seq<Point>, s: Symbol)
    requires cfg.Valid() && |bits| == cfg.p.nCbps
    requires SymbolSent(bits, tones, cfg.p, cfg.Coding(), cfg.kMod) && Clean(s, tones, cfg.p.nBpscs, cfg.kMod)
    ensures Agrees(SymbolLlrs(cfg, s), bits)
  {
    hide Clean, ToneDemapped, DeinterleavedLlrs, SymbolDemap, InterleavedBits, Mapped, MapGroup, Group, Balanced, Suits;
    ModeRegular(cfg.p, cfg.kMod);
    assert s.Sized() by { CleanSized(s, tones, cfg.p.nBpscs, cfg.kMod); }
    if cfg.ldpc.None? {
      BccSymbolRight(bits, tones, s, cfg.p.nBpscs, cfg.kMod);
    } else {
      LdpcSymbolRight(bits, tones, s, cfg.p.nBpscs, cfg.kMod);
    }
  }

  lemma {:induction false} CleanSized(s: Symbol, tones: seq<Point>, nb: nat, kMod: real)
    requires Clean(s, tones, nb, kMod)
    ensures s.Sized()
  {
  }

  // ---- The whole field ----

  lemma {:induction false} AllSized(heard: seq<Symbol>, tones: seq<seq<Point>>, nb: nat, kMod: real)
    requires FieldClean(heard, tones, nb, kMod)
    ensures |heard| == |tones| && forall i | 0 <= i < |heard| :: heard[i].Sized()
  {
    hide Clean;
    forall i | 0 <= i < |heard|
      ensures heard[i].Sized()
    {
      CleanSized(heard[i], tones[i], nb, kMod);
    }
  }

  /** Coded bits of the first `n` symbols. */
  lemma {:induction false} SliceJoin(coded: seq<Bit>, nSym: nat, nCbps: nat, n: nat)
    requires |coded| == nSym * nCbps && 0 < n <= nSym
    ensures 0 <= (n - 1) * nCbps <= n * nCbps <= |coded|
    ensures coded[..n * nCbps] == coded[..(n - 1) * nCbps] + SymbolBits(coded, nSym, nCbps, n - 1)
  {
    SliceInside(n - 1, nSym, nCbps);
    assert n * nCbps == (n - 1) * nCbps + nCbps;
  }

  lemma {:induction false} FieldRight(cfg: Config, coded: seq<Bit>, tones: seq<seq<Point>>, heard: seq<Symbol>, n: nat)
    requires cfg.Valid() && |coded| == cfg.nSym * cfg.p.nCbps && n <= cfg.nSym == |heard|
    requires FieldSent(coded, tones, cfg.nSym, cfg.p, cfg.Coding(), cfg.kMod)
    requires FieldClean(heard, tones, cfg.p.nBpscs, cfg.kMod)
    ensures forall i | 0 <= i < |heard| :: heard[i].Sized()
    ensures 0 <= n * cfg.p.nCbps <= |coded| && Agrees(HeardTo(cfg, heard, n), coded[..n * cfg.p.nCbps])
  {
    hide SymbolLlrs, SymbolSent, SymbolBits, Clean, Balanced, Suits;
    AllSized(heard, tones, cfg.p.nBpscs, cfg.kMod);
    if n > 0 {
      var bits := SymbolBits(coded, cfg.nSym, cfg.p.nCbps, n - 1);
      assert SymbolSent(bits, tones[n - 1], cfg.p, cfg.Coding(), cfg.kMod) && Clean(heard[n - 1], tones[n - 1], cfg.p.nBpscs, cfg.kMod);
      hide FieldSent, FieldClean, Agrees;
      FieldRight(cfg, coded, tones, heard, n - 1);
      SymbolRight(cfg, bits, tones[n - 1], heard[n - 1]);
      SliceJoin(coded, cfg.nSym, cfg.p.nCbps, n);
      HeardJoin(cfg, heard, n);
      AgreesJoin(HeardTo(cfg, heard, n - 1), coded[..(n - 1) * cfg.p.nCbps],
                 SymbolLlrs(cfg, heard[n - 1]), SymbolBits(coded, cfg.nSym, cfg.p.nCbps, n - 1));
    }
  }

  lemma {:induction false} HeardJoin(cfg: Config, heard: seq<Symbol>, n: nat)
    requires cfg.Valid() && 0 < n <= |heard| && forall i | 0 <= i < |heard| :: heard[i].Sized()
    ensures HeardTo(cfg, heard, n) == HeardTo(cfg, heard, n - 1) + SymbolLlrs(cfg, heard[n - 1])
  {
    hide SymbolLlrs;
  }

  lemma {:induction false} AgreesJoin(l: seq<real>, c: seq<Bit>, m: seq<real>, d: seq<Bit>)
    requires Agrees(l, c) && Agrees(m, d)
    ensures Agrees(l + m, c + d)
  {
  }

  /** All LLRs of a clean field agree with its coded bits. */
  lemma {:induction false} FieldAgrees(cfg: Config, coded: seq<Bit>, tones: seq<seq<Point>>, heard: seq<Symbol>)
    requires cfg.Valid() && |coded| == cfg.nSym * cfg.p.nCbps && |heard| == cfg.nSym
    requires FieldSent(coded, tones, cfg.nSym, cfg.p, cfg.Coding(), cfg.kMod)
    requires FieldClean(heard, tones, cfg.p.nBpscs, cfg.kMod)
    ensures forall i | 0 <= i < |heard| :: heard[i].Sized()
    ensures Agrees(HeardTo(cfg, heard, cfg.nSym), coded)
  {
    hide HeardTo, SymbolSent, Clean, Balanced, Suits, Mode;
    FieldRight(cfg, coded, tones, heard, cfg.nSym);
    assert coded[..cfg.nSym * cfg.p.nCbps] == coded;
  }

  // ---- Descrambling ----

  /** The PSDU, padded with zero octets to `n`. */
  function Padded(psdu: seq<Octet>, n: nat): (r: seq<Octet>)
    requires |psdu| <= n
    ensures |r| == n
  {
    psdu + seq(n - |psdu|, _ => 0 as Octet)
  }

  lemma {:induction false} PaddedBits(psdu: seq<Octet>, n: nat, total: nat)
    requires |psdu| <= n && N_SERVICE + 8 * n <= total
    ensures PlainBits(psdu, total)[N_SERVICE..N_SERVICE + 8 * n] == BytesToBits(Padded(psdu, n))
  {
    hide Words.GetBit;
    var (bits, want) := (PlainBits(psdu, total)[N_SERVICE..N_SERVICE + 8 * n], BytesToBits(Padded(psdu, n)));
    forall i | 0 <= i < 8 * n
      ensures bits[i] == want[i]
    {
      if i < 8 * |psdu| {
        assert bits[i] == BytesToBits(psdu)[i];
      } else {
        Words.ZeroBits(i % 8);
        assert !bits[i];
      }
    }
  }

  /** Descrambling recovers the seed and the octets, whatever follows the scrambled part. */
  lemma {:induction false} DescrambleRecovers(cfg: Config, psdu: seq<Octet>, seed: nat, bits: seq<Bit>, scrLen: nat, failures: nat)
    requires scrLen <= |bits| && |bits| >= 26 && seed < 128
    requires |psdu| <= cfg.psduLength && N_SERVICE + 8 * cfg.psduLength <= scrLen
    requires bits[..scrLen] == Scrambled(seed, PlainBits(psdu, scrLen))
    ensures Descrambled(cfg, bits, scrLen, failures) == DecodeResult(Padded(psdu, cfg.psduLength), seed, failures)
  {
    hide RecoverTo, BitsToBytes, SequenceBit, BytesToBits, RecoverSeed, Padded;
    var plain := PlainBits(psdu, scrLen);
    SeedRecovered(seed, plain);
    RecoverPrefix(bits[..scrLen], bits[..7]);
    ScrambleInvolution(seed, plain);
    var clear := Scrambled(RecoverSeed(bits[..7]), bits[..scrLen]) + bits[scrLen..];
    var end := N_SERVICE + 8 * cfg.psduLength;
    assert clear[N_SERVICE..end] == plain[N_SERVICE..end];
    PaddedBits(psdu, cfg.psduLength, scrLen);
    BytesRoundTrip(Padded(psdu, cfg.psduLength));
  }

  lemma {:induction false} RecoverPrefix(long: seq<Bit>, first: seq<Bit>)
    requires |long| >= 7 && first == long[..7]
    ensures RecoverSeed(long) == RecoverSeed(first)
  {
    SamePrefix(long, first, 7);
  }

  lemma {:induction false} SamePrefix(a: seq<Bit>, b: seq<Bit>, n: nat)
    requires n <= |a| && n <= |b| && forall i | 0 <= i < n :: a[i] == b[i]
    ensures RecoverTo(a, n) == RecoverTo(b, n)
  {
    hide Words.SetBit;
    if n > 0 {
      SamePrefix(a, b, n - 1);
    }
  }

  // ---- The theorems ----

  /** BCC: for every PSDU, seed and mode, LLRs of the right sign give back the PSDU and the seed. */
  lemma {:induction false} BccChain(cfg: Config, psdu: seq<Octet>, seed: nat, llrs: seq<real>)
    requires cfg.Valid() && cfg.ldpc.None? && seed < 128 && |llrs| == cfg.nSym * cfg.p.nCbps
    requires |psdu| <= cfg.psduLength && N_SERVICE + 8 * cfg.psduLength + N_TAIL <= cfg.nSym * cfg.p.nDbps
    requires Agrees(llrs, Bcc.Coded(BccInput(psdu, seed, cfg.nSym * cfg.p.nDbps), cfg.p.rate))
    ensures Finished(cfg, llrs) == DecodeResult(Padded(psdu, cfg.psduLength), seed, 0)
  {
    hide Bcc.Coded, Scrambled, PlainBits, Padded, Descrambled, Viterbi.Decode, Mode;
    var n := cfg.nSym * cfg.p.nDbps;
    var input := BccInput(psdu, seed, n);
    TailTerminates(Scrambled(seed, PlainBits(psdu, n - N_TAIL)));
    DecodeInverts(input, cfg.p.rate, llrs);
    AtLeastOneSymbol(cfg.nSym, cfg.p.nDbps);
    assert input[..n - N_TAIL] == Scrambled(seed, PlainBits(psdu, n - N_TAIL));
    assert FieldBits(cfg, llrs) == (input, n - N_TAIL, 0);
    DescrambleRecovers(cfg, psdu, seed, input, n - N_TAIL, 0);
  }

  /** LDPC: the same for every iteration limit, including none at all. */
  lemma {:induction false} LdpcChain(cfg: Config, psdu: seq<Octet>, seed: nat, e: LdpcEncoding, coded: seq<Bit>, llrs: seq<real>)
    requires cfg.Valid() && cfg.ldpc == Some((e.params, e.code)) && seed < 128 && |llrs| == cfg.nSym * cfg.p.nCbps == e.params.nAvbits
    requires |psdu| <= cfg.psduLength && N_SERVICE + 8 * cfg.psduLength <= e.params.nPld
    requires Carries(e.params, e.code, Scrambled(seed, PlainBits(psdu, e.params.nPld)), e.words, coded) && Agrees(llrs, coded)
    ensures var r := Finished(cfg, llrs); r.psdu == Padded(psdu, cfg.psduLength) && r.seed == seed
  {
    hide Scrambled, PlainBits, Padded, Descrambled, DataTo, FailuresTo, Carries, Suits, Balanced, Mode;
    var (lp, c) := (e.params, e.code);
    var data := Scrambled(seed, PlainBits(psdu, lp.nPld));
    CodedSize(lp, c, data, e.words, coded);
    assert Resized(llrs, lp.nAvbits) == llrs;
    DecodeDataSound(lp, c, data, e.words, coded, llrs, cfg.maxIter);
    PositionsClose(lp);
    var failures := FailuresTo(lp, c, llrs, cfg.maxIter, lp.nCw);
    assert FieldBits(cfg, llrs) == (data, |data|, failures);
    assert data[..|data|] == data;
    DescrambleRecovers(cfg, psdu, seed, data, |data|, failures);
  }

  /** Expanding the same prototype twice gives the same code. */
  lemma {:induction false} SameCode(lp: PpduParams, c: Code, d: Code)
    requires CodeOf(lp, c) && CodeOf(lp, d)
    ensures c == d
  {
    hide Flat, AnnexF.PrototypeRow;
    forall i | 0 <= i < |c.checks|
      ensures c.checks[i] == d.checks[i]
    {
      CheckInRange(c, i);
      CheckInRange(d, i);
      SameAdjacent(c, d, i / c.z, i % c.z, c.Width());
    }
  }
}

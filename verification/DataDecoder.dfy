/** The receive side of the bit chain (crates/s2g-phy/src/rx/decode.rs): symbols are demapped and
    deinterleaved as they arrive, the last one triggers decoding and descrambling. */
module DataDecoder {
  import opened Wrappers
  import opened Params
  import opened Bits
  import opened Scrambler
  import opened Interleaver
  import opened Mapping
  import Viterbi
  import opened LdpcCode
  import opened LdpcPpdu
  import opened LdpcData
  import opened LdpcReceive
  import opened DataField

  /** One received symbol: 52 equalized tones and their channel weights. */
  datatype Symbol = Symbol(data: seq<Point>, csi: seq<real>)
  {
    predicate Sized() {
      |data| == |csi| == 52
    }
  }

  datatype DecodeResult = DecodeResult(psdu: seq<Octet>, seed: nat, ldpcFailures: nat)

  /** What the receiver knows before the Data field. */
  datatype Config = Config(p: McsParams, kMod: real, nSym: nat, psduLength: nat, maxIter: nat, ldpc: Option<(PpduParams, Code)>)
  {
    ghost predicate Valid() {
      && Mode(p, kMod) && nSym >= 1
      && (ldpc.Some? ==>
            var (lp, c) := ldpc.value;
            Balanced(lp) && Suits(lp, c) && lp.nPld >= 26)
    }

    function Coding(): Coding {
      if ldpc.Some? then LdpcCoding else BccCoding
    }
  }

  // ---- LLRs of the symbols ----

  /** LLRs of one symbol in coded-bit order. */
  function SymbolLlrs(cfg: Config, s: Symbol): (llrs: seq<real>)
    requires cfg.Valid() && s.Sized()
    ensures |llrs| == cfg.p.nCbps
  {
    ModeRegular(cfg.p, cfg.kMod);
    var nb := cfg.p.nBpscs;
    var l := SymbolDemap(s.data, s.csi, nb, cfg.kMod);
    if cfg.ldpc.None? then DeinterleavedLlrs(l, nb) else ToneDemapped(l, nb)
  }

  /** Undo the tone mapper on groups of `nb` LLRs. */
  function ToneDemapped(llrs: seq<real>, nb: nat): (out: seq<real>)
    requires nb > 0 && |llrs| == 52 * nb
    ensures |out| == |llrs|
  {
    seq(52 * nb, i requires 0 <= i < 52 * nb =>
      (PlaceInside(ToneIndex(PointOf(i, nb)), nb, BitOf(i, nb));
       llrs[Place(ToneIndex(PointOf(i, nb)), nb, BitOf(i, nb))]))
  }

  /** LLRs of the first `n` symbols. */
  function HeardTo(cfg: Config, heard: seq<Symbol>, n: nat): (llrs: seq<real>)
    requires cfg.Valid() && n <= |heard| && forall i | 0 <= i < |heard| :: heard[i].Sized()
    ensures |llrs| == n * cfg.p.nCbps
  {
    if n == 0 then []
    else
      assert n * cfg.p.nCbps == (n - 1) * cfg.p.nCbps + cfg.p.nCbps;
      HeardTo(cfg, heard, n - 1) + SymbolLlrs(cfg, heard[n - 1])
  }

  // ---- The last symbol ----

  /** Pad with erasures or truncate. */
  function Resized(llrs: seq<real>, n: nat): (r: seq<real>)
    ensures |r| == n
  {
    if |llrs| >= n then llrs[..n] else llrs + seq(n - |llrs|, _ => 0.0)
  }

  /** Decoded bits, how many of them are scrambled, and the codewords that failed. */
  ghost function FieldBits(cfg: Config, llrs: seq<real>): (r: (seq<Bit>, nat, nat))
    requires cfg.Valid()
    ensures r.1 <= |r.0| && |r.0| >= 26
  {
    match cfg.ldpc
    case None =>
      AtLeastOneSymbol(cfg.nSym, cfg.p.nDbps);
      var n := cfg.nSym * cfg.p.nDbps;
      (Viterbi.Decode(llrs, cfg.p.rate, n), n - N_TAIL, 0)
    case Some((lp, c)) =>
      PositionsClose(lp);
      var l := Resized(llrs, lp.nAvbits);
      var bits := DataTo(lp, c, l, cfg.maxIter, lp.nCw);
      (bits, |bits|, FailuresTo(lp, c, l, cfg.maxIter, lp.nCw))
  }

  lemma {:induction false} AtLeastOneSymbol(nSym: nat, nDbps: nat)
    requires nSym >= 1
    ensures nSym * nDbps >= nDbps
  {
    assert nSym * nDbps == (nSym - 1) * nDbps + nDbps;
  }

  /** PSDU octets and seed from the decoded bits: the first seven bits are the scrambling
      sequence, as the SERVICE field starts with seven zeros. */
  function Descrambled(cfg: Config, bits: seq<Bit>, scrLen: nat, failures: nat): DecodeResult
    requires scrLen <= |bits| && |bits| >= 26
  {
    var seed := RecoverSeed(bits[..7]);
    var clear := Scrambled(seed, bits[..scrLen]) + bits[scrLen..];
    var end := if N_SERVICE + 8 * cfg.psduLength < |bits| then N_SERVICE + 8 * cfg.psduLength else |bits|;
    DecodeResult(BitsToBytes(clear[N_SERVICE..end]), seed, failures)
  }

  ghost function Finished(cfg: Config, llrs: seq<real>): DecodeResult
    requires cfg.Valid()
  {
    var (bits, scrLen, failures) := FieldBits(cfg, llrs);
    Descrambled(cfg, bits, scrLen, failures)
  }

  // ---- The decoder object ----

  class DataDecoder {
    const cfg: Config
    var llrs: seq<real>
    var fed: nat
    /** Symbols pushed so far. */
    ghost var heard: seq<Symbol>

    ghost predicate Valid()
      reads this
    {
      && cfg.Valid() && fed == |heard| <= cfg.nSym
      && (forall i | 0 <= i < |heard| :: heard[i].Sized())
      && (fed < cfg.nSym ==> llrs == HeardTo(cfg, heard, fed))
    }

    /** The LDPC parameters are rebuilt from the signalled symbol count and extra-symbol flag. */
    constructor (p: McsParams, kMod: real, nSym: nat, psduLength: nat, coding: Coding, ldpcExtra: bool, maxIter: nat)
      requires Mode(p, kMod) && nSym >= 1
      ensures Valid() && fed == 0 && heard == []
      ensures cfg.p == p && cfg.kMod == kMod && cfg.nSym == nSym && cfg.psduLength == psduLength && cfg.maxIter == maxIter
      ensures coding.BccCoding? ==> cfg.ldpc.None?
      ensures coding.LdpcCoding? ==>
                && cfg.ldpc.Some?
                && cfg.ldpc.value.0 == NewParams(InitialSymbols(nSym, ldpcExtra), p.nDbps, p.nCbps, p.rate)
                && CodeOf(cfg.ldpc.value.0, cfg.ldpc.value.1)
    {
      var c: Option<(PpduParams, Code)> := None;
      if coding.LdpcCoding? {
        var nInit := InitialSymbols(nSym, ldpcExtra);
        ParamsBalanced(nInit, p.nDbps, p.nCbps, p.rate);
        AtLeastOneSymbol(nInit, p.nDbps);
        var lp := NewParams(nInit, p.nDbps, p.nCbps, p.rate);
        var code := GetCode(lp);
        c := Some((lp, code));
      }
      cfg := Config(p, kMod, nSym, psduLength, maxIter, c);
      llrs := [];
      fed := 0;
      heard := [];
    }

    /** Feed one equalized symbol; the final one yields the result. */
    method PushSymbol(s: Symbol) returns (r: Option<DecodeResult>)
      requires Valid() && fed < cfg.nSym && s.Sized()
      modifies this
      ensures Valid() && heard == old(heard) + [s]
      ensures r == if |heard| < cfg.nSym then None else Some(Finished(cfg, HeardTo(cfg, heard, |heard|)))
    {
      hide Balanced, Suits, Mode, HeardTo, FieldBits, Descrambled, SymbolLlrs;
      var add := LlrsOf(cfg, s);
      HeardNext(cfg, heard, s);
      llrs := llrs + add;
      heard := heard + [s];
      fed := fed + 1;
      if fed < cfg.nSym {
        return None;
      }
      var result := Finish(cfg, llrs);
      if cfg.ldpc.Some? {
        llrs := [];
      }
      r := Some(result);
    }
  }

  lemma {:induction false} HeardNext(cfg: Config, heard: seq<Symbol>, s: Symbol)
    requires cfg.Valid() && s.Sized() && forall i | 0 <= i < |heard| :: heard[i].Sized()
    ensures HeardTo(cfg, heard + [s], |heard| + 1) == HeardTo(cfg, heard, |heard|) + SymbolLlrs(cfg, s)
  {
    hide SymbolLlrs;
    HeardPrefix(cfg, heard, s, |heard|);
  }

  lemma {:induction false} HeardPrefix(cfg: Config, heard: seq<Symbol>, s: Symbol, n: nat)
    requires cfg.Valid() && s.Sized() && n <= |heard| && forall i | 0 <= i < |heard| :: heard[i].Sized()
    ensures HeardTo(cfg, heard + [s], n) == HeardTo(cfg, heard, n)
  {
    hide SymbolLlrs;
    if n > 0 {
      HeardPrefix(cfg, heard, s, n - 1);
    }
  }

  method LlrsOf(cfg: Config, s: Symbol) returns (llrs: seq<real>)
    requires cfg.Valid() && s.Sized()
    ensures llrs == SymbolLlrs(cfg, s)
  {
    hide PermAt, InverseAt, DemapAt, PointLlr, Balanced, Suits;
    ModeRegular(cfg.p, cfg.kMod);
    var nb := cfg.p.nBpscs;
    var l := DemapLlrs(s.data, s.csi, nb, cfg.kMod);
    DemapUnique(s.data, s.csi, l, nb, cfg.kMod);
    if cfg.ldpc.None? {
      llrs := DeinterleaveLlrs(l, nb);
      DeinterleavedIs(l, llrs, nb);
    } else {
      llrs := ToneDemapLlrs(l, nb);
    }
  }

  /** Copy the group of each point from its tone. */
  method ToneDemapLlrs(llrs: seq<real>, nb: nat) returns (out: seq<real>)
    requires nb > 0 && |llrs| == 52 * nb
    ensures out == ToneDemapped(llrs, nb)
  {
    hide ToneIndex;
    out := [];
    for k := 0 to 52
      invariant |out| == k * nb
      invariant forall j, b | 0 <= j < k && 0 <= b < nb ::
                  0 <= Place(j, nb, b) < |out| && 0 <= Place(ToneIndex(j), nb, b) < |llrs|
                  && out[Place(j, nb, b)] == llrs[Place(ToneIndex(j), nb, b)]
    {
      var t := ToneIndex(k);
      SliceInside(t, 52, nb);
      ghost var before := out;
      out := out + llrs[t * nb..t * nb + nb];
      forall j, b | 0 <= j < k + 1 && 0 <= b < nb
        ensures 0 <= Place(j, nb, b) < |out| && 0 <= Place(ToneIndex(j), nb, b) < |llrs|
                && out[Place(j, nb, b)] == llrs[Place(ToneIndex(j), nb, b)]
      {
        PlaceInside(ToneIndex(j), nb, b);
        if j == k {
          assert Place(j, nb, b) == |before| + b;
        } else {
          assert out[Place(j, nb, b)] == before[Place(j, nb, b)];
        }
      }
      assert (k + 1) * nb == k * nb + nb;
    }
    forall i | 0 <= i < 52 * nb
      ensures out[i] == ToneDemapped(llrs, nb)[i]
    {
      var k, b := PlaceOf(i, nb);
      PlaceInside(k, nb, b);
    }
  }

  /** Decode the coded bits. */
  method DecodeBits(cfg: Config, llrs: seq<real>) returns (bits: seq<Bit>, scrLen: nat, failures: nat)
    requires cfg.Valid()
    ensures (bits, scrLen, failures) == FieldBits(cfg, llrs)
  {
    hide Balanced, Suits;
    match cfg.ldpc {
      case None =>
        AtLeastOneSymbol(cfg.nSym, cfg.p.nDbps);
        var n := cfg.nSym * cfg.p.nDbps;
        bits := Viterbi.ViterbiDecode(llrs, cfg.p.rate, n);
        scrLen, failures := n - N_TAIL, 0;
      case Some((lp, c)) =>
        PositionsClose(lp);
        bits, failures := DecodeData(lp, c, Resized(llrs, lp.nAvbits), cfg.maxIter);
        scrLen := |bits|;
    }
  }

  /** Recover the seed, descramble in place and pack. */
  method Descramble(cfg: Config, bits: seq<Bit>, scrLen: nat, failures: nat) returns (r: DecodeResult)
    requires scrLen <= |bits| && |bits| >= 26
    ensures r == Descrambled(cfg, bits, scrLen, failures)
  {
    hide Scrambled, RecoverTo, BitsToBytes;
    var seed := RecoverSeed(bits[..7]);
    var work := new Bit[|bits|](i requires 0 <= i < |bits| => bits[i]);
    assert work[..] == bits;
    ScrambleInPlace(seed, work, scrLen);
    assert work[..] == Scrambled(seed, bits[..scrLen]) + bits[scrLen..];
    var end := if N_SERVICE + 8 * cfg.psduLength < |bits| then N_SERVICE + 8 * cfg.psduLength else |bits|;
    r := DecodeResult(BitsToBytes(work[N_SERVICE..end]), seed, failures);
    assert work[N_SERVICE..end] == work[..][N_SERVICE..end];
  }

  /** Decode, recover the seed, descramble and pack. */
  method Finish(cfg: Config, llrs: seq<real>) returns (r: DecodeResult)
    requires cfg.Valid()
    ensures r == Finished(cfg, llrs)
  {
    hide FieldBits, Descrambled;
    var bits, scrLen, failures := DecodeBits(cfg, llrs);
    r := Descramble(cfg, bits, scrLen, failures);
  }
}

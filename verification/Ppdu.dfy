/** A whole PPDU: the Data field sent and received, first with the geometry handed over, then with
    a decoder built from what SIG says. */
module Ppdu {
  import opened Wrappers
  import opened Params
  import opened Bits
  import opened Mapping
  import opened LdpcPpdu
  import opened Geometry
  import opened DataField
  import opened DataDecoder
  import opened BitChain
  import opened Sig
  import opened SigVerdict
  import Bcc
  import SigField

  // ---- Transmitter ----

  /** Tones that carry a PSDU in `nInit` initial symbols. */
  ghost predicate SentData(p: McsParams, kMod: real, psdu: seq<Octet>, seed: nat, nInit: nat, coding: Coding, tones: seq<seq<Point>>,
                           coded: seq<Bit>, e: Option<LdpcEncoding>)
    requires Mode(p, kMod)
  {
    var (nSym, _) := SentSymbols(nInit, p, coding);
    && |coded| == nSym * p.nCbps && FieldSent(coded, tones, nSym, p, coding, kMod)
    && match coding
       case BccCoding => N_SERVICE + 8 * |psdu| + N_TAIL <= nInit * p.nDbps && coded == Bcc.Coded(BccInput(psdu, seed, nInit * p.nDbps), p.rate)
       case LdpcCoding => e.Some? && LdpcCoded(p, nInit, psdu, seed, e.value, coded)
  }

  method SendSymbols(p: McsParams, kMod: real, psdu: seq<Octet>, seed: nat, nInit: nat, coding: Coding)
    returns (tones: seq<seq<Point>>, ghost coded: seq<Bit>, ghost e: Option<LdpcEncoding>)
    requires Mode(p, kMod) && nInit >= 1 && 8 * |psdu| + (if coding.BccCoding? then N_SERVICE + N_TAIL else N_SERVICE) <= nInit * p.nDbps
    ensures SentData(p, kMod, psdu, seed, nInit, coding, tones, coded, e)
  {
    hide NewParams, FieldSent, Bcc.Coded, BccInput, LdpcCoded;
    e := None;
    var (nSym, _) := SentSymbols(nInit, p, coding);
    match coding
    case BccCoding =>
      var bits := CodeBcc(p, psdu, seed, nInit);
      tones := SendField(bits, nSym, p, coding, kMod);
      coded := bits;
    case LdpcCoding =>
      ghost var how;
      var bits: seq<Bit>;
      bits, how := CodeLdpc(p, psdu, seed, nInit);
      tones := SendField(bits, nSym, p, coding, kMod);
      coded, e := bits, Some(how);
  }

  // ---- Receiver ----

  /** Decoder parameters from a symbol count, a PSDU length and the extra-symbol flag. */
  ghost predicate BuiltFrom(cfg: Config, p: McsParams, kMod: real, nSym: nat, psduLength: nat, coding: Coding, extra: bool)
    requires Mode(p, kMod) && nSym >= 1
  {
    && cfg.Valid() && cfg.p == p && cfg.kMod == kMod && cfg.nSym == nSym && cfg.psduLength == psduLength
    && (coding.BccCoding? ==> cfg.ldpc.None?)
    && (coding.LdpcCoding? ==>
          && cfg.ldpc.Some?
          && cfg.ldpc.value.0 == NewParams(InitialSymbols(nSym, extra), p.nDbps, p.nCbps, p.rate)
          && LdpcData.CodeOf(cfg.ldpc.value.0, cfg.ldpc.value.1))
  }

  /** Symbols handed to the decoder as they arrive; the last push returns the PSDU. */
  method ReceiveSymbols(p: McsParams, kMod: real, nSym: nat, psduLength: nat, coding: Coding, extra: bool, maxIter: nat, heard: seq<Symbol>)
    returns (r: Option<DecodeResult>, ghost cfg: Config)
    requires Mode(p, kMod) && nSym >= 1 && |heard| == nSym && forall i | 0 <= i < nSym :: heard[i].Sized()
    ensures BuiltFrom(cfg, p, kMod, nSym, psduLength, coding, extra) && r == Some(Finished(cfg, HeardTo(cfg, heard, nSym)))
  {
    hide Finished, HeardTo, NewParams, Mode;
    var dec := new DataDecoder(p, kMod, nSym, psduLength, coding, extra, maxIter);
    cfg := dec.cfg;
    r := None;
    for n := 0 to nSym
      invariant dec.Valid() && fresh(dec) && dec.fed == n && dec.cfg == cfg && dec.heard == heard[..n]
      invariant n == nSym ==> r == Some(Finished(cfg, HeardTo(cfg, heard, nSym)))
    {
      r := dec.PushSymbol(heard[n]);
      assert heard[..n + 1] == heard[..n] + [heard[n]] && heard[..nSym] == heard;
    }
  }

  // ---- Both ----

  /** What the channel makes of the tones sent. */
  function Through(tones: seq<seq<Point>>, channel: (nat, seq<Point>) -> Symbol): (heard: seq<Symbol>)
    ensures |heard| == |tones| && forall i | 0 <= i < |tones| :: heard[i] == channel(i, tones[i])
  {
    seq(|tones|, i requires 0 <= i < |tones| => channel(i, tones[i]))
  }

  /** The channel stays within what hard decisions tolerate. */
  ghost predicate CleanChannel(channel: (nat, seq<Point>) -> Symbol, nBpscs: nat, kMod: real) {
    forall n: nat, t: seq<Point> | |t| == 52 :: Clean(channel(n, t), t, nBpscs, kMod)
  }

  lemma {:induction false} HeardClean(coded: seq<Bit>, tones: seq<seq<Point>>, nSym: nat, p: McsParams, coding: Coding, kMod: real,
                                      channel: (nat, seq<Point>) -> Symbol)
    requires Mode(p, kMod) && |coded| == nSym * p.nCbps && FieldSent(coded, tones, nSym, p, coding, kMod)
    requires CleanChannel(channel, p.nBpscs, kMod)
    ensures |tones| == nSym && FieldClean(Through(tones, channel), tones, p.nBpscs, kMod)
    ensures forall i | 0 <= i < nSym :: Through(tones, channel)[i].Sized()
  {
    hide Clean, Mode;
    var heard := Through(tones, channel);
    forall i | 0 <= i < nSym
      ensures heard[i].Sized() && Clean(heard[i], tones[i], p.nBpscs, kMod)
    {
      assert SymbolSent(SymbolBits(coded, nSym, p.nCbps, i), tones[i], p, coding, kMod);
      CleanSized(heard[i], tones[i], p.nBpscs, kMod);
    }
  }

  /** What was sent is what the decoder finishes with. */
  lemma {:induction false} Arrives(p: McsParams, kMod: real, psdu: seq<Octet>, seed: nat, nInit: nat, coding: Coding, tones: seq<seq<Point>>,
                                   coded: seq<Bit>, e: Option<LdpcEncoding>, cfg: Config, heard: seq<Symbol>)
    requires Mode(p, kMod) && nInit >= 1 && seed < 128 && SentData(p, kMod, psdu, seed, nInit, coding, tones, coded, e)
    requires var (nSym, extra) := SentSymbols(nInit, p, coding);
             nSym >= 1 && |heard| == nSym && BuiltFrom(cfg, p, kMod, nSym, cfg.psduLength, coding, extra)
    requires FieldClean(heard, tones, p.nBpscs, kMod) && (forall i | 0 <= i < |heard| :: heard[i].Sized())
    requires |psdu| <= cfg.psduLength
             && 8 * cfg.psduLength + (if coding.BccCoding? then N_SERVICE + N_TAIL else N_SERVICE) <= nInit * p.nDbps
    ensures var r := Finished(cfg, HeardTo(cfg, heard, |heard|)); r.psdu == Padded(psdu, cfg.psduLength) && r.seed == seed
  {
    hide Finished, HeardTo, FieldSent, FieldClean, Bcc.Coded, BccInput, Padded, NewParams, LdpcData.Carries, LdpcData.Suits, LdpcData.CodeOf, Scrambler.Scrambled, PlainBits;
    match coding
    case BccCoding =>
      FieldAgrees(cfg, coded, tones, heard);
      BccChain(cfg, psdu, seed, HeardTo(cfg, heard, cfg.nSym));
    case LdpcCoding =>
      ParamsBalanced(nInit, p.nDbps, p.nCbps, p.rate);
      ReceiverRebuilds(nInit, p.nDbps, p.nCbps, p.rate);
      SameCode(e.value.params, cfg.ldpc.value.1, e.value.code);
      FieldAgrees(cfg, coded, tones, heard);
      LdpcChain(cfg, psdu, seed, e.value, coded, HeardTo(cfg, heard, cfg.nSym));
  }

  /** Sizes on both sides of a transmission that `data_geometry` accepts. */
  lemma {:induction false} SizesAgree(mcs: nat, kMod: real, psduLen: nat, aggregation: bool, coding: Coding)
    requires kMod > 0.0 && GeometryFor(mcs, psduLen, aggregation, coding).Success?
    ensures LookupMcs(mcs).Some?
    ensures var (p, g) := (LookupMcs(mcs).value, GeometryFor(mcs, psduLen, aggregation, coding).value);
            var (cap, overhead) := (CapacityOf(g.nSymInit, p.nDbps, coding), if coding.BccCoding? then N_SERVICE + N_TAIL else N_SERVICE);
            && Mode(p, kMod) && g.nSymInit >= 1 && g.nSym >= 1 && SentSymbols(g.nSymInit, p, coding) == (g.nSym, g.extra)
            && psduLen <= cap && 8 * cap + overhead <= g.nSymInit * p.nDbps
            && (aggregation ==> AggregatedCapacity(mcs, psduLen, coding) == Success(cap))
  {
    hide InitSymbols, SentSymbols, CapacityOf, Times;
    LookupMcsValid(mcs);
    var (p, g) := (LookupMcs(mcs).value, GeometryFor(mcs, psduLen, aggregation, coding).value);
    InitBounds(psduLen, p.nDbps, coding);
    CapacityKeepsSymbols(psduLen, p.nDbps, coding);
    TimesIs(g.nSymInit, p.nDbps);
    SentBounds(g.nSymInit, p, coding);
  }

  /** The Data field through the air, between a transmitter that knows the PSDU and a receiver given
      only symbol count, PSDU length, coding and extra-symbol flag. */
  method TransferData(mcs: nat, kMod: real, psdu: seq<Octet>, seed: nat, aggregation: bool, coding: Coding, maxIter: nat,
                      nSym: nat, psduLength: nat, extra: bool, channel: (nat, seq<Point>) -> Symbol) returns (r: Option<DecodeResult>)
    requires kMod > 0.0 && seed < 128 && GeometryFor(mcs, |psdu|, aggregation, coding).Success?
    requires CleanChannel(channel, LookupMcs(mcs).value.nBpscs, kMod)
    requires var g := GeometryFor(mcs, |psdu|, aggregation, coding).value;
             && nSym == g.nSym && extra == g.extra
             && psduLength == if aggregation then CapacityOf(g.nSymInit, LookupMcs(mcs).value.nDbps, coding) else |psdu|
    ensures r.Some? && r.value.seed == seed && |psdu| <= psduLength && r.value.psdu == Padded(psdu, psduLength)
  {
    hide InitSymbols, SentSymbols, CapacityOf, NewParams, Times, LookupMcs, CleanChannel, Mode, SentData, BuiltFrom, Finished, HeardTo, Padded, FieldClean;
    SizesAgree(mcs, kMod, |psdu|, aggregation, coding);
    var p := LookupMcs(mcs).value;
    ghost var g := GeometryFor(mcs, |psdu|, aggregation, coding).value;
    var nInit := GeometryFor(mcs, |psdu|, aggregation, coding).value.nSymInit;
    ghost var coded, e;
    var tones: seq<seq<Point>>;
    tones, coded, e := SendSymbols(p, kMod, psdu, seed, nInit, coding);
    SentClean(p, kMod, psdu, seed, nInit, coding, tones, coded, e, channel);
    ghost var cfg;
    r, cfg := ReceiveSymbols(p, kMod, nSym, psduLength, coding, extra, maxIter, Through(tones, channel));
    BuiltLength(cfg, p, kMod, nSym, psduLength, coding, extra);
    Arrives(p, kMod, psdu, seed, nInit, coding, tones, coded, e, cfg, Through(tones, channel));
  }

  lemma {:induction false} SentClean(p: McsParams, kMod: real, psdu: seq<Octet>, seed: nat, nInit: nat, coding: Coding, tones: seq<seq<Point>>,
                                     coded: seq<Bit>, e: Option<LdpcEncoding>, channel: (nat, seq<Point>) -> Symbol)
    requires Mode(p, kMod) && SentData(p, kMod, psdu, seed, nInit, coding, tones, coded, e) && CleanChannel(channel, p.nBpscs, kMod)
    ensures |tones| == SentSymbols(nInit, p, coding).0 && FieldClean(Through(tones, channel), tones, p.nBpscs, kMod)
    ensures forall i | 0 <= i < |tones| :: Through(tones, channel)[i].Sized()
  {
    hide SentSymbols, FieldSent, FieldClean, CleanChannel, LdpcCoded, Bcc.Coded, BccInput;
    HeardClean(coded, tones, SentSymbols(nInit, p, coding).0, p, coding, kMod, channel);
  }

  lemma {:induction false} BuiltLength(cfg: Config, p: McsParams, kMod: real, nSym: nat, psduLength: nat, coding: Coding, extra: bool)
    requires Mode(p, kMod) && nSym >= 1 && BuiltFrom(cfg, p, kMod, nSym, psduLength, coding, extra)
    ensures cfg.psduLength == psduLength
  {
  }

  /** From TXVECTOR to PSDU: whatever `data_geometry` accepts arrives, at every MCS, in both
      codings, aggregated (then padded with zero octets to the capacity) or not. The receiver is
      given only what SIG carries: the Length field and the extra-symbol flag. */
  method Transfer(mcs: nat, kMod: real, psdu: seq<Octet>, seed: nat, aggregation: bool, coding: Coding, maxIter: nat,
                  channel: (nat, seq<Point>) -> Symbol) returns (r: Option<DecodeResult>)
    requires kMod > 0.0 && seed < 128 && GeometryFor(mcs, |psdu|, aggregation, coding).Success?
    requires CleanChannel(channel, LookupMcs(mcs).value.nBpscs, kMod)
    ensures r.Some? && r.value.seed == seed
    ensures !aggregation ==> r.value.psdu == psdu
    ensures aggregation ==>
              var cap := AggregatedCapacity(mcs, |psdu|, coding);
              cap.Success? && |psdu| <= cap.value && r.value.psdu == Padded(psdu, cap.value)
  {
    hide InitSymbols, SentSymbols, CapacityOf, DataFieldGeometry, CleanChannel, NewParams, LookupMcs;
    SizesAgree(mcs, kMod, |psdu|, aggregation, coding);
    var p := LookupMcs(mcs).value;
    var g := GeometryFor(mcs, |psdu|, aggregation, coding).value;
    SignalledGeometry(mcs, |psdu|, aggregation, coding);
    var (nSym, psduLength) := DataFieldGeometry(g.lengthField, aggregation, coding, g.extra, false, p.nDbps).value;
    r := TransferData(mcs, kMod, psdu, seed, aggregation, coding, maxIter, nSym, psduLength, g.extra, channel);
    assert Padded(psdu, |psdu|) == psdu;
  }

  /** The whole PPDU: whatever the transmitter accepts, SIG is decoded and taken to announce exactly
      the transmission, and the decoder built from that verdict returns the PSDU and the seed. */
  method TransferPpdu(txv: TxVector, kMod: real, psdu: seq<Octet>, seed: nat, maxIter: nat,
                      sigChannel: seq<Point> -> (seq<Point>, seq<real>), channel: (nat, seq<Point>) -> Symbol)
    returns (v: Verdict, r: Option<DecodeResult>)
    requires kMod > 0.0 && seed < 128 && GeometryFor(txv.mcs, |psdu|, txv.aggregation, txv.coding).Success?
    requires IdOf(txv).Success?
    requires forall tones | |tones| == 96 :: SigField.Received(tones, sigChannel(tones).0, sigChannel(tones).1, txv.preamble)
    requires CleanChannel(channel, LookupMcs(txv.mcs).value.nBpscs, kMod)
    ensures var g := GeometryFor(txv.mcs, |psdu|, txv.aggregation, txv.coding).value;
            v == Supported(Announced(txv, g, CarriedLength(txv, |psdu|, g)))
    ensures r.Some? && r.value.seed == seed && |psdu| <= v.rx.psduLength && r.value.psdu == Padded(psdu, v.rx.psduLength)
    ensures !txv.aggregation ==> v.rx.psduLength == |psdu|
  {
    hide GeometryFor, CapacityOf, CleanChannel, LookupMcs, VerdictOf, SigField.Received, Padded;
    var g := GeometryFor(txv.mcs, |psdu|, txv.aggregation, txv.coding).value;
    SignallingFaithful(txv, |psdu|);
    var f := FromTxVector(txv, g.lengthField, g.extra).value;
    var content := SigField.TransferFields(f, txv.preamble, sigChannel);
    v := VerdictOf(content.value.f, txv.preamble);
    var rx := v.rx;
    r := TransferData(rx.mcs, kMod, psdu, seed, rx.aggregation, rx.coding, maxIter, rx.nSym, rx.psduLength, rx.ldpcExtra, channel);
  }
}

/** From transmit parameters to SIG fields and from fields to what the receiver does with the PPDU
    (`from_txvector` and `verdict` of crates/s2g-phy/src/sig.rs). */
module SigVerdict {
  import opened Wrappers
  import opened Params
  import opened Geometry
  import opened Sig

  // ---- Transmit parameters ----

  datatype TxVector = TxVector(
    mcs: nat, preamble: PreambleType, gi: GuardInterval, coding: Coding, aggregation: bool, response: ResponseIndication,
    smoothing: bool, travelingPilots: bool, uplink: bool, color: nat, partialAid: nat)

  datatype TxError = BadMcs | ColorTooBig | PartialAidTooBig

  /** The nine ID bits: a partial AID, or six bits of one above the color. */
  function IdOf(txv: TxVector): Result<nat, TxError> {
    if txv.color > 7 then Failure(ColorTooBig)
    else if txv.partialAid > (if txv.uplink then 511 else 63) then Failure(PartialAidTooBig)
    else Success(if txv.uplink then txv.partialAid else 8 * txv.partialAid + txv.color)
  }

  /** Color and partial AID from the ID bits. */
  function SplitId(id: nat, uplink: bool): (nat, nat) {
    if uplink then (0, id % 512) else (id % 8, (id / 8) % 64)
  }

  function FromTxVector(txv: TxVector, lengthField: nat, extra: bool): Result<Fields, TxError> {
    if LookupMcs(txv.mcs).None? then Failure(BadMcs)
    else match IdOf(txv)
      case Failure(e) => Failure(e)
      case Success(id) =>
        var ldpc := txv.coding.LdpcCoding?;
        Success(Fields(false, txv.uplink, 0, 0, id, txv.gi.ShortGi?, ldpc, if ldpc then extra else true, txv.mcs,
                       if txv.preamble.S1gShort? then txv.smoothing else !txv.smoothing,
                       txv.aggregation, lengthField, txv.response, txv.travelingPilots))
  }

  // ---- Verdicts ----

  /** Bits per point and rate of every MCS defined for 2 MHz and more. */
  function ModulationOf(mcs: nat): Option<(nat, CodeRate)> {
    match mcs
    case 0 => Some((1, R12))
    case 1 => Some((2, R12))
    case 2 => Some((2, R34))
    case 3 => Some((4, R12))
    case 4 => Some((4, R34))
    case 5 => Some((6, R23))
    case 6 => Some((6, R34))
    case 7 => Some((6, R56))
    case 8 => Some((8, R34))
    case 9 => Some((8, R56))
    case 11 => Some((10, R34))
    case 12 => Some((10, R56))
    case _ => None
  }

  /** Data bits per symbol for a number of spatial streams, if they are a whole number. */
  function NDbps(mcs: nat, nSs: nat): (r: Option<nat>)
    ensures r.Some? ==> r.value > 0
  {
    if nSs < 1 || nSs > 4 then None
    else match ModulationOf(mcs)
      case None => None
      case Some((nBpscs, rate)) =>
        var total := 52 * nBpscs * nSs * rate.Num();
        if total % rate.Den() == 0 then Some(total / rate.Den()) else None
  }

  datatype RxVector = RxVector(
    preamble: PreambleType, bandwidth: nat, numSts: nat, stbc: bool, mcs: nat, gi: GuardInterval, coding: Coding,
    ldpcExtra: bool, aggregation: bool, response: ResponseIndication, smoothing: bool, travelingPilots: bool, uplink: bool,
    color: nat, partialAid: nat, length: nat, psduLength: nat, nSym: nat)

  datatype Unsupported = WideBand | WithStbc | ManyStreams | McsUnsupported

  datatype Verdict = Supported(rx: RxVector) | NotSupported(rx: RxVector, why: Unsupported) | IsReserved(reason: ReservedReason)

  /** For one stream bit 23 of SIG-A set to zero means smoothing is allowed; for more it says
      nothing about smoothing. */
  function SmoothingOf(f: Fields, t: PreambleType): bool {
    if t.S1gShort? then f.b23 else f.nsts == 0 && !f.b23
  }

  function RxVectorOf(f: Fields, t: PreambleType, nSym: nat, psduLength: nat): RxVector {
    var (color, aid) := SplitId(f.id, f.uplink);
    RxVector(t, f.bandwidth, f.nsts + 1, f.stbc, f.mcs, if f.shortGi then ShortGi else LongGi,
             if f.ldpc then LdpcCoding else BccCoding, f.ldpc && f.ldpcExtra, f.aggregation, f.response, SmoothingOf(f, t),
             f.travelingPilots, f.uplink, color, aid, f.length, psduLength, nSym)
  }

  function VerdictOf(f: Fields, t: PreambleType): Verdict {
    var nSts := f.nsts + 1;
    if f.stbc && nSts % 2 == 1 then IsReserved(OddStbc)
    else if !f.ldpc && !f.ldpcExtra then IsReserved(BccExtra)
    else
      match NDbps(f.mcs, if f.stbc then nSts / 2 else nSts)
      case None => IsReserved(NoSuchRate)
      case Some(nDbps) =>
        match DataFieldGeometry(f.length, f.aggregation, if f.ldpc then LdpcCoding else BccCoding, f.ldpc && f.ldpcExtra, f.stbc, nDbps)
        case None => IsReserved(EmptyData)
        case Some((nSym, psduLength)) =>
          var rx := RxVectorOf(f, t, nSym, psduLength);
          if f.bandwidth != 0 then NotSupported(rx, WideBand)
          else if f.stbc then NotSupported(rx, WithStbc)
          else if nSts != 1 then NotSupported(rx, ManyStreams)
          else if LookupMcs(f.mcs).None? then NotSupported(rx, McsUnsupported)
          else Supported(rx)
  }

  // ---- What the receiver learns ----

  /** The table of transmitted rates agrees with the general rule for one stream. */
  lemma {:induction false} RatesAgree(mcs: nat)
    requires LookupMcs(mcs).Some?
    ensures NDbps(mcs, 1) == Some(LookupMcs(mcs).value.nDbps)
  {
  }

  lemma {:induction false} IdRoundTrip(txv: TxVector)
    requires IdOf(txv).Success?
    ensures IdOf(txv).value < 512
    ensures SplitId(IdOf(txv).value, txv.uplink) == (if txv.uplink then 0 else txv.color, txv.partialAid)
  {
  }

  /** What a receiver must learn of a transmission. */
  function Announced(txv: TxVector, g: DataGeometry, psduLength: nat): RxVector {
    RxVector(txv.preamble, 0, 1, false, txv.mcs, txv.gi, txv.coding, g.extra, txv.aggregation, txv.response, txv.smoothing,
             txv.travelingPilots, txv.uplink, if txv.uplink then 0 else txv.color, txv.partialAid, g.lengthField, psduLength, g.nSym)
  }

  /** Capacity of the data field, which is what an aggregated PSDU is taken to fill. */
  function CarriedLength(txv: TxVector, psduLen: nat, g: DataGeometry): nat
    requires LookupMcs(txv.mcs).Some?
  {
    if txv.aggregation then CapacityOf(g.nSymInit, LookupMcs(txv.mcs).value.nDbps, txv.coding) else psduLen
  }

  /** Signalling is faithful: for every transmission the builder accepts, the fields fit their
      widths and the receiver's verdict on them is Supported, with the transmitter's own parameters,
      symbol count and PSDU length (the capacity when aggregated). */
  lemma {:induction false} SignallingFaithful(txv: TxVector, psduLen: nat)
    requires GeometryFor(txv.mcs, psduLen, txv.aggregation, txv.coding).Success?
    ensures LookupMcs(txv.mcs).Some?
    ensures var g := GeometryFor(txv.mcs, psduLen, txv.aggregation, txv.coding).value;
            var r := FromTxVector(txv, g.lengthField, g.extra);
            && (r.Success? <==> txv.color <= 7 && txv.partialAid <= (if txv.uplink then 511 else 63))
            && (r.Success? ==> r.value.Fits())
            && (r.Success? ==> VerdictOf(r.value, txv.preamble) == Supported(Announced(txv, g, CarriedLength(txv, psduLen, g))))
  {
    hide NDbps, GeometryFor, DataFieldGeometry, CapacityOf, SplitId;
    SignalledGeometry(txv.mcs, psduLen, txv.aggregation, txv.coding);
    RatesAgree(txv.mcs);
    LookupSmall(txv.mcs);
    var g := GeometryFor(txv.mcs, psduLen, txv.aggregation, txv.coding).value;
    if txv.coding.BccCoding? {
      NoExtraForBcc(txv.mcs, psduLen, txv.aggregation, txv.coding);
    }
    if IdOf(txv).Success? {
      IdRoundTrip(txv);
    }
  }

  lemma {:induction false} LookupSmall(mcs: nat)
    requires LookupMcs(mcs).Some?
    ensures mcs < 16
  {
  }

  lemma {:induction false} NoExtraForBcc(mcs: nat, psduLen: nat, aggregation: bool, coding: Coding)
    requires GeometryFor(mcs, psduLen, aggregation, coding).Success? && coding.BccCoding?
    ensures !GeometryFor(mcs, psduLen, aggregation, coding).value.extra
  {
  }

  /** The receiver goes on to the Data field exactly for single-stream 2 MHz PPDUs with a supported
      MCS, a nonzero length and the reserved bit that goes with BCC set. */
  lemma {:induction false} SupportedIff(f: Fields, t: PreambleType)
    ensures VerdictOf(f, t).Supported?
            <==> !f.stbc && f.bandwidth == 0 && f.nsts == 0 && LookupMcs(f.mcs).Some? && f.length > 0 && (f.ldpc || f.ldpcExtra)
  {
    hide NDbps, CapacityOf, RxVectorOf;
    if LookupMcs(f.mcs).Some? {
      RatesAgree(f.mcs);
    }
  }
}

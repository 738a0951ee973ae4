/** Data-field geometry: symbol counts and A-MPDU capacity (`data_geometry` and
    `aggregated_capacity` of crates/s2g-phy/src/tx.rs). */
module Geometry {
  import opened Wrappers
  import opened Params
  import opened Arith
  import opened LdpcPpdu

  datatype GeometryError = InvalidMcs | InvalidLength

  datatype DataGeometry = DataGeometry(nSym: nat, nSymInit: nat, extra: bool, lengthField: nat)

  /** Initial symbols that hold `octets` after SERVICE (and, for BCC, tail) bits. */
  function InitSymbols(octets: nat, nDbps: nat, coding: Coding): nat
    requires nDbps > 0
  {
    var overhead := if coding.BccCoding? then N_SERVICE + N_TAIL else N_SERVICE;
    CeilDiv(8 * octets + overhead, nDbps)
  }

  /** Symbols sent: LDPC may add one. */
  function SentSymbols(nInit: nat, p: McsParams, coding: Coding): (r: (nat, bool))
    requires p.nCbps > 0
  {
    match coding
    case BccCoding => (nInit, false)
    case LdpcCoding =>
      var lp := NewParams(nInit, p.nDbps, p.nCbps, p.rate);
      (lp.nSym, lp.extra)
  }

  function GeometryFor(mcs: nat, psduLen: nat, aggregation: bool, coding: Coding): (r: Result<DataGeometry, GeometryError>)
  {
    match LookupMcs(mcs)
    case None => Failure(InvalidMcs)
    case Some(p) =>
      if psduLen == 0 || (!aggregation && psduLen > PSDU_MAX_NO_AGG) then Failure(InvalidLength)
      else
        var nInit := InitSymbols(psduLen, p.nDbps, coding);
        var (nSym, extra) := SentSymbols(nInit, p, coding);
        if nSym > N_SYM_MAX then Failure(InvalidLength)
        else Success(DataGeometry(nSym, nInit, extra, if aggregation then nSym else psduLen))
  }

  /** PSDU octets that fill the symbols needed for `minOctets`. */
  function AggregatedCapacity(mcs: nat, minOctets: nat, coding: Coding): (r: Result<nat, GeometryError>)
  {
    match GeometryFor(mcs, minOctets, true, coding)
    case Failure(e) => Failure(e)
    case Success(g) => Success(CapacityOf(g.nSymInit, LookupMcs(mcs).value.nDbps, coding))
  }

  /** The source subtracts without a check; every geometry has room for the overhead. */
  function CapacityOf(nInit: nat, nDbps: nat, coding: Coding): nat {
    var overhead := if coding.BccCoding? then N_SERVICE + N_TAIL else N_SERVICE;
    MonusZero(Times(nInit, nDbps) - overhead) / 8
  }

  /** Symbol count and PSDU length from the SIG fields (`data_field_geometry` of
      crates/s2g-phy/src/vector.rs), for any coding and STBC setting. */
  function DataFieldGeometry(length: nat, aggregation: bool, coding: Coding, extra: bool, stbc: bool, nDbps: nat): (r: Option<(nat, nat)>)
    requires nDbps > 0
  {
    var m := if stbc then 2 else 1;
    if length == 0 then None
    else match coding
      case BccCoding =>
        if aggregation then Some((length, CapacityOf(length, nDbps, coding)))
        else Some((m * CeilDiv(8 * length + N_SERVICE + N_TAIL, m * nDbps), length))
      case LdpcCoding =>
        var more := if extra then m else 0;
        if aggregation then
          if length < more then None
          else
            var nInit := if length - more < 1 then 1 else length - more;
            Some((length, CapacityOf(nInit, nDbps, coding)))
        else Some((m * CeilDiv(8 * length + N_SERVICE, m * nDbps) + more, length))
  }

  // ---- Rounding up to symbols ----

  lemma {:induction false} CeilBounds(a: nat, b: nat)
    requires b > 0 && a > 0
    ensures CeilDiv(a, b) >= 1 && a <= CeilDiv(a, b) * b < a + b
  {
    var q := CeilDiv(a, b);
    assert a + b - 1 == q * b + (a + b - 1) % b;
  }

  lemma {:induction false} CeilUnique(a: nat, b: nat, q: nat)
    requires b > 0 && a > 0 && a <= q * b < a + b
    ensures CeilDiv(a, b) == q
  {
    DivModUnique(a + b - 1, q, a + b - 1 - q * b, b);
  }

  lemma {:induction false} InitBounds(octets: nat, nDbps: nat, coding: Coding)
    requires nDbps > 0
    ensures var n := InitSymbols(octets, nDbps, coding);
            var need := 8 * octets + (if coding.BccCoding? then 14 else 8);
            n >= 1 && need <= Times(n, nDbps) < need + nDbps
  {
    CeilBounds(8 * octets + (if coding.BccCoding? then N_SERVICE + N_TAIL else N_SERVICE), nDbps);
  }

  /** More octets or fewer bits per symbol never need fewer symbols. */
  lemma {:induction false} InitMonotone(a: nat, b: nat, d: nat, e: nat, coding: Coding)
    requires a <= b && 0 < d <= e
    ensures InitSymbols(a, e, coding) <= InitSymbols(b, d, coding)
  {
    hide InitSymbols;
    InitBounds(a, e, coding);
    InitBounds(b, d, coding);
    var (x, y) := (InitSymbols(a, e, coding), InitSymbols(b, d, coding));
    MulNonneg(y, e - d);
    assert y * (e - d) == y * e - y * d;
    assert (y + 1) * e == y * e + e;
    MulOrder(x, y + 1, e);
  }

  /** Filling the symbols keeps the number of initial symbols. */
  lemma {:induction false} CapacityKeepsSymbols(octets: nat, nDbps: nat, coding: Coding)
    requires nDbps > 0
    ensures var n := InitSymbols(octets, nDbps, coding);
            var cap := CapacityOf(n, nDbps, coding);
            cap >= octets && InitSymbols(cap, nDbps, coding) == n
            && 8 * cap + (if coding.BccCoding? then 14 else 8) <= Times(n, nDbps)
  {
    hide InitSymbols, Times;
    InitBounds(octets, nDbps, coding);
    var n := InitSymbols(octets, nDbps, coding);
    var cap := CapacityOf(n, nDbps, coding);
    var overhead := if coding.BccCoding? then N_SERVICE + N_TAIL else N_SERVICE;
    TimesIs(n, nDbps);
    CeilUnique(8 * cap + overhead, nDbps, n);
    InitIs(cap, nDbps, coding);
  }

  lemma {:induction false} TimesIs(a: nat, b: nat)
    ensures Times(a, b) == a * b
  {
  }

  lemma {:induction false} InitIs(octets: nat, nDbps: nat, coding: Coding)
    requires nDbps > 0
    ensures InitSymbols(octets, nDbps, coding)
            == CeilDiv(8 * octets + (if coding.BccCoding? then N_SERVICE + N_TAIL else N_SERVICE), nDbps)
  {
  }

  /** The padded length is at least what was asked for, asking again for the padded length
      changes nothing, and both have the same geometry. */
  lemma {:induction false} CapacityFixedPoint(mcs: nat, minOctets: nat, coding: Coding)
    requires AggregatedCapacity(mcs, minOctets, coding).Success?
    ensures var cap := AggregatedCapacity(mcs, minOctets, coding).value;
            && cap >= minOctets
            && AggregatedCapacity(mcs, cap, coding) == Success(cap)
            && GeometryFor(mcs, cap, true, coding) == GeometryFor(mcs, minOctets, true, coding)
  {
    hide InitSymbols, CapacityOf, SentSymbols;
    LookupMcsValid(mcs);
    CapacityKeepsSymbols(minOctets, LookupMcs(mcs).value.nDbps, coding);
  }

  // ---- Sizes that fit at every higher rate ----

  lemma {:induction false} SentBounds(nInit: nat, p: McsParams, coding: Coding)
    requires nInit >= 1 && p.Valid() && p.nDbps > 0
    ensures var (n, extra) := SentSymbols(nInit, p, coding);
            n == nInit + (if extra then 1 else 0) && (coding.BccCoding? ==> !extra)
  {
    hide NewParams;
    if coding.LdpcCoding? {
      ParamsBalanced(nInit, p.nDbps, p.nCbps, p.rate);
    }
  }

  /** Within 511 symbols a rate with at least a ninth more bits per symbol needs fewer symbols. */
  lemma {:induction false} FewerSymbols(octets: nat, d: nat, e: nat, coding: Coding)
    requires 26 <= d && 9 * e >= 10 * d && e <= 390
    requires InitSymbols(octets, d, coding) == 511
    ensures InitSymbols(octets, e, coding) < 511
  {
    hide InitSymbols, Times;
    InitBounds(octets, d, coding);
    InitBounds(octets, e, coding);
    var (x, y) := (InitSymbols(octets, d, coding), InitSymbols(octets, e, coding));
    TimesIs(x, d);
    TimesIs(y, e);
    assert 512 * e == 511 * e + e;
    MulOrder(y, 511, e);
  }

  /** The rates of the ladder grow with the MCS index by a ninth or more. */
  lemma {:induction false} RatesGrow(low: nat, high: nat)
    requires low < high && LookupMcs(low).Some? && LookupMcs(high).Some?
    ensures 9 * LookupMcs(high).value.nDbps >= 10 * LookupMcs(low).value.nDbps
  {
  }

  /** If `octets` fit at some MCS, no more octets fit at every higher MCS with the same coding. */
  lemma {:induction false} FitsAtHigherRate(low: nat, high: nat, octets: nat, fewer: nat, coding: Coding)
    requires low <= high && LookupMcs(high).Some? && 0 < fewer <= octets
    requires AggregatedCapacity(low, octets, coding).Success?
    ensures AggregatedCapacity(high, fewer, coding).Success?
  {
    hide InitSymbols, SentSymbols, CapacityOf;
    LookupMcsValid(low);
    LookupMcsValid(high);
    var (p, q) := (LookupMcs(low).value, LookupMcs(high).value);
    if low < high {
      RatesGrow(low, high);
    }
    InitMonotone(fewer, octets, p.nDbps, q.nDbps, coding);
    InitMonotone(fewer, octets, q.nDbps, q.nDbps, coding);
    InitBounds(octets, p.nDbps, coding);
    InitBounds(fewer, q.nDbps, coding);
    var (n, m) := (InitSymbols(octets, p.nDbps, coding), InitSymbols(fewer, q.nDbps, coding));
    SentBounds(n, p, coding);
    SentBounds(m, q, coding);
    if m == 511 && low < high {
      FewerSymbols(octets, p.nDbps, q.nDbps, coding);
    }
  }

  /** The receiver derives the transmitter's symbol count, and the length of the PSDU or, for an
      A-MPDU, the capacity it was padded to. */
  lemma {:induction false} SignalledGeometry(mcs: nat, psduLen: nat, aggregation: bool, coding: Coding)
    requires GeometryFor(mcs, psduLen, aggregation, coding).Success?
    ensures LookupMcs(mcs).Some?
    ensures var g := GeometryFor(mcs, psduLen, aggregation, coding).value;
            var p := LookupMcs(mcs).value;
            && 1 <= g.lengthField <= 511
            && g.nSym == g.nSymInit + (if g.extra then 1 else 0)
            && DataFieldGeometry(g.lengthField, aggregation, coding, g.extra, false, p.nDbps)
               == Some((g.nSym, if aggregation then CapacityOf(g.nSymInit, p.nDbps, coding) else psduLen))
  {
    hide CapacityOf, SentSymbols, InitSymbols, CeilDiv, LookupMcs;
    LookupMcsValid(mcs);
    var p := LookupMcs(mcs).value;
    InitBounds(psduLen, p.nDbps, coding);
    InitIs(psduLen, p.nDbps, coding);
    SentBounds(InitSymbols(psduLen, p.nDbps, coding), p, coding);
  }

  /** For an aggregated LDPC PPDU the receiver takes the capacity of the initial symbols that its
      decoder derives from the same symbol count and flag. */
  lemma {:induction false} CapacityOfInitial(length: nat, extra: bool, nDbps: nat)
    requires nDbps > 0
    ensures DataFieldGeometry(length, true, LdpcCoding, extra, false, nDbps)
            == if length == 0 then None else Some((length, CapacityOf(InitialSymbols(length, extra), nDbps, LdpcCoding)))
  {
    hide CapacityOf;
  }
}

/** Constants and tables of the 2 MHz physical layer (crates/s2g-phy/src/params.rs). */
module Params {
  import opened Wrappers

  /** A bit; `true` is 1 and exclusive or is `!=`. */
  type Bit = bool

  const N_SERVICE: nat := 8
  const N_TAIL: nat := 6
  const N_SD: nat := 52
  const PSDU_MAX_NO_AGG: nat := 511
  const N_SYM_MAX: nat := 511

  datatype CodeRate = R12 | R23 | R34 | R56
  {
    function Num(): nat {
      match this case R12 => 1 case R23 => 2 case R34 => 3 case R56 => 5
    }

    function Den(): nat {
      match this case R12 => 2 case R23 => 3 case R34 => 4 case R56 => 6
    }
  }

  datatype Coding = BccCoding | LdpcCoding

  /** What a PPDU announces about the answer to it. */
  datatype ResponseIndication = NoResponse | NdpResponse | NormalResponse | LongResponse
  {
    function Code(): (c: nat)
      ensures c < 4
    {
      match this case NoResponse => 0 case NdpResponse => 1 case NormalResponse => 2 case LongResponse => 3
    }
  }

  datatype GuardInterval = LongGi | ShortGi

  /** Modulation, code rate and per-symbol sizes of one MCS. */
  datatype McsParams = McsParams(rate: CodeRate, nBpscs: nat, nCbps: nat, nDbps: nat)
  {
    /** What every row of the MCS table satisfies. */
    ghost predicate Valid() {
      && nBpscs in {1, 2, 4, 6, 8, 10}
      && nCbps == N_SD * nBpscs
      && nDbps * rate.Den() == nCbps * rate.Num()
    }
  }

  /** Table 23-46: S1G MCS 0 to 8 and 11 exist for 2 MHz and one stream. */
  function LookupMcs(mcs: nat): Option<McsParams> {
    match mcs
    case 0 => Some(McsParams(R12, 1, 52, 26))
    case 1 => Some(McsParams(R12, 2, 104, 52))
    case 2 => Some(McsParams(R34, 2, 104, 78))
    case 3 => Some(McsParams(R12, 4, 208, 104))
    case 4 => Some(McsParams(R34, 4, 208, 156))
    case 5 => Some(McsParams(R23, 6, 312, 208))
    case 6 => Some(McsParams(R34, 6, 312, 234))
    case 7 => Some(McsParams(R56, 6, 312, 260))
    case 8 => Some(McsParams(R34, 8, 416, 312))
    case 11 => Some(McsParams(R34, 10, 520, 390))
    case _ => None
  }

  lemma {:induction false} LookupMcsValid(mcs: nat)
    requires LookupMcs(mcs).Some?
    ensures LookupMcs(mcs).value.Valid()
    ensures 26 <= LookupMcs(mcs).value.nDbps <= 390
  {
  }
}

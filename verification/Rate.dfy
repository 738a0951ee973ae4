/** Rate control of one station (crates/s2g-mac/src/rate.rs): what selecting a rate, reporting an
    outcome and hearing a peer do to that peer's record. Probabilities, decibels and airtimes are
    exact reals. */
module Rate {
  import opened Wrappers
  import opened Params
  import opened MacTypes

  const LADDER: seq<nat> := [0, 1, 2, 3, 4, 5, 6, 7, 8, 11]
  const RUNGS: nat := 10
  const OVERRIDE_INTERVALS: nat := 4
  const P_FLAWLESS: real := 0.98
  const LDPC_GAIN_DB: real := 1.8

  /** Reported SNR at which each rung delivers nine in ten PSDUs. */
  function SnrTable(i: nat): real {
    match i
    case 0 => 8.5 case 1 => 10.0 case 2 => 10.5 case 3 => 11.5 case 4 => 15.5
    case 5 => 19.0 case 6 => 20.5 case 7 => 22.0 case 8 => 26.0 case _ => 31.0
  }

  type Rung = i: nat | i < 10

  datatype Adapt<T> = Auto | Fixed(value: T)

  datatype RateConfig = RateConfig(
    startMcs: nat, minMcs: nat, maxMcs: nat, gi: Adapt<GuardInterval>, coding: Adapt<Coding>,
    probeInterval: nat, backoffMax: nat, rearmDb: real, alpha: real, pMin: real, marginDb: real,
    sgiMaxUs: real, failCostUs: nat)

  datatype Stat = Stat(p: Option<real>, attempts: nat, successes: nat)

  datatype Probe = McsProbe(aboveHint: bool) | GiProbe | LdpcProbe

  /** The first failed attempt of a batch. */
  datatype Failed = Failed(idx: Rung, giStep: bool, ldpcProbe: bool)

  /** Statistics per rung for the long and the short guard interval, the rung in use, and the state
      of probing. */
  datatype Peer = Peer(
    long: seq<Stat>, short: seq<Stat>, cur: Rung, shortGi: bool, ldpc: bool, sinceProbe: nat,
    mcsBackoff: nat, giBackoff: nat, fecBackoff: nat, probing: Option<(Rung, Probe)>, lastProbe: Option<Probe>,
    failed: Option<Failed>, octets: nat, probeFailDb: Option<real>, snrDb: Option<real>, delaySpreadUs: Option<real>)
  {
    ghost predicate Sized() {
      |long| == RUNGS && |short| == RUNGS
    }

    function StatAt(i: Rung, shortGi: bool): Stat
      requires Sized()
    {
      if shortGi then short[i] else long[i]
    }

    function WithStat(i: Rung, shortGi: bool, s: Stat): (p: Peer)
      requires Sized()
      ensures p.Sized() && p == this.(long := p.long, short := p.short)
    {
      if shortGi then this.(short := short[i := s]) else this.(long := long[i := s])
    }
  }

  // ---- Arithmetic ----

  function MaxReal(a: real, b: real): real {
    if a < b then b else a
  }

  function MinReal(a: real, b: real): real {
    if a < b then a else b
  }

  function MaxNat(a: nat, b: nat): nat {
    if a < b then b else a
  }

  function MinNat(a: nat, b: nat): nat {
    if a < b then a else b
  }

  function Less(a: nat, b: nat): nat {
    if a < b then 0 else a - b
  }

  /** Rung of an MCS. */
  function LadderIndex(mcs: nat): Option<Rung> {
    if mcs <= 8 then Some(mcs) else if mcs == 11 then Some(9) else None
  }

  function McsOf(i: Rung): nat {
    LADDER[i]
  }

  lemma {:induction false} LadderInverse(i: Rung)
    ensures LadderIndex(McsOf(i)) == Some(i)
  {
  }

  function DbpsOf(i: Rung): (d: nat)
    ensures d > 0
  {
    match i
    case 0 => 26 case 1 => 52 case 2 => 78 case 3 => 104 case 4 => 156
    case 5 => 208 case 6 => 234 case 7 => 260 case 8 => 312 case _ => 390
  }

  /** The rates of the ladder are those of the MCS table. */
  lemma {:induction false} LadderRates(i: Rung)
    ensures LookupMcs(McsOf(i)).Some? && LookupMcs(McsOf(i)).value.nDbps == DbpsOf(i)
  {
  }

  function AirtimePerOctet(i: Rung): real {
    320.0 / (DbpsOf(i) as real)
  }

  function AirtimeSaving(from: Rung, to: Rung, octets: nat): nat {
    (MaxReal(AirtimePerOctet(from) - AirtimePerOctet(to), 0.0) * (octets as real)).Floor
  }

  function SnrRequired(i: Rung, ldpc: bool): real {
    SnrTable(i) - if ldpc && i > 0 then LDPC_GAIN_DB else 0.0
  }

  function SnrAllows(marginDb: real, snrDb: Option<real>, i: Rung, ldpc: bool): bool {
    snrDb.None? || SnrRequired(i, ldpc) + marginDb <= snrDb.value
  }

  /** Success probability a rate must hold to stay in use. */
  function Floor(pMin: real, failCostUs: nat, below: real, saving: real): real {
    MinReal(MaxReal(below - saving / (MaxNat(failCostUs, 1) as real), pMin), P_FLAWLESS)
  }

  function OrElse(p: Option<real>, x: real): real {
    if p.Some? then p.value else x
  }

  function FloorMcs(cfg: RateConfig, p: Peer, i: Rung, short: bool): real
    requires p.Sized()
  {
    if i == 0 then cfg.pMin
    else Floor(cfg.pMin, cfg.failCostUs, OrElse(p.StatAt(i - 1, short).p, 1.0), AirtimeSaving(i - 1, i, p.octets) as real)
  }

  function FloorGi(cfg: RateConfig, p: Peer, i: Rung): real
    requires p.Sized()
  {
    Floor(cfg.pMin, cfg.failCostUs, OrElse(p.StatAt(i, false).p, 1.0), 0.1 * AirtimePerOctet(i) * (p.octets as real))
  }

  // ---- Bounds and new peers ----

  /** Lowest rung. */
  function Lo(cfg: RateConfig): Rung {
    if LadderIndex(cfg.minMcs).Some? then LadderIndex(cfg.minMcs).value else 0
  }

  /** Highest rung, at least the lowest. */
  function Hi(cfg: RateConfig): (hi: Rung)
    ensures Lo(cfg) <= hi
  {
    MaxNat(Lo(cfg), if LadderIndex(cfg.maxMcs).Some? then LadderIndex(cfg.maxMcs).value else 9)
  }

  /** The highest rung of `lo..i` that the SNR allows, or `lo`. */
  function BestAllowed(cfg: RateConfig, snrDb: Option<real>, i: nat): (r: Rung)
    requires Lo(cfg) <= i <= Hi(cfg) + 1
    ensures Lo(cfg) <= r <= Hi(cfg)
    ensures r < i || i == Lo(cfg)
    decreases i
  {
    if i == Lo(cfg) then Lo(cfg)
    else if SnrAllows(cfg.marginDb, snrDb, i - 1, false) then i - 1
    else BestAllowed(cfg, snrDb, i - 1)
  }

  function StartIndex(cfg: RateConfig, snrDb: Option<real>): (r: Rung)
    ensures Lo(cfg) <= r <= Hi(cfg)
  {
    if snrDb.Some? then BestAllowed(cfg, snrDb, Hi(cfg) + 1)
    else
      var s := if LadderIndex(cfg.startMcs).Some? then LadderIndex(cfg.startMcs).value else Lo(cfg);
      MinNat(MaxNat(s, Lo(cfg)), Hi(cfg))
  }

  function FreshStats(): (s: seq<Stat>)
    ensures |s| == RUNGS && forall i | 0 <= i < RUNGS :: s[i] == Stat(None, 0, 0)
  {
    seq(RUNGS, _ => Stat(None, 0, 0))
  }

  function NewPeer(cfg: RateConfig): (p: Peer)
    ensures p.Sized()
  {
    Peer(FreshStats(), FreshStats(), StartIndex(cfg, None), false, false, 0, 0, 0, 0, None, None, None, 0, None, None, None)
  }

  // ---- Hearing a peer ----

  function Smoothed(was: Option<real>, x: real): Option<real> {
    Some(if was.Some? then was.value + 0.3 * (x - was.value) else x)
  }

  predicate NothingSent(p: Peer) {
    (forall i | 0 <= i < |p.long| :: p.long[i].attempts == 0) && (forall i | 0 <= i < |p.short| :: p.short[i].attempts == 0)
  }

  function ObserveSnr(cfg: RateConfig, p: Peer, snrDb: real): Peer {
    var q := p.(snrDb := Smoothed(p.snrDb, snrDb));
    var r := if q.probeFailDb.Some? && q.snrDb.value >= q.probeFailDb.value + cfg.rearmDb
             then q.(mcsBackoff := 0, probeFailDb := None) else q;
    if NothingSent(r) then r.(cur := StartIndex(cfg, r.snrDb)) else r
  }

  function ObserveDelaySpread(p: Peer, us: real): Peer {
    p.(delaySpreadUs := Smoothed(p.delaySpreadUs, us))
  }

  // ---- Selecting ----

  function GiInUse(cfg: RateConfig, p: Peer): GuardInterval {
    match cfg.gi case Fixed(g) => g case Auto => if p.shortGi then ShortGi else LongGi
  }

  function CodingInUse(cfg: RateConfig, p: Peer): Coding {
    match cfg.coding case Fixed(c) => c case Auto => if p.ldpc then LdpcCoding else BccCoding
  }

  /** The attempt retries count down from. */
  function RetryBase(cfg: RateConfig, p: Peer): Failed {
    if p.failed.Some? then p.failed.value
    else Failed(p.cur, GiInUse(cfg, p).ShortGi? && cfg.gi.Auto?, false)
  }

  function RetryRung(cfg: RateConfig, f: Failed, retry: nat): (r: Rung)
    ensures Lo(cfg) <= r && (r <= f.idx || r == Lo(cfg))
  {
    MaxNat(Less(f.idx, Less(retry, if f.giStep then 1 else 0)), Lo(cfg))
  }

  function RetryChoice(cfg: RateConfig, p: Peer, retry: nat): TxChoice {
    var f := RetryBase(cfg, p);
    TxChoice(McsOf(RetryRung(cfg, f, retry)), if cfg.gi.Fixed? then cfg.gi.value else LongGi,
             if f.ldpcProbe then BccCoding else CodingInUse(cfg, p))
  }

  /** Whether the hint allows a probe of the next rung; a rate that works below what the table
      demands shows the table to be pessimistic. */
  function HintAllows(cfg: RateConfig, p: Peer): bool
    requires p.cur + 1 < RUNGS
  {
    var ldpc := CodingInUse(cfg, p).LdpcCoding?;
    (p.snrDb.Some? && p.snrDb.value < SnrRequired(p.cur, ldpc)) || SnrAllows(cfg.marginDb, p.snrDb, p.cur + 1, ldpc)
  }

  function McsProbeDue(cfg: RateConfig, p: Peer): bool
    requires p.Sized() && p.cur + 1 < RUNGS
  {
    if HintAllows(cfg, p) then p.sinceProbe >= cfg.probeInterval + p.mcsBackoff
    else
      var saving := AirtimeSaving(p.cur, p.cur + 1, p.octets) * (OVERRIDE_INTERVALS * cfg.probeInterval);
      var stat := p.StatAt(p.cur, GiInUse(cfg, p).ShortGi?).p;
      p.sinceProbe >= OVERRIDE_INTERVALS * cfg.probeInterval + p.mcsBackoff && stat.Some? && stat.value >= P_FLAWLESS
      && saving >= cfg.failCostUs
  }

  /** The probe due for a fresh attempt, if any: the next rung, LDPC, or the short guard interval. */
  function DueProbe(cfg: RateConfig, p: Peer): Option<(Rung, Probe)>
    requires p.Sized()
  {
    if p.cur + 1 <= Hi(cfg) && McsProbeDue(cfg, p) then Some((p.cur + 1, McsProbe(!HintAllows(cfg, p))))
    else if cfg.coding.Auto? && !p.ldpc && p.sinceProbe >= cfg.probeInterval + p.fecBackoff then Some((p.cur, LdpcProbe))
    else if cfg.gi.Auto? && !p.shortGi && (p.delaySpreadUs.None? || p.delaySpreadUs.value <= cfg.sgiMaxUs)
            && p.sinceProbe >= cfg.probeInterval + p.giBackoff then Some((p.cur, GiProbe))
    else None
  }

  function ProbeChoice(cfg: RateConfig, p: Peer, probe: (Rung, Probe)): TxChoice {
    TxChoice(McsOf(probe.0), if probe.1.GiProbe? then ShortGi else GiInUse(cfg, p),
             if probe.1.LdpcProbe? then LdpcCoding else CodingInUse(cfg, p))
  }

  function Select(cfg: RateConfig, p: Peer, retry: nat, octets: nat): (Peer, TxChoice)
    requires p.Sized()
  {
    var q := p.(probing := None, octets := octets);
    if retry > 0 then (q, RetryChoice(cfg, q, retry))
    else
      var r := q.(failed := None, sinceProbe := q.sinceProbe + 1);
      match DueProbe(cfg, r)
      case Some(probe) => (r.(sinceProbe := 0, probing := Some(probe), lastProbe := Some(probe.1)), ProbeChoice(cfg, r, probe))
      case None => (r, TxChoice(McsOf(r.cur), GiInUse(cfg, r), CodingInUse(cfg, r)))
  }

  // ---- Reporting ----

  function BackedOff(cfg: RateConfig, b: nat, base: nat): (r: nat)
    ensures r <= cfg.backoffMax
  {
    MinNat(MaxNat(b, base) * 2, cfg.backoffMax)
  }

  /** Exponential smoothing. */
  function Blend(x: real, weight: real, sample: real): real {
    x + weight * (sample - x)
  }

  function Sampled(cfg: RateConfig, s: Stat, success: bool): Stat {
    var sample := if success then 1.0 else 0.0;
    Stat(Some(if s.p.Some? then Blend(s.p.value, cfg.alpha, sample) else sample),
         s.attempts + 1, if success then s.successes + 1 else s.successes)
  }

  /** The probe this outcome is about. */
  function ProbeOf(p: Peer, idx: Rung, choice: TxChoice): (probe: Option<Probe>)
    ensures probe.Some? ==> p.probing.Some? && probe.value == p.probing.value.1
  {
    if p.probing.Some? && p.probing.value.0 == idx
       && (p.probing.value.1.McsProbe? || (p.probing.value.1.GiProbe? && choice.gi.ShortGi?)
           || (p.probing.value.1.LdpcProbe? && choice.coding.LdpcCoding?))
    then Some(p.probing.value.1) else None
  }

  function NoteFailed(cfg: RateConfig, p: Peer, idx: Rung, choice: TxChoice, probe: Option<Probe>, success: bool): Peer {
    if success then p.(failed := None)
    else if p.failed.None? then p.(failed := Some(Failed(idx, choice.gi.ShortGi? && cfg.gi.Auto?, probe == Some(LdpcProbe))))
    else p
  }

  /** Raise the probability of a promoted rate to its floor. */
  function Promoted(p: Peer, idx: Rung, short: bool, floor: real): (q: Peer)
    requires p.Sized()
    ensures q.Sized() && q == p.(long := q.long, short := q.short)
  {
    var s := p.StatAt(idx, short);
    p.WithStat(idx, short, s.(p := Some(MaxReal(OrElse(s.p, 0.0), floor))))
  }

  function ResolveProbe(cfg: RateConfig, p: Peer, idx: Rung, choice: TxChoice, probe: Probe, success: bool): (q: Peer)
    requires p.Sized()
    ensures q.Sized()
  {
    var short := choice.gi.ShortGi?;
    var r := p.(probing := None);
    match (probe, success)
    case (McsProbe(_), true) => Promoted(r, idx, short, FloorMcs(cfg, r, idx, short)).(mcsBackoff := 0, probeFailDb := None)
    case (McsProbe(above), false) =>
      r.(mcsBackoff := BackedOff(cfg, r.mcsBackoff, if above then OVERRIDE_INTERVALS * cfg.probeInterval else cfg.probeInterval),
         probeFailDb := r.snrDb)
    case (GiProbe, true) =>
      var s := r.(shortGi := true, giBackoff := 0);
      Promoted(s, idx, true, FloorGi(cfg, s, idx))
    case (GiProbe, false) => r.(giBackoff := BackedOff(cfg, r.giBackoff, cfg.probeInterval))
    case (LdpcProbe, true) => r.(ldpc := true, fecBackoff := 0)
    case (LdpcProbe, false) => r.(fecBackoff := BackedOff(cfg, r.fecBackoff, cfg.probeInterval))
  }

  /** A failing short guard interval is given up. */
  function DropShortGi(cfg: RateConfig, p: Peer): (q: Peer)
    requires p.Sized()
    ensures q.Sized()
  {
    var s := p.StatAt(p.cur, true).p;
    if cfg.gi.Auto? && p.shortGi && s.Some? && s.value + 0.0001 < FloorGi(cfg, p, p.cur)
    then p.(shortGi := false, giBackoff := BackedOff(cfg, p.giBackoff, cfg.probeInterval)) else p
  }

  function GoodAt(cfg: RateConfig, p: Peer, short: bool, i: Rung): bool
    requires p.Sized()
  {
    var s := p.StatAt(i, short).p;
    s.Some? && s.value + 0.0001 >= FloorMcs(cfg, p, i, short)
  }

  /** The highest good rung of `lo..i`. */
  function KnownGood(cfg: RateConfig, p: Peer, short: bool, i: nat): (r: Option<Rung>)
    requires p.Sized() && Lo(cfg) <= i <= Hi(cfg) + 1
    ensures r.Some? ==> Lo(cfg) <= r.value < i && GoodAt(cfg, p, short, r.value)
    ensures forall k: nat | (if r.Some? then r.value < k else Lo(cfg) <= k) && k < i :: !GoodAt(cfg, p, short, k)
    decreases i
  {
    if i == Lo(cfg) then None
    else if GoodAt(cfg, p, short, i - 1) then Some(i - 1)
    else KnownGood(cfg, p, short, i - 1)
  }

  /** Fall back from a failing rate, or move up to a better known one. */
  function Reseat(cfg: RateConfig, p: Peer): (q: Peer)
    requires p.Sized()
    ensures q.Sized()
  {
    var short := if cfg.gi.Fixed? then cfg.gi.value.ShortGi? else p.shortGi;
    var known := KnownGood(cfg, p, short, Hi(cfg) + 1);
    if p.StatAt(p.cur, short).p.Some? && !GoodAt(cfg, p, short, p.cur) then
      var next: Rung := if known.Some? && known.value < p.cur then known.value else MaxNat(Less(p.cur, 1), Lo(cfg));
      var q := p.(cur := next);
      if next < p.cur && p.sinceProbe < cfg.probeInterval && p.lastProbe.Some? && p.lastProbe.value.McsProbe?
      then q.(mcsBackoff := BackedOff(cfg, p.mcsBackoff, cfg.probeInterval), probeFailDb := p.snrDb) else q
    else if known.Some? && known.value > p.cur then p.(cur := known.value)
    else p
  }

  function Report(cfg: RateConfig, p: Peer, choice: TxChoice, success: bool): (q: Peer)
    requires p.Sized()
    ensures q.Sized()
  {
    match LadderIndex(choice.mcs)
    case None => p
    case Some(idx) =>
      var short := choice.gi.ShortGi?;
      var a := p.WithStat(idx, short, Sampled(cfg, p.StatAt(idx, short), success));
      var probe := ProbeOf(p, idx, choice);
      var b := NoteFailed(cfg, a, idx, choice, probe, success);
      var c := if probe.Some? then ResolveProbe(cfg, b, idx, choice, probe.value, success) else b;
      Reseat(cfg, DropShortGi(cfg, c))
  }

  // ---- Runs ----

  /** What happens to one peer, with rate choices reported only as made. */
  datatype Op =
    | OpSelect(retry: nat, octets: nat)
    | OpReport(success: bool)
    | OpSnr(snrDb: real)
    | OpDelaySpread(us: real)
    | OpFailCost(costUs: nat)

  /** History: `starts` fresh attempts selected, `probes` among them, and the choice awaiting its outcome. */
  datatype Track = Track(cfg: RateConfig, p: Peer, starts: nat, probes: nat, last: Option<TxChoice>)

  function Apply(t: Track, op: Op): Track
    requires t.p.Sized()
  {
    match op
    case OpSelect(retry, octets) =>
      var (q, c) := Select(t.cfg, t.p, retry, octets);
      t.(p := q, last := Some(c), starts := if retry == 0 then t.starts + 1 else t.starts,
         probes := if q.probing.Some? then t.probes + 1 else t.probes)
    case OpReport(success) => if t.last.Some? then t.(p := Report(t.cfg, t.p, t.last.value, success), last := None) else t
    case OpSnr(snrDb) => t.(p := ObserveSnr(t.cfg, t.p, snrDb))
    case OpDelaySpread(us) => t.(p := ObserveDelaySpread(t.p, us))
    case OpFailCost(us) => t.(cfg := t.cfg.(failCostUs := us))
  }

  ghost predicate InLadder(cfg: RateConfig, i: Rung) {
    Lo(cfg) <= i <= Hi(cfg)
  }

  /** A choice within the configured bounds, and with the coding configured if it is fixed. */
  predicate Bounded(cfg: RateConfig, c: TxChoice) {
    && LadderIndex(c.mcs).Some? && Lo(cfg) <= LadderIndex(c.mcs).value <= Hi(cfg)
    && (cfg.coding.Fixed? ==> c.coding == cfg.coding.value)
  }

  ghost predicate PeerOk(cfg: RateConfig, p: Peer) {
    && p.Sized() && InLadder(cfg, p.cur)
    && (p.failed.Some? ==> InLadder(cfg, p.failed.value.idx) && (cfg.coding.Fixed? ==> !p.failed.value.ldpcProbe))
    && (p.probing.Some? && cfg.coding.Fixed? ==> !p.probing.value.1.LdpcProbe?)
    && p.mcsBackoff <= cfg.backoffMax && p.giBackoff <= cfg.backoffMax && p.fecBackoff <= cfg.backoffMax
  }

  /** Choices within bounds, back-offs below the cap, and at most one probe in `probeInterval` fresh
      attempts. */
  ghost predicate TrackOk(t: Track) {
    && PeerOk(t.cfg, t.p)
    && (t.last.Some? ==> Bounded(t.cfg, t.last.value))
    && t.probes * t.cfg.probeInterval + t.p.sinceProbe <= t.starts
  }

  lemma {:induction false} SelectOk(cfg: RateConfig, p: Peer, retry: nat, octets: nat)
    requires PeerOk(cfg, p)
    ensures var (q, c) := Select(cfg, p, retry, octets);
            && PeerOk(cfg, q) && Bounded(cfg, c)
            && (retry > 0 ==> q.probing.None? && q.sinceProbe == p.sinceProbe)
            && (retry == 0 && q.probing.None? ==> q.sinceProbe == p.sinceProbe + 1)
            && (q.probing.Some? ==> q.sinceProbe == 0 && p.sinceProbe + 1 >= cfg.probeInterval)
  {
    hide McsProbeDue, HintAllows, AirtimeSaving, McsOf;
    var q := p.(probing := None, octets := octets);
    if retry > 0 {
      LadderInverse(RetryRung(cfg, RetryBase(cfg, q), retry));
    } else {
      var r := q.(failed := None, sinceProbe := q.sinceProbe + 1);
      LadderInverse(r.cur);
      if r.cur + 1 <= Hi(cfg) {
        LadderInverse(r.cur + 1);
        if McsProbeDue(cfg, r) {
          DueInterval(cfg, r);
        }
      }
    }
  }

  lemma {:induction false} DueInterval(cfg: RateConfig, p: Peer)
    requires p.Sized() && p.cur + 1 < RUNGS && McsProbeDue(cfg, p)
    ensures p.sinceProbe >= cfg.probeInterval
  {
    hide HintAllows, AirtimeSaving;
  }

  lemma {:induction false} ReseatOk(cfg: RateConfig, p: Peer)
    requires PeerOk(cfg, p)
    ensures PeerOk(cfg, Reseat(cfg, p)) && Reseat(cfg, p).sinceProbe == p.sinceProbe && Reseat(cfg, p).failed == p.failed
    ensures Reseat(cfg, p).probing == p.probing
  {
    hide KnownGood, GoodAt;
  }

  lemma {:induction false} ResolveProbeOk(cfg: RateConfig, p: Peer, idx: Rung, choice: TxChoice, probe: Probe, success: bool)
    requires PeerOk(cfg, p)
    ensures var q := ResolveProbe(cfg, p, idx, choice, probe, success);
            PeerOk(cfg, q) && q.sinceProbe == p.sinceProbe && q.failed == p.failed && q.cur == p.cur && q.probing.None?
  {
    hide FloorMcs, FloorGi, Promoted, InLadder;
  }

  lemma {:induction false} NoteFailedOk(cfg: RateConfig, p: Peer, idx: Rung, choice: TxChoice, probe: Option<Probe>, success: bool)
    requires PeerOk(cfg, p) && InLadder(cfg, idx) && (probe.Some? ==> p.probing.Some? && probe.value == p.probing.value.1)
    ensures var q := NoteFailed(cfg, p, idx, choice, probe, success);
            && PeerOk(cfg, q) && q == p.(failed := q.failed)
            && (!success ==> q.failed == if p.failed.Some? then p.failed
                                         else Some(Failed(idx, choice.gi.ShortGi? && cfg.gi.Auto?, probe == Some(LdpcProbe))))
  {
  }

  lemma {:induction false} ReportOk(cfg: RateConfig, p: Peer, choice: TxChoice, success: bool)
    requires PeerOk(cfg, p) && Bounded(cfg, choice)
    ensures var q := Report(cfg, p, choice, success);
            && PeerOk(cfg, q) && q.sinceProbe == p.sinceProbe
            && (!success && p.failed.Some? ==> q.failed == p.failed)
            && (!success && p.failed.None? ==> q.failed == Some(Failed(LadderIndex(choice.mcs).value, choice.gi.ShortGi? && cfg.gi.Auto?,
                                                                       ProbeOf(p, LadderIndex(choice.mcs).value, choice) == Some(LdpcProbe))))
  {
    hide Reseat, ResolveProbe, FloorGi, Sampled, ProbeOf;
    var idx := LadderIndex(choice.mcs).value;
    var short := choice.gi.ShortGi?;
    var a := p.WithStat(idx, short, Sampled(cfg, p.StatAt(idx, short), success));
    var probe := ProbeOf(p, idx, choice);
    var b := NoteFailed(cfg, a, idx, choice, probe, success);
    NoteFailedOk(cfg, a, idx, choice, probe, success);
    hide NoteFailed;
    var c := if probe.Some? then ResolveProbe(cfg, b, idx, choice, probe.value, success) else b;
    if probe.Some? {
      ResolveProbeOk(cfg, b, idx, choice, probe.value, success);
    }
    ReseatOk(cfg, DropShortGi(cfg, c));
  }

  /** Bounds do not depend on what a failure costs. */
  lemma {:induction false} SameBounds(cfg: RateConfig, us: nat)
    ensures Lo(cfg.(failCostUs := us)) == Lo(cfg) && Hi(cfg.(failCostUs := us)) == Hi(cfg)
  {
  }

  lemma {:induction false} ApplyOk(t: Track, op: Op)
    requires TrackOk(t)
    ensures TrackOk(Apply(t, op))
  {
    hide Select, Report, NothingSent;
    match op
    case OpSelect(retry, octets) =>
      SelectOk(t.cfg, t.p, retry, octets);
      assert (t.probes + 1) * t.cfg.probeInterval == t.probes * t.cfg.probeInterval + t.cfg.probeInterval;
    case OpReport(success) =>
      if t.last.Some? {
        ReportOk(t.cfg, t.p, t.last.value, success);
      }
    case OpSnr(_) =>
    case OpDelaySpread(_) =>
    case OpFailCost(us) => SameBounds(t.cfg, us);
  }

  function Follow(cfg: RateConfig, ops: seq<Op>): (t: Track)
    ensures TrackOk(t)
  {
    if |ops| == 0 then
      StartOk(cfg);
      Track(cfg, NewPeer(cfg), 0, 0, None)
    else
      var t := Follow(cfg, ops[..|ops| - 1]);
      ApplyOk(t, ops[|ops| - 1]);
      Apply(t, ops[|ops| - 1])
  }

  lemma {:induction false} StartOk(cfg: RateConfig)
    ensures TrackOk(Track(cfg, NewPeer(cfg), 0, 0, None))
  {
  }

  lemma {:induction false} FollowCfg(cfg: RateConfig, ops: seq<Op>)
    ensures Follow(cfg, ops).cfg == cfg.(failCostUs := Follow(cfg, ops).cfg.failCostUs)
  {
    hide TrackOk, NewPeer, Select, Report, ObserveSnr, ObserveDelaySpread;
    if |ops| > 0 {
      FollowCfg(cfg, ops[..|ops| - 1]);
    }
  }

  /** On every run: the choice made lies within the configured rungs, no back-off exceeds the cap,
      and there is at most one probe to `probeInterval` fresh attempts. */
  lemma {:induction false} ControllerBounded(cfg: RateConfig, ops: seq<Op>)
    ensures var t := Follow(cfg, ops);
            && (t.last.Some? ==> Bounded(cfg, t.last.value))
            && t.p.mcsBackoff <= cfg.backoffMax && t.p.giBackoff <= cfg.backoffMax && t.p.fecBackoff <= cfg.backoffMax
            && t.probes * cfg.probeInterval <= t.starts
  {
    hide Follow;
    FollowCfg(cfg, ops);
    SameBounds(cfg, Follow(cfg, ops).cfg.failCostUs);
  }

  // ---- Walking down ----

  /** An attempt: the octets it carries, what is heard of the peer until it has failed, and what
      after that. */
  datatype Try = Try(octets: nat, waiting: seq<Op>, after: seq<Op>)

  /** What SNR and delay spread heard do to the record. */
  function Hearing(cfg: RateConfig, p: Peer, ops: seq<Op>): (q: Peer)
    requires PeerOk(cfg, p)
    ensures PeerOk(cfg, q) && q.failed == p.failed
  {
    if |ops| == 0 then p
    else
      var r := Hearing(cfg, p, ops[..|ops| - 1]);
      match ops[|ops| - 1]
      case OpSnr(snrDb) => ObserveSnr(cfg, r, snrDb)
      case OpDelaySpread(us) => ObserveDelaySpread(r, us)
      case _ => r
  }

  /** A fresh attempt fails, and so do `k` retries after it. */
  function AfterRetries(cfg: RateConfig, p: Peer, tries: seq<Try>, k: nat): (q: Peer)
    requires PeerOk(cfg, p) && k < |tries|
    ensures PeerOk(cfg, q)
  {
    var before := if k == 0 then p else AfterRetries(cfg, p, tries, k - 1);
    SelectOk(cfg, before, k, tries[k].octets);
    var (q, c) := Select(cfg, before, k, tries[k].octets);
    var r := Hearing(cfg, q, tries[k].waiting);
    ReportOk(cfg, r, c, false);
    Hearing(cfg, Report(cfg, r, c, false), tries[k].after)
  }

  /** The choice of the `k`-th retry, or of the fresh attempt for zero. */
  function RetriedChoice(cfg: RateConfig, p: Peer, tries: seq<Try>, k: nat): TxChoice
    requires PeerOk(cfg, p) && k < |tries|
  {
    Select(cfg, if k == 0 then p else AfterRetries(cfg, p, tries, k - 1), k, tries[k].octets).1
  }

  /** The failure that retries count down from is remembered. */
  lemma {:induction false} FailureKept(cfg: RateConfig, p: Peer, tries: seq<Try>, k: nat)
    requires PeerOk(cfg, p) && k < |tries|
    ensures var c := RetriedChoice(cfg, p, tries, 0);
            && LadderIndex(c.mcs).Some? && AfterRetries(cfg, p, tries, k).failed.Some?
            && AfterRetries(cfg, p, tries, k).failed == AfterRetries(cfg, p, tries, 0).failed
            && AfterRetries(cfg, p, tries, k).failed.value.idx == LadderIndex(c.mcs).value
            && AfterRetries(cfg, p, tries, k).failed.value.giStep == (c.gi.ShortGi? && cfg.gi.Auto?)
  {
    hide Report, DueProbe, ProbeChoice, RetryChoice, McsOf, Hearing;
    var before := if k == 0 then p else AfterRetries(cfg, p, tries, k - 1);
    SelectOk(cfg, before, k, tries[k].octets);
    var (q, c) := Select(cfg, before, k, tries[k].octets);
    ReportOk(cfg, Hearing(cfg, q, tries[k].waiting), c, false);
    if k > 0 {
      FailureKept(cfg, p, tries, k - 1);
    }
  }

  /** Retries walk down: the k-th one uses the rung k below the failed attempt (one less when that
      used the short guard interval, which is given up first), but never one below the lowest. */
  lemma {:induction false} RetryIs(cfg: RateConfig, p: Peer, tries: seq<Try>, k: nat)
    requires PeerOk(cfg, p) && 0 < k < |tries|
    ensures var c := RetriedChoice(cfg, p, tries, 0);
            LadderIndex(c.mcs).Some?
            && LadderIndex(RetriedChoice(cfg, p, tries, k).mcs)
               == Some(MaxNat(Less(LadderIndex(c.mcs).value, Less(k, if c.gi.ShortGi? && cfg.gi.Auto? then 1 else 0)), Lo(cfg)))
  {
    hide Report, DueProbe, ProbeChoice, McsOf, AfterRetries, PeerOk;
    FailureKept(cfg, p, tries, k - 1);
    var f := AfterRetries(cfg, p, tries, k - 1).failed.value;
    LadderInverse(RetryRung(cfg, f, k));
  }

  /** Consecutive retries, whatever is heard of the peer meanwhile, never raise the rung, never probe,
      and reach the lowest rung within one more than the ladder has. */
  lemma {:induction false} WalkDown(cfg: RateConfig, p: Peer, tries: seq<Try>, k: nat)
    requires PeerOk(cfg, p) && 0 < k < |tries|
    ensures var (c, d) := (LadderIndex(RetriedChoice(cfg, p, tries, k - 1).mcs), LadderIndex(RetriedChoice(cfg, p, tries, k).mcs));
            && c.Some? && d.Some? && d.value <= c.value
            && (k >= Hi(cfg) - Lo(cfg) + 1 ==> d.value == Lo(cfg))
            && Select(cfg, AfterRetries(cfg, p, tries, k - 1), k, tries[k].octets).0.probing.None?
  {
    hide RetriedChoice, AfterRetries, Report, McsOf, RetryChoice;
    RetryIs(cfg, p, tries, k);
    if k > 1 {
      RetryIs(cfg, p, tries, k - 1);
    }
    FirstBounded(cfg, p, tries);
  }

  lemma {:induction false} FirstBounded(cfg: RateConfig, p: Peer, tries: seq<Try>)
    requires PeerOk(cfg, p) && |tries| > 0
    ensures Bounded(cfg, RetriedChoice(cfg, p, tries, 0))
  {
    hide Select;
    SelectOk(cfg, p, 0, tries[0].octets);
  }
}

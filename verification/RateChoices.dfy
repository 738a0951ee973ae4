/** What the rate controller chooses, and that a link without losses is brought to its highest rate
    (crates/s2g-mac/src/rate.rs). */
module RateChoices {
  import opened Wrappers
  import opened Params
  import opened MacTypes
  import opened Rate
  import opened RateOutcomes
  import Arith

  // ---- Signal strength ----

  /** A higher rate needs a better signal, and LDPC saves 1.8 dB but at the lowest. */
  lemma {:induction false} HigherNeedsMore(i: Rung, j: Rung, ldpc: bool)
    requires i < j
    ensures SnrRequired(i, ldpc) < SnrRequired(j, ldpc) || (i == 0 && ldpc)
    ensures SnrRequired(j, true) == SnrRequired(j, false) - 1.8 && SnrRequired(0, true) == SnrRequired(0, false)
    ensures SnrRequired(i, false) < SnrRequired(j, false)
  {
  }

  /** A rung is allowed if nothing is known of the signal or it has the margin over what is required. */
  lemma {:induction false} AllowsIff(marginDb: real, snrDb: Option<real>, i: Rung, ldpc: bool)
    ensures SnrAllows(marginDb, snrDb, i, ldpc) <==> snrDb.None? || snrDb.value - marginDb >= SnrRequired(i, ldpc)
  {
    hide SnrRequired;
  }

  /** The bounds are the rungs of the configured MCSs, the whole ladder where these are off it. */
  lemma {:induction false} BoundsAre(cfg: RateConfig)
    ensures Lo(cfg) == match LadderIndex(cfg.minMcs) case Some(i) => i case None => 0
    ensures Hi(cfg) == match LadderIndex(cfg.maxMcs) case Some(i) => (if i < Lo(cfg) then Lo(cfg) else i) case None => 9
  {
  }

  /** The opening rung is the highest that the signal allows without LDPC, or the configured one as
      far as the bounds permit. */
  lemma {:induction false} OpeningIs(cfg: RateConfig, snrDb: Option<real>)
    ensures var r := StartIndex(cfg, snrDb);
            && Lo(cfg) <= r <= Hi(cfg)
            && (snrDb.Some? ==>
                  && (r == Lo(cfg) || SnrAllows(cfg.marginDb, snrDb, r, false))
                  && forall j: Rung | r < j <= Hi(cfg) :: !SnrAllows(cfg.marginDb, snrDb, j, false))
            && (snrDb.None? && LadderIndex(cfg.startMcs).Some? ==>
                  var s := LadderIndex(cfg.startMcs).value;
                  (Lo(cfg) <= s <= Hi(cfg) ==> r == s) && (s < Lo(cfg) ==> r == Lo(cfg)) && (s > Hi(cfg) ==> r == Hi(cfg)))
            && (snrDb.None? && LadderIndex(cfg.startMcs).None? ==> r == Lo(cfg))
  {
    hide SnrAllows, Lo, Hi;
    if snrDb.Some? {
      BestIs(cfg, snrDb, Hi(cfg) + 1);
    }
  }

  lemma {:induction false} BestIs(cfg: RateConfig, snrDb: Option<real>, i: nat)
    requires Lo(cfg) <= i <= Hi(cfg) + 1
    ensures var r := BestAllowed(cfg, snrDb, i);
            && (r == Lo(cfg) || SnrAllows(cfg.marginDb, snrDb, r, false))
            && forall j: Rung | r < j < i :: !SnrAllows(cfg.marginDb, snrDb, j, false)
    decreases i
  {
    hide SnrAllows;
    if i > Lo(cfg) && !SnrAllows(cfg.marginDb, snrDb, i - 1, false) {
      BestIs(cfg, snrDb, i - 1);
    }
  }

  // ---- Hearing a peer ----

  /** Three tenths of the way to what is heard. */
  ghost predicate MovedTo(was: Option<real>, e: Option<real>, x: real) {
    e.Some? && if was.Some? then 10.0 * e.value == 7.0 * was.value + 3.0 * x else e.value == x
  }

  ghost predicate Tried(p: Peer) {
    (exists i :: 0 <= i < |p.long| && p.long[i].attempts > 0) || (exists i :: 0 <= i < |p.short| && p.short[i].attempts > 0)
  }

  /** What a signal heard does: the estimate moves; a peer not yet sent to gets its opening rung; and
      a signal that has become better by the configured amount since the last failed probe ends the
      wait for the next. */
  lemma {:induction false} SnrHeard(cfg: RateConfig, p: Peer, snrDb: real)
    ensures var q := ObserveSnr(cfg, p, snrDb);
            && MovedTo(p.snrDb, q.snrDb, snrDb)
            && q.cur == (if Tried(p) then p.cur else StartIndex(cfg, q.snrDb))
            && (if p.probeFailDb.Some? && q.snrDb.value >= p.probeFailDb.value + cfg.rearmDb then q.mcsBackoff == 0 && q.probeFailDb.None?
                else q.mcsBackoff == p.mcsBackoff && q.probeFailDb == p.probeFailDb)
            && q == p.(snrDb := q.snrDb, cur := q.cur, mcsBackoff := q.mcsBackoff, probeFailDb := q.probeFailDb)
  {
    hide StartIndex;
  }

  lemma {:induction false} DelaySpreadHeard(p: Peer, us: real)
    ensures var q := ObserveDelaySpread(p, us); MovedTo(p.delaySpreadUs, q.delaySpreadUs, us) && q == p.(delaySpreadUs := q.delaySpreadUs)
  {
  }

  // ---- A fresh attempt ----

  function GiOf(cfg: RateConfig, p: Peer): GuardInterval {
    match cfg.gi
    case Fixed(g) => g
    case Auto => if p.shortGi then ShortGi else LongGi
  }

  function CodingOf(cfg: RateConfig, p: Peer): Coding {
    match cfg.coding
    case Fixed(c) => c
    case Auto => if p.ldpc then LdpcCoding else BccCoding
  }

  /** The signal speaks for the next rung: it is allowed, or the table is pessimistic, as the present
      rung works below what that demands. */
  predicate Hinted(cfg: RateConfig, p: Peer)
    requires p.cur < 9
  {
    var ldpc := CodingOf(cfg, p) == LdpcCoding;
    p.snrDb.None? || p.snrDb.value - cfg.marginDb >= SnrRequired(p.cur + 1, ldpc) || p.snrDb.value < SnrRequired(p.cur, ldpc)
  }

  /** Time in microseconds that the next rung would save on this many octets. */
  function Saved(p: Peer, octets: nat): nat
    requires p.cur < 9
  {
    var us := (8.0 * 40.0 / (DbpsOf(p.cur) as real) - 8.0 * 40.0 / (DbpsOf(p.cur + 1) as real)) * (octets as real);
    if us < 0.0 then 0 else us.Floor
  }

  /** The next rung is worth a probe after `wait` fresh attempts: sooner if the signal speaks for it,
      else only from a rung without losses and if it would save what a failure costs. */
  predicate RaiseDue(cfg: RateConfig, p: Peer, wait: nat, octets: nat)
    requires p.Sized()
  {
    p.cur < Hi(cfg) &&
    if Hinted(cfg, p) then wait >= cfg.probeInterval + p.mcsBackoff
    else
      var e := (if GiOf(cfg, p) == ShortGi then p.short else p.long)[p.cur].p;
      && wait >= 4 * cfg.probeInterval + p.mcsBackoff && e.Some? && e.value >= 0.98
      && Saved(p, octets) * (4 * cfg.probeInterval) >= cfg.failCostUs
  }

  predicate LdpcDue(cfg: RateConfig, p: Peer, wait: nat) {
    cfg.coding.Auto? && !p.ldpc && wait >= cfg.probeInterval + p.fecBackoff
  }

  predicate GiDue(cfg: RateConfig, p: Peer, wait: nat) {
    cfg.gi.Auto? && !p.shortGi && (p.delaySpreadUs.None? || p.delaySpreadUs.value <= cfg.sgiMaxUs) && wait >= cfg.probeInterval + p.giBackoff
  }

  lemma {:induction false} SavedIs(p: Peer, octets: nat)
    requires p.cur < 9
    ensures Saved(p, octets) == AirtimeSaving(p.cur, p.cur + 1, octets)
  {
    LowerRate(p.cur);
    var d := AirtimePerOctet(p.cur) - AirtimePerOctet(p.cur + 1);
    Nonneg(d, octets as real);
  }

  lemma {:induction false} LowerRate(i: Rung)
    requires i < 9
    ensures AirtimePerOctet(i) > AirtimePerOctet(i + 1)
  {
  }

  lemma {:induction false} Nonneg(x: real, y: real)
    requires x >= 0.0 && y >= 0.0
    ensures x * y >= 0.0
  {
  }

  /** What a fresh attempt goes out with: the rate in use, or the probe that is due, a higher rung
      before LDPC and that before the short guard interval. */
  lemma {:induction false} FreshChoice(cfg: RateConfig, p: Peer, octets: nat)
    requires p.Sized()
    ensures var ((q, c), wait) := (Select(cfg, p, 0, octets), p.sinceProbe + 1);
            var (gi, coding) := (GiOf(cfg, p), CodingOf(cfg, p));
            if RaiseDue(cfg, p, wait, octets) then
              c == TxChoice(McsOf(p.cur + 1), gi, coding) && q.probing == Some((p.cur + 1, McsProbe(!Hinted(cfg, p)))) && q.sinceProbe == 0
            else if LdpcDue(cfg, p, wait) then
              c == TxChoice(McsOf(p.cur), gi, LdpcCoding) && q.probing == Some((p.cur, LdpcProbe)) && q.sinceProbe == 0
            else if GiDue(cfg, p, wait) then
              c == TxChoice(McsOf(p.cur), ShortGi, coding) && q.probing == Some((p.cur, GiProbe)) && q.sinceProbe == 0
            else c == TxChoice(McsOf(p.cur), gi, coding) && q.probing.None? && q.sinceProbe == wait
    ensures var q := Select(cfg, p, 0, octets).0;
            q == p.(sinceProbe := q.sinceProbe, probing := q.probing, lastProbe := q.lastProbe, failed := None, octets := octets)
  {
    hide AirtimeSaving, Saved, SnrRequired, McsOf;
    if p.cur < 9 {
      SavedIs(p, octets);
    }
  }

  /** A retry goes out with the long guard interval unless that is fixed, and without LDPC if it was
      LDPC that was being tried. */
  lemma {:induction false} RetriedWith(cfg: RateConfig, p: Peer, retry: nat, octets: nat)
    requires p.Sized() && retry > 0
    ensures var (q, c) := Select(cfg, p, retry, octets);
            && c.gi == (match cfg.gi case Fixed(g) => g case Auto => LongGi)
            && c.coding == (if p.failed.Some? && p.failed.value.ldpcProbe then BccCoding else CodingOf(cfg, p))
            && q == p.(probing := None, octets := octets)
  {
    hide McsOf, RetryRung;
  }

  // ---- What becomes of a probe ----

  /** Twice the wait, which is no shorter than `base`, as far as the cap. */
  function Longer(cfg: RateConfig, wait: nat, base: nat): nat {
    var next := 2 * (if wait < base then base else wait);
    if next < cfg.backoffMax then next else cfg.backoffMax
  }

  /** A rung tried before has won, LDPC or the short guard interval is in use, after a successful
      probe; after a failed one the next waits longer. */
  lemma {:induction false} ProbeDecides(cfg: RateConfig, p: Peer, choice: TxChoice, idx: Rung, probe: Probe, success: bool)
    requires p.Sized()
    ensures var q := ResolveProbe(cfg, p, idx, choice, probe, success);
            && q.probing.None? && q.snrDb == p.snrDb
            && (probe.McsProbe? && success ==> q.mcsBackoff == 0 && q.probeFailDb.None?
                                               && OrElse(Estimate(q, idx, choice.gi.ShortGi?), 0.0) >= FloorMcs(cfg, p, idx, choice.gi.ShortGi?))
            && (probe.McsProbe? && !success ==> q.probeFailDb == p.snrDb
                                                && q.mcsBackoff == Longer(cfg, p.mcsBackoff, if probe.aboveHint then 4 * cfg.probeInterval else cfg.probeInterval))
            && (probe.LdpcProbe? ==> q.ldpc == (p.ldpc || success) && q.fecBackoff == if success then 0 else Longer(cfg, p.fecBackoff, cfg.probeInterval))
            && (probe.GiProbe? ==> q.shortGi == (p.shortGi || success) && q.giBackoff == if success then 0 else Longer(cfg, p.giBackoff, cfg.probeInterval))
            && (!probe.McsProbe? ==> q.mcsBackoff == p.mcsBackoff) && (!probe.LdpcProbe? ==> q.ldpc == p.ldpc) && (!probe.GiProbe? ==> q.shortGi == p.shortGi)
  {
    hide Floor, AirtimeSaving, FloorGi;
    SameFloor(cfg, p, p.(probing := None), idx, choice.gi.ShortGi?);
    hide FloorMcs;
  }

  /** The outcome of a probe is what is decided, and not that of another attempt. */
  lemma {:induction false} ProbeMeant(p: Peer, idx: Rung, choice: TxChoice)
    ensures ProbeOf(p, idx, choice)
            == if p.probing.Some? && p.probing.value.0 == idx
                  && (p.probing.value.1.GiProbe? ==> choice.gi.ShortGi?) && (p.probing.value.1.LdpcProbe? ==> choice.coding.LdpcCoding?)
               then Some(p.probing.value.1) else None
  {
  }

  /** The short guard interval is given up when it falls below its floor, and no sooner. */
  lemma {:induction false} ShortGiDropped(cfg: RateConfig, p: Peer)
    requires p.Sized()
    ensures var (q, e) := (DropShortGi(cfg, p), Estimate(p, p.cur, true));
            && (cfg.gi.Fixed? ==> q == p)
            && (cfg.gi.Auto? ==> (q.shortGi <==> p.shortGi && !(e.Some? && e.value + 0.0001 < FloorGi(cfg, p, p.cur))))
            && (q.shortGi != p.shortGi ==> q.giBackoff > 0 || cfg.backoffMax == 0 || (p.giBackoff == 0 && cfg.probeInterval == 0))
  {
    hide FloorGi;
  }

  // ---- A link without losses ----

  /** One fresh attempt that succeeds. */
  function Succeed(cfg: RateConfig, p: Peer, octets: nat): (q: Peer)
    requires p.Sized()
    ensures q.Sized()
  {
    var (q, c) := Select(cfg, p, 0, octets);
    Report(cfg, q, c, true)
  }

  function SucceedAll(cfg: RateConfig, p: Peer, octets: seq<nat>): (q: Peer)
    requires p.Sized()
    ensures q.Sized()
    decreases |octets|
  {
    if |octets| == 0 then p else SucceedAll(cfg, Succeed(cfg, p, octets[0]), octets[1..])
  }

  /** Everything tried has succeeded. */
  ghost predicate Perfect(p: Peer)
    requires p.Sized()
  {
    forall i: Rung, s: bool :: Estimate(p, i, s).Some? ==> Estimate(p, i, s).value == 1.0
  }

  /** Nothing is known against going up. */
  ghost predicate Free(cfg: RateConfig, p: Peer) {
    PeerOk(cfg, p) && Perfect(p) && p.snrDb.None? && p.mcsBackoff == 0
  }

  lemma {:induction false} PerfectProbabilities(p: Peer)
    requires p.Sized() && Perfect(p)
    ensures Probabilities(p)
  {
    forall i: Rung, s: bool
      ensures IsProbability(Estimate(p, i, s))
    {
    }
  }

  /** With perfect estimates nothing fails. */
  lemma {:induction false} PerfectHolds(cfg: RateConfig, p: Peer, i: Rung)
    requires p.Sized() && Perfect(p) && Sane(cfg)
    ensures !Fails(cfg, p, i)
    ensures Estimate(p, i, InUse(cfg, p)).Some? ==> Holds(cfg, p, i)
  {
    hide FloorMcs;
    FloorMcsAtMost(cfg, p, i, InUse(cfg, p));
  }

  lemma {:induction false} PerfectReport(cfg: RateConfig, p: Peer, choice: TxChoice)
    requires p.Sized() && Perfect(p) && Sane(cfg) && LadderIndex(choice.mcs).Some?
    ensures var q := Report(cfg, p, choice, true); Perfect(q) && Estimate(q, LadderIndex(choice.mcs).value, choice.gi.ShortGi?) == Some(1.0)
  {
    hide Report, Probabilities, Estimate;
    var (q, idx, short) := (Report(cfg, p, choice, true), LadderIndex(choice.mcs).value, choice.gi.ShortGi?);
    PerfectProbabilities(p);
    OutcomeLearns(cfg, p, choice, true);
    OneProbability(q, idx, short);
    assert Estimate(q, idx, short).value == 1.0;
  }

  /** Reporting a success at perfect estimates lowers nothing, and the rung used is reached. */
  lemma {:induction false} SuccessRaises(cfg: RateConfig, p: Peer, choice: TxChoice)
    requires PeerOk(cfg, p) && Perfect(p) && Sane(cfg) && Bounded(cfg, choice) && p.mcsBackoff == 0 && p.snrDb.None?
    requires p.probing.None? || p.probing.value.1.McsProbe? ==> choice.gi == GiOf(cfg, p)
    ensures var q := Report(cfg, p, choice, true);
            && Free(cfg, q) && q.sinceProbe == p.sinceProbe && q.cur >= p.cur
            && (p.probing.None? || p.probing.value.1.McsProbe? ==> q.cur >= LadderIndex(choice.mcs).value)
  {
    PeerSized(cfg, p);
    hide Report, Judged, Settled, PeerOk, Perfect, Fails, Holds, Highest, Hi, Lo, Probabilities, Learns, Estimate, Sane;
    var q := Report(cfg, p, choice, true);
    ReportOk(cfg, p, choice, true);
    PerfectReport(cfg, p, choice);
    PerfectProbabilities(p);
    OutcomeSettles(cfg, p, choice, true);
    SuccessRest(cfg, p, choice);
    SettledUp(cfg, q, p.cur, LadderIndex(choice.mcs).value);
  }

  lemma {:induction false} PeerSized(cfg: RateConfig, p: Peer)
    requires PeerOk(cfg, p)
    ensures p.Sized() && InLadder(cfg, p.cur)
  {
  }

  lemma {:induction false} SamePerfect(p: Peer, q: Peer)
    requires p.Sized() && SameStats(p, q) && Perfect(p)
    ensures q.Sized() && Perfect(q)
  {
    hide Estimate;
    SameEstimates(p, q);
  }

  lemma {:induction false} ReseatKeeps(cfg: RateConfig, p: Peer)
    requires p.Sized() && !Fails(cfg, p, p.cur)
    ensures Reseat(cfg, p) == p.(cur := Reseat(cfg, p).cur)
  {
    hide FloorMcs, KnownGood;
  }

  lemma {:induction false} PerfectKept(cfg: RateConfig, p: Peer)
    requires p.Sized() && Perfect(p)
    ensures DropShortGi(cfg, p) == p
  {
    hide FloorGi;
    assert Estimate(p, p.cur, true).Some? ==> Estimate(p, p.cur, true).value == 1.0;
    FloorGiAtMost(cfg, p, p.cur);
  }

  lemma {:induction false} DropStats(cfg: RateConfig, p: Peer)
    requires p.Sized()
    ensures SameStats(p, DropShortGi(cfg, p))
  {
    hide FloorGi;
  }

  /** The record once the outcome is counted and the probe resolved. */
  function Resolved(cfg: RateConfig, p: Peer, choice: TxChoice, idx: Rung, success: bool): (q: Peer)
    requires p.Sized()
    ensures q.Sized()
  {
    var short := choice.gi.ShortGi?;
    var b := NoteFailed(cfg, RateOutcomes.Counted(cfg, p, idx, short, success), idx, choice, ProbeOf(p, idx, choice), success);
    if ProbeOf(p, idx, choice).Some? then ResolveProbe(cfg, b, idx, choice, ProbeOf(p, idx, choice).value, success) else b
  }

  lemma {:induction false} JudgedIs(cfg: RateConfig, p: Peer, choice: TxChoice, idx: Rung, success: bool)
    requires p.Sized()
    ensures Judged(cfg, p, choice, idx, success) == DropShortGi(cfg, Resolved(cfg, p, choice, idx, success))
  {
    hide ResolveProbe, NoteFailed, Sampled, ProbeOf, DropShortGi;
  }

  lemma {:induction false} ResolvedRest(cfg: RateConfig, p: Peer, choice: TxChoice, idx: Rung)
    requires p.Sized() && p.mcsBackoff == 0 && p.snrDb.None?
    ensures var q := Resolved(cfg, p, choice, idx, true);
            q.mcsBackoff == 0 && q.snrDb.None? && (p.probing.None? || !p.probing.value.1.GiProbe? ==> q.shortGi == p.shortGi)
  {
    hide ResolveProbe, Sampled;
    var b := RateOutcomes.Counted(cfg, p, idx, choice.gi.ShortGi?, true).(failed := None);
    var probe := ProbeOf(p, idx, choice);
    if probe.Some? {
      ProbeDecides(cfg, b, choice, idx, probe.value, true);
    }
  }

  lemma {:induction false} SuccessRest(cfg: RateConfig, p: Peer, choice: TxChoice)
    requires p.Sized() && Perfect(p) && Sane(cfg) && LadderIndex(choice.mcs).Some? && p.mcsBackoff == 0 && p.snrDb.None?
    ensures var q := Report(cfg, p, choice, true);
            q.snrDb.None? && q.mcsBackoff == 0 && (p.probing.None? || p.probing.value.1.McsProbe? ==> InUse(cfg, q) == (GiOf(cfg, p) == ShortGi))
  {
    hide Report, Reseat, DropShortGi, Judged, Resolved, Perfect, Fails;
    var idx := LadderIndex(choice.mcs).value;
    var (r, q) := (Resolved(cfg, p, choice, idx, true), Report(cfg, p, choice, true));
    ReportIs(cfg, p, choice, true);
    JudgedIs(cfg, p, choice, idx, true);
    ResolvedRest(cfg, p, choice, idx);
    PerfectReport(cfg, p, choice);
    ReseatStats(cfg, DropShortGi(cfg, r));
    DropStats(cfg, r);
    SamePerfect(q, r);
    PerfectKept(cfg, r);
    PerfectHolds(cfg, r, r.cur);
    ReseatKeeps(cfg, r);
  }

  lemma {:induction false} SettledUp(cfg: RateConfig, q: Peer, cur: Rung, idx: Rung)
    requires q.Sized() && Perfect(q) && Sane(cfg) && Settled(cfg, q, cur) && Lo(cfg) <= idx <= Hi(cfg)
    ensures q.cur >= cur && (Estimate(q, idx, InUse(cfg, q)).Some? ==> q.cur >= idx)
  {
    hide Holds, Lo, Hi, Estimate;
    PerfectHolds(cfg, q, cur);
    PerfectHolds(cfg, q, idx);
    if Estimate(q, idx, InUse(cfg, q)).Some? && idx > cur {
      var k := HighestFrom(cfg, q, idx);
    }
  }

  lemma {:induction false} HighestFrom(cfg: RateConfig, q: Peer, i: Rung) returns (k: Rung)
    requires q.Sized() && Lo(cfg) <= i <= Hi(cfg) && Holds(cfg, q, i)
    ensures k >= i && Highest(cfg, q, k)
    decreases Hi(cfg) - i
  {
    hide Holds, Lo, Hi;
    k := i;
    if j: Rung :| i < j <= Hi(cfg) && Holds(cfg, q, j) {
      k := HighestFrom(cfg, q, j);
    }
  }

  /** Fresh attempts between two probes of a higher rung. */
  function Interval(cfg: RateConfig): (n: nat)
    ensures n >= 1 && n >= cfg.probeInterval
  {
    if cfg.probeInterval == 0 then 1 else cfg.probeInterval
  }

  /** One success brings the next probe nearer, or is one and raises the rung. */
  lemma {:induction false} SuccessClimbs(cfg: RateConfig, p: Peer, octets: nat)
    requires Free(cfg, p) && Sane(cfg)
    ensures var q := Succeed(cfg, p, octets);
            && Free(cfg, q) && q.cur >= p.cur
            && (p.cur < Hi(cfg) ==> if p.sinceProbe + 1 >= cfg.probeInterval then q.cur > p.cur && q.sinceProbe == 0
                                    else q.sinceProbe == p.sinceProbe + 1)
  {
    hide Report, Select, Perfect, Lo, Sane, McsOf, SnrRequired;
    FreshChoice(cfg, p, octets);
    SelectOk(cfg, p, 0, octets);
    SelectStats(cfg, p, 0, octets);
    var (q, c) := Select(cfg, p, 0, octets);
    SamePerfect(p, q);
    LadderInverse(p.cur);
    if p.cur < 9 {
      LadderInverse(p.cur + 1);
    }
    SuccessRaises(cfg, q, c);
  }

  /** A link on which every attempt succeeds, and of whose signal nothing is known, is brought to the
      highest rung within one probe interval for each rung on the way, and stays there. */
  lemma {:induction false} LosslessClimbs(cfg: RateConfig, p: Peer, octets: seq<nat>)
    requires Free(cfg, p) && Sane(cfg) && p.sinceProbe < Interval(cfg)
    requires |octets| + p.sinceProbe >= (Hi(cfg) - p.cur) * Interval(cfg)
    ensures SucceedAll(cfg, p, octets).cur == Hi(cfg)
    decreases |octets|
  {
    hide Succeed, Lo, Hi, Perfect, Sane;
    InBounds(cfg, p);
    var n := Interval(cfg);
    if |octets| == 0 {
      Arrived(Hi(cfg) - p.cur, p.sinceProbe, n);
    } else {
      SuccessClimbs(cfg, p, octets[0]);
      var q := Succeed(cfg, p, octets[0]);
      InBounds(cfg, q);
      if p.cur < Hi(cfg) {
        Nearer(Hi(cfg), p.cur, q.cur, n, |octets| + p.sinceProbe);
        LosslessClimbs(cfg, q, octets[1..]);
      } else {
        Stays(cfg, q, octets[1..]);
      }
    }
  }

  lemma {:induction false} InBounds(cfg: RateConfig, p: Peer)
    requires Free(cfg, p)
    ensures p.Sized() && Lo(cfg) <= p.cur <= Hi(cfg)
  {
    hide Perfect;
  }

  lemma {:induction false} MoreTimes(a: nat, b: nat, n: nat)
    requires a <= b
    ensures a * n <= b * n
  {
    Arith.MulNonneg(b - a, n);
    assert (b - a) * n == b * n - a * n;
  }

  lemma {:induction false} Arrived(gap: nat, since: nat, n: nat)
    requires since < n && since >= gap * n
    ensures gap == 0
  {
    if gap >= 1 {
      MoreTimes(1, gap, n);
    }
  }

  lemma {:induction false} Nearer(hi: nat, from: nat, to: nat, n: nat, have: nat)
    requires from <= to <= hi && have >= (hi - from) * n
    ensures to > from ==> have - n >= (hi - to) * n
  {
    if to > from {
      MoreTimes(hi - to + 1, hi - from, n);
      assert (hi - to + 1) * n == (hi - to) * n + n;
    }
  }

  lemma {:induction false} Stays(cfg: RateConfig, p: Peer, octets: seq<nat>)
    requires Free(cfg, p) && Sane(cfg) && p.cur == Hi(cfg)
    ensures SucceedAll(cfg, p, octets).cur == Hi(cfg)
    decreases |octets|
  {
    hide Succeed, Lo, Hi, Perfect, Sane;
    InBounds(cfg, p);
    if |octets| > 0 {
      SuccessClimbs(cfg, p, octets[0]);
      InBounds(cfg, Succeed(cfg, p, octets[0]));
      Stays(cfg, Succeed(cfg, p, octets[0]), octets[1..]);
    }
  }

  /** A new peer is such a one. */
  lemma {:induction false} NewPeerClimbs(cfg: RateConfig, octets: seq<nat>)
    requires Sane(cfg) && |octets| >= (Hi(cfg) - Lo(cfg)) * Interval(cfg)
    ensures SucceedAll(cfg, NewPeer(cfg), octets).cur == Hi(cfg)
  {
    hide SucceedAll, Lo, Hi, Interval;
    StartOk(cfg);
    var p := NewPeer(cfg);
    MoreTimes(Hi(cfg) - p.cur, Hi(cfg) - Lo(cfg), Interval(cfg));
    LosslessClimbs(cfg, p, octets);
  }
}

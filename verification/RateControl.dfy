/** The rate controller as an object: one record per peer, updated in place as the functions of
    Rate say (crates/s2g-mac/src/rate.rs). */
module RateControl {
  import opened Wrappers
  import opened Params
  import opened MacTypes
  import opened Rate

  class RateControl {
    var cfg: RateConfig
    var peers: map<Addr, Peer>

    ghost predicate Valid()
      reads this
    {
      forall a | a in peers :: peers[a].Sized()
    }

    /** The record of a peer, or that of one nothing is known about. */
    ghost function Of(a: Addr): (p: Peer)
      reads this
      requires Valid()
      ensures p.Sized()
    {
      if a in peers then peers[a] else NewPeer(cfg)
    }

    constructor (cfg: RateConfig)
      ensures Valid() && this.cfg == cfg && peers == map[]
    {
      this.cfg := cfg;
      peers := map[];
    }

    method Record(a: Addr) returns (p: Peer)
      requires Valid()
      ensures p == Of(a)
    {
      if a in peers {
        return peers[a];
      }
      var start := FindStart(cfg, None);
      p := Peer(FreshStats(), FreshStats(), start, false, false, 0, 0, 0, 0, None, None, None, 0, None, None, None);
    }

    method HearSnr(a: Addr, snrDb: real)
      requires Valid()
      modifies this`peers
      ensures Valid() && peers == old(peers)[a := ObserveSnr(cfg, old(Of(a)), snrDb)]
    {
      var p := Record(a);
      p := p.(snrDb := Some(if p.snrDb.Some? then p.snrDb.value + 0.3 * (snrDb - p.snrDb.value) else snrDb));
      if p.probeFailDb.Some? && p.snrDb.value >= p.probeFailDb.value + cfg.rearmDb {
        p := p.(mcsBackoff := 0, probeFailDb := None);
      }
      var nothing := true;
      for i := 0 to RUNGS
        invariant nothing == forall k | 0 <= k < i :: p.long[k].attempts == 0 && p.short[k].attempts == 0
      {
        if p.long[i].attempts != 0 || p.short[i].attempts != 0 {
          nothing := false;
        }
      }
      assert nothing == NothingSent(p);
      if nothing {
        var start := FindStart(cfg, p.snrDb);
        p := p.(cur := start);
      }
      peers := peers[a := p];
    }

    method HearDelaySpread(a: Addr, us: real)
      requires Valid()
      modifies this`peers
      ensures Valid() && peers == old(peers)[a := ObserveDelaySpread(old(Of(a)), us)]
    {
      var p := Record(a);
      peers := peers[a := p.(delaySpreadUs := Some(if p.delaySpreadUs.Some? then p.delaySpreadUs.value + 0.3 * (us - p.delaySpreadUs.value) else us))];
    }

    /** Choice for the next attempt: retries walk down from the failed attempt, fresh ones may probe. */
    method Choose(a: Addr, retry: nat, octets: nat) returns (c: TxChoice)
      requires Valid()
      modifies this`peers
      ensures Valid() && peers == old(peers)[a := Select(cfg, old(Of(a)), retry, octets).0]
      ensures c == Select(cfg, old(Of(a)), retry, octets).1
    {
      hide McsProbeDue, HintAllows, McsOf, FreshStats;
      var p := Record(a);
      p := p.(probing := None, octets := octets);
      if retry > 0 {
        c := RetryChoice(cfg, p, retry);
        peers := peers[a := p];
        return;
      }
      p := p.(failed := None, sinceProbe := p.sinceProbe + 1);
      var probe: Option<(Rung, Probe)> := None;
      if p.cur + 1 <= Hi(cfg) && McsProbeDue(cfg, p) {
        probe := Some((p.cur + 1, McsProbe(!HintAllows(cfg, p))));
      } else if cfg.coding.Auto? && !p.ldpc && p.sinceProbe >= cfg.probeInterval + p.fecBackoff {
        probe := Some((p.cur, LdpcProbe));
      } else {
        var clean := p.delaySpreadUs.None? || p.delaySpreadUs.value <= cfg.sgiMaxUs;
        if cfg.gi.Auto? && !p.shortGi && clean && p.sinceProbe >= cfg.probeInterval + p.giBackoff {
          probe := Some((p.cur, GiProbe));
        }
      }
      if probe.Some? {
        c := ProbeChoice(cfg, p, probe.value);
        p := p.(sinceProbe := 0, probing := probe, lastProbe := Some(probe.value.1));
      } else {
        c := TxChoice(McsOf(p.cur), GiInUse(cfg, p), CodingInUse(cfg, p));
      }
      peers := peers[a := p];
    }

    /** Outcome of an attempt. */
    method Settle(a: Addr, choice: TxChoice, success: bool)
      requires Valid()
      modifies this`peers
      ensures Valid()
      ensures peers == if LadderIndex(choice.mcs).Some? then old(peers)[a := Report(cfg, old(Of(a)), choice, success)] else old(peers)
    {
      hide Report, FreshStats;
      var index := LadderIndex(choice.mcs);
      if index.None? {
        return;
      }
      var p := Record(a);
      p := Judge(cfg, p, index.value, choice, success);
      peers := peers[a := p];
    }
  }

  /** What an outcome does to the record of its peer. */
  method Judge(cfg: RateConfig, p: Peer, idx: Rung, choice: TxChoice, success: bool) returns (q: Peer)
    requires p.Sized() && LadderIndex(choice.mcs) == Some(idx)
    ensures q == Report(cfg, p, choice, success)
  {
    hide Sampled, ResolveProbe, FloorGi, Reseat, BackedOff, ProbeOf;
    var short := choice.gi.ShortGi?;
    var probe := ProbeOf(p, idx, choice);
    q := p.WithStat(idx, short, Sampled(cfg, p.StatAt(idx, short), success));
    if success {
      q := q.(failed := None);
    } else if q.failed.None? {
      q := q.(failed := Some(Failed(idx, short && cfg.gi.Auto?, probe == Some(LdpcProbe))));
    }
    if probe.Some? {
      q := ResolveProbe(cfg, q, idx, choice, probe.value, success);
    }
    if cfg.gi.Auto? && q.shortGi && q.short[q.cur].p.Some? && q.short[q.cur].p.value + 0.0001 < FloorGi(cfg, q, q.cur) {
      q := q.(shortGi := false, giBackoff := BackedOff(cfg, q.giBackoff, cfg.probeInterval));
    }
    q := Resettle(cfg, q);
  }

  /** The highest rung the SNR allows, going up the ladder. */
  method FindStart(cfg: RateConfig, snrDb: Option<real>) returns (r: Rung)
    ensures r == StartIndex(cfg, snrDb)
  {
    hide SnrAllows;
    if snrDb.None? {
      return StartIndex(cfg, None);
    }
    r := Lo(cfg);
    for i := Lo(cfg) to Hi(cfg) + 1
      invariant r == BestAllowed(cfg, snrDb, i)
    {
      if SnrAllows(cfg.marginDb, snrDb, i, false) {
        r := i;
      }
    }
  }

  /** Fall back from a failing rate to the best known good one, or move up. */
  method Resettle(cfg: RateConfig, p: Peer) returns (q: Peer)
    requires p.Sized()
    ensures q == Reseat(cfg, p)
  {
    hide GoodAt, BackedOff;
    var short := if cfg.gi.Fixed? then cfg.gi.value.ShortGi? else p.shortGi;
    var known: Option<Rung> := None;
    for i := Lo(cfg) to Hi(cfg) + 1
      invariant known == KnownGood(cfg, p, short, i)
    {
      if GoodAt(cfg, p, short, i) {
        known := Some(i);
      }
    }
    q := p;
    if p.StatAt(p.cur, short).p.Some? && !GoodAt(cfg, p, short, p.cur) {
      var next: Rung := if known.Some? && known.value < p.cur then known.value else MaxNat(Less(p.cur, 1), Lo(cfg));
      q := p.(cur := next);
      if next < p.cur && p.sinceProbe < cfg.probeInterval && p.lastProbe.Some? && p.lastProbe.value.McsProbe? {
        q := q.(mcsBackoff := BackedOff(cfg, p.mcsBackoff, cfg.probeInterval), probeFailDb := p.snrDb);
      }
    } else if known.Some? && known.value > p.cur {
      q := p.(cur := known.value);
    }
  }
}

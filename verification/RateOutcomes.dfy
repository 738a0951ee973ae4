/** What outcomes do to the rate (crates/s2g-mac/src/rate.rs): estimates follow them, and the rung
    follows the estimates. */
module RateOutcomes {
  import opened Wrappers
  import opened MacTypes
  import opened Rate

  // ---- Estimates ----

  function Estimate(p: Peer, i: Rung, short: bool): Option<real>
    requires p.Sized()
  {
    (if short then p.short else p.long)[i].p
  }

  ghost predicate IsProbability(e: Option<real>) {
    e.Some? ==> 0.0 <= e.value <= 1.0
  }

  ghost predicate Probabilities(p: Peer)
    requires p.Sized()
  {
    forall i: Rung, short: bool :: IsProbability(Estimate(p, i, short))
  }

  ghost predicate Weight(alpha: real) {
    0.0 <= alpha <= 1.0
  }

  function Raised(alpha: real, x: real): real {
    x + alpha * (1.0 - x)
  }

  function Lowered(alpha: real, x: real): real {
    x - alpha * x
  }

  /** Moves towards the outcome by the share `alpha` of the distance, and starts at the outcome. */
  ghost predicate Moved(alpha: real, was: Option<real>, e: Option<real>, success: bool) {
    e.Some? && e.value == match was
                          case None => if success then 1.0 else 0.0
                          case Some(x) => if success then Raised(alpha, x) else Lowered(alpha, x)
  }

  lemma {:induction false} SampledMoves(cfg: RateConfig, s: Stat, success: bool)
    requires Weight(cfg.alpha) && IsProbability(s.p)
    ensures Moved(cfg.alpha, s.p, Sampled(cfg, s, success).p, success) && IsProbability(Sampled(cfg, s, success).p)
  {
    hide Blend, Raised, Lowered;
    if s.p.Some? {
      BlendMoves(cfg.alpha, s.p.value);
      RaisedBetween(cfg.alpha, s.p.value);
      LoweredBetween(cfg.alpha, s.p.value);
    }
  }

  lemma {:induction false} BlendMoves(alpha: real, x: real)
    ensures Blend(x, alpha, 1.0) == Raised(alpha, x) && Blend(x, alpha, 0.0) == Lowered(alpha, x)
  {
  }

  lemma {:induction false} RaisedBetween(alpha: real, x: real)
    requires Weight(alpha) && 0.0 <= x <= 1.0
    ensures x <= Raised(alpha, x) <= 1.0
  {
    Product(alpha, 1.0 - x);
    Product(1.0 - alpha, 1.0 - x);
    assert (1.0 - alpha) * (1.0 - x) == 1.0 - x - alpha * (1.0 - x);
  }

  lemma {:induction false} LoweredBetween(alpha: real, x: real)
    requires Weight(alpha) && 0.0 <= x <= 1.0
    ensures 0.0 <= Lowered(alpha, x) <= x
  {
    Product(alpha, x);
    Product(1.0 - alpha, x);
    assert (1.0 - alpha) * x == x - alpha * x;
  }

  lemma {:induction false} Product(x: real, y: real)
    requires x >= 0.0 && y >= 0.0
    ensures x * y >= 0.0
  {
  }

  /** What one outcome does to the estimates: only that of the rate used changes, and it moves
      towards the outcome, for a successful probe perhaps further up. */
  ghost predicate Learns(cfg: RateConfig, p: Peer, q: Peer, idx: Rung, short: bool, success: bool)
    requires p.Sized() && q.Sized()
  {
    && (forall i: Rung, s: bool | i != idx || s != short :: Estimate(q, i, s) == Estimate(p, i, s))
    && Estimate(q, idx, short).Some?
    && (!success ==> Moved(cfg.alpha, Estimate(p, idx, short), Estimate(q, idx, short), false))
    && (success ==> exists e :: Moved(cfg.alpha, Estimate(p, idx, short), Some(e), true) && e <= Estimate(q, idx, short).value)
  }

  /** Before the rung is chosen. */
  function Judged(cfg: RateConfig, p: Peer, choice: TxChoice, idx: Rung, success: bool): (q: Peer)
    requires p.Sized()
    ensures q.Sized()
  {
    var short := choice.gi.ShortGi?;
    var a := p.WithStat(idx, short, Sampled(cfg, p.StatAt(idx, short), success));
    var probe := ProbeOf(p, idx, choice);
    var b := NoteFailed(cfg, a, idx, choice, probe, success);
    var c := if probe.Some? then ResolveProbe(cfg, b, idx, choice, probe.value, success) else b;
    DropShortGi(cfg, c)
  }

  lemma {:induction false} ReportIs(cfg: RateConfig, p: Peer, choice: TxChoice, success: bool)
    requires p.Sized() && LadderIndex(choice.mcs).Some?
    ensures Report(cfg, p, choice, success) == Reseat(cfg, Judged(cfg, p, choice, LadderIndex(choice.mcs).value, success))
  {
    hide Reseat, DropShortGi, ResolveProbe, NoteFailed, ProbeOf, Sampled;
  }

  /** A floor is a probability below one. */
  lemma {:induction false} FloorBounds(pMin: real, cost: nat, below: real, saving: real)
    ensures var f := Floor(pMin, cost, below, saving); f <= 0.98 && (if pMin < 0.98 then pMin else 0.98) <= f
  {
  }

  /** A rate above its floor is worth its risk: what its failures cost more than those of the rate
      below is at most what it saves. */
  lemma {:induction false} FloorMeans(pMin: real, cost: nat, below: real, saving: real, p: real)
    requires pMin <= p < 0.98
    ensures p >= Floor(pMin, cost, below, saving) <==> (below - p) * (if cost == 0 then 1.0 else cost as real) <= saving
  {
    var c: real := if cost == 0 then 1.0 else cost as real;
    Quotient(saving, c, below - p);
  }

  lemma {:induction false} Quotient(x: real, c: real, y: real)
    requires c > 0.0
    ensures y <= x / c <==> y * c <= x
  {
    var z := x / c;
    assert z * c == x;
    if y <= z {
      assert (z - y) * c >= 0.0;
    } else {
      assert (y - z) * c > 0.0;
    }
  }

  /** The weight and the least success probability of a configuration are in range. */
  ghost predicate Sane(cfg: RateConfig) {
    Weight(cfg.alpha) && cfg.pMin <= 1.0
  }

  lemma {:induction false} FloorMcsAtMost(cfg: RateConfig, p: Peer, i: Rung, short: bool)
    requires p.Sized() && Sane(cfg)
    ensures FloorMcs(cfg, p, i, short) <= 1.0
    ensures i > 0 ==> FloorMcs(cfg, p, i, short) <= 0.98 && FloorMcs(cfg, p, i, short) >= if cfg.pMin < 0.98 then cfg.pMin else 0.98
  {
    hide Floor, AirtimeSaving;
    if i > 0 {
      FloorBounds(cfg.pMin, cfg.failCostUs, OrElse(p.StatAt(i - 1, short).p, 1.0), AirtimeSaving(i - 1, i, p.octets) as real);
    }
  }

  lemma {:induction false} PromotedUp(p: Peer, idx: Rung, short: bool, floor: real)
    requires p.Sized() && Probabilities(p) && floor <= 1.0 && Estimate(p, idx, short).Some?
    ensures var q := Promoted(p, idx, short, floor);
            && Probabilities(q) && Estimate(q, idx, short).Some? && Estimate(q, idx, short).value >= Estimate(p, idx, short).value
            && forall i: Rung, s: bool | i != idx || s != short :: Estimate(q, i, s) == Estimate(p, i, s)
  {
    var q := Promoted(p, idx, short, floor);
    forall i: Rung, s: bool
      ensures IsProbability(Estimate(q, i, s))
    {
      assert IsProbability(Estimate(p, i, s));
    }
  }

  /** Same estimates, whatever else differs. */
  ghost predicate SameStats(p: Peer, q: Peer) {
    p.long == q.long && p.short == q.short
  }

  lemma {:induction false} SameProbabilities(p: Peer, q: Peer)
    requires p.Sized() && Probabilities(p) && SameStats(p, q)
    ensures Probabilities(q)
  {
    forall i: Rung, s: bool
      ensures IsProbability(Estimate(q, i, s))
    {
      assert IsProbability(Estimate(p, i, s));
    }
  }

  lemma {:induction false} SameEstimates(p: Peer, q: Peer)
    requires p.Sized() && SameStats(p, q)
    ensures q.Sized() && forall i: Rung, s: bool :: Estimate(q, i, s) == Estimate(p, i, s)
  {
  }

  lemma {:induction false} ProbeResolved(cfg: RateConfig, p: Peer, choice: TxChoice, idx: Rung, probe: Probe, success: bool)
    requires p.Sized() && Probabilities(p) && Sane(cfg) && Estimate(p, idx, choice.gi.ShortGi?).Some?
    requires probe.GiProbe? ==> choice.gi.ShortGi?
    ensures var (q, short) := (ResolveProbe(cfg, p, idx, choice, probe, success), choice.gi.ShortGi?);
            && Probabilities(q) && Estimate(q, idx, short).Some? && Estimate(q, idx, short).value >= Estimate(p, idx, short).value
            && (!success ==> SameStats(p, q) && q.shortGi == p.shortGi) && q.cur == p.cur
            && forall i: Rung, s: bool | i != idx || s != short :: Estimate(q, i, s) == Estimate(p, i, s)
  {
    hide Promoted, Floor, FloorMcs, FloorGi, Probabilities, IsProbability;
    hide Estimate;
    var (r, short) := (p.(probing := None), choice.gi.ShortGi?);
    SameEstimates(p, r);
    SameEstimates(p, ResolveProbe(cfg, p, idx, choice, probe, false));
    SameProbabilities(p, ResolveProbe(cfg, p, idx, choice, probe, false));
    if success && probe.McsProbe? {
      SameProbabilities(p, r);
      FloorMcsAtMost(cfg, r, idx, short);
      PromotedUp(r, idx, short, FloorMcs(cfg, r, idx, short));
      SameProbabilities(Promoted(r, idx, short, FloorMcs(cfg, r, idx, short)), ResolveProbe(cfg, p, idx, choice, probe, true));
      SameEstimates(Promoted(r, idx, short, FloorMcs(cfg, r, idx, short)), ResolveProbe(cfg, p, idx, choice, probe, true));
    } else if success && probe.GiProbe? {
      var s := r.(shortGi := true, giBackoff := 0);
      SameProbabilities(p, s);
      SameEstimates(p, s);
      FloorGiAtMost(cfg, s, idx);
      PromotedUp(s, idx, true, FloorGi(cfg, s, idx));
    } else if success {
      SameProbabilities(p, ResolveProbe(cfg, p, idx, choice, probe, true));
      SameEstimates(p, ResolveProbe(cfg, p, idx, choice, probe, true));
    }
  }

  lemma {:induction false} FloorGiAtMost(cfg: RateConfig, p: Peer, i: Rung)
    requires p.Sized()
    ensures FloorGi(cfg, p, i) <= 1.0
  {
    hide Floor;
    FloorBounds(cfg.pMin, cfg.failCostUs, OrElse(p.StatAt(i, false).p, 1.0), 0.1 * AirtimePerOctet(i) * (p.octets as real));
  }

  /** The statistics of the rate used, with the outcome. */
  function Counted(cfg: RateConfig, p: Peer, idx: Rung, short: bool, success: bool): (q: Peer)
    requires p.Sized()
    ensures q.Sized()
  {
    p.WithStat(idx, short, Sampled(cfg, p.StatAt(idx, short), success))
  }

  lemma {:induction false} CountedMoves(cfg: RateConfig, p: Peer, idx: Rung, short: bool, success: bool)
    requires p.Sized() && Probabilities(p) && Sane(cfg)
    ensures var q := Counted(cfg, p, idx, short, success);
            && Probabilities(q) && Moved(cfg.alpha, Estimate(p, idx, short), Estimate(q, idx, short), success)
            && forall i: Rung, s: bool | i != idx || s != short :: Estimate(q, i, s) == Estimate(p, i, s)
  {
    hide Sampled, Moved;
    var q := Counted(cfg, p, idx, short, success);
    assert IsProbability(Estimate(p, idx, short));
    SampledMoves(cfg, p.StatAt(idx, short), success);
    forall i: Rung, s: bool
      ensures IsProbability(Estimate(q, i, s))
    {
      assert IsProbability(Estimate(p, i, s));
    }
  }

  lemma {:induction false} JudgedLearns(cfg: RateConfig, p: Peer, choice: TxChoice, idx: Rung, success: bool)
    requires p.Sized() && Probabilities(p) && Sane(cfg)
    ensures var q := Judged(cfg, p, choice, idx, success);
            Probabilities(q) && Learns(cfg, p, q, idx, choice.gi.ShortGi?, success) && q.cur == p.cur
            && (!success && q.shortGi != p.shortGi ==> p.shortGi && cfg.gi.Auto?)
  {
    hide Sampled, ResolveProbe, FloorGi, Probabilities, IsProbability, Moved, Peer.WithStat;
    var short := choice.gi.ShortGi?;
    var a := Counted(cfg, p, idx, short, success);
    CountedMoves(cfg, p, idx, short, success);
    CountedRest(cfg, p, idx, short, success);
    var probe := ProbeOf(p, idx, choice);
    var b := NoteFailed(cfg, a, idx, choice, probe, success);
    SameProbabilities(a, b);
    assert Estimate(b, idx, short) == Estimate(a, idx, short) && Estimate(a, idx, short).Some? by { MovedSome(cfg.alpha, Estimate(p, idx, short), Estimate(a, idx, short), success); }
    var c := if probe.Some? then ResolveProbe(cfg, b, idx, choice, probe.value, success) else b;
    if probe.Some? {
      ProbeResolved(cfg, b, choice, idx, probe.value, success);
      if !success {
        SameEstimates(b, c);
      }
    }
    var q := Judged(cfg, p, choice, idx, success);
    assert SameStats(c, q);
    SameProbabilities(c, q);
    SameEstimates(c, q);
    SameEstimates(a, b);
    hide Estimate;
    assert forall i: Rung, s: bool | i != idx || s != short :: Estimate(q, i, s) == Estimate(p, i, s);
    assert Estimate(q, idx, short).Some?;
    if success {
      assert Moved(cfg.alpha, Estimate(p, idx, short), Some(Estimate(a, idx, short).value), true);
      assert Estimate(a, idx, short).value <= Estimate(q, idx, short).value;
    } else {
      assert Moved(cfg.alpha, Estimate(p, idx, short), Estimate(q, idx, short), false);
    }
  }

  lemma {:induction false} CountedRest(cfg: RateConfig, p: Peer, idx: Rung, short: bool, success: bool)
    requires p.Sized()
    ensures Counted(cfg, p, idx, short, success) == p.(long := Counted(cfg, p, idx, short, success).long, short := Counted(cfg, p, idx, short, success).short)
  {
    hide Sampled;
  }

  lemma {:induction false} MovedSome(alpha: real, was: Option<real>, e: Option<real>, success: bool)
    requires Moved(alpha, was, e, success)
    ensures e.Some?
  {
  }

  lemma {:induction false} ReseatStats(cfg: RateConfig, p: Peer)
    requires p.Sized()
    ensures SameStats(p, Reseat(cfg, p)) && Reseat(cfg, p).shortGi == p.shortGi && Reseat(cfg, p).octets == p.octets
  {
    hide KnownGood, GoodAt;
  }

  /** Learning from an outcome: a success never lowers the estimate of the rate used and a failure
      never raises it; all estimates stay probabilities, and all others stay as they were. */
  lemma {:induction false} OutcomeLearns(cfg: RateConfig, p: Peer, choice: TxChoice, success: bool)
    requires p.Sized() && Probabilities(p) && Sane(cfg) && LadderIndex(choice.mcs).Some?
    ensures var (q, idx, short) := (Report(cfg, p, choice, success), LadderIndex(choice.mcs).value, choice.gi.ShortGi?);
            && Probabilities(q) && Learns(cfg, p, q, idx, short, success)
            && (success && Estimate(p, idx, short).Some? ==> Estimate(q, idx, short).value >= Estimate(p, idx, short).value)
            && (!success && Estimate(p, idx, short).Some? ==> Estimate(q, idx, short).value <= Estimate(p, idx, short).value)
            && (Estimate(p, idx, short).None? ==> if success then Estimate(q, idx, short).value >= 1.0 else Estimate(q, idx, short).value == 0.0)
  {
    hide Judged, Report, Reseat, Probabilities, Raised, Lowered;
    var (idx, short) := (LadderIndex(choice.mcs).value, choice.gi.ShortGi?);
    var j := Judged(cfg, p, choice, idx, success);
    ReportIs(cfg, p, choice, success);
    JudgedLearns(cfg, p, choice, idx, success);
    ReseatStats(cfg, j);
    SameProbabilities(j, Reseat(cfg, j));
    assert forall i: Rung, s: bool :: Estimate(Reseat(cfg, j), i, s) == Estimate(j, i, s);
    if Estimate(p, idx, short).Some? {
      assert IsProbability(Estimate(p, idx, short)) by { OneProbability(p, idx, short); }
      RaisedBetween(cfg.alpha, Estimate(p, idx, short).value);
      LoweredBetween(cfg.alpha, Estimate(p, idx, short).value);
    }
  }

  lemma {:induction false} OneProbability(p: Peer, i: Rung, short: bool)
    requires p.Sized() && Probabilities(p)
    ensures IsProbability(Estimate(p, i, short))
  {
  }

  lemma {:induction false} ProbeTallies(cfg: RateConfig, p: Peer, choice: TxChoice, idx: Rung, probe: Probe, success: bool)
    requires p.Sized()
    ensures var q := ResolveProbe(cfg, p, idx, choice, probe, success);
            forall i: Rung, s: bool :: q.StatAt(i, s).attempts == p.StatAt(i, s).attempts && q.StatAt(i, s).successes == p.StatAt(i, s).successes
  {
    hide FloorMcs, FloorGi;
  }

  lemma {:induction false} CountedTallies(cfg: RateConfig, p: Peer, idx: Rung, short: bool, success: bool, i: Rung, s: bool)
    requires p.Sized()
    ensures Tallied(p.StatAt(i, s), Counted(cfg, p, idx, short, success).StatAt(i, s), i == idx && s == short, success)
  {
    hide Blend;
  }

  /** One more attempt if the rate was used, and one more success if it was used and answered. */
  predicate Tallied(was: Stat, now: Stat, used: bool, success: bool) {
    && now.attempts == was.attempts + (if used then 1 else 0)
    && now.successes == was.successes + (if used && success then 1 else 0)
  }

  /** Attempts and successes are counted for the rate used, and for no other. */
  lemma {:induction false} OutcomeTallied(cfg: RateConfig, p: Peer, choice: TxChoice, success: bool, i: Rung, s: bool)
    requires p.Sized() && LadderIndex(choice.mcs).Some?
    ensures Tallied(p.StatAt(i, s), Report(cfg, p, choice, success).StatAt(i, s),
                    i == LadderIndex(choice.mcs).value && s == choice.gi.ShortGi?, success)
  {
    hide Report, Reseat, ResolveProbe, FloorGi, Sampled, Peer.WithStat, ProbeOf;
    var (idx, short) := (LadderIndex(choice.mcs).value, choice.gi.ShortGi?);
    var a := Counted(cfg, p, idx, short, success);
    CountedTallies(cfg, p, idx, short, success, i, s);
    CountedRest(cfg, p, idx, short, success);
    var probe := ProbeOf(p, idx, choice);
    var b := NoteFailed(cfg, a, idx, choice, probe, success);
    assert b.StatAt(i, s) == a.StatAt(i, s);
    if probe.Some? {
      ProbeTallies(cfg, b, choice, idx, probe.value, success);
    }
    var j := Judged(cfg, p, choice, idx, success);
    assert j.StatAt(i, s).attempts == a.StatAt(i, s).attempts && j.StatAt(i, s).successes == a.StatAt(i, s).successes;
    ReportIs(cfg, p, choice, success);
    ReseatStats(cfg, j);
    assert Reseat(cfg, j).StatAt(i, s) == j.StatAt(i, s);
  }

  lemma {:induction false} SelectStats(cfg: RateConfig, p: Peer, retry: nat, octets: nat)
    requires p.Sized()
    ensures SameStats(p, Select(cfg, p, retry, octets).0)
  {
    hide DueProbe, ProbeChoice, RetryChoice, GiInUse, CodingInUse;
  }

  lemma {:induction false} FreshProbabilities(cfg: RateConfig)
    ensures Probabilities(NewPeer(cfg))
  {
    hide StartIndex;
  }

  /** On every run all estimates are probabilities. */
  lemma {:induction false} RunProbabilities(cfg: RateConfig, ops: seq<Op>)
    requires Sane(cfg)
    ensures Probabilities(Follow(cfg, ops).p)
  {
    hide Probabilities, Select, Report, NewPeer, NothingSent, TrackOk, Learns;
    if |ops| == 0 {
      FreshProbabilities(cfg);
    } else {
      var (t, op) := (Follow(cfg, ops[..|ops| - 1]), ops[|ops| - 1]);
      RunProbabilities(cfg, ops[..|ops| - 1]);
      FollowCfg(cfg, ops[..|ops| - 1]);
      TrackSized(t);
      match op
      case OpSelect(retry, octets) =>
        SelectStats(t.cfg, t.p, retry, octets);
        SameProbabilities(t.p, Select(t.cfg, t.p, retry, octets).0);
      case OpReport(success) =>
        if t.last.Some? {
          OutcomeLearns(t.cfg, t.p, t.last.value, success);
        }
      case OpSnr(snrDb) => SameProbabilities(t.p, ObserveSnr(t.cfg, t.p, snrDb));
      case OpDelaySpread(us) => SameProbabilities(t.p, ObserveDelaySpread(t.p, us));
      case OpFailCost(_) =>
    }
  }

  lemma {:induction false} TrackSized(t: Track)
    requires TrackOk(t)
    ensures t.p.Sized() && (t.last.Some? ==> LadderIndex(t.last.value.mcs).Some?)
  {
  }

  // ---- The rung ----

  /** Whether the guard interval in use is the short one. */
  function InUse(cfg: RateConfig, p: Peer): bool {
    if cfg.gi.Fixed? then cfg.gi.value.ShortGi? else p.shortGi
  }

  /** The estimate of a rung reaches its floor, to within a ten thousandth. */
  ghost predicate Holds(cfg: RateConfig, p: Peer, i: Rung)
    requires p.Sized()
  {
    var e := Estimate(p, i, InUse(cfg, p));
    e.Some? && e.value + 0.0001 >= FloorMcs(cfg, p, i, InUse(cfg, p))
  }

  /** Tried and below its floor. */
  ghost predicate Fails(cfg: RateConfig, p: Peer, i: Rung)
    requires p.Sized()
  {
    Estimate(p, i, InUse(cfg, p)).Some? && !Holds(cfg, p, i)
  }

  /** The highest rung within bounds that holds. */
  ghost predicate Highest(cfg: RateConfig, p: Peer, k: Rung)
    requires p.Sized()
  {
    Lo(cfg) <= k <= Hi(cfg) && Holds(cfg, p, k) && forall j: Rung | k < j <= Hi(cfg) :: !Holds(cfg, p, j)
  }

  /** Where a peer at rung `cur` goes: to the highest rung that holds if that is higher, or if the
      present one fails; failing with none below that holds, one step down. */
  ghost predicate Settled(cfg: RateConfig, q: Peer, cur: Rung)
    requires q.Sized()
  {
    if Fails(cfg, q, cur) then
      if exists k: Rung | k < cur :: Highest(cfg, q, k) then q.cur < cur && Highest(cfg, q, q.cur)
      else q.cur == if cur - 1 < Lo(cfg) then Lo(cfg) else cur - 1
    else
      if exists k: Rung | k > cur :: Highest(cfg, q, k) then q.cur > cur && Highest(cfg, q, q.cur) else q.cur == cur
  }

  lemma {:induction false} ReseatSettles(cfg: RateConfig, p: Peer)
    requires p.Sized() && InLadder(cfg, p.cur)
    ensures Settled(cfg, Reseat(cfg, p), p.cur)
  {
    hide FloorMcs, Lo, Hi, KnownGood;
    var q := Reseat(cfg, p);
    ReseatStats(cfg, p);
    var (short, known) := (InUse(cfg, p), KnownGood(cfg, p, InUse(cfg, p), Hi(cfg) + 1));
    forall i: Rung
      ensures Holds(cfg, q, i) <==> GoodAt(cfg, p, short, i)
    {
      SameFloor(cfg, p, q, i, short);
    }
    if known.Some? {
      assert Highest(cfg, q, known.value);
      forall k: Rung | Highest(cfg, q, k)
        ensures k == known.value
      {
      }
    } else {
      forall k: Rung
        ensures !Highest(cfg, q, k)
      {
      }
    }
  }

  lemma {:induction false} SameFloor(cfg: RateConfig, p: Peer, q: Peer, i: Rung, short: bool)
    requires p.Sized() && SameStats(p, q) && p.octets == q.octets
    ensures q.Sized() && FloorMcs(cfg, p, i, short) == FloorMcs(cfg, q, i, short)
  {
  }

  /** After any outcome the rung is the highest known good one or one step below a failing one, as
      estimates and floors have it. */
  lemma {:induction false} OutcomeSettles(cfg: RateConfig, p: Peer, choice: TxChoice, success: bool)
    requires p.Sized() && InLadder(cfg, p.cur) && Probabilities(p) && Sane(cfg) && LadderIndex(choice.mcs).Some?
    ensures Settled(cfg, Report(cfg, p, choice, success), p.cur)
  {
    hide Judged, Report, Reseat, Probabilities, Settled, Learns;
    ReportIs(cfg, p, choice, success);
    JudgedLearns(cfg, p, choice, LadderIndex(choice.mcs).value, success);
    ReseatSettles(cfg, Judged(cfg, p, choice, LadderIndex(choice.mcs).value, success));
  }

  /** A first success at an untried rung in use never lowers it. */
  lemma {:induction false} FirstSuccessStays(cfg: RateConfig, p: Peer, choice: TxChoice)
    requires p.Sized() && InLadder(cfg, p.cur) && Probabilities(p) && Sane(cfg) && LadderIndex(choice.mcs) == Some(p.cur)
    requires var q := Report(cfg, p, choice, true); choice.gi.ShortGi? == InUse(cfg, q) && Estimate(p, p.cur, choice.gi.ShortGi?).None?
    ensures Report(cfg, p, choice, true).cur >= p.cur
  {
    hide Report, Probabilities, Highest, Learns, FloorMcs;
    var q := Report(cfg, p, choice, true);
    OutcomeLearns(cfg, p, choice, true);
    OutcomeSettles(cfg, p, choice, true);
    FloorMcsAtMost(cfg, q, p.cur, InUse(cfg, q));
  }

  // ---- A dead rate is given up ----

  /** After `k` failures of one choice. */
  function Failing(cfg: RateConfig, p: Peer, choice: TxChoice, k: nat): (q: Peer)
    requires p.Sized()
    ensures q.Sized()
  {
    if k == 0 then p else Report(cfg, Failing(cfg, p, choice, k - 1), choice, false)
  }

  function Scaled(x: real, y: real): real {
    x * y
  }

  function Power(x: real, k: nat): real {
    if k == 0 then 1.0 else Scaled(x, Power(x, k - 1))
  }

  /** Rung and guard interval are still those of the choice. */
  ghost predicate Stays(cfg: RateConfig, p: Peer, q: Peer) {
    q.cur == p.cur && InUse(cfg, q) == InUse(cfg, p)
  }

  /** As long as the rate is kept its estimate shrinks by the factor 1 - alpha each time. */
  lemma {:induction false} FailingShrinks(cfg: RateConfig, p: Peer, choice: TxChoice, k: nat)
    requires p.Sized() && Probabilities(p) && Sane(cfg) && LadderIndex(choice.mcs).Some?
    ensures var (q, e) := (Failing(cfg, p, choice, k), Estimate(Failing(cfg, p, choice, k), LadderIndex(choice.mcs).value, choice.gi.ShortGi?));
            && Probabilities(q) && (k > 0 ==> e.Some?) && (e.Some? ==> e.value <= Power(1.0 - cfg.alpha, k))
    ensures Power(1.0 - cfg.alpha, k) >= 0.0
  {
    hide Report, Probabilities, Learns, Estimate, Scaled;
    var (idx, short) := (LadderIndex(choice.mcs).value, choice.gi.ShortGi?);
    if k == 0 {
      OneProbability(p, idx, short);
    } else {
      FailingShrinks(cfg, p, choice, k - 1);
      var before := Failing(cfg, p, choice, k - 1);
      OutcomeLearns(cfg, before, choice, false);
      FailedEstimate(cfg, before, choice);
      if Estimate(before, idx, short).Some? {
        Scale(1.0 - cfg.alpha, Estimate(before, idx, short).value, Power(1.0 - cfg.alpha, k - 1));
      }
      Scale(1.0 - cfg.alpha, 0.0, Power(1.0 - cfg.alpha, k - 1));
    }
  }

  lemma {:induction false} FailedEstimate(cfg: RateConfig, p: Peer, choice: TxChoice)
    requires p.Sized() && Probabilities(p) && Sane(cfg) && LadderIndex(choice.mcs).Some?
    ensures var (e, was) := (Estimate(Report(cfg, p, choice, false), LadderIndex(choice.mcs).value, choice.gi.ShortGi?),
                             Estimate(p, LadderIndex(choice.mcs).value, choice.gi.ShortGi?));
            e.Some? && e.value == if was.Some? then Scaled(1.0 - cfg.alpha, was.value) else 0.0
  {
    hide Report, Probabilities, Estimate, Lowered, Scaled;
    OutcomeLearns(cfg, p, choice, false);
    var was := Estimate(p, LadderIndex(choice.mcs).value, choice.gi.ShortGi?);
    if was.Some? {
      Remaining(cfg.alpha, was.value);
    }
  }

  lemma {:induction false} Remaining(alpha: real, x: real)
    ensures Scaled(1.0 - alpha, x) == Lowered(alpha, x)
  {
  }

  lemma {:induction false} Scale(x: real, y: real, z: real)
    requires 0.0 <= x && y <= z
    ensures Scaled(x, y) <= Scaled(x, z) && (0.0 <= y ==> 0.0 <= Scaled(x, y))
  {
    var d := z - y;
    Product(x, d);
    assert x * d == x * z - x * y;
    if 0.0 <= y {
      Product(x, y);
    }
  }

  /** A rate that only fails is given up, above the lowest rung, within a number of failures that
      depends on the weight and the least success probability alone. */
  lemma {:induction false} DeadRateLeft(cfg: RateConfig, p: Peer, choice: TxChoice, k: nat)
    requires PeerOk(cfg, p) && Probabilities(p) && Sane(cfg) && p.cur > Lo(cfg) && k > 0
    requires LadderIndex(choice.mcs) == Some(p.cur) && choice.gi.ShortGi? == InUse(cfg, p)
    requires Power(1.0 - cfg.alpha, k) + 0.0001 < if cfg.pMin < 0.98 then cfg.pMin else 0.98
    ensures exists j :: 0 < j <= k && !Stays(cfg, p, Failing(cfg, p, choice, j))
  {
    hide Report, Probabilities, FloorMcs, Highest, Power;
    var (before, q) := (Failing(cfg, p, choice, k - 1), Failing(cfg, p, choice, k));
    FailingShrinks(cfg, p, choice, k - 1);
    FailingShrinks(cfg, p, choice, k);
    if k == 1 || Stays(cfg, p, before) {
      OutcomeSettles(cfg, before, choice, false);
      FloorMcsAtMost(cfg, q, p.cur, InUse(cfg, q));
      if InUse(cfg, q) == InUse(cfg, p) {
        assert Fails(cfg, q, p.cur);
      }
      assert !Stays(cfg, p, q);
    }
  }

  // ---- Probes become rarer ----

  /** Back-off after `n` failed probes in a row. */
  function BackedOffBy(cfg: RateConfig, n: nat): nat {
    if n == 0 then 0 else BackedOff(cfg, BackedOffBy(cfg, n - 1), cfg.probeInterval)
  }

  function Doubled(x: nat, n: nat): nat {
    if n == 0 then x else 2 * Doubled(x, n - 1)
  }

  /** The wait before the next probe doubles with every failed one, up to the cap. */
  lemma {:induction false} ProbesRarer(cfg: RateConfig, n: nat)
    requires n > 0
    ensures BackedOffBy(cfg, n) == if Doubled(cfg.probeInterval, n) < cfg.backoffMax then Doubled(cfg.probeInterval, n) else cfg.backoffMax
  {
    DoubledMore(cfg.probeInterval, n - 1);
    if n > 1 {
      ProbesRarer(cfg, n - 1);
    }
  }

  lemma {:induction false} DoubledMore(x: nat, n: nat)
    ensures Doubled(x, n) >= x
  {
    if n > 0 {
      DoubledMore(x, n - 1);
    }
  }
}

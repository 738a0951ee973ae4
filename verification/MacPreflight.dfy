/** The size check at the queue keeps every later attempt buildable (`enqueue_eth` and
    `plan_attempt` of crates/s2g-mac/src/engine.rs). */
module MacPreflight {
  import opened Wrappers
  import opened Params
  import opened MacTypes
  import opened MacSpec
  import opened MacInvariant
  import opened MacEvolution
  import opened Words
  import Bits
  import Arith
  import Ampdu
  import Geometry
  import LdpcPpdu
  import Rate

  /** An attempt can be built exactly when its first MPDU fits by itself. */
  lemma {:induction false} PlanIffFirstFits(b: Batch, mcs: nat, coding: Coding)
    requires |b.mpdus| > 0
    ensures PlanAttempt(b, mcs, coding).Some?
            <==> MpduLen(b.qos, b.mpdus[0].body) <= PSDU_MAX_NO_AGG
                 || Geometry.AggregatedCapacity(mcs, Ampdu.PreEofLen(MpduLen(b.qos, b.mpdus[0].body)), coding).Success?
  {
    hide Geometry.AggregatedCapacity, Ampdu.PreEofOfLens;
    var lens := BatchLens(b);
    var n := Grow(lens, mcs, coding, 0);
    GrowFits(lens, mcs, coding, 0);
    assert lens[..1] == [lens[0]];
    if n > 1 {
      assert |lens[..n]| == n && PrefixFits(lens, mcs, coding, n);
      assert PrefixFits(lens, mcs, coding, 1);
    }
  }

  // ---- What fits ----

  /** With ten codewords or more puncturing is never worth another symbol. */
  lemma {:induction false} NoExtraWhenMany(nPld: nat, av: nat, nCbps: nat, rate: CodeRate)
    requires nCbps > 0 && nPld * rate.Den() == av * rate.Num() && nPld * rate.Den() > 9 * 1944 * rate.Num()
    ensures !LdpcPpdu.ParamsFor(nPld, av, nCbps, rate).extra
  {
    hide LdpcPpdu.NeedsExtraSymbol;
    var (nCw, l) := LdpcPpdu.ChooseCodewords(nPld, av, rate);
    assert l == 1944 && nCw == LdpcPpdu.CeilDiv(nPld * rate.Den(), 1944 * rate.Num());
    ManyCodewords(nPld, av, nCw, rate);
  }

  /** The bits missing for a whole number of codewords are less than one codeword. */
  lemma {:induction false} ManyCodewords(nPld: nat, av: nat, nCw: nat, rate: CodeRate)
    requires nPld * rate.Den() == av * rate.Num() && nPld * rate.Den() > 9 * 1944 * rate.Num()
    requires nCw == LdpcPpdu.CeilDiv(nPld * rate.Den(), 1944 * rate.Num())
    ensures var (shrt, punc, parity) := (LdpcPpdu.Shortened(nPld, nCw, 1944, rate),
                                         LdpcPpdu.Punctured(nPld, av, nCw, 1944, rate),
                                         LdpcPpdu.TotalParity(nCw, 1944, rate));
            !LdpcPpdu.NeedsExtraSymbol(rate, shrt, punc, parity)
  {
    match rate case R12 => case R23 => case R34 => case R56 =>
  }

  /** At 511 symbols no MCS needs the extra LDPC symbol. */
  lemma {:induction false} NoExtraWhenFull(mcs: nat)
    requires LookupMcs(mcs).Some?
    ensures var p := LookupMcs(mcs).value; !LdpcPpdu.NewParams(511, p.nDbps, p.nCbps, p.rate).extra
  {
    hide LdpcPpdu.ParamsFor;
    var p := LookupMcs(mcs).value;
    NoExtraWhenMany(511 * p.nDbps, 511 * p.nCbps, p.nCbps, p.rate);
  }

  function Overhead(coding: Coding): nat {
    if coding.BccCoding? then N_SERVICE + N_TAIL else N_SERVICE
  }

  /** Octets fit exactly when 511 symbols hold them with SERVICE and tail bits: the extra LDPC symbol
      never makes a difference. */
  lemma {:induction false} FitsIff(mcs: nat, octets: nat, coding: Coding)
    requires octets > 0
    ensures Geometry.AggregatedCapacity(mcs, octets, coding).Success?
            <==> LookupMcs(mcs).Some? && 8 * octets + Overhead(coding) <= 511 * LookupMcs(mcs).value.nDbps
  {
    hide Geometry.InitSymbols, Geometry.CapacityOf, LdpcPpdu.NewParams, LdpcPpdu.Times, LookupMcs;
    if LookupMcs(mcs).Some? {
      LookupMcsValid(mcs);
      var p := LookupMcs(mcs).value;
      var n := Geometry.InitSymbols(octets, p.nDbps, coding);
      Geometry.InitBounds(octets, p.nDbps, coding);
      Geometry.TimesIs(n, p.nDbps);
      Geometry.SentBounds(n, p, coding);
      assert 512 * p.nDbps == 511 * p.nDbps + p.nDbps;
      if n <= 511 {
        Arith.MulNonneg(511 - n, p.nDbps);
        assert (511 - n) * p.nDbps == 511 * p.nDbps - n * p.nDbps;
      } else {
        Arith.MulNonneg(n - 512, p.nDbps);
        assert (n - 512) * p.nDbps == n * p.nDbps - 512 * p.nDbps;
      }
      if n == 511 {
        NoExtraWhenFull(mcs);
      }
    }
  }

  /** The longest MPDU that makes an attempt by itself. */
  function Longest(mcs: nat, coding: Coding): nat {
    match LookupMcs(mcs)
    case None => PSDU_MAX_NO_AGG
    case Some(p) => LdpcPpdu.MonusZero((511 * p.nDbps - Overhead(coding)) / 8 - Ampdu.DELIM_LEN)
  }

  /** The longest MPDU, with the header of an aggregated one, that the size check lets through. */
  function LongestAdmitted(cfg: Config): nat {
    Min(Ampdu.MAX_MPDU_LEN, Longest(FloorMcs(cfg), cfg.coding))
  }

  lemma {:induction false} LongestIs(mcs: nat, len: nat, coding: Coding)
    ensures len <= Longest(mcs, coding)
            <==> len <= PSDU_MAX_NO_AGG || Geometry.AggregatedCapacity(mcs, Ampdu.PreEofLen(len), coding).Success?
  {
    hide Geometry.AggregatedCapacity, LookupMcs;
    FitsIff(mcs, Ampdu.PreEofLen(len), coding);
    if LookupMcs(mcs).Some? {
      LookupMcsValid(mcs);
    }
  }

  lemma {:induction false} AdmissibleIff(cfg: Config, body: seq<Bits.Octet>)
    ensures Admissible(cfg, body) <==> MpduLen(true, body) <= LongestAdmitted(cfg)
  {
    hide Geometry.AggregatedCapacity, Longest;
    LongestIs(FloorMcs(cfg), MpduLen(true, body), cfg.coding);
  }

  lemma {:induction false} PlanIff(b: Batch, c: TxChoice)
    requires |b.mpdus| > 0
    ensures PlanAttempt(b, c.mcs, c.coding).Some? <==> MpduLen(b.qos, b.mpdus[0].body) <= Longest(c.mcs, c.coding)
  {
    hide Geometry.AggregatedCapacity, PlanAttempt, Longest;
    PlanIffFirstFits(b, c.mcs, c.coding);
    LongestIs(c.mcs, MpduLen(b.qos, b.mpdus[0].body), c.coding);
  }

  // ---- Which choices of rate the size check covers ----

  /** What passes the check fits at this choice. */
  predicate Safe(cfg: Config, c: TxChoice) {
    LongestAdmitted(cfg) <= Longest(c.mcs, c.coding)
  }

  /** Every frame that passed the size check makes an attempt at this choice. */
  ghost predicate AlwaysFlies(cfg: Config, c: TxChoice) {
    forall b: Batch | |b.mpdus| > 0 && Admissible(cfg, b.mpdus[0].body) :: PlanAttempt(b, c.mcs, c.coding).Some?
  }

  /** A frame that passed the size check, alone or in a batch, always makes an attempt. */
  lemma {:induction false} AdmissibleFlies(cfg: Config, b: Batch, c: TxChoice)
    requires |b.mpdus| > 0 && Admissible(cfg, b.mpdus[0].body) && Safe(cfg, c)
    ensures PlanAttempt(b, c.mcs, c.coding).Some?
  {
    hide Admissible, PlanAttempt, Longest;
    AdmissibleIff(cfg, b.mpdus[0].body);
    PlanIff(b, c);
  }

  lemma {:induction false} LongestLeast(mcs: nat, coding: Coding)
    ensures Longest(mcs, coding) >= PSDU_MAX_NO_AGG
  {
  }

  /** A batch of one frame of the given body. */
  function BatchOf(cfg: Config, body: seq<Bits.Octet>): Batch {
    Batch(BROADCAST, cfg.addr, [PendingMpdu(0, 0, body, 0, 0)], [], 0, 0, false, FixedChoice(cfg), 0, true, false, 0, 1, 0)
  }

  /** The size check covers exactly the safe choices. */
  lemma {:induction false} ChoiceSafeIff(cfg: Config, c: TxChoice)
    ensures AlwaysFlies(cfg, c) <==> Safe(cfg, c)
  {
    hide Admissible, PlanAttempt, Longest;
    if Safe(cfg, c) {
      forall b: Batch | |b.mpdus| > 0 && Admissible(cfg, b.mpdus[0].body)
        ensures PlanAttempt(b, c.mcs, c.coding).Some?
      {
        AdmissibleFlies(cfg, b, c);
      }
    } else {
      LongestLeast(FloorMcs(cfg), cfg.coding);
      var b := BatchOf(cfg, seq(LongestAdmitted(cfg) - QOS_DATA_HDR_LEN - FCS_LEN, _ => 0));
      AdmissibleIff(cfg, b.mpdus[0].body);
      PlanIff(b, c);
    }
  }

  /** LDPC is configured and BCC is chosen at the lowest MCS, where 511 symbols hold the longest LDPC
      PPDU but not the tail bits of the BCC one. At MCS 0 and above 5 they hold both. */
  predicate Gap(cfg: Config, c: TxChoice) {
    cfg.coding.LdpcCoding? && c.coding.BccCoding? && c.mcs == FloorMcs(cfg) && 1 <= c.mcs <= 5
  }

  /** On the configured ladder a choice is safe unless it is in that gap. */
  lemma {:induction false} SafeIffNoGap(cfg: Config, c: TxChoice)
    requires LookupMcs(c.mcs).Some? && FloorMcs(cfg) <= c.mcs
    ensures Safe(cfg, c) <==> !Gap(cfg, c)
  {
    var low := FloorMcs(cfg);
    if low == c.mcs {
      SameMcs(low, cfg.coding, c.coding);
    } else {
      LongestLeast(c.mcs, c.coding);
      if LookupMcs(low).Some? {
        LookupMcsValid(low);
        Geometry.RatesGrow(low, c.mcs);
      }
    }
  }

  lemma {:induction false} SameMcs(mcs: nat, x: Coding, y: Coding)
    requires LookupMcs(mcs).Some?
    ensures Min(Ampdu.MAX_MPDU_LEN, Longest(mcs, x)) <= Longest(mcs, y) <==> !(x.LdpcCoding? && y.BccCoding? && 1 <= mcs <= 5)
  {
    match mcs case 0 => case 1 => case 2 => case 3 => case 4 => case 5 => case 6 => case 7 => case 8 => case _ =>
  }

  /** Whatever the controller chooses on whatever history is safe if its lowest rung is not below the
      MCS the size check assumes, and it never chooses BCC where LDPC is configured, or that MCS has
      no gap. */
  lemma {:induction false} ControllerSafe(cfg: Config, rcfg: Rate.RateConfig, ops: seq<Rate.Op>)
    requires FloorMcs(cfg) <= Rate.McsOf(Rate.Lo(rcfg))
    requires cfg.coding.BccCoding? || rcfg.coding == Rate.Fixed(LdpcCoding) || !(1 <= FloorMcs(cfg) <= 5)
    ensures var t := Rate.Follow(rcfg, ops); t.last.Some? ==> Safe(cfg, t.last.value)
  {
    hide Rate.Follow, Safe;
    Rate.ControllerBounded(rcfg, ops);
    var t := Rate.Follow(rcfg, ops);
    if t.last.Some? {
      var c := t.last.value;
      Rate.LadderRates(Rate.LadderIndex(c.mcs).value);
      SafeIffNoGap(cfg, c);
    }
  }

  // ---- Runs ----

  lemma {:induction false} CompletedNoFailure(b: Batch, mcs: nat, n: nat)
    requires n <= |b.mpdus|
    ensures NoBuildFailure(CompletedTo(b, mcs, n))
  {
    if n > 0 {
      CompletedNoFailure(b, mcs, n - 1);
    }
  }

  lemma {:induction false} IdentNoFailure(b: Batch, n: nat)
    requires n <= |b.mpdus| && b.ident
    ensures NoBuildFailure(DroppedTo(b, n))
  {
    if n > 0 {
      IdentNoFailure(b, n - 1);
    }
  }

  lemma {:induction false} FlyNoFailure(cfg: Config, s: MacState, b: Batch, now: nat, inp: PollInput)
    requires BatchOk(cfg, b, s.nextId) && Safe(cfg, inp.choice) && Safe(cfg, FixedChoice(cfg))
    ensures NoBuildFailure(Fly(cfg, s, b, now, inp).events)
  {
    hide PlanAttempt, PpduFor, Await, CompletedTo, DroppedTo, Admissible, Measure, Budget, Safe;
    var c := ChoiceFor(cfg, b, inp);
    CompletedNoFailure(b, c.mcs, |b.mpdus|);
    if b.ident {
      IdentNoFailure(b, |b.mpdus|);
    } else {
      assert MpduOk(cfg, b.base, s.nextId, false, b.mpdus[0], 0 < |b.inFlight|);
      AdmissibleFlies(cfg, b, c);
    }
  }

  /** Inputs whose rate choices are safe. */
  ghost predicate SafeInputs(cfg: Config, ins: seq<Input>) {
    forall i | 0 <= i < |ins| :: ins[i].InPoll? ==> Safe(cfg, ins[i].inp.choice)
  }

  lemma {:induction false} AccessNoFailure(cfg: Config, s: MacState, now: nat, inp: PollInput)
    requires Valid(cfg, s) && Safe(cfg, inp.choice) && Safe(cfg, FixedChoice(cfg))
    ensures NoBuildFailure(Access(cfg, s, now, inp).events)
  {
    hide BatchOk, TxOk, CwOk, Fly, MediumBusy, NeedRts, Admissible, Safe;
    if s.cur.Some? {
      FlyNoFailure(cfg, s, s.cur.value, now, inp);
    }
  }

  lemma {:induction false} PollNoFailure(cfg: Config, s: MacState, now: nat, inp: PollInput)
    requires Valid(cfg, s) && Safe(cfg, inp.choice) && Safe(cfg, FixedChoice(cfg))
    ensures NoBuildFailure(Poll(cfg, s, now, inp).events)
  {
    hide Valid, FailAttempt, PullWork, Access, Safe;
    if |s.responses| == 0 {
      FailAttemptFacts(cfg, s, now, inp.draw);
      if s.tx.AwaitResponse? {
        FailAttemptValid(cfg, s, now, inp.draw);
      }
      var o := Timeout(cfg, s, now, inp.draw);
      PullWorkValid(cfg, o.s, now, inp.draw);
      AccessNoFailure(cfg, PullWork(cfg, o.s, now, inp.draw), now, inp);
    }
  }

  /** No accepted frame is ever dropped because its PSDU could not be built, on every run whose rate
      choices are safe. */
  lemma {:induction false} NeverUnbuildable(cfg: Config, ins: seq<Input>)
    requires SafeInputs(cfg, ins) && Safe(cfg, FixedChoice(cfg))
    ensures NoBuildFailure(Run(cfg, ins).events)
  {
    hide Valid, Poll, OnPhyEvent, Enqueue, Safe;
    if |ins| > 0 {
      var (before, i) := (ins[..|ins| - 1], ins[|ins| - 1]);
      NeverUnbuildable(cfg, before);
      RunValid(cfg, before);
      var s := Run(cfg, before).s;
      match i
      case InEnqueue(_) =>
      case InPhy(ev, now, draw) => EventFacts(cfg, s, ev, now, draw);
      case InPoll(now, inp) => PollNoFailure(cfg, s, now, inp);
    }
  }

  /** Every choice comes from the rate controller, after some history of its peer. */
  ghost predicate Controlled(rcfg: Rate.RateConfig, ins: seq<Input>) {
    forall i | 0 <= i < |ins| && ins[i].InPoll? :: exists ops :: Rate.Follow(rcfg, ops).last == Some(ins[i].inp.choice)
  }

  /** So with the choices of the rate controller, whatever it has been told: its lowest rung must not
      be below the MCS the size check assumes, and with LDPC configured it must keep to LDPC or that
      MCS be 0 or above 5. */
  lemma {:induction false} ControlledNeverUnbuildable(cfg: Config, rcfg: Rate.RateConfig, ins: seq<Input>)
    requires Controlled(rcfg, ins) && LookupMcs(cfg.mcs).Some? && FloorMcs(cfg) <= Rate.McsOf(Rate.Lo(rcfg))
    requires cfg.coding.BccCoding? || rcfg.coding == Rate.Fixed(LdpcCoding) || !(1 <= FloorMcs(cfg) <= 5)
    ensures NoBuildFailure(Run(cfg, ins).events)
  {
    hide Run, Rate.Follow, Safe;
    SafeIffNoGap(cfg, FixedChoice(cfg));
    forall i | 0 <= i < |ins| && ins[i].InPoll?
      ensures Safe(cfg, ins[i].inp.choice)
    {
      var ops :| Rate.Follow(rcfg, ops).last == Some(ins[i].inp.choice);
      ControllerSafe(cfg, rcfg, ops);
    }
    NeverUnbuildable(cfg, ins);
  }

  /** In particular with rate control on and one lowest MCS for both, on the ladder and 0 or above 5,
      or with BCC configured, or LDPC for both. */
  lemma {:induction false} OneConfiguration(cfg: Config, rcfg: Rate.RateConfig, ins: seq<Input>)
    requires Controlled(rcfg, ins) && cfg.rateEnabled && rcfg.minMcs == cfg.minMcs
    requires LookupMcs(cfg.mcs).Some? && LookupMcs(cfg.minMcs).Some?
    requires cfg.coding.BccCoding? || rcfg.coding == Rate.Fixed(LdpcCoding) || cfg.minMcs == 0 || (cfg.minMcs > 5 && cfg.mcs > 5)
    ensures NoBuildFailure(Run(cfg, ins).events)
  {
    hide Run, Controlled;
    assert LookupMcs(cfg.minMcs).Some? ==> Rate.LadderIndex(cfg.minMcs).Some? && Rate.McsOf(Rate.LadderIndex(cfg.minMcs).value) == cfg.minMcs;
    ControlledNeverUnbuildable(cfg, rcfg, ins);
  }

  // ---- An unsafe choice ----

  /** A station that sends two frames to one other in one PPDU. */
  predicate Aggregating(cfg: Config) {
    && cfg.identBody.None? && !cfg.egressFilter && cfg.queueLimit > 1 && cfg.rateEnabled && cfg.rtsThreshold.None?
    && cfg.ackEnabled && cfg.ndpAck && cfg.ampduMaxMpdus > 1 && cfg.difsUs > 0
  }

  /** Two frames are queued and taken up, and the back-off ends. */
  function TwoFrames(cfg: Config, eth: seq<Bits.Octet>, c: TxChoice): seq<Input> {
    var draws := PollInput(0, 0, 0, c, c, 0);
    [InEnqueue(eth), InEnqueue(eth), InPoll(0, draws), InPoll(cfg.difsUs, draws)]
  }

  /** Both frames in one batch. */
  function Pair(cfg: Config, m: Msdu): Batch {
    Batch(m.dest, m.src, [PendingMpdu(0, 0, m.body, 0, 0), PendingMpdu(1, 1, m.body, 0, 0)], [], 0, 0, false, FixedChoice(cfg), 0, true, false, 0, 2, 0)
  }

  lemma {:induction false} QueuesTwo(cfg: Config, eth: seq<Bits.Octet>)
    requires Aggregating(cfg) && ParseEthernet(eth).Some? && Admissible(cfg, ParseEthernet(eth).value.body)
    ensures var (s, m) := (InitialState(cfg), ParseEthernet(eth).value); Enqueue(cfg, Enqueue(cfg, s, eth).0, eth).0 == s.(queue := [m, m])
  {
    hide ParseEthernet, Admissible;
  }

  lemma {:induction false} TakesUpTwo(cfg: Config, m: Msdu, inp: PollInput)
    requires Aggregating(cfg) && !IsGroup(m.dest) && inp.draw == 0
    ensures var p := Poll(cfg, InitialState(cfg).(queue := [m, m]), 0, inp);
            && p.events == [] && p.s.responses == [] && p.s.cur == Some(Pair(cfg, m)) && p.s.tx == Backoff(cfg.difsUs)
            && p.s.medium == InitialState(cfg).medium
  {
    hide Pow2;
    var s := InitialState(cfg).(queue := [m, m]);
    var n := RunLength(s.queue, BatchLimit(cfg, m.dest), 1);
    assert RunLength(s.queue, BatchLimit(cfg, m.dest), 2) == 2 && n == 2;
    assert Numbered(s.queue, 0, 0, 0) == [] && Numbered(s.queue, 1, 0, 0) == [PendingMpdu(0, 0, m.body, 0, 0)];
    assert Numbered(s.queue, 2, 0, 0) == [PendingMpdu(0, 0, m.body, 0, 0), PendingMpdu(1, 1, m.body, 0, 0)];
    assert 0 % Pow2(s.cwExp) == 0;
  }

  lemma {:induction false} DropsTwo(cfg: Config, s: MacState, m: Msdu, inp: PollInput)
    requires Aggregating(cfg) && s.responses == [] && s.cur == Some(Pair(cfg, m)) && s.tx == Backoff(cfg.difsUs)
    requires s.medium == InitialState(cfg).medium && !IsGroup(m.dest) && PlanAttempt(Pair(cfg, m), inp.choice.mcs, inp.choice.coding).None?
    ensures !NoBuildFailure(Poll(cfg, s, cfg.difsUs, inp).events)
  {
    hide PlanAttempt;
    var b := Pair(cfg, m);
    assert Timeout(cfg, s, cfg.difsUs, inp.draw) == Out(s, []) && PullWork(cfg, s, cfg.difsUs, inp.draw) == s;
    assert DroppedTo(b, 0) == [] && DroppedTo(b, 1) == [TxDropped(MsduOf(b, b.mpdus[0]), BuildFailed, false, 0)];
    var events := Poll(cfg, s, cfg.difsUs, inp).events;
    assert events == DroppedTo(b, 2);
    assert IsBuildFailure(events[0]);
  }

  lemma {:induction false} RunNothing(cfg: Config)
    ensures Run(cfg, []) == Out(InitialState(cfg), [])
  {
  }

  lemma {:induction false} RunMore(cfg: Config, ins: seq<Input>, i: Input)
    ensures var p := Step(cfg, Run(cfg, ins).s, i); Run(cfg, ins + [i]) == Out(p.s, Run(cfg, ins).events + p.events)
  {
    hide Step;
    assert (ins + [i])[..|ins|] == ins;
  }

  /** A choice that is not safe fails: two of the longest frames are accepted, taken up together and
      dropped unsent. */
  lemma {:induction false} UnsafeFails(cfg: Config, c: TxChoice, dest: Addr)
    requires Aggregating(cfg) && !Safe(cfg, c) && !IsGroup(dest)
    ensures exists eth :: !NoBuildFailure(Run(cfg, TwoFrames(cfg, eth, c)).events)
  {
    hide Run, Poll, Step, Longest, Admissible, PlanAttempt;
    LongestLeast(FloorMcs(cfg), cfg.coding);
    var eth: seq<Bits.Octet> := dest + cfg.addr + seq(LongestAdmitted(cfg) - 36, _ => 0);
    var m := ParseEthernet(eth).value;
    assert m.dest == dest && MpduLen(true, m.body) == LongestAdmitted(cfg);
    AdmissibleIff(cfg, m.body);
    PlanIff(Pair(cfg, m), c);
    var inp := PollInput(0, 0, 0, c, c, 0);
    QueuesTwo(cfg, eth);
    TakesUpTwo(cfg, m, inp);
    TwoFramesDrop(cfg, eth, m, c);
  }

  lemma {:induction false} TwoFramesDrop(cfg: Config, eth: seq<Bits.Octet>, m: Msdu, c: TxChoice)
    requires Aggregating(cfg) && !IsGroup(m.dest) && PlanAttempt(Pair(cfg, m), c.mcs, c.coding).None?
    requires Enqueue(cfg, Enqueue(cfg, InitialState(cfg), eth).0, eth).0 == InitialState(cfg).(queue := [m, m])
    ensures !NoBuildFailure(Run(cfg, TwoFrames(cfg, eth, c)).events)
  {
    hide Run, Poll, PlanAttempt, Enqueue, Aggregating, Pair;
    var inp := PollInput(0, 0, 0, c, c, 0);
    TakesUpTwo(cfg, m, inp);
    var s := Poll(cfg, InitialState(cfg).(queue := [m, m]), 0, inp).s;
    DropsTwo(cfg, s, m, inp);
    var (a, b) := ([InEnqueue(eth)], [InEnqueue(eth), InEnqueue(eth)]);
    RunMore(cfg, [], InEnqueue(eth));
    RunMore(cfg, a, InEnqueue(eth));
    RunMore(cfg, b, InPoll(0, inp));
    RunMore(cfg, b + [InPoll(0, inp)], InPoll(cfg.difsUs, inp));
    assert [] + a == a && a + a == b && TwoFrames(cfg, eth, c) == b + [InPoll(0, inp)] + [InPoll(cfg.difsUs, inp)];
    RunNothing(cfg);
    assert Run(cfg, TwoFrames(cfg, eth, c)).events == Poll(cfg, s, cfg.difsUs, inp).events;
  }

  ghost predicate AllChoose(ins: seq<Input>, c: TxChoice) {
    forall i | 0 <= i < |ins| && ins[i].InPoll? :: ins[i].inp.choice == c
  }

  /** So for a station that aggregates: no run at this choice drops an accepted frame unsent if and
      only if the choice is safe. */
  lemma {:induction false} RunsSafeIff(cfg: Config, c: TxChoice, dest: Addr)
    requires Aggregating(cfg) && Safe(cfg, FixedChoice(cfg)) && !IsGroup(dest)
    ensures (forall ins | AllChoose(ins, c) :: NoBuildFailure(Run(cfg, ins).events))
            <==> Safe(cfg, c)
  {
    hide Run, Safe, NoBuildFailure;
    if Safe(cfg, c) {
      forall ins | AllChoose(ins, c)
        ensures NoBuildFailure(Run(cfg, ins).events)
      {
        NeverUnbuildable(cfg, ins);
      }
    } else {
      UnsafeFails(cfg, c, dest);
    }
  }

  /** The first choice of a controller that adapts both and starts at the lowest MCS. */
  lemma {:induction false} FirstChoice(rcfg: Rate.RateConfig)
    requires rcfg.gi.Auto? && rcfg.coding.Auto? && rcfg.startMcs == rcfg.minMcs && rcfg.probeInterval > 1
    ensures Rate.Follow(rcfg, [Rate.OpSelect(0, 0)]).last == Some(TxChoice(Rate.McsOf(Rate.Lo(rcfg)), LongGi, BccCoding))
  {
    hide Rate.AirtimeSaving, Rate.McsOf, Rate.TrackOk;
    var op := Rate.OpSelect(0, 0);
    assert [op][..0] == [];
    var t := Rate.Follow(rcfg, []);
    assert t == Rate.Track(rcfg, Rate.NewPeer(rcfg), 0, 0, None);
    assert Rate.Follow(rcfg, [op]) == Rate.Apply(t, op);
  }

  /** Both ways to miss the conditions are real: with LDPC configured and a lowest MCS from 1 to 5,
      or with a lowest MCS off the ladder, for which the controller takes MCS 0, its first choice
      already makes a run that drops accepted frames unsent. */
  lemma {:induction false} ControllerFails(cfg: Config, rcfg: Rate.RateConfig, dest: Addr)
    requires Aggregating(cfg) && !IsGroup(dest) && LookupMcs(cfg.mcs).Some?
    requires rcfg.gi.Auto? && rcfg.coding.Auto? && rcfg.startMcs == rcfg.minMcs == cfg.minMcs && rcfg.probeInterval > 1
    requires (cfg.coding.LdpcCoding? && 1 <= cfg.minMcs <= 5 && cfg.minMcs <= cfg.mcs) || (9 <= cfg.minMcs <= 10 && 1 <= cfg.mcs <= 8)
    ensures exists ins :: Controlled(rcfg, ins) && !NoBuildFailure(Run(cfg, ins).events)
  {
    hide Rate.Follow, Run, Safe, NoBuildFailure;
    var c := TxChoice(Rate.McsOf(Rate.Lo(rcfg)), LongGi, BccCoding);
    FirstChoice(rcfg);
    UnsafeAtLowest(cfg, LongGi);
    UnsafeFails(cfg, c, dest);
    var eth :| !NoBuildFailure(Run(cfg, TwoFrames(cfg, eth, c)).events);
    assert Controlled(rcfg, TwoFrames(cfg, eth, c));
  }

  lemma {:induction false} UnsafeAtLowest(cfg: Config, gi: GuardInterval)
    requires cfg.rateEnabled && LookupMcs(cfg.mcs).Some?
    ensures cfg.coding.LdpcCoding? && 1 <= cfg.minMcs <= 5 && cfg.minMcs <= cfg.mcs ==> !Safe(cfg, TxChoice(cfg.minMcs, gi, BccCoding))
    ensures 9 <= cfg.minMcs <= 10 && 1 <= cfg.mcs <= 8 ==> !Safe(cfg, TxChoice(0, gi, BccCoding))
  {
    if 1 <= cfg.minMcs <= 5 && cfg.minMcs <= cfg.mcs {
      SameMcs(cfg.minMcs, cfg.coding, BccCoding);
    }
  }
}

/** The MAC engine as an object whose methods update its state in place; every method is proved to
    do what the functions of MacSpec say (crates/s2g-mac/src/engine.rs). */
module Mac {
  import opened Wrappers
  import opened Params
  import opened Words
  import opened Bits
  import opened Ndp
  import opened MacTypes
  import opened MacSpec
  import Ampdu
  import Geometry
  import MacInvariant

  /** Twelve bits. */
  type Sn = n: nat | n < SEQ_MOD

  lemma {:induction false} NumberedNext(queue: seq<Msdu>, n: nat, sn: Sn, id: nat)
    requires n < |queue|
    ensures Numbered(queue, n + 1, sn, id)
            == Numbered(queue, n, sn, id) + [PendingMpdu(id + n, (sn + n) % SEQ_MOD, queue[n].body, 0, 0)]
    ensures Numbered(queue, 0, sn, id) == []
  {
  }

  lemma {:induction false} NextSnIs(sn: Sn, n: nat)
    ensures NextSn((sn + n) % SEQ_MOD) == (sn + (n + 1)) % SEQ_MOD && sn % SEQ_MOD == sn
  {
  }

  class Mac {
    const cfg: Config
    var sn: Sn
    var queue: seq<Msdu>
    var cur: Option<Batch>
    var responses: seq<Response>
    var tx: TxState
    var medium: Medium
    var cwExp: nat
    var dedup: map<Addr, seq<nat>>
    var ident: IdentState
    var delay: Delay
    var egressDrops: nat
    var ingressDrops: nat
    // History.
    var nextId: nat
    var log: seq<Mpdu>

    function State(): MacState
      reads this
    {
      MacState(sn, queue, cur, responses, tx, medium, cwExp, dedup, ident, delay, egressDrops, ingressDrops, nextId, log)
    }

    constructor (cfg: Config)
      ensures this.cfg == cfg && State() == InitialState(cfg)
    {
      this.cfg := cfg;
      sn, queue, cur, responses, tx := 0, [], None, [], Idle;
      medium := Medium(false, 0, 0, 0, 0, false);
      cwExp, dedup := cfg.cwMinExp, map[];
      ident, delay := IdentState(None, false, 0), Delay(None, 0, 0, None);
      egressDrops, ingressDrops := 0, 0;
      nextId, log := 0, [];
    }

    // ---- Queueing ----

    method EnqueueEth(eth: seq<Octet>) returns (r: Result<(), MacError>)
      modifies this
      ensures (State(), r) == Enqueue(cfg, old(State()), eth)
    {
      hide Geometry.AggregatedCapacity;
      if cfg.egressFilter && !cfg.passes(eth) {
        egressDrops := egressDrops + 1;
        return Failure(EgressFiltered);
      }
      var parsed := ParseEthernet(eth);
      if parsed.None? {
        return Failure(BadEthernet);
      }
      if |queue| >= cfg.queueLimit {
        return Failure(QueueFull);
      }
      var m := parsed.value;
      var len := MpduLen(true, m.body);
      if len > PSDU_MAX_NO_AGG {
        if len > Ampdu.MAX_MPDU_LEN
           || Geometry.AggregatedCapacity(FloorMcs(cfg), Ampdu.PreEofLen(len), cfg.coding).Failure? {
          return Failure(FrameTooBig);
        }
      }
      queue := queue + [m];
      r := Success(());
    }

    // ---- Delays and back-off ----

    method UpdateResponseDelay(sample: nat)
      modifies this`delay
      ensures delay == UpdateDelay(old(delay), sample)
    {
      match delay.srttUs
      case None => delay := delay.(srttUs := Some(sample), rttvarUs := sample / 2);
      case Some(srtt) =>
        var err := if sample < srtt then srtt - sample else sample - srtt;
        delay := delay.(rttvarUs := (3 * delay.rttvarUs + err) / 4);
        delay := delay.(srttUs := Some((7 * srtt + sample) / 8));
    }

    method NoteLateResponse(now: nat)
      modifies this`delay
      ensures delay == NoteLate(cfg, old(delay), now)
    {
      if delay.late.Some? {
        var sample := Since(now, delay.late.value.1);
        delay := delay.(late := None);
        if sample <= 2 * cfg.ackTimeoutUs {
          UpdateResponseDelay(sample);
        }
      }
    }

    method BeginBackoff(now: nat, draw: nat)
      modifies this`tx, this`medium
      ensures State() == StartBackoff(cfg, old(State()), now, draw)
    {
      var idleAt := Max(Max(Max(now, medium.busyUntilUs), medium.navUntilUs), medium.ridUntilUs);
      var ifs := if medium.eifsPending then EifsUs(cfg) else cfg.difsUs;
      medium := medium.(eifsPending := false);
      tx := Backoff(idleAt + ifs + (draw % Pow2(cwExp)) * cfg.slotUs);
    }

    // ---- Attempts ----

    /** Complete what was acknowledged, retry or drop what was flown and was not. */
    method ResolveAttempt(acks: Acks, now: nat, draw: nat) returns (events: seq<MacEvent>)
      modifies this
      ensures Out(State(), events) == Resolve(cfg, old(State()), acks, now, draw)
    {
      hide StartBackoff, Acks.Covers;
      events := [];
      if cur.None? {
        return;
      }
      var b := cur.value;
      var kept: seq<PendingMpdu>, acked: nat, delivered: nat := [], 0, 0;
      for i := 0 to |b.mpdus|
        invariant Sweep(kept, events, acked, delivered) == SweepTo(b, b.inFlight, acks, cfg.maxRetries, i)
        invariant State() == old(State())
      {
        var m := b.mpdus[i];
        var flown := i in b.inFlight;
        if flown && acks.Covers(m.sn) {
          acked := acked + 1;
          delivered := delivered + MpduLen(b.qos, m.body);
          events := events + [TxComplete(MsduOf(b, m), true, m.retries, b.choice.mcs, m.id)];
        } else if flown {
          m := m.(retries := m.retries + 1);
          if m.retries > cfg.maxRetries {
            events := events + [TxDropped(MsduOf(b, m), RetryLimit, b.ident, m.id)];
          } else {
            kept := kept + [m];
          }
        } else {
          kept := kept + [m];
        }
      }
      var failed := acked < |b.inFlight|;
      var success := delivered > 0 && delivered >= b.lowerOctets;
      if |kept| == 0 {
        cur, tx, cwExp := None, Idle, cfg.cwMinExp;
        return;
      }
      b := Carry(b, kept).(rateFailures := if success then 0 else b.rateFailures + 1);
      if failed {
        b := b.(attempts := b.attempts + 1);
        cwExp := Min(cwExp + 1, cfg.cwMaxExp);
      } else {
        cwExp := cfg.cwMinExp;
      }
      cur := Some(b);
      BeginBackoff(now, draw);
    }

    /** The answer did not come. */
    method Fail(now: nat, draw: nat) returns (events: seq<MacEvent>)
      modifies this
      ensures Out(State(), events) == FailAttempt(cfg, old(State()), now, draw)
    {
      hide StartBackoff, Resolve, FailRts;
      if !tx.AwaitResponse? {
        events := ResolveAttempt(AckNone, now, draw);
        return;
      }
      delay := delay.(late := Some((tx.awaited, delay.sentEndUs)));
      if !tx.awaited.ExpectCts? {
        events := ResolveAttempt(AckNone, now, draw);
        return;
      }
      events := FailCts(now, draw);
    }

    /** An unanswered RTS says nothing about the data rate, but burns a retry of every frame. */
    method FailCts(now: nat, draw: nat) returns (events: seq<MacEvent>)
      modifies this
      ensures Out(State(), events) == FailRts(cfg, old(State()), now, draw)
    {
      hide StartBackoff;
      events := [];
      if cur.None? {
        return;
      }
      var b := cur.value;
      var still := [];
      for i := 0 to |b.mpdus|
        invariant SweepTo(b, Indices(|b.mpdus|), AckNone, cfg.maxRetries, i) == Sweep(still, events, 0, 0)
        invariant State() == old(State())
      {
        var m := b.mpdus[i].(retries := b.mpdus[i].retries + 1);
        if m.retries > cfg.maxRetries {
          events := events + [TxDropped(MsduOf(b, m), RetryLimit, b.ident, m.id)];
        } else {
          still := still + [m];
        }
      }
      if |still| == 0 {
        cur, tx, cwExp := None, Idle, cfg.cwMinExp;
      } else {
        cur := Some(Carry(b, still).(attempts := b.attempts + 1));
        cwExp := Min(cwExp + 1, cfg.cwMaxExp);
        BeginBackoff(now, draw);
      }
    }

    // ---- Reception ----

    /** Handle an NDP CMAC frame. */
    method HandleNdp(f: NdpFrame, now: nat, draw: nat) returns (events: seq<MacEvent>)
      modifies this
      ensures Out(State(), events) == OnNdp(cfg, old(State()), f, now, draw)
    {
      hide Resolve, UpdateDelay, NoteLate;
      events := [];
      var rid := NdpRidLength(cfg, f);
      if rid > 0 {
        medium := ExtendRid(medium, now + rid);
      }
      match f
      case Ack(ackId, _, idle, duration, _) =>
        if tx.AwaitResponse? && tx.awaited == ExpectNdpAck(ackId) {
          UpdateResponseDelay(Since(now, delay.sentEndUs));
          events := ResolveAttempt(AckAll, now, draw);
        } else if LateIs(delay, ExpectNdpAck(ackId)) {
          NoteLateResponse(now);
        }
        if !idle && duration > 0 {
          medium := ExtendNav(medium, now + duration);
        }
      case BlockAck(blockAckId, ssn, bitmap) =>
        if tx.AwaitResponse? && tx.awaited == ExpectBlockAck(blockAckId) {
          UpdateResponseDelay(Since(now, delay.sentEndUs));
          events := ResolveAttempt(AckBitmap(ssn, bitmap), now, draw);
        } else if LateIs(delay, ExpectBlockAck(blockAckId)) {
          NoteLateResponse(now);
        }
      case Cts(addressIndicator, ra, duration, _, _) =>
        if !addressIndicator && ra == PartialAid(cfg, cfg.addr) {
          if tx.AwaitResponse? && tx.awaited.ExpectCts? {
            UpdateResponseDelay(Since(now, delay.sentEndUs));
            if cur.Some? {
              cur := Some(cur.value.(ctsOk := true));
            }
            tx := Backoff(now);
          } else if delay.late.Some? && delay.late.value.0.ExpectCts? {
            NoteLateResponse(now);
          }
        } else if duration > 0 {
          medium := ExtendNav(medium, now + duration);
        }
      case Other(_, _) =>
    }

    /** Remember the sequence number; `true` if it was already known. */
    method NoteDuplicate(src: Addr, num: nat) returns (known: bool)
      modifies this`dedup
      ensures known == (num in SeenFrom(old(dedup), src))
      ensures dedup == if known then old(dedup) else Remember(old(dedup), src, num)
    {
      var seqs := if src in dedup then dedup[src] else [];
      if num in seqs {
        return true;
      }
      seqs := seqs + [num];
      if |seqs| > DEDUP_LEN {
        seqs := seqs[|seqs| - DEDUP_LEN..];
      }
      dedup := dedup[src := seqs];
      known := false;
    }

    method AnswerSingle(rx: RxInfo, m: Mpdu)
      modifies this`responses
      ensures State() == QueueAck(cfg, old(State()), rx, m)
    {
      match rx.response
      case NdpResponse =>
        var id := ComputeAckId(rx.seed, cfg.fcs(m));
        responses := responses + [RespondNdp(ToBody(Ack(id, false, false, 0, false)), Some(m))];
      case NormalResponse => responses := responses + [RespondAck(m.msdu.src)];
      case _ =>
    }

    /** Queue one block ack whose bit `d` stands for the sequence number `d` past the first. */
    method AnswerBlock(rx: RxInfo, last: Mpdu, sns: seq<nat>, ghost covered: seq<Mpdu>)
      requires |covered| > 0 && sns == Sns(covered) && last == covered[|covered| - 1]
      modifies this`responses
      ensures State() == QueueBlockAck(old(State()), rx, covered)
    {
      match rx.response
      case NdpResponse =>
        var bitmap := 0;
        for i := 0 to |sns|
          invariant bitmap == BitmapTo(sns, sns[0], i)
        {
          var d := SeqDiff(sns[i], sns[0]);
          if d < 16 {
            bitmap := SetBit(bitmap, d, true);
          }
        }
        responses := responses + [RespondNdp(ToBody(BlockAck(BlockAckId(rx.seed), sns[0] % SEQ_MOD, bitmap)), Some(last))];
      case NormalResponse => responses := responses + [RespondAck(last.msdu.src)];
      case _ =>
    }

    /** Handle a data MPDU; `covers` says whether the block ack must cover it. */
    method HandleData(m: Mpdu, noAck: bool, rx: RxInfo, blockAck: bool, now: nat) returns (events: seq<MacEvent>, covers: bool)
      modifies this
      ensures Out(State(), events) == OnData(cfg, old(State()), m, noAck, rx, blockAck, now)
      ensures covers == NeedsBlockAck(cfg, m, noAck, blockAck)
    {
      hide HandUp, QueueAck, ExtendNav;
      events, covers := [], false;
      if m.msdu.src == cfg.addr {
        return;
      }
      var forUs := m.msdu.dest == cfg.addr;
      if !forUs && !IsGroup(m.msdu.dest) {
        if m.durationUs > 0 {
          medium := ExtendNav(medium, now + m.durationUs);
        }
        return;
      }
      if forUs {
        medium := medium.(ridUntilUs := 0);
        if cfg.ackEnabled && !noAck {
          if blockAck {
            covers := true;
          } else {
            AnswerSingle(rx, m);
          }
        }
      }
      events := Deliver(m);
    }

    /** Report a data MPDU unless it is a duplicate. */
    method Deliver(m: Mpdu) returns (events: seq<MacEvent>)
      modifies this
      ensures Out(State(), events) == HandUp(cfg, old(State()), m)
    {
      hide IsIdent, ToEthernet, Remember, SeenFrom;
      events := [];
      var known := NoteDuplicate(m.msdu.src, m.sn);
      if known {
        return;
      }
      log := log + [m];
      if IsIdent(m.msdu.body) {
        events := [IdentReceived(m.msdu.src, m.msdu.body)];
      } else {
        var eth := ToEthernet(m.msdu);
        if eth.Some? {
          if cfg.ingressFilter && !cfg.passes(eth.value) {
            ingressDrops := ingressDrops + 1;
            events := [Filtered];
          } else {
            events := [EthReceived(eth.value, m.msdu.src, m.id)];
          }
        }
      }
    }

    method HandleFrame(f: Frame, rx: RxInfo, blockAck: bool, now: nat, draw: nat) returns (events: seq<MacEvent>, covers: bool)
      modifies this
      ensures Out(State(), events) == OnFrame(cfg, old(State()), f, rx, blockAck, now, draw)
      ensures covers == (f.DataFrame? && NeedsBlockAck(cfg, f.mpdu, f.noAck, blockAck))
    {
      hide Resolve, UpdateDelay, NoteLate, OnData, ToBody;
      events, covers := [], false;
      if !f.BrokenFrame? {
        medium := medium.(eifsPending := false);
      }
      match f
      case DataFrame(m, noAck) => events, covers := HandleData(m, noAck, rx, blockAck, now);
      case AckFrame(ra) =>
        if ra == cfg.addr {
          if tx.AwaitResponse? && tx.awaited.ExpectAck? {
            UpdateResponseDelay(Since(now, delay.sentEndUs));
            events := ResolveAttempt(AckAll, now, draw);
          } else if delay.late.Some? && delay.late.value.0.ExpectAck? {
            NoteLateResponse(now);
          }
        }
      case RtsFrame(ra, ta, duration) =>
        if ra == cfg.addr {
          medium := medium.(ridUntilUs := 0);
          responses := responses + [RespondNdp(ToBody(CtsFor(cfg, ta, duration)), None)];
        } else if duration > 0 {
          medium := ExtendNav(medium, now + duration);
        }
      case OtherFrame(duration) =>
        if duration > 0 {
          medium := ExtendNav(medium, now + duration);
        }
      case _ =>
    }

    /** Handle the frames of a PSDU and answer an A-MPDU with one block ack. */
    method HandlePsdu(rx: RxInfo, frames: seq<(Frame, bool)>, now: nat, draw: nat) returns (events: seq<MacEvent>)
      modifies this
      ensures Out(State(), events) == OnPsdu(cfg, old(State()), rx, frames, now, draw)
    {
      hide OnFrame, QueueBlockAck, ToBody;
      var sMpdu := rx.aggregation && |frames| == 1 && frames[0].1;
      var blockAck := rx.aggregation && !sMpdu;
      var last: Option<Mpdu>, sns: seq<nat> := None, [];
      ghost var covered: seq<Mpdu> := [];
      events := [];
      for i := 0 to |frames|
        invariant Out(State(), events) == OnFrames(cfg, old(State()), frames[..i], rx, blockAck, now, draw)
        invariant covered == AllBlockAcked(cfg, frames[..i], blockAck) && sns == Sns(covered)
        invariant |covered| > 0 ==> last == Some(covered[|covered| - 1])
      {
        assert frames[..i + 1][..i] == frames[..i];
        var more, covers := HandleFrame(frames[i].0, rx, blockAck, now, draw);
        events := events + more;
        if covers {
          last := Some(frames[i].0.mpdu);
          sns := sns + [frames[i].0.mpdu.sn];
          covered := covered + [frames[i].0.mpdu];
        }
      }
      assert frames[..|frames|] == frames;
      if |sns| > 0 {
        AnswerBlock(rx, last.value, sns, covered);
      }
    }

    method HandlePhyEvent(ev: PhyEvent, now: nat, draw: nat) returns (events: seq<MacEvent>)
      modifies this
      ensures Out(State(), events) == OnPhyEvent(cfg, old(State()), ev, now, draw)
    {
      hide OnNdp, Parse, OnPsdu, RidLength;
      events := [];
      match ev
      case Cca(busy, hold) =>
        medium := medium.(ccaBusy := busy);
        if busy && hold > 0 {
          medium := ExtendBusy(medium, now + hold);
        }
      case PpduStart => medium := ExtendBusy(medium, now + T_PREAMBLE_US);
      case RxStart(rx, duration) =>
        var end := now + Since(duration, T_PREAMBLE_US);
        medium := ExtendBusy(medium, end);
        medium := medium.(lastPpduEndUs := end);
        var rid := RidLength(cfg, rx);
        if rid > 0 {
          medium := ExtendRid(medium, end + rid);
        }
      case NdpHeard(body) =>
        var f := Parse(body);
        events := HandleNdp(f, now, draw);
        events := events + [NdpReceived(f)];
      case RxEnd(violation) =>
        if violation {
          medium := medium.(eifsPending := true);
        }
      case PsduHeard(rx, frames) => events := HandlePsdu(rx, frames, now, draw);
    }

    // ---- Transmission ----

    /** Choose how many MPDUs go into one PPDU: as many as fit, in order. */
    method ChooseAttempt(b: Batch, mcs: nat, coding: Coding) returns (plan: Option<Plan>)
      ensures plan == PlanAttempt(b, mcs, coding)
    {
      hide Geometry.AggregatedCapacity, Ampdu.PreEofOfLens, MpduLen;
      ghost var all := BatchLens(b);
      var lens: seq<nat>, most := [], Min(|b.mpdus|, AMPDU_MAX_MPDUS);
      var fits := true;
      while |lens| < most && fits
        invariant |lens| <= most && lens == all[..|lens|]
        invariant Grow(all, mcs, coding, 0) == if fits then Grow(all, mcs, coding, |lens|) else |lens|
        decreases most - |lens|, fits
      {
        var len := MpduLen(b.qos, b.mpdus[|lens|].body);
        var longer := lens + [len];
        assert longer == all[..|lens| + 1];
        fits := if |longer| == 1
                then len <= PSDU_MAX_NO_AGG || Geometry.AggregatedCapacity(mcs, Ampdu.PreEofLen(len), coding).Success?
                else Geometry.AggregatedCapacity(mcs, Ampdu.PreEofOfLens(longer), coding).Success?;
        if fits {
          lens := longer;
        }
      }
      if |lens| == 0 {
        return None;
      }
      if |lens| == 1 && lens[0] <= PSDU_MAX_NO_AGG {
        return Some(Plan(1, false, lens[0]));
      }
      var pre := if |lens| == 1 then Ampdu.PreEofLen(lens[0]) else Ampdu.PreEofOfLens(lens);
      match Geometry.AggregatedCapacity(mcs, pre, coding)
      case Success(cap) => plan := Some(Plan(|lens|, true, cap));
      case Failure(_) => plan := None;
    }

    /** Number one more frame. */
    method NextNumber(body: seq<Octet>) returns (m: PendingMpdu)
      modifies this`sn, this`nextId
      ensures m == PendingMpdu(old(nextId), old(sn), body, 0, 0)
      ensures sn == NextSn(old(sn)) && nextId == old(nextId) + 1
    {
      m := PendingMpdu(nextId, sn, body, 0, 0);
      sn := (sn + 1) % SEQ_MOD;
      nextId := nextId + 1;
    }

    /** Take up an identification when due, else a run of queued frames for one destination. */
    method TakeWork(now: nat, draw: nat)
      modifies this
      ensures State() == PullWork(cfg, old(State()), now, draw)
    {
      hide StartBackoff, Numbered, RunLength, IsGroup;
      if !(tx.Idle? && cur.None?) {
        return;
      }
      if IdentDue(cfg, State(), now) {
        var before := State();
        var m := NextNumber(cfg.identBody.value);
        cur := Some(NewBatch(cfg, before, BROADCAST, cfg.addr, [m], CONTROL_CHOICE, true));
        BeginBackoff(now, draw);
      } else if |queue| > 0 {
        TakeQueued(now, draw);
      }
    }

    /** Pull frames off the queue as long as they go between the same stations. */
    method PullRun(limit: nat) returns (mpdus: seq<PendingMpdu>)
      requires |queue| > 0 && limit > 0
      modifies this`sn, this`queue, this`nextId
      ensures var n := RunLength(old(queue), limit, 1);
              && n <= |old(queue)| && queue == old(queue)[n..] && mpdus == Numbered(old(queue), n, old(sn), old(nextId))
              && sn == (old(sn) + n) % SEQ_MOD && nextId == old(nextId) + n
    {
      hide IsGroup, Numbered, NextSn, BatchLimit, Pow2;
      ghost var all := queue;
      var first := queue[0];
      NumberedNext(all, 0, sn, nextId);
      NextSnIs(sn, 0);
      var m := NextNumber(first.body);
      mpdus := [m];
      queue := queue[1..];
      while |mpdus| < limit && |queue| > 0 && queue[0].dest == first.dest && queue[0].src == first.src
        invariant 1 <= |mpdus| <= limit && |mpdus| <= |all| && queue == all[|mpdus|..]
        invariant mpdus == Numbered(all, |mpdus|, old(sn), old(nextId))
        invariant RunLength(all, limit, 1) == RunLength(all, limit, |mpdus|)
        invariant sn == (old(sn) + |mpdus|) % SEQ_MOD && nextId == old(nextId) + |mpdus|
      {
        NumberedNext(all, |mpdus|, old(sn), old(nextId));
        NextSnIs(old(sn), |mpdus|);
        assert queue[0] == all[|mpdus|] && queue[1..] == all[|mpdus| + 1..];
        m := NextNumber(queue[0].body);
        mpdus := mpdus + [m];
        queue := queue[1..];
      }
    }

    method TakeQueued(now: nat, draw: nat)
      requires tx.Idle? && cur.None? && |queue| > 0 && !IdentDue(cfg, State(), now)
      modifies this
      ensures State() == PullWork(cfg, old(State()), now, draw)
    {
      hide StartBackoff, IsGroup, Numbered, RunLength, NewBatch;
      var before, first := State(), queue[0];
      var mpdus := PullRun(BatchLimit(cfg, first.dest));
      cur := Some(NewBatch(cfg, before, first.dest, first.src, mpdus, FixedChoice(cfg), false));
      BeginBackoff(now, draw);
    }

    /** Access the channel once the back-off is over and the medium idle. */
    method AccessChannel(now: nat, inp: PollInput) returns (events: seq<MacEvent>, action: Option<Action>)
      modifies this
      ensures PollOut(State(), events, action) == Access(cfg, old(State()), now, inp)
    {
      hide StartBackoff, MediumBusy, NeedRts, Reserve, Fly;
      events, action := [], None;
      if !tx.Backoff? || now < tx.untilUs || cur.None? {
        return;
      }
      if MediumBusy(medium, now) {
        BeginBackoff(now, inp.redraw);
        return;
      }
      var b := cur.value;
      if NeedRts(cfg, b) {
        action := SendRequest(b, now, inp);
      } else {
        events, action := SendBatch(b, now, inp);
      }
    }

    method SendRequest(b: Batch, now: nat, inp: PollInput) returns (action: Option<Action>)
      modifies this
      ensures PollOut(State(), [], action) == Reserve(cfg, old(State()), b, now, inp)
    {
      hide TxTime, NormalTxTime, ResponseTimeout, ResponseTime;
      var total := 0;
      for i := 0 to |b.mpdus|
        invariant total == TotalLen(b, i) && State() == old(State())
      {
        total := total + MpduLen(b.qos, b.mpdus[i].body);
      }
      var est := if cfg.rateEnabled then inp.estimate else FixedChoice(cfg);
      var dataTime := TxTime(est, total > PSDU_MAX_NO_AGG, Min(total, PSDU_MAX_NO_AGG), 10_000);
      var duration := A_SIFS_TIME_US + NDP_TX_TIME_US + A_SIFS_TIME_US + dataTime + A_SIFS_TIME_US + ResponseTime(cfg);
      var end := now + NormalTxTime(RTS_LEN);
      var timeout := ResponseTimeout(cfg, delay);
      delay := delay.(sentEndUs := end);
      tx := AwaitResponse(end + timeout, ExpectCts);
      action := Some(SendRts(b.dest, b.src, Min(duration, MAX_DURATION), inp.seed));
    }

    method SendBatch(b: Batch, now: nat, inp: PollInput) returns (events: seq<MacEvent>, action: Option<Action>)
      requires cur == Some(b)
      modifies this
      ensures PollOut(State(), events, action) == Fly(cfg, old(State()), b, now, inp)
    {
      hide PlanAttempt, PpduFor, Finish, Await, DroppedTo, WantAck;
      events := [];
      var choice := ChoiceFor(cfg, b, inp);
      var plan := ChooseAttempt(b, choice.mcs, choice.coding);
      if plan.None? {
        events := DropAll(b);
        cur, tx := None, Idle;
        return events, None;
      }
      MacInvariant.PlanCount(b, choice.mcs, choice.coding);
      var p := PpduFor(cfg, b, plan.value, choice, inp.seed);
      if WantAck(cfg, b) {
        AwaitAnswer(b, plan.value, p, now, inp);
      } else {
        events := FinishBatch(b, choice.mcs, now);
      }
      action := Some(SendData(p));
    }

    method DropAll(b: Batch) returns (events: seq<MacEvent>)
      ensures events == DroppedTo(b, |b.mpdus|)
    {
      events := [];
      for i := 0 to |b.mpdus|
        invariant events == DroppedTo(b, i)
      {
        events := events + [TxDropped(MsduOf(b, b.mpdus[i]), BuildFailed, b.ident, b.mpdus[i].id)];
      }
    }

    method AwaitAnswer(b: Batch, plan: Plan, p: Ppdu, now: nat, inp: PollInput)
      requires plan.count <= |b.mpdus| && |p.mpdus| > 0
      modifies this
      ensures State() == Await(cfg, old(State()), b, plan, p, now, inp)
    {
      hide TxTime, ResponseTimeout, AckId, BlockAckId, MarkFlown;
      var airtime := TxTime(p.choice, p.aggregated, p.psduLen, 10_000);
      var carried := 0;
      for i := 0 to plan.count
        invariant carried == TotalLen(b, i) && State() == old(State())
      {
        carried := carried + MpduLen(b.qos, b.mpdus[i].body);
      }
      var timeout := ResponseTimeout(cfg, delay);
      cur := Some(b.(mpdus := MarkFlown(b.mpdus, plan.count), inFlight := Indices(plan.count), choice := p.choice,
                     lowerOctets := Min(inp.lowerOctets, carried)));
      delay := delay.(sentEndUs := now + airtime);
      tx := AwaitResponse(now + airtime + timeout, ExpectFor(cfg, p));
      ident := ident.(sentSince := true, lastDataUs := now);
    }

    /** Nobody answers: report every frame of the batch as done. */
    method FinishBatch(b: Batch, mcs: nat, now: nat) returns (events: seq<MacEvent>)
      modifies this
      ensures Out(State(), events) == Finish(old(State()), b, mcs, now)
    {
      events := [];
      if b.ident && |b.mpdus| > 0 {
        events := [IdentSent(b.mpdus[0].body)];
        ident := ident.(lastUs := Some(now), sentSince := false);
      } else {
        for i := 0 to |b.mpdus|
          invariant events == CompletedTo(b, mcs, i) && State() == old(State())
        {
          var m := b.mpdus[i];
          events := events + [TxComplete(MsduOf(b, m), false, m.retries, mcs, m.id)];
        }
        ident := ident.(sentSince := true, lastDataUs := now);
      }
      cur, tx := None, Idle;
    }

    /** Pending responses first, then timeouts, new work and channel access. */
    method Advance(now: nat, inp: PollInput) returns (events: seq<MacEvent>, action: Option<Action>)
      modifies this
      ensures PollOut(State(), events, action) == Poll(cfg, old(State()), now, inp)
    {
      hide FailAttempt, PullWork, Access;
      events := [];
      if |responses| > 0 {
        action := Some(Respond(responses[0]));
        responses := responses[1..];
        return;
      }
      if tx.AwaitResponse? && now >= tx.deadlineUs {
        events := Fail(now, inp.draw);
      }
      TakeWork(now, inp.draw);
      var more;
      more, action := AccessChannel(now, inp);
      events := events + more;
    }
  }
}

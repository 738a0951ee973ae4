/** Medium access and station identification over whole runs (crates/s2g-mac/src/engine.rs). */
module MacMedium {
  import opened Wrappers
  import opened Params
  import opened Words
  import opened Bits
  import opened Ndp
  import opened MacTypes
  import opened MacSpec
  import opened MacInvariant
  import opened MacEvolution
  import Arith

  // ---- Never into a busy medium ----

  /** From `u` on nothing known keeps the medium busy. */
  predicate IdleFrom(m: Medium, now: nat, u: int) {
    now <= u && m.busyUntilUs <= u && m.navUntilUs <= u && m.ridUntilUs <= u
  }

  /** The back-off ends after the medium is known to be idle, an interframe space and at most the
      whole contention window. */
  lemma {:induction false} BackoffWindow(cfg: Config, s: MacState, now: nat, draw: nat)
    ensures var t := StartBackoff(cfg, s, now, draw);
            var ifs := if s.medium.eifsPending then A_SIFS_TIME_US + NDP_TX_TIME_US + cfg.difsUs else cfg.difsUs;
            && t.tx.Backoff?
            && IdleFrom(s.medium, now, t.tx.untilUs - ifs)
            && (forall u :: IdleFrom(s.medium, now, u) ==> t.tx.untilUs <= u + ifs + (Pow2(s.cwExp) - 1) * cfg.slotUs)
            && !t.medium.eifsPending
  {
    var slots := draw % Pow2(s.cwExp);
    Arith.MulNonneg(slots, cfg.slotUs);
    Arith.MulNonneg(Pow2(s.cwExp) - 1 - slots, cfg.slotUs);
    assert (Pow2(s.cwExp) - 1 - slots) * cfg.slotUs == (Pow2(s.cwExp) - 1) * cfg.slotUs - slots * cfg.slotUs;
  }

  /** Data and RTS go out only while carrier sense, NAV and RID all leave the medium idle; control
      responses take precedence and do not ask. */
  lemma {:induction false} SendsOnlyWhenIdle(cfg: Config, s: MacState, now: nat, inp: PollInput)
    requires Valid(cfg, s)
    ensures var a := Poll(cfg, s, now, inp).action;
            a.Some? && (a.value.SendData? || a.value.SendRts?) ==> !MediumBusy(s.medium, now)
  {
    hide Poll, Valid, MediumBusy;
    PollFacts(cfg, s, now, inp);
  }

  /** Whatever is heard, predicted busy time and NAV are only extended, and so is the RID unless
      something heard was addressed to this station. */
  lemma {:induction false} DeferralOnlyExtended(cfg: Config, s: MacState, ev: PhyEvent, now: nat, draw: nat)
    ensures Deferred(s.medium, OnPhyEvent(cfg, s, ev, now, draw).s.medium, ev.PsduHeard? && SomeAddressed(cfg, ev.frames))
  {
    hide OnPhyEvent;
    EventFacts(cfg, s, ev, now, draw);
  }

  // ---- What is heard reserves the medium ----

  /** End of the time a frame overheard reserves for the exchange of other stations, zero if it
      reserves none. */
  function Reserved(cfg: Config, f: Frame, now: nat): nat {
    match f
    case DataFrame(m, _) =>
      if m.msdu.src == cfg.addr || m.msdu.dest == cfg.addr || IsGroup(m.msdu.dest) || m.durationUs == 0 then 0 else now + m.durationUs
    case RtsFrame(ra, _, duration) => if ra == cfg.addr || duration == 0 then 0 else now + duration
    case OtherFrame(duration) => if duration == 0 then 0 else now + duration
    case _ => 0
  }

  /** The latest end that the frames of a PSDU reserve. */
  function PsduReserved(cfg: Config, frames: seq<(Frame, bool)>, now: nat): nat {
    if |frames| == 0 then 0 else Max(PsduReserved(cfg, frames[..|frames| - 1], now), Reserved(cfg, frames[|frames| - 1].0, now))
  }

  /** A CTS for another station and an Ack with a duration reserve the medium, too. */
  function NdpReserved(cfg: Config, f: NdpFrame, now: nat): nat {
    match f
    case Cts(bssid, ra, duration, _, _) => if (!bssid && ra == PartialAid(cfg, cfg.addr)) || duration == 0 then 0 else now + duration
    case Ack(_, _, idle, duration, _) => if idle || duration == 0 then 0 else now + duration
    case _ => 0
  }

  function EventReserved(cfg: Config, ev: PhyEvent, now: nat): nat {
    match ev
    case NdpHeard(body) => NdpReserved(cfg, Parse(body), now)
    case PsduHeard(_, frames) => PsduReserved(cfg, frames, now)
    case _ => 0
  }

  /** How long after a PPDU the response it announces ends. */
  function ResponseSpan(cfg: Config, rx: RxInfo): nat {
    match rx.response
    case NoResponse => 0
    case NdpResponse => A_SIFS_TIME_US + NDP_TX_TIME_US
    case NormalResponse => A_SIFS_TIME_US + NormalTxTime(if rx.aggregation then 32 else 14)
    case LongResponse => A_SIFS_TIME_US + cfg.longTxTimeUs
  }

  /** The same after an NDP: polls and probes are answered by an NDP or a long response, and so is
      an Ack that indicates data to come. */
  function NdpSpan(cfg: Config, f: NdpFrame): nat {
    match f
    case Ack(_, _, idle, duration, _) => if idle && duration == 0 then A_SIFS_TIME_US + cfg.longTxTimeUs else 0
    case Other(t, _) =>
      if t == TYPE_PS_POLL || t == TYPE_PROBE_REQUEST then A_SIFS_TIME_US + NDP_TX_TIME_US
      else if t == TYPE_BF_REPORT_POLL then A_SIFS_TIME_US + cfg.longTxTimeUs
      else 0
    case _ => 0
  }

  /** End of the response that is announced, zero if none is. */
  function EventAnnounced(cfg: Config, ev: PhyEvent, now: nat): nat {
    match ev
    case RxStart(rx, duration) => if rx.response.NoResponse? then 0 else now + Since(duration, T_PREAMBLE_US) + ResponseSpan(cfg, rx)
    case NdpHeard(body) => if NdpSpan(cfg, Parse(body)) == 0 then 0 else now + NdpSpan(cfg, Parse(body))
    case _ => 0
  }

  /** Until when the event itself tells of energy on the air, zero if it does not. */
  function EventOccupied(ev: PhyEvent, now: nat): nat {
    match ev
    case Cca(busy, hold) => if busy && hold > 0 then now + hold else 0
    case PpduStart => now + T_PREAMBLE_US
    case RxStart(_, duration) => now + Since(duration, T_PREAMBLE_US)
    case _ => 0
  }

  /** Something heard is addressed to this station. */
  ghost predicate Addressed(cfg: Config, ev: PhyEvent) {
    ev.PsduHeard? && SomeAddressed(cfg, ev.frames)
  }

  /** NAV, RID and busy time are extended to exactly these ends; the RID is reset for a responder. */
  ghost predicate Extended(cfg: Config, m: Medium, n: Medium, ev: PhyEvent, now: nat) {
    && n.navUntilUs == Max(m.navUntilUs, EventReserved(cfg, ev, now))
    && n.ridUntilUs == (if Addressed(cfg, ev) then 0 else Max(m.ridUntilUs, EventAnnounced(cfg, ev, now)))
    && n.busyUntilUs == Max(m.busyUntilUs, EventOccupied(ev, now))
    && n.ccaBusy == if ev.Cca? then ev.busy else m.ccaBusy
  }

  lemma {:induction false} FrameReserves(cfg: Config, s: MacState, f: Frame, rx: RxInfo, blockAck: bool, now: nat, draw: nat)
    ensures var m := OnFrame(cfg, s, f, rx, blockAck, now, draw).s.medium;
            && m.navUntilUs == Max(s.medium.navUntilUs, Reserved(cfg, f, now))
            && m.ridUntilUs == (if AddressedToUs(cfg, f) then 0 else s.medium.ridUntilUs)
            && m.busyUntilUs == s.medium.busyUntilUs && m.ccaBusy == s.medium.ccaBusy
  {
    hide Resolve, OnData, NoteLate, UpdateDelay, ToBody, CtsFor;
    var t := s.(medium := s.medium.(eifsPending := false));
    if f.DataFrame? {
      DataReserves(cfg, t, f, rx, blockAck, now);
    }
    ResolveFacts(cfg, t.(delay := NoteResponse(t.delay, now)), AckAll, now, draw);
  }

  lemma {:induction false} DataReserves(cfg: Config, s: MacState, f: Frame, rx: RxInfo, blockAck: bool, now: nat)
    requires f.DataFrame?
    ensures var m := OnData(cfg, s, f.mpdu, f.noAck, rx, blockAck, now).s.medium;
            && m.navUntilUs == Max(s.medium.navUntilUs, Reserved(cfg, f, now))
            && m.ridUntilUs == (if AddressedToUs(cfg, f) then 0 else s.medium.ridUntilUs)
            && m.busyUntilUs == s.medium.busyUntilUs && m.ccaBusy == s.medium.ccaBusy
  {
    hide Delivery, ToBody, AckId, Remember;
  }

  lemma {:induction false} FramesReserve(cfg: Config, s: MacState, frames: seq<(Frame, bool)>, rx: RxInfo, blockAck: bool, now: nat, draw: nat)
    ensures var m := OnFrames(cfg, s, frames, rx, blockAck, now, draw).s.medium;
            && m.navUntilUs == Max(s.medium.navUntilUs, PsduReserved(cfg, frames, now))
            && m.ridUntilUs == (if SomeAddressed(cfg, frames) then 0 else s.medium.ridUntilUs)
            && m.busyUntilUs == s.medium.busyUntilUs && m.ccaBusy == s.medium.ccaBusy
  {
    hide OnFrame, AddressedToUs, Reserved;
    if |frames| > 0 {
      var n := |frames| - 1;
      FramesReserve(cfg, s, frames[..n], rx, blockAck, now, draw);
      FrameReserves(cfg, OnFrames(cfg, s, frames[..n], rx, blockAck, now, draw).s, frames[n].0, rx, blockAck, now, draw);
      if SomeAddressed(cfg, frames[..n]) {
        var i :| 0 <= i < n && AddressedToUs(cfg, frames[..n][i].0);
        assert AddressedToUs(cfg, frames[i].0);
      }
    }
  }

  lemma {:induction false} NdpReserves(cfg: Config, s: MacState, f: NdpFrame, now: nat, draw: nat)
    ensures var m := OnNdp(cfg, s, f, now, draw).s.medium;
            && m.navUntilUs == Max(s.medium.navUntilUs, NdpReserved(cfg, f, now))
            && m.ridUntilUs == Max(s.medium.ridUntilUs, if NdpSpan(cfg, f) == 0 then 0 else now + NdpSpan(cfg, f))
            && m.busyUntilUs == s.medium.busyUntilUs && m.ccaBusy == s.medium.ccaBusy
  {
    hide Resolve, NoteLate, UpdateDelay, PartialAid;
    var rid := NdpRidLength(cfg, f);
    var t := if rid > 0 then s.(medium := ExtendRid(s.medium, now + rid)) else s;
    var d := t.(delay := NoteResponse(t.delay, now));
    match f
    case Ack(_, _, _, _, _) => ResolveFacts(cfg, d, AckAll, now, draw);
    case BlockAck(_, ssn, bitmap) => ResolveFacts(cfg, d, AckBitmap(ssn, bitmap), now, draw);
    case _ =>
  }

  /** Virtual carrier sense is exact: whatever is heard extends NAV, RID and busy time to exactly the
      end of the exchange, of the response announced and of the energy on the air. */
  lemma {:induction false} DeferralExact(cfg: Config, s: MacState, ev: PhyEvent, now: nat, draw: nat)
    ensures Extended(cfg, s.medium, OnPhyEvent(cfg, s, ev, now, draw).s.medium, ev, now)
  {
    hide OnFrames, OnNdp, Parse, NdpReserved, NdpSpan, PsduReserved, AllBlockAcked, WantsBlockAck, BlockAckFor, ToBody, SomeAddressed, NormalTxTime;
    match ev
    case NdpHeard(body) => NdpReserves(cfg, s, Parse(body), now, draw);
    case PsduHeard(rx, frames) => FramesReserve(cfg, s, frames, rx, WantsBlockAck(rx, frames), now, draw);
    case _ =>
  }

  ghost predicate AllBroken(frames: seq<(Frame, bool)>) {
    forall i | 0 <= i < |frames| :: frames[i].0.BrokenFrame?
  }

  lemma {:induction false} ResolveEifs(cfg: Config, s: MacState, acks: Acks, now: nat, draw: nat)
    ensures Resolve(cfg, s, acks, now, draw).s.medium.eifsPending ==> s.medium.eifsPending
    ensures s.cur.None? ==> Resolve(cfg, s, acks, now, draw).s == s
  {
    hide SweepTo;
  }

  lemma {:induction false} FrameEifs(cfg: Config, s: MacState, f: Frame, rx: RxInfo, blockAck: bool, now: nat, draw: nat)
    ensures OnFrame(cfg, s, f, rx, blockAck, now, draw).s.medium.eifsPending == (s.medium.eifsPending && f.BrokenFrame?)
  {
    hide Resolve, NoteLate, UpdateDelay, Delivery, ToBody, AckId, Remember, CtsFor;
    var t := s.(medium := s.medium.(eifsPending := false));
    ResolveEifs(cfg, t.(delay := NoteResponse(t.delay, now)), AckAll, now, draw);
  }

  lemma {:induction false} FramesEifs(cfg: Config, s: MacState, frames: seq<(Frame, bool)>, rx: RxInfo, blockAck: bool, now: nat, draw: nat)
    ensures OnFrames(cfg, s, frames, rx, blockAck, now, draw).s.medium.eifsPending == (s.medium.eifsPending && AllBroken(frames))
  {
    hide OnFrame;
    if |frames| > 0 {
      var n := |frames| - 1;
      FramesEifs(cfg, s, frames[..n], rx, blockAck, now, draw);
      FrameEifs(cfg, OnFrames(cfg, s, frames[..n], rx, blockAck, now, draw).s, frames[n].0, rx, blockAck, now, draw);
      if AllBroken(frames[..n]) && frames[n].0.BrokenFrame? {
        forall i | 0 <= i < |frames|
          ensures frames[i].0.BrokenFrame?
        {
          assert i < n ==> frames[i] == frames[..n][i];
        }
      }
    }
  }

  /** The longer interframe space is due exactly from a format violation until a frame arrives whole
      or the next back-off is drawn. */
  lemma {:induction false} EifsExact(cfg: Config, s: MacState, ev: PhyEvent, now: nat, draw: nat)
    ensures var (due, next) := (s.medium.eifsPending, OnPhyEvent(cfg, s, ev, now, draw).s.medium.eifsPending);
            match ev
            case RxEnd(violation) => next == (due || violation)
            case PsduHeard(_, frames) => next == (due && AllBroken(frames))
            case NdpHeard(_) => (next ==> due) && (!s.tx.AwaitResponse? ==> next == due)
            case _ => next == due
  {
    hide OnFrames, AllBlockAcked, WantsBlockAck, BlockAckFor, ToBody, Parse, Resolve, NoteLate, UpdateDelay;
    match ev
    case PsduHeard(rx, frames) => FramesEifs(cfg, s, frames, rx, WantsBlockAck(rx, frames), now, draw);
    case NdpHeard(body) =>
      var rid := NdpRidLength(cfg, Parse(body));
      var t := if rid > 0 then s.(medium := ExtendRid(s.medium, now + rid)) else s;
      forall acks
        ensures Resolve(cfg, t.(delay := NoteResponse(t.delay, now)), acks, now, draw).s.medium.eifsPending ==> s.medium.eifsPending
      {
        ResolveEifs(cfg, t.(delay := NoteResponse(t.delay, now)), acks, now, draw);
      }
    case _ =>
  }

  /** An input after the `j`-th is addressed to this station. */
  ghost predicate AddressedAfter(cfg: Config, ins: seq<Input>, j: nat) {
    exists k :: j < k < |ins| && ins[k].InPhy? && Addressed(cfg, ins[k].ev)
  }

  /** Nothing heard in the run reserves the medium past `m`, but for responses announced before the
      station was itself addressed. */
  ghost predicate Honours(cfg: Config, ins: seq<Input>, m: Medium) {
    forall j | 0 <= j < |ins| && ins[j].InPhy? ::
      && EventReserved(cfg, ins[j].ev, ins[j].now) <= m.navUntilUs
      && EventOccupied(ins[j].ev, ins[j].now) <= m.busyUntilUs
      && (AddressedAfter(cfg, ins, j) || Addressed(cfg, ins[j].ev) || EventAnnounced(cfg, ins[j].ev, ins[j].now) <= m.ridUntilUs)
  }

  lemma {:induction false} HonoursNext(cfg: Config, ins: seq<Input>, m: Medium, n: Medium)
    requires |ins| > 0 && Honours(cfg, ins[..|ins| - 1], m)
    requires var i := ins[|ins| - 1];
             if i.InPhy? then Extended(cfg, m, n, i.ev, i.now)
             else n.navUntilUs == m.navUntilUs && n.busyUntilUs == m.busyUntilUs && n.ridUntilUs == m.ridUntilUs
    ensures Honours(cfg, ins, n)
  {
    hide EventReserved, EventOccupied, EventAnnounced, Addressed;
    var before := ins[..|ins| - 1];
    forall j | 0 <= j < |ins| && ins[j].InPhy?
      ensures && EventReserved(cfg, ins[j].ev, ins[j].now) <= n.navUntilUs
              && EventOccupied(ins[j].ev, ins[j].now) <= n.busyUntilUs
              && (AddressedAfter(cfg, ins, j) || Addressed(cfg, ins[j].ev) || EventAnnounced(cfg, ins[j].ev, ins[j].now) <= n.ridUntilUs)
    {
      if j < |ins| - 1 {
        assert before[j] == ins[j];
        if AddressedAfter(cfg, before, j) {
          var k :| j < k < |before| && before[k].InPhy? && Addressed(cfg, before[k].ev);
          assert ins[k] == before[k];
        }
      }
    }
  }

  lemma {:induction false} RunHonours(cfg: Config, ins: seq<Input>)
    ensures Honours(cfg, ins, Run(cfg, ins).s.medium)
  {
    hide Valid, Enqueue, OnPhyEvent, Poll, Honours, Extended;
    if |ins| == 0 {
      NothingHonoured(cfg, Run(cfg, ins).s.medium);
    } else {
      var (before, i) := (ins[..|ins| - 1], ins[|ins| - 1]);
      RunHonours(cfg, before);
      RunValid(cfg, before);
      var s := Run(cfg, before).s;
      match i {
        case InEnqueue(eth) => EnqueueMedium(cfg, s, eth);
        case InPhy(ev, now, draw) => DeferralExact(cfg, s, ev, now, draw);
        case InPoll(now, inp) => PollFacts(cfg, s, now, inp);
      }
      HonoursNext(cfg, ins, s.medium, Run(cfg, ins).s.medium);
    }
  }

  lemma {:induction false} NothingHonoured(cfg: Config, m: Medium)
    ensures Honours(cfg, [], m)
  {
  }

  lemma {:induction false} EnqueueMedium(cfg: Config, s: MacState, eth: seq<Octet>)
    ensures Enqueue(cfg, s, eth).0.medium == s.medium
  {
    hide Admissible, ParseEthernet;
  }

  /** No collision with what was heard: on every run, data and RTS go out only after every exchange
      that something overheard reserved, after the air was last known to be occupied, and after
      every response announced since the station was last addressed itself. */
  lemma {:induction false} DefersToAll(cfg: Config, ins: seq<Input>, now: nat, inp: PollInput, j: nat)
    requires j < |ins| && ins[j].InPhy?
    ensures var a := Poll(cfg, Run(cfg, ins).s, now, inp).action;
            a.Some? && (a.value.SendData? || a.value.SendRts?) ==>
              && EventReserved(cfg, ins[j].ev, ins[j].now) <= now
              && EventOccupied(ins[j].ev, ins[j].now) <= now
              && (AddressedAfter(cfg, ins, j) || Addressed(cfg, ins[j].ev) || EventAnnounced(cfg, ins[j].ev, ins[j].now) <= now)
  {
    hide Run, Poll, Valid, EventReserved, EventOccupied, EventAnnounced, Addressed, AddressedAfter;
    RunValid(cfg, ins);
    RunHonours(cfg, ins);
    SendsOnlyWhenIdle(cfg, Run(cfg, ins).s, now, inp);
  }

  // ---- Identification first ----

  /** Data is taken up only within the identification interval. */
  lemma {:induction false} IdentFresh(cfg: Config, s: MacState, now: nat, draw: nat)
    requires cfg.identBody.Some? && s.cur.None?
    ensures var t := PullWork(cfg, s, now, draw);
            t.cur.Some? && !t.cur.value.ident ==> s.ident.lastUs.Some? && Since(now, s.ident.lastUs.value) < cfg.identIntervalUs
  {
    hide PullWork;
    PullWorkFacts(cfg, s, now, draw);
  }

  /** An identification is on record only if one was sent, and data is worked on only then. */
  lemma {:induction false} RunIdentified(cfg: Config, ins: seq<Input>)
    ensures var o := Run(cfg, ins); Identified(cfg, o.s) && (o.s.ident.lastUs.Some? ==> SentIdent(o.events))
  {
    hide Valid, Enqueue, OnPhyEvent, Poll, SentIdent;
    if |ins| > 0 {
      var (before, i) := (ins[..|ins| - 1], ins[|ins| - 1]);
      RunIdentified(cfg, before);
      RunValid(cfg, before);
      var o := Run(cfg, before);
      var p := Step(cfg, o.s, i);
      ConcatIdent(o.events, p.events);
      match i
      case InEnqueue(eth) => EnqueueFacts(cfg, o.s, eth);
      case InPhy(ev, now, draw) => EventFacts(cfg, o.s, ev, now, draw);
      case InPoll(now, inp) => PollFacts(cfg, o.s, now, inp);
    }
  }

  /** Identification comes first: on every run of a station with a call sign, a poll that sends data
      is preceded by the report of an identification sent earlier in the run, or its batch is one. */
  lemma {:induction false} IdentifiedBeforeData(cfg: Config, ins: seq<Input>, now: nat, inp: PollInput)
    requires cfg.identBody.Some?
    ensures var (o, a) := (Run(cfg, ins), Poll(cfg, Run(cfg, ins).s, now, inp).action);
            a.Some? && a.value.SendData? ==>
              var t := Prepared(cfg, o.s, now, inp); t.cur.Some? && (t.cur.value.ident || SentIdent(o.events))
  {
    hide Run, Timeout, PullWork, Poll, SentIdent, Valid;
    RunIdentified(cfg, ins);
    RunValid(cfg, ins);
    var s := Run(cfg, ins).s;
    PollFacts(cfg, s, now, inp);
    TimeoutFacts(cfg, s, now, inp.draw);
    PullWorkFacts(cfg, Timeout(cfg, s, now, inp.draw).s, now, inp.draw);
  }
}

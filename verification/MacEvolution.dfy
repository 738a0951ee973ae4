/** How a step changes the batch of a station, what it sends and what it logs. */
module MacEvolution {
  import opened Wrappers
  import opened Ndp
  import opened MacTypes
  import opened MacSpec
  import opened MacInvariant
  import Bits

  // ---- Batches ----

  ghost predicate Has(b: Batch, id: nat, body: seq<Bits.Octet>) {
    exists i :: 0 <= i < |b.mpdus| && b.mpdus[i].id == id && b.mpdus[i].body == body
  }

  /** `c` is what is left of `b`. */
  ghost predicate LeftOf(b: Batch, c: Batch) {
    && c.base == b.base && c.dest == b.dest && c.src == b.src
    && AllIn(b, c.mpdus)
  }

  /** Ids only grow, and the batch is what is left of the old one or begins with a new id. */
  ghost predicate Evolves(s: MacState, t: MacState) {
    && s.nextId <= t.nextId
    && (t.cur.Some? ==> (s.cur.Some? && LeftOf(s.cur.value, t.cur.value)) || t.cur.value.base >= s.nextId)
  }

  lemma {:induction false} LeftOfSame(b: Batch, c: Batch)
    requires c.base == b.base && c.dest == b.dest && c.src == b.src && |c.mpdus| == |b.mpdus|
    requires forall i | 0 <= i < |c.mpdus| :: c.mpdus[i].id == b.mpdus[i].id && c.mpdus[i].body == b.mpdus[i].body
    ensures LeftOf(b, c)
  {
    forall i | 0 <= i < |c.mpdus|
      ensures Has(b, c.mpdus[i].id, c.mpdus[i].body)
    {
      assert b.mpdus[i].id == c.mpdus[i].id;
    }
  }

  lemma {:induction false} LeftOfTransitive(a: Batch, b: Batch, c: Batch)
    requires LeftOf(a, b) && LeftOf(b, c)
    ensures LeftOf(a, c)
  {
    forall i | 0 <= i < |c.mpdus|
      ensures Has(a, c.mpdus[i].id, c.mpdus[i].body)
    {
      assert Has(b, c.mpdus[i].id, c.mpdus[i].body);
      var j :| 0 <= j < |b.mpdus| && b.mpdus[j].id == c.mpdus[i].id && b.mpdus[j].body == c.mpdus[i].body;
      assert Has(a, b.mpdus[j].id, b.mpdus[j].body);
    }
  }

  lemma {:induction false} EvolvesTransitive(s: MacState, t: MacState, u: MacState)
    requires Evolves(s, t) && Evolves(t, u)
    ensures Evolves(s, u)
  {
    hide LeftOf;
    if u.cur.Some? && t.cur.Some? && s.cur.Some? && LeftOf(s.cur.value, t.cur.value) && LeftOf(t.cur.value, u.cur.value) {
      LeftOfTransitive(s.cur.value, t.cur.value, u.cur.value);
    } else if u.cur.Some? && t.cur.Some? && LeftOf(t.cur.value, u.cur.value) {
      BaseKept(t.cur.value, u.cur.value);
    }
  }

  lemma {:induction false} BaseKept(b: Batch, c: Batch)
    requires LeftOf(b, c)
    ensures c.base == b.base
  {
  }

  lemma {:induction false} EvolvesSame(s: MacState, t: MacState)
    requires s.nextId <= t.nextId && (t.cur == s.cur || t.cur.None?)
    ensures Evolves(s, t)
  {
    if t.cur.Some? {
      LeftOfSame(s.cur.value, t.cur.value);
    }
  }

  // ---- What a sweep keeps and reports ----

  /** Neither an acknowledged frame nor a hand-up. */
  predicate Quiet(e: MacEvent) {
    !(e.TxComplete? && e.acked) && !e.EthReceived?
  }

  predicate IsHandUp(e: MacEvent) {
    e.EthReceived?
  }

  predicate NoHandUp(events: seq<MacEvent>) {
    forall i | 0 <= i < |events| :: !IsHandUp(events[i])
  }

  predicate IsBuildFailure(e: MacEvent) {
    e.TxDropped? && e.reason.BuildFailed? && !e.ident
  }

  predicate NoBuildFailure(events: seq<MacEvent>) {
    forall i | 0 <= i < |events| :: !IsBuildFailure(events[i])
  }

  predicate Silent(events: seq<MacEvent>) {
    forall i | 0 <= i < |events| :: Quiet(events[i])
  }

  ghost predicate AllIn(b: Batch, q: seq<PendingMpdu>) {
    forall i | 0 <= i < |q| :: Has(b, q[i].id, q[i].body)
  }

  ghost predicate AllReported(b: Batch, flown: seq<nat>, acks: Acks, events: seq<MacEvent>) {
    forall i | 0 <= i < |events| :: Reported(b, flown, acks, events[i])
  }

  /** A reported acknowledgment is of a frame flown and covered. */
  ghost predicate Reported(b: Batch, flown: seq<nat>, acks: Acks, e: MacEvent) {
    e.TxComplete? && e.acked ==>
      exists i: nat :: i < |b.mpdus| && i in flown && acks.Covers(b.mpdus[i].sn) && e.id == b.mpdus[i].id && e.msdu == MsduOf(b, b.mpdus[i])
  }

  lemma {:induction false} SweepFrom(b: Batch, flown: seq<nat>, acks: Acks, maxRetries: nat, n: nat)
    requires n <= |b.mpdus|
    ensures var w := SweepTo(b, flown, acks, maxRetries, n);
            AllIn(b, w.kept) && AllReported(b, flown, acks, w.events) && NoHandUp(w.events) && NoBuildFailure(w.events)
  {
    hide Acks.Covers, Has, Reported;
    if n > 0 {
      SweepFrom(b, flown, acks, maxRetries, n - 1);
      var m := b.mpdus[n - 1];
      assert Has(b, m.id, m.body) by { HasOwn(b, n - 1); }
      forall e | e == TxDropped(MsduOf(b, m), RetryLimit, b.ident, m.id)
                 || (e == TxComplete(MsduOf(b, m), true, m.retries, b.choice.mcs, m.id) && n - 1 in flown && acks.Covers(m.sn))
        ensures Reported(b, flown, acks, e)
      {
        ReportedOwn(b, flown, acks, n - 1, e);
      }
    }
  }

  lemma {:induction false} HasOwn(b: Batch, i: nat)
    requires i < |b.mpdus|
    ensures Has(b, b.mpdus[i].id, b.mpdus[i].body)
  {
  }

  lemma {:induction false} ReportedOwn(b: Batch, flown: seq<nat>, acks: Acks, i: nat, e: MacEvent)
    requires i < |b.mpdus|
    requires e.TxComplete? ==> i in flown && acks.Covers(b.mpdus[i].sn) && e.msdu == MsduOf(b, b.mpdus[i]) && e.id == b.mpdus[i].id
    ensures Reported(b, flown, acks, e)
  {
  }

  // ---- What a step leaves alone ----

  /** What a station has received is untouched. */
  ghost predicate SameLog(s: MacState, t: MacState) {
    t.log == s.log && t.dedup == s.dedup
  }

  /** Whoever awaits an answer afterwards already did, for the same attempt. */
  ghost predicate AwaitKept(s: MacState, t: MacState) {
    t.tx.AwaitResponse? ==> t.tx == s.tx && t.cur == s.cur
  }

  /** The identification record is kept, and an identification batch is not made of another. */
  ghost predicate SameIdent(s: MacState, t: MacState) {
    t.ident == s.ident && (t.cur.Some? ==> s.cur.Some? && t.cur.value.ident == s.cur.value.ident)
  }

  /** Neither horizon shrinks, but the RID may be reset for a responder. */
  ghost predicate Deferred(m: Medium, n: Medium, responder: bool) {
    && m.busyUntilUs <= n.busyUntilUs && m.navUntilUs <= n.navUntilUs
    && (m.ridUntilUs <= n.ridUntilUs || responder)
  }

  /** The sending side goes on as it was, with less of its batch or none. */
  ghost predicate Calm(s: MacState, t: MacState) {
    t.nextId == s.nextId && Evolves(s, t) && AwaitKept(s, t) && SameIdent(s, t)
  }

  /** Nothing received, nothing to answer. */
  ghost predicate Unmoved(s: MacState, o: Out) {
    SameLog(s, o.s) && NoHandUp(o.events)
  }

  lemma {:induction false} CalmTransitive(s: MacState, t: MacState, u: MacState)
    requires Calm(s, t) && Calm(t, u)
    ensures Calm(s, u)
  {
    hide Evolves;
    EvolvesTransitive(s, t, u);
  }

  lemma {:induction false} CalmSame(s: MacState, t: MacState)
    requires t.nextId == s.nextId && t.ident == s.ident && t.cur == s.cur && t.tx == s.tx
    ensures Calm(s, t)
  {
    hide LeftOf;
    EvolvesSame(s, t);
  }

  /** What resolving an attempt does not do. */
  lemma {:induction false} ResolveFacts(cfg: Config, s: MacState, acks: Acks, now: nat, draw: nat)
    ensures var o := Resolve(cfg, s, acks, now, draw);
            && Calm(s, o.s) && Unmoved(s, o) && NoBuildFailure(o.events) && o.s.responses == s.responses
            && o.s.medium == s.medium.(eifsPending := o.s.medium.eifsPending)
  {
    hide SweepTo, Has;
    CalmSame(s, s);
    if s.cur.Some? {
      SweepFrom(s.cur.value, s.cur.value.inFlight, acks, cfg.maxRetries, |s.cur.value.mpdus|);
    }
  }

  lemma {:induction false} ResolveNoneSilent(cfg: Config, s: MacState, now: nat, draw: nat)
    ensures Silent(Resolve(cfg, s, AckNone, now, draw).events)
  {
    hide SweepTo, StartBackoff;
    NothingReported();
    if s.cur.Some? {
      SweepNone(s.cur.value, s.cur.value.inFlight, cfg.maxRetries);
    }
  }

  lemma {:induction false} FailRtsFacts(cfg: Config, s: MacState, now: nat, draw: nat)
    ensures var o := FailRts(cfg, s, now, draw);
            && Calm(s, o.s) && Unmoved(s, o) && NoBuildFailure(o.events) && o.s.responses == s.responses && Silent(o.events)
            && o.s.medium == s.medium.(eifsPending := o.s.medium.eifsPending)
  {
    hide SweepTo, Has, NoHandUp, NoBuildFailure, Silent;
    CalmSame(s, s);
    NothingReported();
    if s.cur.Some? {
      SweepNone(s.cur.value, Indices(|s.cur.value.mpdus|), cfg.maxRetries);
    }
  }

  /** What a failed attempt does not do: in particular it acknowledges nothing. */
  lemma {:induction false} FailAttemptFacts(cfg: Config, s: MacState, now: nat, draw: nat)
    ensures var o := FailAttempt(cfg, s, now, draw);
            && Calm(s, o.s) && Unmoved(s, o) && NoBuildFailure(o.events) && o.s.responses == s.responses && Silent(o.events)
            && o.s.medium == s.medium.(eifsPending := o.s.medium.eifsPending)
  {
    hide Resolve, FailRts, Calm, NoHandUp, NoBuildFailure, Silent;
    var late := Some((if s.tx.AwaitResponse? then s.tx.awaited else ExpectCts, s.delay.sentEndUs));
    var t := if s.tx.AwaitResponse? then s.(delay := s.delay.(late := late)) else s;
    CalmSame(s, t);
    ResolveFacts(cfg, t, AckNone, now, draw);
    ResolveNoneSilent(cfg, t, now, draw);
    FailRtsFacts(cfg, t, now, draw);
    CalmTransitive(s, t, FailAttempt(cfg, s, now, draw).s);
  }

  lemma {:induction false} NothingReported()
    ensures Silent([]) && NoHandUp([]) && NoBuildFailure([])
  {
  }

  /** A sweep without acknowledgment. */
  lemma {:induction false} SweepNone(b: Batch, flown: seq<nat>, maxRetries: nat)
    ensures var w := SweepTo(b, flown, AckNone, maxRetries, |b.mpdus|);
            AllIn(b, w.kept) && Silent(w.events) && NoHandUp(w.events) && NoBuildFailure(w.events)
  {
    hide SweepTo, Has, AllReported;
    SweepFrom(b, flown, AckNone, maxRetries, |b.mpdus|);
    ReportedNone(b, flown, SweepTo(b, flown, AckNone, maxRetries, |b.mpdus|).events);
  }

  lemma {:induction false} ReportedNone(b: Batch, flown: seq<nat>, events: seq<MacEvent>)
    requires AllReported(b, flown, AckNone, events) && NoHandUp(events)
    ensures Silent(events)
  {
    forall i | 0 <= i < |events|
      ensures Quiet(events[i])
    {
      assert Reported(b, flown, AckNone, events[i]);
    }
  }

  lemma {:induction false} TimeoutFacts(cfg: Config, s: MacState, now: nat, draw: nat)
    ensures var o := Timeout(cfg, s, now, draw);
            && Calm(s, o.s) && SameLog(s, o.s) && o.s.responses == s.responses && Silent(o.events) && NoBuildFailure(o.events)
            && o.s.medium == s.medium.(eifsPending := o.s.medium.eifsPending)
  {
    hide FailAttempt, Calm;
    CalmSame(s, s);
    FailAttemptFacts(cfg, s, now, draw);
  }

  /** Queueing touches nothing but the queue. */
  lemma {:induction false} EnqueueFacts(cfg: Config, s: MacState, eth: seq<Bits.Octet>)
    ensures var t := Enqueue(cfg, s, eth).0; Calm(s, t) && SameLog(s, t) && t.responses == s.responses
  {
    hide Admissible, ParseEthernet, Calm;
    CalmSame(s, Enqueue(cfg, s, eth).0);
  }

  // ---- Reception ----

  lemma {:induction false} OnNdpFacts(cfg: Config, s: MacState, f: NdpFrame, now: nat, draw: nat)
    ensures var o := OnNdp(cfg, s, f, now, draw);
            && Calm(s, o.s) && Unmoved(s, o) && NoBuildFailure(o.events) && o.s.responses == s.responses
            && Deferred(s.medium, o.s.medium, false)
  {
    hide Resolve, LeftOf, NoteLate, UpdateDelay, PartialAid;
    var rid := NdpRidLength(cfg, f);
    var t := if rid > 0 then s.(medium := ExtendRid(s.medium, now + rid)) else s;
    var d := t.(delay := NoteResponse(t.delay, now));
    CalmSame(s, s);
    match f
    case Ack(_, _, _, _, _) => ResolveFacts(cfg, d, AckAll, now, draw);
    case BlockAck(_, ssn, bitmap) => ResolveFacts(cfg, d, AckBitmap(ssn, bitmap), now, draw);
    case Cts(_, _, _, _, _) => OnCtsFacts(cfg, t, f, now);
    case Other(_, _) =>
  }

  lemma {:induction false} OnCtsFacts(cfg: Config, s: MacState, f: NdpFrame, now: nat)
    requires f.Cts?
    ensures Calm(s, OnCts(cfg, s, f, now))
  {
    hide Has, NoteLate, UpdateDelay, PartialAid;
    if s.cur.Some? {
      LeftOfSame(s.cur.value, s.cur.value);
    }
  }

  /** Something addressed to this station that makes it a responder. */
  predicate AddressedToUs(cfg: Config, f: Frame) {
    (f.DataFrame? && ForUs(cfg, f.mpdu)) || (f.RtsFrame? && f.ra == cfg.addr)
  }

  lemma {:induction false} OnFrameFacts(cfg: Config, s: MacState, f: Frame, rx: RxInfo, blockAck: bool, now: nat, draw: nat)
    ensures var o := OnFrame(cfg, s, f, rx, blockAck, now, draw);
            && Calm(s, o.s) && NoBuildFailure(o.events) && Deferred(s.medium, o.s.medium, AddressedToUs(cfg, f))
            && (!f.DataFrame? ==> Unmoved(s, o))
            && (!f.DataFrame? && !f.RtsFrame? ==> o.s.responses == s.responses)
  {
    hide Resolve, OnData, NoteLate, UpdateDelay, ToBody, CtsFor, Calm;
    var t := s.(medium := s.medium.(eifsPending := false));
    var d := t.(delay := NoteResponse(t.delay, now));
    CalmSame(s, d);
    ResolveFacts(cfg, d, AckAll, now, draw);
    CalmTransitive(s, d, Resolve(cfg, d, AckAll, now, draw).s);
    if f.DataFrame? {
      OnDataFacts(cfg, t, f.mpdu, f.noAck, rx, blockAck, now);
      CalmSame(s, OnFrame(cfg, s, f, rx, blockAck, now, draw).s);
    } else if !f.AckFrame? {
      CalmSame(s, OnFrame(cfg, s, f, rx, blockAck, now, draw).s);
    } else {
      CalmSame(s, t.(delay := NoteLate(cfg, t.delay, now)));
      CalmSame(s, t);
      CalmSame(s, s);
    }
  }

  lemma {:induction false} OnDataFacts(cfg: Config, s: MacState, m: Mpdu, noAck: bool, rx: RxInfo, blockAck: bool, now: nat)
    ensures var o := OnData(cfg, s, m, noAck, rx, blockAck, now);
            && o.s.nextId == s.nextId && o.s.ident == s.ident && o.s.cur == s.cur && o.s.tx == s.tx
            && NoBuildFailure(o.events) && Deferred(s.medium, o.s.medium, ForUs(cfg, m))
  {
    hide ToEthernet, ToBody, AckId, Remember, IsIdent;
  }

  ghost predicate SomeAddressed(cfg: Config, frames: seq<(Frame, bool)>) {
    exists i :: 0 <= i < |frames| && AddressedToUs(cfg, frames[i].0)
  }

  ghost predicate NoData(frames: seq<(Frame, bool)>) {
    forall i | 0 <= i < |frames| :: !frames[i].0.DataFrame?
  }

  lemma {:induction false} OnFramesFacts(cfg: Config, s: MacState, frames: seq<(Frame, bool)>, rx: RxInfo, blockAck: bool, now: nat, draw: nat)
    ensures var o := OnFrames(cfg, s, frames, rx, blockAck, now, draw);
            && Calm(s, o.s) && NoBuildFailure(o.events) && Deferred(s.medium, o.s.medium, SomeAddressed(cfg, frames))
            && (NoData(frames) ==> Unmoved(s, o) && AllBlockAcked(cfg, frames, blockAck) == [])
  {
    hide OnFrame, Calm, AddressedToUs;
    if |frames| == 0 {
      CalmSame(s, s);
    } else {
      var (before, last) := (frames[..|frames| - 1], frames[|frames| - 1].0);
      OnFramesFacts(cfg, s, before, rx, blockAck, now, draw);
      var t := OnFrames(cfg, s, before, rx, blockAck, now, draw).s;
      OnFrameFacts(cfg, t, last, rx, blockAck, now, draw);
      CalmTransitive(s, t, OnFrame(cfg, t, last, rx, blockAck, now, draw).s);
      if SomeAddressed(cfg, before) {
        var i :| 0 <= i < |before| && AddressedToUs(cfg, before[i].0);
        assert AddressedToUs(cfg, frames[i].0);
      }
    }
  }

  /** What no PHY event does to the sending side, and what one without data does not do at all. */
  lemma {:induction false} EventFacts(cfg: Config, s: MacState, ev: PhyEvent, now: nat, draw: nat)
    ensures var o := OnPhyEvent(cfg, s, ev, now, draw);
            && Calm(s, o.s) && NoBuildFailure(o.events)
            && Deferred(s.medium, o.s.medium, ev.PsduHeard? && SomeAddressed(cfg, ev.frames))
            && ((ev.PsduHeard? ==> NoData(ev.frames)) ==> Unmoved(s, o))
  {
    hide OnFrames, OnNdp, Parse, ToBody, RidLength, AllBlockAcked, WantsBlockAck, BlockAckFor, Calm;
    match ev
    case NdpHeard(body) => OnNdpFacts(cfg, s, Parse(body), now, draw);
    case PsduHeard(rx, frames) =>
      var t := OnFrames(cfg, s, frames, rx, WantsBlockAck(rx, frames), now, draw).s;
      OnFramesFacts(cfg, s, frames, rx, WantsBlockAck(rx, frames), now, draw);
      CalmSame(t, OnPhyEvent(cfg, s, ev, now, draw).s);
      CalmTransitive(s, t, OnPhyEvent(cfg, s, ev, now, draw).s);
    case Cca(_, _) => CalmSame(s, OnPhyEvent(cfg, s, ev, now, draw).s);
    case PpduStart => CalmSame(s, OnPhyEvent(cfg, s, ev, now, draw).s);
    case RxStart(_, _) => CalmSame(s, OnPhyEvent(cfg, s, ev, now, draw).s);
    case RxEnd(_) => CalmSame(s, OnPhyEvent(cfg, s, ev, now, draw).s);
  }

  // ---- Polling ----

  /** With a call sign, data is only worked on after an identification went out. */
  ghost predicate Identified(cfg: Config, s: MacState) {
    cfg.identBody.Some? && s.cur.Some? && !s.cur.value.ident ==> s.ident.lastUs.Some?
  }

  /** What taking up work leaves alone, and when it takes up data. */
  ghost predicate TookUp(cfg: Config, s: MacState, t: MacState, now: nat) {
    && Evolves(s, t) && SameLog(s, t) && t.responses == s.responses && AwaitKept(s, t) && t.ident == s.ident
    && t.medium == s.medium.(eifsPending := t.medium.eifsPending)
    && (cfg.identBody.Some? && s.cur.None? && t.cur.Some? && !t.cur.value.ident ==>
          s.ident.lastUs.Some? && Since(now, s.ident.lastUs.value) < cfg.identIntervalUs)
    && (s.cur.Some? ==> t.cur == s.cur)
  }

  lemma {:induction false} PullWorkFacts(cfg: Config, s: MacState, now: nat, draw: nat)
    ensures TookUp(cfg, s, PullWork(cfg, s, now, draw), now)
  {
    hide LeftOf, Numbered, RunLength;
    EvolvesSame(s, s);
  }

  /** What goes on the air is the beginning of the batch, each MPDU as built. */
  ghost predicate CarriedBy(b: Batch, p: Ppdu) {
    && 1 <= |p.mpdus| <= |b.mpdus|
    && forall i | 0 <= i < |p.mpdus| :: p.mpdus[i] == BuildMpdu(b, i, p.mpdus[i].durationUs)
  }

  /** The batch `b` of a state goes on the air as `p`; afterwards it awaits an answer or is over. */
  ghost predicate Flown(cfg: Config, s: MacState, t: MacState, p: Ppdu) {
    && s.cur.Some? && CarriedBy(s.cur.value, p) && t.nextId == s.nextId
    && (|p.mpdus| > 1 ==> p.aggregated)
    && (if t.cur.None? then t.tx.Idle? else LeftOf(s.cur.value, t.cur.value))
    && (p.response.NdpResponse? ==> cfg.ndpAck && t.cur.Some?)
    && (t.cur.Some? ==>
          && t.cur.value.inFlight == Indices(|p.mpdus|)
          && t.tx.AwaitResponse? && t.tx.awaited == ExpectFor(cfg, p)
          && |t.cur.value.mpdus| == |s.cur.value.mpdus|
          && forall i | 0 <= i < |p.mpdus| :: t.cur.value.mpdus[i].id == p.mpdus[i].id)
  }

  lemma {:induction false} MarkFlownLeft(b: Batch, c: Batch, n: nat)
    requires c.base == b.base && c.dest == b.dest && c.src == b.src && c.mpdus == MarkFlown(b.mpdus, n)
    ensures LeftOf(b, c)
  {
    LeftOfSame(b, c);
  }

  predicate SentIdent(events: seq<MacEvent>) {
    exists i :: 0 <= i < |events| && events[i].IdentSent?
  }

  /** What sending a batch does and does not do. */
  lemma {:induction false} FlyFacts(cfg: Config, s: MacState, b: Batch, now: nat, inp: PollInput)
    requires s.cur == Some(b) && |b.mpdus| > 0
    ensures var p := Fly(cfg, s, b, now, inp);
            && Evolves(s, p.s) && (p.action.Some? ==> p.action.value.SendData? && Flown(cfg, s, p.s, p.action.value.ppdu))
            && (p.action.None? ==> p.s.cur.None?) && AccessKeeps(s, p) && (p.action.None? ==> AwaitKept(s, p.s))
  {
    hide PlanAttempt, TxTime, ResponseTimeout, CompletedTo, DroppedTo, TotalLen, MarkFlown, ExpectFor, LeftOf, Carriable, WantAck;
    var choice := ChoiceFor(cfg, b, inp);
    EvolvesSame(s, s.(cur := None));
    CompletedSilent(b, choice.mcs, |b.mpdus|);
    DroppedSilent(b, |b.mpdus|);
    IdentReported(s, b, choice.mcs, now);
    match PlanAttempt(b, choice.mcs, choice.coding)
    case None =>
    case Some(plan) =>
      PlanCount(b, choice.mcs, choice.coding);
      var p := PpduFor(cfg, b, plan, choice, inp.seed);
      assert CarriedBy(b, p);
      if WantAck(cfg, b) {
        var t := Await(cfg, s, b, plan, p, now, inp);
        MarkFlownLeft(b, t.cur.value, plan.count);
      }
  }

  lemma {:induction false} IdentReported(s: MacState, b: Batch, mcs: nat, now: nat)
    ensures var o := Finish(s, b, mcs, now); o.s.ident.lastUs == s.ident.lastUs || SentIdent(o.events)
  {
    hide CompletedTo;
    var o := Finish(s, b, mcs, now);
    if b.ident && |b.mpdus| > 0 {
      assert o.events[0].IdentSent?;
    }
  }

  lemma {:induction false} CompletedSilent(b: Batch, mcs: nat, n: nat)
    requires n <= |b.mpdus|
    ensures Silent(CompletedTo(b, mcs, n))
  {
    if n > 0 {
      CompletedSilent(b, mcs, n - 1);
    }
  }

  lemma {:induction false} DroppedSilent(b: Batch, n: nat)
    requires n <= |b.mpdus|
    ensures Silent(DroppedTo(b, n))
  {
    if n > 0 {
      DroppedSilent(b, n - 1);
    }
  }

  /** State of a poll just before the channel is accessed. */
  function Prepared(cfg: Config, s: MacState, now: nat, inp: PollInput): MacState {
    PullWork(cfg, Timeout(cfg, s, now, inp.draw).s, now, inp.draw)
  }

  lemma {:induction false} ConcatSilent(a: seq<MacEvent>, b: seq<MacEvent>)
    requires Silent(a) && Silent(b)
    ensures Silent(a + b)
  {
  }

  lemma {:induction false} ConcatIdent(a: seq<MacEvent>, b: seq<MacEvent>)
    ensures SentIdent(a + b) <==> SentIdent(a) || SentIdent(b)
  {
    if SentIdent(a) {
      var i :| 0 <= i < |a| && a[i].IdentSent?;
      assert (a + b)[i] == a[i];
    } else if SentIdent(b) {
      var i :| 0 <= i < |b| && b[i].IdentSent?;
      assert (a + b)[|a| + i] == b[i];
    }
  }

  /** What channel access never touches; whoever identifies itself reports it. */
  ghost predicate AccessKeeps(s: MacState, p: PollOut) {
    && SameLog(s, p.s) && p.s.responses == s.responses && Silent(p.events)
    && (p.s.ident.lastUs == s.ident.lastUs || SentIdent(p.events))
    && (s.ident.lastUs.Some? ==> p.s.ident.lastUs.Some?)
    && (p.s.cur.Some? ==> s.cur.Some? && p.s.cur.value.ident == s.cur.value.ident)
    && p.s.medium == s.medium.(eifsPending := p.s.medium.eifsPending)
  }

  lemma {:induction false} AccessFacts(cfg: Config, s: MacState, now: nat, inp: PollInput)
    requires Valid(cfg, s)
    ensures var p := Access(cfg, s, now, inp);
            && Evolves(s, p.s) && AccessKeeps(s, p)
            && (p.action.None? || p.action.value.SendData? || p.action.value.SendRts?)
            && (p.action.Some? ==> s.tx.Backoff? && s.tx.untilUs <= now && !MediumBusy(s.medium, now))
            && (p.action.Some? && p.action.value.SendData? ==> Flown(cfg, s, p.s, p.action.value.ppdu))
            && (p.action.None? ==> AwaitKept(s, p.s))
            && (p.action.Some? && p.action.value.SendRts? ==> p.s.tx.AwaitResponse? && p.s.tx.awaited.ExpectCts?)
  {
    hide MpdusOk, Carriable, CwOk, LeftOf, Fly, TxTime, ResponseTimeout, TotalLen, ResponseTime, NormalTxTime, NeedRts, MediumBusy, Measure, Budget;
    EvolvesSame(s, s);
    if s.cur.Some? {
      FlyFacts(cfg, s, s.cur.value, now, inp);
    }
  }

  /** A poll either hands out the first pending response, or accesses the channel: what it then
      sends is the beginning of the prepared batch. It never acknowledges or hands up anything. */
  lemma {:induction false} PollFacts(cfg: Config, s: MacState, now: nat, inp: PollInput)
    requires Valid(cfg, s)
    ensures var p := Poll(cfg, s, now, inp);
            && Evolves(s, p.s) && SameLog(s, p.s) && Silent(p.events) && p.s.medium == s.medium.(eifsPending := p.s.medium.eifsPending)
            && (p.s.ident.lastUs == s.ident.lastUs || SentIdent(p.events)) && (s.ident.lastUs.Some? ==> p.s.ident.lastUs.Some?)
            && (Identified(cfg, s) ==> Identified(cfg, p.s))
            && (|s.responses| > 0 ==> p.s == s.(responses := s.responses[1..]) && p.action == Some(Respond(s.responses[0])))
            && (|s.responses| == 0 ==>
                  && p.s.responses == []
                  && (p.action.None? || p.action.value.SendData? || p.action.value.SendRts?)
                  && (p.action.Some? ==> !MediumBusy(s.medium, now))
                  && (p.action.Some? && p.action.value.SendData? ==>
                        var t := Prepared(cfg, s, now, inp); Valid(cfg, t) && Evolves(s, t) && Flown(cfg, t, p.s, p.action.value.ppdu))
                  && (p.action.None? ==> AwaitKept(s, p.s))
                  && (p.action.Some? && p.action.value.SendRts? ==> p.s.tx.AwaitResponse? && p.s.tx.awaited.ExpectCts?))
  {
    hide Valid, FailAttempt, PullWork, Access, Evolves, Flown, SentIdent;
    EvolvesSame(s, s.(responses := []));
    if |s.responses| > 0 {
      EvolvesSame(s, s.(responses := s.responses[1..]));
    } else {
      EvolvesSame(s, s);
      TimeoutFacts(cfg, s, now, inp.draw);
      if s.tx.AwaitResponse? {
        FailAttemptValid(cfg, s, now, inp.draw);
      }
      var o := Timeout(cfg, s, now, inp.draw);
      var t := PullWork(cfg, o.s, now, inp.draw);
      PullWorkValid(cfg, o.s, now, inp.draw);
      PullWorkFacts(cfg, o.s, now, inp.draw);
      EvolvesTransitive(s, o.s, t);
      AccessFacts(cfg, t, now, inp);
      EvolvesTransitive(s, t, Access(cfg, t, now, inp).s);
      ConcatSilent(o.events, Access(cfg, t, now, inp).events);
      ConcatIdent(o.events, Access(cfg, t, now, inp).events);
    }
  }
}

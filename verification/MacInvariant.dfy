/** The valid states of the MAC engine and their preservation by every step. */
module MacInvariant {
  import opened Wrappers
  import opened Ndp
  import opened MacTypes
  import opened MacSpec
  import Params
  import Bits

  // ---- Valid states ----

  /** A body that came through the queue. */
  ghost predicate Carriable(cfg: Config, body: seq<Bits.Octet>) {
    Admissible(cfg, body) && Encapsulated(body)
  }

  /** A frame of a batch: numbered within the batch, within its retry limit, never on the air more
      often than it burnt retries, but for the attempt being flown. */
  ghost predicate MpduOk(cfg: Config, base: nat, nextId: nat, ident: bool, m: PendingMpdu, flying: bool) {
    && base <= m.id < nextId
    && m.sn == m.id % SEQ_MOD
    && m.retries <= cfg.maxRetries
    && m.flights <= m.retries + (if flying then 1 else 0)
    && (ident || Carriable(cfg, m.body))
  }

  ghost predicate MpdusOk(cfg: Config, base: nat, nextId: nat, ident: bool, mpdus: seq<PendingMpdu>, flying: nat) {
    && (forall i | 0 <= i < |mpdus| :: MpduOk(cfg, base, nextId, ident, mpdus[i], i < flying))
    && (forall i, j | 0 <= i < j < |mpdus| :: mpdus[i].id < mpdus[j].id)
  }

  /** What the frames of a batch can still burn. */
  function Measure(cfg: Config, mpdus: seq<PendingMpdu>): int {
    if |mpdus| == 0 then 0
    else Measure(cfg, mpdus[..|mpdus| - 1]) + cfg.maxRetries + 1 - mpdus[|mpdus| - 1].retries
  }

  /** Attempts and unanswered RTS that a batch of `n` frames can at most see. */
  function Budget(cfg: Config, n: nat): nat {
    if n == 0 then 0 else Budget(cfg, n - 1) + cfg.maxRetries + 1
  }

  ghost predicate BatchOk(cfg: Config, b: Batch, nextId: nat) {
    && 1 <= |b.mpdus| <= b.started <= AMPDU_MAX_MPDUS
    && b.base + b.started == nextId
    && b.inFlight == Indices(|b.inFlight|) && |b.inFlight| <= |b.mpdus|
    && MpdusOk(cfg, b.base, nextId, b.ident, b.mpdus, |b.inFlight|)
    && (b.started > 1 ==> WantAck(cfg, b) && cfg.ndpAck)
    && (b.qos <==> b.started > 1)
    && b.resolved + Measure(cfg, b.mpdus) <= Budget(cfg, b.started)
  }

  /** What is awaited fits what is on the air. */
  ghost predicate AwaitOk(cfg: Config, b: Batch, e: Expect) {
    && WantAck(cfg, b)
    && (e.ExpectCts? <==> |b.inFlight| == 0)
    && (e.ExpectAck? ==> !cfg.ndpAck && |b.inFlight| == 1)
    && (e.ExpectNdpAck? ==> cfg.ndpAck && |b.inFlight| == 1)
    && (e.ExpectBlockAck? ==> cfg.ndpAck && |b.inFlight| > 1)
  }

  ghost predicate TxOk(cfg: Config, s: MacState) {
    && (s.tx.Idle? <==> s.cur.None?)
    && (s.tx.Backoff? ==> s.cur.Some? && s.cur.value.inFlight == [])
    && (s.tx.AwaitResponse? ==> s.cur.Some? && AwaitOk(cfg, s.cur.value, s.tx.awaited))
  }

  ghost predicate CwOk(cfg: Config, s: MacState) {
    cfg.cwMinExp <= cfg.cwMaxExp ==> cfg.cwMinExp <= s.cwExp <= cfg.cwMaxExp
  }

  ghost predicate Valid(cfg: Config, s: MacState) {
    && s.sn == s.nextId % SEQ_MOD
    && (s.cur.Some? ==> BatchOk(cfg, s.cur.value, s.nextId))
    && TxOk(cfg, s)
    && CwOk(cfg, s)
    && (forall i | 0 <= i < |s.queue| :: Carriable(cfg, s.queue[i].body))
  }

  // ---- Resolving ----

  lemma {:induction false} MeasureAppend(cfg: Config, q: seq<PendingMpdu>, m: PendingMpdu)
    ensures Measure(cfg, q + [m]) == Measure(cfg, q) + cfg.maxRetries + 1 - m.retries
  {
    assert (q + [m])[..|q|] == q;
  }

  /** All of `kept` precede `m`. */
  ghost predicate Precede(kept: seq<PendingMpdu>, m: PendingMpdu) {
    forall i | 0 <= i < |kept| :: kept[i].id < m.id
  }

  lemma {:induction false} AppendOk(cfg: Config, base: nat, nextId: nat, ident: bool, kept: seq<PendingMpdu>, m: PendingMpdu)
    requires MpdusOk(cfg, base, nextId, ident, kept, 0) && MpduOk(cfg, base, nextId, ident, m, false) && Precede(kept, m)
    ensures MpdusOk(cfg, base, nextId, ident, kept + [m], 0)
  {
    hide MpduOk;
    var longer := kept + [m];
    forall i | 0 <= i < |longer|
      ensures MpduOk(cfg, base, nextId, ident, longer[i], false)
    {
      assert i < |kept| ==> longer[i] == kept[i];
    }
  }

  /** The next frame of the batch still follows everything kept. */
  lemma {:induction false} StillPrecede(kept: seq<PendingMpdu>, m: PendingMpdu, next: PendingMpdu)
    requires Precede(kept, m) && m.id < next.id
    ensures Precede(kept, next) && Precede(kept + [m], next)
  {
    forall i | 0 <= i < |kept + [m]|
      ensures (kept + [m])[i].id < next.id
    {
      assert i < |kept| ==> (kept + [m])[i] == kept[i];
    }
  }

  /** What going through the first `n` frames of a batch keeps, when the first `k` were flown. */
  ghost predicate SweepOk(cfg: Config, b: Batch, nextId: nat, k: nat, w: Sweep, n: nat)
    requires n <= |b.mpdus|
  {
    && |w.kept| <= n
    && MpdusOk(cfg, b.base, nextId, b.ident, w.kept, 0)
    && (n < |b.mpdus| ==> Precede(w.kept, b.mpdus[n]))
    && Measure(cfg, w.kept) + Min(n, k) <= Measure(cfg, b.mpdus[..n])
  }

  /** The frame kept in place of `m`, if any. */
  function KeptOne(m: PendingMpdu, flown: bool, covered: bool, maxRetries: nat): Option<PendingMpdu> {
    if !flown then Some(m)
    else if covered || m.retries + 1 > maxRetries then None
    else Some(m.(retries := m.retries + 1))
  }

  lemma {:induction false} SweepOneKept(b: Batch, w: Sweep, m: PendingMpdu, flown: bool, covered: bool, maxRetries: nat)
    ensures SweepOne(b, w, m, flown, covered, maxRetries).kept
            == match KeptOne(m, flown, covered, maxRetries) case None => w.kept case Some(x) => w.kept + [x]
  {
  }

  lemma {:induction false} SweepOneOk(cfg: Config, b: Batch, nextId: nat, k: nat, w: Sweep, n: nat, covered: bool)
    requires n < |b.mpdus| && MpduOk(cfg, b.base, nextId, b.ident, b.mpdus[n], n < k)
    requires n + 1 < |b.mpdus| ==> b.mpdus[n].id < b.mpdus[n + 1].id
    requires SweepOk(cfg, b, nextId, k, w, n)
    ensures SweepOk(cfg, b, nextId, k, SweepOne(b, w, b.mpdus[n], n < k, covered, cfg.maxRetries), n + 1)
  {
    hide Carriable, MpdusOk, Measure, SweepOne, Precede;
    var m := b.mpdus[n];
    SweepOneKept(b, w, m, n < k, covered, cfg.maxRetries);
    assert b.mpdus[..n + 1] == b.mpdus[..n] + [m];
    MeasureAppend(cfg, b.mpdus[..n], m);
    if n + 1 < |b.mpdus| {
      StillPrecede(w.kept, m, b.mpdus[n + 1]);
    }
    match KeptOne(m, n < k, covered, cfg.maxRetries)
    case None =>
    case Some(x) =>
      MeasureAppend(cfg, w.kept, x);
      SamePlace(w.kept, m, x);
      AppendOk(cfg, b.base, nextId, b.ident, w.kept, x);
      if n + 1 < |b.mpdus| {
        StillPrecede(w.kept, x, b.mpdus[n + 1]);
      }
  }

  lemma {:induction false} SamePlace(kept: seq<PendingMpdu>, m: PendingMpdu, x: PendingMpdu)
    requires Precede(kept, m) && x.id == m.id
    ensures Precede(kept, x)
  {
  }

  lemma {:induction false} SweepToOk(cfg: Config, b: Batch, nextId: nat, k: nat, acks: Acks, n: nat)
    requires n <= |b.mpdus| && MpdusOk(cfg, b.base, nextId, b.ident, b.mpdus, k)
    ensures SweepOk(cfg, b, nextId, k, SweepTo(b, Indices(k), acks, cfg.maxRetries, n), n)
  {
    hide MpduOk, SweepOne, Measure;
    if n == 0 {
      assert b.mpdus[..0] == [];
      MeasureEmpty(cfg);
    } else {
      SweepToOk(cfg, b, nextId, k, acks, n - 1);
      SweepOneOk(cfg, b, nextId, k, SweepTo(b, Indices(k), acks, cfg.maxRetries, n - 1), n - 1, acks.Covers(b.mpdus[n - 1].sn));
    }
  }

  lemma {:induction false} MeasureEmpty(cfg: Config)
    ensures Measure(cfg, []) == 0
  {
  }

  /** The batch goes on with at least one frame and a smaller measure. */
  lemma {:induction false} CarryOk(cfg: Config, b: Batch, nextId: nat, k: nat, w: Sweep, next: Batch)
    requires BatchOk(cfg, b, nextId) && SweepOk(cfg, b, nextId, k, w, |b.mpdus|) && k >= 1 && |w.kept| > 0
    requires next == Carry(b, w.kept).(attempts := next.attempts, rateFailures := next.rateFailures)
    ensures BatchOk(cfg, next, nextId) && next.inFlight == []
    ensures Measure(cfg, next.mpdus) < Measure(cfg, b.mpdus)
  {
    hide MpdusOk, Measure, Budget, Precede;
    assert b.mpdus[..|b.mpdus|] == b.mpdus;
    assert Indices(0) == [];
  }

  /** Valid states differ in nothing that matters. */
  ghost predicate SameCore(s: MacState, t: MacState) {
    && s.sn == t.sn && s.nextId == t.nextId && s.cur == t.cur && s.tx == t.tx && s.cwExp == t.cwExp && s.queue == t.queue
  }

  lemma {:induction false} SameCoreValid(cfg: Config, s: MacState, t: MacState)
    requires Valid(cfg, s) && SameCore(s, t)
    ensures Valid(cfg, t)
  {
    hide BatchOk, AwaitOk, Carriable;
  }

  lemma {:induction false} BackoffValid(cfg: Config, s: MacState, t: MacState, now: nat, draw: nat)
    requires Valid(cfg, s) && CwOk(cfg, t)
    requires t.sn == t.nextId % SEQ_MOD && t.queue == s.queue
    requires t.cur.Some? && BatchOk(cfg, t.cur.value, t.nextId) && t.cur.value.inFlight == []
    ensures Valid(cfg, StartBackoff(cfg, t, now, draw))
  {
    hide BatchOk, AwaitOk, Carriable;
  }

  lemma {:induction false} EndValid(cfg: Config, s: MacState)
    requires Valid(cfg, s)
    ensures Valid(cfg, EndBatch(cfg, s))
  {
    hide BatchOk, AwaitOk, Carriable;
  }

  /** What a resolved attempt or a failed RTS does not touch. */
  ghost predicate SameRest(s: MacState, t: MacState) {
    && s.sn == t.sn && s.nextId == t.nextId && s.queue == t.queue && s.responses == t.responses
    && s.dedup == t.dedup && s.log == t.log
  }

  /** The batch ended, or it is the same batch with fewer tries left. */
  ghost predicate Progress(cfg: Config, s: MacState, t: MacState) {
    t.cur.Some? ==> s.cur.Some? && t.cur.value.base == s.cur.value.base
                    && Measure(cfg, t.cur.value.mpdus) < Measure(cfg, s.cur.value.mpdus)
  }

  lemma {:induction false} ResolveValid(cfg: Config, s: MacState, acks: Acks, now: nat, draw: nat)
    requires Valid(cfg, s) && s.tx.AwaitResponse? && !s.tx.awaited.ExpectCts?
    ensures var t := Resolve(cfg, s, acks, now, draw).s;
            Valid(cfg, t) && SameRest(s, t) && !t.tx.AwaitResponse? && Progress(cfg, s, t)
  {
    hide SweepTo, Measure, Budget, MpdusOk, Carriable, SweepOk;
    var b := s.cur.value;
    var k := |b.inFlight|;
    var w := SweepTo(b, b.inFlight, acks, cfg.maxRetries, |b.mpdus|);
    SweepToOk(cfg, b, s.nextId, k, acks, |b.mpdus|);
    EndValid(cfg, s);
    if |w.kept| > 0 {
      CarryOk(cfg, b, s.nextId, k, w,
              Carry(b, w.kept).(
                rateFailures := if w.delivered > 0 && w.delivered >= b.lowerOctets then 0 else b.rateFailures + 1,
                attempts := if w.acked < k then b.attempts + 1 else b.attempts));
    }
  }

  lemma {:induction false} Weaken(cfg: Config, base: nat, nextId: nat, ident: bool, mpdus: seq<PendingMpdu>, k: nat)
    requires MpdusOk(cfg, base, nextId, ident, mpdus, 0)
    ensures MpdusOk(cfg, base, nextId, ident, mpdus, k)
  {
    hide Carriable;
  }

  lemma {:induction false} FailRtsValid(cfg: Config, s: MacState, now: nat, draw: nat)
    requires Valid(cfg, s) && s.tx.AwaitResponse? && s.tx.awaited.ExpectCts?
    ensures var t := FailRts(cfg, s, now, draw).s;
            Valid(cfg, t) && SameRest(s, t) && !t.tx.AwaitResponse? && Progress(cfg, s, t)
  {
    hide SweepTo, Measure, Budget, MpdusOk, Carriable, SweepOk;
    var b := s.cur.value;
    var k := |b.mpdus|;
    var w := SweepTo(b, Indices(k), AckNone, cfg.maxRetries, k);
    Weaken(cfg, b.base, s.nextId, b.ident, b.mpdus, k);
    SweepToOk(cfg, b, s.nextId, k, AckNone, k);
    EndValid(cfg, s);
    if |w.kept| > 0 {
      CarryOk(cfg, b, s.nextId, k, w, Carry(b, w.kept).(attempts := b.attempts + 1));
    }
  }

  /** Every unanswered attempt, data or RTS, leaves a valid state and uses up some of the measure. */
  lemma {:induction false} FailAttemptValid(cfg: Config, s: MacState, now: nat, draw: nat)
    requires Valid(cfg, s) && s.tx.AwaitResponse?
    ensures var t := FailAttempt(cfg, s, now, draw).s;
            Valid(cfg, t) && SameRest(s, t) && !t.tx.AwaitResponse? && Progress(cfg, s, t)
  {
    hide Resolve, FailRts, Valid, Measure;
    var t := s.(delay := s.delay.(late := Some((s.tx.awaited, s.delay.sentEndUs))));
    SameCoreValid(cfg, s, t);
    if s.tx.awaited.ExpectCts? {
      FailRtsValid(cfg, t, now, draw);
    } else {
      ResolveValid(cfg, t, AckNone, now, draw);
    }
  }

  // ---- Reception ----

  /** Reception neither queues nor numbers frames. */
  ghost predicate SameQueue(s: MacState, t: MacState) {
    s.sn == t.sn && s.nextId == t.nextId && s.queue == t.queue
  }

  lemma {:induction false} OnNdpAckValid(cfg: Config, s: MacState, f: NdpFrame, now: nat, draw: nat)
    requires f.Ack? && Valid(cfg, s)
    ensures var t := OnNdpAck(cfg, s, f, now, draw).s; Valid(cfg, t) && SameRest(s, t)
  {
    hide Resolve, Valid, Measure, NoteLate, UpdateDelay;
    var d := s.(delay := NoteResponse(s.delay, now));
    SameCoreValid(cfg, s, d);
    var o :=
      if s.tx.AwaitResponse? && s.tx.awaited == ExpectNdpAck(f.ackId) then Resolve(cfg, d, AckAll, now, draw)
      else if LateIs(s.delay, ExpectNdpAck(f.ackId)) then Out(s.(delay := NoteLate(cfg, s.delay, now)), [])
      else Out(s, []);
    if s.tx.AwaitResponse? && s.tx.awaited == ExpectNdpAck(f.ackId) {
      ResolveValid(cfg, d, AckAll, now, draw);
    } else {
      SameCoreValid(cfg, s, o.s);
    }
    SameCoreValid(cfg, o.s, OnNdpAck(cfg, s, f, now, draw).s);
  }

  lemma {:induction false} OnBlockAckValid(cfg: Config, s: MacState, f: NdpFrame, now: nat, draw: nat)
    requires f.BlockAck? && Valid(cfg, s)
    ensures var t := OnBlockAck(cfg, s, f, now, draw).s; Valid(cfg, t) && SameRest(s, t)
  {
    hide Resolve, Valid, Measure, NoteLate, UpdateDelay;
    if s.tx.AwaitResponse? && s.tx.awaited == ExpectBlockAck(f.blockAckId) {
      var d := s.(delay := NoteResponse(s.delay, now));
      SameCoreValid(cfg, s, d);
      ResolveValid(cfg, d, AckBitmap(f.ssn, f.bitmap), now, draw);
    } else {
      SameCoreValid(cfg, s, OnBlockAck(cfg, s, f, now, draw).s);
    }
  }

  lemma {:induction false} OnCtsValid(cfg: Config, s: MacState, f: NdpFrame, now: nat)
    requires f.Cts? && Valid(cfg, s)
    ensures var t := OnCts(cfg, s, f, now); Valid(cfg, t) && SameRest(s, t)
  {
    hide Measure, Budget, MpdusOk, Carriable, NoteLate, UpdateDelay;
  }

  lemma {:induction false} OnNdpValid(cfg: Config, s: MacState, f: NdpFrame, now: nat, draw: nat)
    requires Valid(cfg, s)
    ensures var t := OnNdp(cfg, s, f, now, draw).s; Valid(cfg, t) && SameRest(s, t)
  {
    hide Valid, OnNdpAck, OnBlockAck, OnCts;
    var rid := NdpRidLength(cfg, f);
    var t := if rid > 0 then s.(medium := ExtendRid(s.medium, now + rid)) else s;
    SameCoreValid(cfg, s, t);
    match f
    case Ack(_, _, _, _, _) => OnNdpAckValid(cfg, t, f, now, draw);
    case BlockAck(_, _, _) => OnBlockAckValid(cfg, t, f, now, draw);
    case Cts(_, _, _, _, _) => OnCtsValid(cfg, t, f, now);
    case Other(_, _) =>
  }

  lemma {:induction false} OnDataValid(cfg: Config, s: MacState, m: Mpdu, noAck: bool, rx: RxInfo, blockAck: bool, now: nat)
    requires Valid(cfg, s)
    ensures var t := OnData(cfg, s, m, noAck, rx, blockAck, now).s; Valid(cfg, t) && SameCore(s, t)
  {
    hide Valid, Remember, Delivery, ToBody, AckId;
    SameCoreValid(cfg, s, OnData(cfg, s, m, noAck, rx, blockAck, now).s);
  }

  lemma {:induction false} OnFrameValid(cfg: Config, s: MacState, f: Frame, rx: RxInfo, blockAck: bool, now: nat, draw: nat)
    requires Valid(cfg, s)
    ensures var t := OnFrame(cfg, s, f, rx, blockAck, now, draw).s; Valid(cfg, t) && SameQueue(s, t)
  {
    hide Valid, OnData, Resolve, ToBody, NoteLate, UpdateDelay;
    var t := s.(medium := s.medium.(eifsPending := false));
    SameCoreValid(cfg, s, t);
    match f
    case DataFrame(m, noAck) => OnDataValid(cfg, t, m, noAck, rx, blockAck, now);
    case AckFrame(ra) =>
      if ra == cfg.addr && t.tx.AwaitResponse? && t.tx.awaited.ExpectAck? {
        var d := t.(delay := NoteResponse(t.delay, now));
        SameCoreValid(cfg, t, d);
        ResolveValid(cfg, d, AckAll, now, draw);
      } else {
        SameCoreValid(cfg, t, OnAckFrame(cfg, t, ra, now, draw).s);
      }
    case RtsFrame(ra, ta, d) => SameCoreValid(cfg, t, OnRts(cfg, t, ra, ta, d, now));
    case OtherFrame(d) => SameCoreValid(cfg, t, t.(medium := ExtendNav(t.medium, now + d)));
    case _ =>
  }

  lemma {:induction false} FramesValid(cfg: Config, s: MacState, frames: seq<(Frame, bool)>, rx: RxInfo, blockAck: bool,
                                       now: nat, draw: nat)
    requires Valid(cfg, s)
    ensures var t := OnFrames(cfg, s, frames, rx, blockAck, now, draw).s; Valid(cfg, t) && SameQueue(s, t)
  {
    hide Valid, OnFrame;
    if |frames| > 0 {
      var (before, last) := (frames[..|frames| - 1], frames[|frames| - 1].0);
      FramesValid(cfg, s, before, rx, blockAck, now, draw);
      OnFrameValid(cfg, OnFrames(cfg, s, before, rx, blockAck, now, draw).s, last, rx, blockAck, now, draw);
    }
  }

  /** Whatever the PHY reports, a valid state stays valid. */
  lemma {:induction false} OnPhyEventValid(cfg: Config, s: MacState, ev: PhyEvent, now: nat, draw: nat)
    requires Valid(cfg, s)
    ensures var t := OnPhyEvent(cfg, s, ev, now, draw).s; Valid(cfg, t) && SameQueue(s, t)
  {
    hide Valid, OnFrames, OnNdp, Parse, ToBody, OnRxStart, AllBlockAcked, WantsBlockAck, BlockAckFor;
    match ev
    case NdpHeard(body) => OnNdpValid(cfg, s, Parse(body), now, draw);
    case PsduHeard(rx, frames) =>
      var blockAck := WantsBlockAck(rx, frames);
      var o := OnFrames(cfg, s, frames, rx, blockAck, now, draw);
      FramesValid(cfg, s, frames, rx, blockAck, now, draw);
      SameCoreValid(cfg, o.s, OnPsdu(cfg, s, rx, frames, now, draw).s);
    case _ => SameCoreValid(cfg, s, OnPhyEvent(cfg, s, ev, now, draw).s);
  }

  // ---- New work ----

  lemma {:induction false} FreshMeasure(cfg: Config, mpdus: seq<PendingMpdu>)
    requires forall i | 0 <= i < |mpdus| :: mpdus[i].retries == 0
    ensures Measure(cfg, mpdus) == Budget(cfg, |mpdus|)
  {
    if |mpdus| > 0 {
      FreshMeasure(cfg, mpdus[..|mpdus| - 1]);
    }
  }

  /** The frames as pulled from the queue are numbered consecutively and have not flown. */
  ghost predicate Fresh(cfg: Config, id: nat, ident: bool, mpdus: seq<PendingMpdu>) {
    forall i | 0 <= i < |mpdus| ::
      mpdus[i] == PendingMpdu(id + i, (id + i) % SEQ_MOD, mpdus[i].body, 0, 0) && (ident || Carriable(cfg, mpdus[i].body))
  }

  lemma {:induction false} FreshOk(cfg: Config, id: nat, ident: bool, mpdus: seq<PendingMpdu>)
    requires Fresh(cfg, id, ident, mpdus)
    ensures MpdusOk(cfg, id, id + |mpdus|, ident, mpdus, 0) && Measure(cfg, mpdus) == Budget(cfg, |mpdus|)
  {
    hide Carriable, Measure, Budget;
    FreshMeasure(cfg, mpdus);
  }

  lemma {:induction false} NewBatchOk(cfg: Config, s: MacState, dest: Addr, src: Addr, mpdus: seq<PendingMpdu>, choice: TxChoice, ident: bool)
    requires 1 <= |mpdus| <= AMPDU_MAX_MPDUS && Fresh(cfg, s.nextId, ident, mpdus)
    requires |mpdus| > 1 ==> cfg.ackEnabled && cfg.ndpAck && !IsGroup(dest) && !ident
    ensures var b := NewBatch(cfg, s, dest, src, mpdus, choice, ident); BatchOk(cfg, b, s.nextId + |mpdus|) && b.inFlight == []
  {
    hide Fresh, MpdusOk, Measure, Budget;
    FreshOk(cfg, s.nextId, ident, mpdus);
    assert Indices(0) == [];
  }

  lemma {:induction false} NextMod(a: nat, n: nat)
    ensures (a % SEQ_MOD + n) % SEQ_MOD == (a + n) % SEQ_MOD
  {
  }

  lemma {:induction false} QueueFresh(cfg: Config, s: MacState, n: nat)
    requires n <= |s.queue| && Valid(cfg, s)
    ensures Fresh(cfg, s.nextId, false, Numbered(s.queue, n, s.sn, s.nextId))
  {
    hide Carriable, BatchOk, TxOk, CwOk, Numbered;
    var r := Numbered(s.queue, n, s.sn, s.nextId);
    forall i | 0 <= i < n
      ensures r[i].sn == (s.nextId + i) % SEQ_MOD
    {
      NextMod(s.nextId, i);
    }
  }

  lemma {:induction false} PullWorkValid(cfg: Config, s: MacState, now: nat, draw: nat)
    requires Valid(cfg, s)
    ensures Valid(cfg, PullWork(cfg, s, now, draw))
  {
    hide BatchOk, Carriable, StartBackoff, Numbered, RunLength, NewBatch, Fresh;
    if s.tx.Idle? && s.cur.None? {
      if IdentDue(cfg, s, now) {
        var m := PendingMpdu(s.nextId, s.sn, cfg.identBody.value, 0, 0);
        var b := NewBatch(cfg, s, BROADCAST, cfg.addr, [m], CONTROL_CHOICE, true);
        OneFresh(cfg, m);
        NewBatchOk(cfg, s, BROADCAST, cfg.addr, [m], CONTROL_CHOICE, true);
        NextMod(s.nextId, 1);
        BackoffValid(cfg, s, s.(cur := Some(b), sn := NextSn(s.sn), nextId := s.nextId + 1), now, draw);
      } else if s.queue != [] {
        PullQueueValid(cfg, s, now, draw);
      }
    }
  }

  lemma {:induction false} OneFresh(cfg: Config, m: PendingMpdu)
    requires m == PendingMpdu(m.id, m.id % SEQ_MOD, m.body, 0, 0)
    ensures Fresh(cfg, m.id, true, [m])
  {
  }

  lemma {:induction false} PullQueueValid(cfg: Config, s: MacState, now: nat, draw: nat)
    requires Valid(cfg, s) && s.tx.Idle? && s.cur.None? && !IdentDue(cfg, s, now) && s.queue != []
    ensures Valid(cfg, PullWork(cfg, s, now, draw))
  {
    hide BatchOk, Carriable, IdentDue, StartBackoff, Numbered, RunLength, NewBatch, Fresh;
    var first := s.queue[0];
    var n := RunLength(s.queue, BatchLimit(cfg, first.dest), 1);
    var mpdus := Numbered(s.queue, n, s.sn, s.nextId);
    var b := NewBatch(cfg, s, first.dest, first.src, mpdus, FixedChoice(cfg), false);
    QueueFresh(cfg, s, n);
    NewBatchOk(cfg, s, first.dest, first.src, mpdus, FixedChoice(cfg), false);
    NextMod(s.nextId, n);
    var t := s.(cur := Some(b), queue := s.queue[n..], sn := (s.sn + n) % SEQ_MOD, nextId := s.nextId + n);
    var u := s.(queue := s.queue[n..]);
    assert Valid(cfg, u);
    BackoffValid(cfg, u, t, now, draw);
  }

  // ---- Access ----

  lemma {:induction false} MarkFlownMeasure(cfg: Config, q: seq<PendingMpdu>, n: nat)
    ensures Measure(cfg, MarkFlown(q, n)) == Measure(cfg, q)
  {
    if |q| > 0 {
      MarkFlownMeasure(cfg, q[..|q| - 1], n);
      assert MarkFlown(q, n)[..|q| - 1] == MarkFlown(q[..|q| - 1], n);
    }
  }

  lemma {:induction false} MarkFlownOk(cfg: Config, base: nat, nextId: nat, ident: bool, q: seq<PendingMpdu>, n: nat)
    requires MpdusOk(cfg, base, nextId, ident, q, 0) && n <= |q|
    ensures MpdusOk(cfg, base, nextId, ident, MarkFlown(q, n), n)
  {
    hide Carriable;
    var r := MarkFlown(q, n);
    forall i | 0 <= i < |r|
      ensures MpduOk(cfg, base, nextId, ident, r[i], i < n)
    {
      assert MpduOk(cfg, base, nextId, ident, q[i], false);
    }
  }

  /** A plan takes at least one frame, at most sixteen. */
  lemma {:induction false} PlanCount(b: Batch, mcs: nat, coding: Params.Coding)
    requires PlanAttempt(b, mcs, coding).Some?
    ensures 1 <= PlanAttempt(b, mcs, coding).value.count <= |b.mpdus|
    ensures PlanAttempt(b, mcs, coding).value.count > 1 ==> PlanAttempt(b, mcs, coding).value.aggregated
  {
    hide Grow, Fits, PrefixFits;
  }

  lemma {:induction false} AwaitValid(cfg: Config, s: MacState, b: Batch, plan: Plan, choice: TxChoice, now: nat, inp: PollInput)
    requires Valid(cfg, s) && s.tx.Backoff? && s.cur == Some(b) && 1 <= plan.count <= |b.mpdus| && WantAck(cfg, b)
    ensures var p := PpduFor(cfg, b, plan, choice, inp.seed);
            |p.mpdus| == plan.count && Valid(cfg, Await(cfg, s, b, plan, p, now, inp))
  {
    hide MpdusOk, Measure, Budget, Carriable, TxTime, ResponseTimeout, TotalLen, MarkFlown, BuildMpdu, AckId, BlockAckId, ResponseTime;
    MarkFlownMeasure(cfg, b.mpdus, plan.count);
    MarkFlownOk(cfg, b.base, s.nextId, b.ident, b.mpdus, plan.count);
    SingleUnlessNdp(cfg, s, b);
  }

  lemma {:induction false} SingleUnlessNdp(cfg: Config, s: MacState, b: Batch)
    requires BatchOk(cfg, b, s.nextId)
    ensures |b.mpdus| > 1 ==> cfg.ndpAck
  {
  }

  lemma {:induction false} FlyValid(cfg: Config, s: MacState, b: Batch, now: nat, inp: PollInput)
    requires Valid(cfg, s) && s.tx.Backoff? && s.cur == Some(b)
    ensures Valid(cfg, Fly(cfg, s, b, now, inp).s)
  {
    hide BatchOk, Carriable, PlanAttempt, Await, PpduFor, CompletedTo, DroppedTo, AwaitOk, WantAck;
    var choice := ChoiceFor(cfg, b, inp);
    match PlanAttempt(b, choice.mcs, choice.coding)
    case None =>
    case Some(plan) =>
      PlanCount(b, choice.mcs, choice.coding);
      if WantAck(cfg, b) {
        AwaitValid(cfg, s, b, plan, choice, now, inp);
      }
  }

  lemma {:induction false} ReserveValid(cfg: Config, s: MacState, b: Batch, now: nat, inp: PollInput)
    requires Valid(cfg, s) && s.tx.Backoff? && s.cur == Some(b) && NeedRts(cfg, b)
    ensures Valid(cfg, Reserve(cfg, s, b, now, inp).s)
  {
    hide BatchOk, Carriable, TxTime, ResponseTimeout, TotalLen, NormalTxTime, ResponseTime;
  }

  lemma {:induction false} AccessValid(cfg: Config, s: MacState, now: nat, inp: PollInput)
    requires Valid(cfg, s)
    ensures Valid(cfg, Access(cfg, s, now, inp).s)
  {
    hide BatchOk, Carriable, Fly, Reserve, StartBackoff, NeedRts, CwOk, AwaitOk, MediumBusy;
    if s.tx.Backoff? && s.tx.untilUs <= now {
      if MediumBusy(s.medium, now) {
        BackoffValid(cfg, s, s, now, inp.redraw);
      } else if NeedRts(cfg, s.cur.value) {
        ReserveValid(cfg, s, s.cur.value, now, inp);
      } else {
        FlyValid(cfg, s, s.cur.value, now, inp);
      }
    }
  }

  lemma {:induction false} PollValid(cfg: Config, s: MacState, now: nat, inp: PollInput)
    requires Valid(cfg, s)
    ensures Valid(cfg, Poll(cfg, s, now, inp).s)
  {
    hide Valid, FailAttempt, PullWork, Access;
    if |s.responses| > 0 {
      SameCoreValid(cfg, s, s.(responses := s.responses[1..]));
    } else {
      if s.tx.AwaitResponse? {
        FailAttemptValid(cfg, s, now, inp.draw);
      }
      var o := Timeout(cfg, s, now, inp.draw);
      PullWorkValid(cfg, o.s, now, inp.draw);
      AccessValid(cfg, PullWork(cfg, o.s, now, inp.draw), now, inp);
    }
  }

  lemma {:induction false} TxUnchanged(cfg: Config, s: MacState, t: MacState)
    requires t.tx == s.tx && t.cur == s.cur && t.cwExp == s.cwExp
    ensures TxOk(cfg, t) == TxOk(cfg, s) && CwOk(cfg, t) == CwOk(cfg, s)
  {
  }

  lemma {:induction false} EnqueuedCarriable(cfg: Config, s: MacState, eth: seq<Bits.Octet>)
    ensures Enqueue(cfg, s, eth).1.Success? ==> ParseEthernet(eth).Some? && Carriable(cfg, ParseEthernet(eth).value.body)
  {
    hide Admissible;
    if |eth| >= ETH_HDR_LEN {
      assert ParseEthernet(eth).value.body[..6] == LLC_SNAP;
    }
  }

  lemma {:induction false} EnqueueValid(cfg: Config, s: MacState, eth: seq<Bits.Octet>)
    requires Valid(cfg, s)
    ensures Valid(cfg, Enqueue(cfg, s, eth).0)
  {
    hide BatchOk, Carriable, TxOk, CwOk, ParseEthernet;
    var t := Enqueue(cfg, s, eth).0;
    EnqueuedCarriable(cfg, s, eth);
    assert TxOk(cfg, t) by { TxUnchanged(cfg, s, t); }
    assert CwOk(cfg, t) by { TxUnchanged(cfg, s, t); }
    forall i | 0 <= i < |t.queue|
      ensures Carriable(cfg, t.queue[i].body)
    {
      assert i < |s.queue| ==> t.queue[i] == s.queue[i];
    }
  }

  // ---- Runs ----

  lemma {:induction false} InitialValid(cfg: Config)
    ensures Valid(cfg, InitialState(cfg))
  {
  }

  lemma {:induction false} StepValid(cfg: Config, s: MacState, i: Input)
    requires Valid(cfg, s)
    ensures Valid(cfg, Step(cfg, s, i).s)
  {
    hide Valid, Enqueue, OnPhyEvent, Poll;
    match i
    case InEnqueue(eth) => EnqueueValid(cfg, s, eth);
    case InPhy(ev, now, draw) => OnPhyEventValid(cfg, s, ev, now, draw);
    case InPoll(now, inp) => PollValid(cfg, s, now, inp);
  }

  /** Every state of every run is valid: a batch exists exactly when the engine is not idle, so the
      batch it counts on after a back-off is there; an unacknowledged batch has one frame. */
  lemma {:induction false} RunValid(cfg: Config, ins: seq<Input>)
    ensures Valid(cfg, Run(cfg, ins).s)
  {
    hide Valid, Step;
    if |ins| == 0 {
      InitialValid(cfg);
    } else {
      RunValid(cfg, ins[..|ins| - 1]);
      StepValid(cfg, Run(cfg, ins[..|ins| - 1]).s, ins[|ins| - 1]);
    }
  }

  /** In plain terms, on every run. */
  lemma {:induction false} NeverStuck(cfg: Config, ins: seq<Input>)
    ensures var s := Run(cfg, ins).s;
            && (s.cur.Some? <==> s.tx.Backoff? || s.tx.AwaitResponse?)
            && (s.cur.Some? && !WantAck(cfg, s.cur.value) ==> |s.cur.value.mpdus| == 1)
            && (s.cur.Some? ==> 1 <= |s.cur.value.mpdus| <= AMPDU_MAX_MPDUS)
  {
    hide Run, Carriable, Measure, MpdusOk;
    RunValid(cfg, ins);
  }

  lemma {:induction false} MeasureBound(cfg: Config, mpdus: seq<PendingMpdu>)
    requires forall i | 0 <= i < |mpdus| :: mpdus[i].retries <= cfg.maxRetries
    ensures |mpdus| <= Measure(cfg, mpdus)
  {
    if |mpdus| > 0 {
      MeasureBound(cfg, mpdus[..|mpdus| - 1]);
    }
  }

  lemma {:induction false} BudgetIs(cfg: Config, n: nat)
    ensures Budget(cfg, n) == n * (cfg.maxRetries + 1)
  {
    if n > 0 {
      BudgetIs(cfg, n - 1);
      assert n * (cfg.maxRetries + 1) == (n - 1) * (cfg.maxRetries + 1) + cfg.maxRetries + 1;
    }
  }

  /** A batch of n frames has seen fewer than n * (max_retries + 1) resolved attempts and unanswered
      RTS as long as it lasts, and no frame is on the air more than max_retries + 1 times, also
      when the batch is sent in pieces. */
  lemma {:induction false} BatchTerminates(cfg: Config, ins: seq<Input>)
    ensures var s := Run(cfg, ins).s;
            s.cur.Some? ==>
              && s.cur.value.resolved < s.cur.value.started * (cfg.maxRetries + 1)
              && forall i | 0 <= i < |s.cur.value.mpdus| :: s.cur.value.mpdus[i].flights <= cfg.maxRetries + 1
  {
    hide Run, Carriable, Measure, Budget;
    RunValid(cfg, ins);
    var s := Run(cfg, ins).s;
    if s.cur.Some? {
      var b := s.cur.value;
      assert forall i | 0 <= i < |b.mpdus| :: MpduOk(cfg, b.base, s.nextId, b.ident, b.mpdus[i], i < |b.inFlight|);
      MeasureBound(cfg, b.mpdus);
      BudgetIs(cfg, b.started);
    }
  }
}

/** What acknowledgments in flight stand for, with NDP acknowledgment. */
module LinkAcks {
  import opened Wrappers
  import opened Words
  import opened Ndp
  import opened MacTypes
  import opened MacSpec
  import opened MacInvariant
  import opened MacAcks
  import opened MacEvolution
  import opened MacReception
  import opened LinkOrder

  // ---- Justified responses ----

  ghost predicate HasId(log: seq<Mpdu>, id: nat) {
    exists i :: 0 <= i < |log| && log[i].id == id
  }

  /** A frame of the batch beginning at `base` with this sequence number is logged. */
  ghost predicate HasSn(log: seq<Mpdu>, base: nat, sn: nat) {
    exists i :: 0 <= i < |log| && log[i].base == base && log[i].sn == sn
  }

  ghost predicate BlockKnown(log: seq<Mpdu>, base: nat, f: NdpFrame)
    requires f.BlockAck?
  {
    forall sn: nat | sn < SEQ_MOD && Acknowledges(f, sn) :: HasSn(log, base, sn)
  }

  /** An Ack stands for the frame it answers, a BlockAck for frames of the batch it answers, and
      they are logged. */
  ghost predicate Justified(body: nat, about: Option<Mpdu>, log: seq<Mpdu>) {
    var f := Parse(body);
    && (f.Ack? ==> about.Some? && HasId(log, about.value.id))
    && (f.BlockAck? ==> about.Some? && BlockKnown(log, about.value.base, f))
  }

  ghost predicate ResponsesOk(rs: seq<Response>, log: seq<Mpdu>) {
    forall i | 0 <= i < |rs| && rs[i].RespondNdp? :: Justified(rs[i].body, rs[i].about, log)
  }

  ghost predicate ActionsOk(ch: seq<Action>, log: seq<Mpdu>) {
    forall i | 0 <= i < |ch| && ch[i].SendNdp? :: Justified(ch[i].body, ch[i].about, log)
  }

  // ---- Longer logs ----

  lemma {:induction false} JustifiedKept(body: nat, about: Option<Mpdu>, log: seq<Mpdu>, more: seq<Mpdu>)
    requires Justified(body, about, log) && LogKept(log, more)
    ensures Justified(body, about, more)
  {
    hide Parse, Acknowledges;
    var f := Parse(body);
    assert forall i | 0 <= i < |log| :: more[i] == more[..|log|][i];
    if f.Ack? {
      var i :| 0 <= i < |log| && log[i].id == about.value.id;
      assert more[i] == log[i];
    }
    if f.BlockAck? {
      forall sn: nat | sn < SEQ_MOD && Acknowledges(f, sn)
        ensures HasSn(more, about.value.base, sn)
      {
        assert HasSn(log, about.value.base, sn);
        var i :| 0 <= i < |log| && log[i].base == about.value.base && log[i].sn == sn;
        assert more[i] == log[i];
      }
    }
  }

  lemma {:induction false} ResponsesKept(rs: seq<Response>, log: seq<Mpdu>, more: seq<Mpdu>)
    requires ResponsesOk(rs, log) && LogKept(log, more)
    ensures ResponsesOk(rs, more)
  {
    hide Justified, LogKept;
    forall i | 0 <= i < |rs| && rs[i].RespondNdp?
      ensures Justified(rs[i].body, rs[i].about, more)
    {
      JustifiedKept(rs[i].body, rs[i].about, log, more);
    }
  }

  lemma {:induction false} ActionsKept(ch: seq<Action>, log: seq<Mpdu>, more: seq<Mpdu>)
    requires ActionsOk(ch, log) && LogKept(log, more)
    ensures ActionsOk(ch, more)
  {
    hide Justified, LogKept;
    forall i | 0 <= i < |ch| && ch[i].SendNdp?
      ensures Justified(ch[i].body, ch[i].about, more)
    {
      JustifiedKept(ch[i].body, ch[i].about, log, more);
    }
  }

  // ---- The receiver answers ----

  /** No MPDU for this station wraps around onto a remembered one. */
  ghost predicate NoneWraps(cfg: Config, log: seq<Mpdu>, ms: seq<Mpdu>) {
    forall i | 0 <= i < |ms| && ForUs(cfg, ms[i]) :: !Wraps(log, ms[i])
  }

  /** An Ack for a logged MPDU is justified. */
  lemma {:induction false} AckJustified(ackId: nat, m: Mpdu, log: seq<Mpdu>)
    requires Got(log, m) && ackId < 0x1_0000
    ensures Justified(ToBody(Ack(ackId, false, false, 0, false)), Some(m), log)
  {
    hide Parse, ToBody;
    FrameRoundTrip(Ack(ackId, false, false, 0, false));
  }

  /** Responses of a station as it answers data: those it had, and Acks for MPDUs logged. */
  lemma {:induction false} OnDataResponses(cfg: Config, s: MacState, m: Mpdu, rx: RxInfo, blockAck: bool, now: nat)
    ensures var t := OnData(cfg, s, m, false, rx, blockAck, now).s;
            || t.responses == s.responses
            || (ForUs(cfg, m) && t.responses == s.responses + [RespondAck(m.msdu.src)])
            || (ForUs(cfg, m)
                && t.responses == s.responses + [RespondNdp(ToBody(Ack(AckId(rx.seed, cfg.fcs(m)), false, false, 0, false)), Some(m))])
  {
    hide ToBody, AckId, Delivery, Remember;
  }

  lemma {:induction false} OneFrameResponses(cfg: Config, s: MacState, ms: seq<Mpdu>, k: nat, fate: Fate, rx: RxInfo, blockAck: bool,
                                             now: nat, draw: nat)
    requires DedupOk(s) && LogGood(s.log) && Burst(ms) && AllReach(s.log, ms) && k < |ms| && NoneWraps(cfg, s.log, ms)
    requires ResponsesOk(s.responses, s.log)
    ensures var o := OnFrame(cfg, s, FrameOf(ms[k], fate), rx, blockAck, now, draw);
            ResponsesOk(o.s.responses, o.s.log) && NoneWraps(cfg, o.s.log, ms)
  {
    hide LogGood, AllReach, Burst, OnData, DedupOk, Counted, LogKept, LogFrom, Got, Wraps, Justified, ToBody, AckId, ForUs;
    var o := OnFrame(cfg, s, FrameOf(ms[k], fate), rx, blockAck, now, draw);
    OneFrameTook(cfg, s, ms, k, fate, rx, blockAck, now, draw);
    ResponsesKept(s.responses, s.log, o.s.log);
    if fate.Good? {
      OnDataResponses(cfg, s.(medium := s.medium.(eifsPending := false)), ms[k], rx, blockAck, now);
      if ForUs(cfg, ms[k]) {
        AckIdFits(rx.seed, cfg.fcs(ms[k]));
        AckJustified(AckId(rx.seed, cfg.fcs(ms[k])), ms[k], o.s.log);
      }
    }
  }

  lemma {:induction false} OnFramesResponses(cfg: Config, s: MacState, ms: seq<Mpdu>, fates: seq<Fate>, eof: bool, rx: RxInfo, blockAck: bool,
                                             now: nat, draw: nat, n: nat)
    requires |ms| == |fates| && n <= |ms|
    requires DedupOk(s) && LogGood(s.log) && Burst(ms) && AllReach(s.log, ms) && NoneWraps(cfg, s.log, ms)
    requires ResponsesOk(s.responses, s.log)
    ensures var o := OnFrames(cfg, s, Heard(ms[..n], fates[..n], eof), rx, blockAck, now, draw);
            ResponsesOk(o.s.responses, o.s.log) && NoneWraps(cfg, o.s.log, ms)
  {
    hide LogGood, AllReach, Burst, DedupOk, OnFrame, OnFrames, Heard, Counted, LogFrom, LogKept, WrapsFrom, NoneWraps, ResponsesOk, Answered;
    if n == 0 {
      NothingHeard(cfg, s, eof, rx, blockAck, now, draw);
      assert ms[..0] == [] && fates[..0] == [];
    } else {
      OnFramesResponses(cfg, s, ms, fates, eof, rx, blockAck, now, draw, n - 1);
      OnFramesTook(cfg, s, ms, fates, eof, rx, blockAck, now, draw, n - 1);
      var (m, f) := (ms[..n], fates[..n]);
      assert m[..n - 1] == ms[..n - 1] && f[..n - 1] == fates[..n - 1];
      var o := OnFrames(cfg, s, Heard(ms[..n - 1], fates[..n - 1], eof), rx, blockAck, now, draw);
      HeardStep(cfg, s, m, f, eof, rx, blockAck, now, draw);
      OneFrameResponses(cfg, o.s, ms, n - 1, fates[n - 1], rx, blockAck, now, draw);
    }
  }

  /** Whatever a block ack covers is a surviving MPDU for this station. */
  lemma {:induction false} CollectedSurvive(cfg: Config, s: MacState, ms: seq<Mpdu>, fates: seq<Fate>, eof: bool, rx: RxInfo, blockAck: bool, n: nat, x: Mpdu)
    requires |ms| == |fates| && n <= |ms| && x in AllBlockAcked(cfg, Heard(ms[..n], fates[..n], eof), blockAck)
    ensures exists i :: 0 <= i < n && fates[i].Good? && ForUs(cfg, ms[i]) && ms[i] == x
  {
    hide AllBlockAcked, Heard, OnFrame, OnFrames, ForUs;
    if n == 0 {
      assert ms[..0] == [] && fates[..0] == [];
      NothingHeard(cfg, s, eof, rx, blockAck, 0, 0);
    } else {
      var (m, f) := (ms[..n], fates[..n]);
      assert m[..n - 1] == ms[..n - 1] && f[..n - 1] == fates[..n - 1];
      HeardLast(cfg, s, m, f, eof, rx, blockAck, 0, 0);
      if x in AllBlockAcked(cfg, Heard(ms[..n - 1], fates[..n - 1], eof), blockAck) {
        CollectedSurvive(cfg, s, ms, fates, eof, rx, blockAck, n - 1, x);
      } else {
        assert fates[n - 1].Good? && ForUs(cfg, ms[n - 1]) && ms[n - 1] == x;
      }
    }
  }

  /** A block ack over logged frames of one batch is justified. */
  lemma {:induction false} BlockAckJustified(seed: nat, covered: seq<Mpdu>, log: seq<Mpdu>)
    requires |covered| > 0
    requires forall i | 0 <= i < |covered| :: covered[i].sn < SEQ_MOD && HasSn(log, covered[|covered| - 1].base, covered[i].sn)
    ensures Justified(ToBody(BlockAckFor(seed, Sns(covered))), Some(covered[|covered| - 1]), log)
  {
    hide Parse, ToBody, BlockAckFor, Acknowledges, HasSn, SeqDiff;
    var sns := Sns(covered);
    var f := Parse(ToBody(BlockAckFor(seed, sns)));
    BlockAckAgreement(seed, sns, 0);
    assert f == BlockAckFor(seed, sns);
    IsBlockAck(seed, sns);
    forall sn: nat | sn < SEQ_MOD && Acknowledges(f, sn)
      ensures HasSn(log, covered[|covered| - 1].base, sn)
    {
      BlockAckAgreement(seed, sns, sn);
      var i :| 0 <= i < |sns| && sns[i] % SEQ_MOD == sn % SEQ_MOD;
      assert covered[i].sn == sn;
    }
  }

  lemma {:induction false} IsBlockAck(seed: nat, sns: seq<nat>)
    requires |sns| > 0
    ensures BlockAckFor(seed, sns).BlockAck?
  {
  }

  /** The logged copy of a frame that may still come is of the same batch. */
  lemma {:induction false} GotSn(log: seq<Mpdu>, m: Mpdu)
    requires LogGood(log) && Window(m) && Reaches(log, m) && Got(log, m)
    ensures HasSn(log, m.base, m.sn) && m.sn < SEQ_MOD
  {
    var i :| 0 <= i < |log| && SameFrame(log[i], m);
    assert Window(log[i]) && Before(log[i], m);
  }

  /** Answering data adds justified responses only, unless a number wraps around. */
  lemma {:induction false} DataAnswered(cfg: Config, r: MacState, p: Ppdu, fates: seq<Fate>, now: nat, draw: nat)
    requires |fates| == |p.mpdus| && DedupOk(r) && LogGood(r.log) && Burst(p.mpdus) && AllReach(r.log, p.mpdus)
    requires NoneWraps(cfg, r.log, p.mpdus) && ResponsesOk(r.responses, r.log)
    ensures var o := OnPhyEvent(cfg, r, Arrival(p, fates), now, draw); ResponsesOk(o.s.responses, o.s.log)
  {
    hide LogGood, DedupOk, OnFrames, Heard, Counted, LogFrom, LogKept, WrapsFrom, Window, Reaches, Wraps, Got, Justified, HasSn, AllBlockAcked, ToBody, BlockAckFor, ForUs;
    var (ms, n) := (p.mpdus, |p.mpdus|);
    assert ms[..n] == ms && fates[..n] == fates;
    var frames := Heard(ms, fates, EofOf(p));
    var blockAck := WantsBlockAck(RxOf(p), frames);
    OnFramesResponses(cfg, r, ms, fates, EofOf(p), RxOf(p), blockAck, now, draw, n);
    OnFramesTook(cfg, r, ms, fates, EofOf(p), RxOf(p), blockAck, now, draw, n);
    var o := OnFrames(cfg, r, frames, RxOf(p), blockAck, now, draw);
    var covered := AllBlockAcked(cfg, frames, blockAck);
    if |covered| > 0 {
      forall i | 0 <= i < |covered|
        ensures covered[i].sn < SEQ_MOD && HasSn(o.s.log, covered[i].base, covered[i].sn) && covered[i] in ms
      {
        CollectedSurvive(cfg, r, ms, fates, EofOf(p), RxOf(p), blockAck, n, covered[i]);
        var k :| 0 <= k < n && fates[k].Good? && ForUs(cfg, ms[k]) && ms[k] == covered[i];
        GotSn(o.s.log, ms[k]);
      }
      forall i | 0 <= i < |covered|
        ensures covered[i].base == covered[|covered| - 1].base
      {
        OneBase(ms, covered[i], covered[|covered| - 1]);
      }
      BlockAckJustified(p.seed, covered, o.s.log);
    }
  }

  lemma {:induction false} OneBase(ms: seq<Mpdu>, x: Mpdu, y: Mpdu)
    requires Burst(ms) && x in ms && y in ms
    ensures x.base == y.base
  {
    var i :| 0 <= i < |ms| && ms[i] == x;
    var j :| 0 <= j < |ms| && ms[j] == y;
    assert Before(ms[i], ms[j]) && Before(ms[j], ms[i]);
  }

  // ---- Receiving anything but data ----

  /** A CTS acknowledges nothing. */
  lemma {:induction false} CtsJustified(cfg: Config, ta: Addr, d: nat, log: seq<Mpdu>)
    ensures Justified(ToBody(CtsFor(cfg, ta, d)), None, log)
  {
    hide Parse, ToBody;
    FrameRoundTrip(CtsFor(cfg, ta, d));
  }

  lemma {:induction false} OnFrameResponses(cfg: Config, s: MacState, f: Frame, rx: RxInfo, blockAck: bool, now: nat, draw: nat)
    requires !f.DataFrame? && ResponsesOk(s.responses, s.log)
    ensures var o := OnFrame(cfg, s, f, rx, blockAck, now, draw); ResponsesOk(o.s.responses, s.log)
  {
    hide OnAckFrame, ToBody, Justified, CtsFor;
    OnFrameFacts(cfg, s, f, rx, blockAck, now, draw);
    if f.RtsFrame? {
      CtsJustified(cfg, f.ta, f.durationUs, s.log);
    }
  }

  lemma {:induction false} OnFramesOk(cfg: Config, s: MacState, frames: seq<(Frame, bool)>, rx: RxInfo, blockAck: bool, now: nat, draw: nat)
    requires NoData(frames) && ResponsesOk(s.responses, s.log)
    ensures var o := OnFrames(cfg, s, frames, rx, blockAck, now, draw); o.s.log == s.log && ResponsesOk(o.s.responses, s.log)
  {
    hide OnFrame, ResponsesOk;
    if |frames| > 0 {
      var (before, last) := (frames[..|frames| - 1], frames[|frames| - 1].0);
      OnFramesOk(cfg, s, before, rx, blockAck, now, draw);
      var t := OnFrames(cfg, s, before, rx, blockAck, now, draw).s;
      OnFrameFacts(cfg, t, last, rx, blockAck, now, draw);
      OnFrameResponses(cfg, t, last, rx, blockAck, now, draw);
    }
  }

  /** An event without data adds no acknowledgment. */
  lemma {:induction false} EventResponses(cfg: Config, s: MacState, ev: PhyEvent, now: nat, draw: nat)
    requires (ev.PsduHeard? ==> NoData(ev.frames)) && ResponsesOk(s.responses, s.log)
    ensures var o := OnPhyEvent(cfg, s, ev, now, draw); o.s.log == s.log && ResponsesOk(o.s.responses, s.log)
  {
    hide OnFrames, OnNdp, Parse, ToBody, OnRxStart, AllBlockAcked, WantsBlockAck, BlockAckFor, ResponsesOk;
    match ev
    case NdpHeard(body) =>
      OnNdpFacts(cfg, s, Parse(body), now, draw);
    case PsduHeard(rx, frames) =>
      OnFramesOk(cfg, s, frames, rx, WantsBlockAck(rx, frames), now, draw);
      OnFramesFacts(cfg, s, frames, rx, WantsBlockAck(rx, frames), now, draw);
    case _ =>
  }

  // ---- The sender is answered ----

  /** The frame a completed transmission reports was logged by the receiver, octet for octet. */
  ghost predicate Delivered(log: seq<Mpdu>, e: MacEvent) {
    e.TxComplete? && e.acked ==>
      Encapsulated(e.msdu.body) && exists i :: 0 <= i < |log| && log[i].id == e.id && log[i].msdu == e.msdu
  }

  ghost predicate AllDelivered(log: seq<Mpdu>, events: seq<MacEvent>) {
    forall i | 0 <= i < |events| :: Delivered(log, events[i])
  }

  /** An Ack heard while another frame's with the same Ack ID is awaited. */
  ghost predicate LateAck(s: MacState, body: nat, about: Option<Mpdu>) {
    var f := Parse(body);
    && f.Ack? && s.tx.AwaitResponse? && s.tx.awaited == ExpectNdpAck(f.ackId)
    && about.Some? && s.cur.Some? && |s.cur.value.mpdus| > 0 && about.value.id != s.cur.value.mpdus[0].id
  }

  /** A BlockAck heard while one with the same id is awaited, and more than 4096 frames old. */
  ghost predicate LateBlockAck(s: MacState, body: nat, about: Option<Mpdu>) {
    var f := Parse(body);
    && f.BlockAck? && s.tx.AwaitResponse? && s.tx.awaited == ExpectBlockAck(f.blockAckId)
    && about.Some? && about.value.base + SEQ_MOD < s.nextId
  }

  /** A frame of the batch whose id is logged was logged as it is. */
  lemma {:induction false} LoggedContent(cfg: Config, s: MacState, log: seq<Mpdu>, i: nat, acks: Acks, flown: seq<nat>, e: MacEvent)
    requires Valid(cfg, s) && s.cur.Some? && AllSettled(s, log) && i < |s.cur.value.mpdus| && !s.cur.value.ident
    requires HasId(log, s.cur.value.mpdus[i].id)
    requires e.TxComplete? && e.id == s.cur.value.mpdus[i].id && e.msdu == MsduOf(s.cur.value, s.cur.value.mpdus[i])
    ensures Delivered(log, e)
  {
    hide Admissible, Measure, Budget, TxOk, CwOk, Window;
    var b := s.cur.value;
    var k :| 0 <= k < |log| && log[k].id == b.mpdus[i].id;
    assert Settled(s, log[k]);
    assert MpduOk(cfg, b.base, s.nextId, b.ident, b.mpdus[i], i < |b.inFlight|);
  }

  /** A frame of the batch and one logged no more than 4096 frames before its end are the same if
      they have the same sequence number. */
  lemma {:induction false} SnTells(cfg: Config, s: MacState, log: seq<Mpdu>, base: nat, i: nat)
    requires Valid(cfg, s) && s.cur.Some? && AllSettled(s, log) && i < |s.cur.value.mpdus| && s.nextId <= base + SEQ_MOD
    requires HasSn(log, base, s.cur.value.mpdus[i].sn)
    ensures HasId(log, s.cur.value.mpdus[i].id)
  {
    hide Admissible, Measure, Budget, TxOk, CwOk, Content;
    var b := s.cur.value;
    var k :| 0 <= k < |log| && log[k].base == base && log[k].sn == b.mpdus[i].sn;
    assert Settled(s, log[k]);
    assert MpduOk(cfg, b.base, s.nextId, b.ident, b.mpdus[i], i < |b.inFlight|);
    SameResidue(base, log[k].id, b.mpdus[i].id);
  }

  lemma {:induction false} SameResidue(base: nat, x: nat, y: nat)
    requires base <= x < base + SEQ_MOD && base <= y < base + SEQ_MOD && x % SEQ_MOD == y % SEQ_MOD
    ensures x == y
  {
  }

  /** Frames resolved by acknowledgments that cover only logged ids are delivered. */
  lemma {:induction false} ResolveDelivers(cfg: Config, s: MacState, acks: Acks, now: nat, draw: nat, log: seq<Mpdu>)
    requires Valid(cfg, s) && s.tx.AwaitResponse? && AllSettled(s, log)
    requires forall i: nat | s.cur.Some? && i < |s.cur.value.mpdus| && i in s.cur.value.inFlight && acks.Covers(s.cur.value.mpdus[i].sn) ::
               HasId(log, s.cur.value.mpdus[i].id)
    ensures AllDelivered(log, Resolve(cfg, s, acks, now, draw).events)
  {
    hide Valid, SweepTo, Acks.Covers, HasId, AllSettled, AllIn, Delivered;
    AwaitedCur(cfg, s);
    var b := s.cur.value;
    SweepFrom(b, b.inFlight, acks, cfg.maxRetries, |b.mpdus|);
    var events := SweepTo(b, b.inFlight, acks, cfg.maxRetries, |b.mpdus|).events;
    assert Resolve(cfg, s, acks, now, draw).events == events;
    forall k | 0 <= k < |events|
      ensures Delivered(log, events[k])
    {
      assert Reported(b, b.inFlight, acks, events[k]);
      if events[k].TxComplete? && events[k].acked {
        var i: nat :| i < |b.mpdus| && i in b.inFlight && acks.Covers(b.mpdus[i].sn) && events[k].id == b.mpdus[i].id && events[k].msdu == MsduOf(b, b.mpdus[i]);
        LoggedContent(cfg, s, log, i, acks, b.inFlight, events[k]);
      } else {
        NotAckedDelivered(log, events[k]);
      }
    }
  }

  lemma {:induction false} NotAckedDelivered(log: seq<Mpdu>, e: MacEvent)
    requires !(e.TxComplete? && e.acked)
    ensures Delivered(log, e)
  {
  }

  lemma {:induction false} AwaitedCur(cfg: Config, s: MacState)
    requires Valid(cfg, s) && s.tx.AwaitResponse?
    ensures s.cur.Some? && !s.cur.value.ident && AwaitOk(cfg, s.cur.value, s.tx.awaited) && s.cur.value.inFlight == Indices(|s.cur.value.inFlight|)
  {
    hide Admissible, Measure, Budget, MpdusOk;
  }

  lemma {:induction false} SameDelay(cfg: Config, s: MacState, t: MacState, log: seq<Mpdu>)
    requires Valid(cfg, s) && AllSettled(s, log) && t == s.(delay := t.delay, medium := t.medium)
    ensures Valid(cfg, t) && AllSettled(t, log)
  {
    hide Valid, Content, Window;
    SameCoreValid(cfg, s, t);
    forall i | 0 <= i < |log|
      ensures Settled(t, log[i])
    {
      assert Settled(s, log[i]);
    }
  }

  /** The awaited Ack: the one frame on the air is logged. */
  lemma {:induction false} AckDelivers(cfg: Config, s: MacState, body: nat, about: Option<Mpdu>, now: nat, draw: nat, log: seq<Mpdu>)
    requires Parse(body).Ack? && Valid(cfg, s) && AllSettled(s, log) && Justified(body, about, log) && !LateAck(s, body, about)
    ensures AllDelivered(log, OnNdpAck(cfg, s, Parse(body), now, draw).events)
  {
    hide Valid, Parse, Resolve, AllSettled, HasId, NoteLate, UpdateDelay, Delivered;
    var f := Parse(body);
    if s.tx.AwaitResponse? && s.tx.awaited == ExpectNdpAck(f.ackId) {
      AwaitedCur(cfg, s);
      var d := s.(delay := NoteResponse(s.delay, now));
      SameDelay(cfg, s, d, log);
      ResolveDelivers(cfg, d, AckAll, now, draw, log);
    }
  }

  /** The awaited block ack: every covered frame is logged. */
  lemma {:induction false} BlockAckDelivers(cfg: Config, s: MacState, body: nat, about: Option<Mpdu>, now: nat, draw: nat, log: seq<Mpdu>)
    requires Parse(body).BlockAck? && Valid(cfg, s) && AllSettled(s, log) && Justified(body, about, log) && !LateBlockAck(s, body, about)
    ensures AllDelivered(log, OnBlockAck(cfg, s, Parse(body), now, draw).events)
  {
    hide Valid, Parse, Resolve, AllSettled, HasId, HasSn, NoteLate, UpdateDelay, Delivered, GetBit, SeqDiff;
    var f := Parse(body);
    if s.tx.AwaitResponse? && s.tx.awaited == ExpectBlockAck(f.blockAckId) {
      AwaitedCur(cfg, s);
      var d := s.(delay := NoteResponse(s.delay, now));
      SameDelay(cfg, s, d, log);
      var b := s.cur.value;
      forall i: nat | i < |b.mpdus| && i in b.inFlight && AckBitmap(f.ssn, f.bitmap).Covers(b.mpdus[i].sn)
        ensures HasId(log, b.mpdus[i].id)
      {
        SnFits(cfg, s, i);
        assert Acknowledges(f, b.mpdus[i].sn);
        SnTells(cfg, s, log, about.value.base, i);
      }
      ResolveDelivers(cfg, d, AckBitmap(f.ssn, f.bitmap), now, draw, log);
    }
  }

  lemma {:induction false} SnFits(cfg: Config, s: MacState, i: nat)
    requires Valid(cfg, s) && s.cur.Some? && i < |s.cur.value.mpdus|
    ensures s.cur.value.mpdus[i].sn < SEQ_MOD
  {
    hide Admissible, Measure, Budget, TxOk, CwOk;
    var b := s.cur.value;
    assert MpduOk(cfg, b.base, s.nextId, b.ident, b.mpdus[i], i < |b.inFlight|);
  }

  lemma {:induction false} NdpDelivers(cfg: Config, s: MacState, body: nat, about: Option<Mpdu>, now: nat, draw: nat, log: seq<Mpdu>)
    requires Valid(cfg, s) && AllSettled(s, log) && Justified(body, about, log) && !LateAck(s, body, about) && !LateBlockAck(s, body, about)
    ensures AllDelivered(log, OnNdp(cfg, s, Parse(body), now, draw).events)
  {
    hide Valid, Parse, OnNdpAck, OnBlockAck, OnCts, AllSettled, Justified;
    var f := Parse(body);
    var rid := NdpRidLength(cfg, f);
    var t := if rid > 0 then s.(medium := ExtendRid(s.medium, now + rid)) else s;
    SameDelay(cfg, s, t, log);
    if f.Ack? {
      AckDelivers(cfg, t, body, about, now, draw, log);
    } else if f.BlockAck? {
      BlockAckDelivers(cfg, t, body, about, now, draw, log);
    }
  }

  // ---- A PSDU acknowledges nothing under NDP acknowledgment ----

  lemma {:induction false} DeliveryDelivered(cfg: Config, m: Mpdu, log: seq<Mpdu>)
    ensures AllDelivered(log, Delivery(cfg, m))
  {
    hide IsIdent, ToEthernet;
  }

  lemma {:induction false} OnFrameDelivered(cfg: Config, s: MacState, f: Frame, rx: RxInfo, blockAck: bool, now: nat, draw: nat, log: seq<Mpdu>)
    requires Valid(cfg, s) && cfg.ndpAck
    ensures AllDelivered(log, OnFrame(cfg, s, f, rx, blockAck, now, draw).events)
  {
    hide Valid, Resolve, NoteLate, UpdateDelay, ToBody, AckId, Remember, Delivery, Delivered;
    if s.tx.AwaitResponse? {
      AwaitedCur(cfg, s);
    }
    if f.DataFrame? {
      DeliveryDelivered(cfg, f.mpdu, log);
    }
  }

  lemma {:induction false} OnFramesDelivered(cfg: Config, s: MacState, frames: seq<(Frame, bool)>, rx: RxInfo, blockAck: bool, now: nat, draw: nat, log: seq<Mpdu>)
    requires Valid(cfg, s) && cfg.ndpAck
    ensures AllDelivered(log, OnFrames(cfg, s, frames, rx, blockAck, now, draw).events)
  {
    hide Valid, OnFrame, Delivered;
    if |frames| > 0 {
      var (before, last) := (frames[..|frames| - 1], frames[|frames| - 1].0);
      OnFramesDelivered(cfg, s, before, rx, blockAck, now, draw, log);
      FramesValid(cfg, s, before, rx, blockAck, now, draw);
      OnFrameDelivered(cfg, OnFrames(cfg, s, before, rx, blockAck, now, draw).s, last, rx, blockAck, now, draw, log);
    }
  }

  /** Whatever arrives, if a response in it is justified and not late, reported acknowledgments are
      of logged frames. */
  lemma {:induction false} EventDelivers(cfg: Config, s: MacState, ev: PhyEvent, about: Option<Mpdu>, now: nat, draw: nat, log: seq<Mpdu>)
    requires Valid(cfg, s) && cfg.ndpAck && AllSettled(s, log)
    requires ev.NdpHeard? ==> Justified(ev.body, about, log) && !LateAck(s, ev.body, about) && !LateBlockAck(s, ev.body, about)
    ensures AllDelivered(log, OnPhyEvent(cfg, s, ev, now, draw).events)
  {
    hide Valid, OnFrames, OnNdp, Parse, ToBody, OnRxStart, AllBlockAcked, WantsBlockAck, BlockAckFor, AllSettled, Justified, LateAck, LateBlockAck;
    match ev
    case NdpHeard(body) => NdpDelivers(cfg, s, body, about, now, draw, log);
    case PsduHeard(rx, frames) => OnFramesDelivered(cfg, s, frames, rx, WantsBlockAck(rx, frames), now, draw, log);
    case _ =>
  }
}

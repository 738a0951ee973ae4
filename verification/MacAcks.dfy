/** Acknowledgment agreement: what the receiver of a PPDU answers is what its sender awaits
    (`plan_attempt`, `poll`, `queue_ack`, `queue_block_ack` and `on_ndp` of
    crates/s2g-mac/src/engine.rs). */
module MacAcks {
  import opened Wrappers
  import opened Words
  import opened Ndp
  import opened MacTypes
  import opened MacSpec
  import opened MacInvariant

  // ---- What arrives ----

  /** An MPDU arrives intact, arrives with a bad check sequence, or is not found at all. */
  datatype Fate = Good | Bad | Lost

  /** Frames the receiver finds of the MPDUs of a PPDU. */
  function Heard(mpdus: seq<Mpdu>, fates: seq<Fate>, eof: bool): seq<(Frame, bool)>
    requires |mpdus| == |fates|
  {
    if |mpdus| == 0 then []
    else
      var n := |mpdus| - 1;
      Heard(mpdus[..n], fates[..n], eof)
      + match fates[n]
        case Good => [(DataFrame(mpdus[n], false), eof)]
        case Bad => [(BrokenFrame, eof)]
        case Lost => []
  }

  function Survivors(mpdus: seq<Mpdu>, fates: seq<Fate>): seq<Mpdu>
    requires |mpdus| == |fates|
  {
    if |mpdus| == 0 then []
    else
      var n := |mpdus| - 1;
      Survivors(mpdus[..n], fates[..n]) + if fates[n].Good? then [mpdus[n]] else []
  }

  /** An S-MPDU is one MPDU in an aggregated PPDU. */
  function EofOf(p: Ppdu): bool {
    p.aggregated && |p.mpdus| == 1
  }

  function RxOf(p: Ppdu): RxInfo {
    RxInfo(p.aggregated, p.response, p.seed)
  }

  function Arrival(p: Ppdu, fates: seq<Fate>): PhyEvent
    requires |p.mpdus| == |fates|
  {
    PsduHeard(RxOf(p), Heard(p.mpdus, fates, EofOf(p)))
  }

  // ---- The receiver ----

  /** Addressed to this station by another one. */
  predicate AllForUs(cfg: Config, mpdus: seq<Mpdu>) {
    forall i | 0 <= i < |mpdus| :: ForUs(cfg, mpdus[i])
  }

  /** Responses after answering the survivors one by one. */
  function AnswerEach(cfg: Config, rx: RxInfo, mpdus: seq<Mpdu>): seq<Response> {
    if |mpdus| == 0 then []
    else AnswerEach(cfg, rx, mpdus[..|mpdus| - 1])
         + [RespondNdp(ToBody(Ack(AckId(rx.seed, cfg.fcs(mpdus[|mpdus| - 1])), false, false, 0, false)), Some(mpdus[|mpdus| - 1]))]
  }

  lemma {:induction false} OnFrameAnswer(cfg: Config, s: MacState, f: Frame, rx: RxInfo, blockAck: bool, now: nat, draw: nat)
    requires f.BrokenFrame? || (f.DataFrame? && !f.noAck && ForUs(cfg, f.mpdu))
    requires cfg.ackEnabled && rx.response.NdpResponse?
    ensures OnFrame(cfg, s, f, rx, blockAck, now, draw).s.responses
            == s.responses + if f.BrokenFrame? || blockAck then [] else AnswerEach(cfg, rx, [f.mpdu])
  {
    hide ToBody, AckId, Delivery, Remember;
    if f.DataFrame? {
      assert [f.mpdu][..0] == [];
    }
  }

  lemma {:induction false} AnswerAppend(cfg: Config, rx: RxInfo, mpdus: seq<Mpdu>, m: Mpdu)
    ensures AnswerEach(cfg, rx, mpdus + [m]) == AnswerEach(cfg, rx, mpdus) + AnswerEach(cfg, rx, [m])
  {
    hide ToBody, AckId;
    assert (mpdus + [m])[..|mpdus|] == mpdus;
    assert [m][..0] == [];
  }

  function FrameOf(m: Mpdu, fate: Fate): Frame {
    if fate.Good? then DataFrame(m, false) else BrokenFrame
  }

  /** One more frame heard. */
  lemma {:induction false} HeardLast(cfg: Config, s: MacState, mpdus: seq<Mpdu>, fates: seq<Fate>, eof: bool, rx: RxInfo, blockAck: bool, now: nat, draw: nat)
    requires |mpdus| == |fates| && |mpdus| > 0
    ensures var n := |mpdus| - 1;
            var (before, all) := (Heard(mpdus[..n], fates[..n], eof), Heard(mpdus, fates, eof));
            var f := FrameOf(mpdus[n], fates[n]);
            && Survivors(mpdus, fates) == Survivors(mpdus[..n], fates[..n]) + (if fates[n].Good? then [mpdus[n]] else [])
            && AllBlockAcked(cfg, all, blockAck)
               == AllBlockAcked(cfg, before, blockAck) + (if fates[n].Lost? then [] else BlockAcked(cfg, f, blockAck))
            && (fates[n].Lost? ==> all == before)
            && (!fates[n].Lost? ==>
                OnFrames(cfg, s, all, rx, blockAck, now, draw).s
                == OnFrame(cfg, OnFrames(cfg, s, before, rx, blockAck, now, draw).s, f, rx, blockAck, now, draw).s)
  {
    hide OnFrame, BlockAcked;
    var n := |mpdus| - 1;
    var (before, all) := (Heard(mpdus[..n], fates[..n], eof), Heard(mpdus, fates, eof));
    if !fates[n].Lost? {
      assert all[..|before|] == before;
    } else {
      assert all == before;
    }
  }

  lemma {:induction false} Assoc(a: seq<Response>, b: seq<Response>, c: seq<Response>)
    ensures a + b + c == a + (b + c)
  {
  }

  lemma {:induction false} AnswerNothing(cfg: Config, rx: RxInfo)
    ensures AnswerEach(cfg, rx, []) == []
  {
  }

  /** Single MPDUs are answered one by one, those of an A-MPDU not at all. */
  lemma {:induction false} OnFramesAnswer(cfg: Config, s: MacState, mpdus: seq<Mpdu>, fates: seq<Fate>, eof: bool, rx: RxInfo,
                                          blockAck: bool, now: nat, draw: nat)
    requires |mpdus| == |fates| && AllForUs(cfg, mpdus) && cfg.ackEnabled && rx.response.NdpResponse?
    ensures OnFrames(cfg, s, Heard(mpdus, fates, eof), rx, blockAck, now, draw).s.responses
            == s.responses + if blockAck then [] else AnswerEach(cfg, rx, Survivors(mpdus, fates))
  {
    hide OnFrame, AnswerEach, Survivors, Heard, OnFrames, AllBlockAcked, ForUs;
    AnswerNothing(cfg, rx);
    if |mpdus| == 0 {
      NothingHeard(cfg, s, eof, rx, blockAck, now, draw);
    } else {
      var n := |mpdus| - 1;
      OnFramesAnswer(cfg, s, mpdus[..n], fates[..n], eof, rx, blockAck, now, draw);
      HeardLast(cfg, s, mpdus, fates, eof, rx, blockAck, now, draw);
      assert ForUs(cfg, mpdus[n]);
      var t := OnFrames(cfg, s, Heard(mpdus[..n], fates[..n], eof), rx, blockAck, now, draw).s;
      OnFrameAnswer(cfg, t, FrameOf(mpdus[n], fates[n]), rx, blockAck, now, draw);
      var earlier := Survivors(mpdus[..n], fates[..n]);
      AnswerAppend(cfg, rx, earlier, mpdus[n]);
      Assoc(s.responses, AnswerEach(cfg, rx, earlier), AnswerEach(cfg, rx, [mpdus[n]]));
      assert fates[n].Good? ==> Survivors(mpdus, fates) == earlier + [mpdus[n]];
      assert !fates[n].Good? ==> Survivors(mpdus, fates) == earlier;
    }
  }

  lemma {:induction false} NothingHeard(cfg: Config, s: MacState, eof: bool, rx: RxInfo, blockAck: bool, now: nat, draw: nat)
    ensures OnFrames(cfg, s, Heard([], [], eof), rx, blockAck, now, draw) == Out(s, [])
    ensures Survivors([], []) == [] && AllBlockAcked(cfg, Heard([], [], eof), blockAck) == []
  {
  }

  /** The block ack covers the survivors, in order. */
  lemma {:induction false} BlockAckedSurvivors(cfg: Config, s: MacState, mpdus: seq<Mpdu>, fates: seq<Fate>, eof: bool, rx: RxInfo, now: nat)
    requires |mpdus| == |fates| && AllForUs(cfg, mpdus) && cfg.ackEnabled
    ensures AllBlockAcked(cfg, Heard(mpdus, fates, eof), true) == Survivors(mpdus, fates)
    ensures AllBlockAcked(cfg, Heard(mpdus, fates, eof), false) == []
  {
    hide OnFrame, Survivors, Heard, OnFrames, AllBlockAcked, ForUs;
    if |mpdus| == 0 {
      NothingHeard(cfg, s, eof, rx, true, now, 0);
      NothingHeard(cfg, s, eof, rx, false, now, 0);
    } else {
      var n := |mpdus| - 1;
      BlockAckedSurvivors(cfg, s, mpdus[..n], fates[..n], eof, rx, now);
      HeardLast(cfg, s, mpdus, fates, eof, rx, true, now, 0);
      HeardLast(cfg, s, mpdus, fates, eof, rx, false, now, 0);
      assert ForUs(cfg, mpdus[n]);
    }
  }

  lemma {:induction false} SnsAppend(mpdus: seq<Mpdu>, m: Mpdu)
    ensures Sns(mpdus + [m]) == Sns(mpdus) + [m.sn]
  {
  }

  lemma {:induction false} SurvivorsAre(mpdus: seq<Mpdu>, fates: seq<Fate>)
    requires |mpdus| == |fates|
    ensures |Survivors(mpdus, fates)| <= |mpdus|
    ensures forall m :: m in Survivors(mpdus, fates) <==> exists i :: 0 <= i < |mpdus| && fates[i].Good? && mpdus[i] == m
  {
    if |mpdus| > 0 {
      var n := |mpdus| - 1;
      SurvivorsAre(mpdus[..n], fates[..n]);
      forall m | m in Survivors(mpdus, fates)
        ensures exists i :: 0 <= i < |mpdus| && fates[i].Good? && mpdus[i] == m
      {
        if m in Survivors(mpdus[..n], fates[..n]) {
          var i :| 0 <= i < n && fates[..n][i].Good? && mpdus[..n][i] == m;
          assert fates[i].Good? && mpdus[i] == m;
        } else {
          assert fates[n].Good? && mpdus[n] == m;
        }
      }
      forall i | 0 <= i < |mpdus| && fates[i].Good?
        ensures mpdus[i] in Survivors(mpdus, fates)
      {
        if i < n {
          assert fates[..n][i].Good? && mpdus[..n][i] == mpdus[i];
        }
      }
    }
  }

  // ---- Sequence numbers within one PPDU ----

  /** MPDUs of one batch: at most sixteen consecutive ids, in order, sent modulo 4096. */
  ghost predicate OneBatch(mpdus: seq<Mpdu>, base: nat) {
    && (forall i | 0 <= i < |mpdus| :: base <= mpdus[i].id < base + AMPDU_MAX_MPDUS && mpdus[i].sn == mpdus[i].id % SEQ_MOD)
    && (forall i, j | 0 <= i < j < |mpdus| :: mpdus[i].id < mpdus[j].id)
  }

  lemma {:induction false} FirstSurvivor(mpdus: seq<Mpdu>, fates: seq<Fate>, base: nat, i: nat)
    requires |mpdus| == |fates| && OneBatch(mpdus, base) && i < |mpdus| && fates[i].Good?
    ensures |Survivors(mpdus, fates)| > 0 && Survivors(mpdus, fates)[0].id <= mpdus[i].id
  {
    var n := |mpdus| - 1;
    SurvivorsAre(mpdus[..n], fates[..n]);
    if i < n {
      FirstSurvivor(mpdus[..n], fates[..n], base, i);
    } else if |Survivors(mpdus[..n], fates[..n])| > 0 {
      var first := Survivors(mpdus[..n], fates[..n])[0];
      assert first in Survivors(mpdus[..n], fates[..n]);
      var j :| 0 <= j < n && fates[..n][j].Good? && mpdus[..n][j] == first;
      assert mpdus[j] == first;
    }
  }

  /** Within sixteen ids, sequence numbers tell frames apart and keep their distance. */
  lemma {:induction false} NearIds(a: nat, b: nat, base: nat)
    requires base <= a < base + 16 && base <= b < base + 16
    ensures a % SEQ_MOD == b % SEQ_MOD <==> a == b
    ensures a >= b ==> SeqDiff(a % SEQ_MOD, b % SEQ_MOD) < 16
    ensures a % SEQ_MOD % SEQ_MOD == a % SEQ_MOD
  {
  }

  lemma {:induction false} SnsDiffer(mpdus: seq<Mpdu>, base: nat, i: nat, k: nat)
    requires OneBatch(mpdus, base) && i < |mpdus| && k < |mpdus|
    ensures mpdus[k].sn % SEQ_MOD == mpdus[i].sn % SEQ_MOD <==> k == i
  {
    NearIds(mpdus[k].id, mpdus[i].id, base);
    NearIds(mpdus[i].id, mpdus[k].id, base);
  }

  /** A sequence number among those received is that of a survivor. */
  lemma {:induction false} ReceivedIffGood(mpdus: seq<Mpdu>, fates: seq<Fate>, base: nat, i: nat)
    requires |mpdus| == |fates| && OneBatch(mpdus, base) && i < |mpdus|
    ensures var sns := Sns(Survivors(mpdus, fates));
            (exists k :: 0 <= k < |sns| && sns[k] % SEQ_MOD == mpdus[i].sn % SEQ_MOD) <==> fates[i].Good?
  {
    hide Survivors, OneBatch;
    var s := Survivors(mpdus, fates);
    SurvivorsAre(mpdus, fates);
    if fates[i].Good? {
      assert mpdus[i] in s;
      var k :| 0 <= k < |s| && s[k] == mpdus[i];
      assert Sns(s)[k] == mpdus[i].sn;
    }
    forall k | 0 <= k < |s| && s[k].sn % SEQ_MOD == mpdus[i].sn % SEQ_MOD
      ensures fates[i].Good?
    {
      assert s[k] in s;
      var l :| 0 <= l < |mpdus| && fates[l].Good? && mpdus[l] == s[k];
      SnsDiffer(mpdus, base, i, l);
    }
  }

  /** A survivor is within sixteen of the first one. */
  lemma {:induction false} NearFirst(mpdus: seq<Mpdu>, fates: seq<Fate>, base: nat, i: nat)
    requires |mpdus| == |fates| && OneBatch(mpdus, base) && i < |mpdus| && fates[i].Good?
    ensures var s := Survivors(mpdus, fates); |s| > 0 && SeqDiff(mpdus[i].sn, s[0].sn) < 16
  {
    hide Survivors, SeqDiff;
    var s := Survivors(mpdus, fates);
    FirstSurvivor(mpdus, fates, base, i);
    SurvivorsAre(mpdus, fates);
    assert s[0] in s;
    var j :| 0 <= j < |mpdus| && fates[j].Good? && mpdus[j] == s[0];
    NearIds(mpdus[i].id, mpdus[j].id, base);
  }

  /** The sender takes as acknowledged exactly the MPDUs that survived. */
  lemma {:induction false} AcknowledgedIffGood(seed: nat, mpdus: seq<Mpdu>, fates: seq<Fate>, base: nat, i: nat)
    requires |mpdus| == |fates| && OneBatch(mpdus, base) && i < |mpdus| && |Survivors(mpdus, fates)| > 0
    ensures var got := Parse(ToBody(BlockAckFor(seed, Sns(Survivors(mpdus, fates)))));
            && got == BlockAckFor(seed, Sns(Survivors(mpdus, fates)))
            && (Acknowledges(got, mpdus[i].sn) <==> fates[i].Good?)
  {
    hide Parse, ToBody, BlockAckFor, Acknowledges, Survivors, SeqDiff, OneBatch;
    BlockAckAgreement(seed, Sns(Survivors(mpdus, fates)), mpdus[i].sn);
    ReceivedIffGood(mpdus, fates, base, i);
    if fates[i].Good? {
      NearFirst(mpdus, fates, base, i);
    }
  }

  // ---- Agreement ----

  /** A PPDU that `plan` sends for a valid batch with NDP acknowledgment. */
  ghost predicate SentBy(cfg: Config, b: Batch, nextId: nat, choice: TxChoice, seed: nat, p: Ppdu) {
    && BatchOk(cfg, b, nextId) && WantAck(cfg, b) && cfg.ndpAck
    && PlanAttempt(b, choice.mcs, choice.coding).Some?
    && PlanAttempt(b, choice.mcs, choice.coding).value.count <= |b.mpdus|
    && p == PpduFor(cfg, b, PlanAttempt(b, choice.mcs, choice.coding).value, choice, seed)
  }

  lemma {:induction false} SentFacts(cfg: Config, b: Batch, nextId: nat, choice: TxChoice, seed: nat, p: Ppdu)
    requires SentBy(cfg, b, nextId, choice, seed, p)
    ensures |p.mpdus| >= 1 && p.response.NdpResponse? && p.seed == seed && OneBatch(p.mpdus, b.base) && cfg.ndpAck
    ensures |p.mpdus| > 1 ==> p.aggregated
    ensures forall i | 0 <= i < |p.mpdus| :: p.mpdus[i].msdu.dest == b.dest && p.mpdus[i].msdu.src == b.src
  {
    hide Grow, Fits, PrefixFits, Carriable, Measure, Budget;
    PlanCount(b, choice.mcs, choice.coding);
    assert forall i | 0 <= i < |b.mpdus| :: MpduOk(cfg, b.base, nextId, b.ident, b.mpdus[i], i < |b.inFlight|);
  }

  /** The receiver is the station addressed, acknowledges, and shares the check sequence. */
  ghost predicate Receives(rcfg: Config, cfg: Config, b: Batch) {
    && rcfg.addr == b.dest && rcfg.addr != b.src && rcfg.ackEnabled && forall m :: rcfg.fcs(m) == cfg.fcs(m)
  }

  /** What the receiver's answer is. */
  function AnswerTo(cfg: Config, p: Ppdu, fates: seq<Fate>): seq<NdpFrame>
    requires |p.mpdus| == |fates| && |p.mpdus| > 0
  {
    var s := Survivors(p.mpdus, fates);
    if |s| == 0 then []
    else if |p.mpdus| == 1 then [Ack(AckId(p.seed, cfg.fcs(p.mpdus[0])), false, false, 0, false)]
    else [BlockAckFor(p.seed, Sns(s))]
  }

  lemma {:induction false} HeardEof(mpdus: seq<Mpdu>, fates: seq<Fate>, eof: bool)
    requires |mpdus| == |fates|
    ensures forall i | 0 <= i < |Heard(mpdus, fates, eof)| :: Heard(mpdus, fates, eof)[i].1 == eof
  {
    if |mpdus| > 0 {
      HeardEof(mpdus[..|mpdus| - 1], fates[..|mpdus| - 1], eof);
    }
  }

  lemma {:induction false} ReceiverAnswers(cfg: Config, rcfg: Config, b: Batch, nextId: nat, choice: TxChoice, seed: nat, p: Ppdu, fates: seq<Fate>,
                        r: MacState, now: nat, draw: nat)
    requires SentBy(cfg, b, nextId, choice, seed, p) && Receives(rcfg, cfg, b) && |fates| == |p.mpdus|
    requires |p.mpdus| == 1 ==> fates[0].Good?
    ensures |p.mpdus| > 0
    ensures var a := AnswerTo(cfg, p, fates);
            var o := OnPhyEvent(rcfg, r, Arrival(p, fates), now, draw);
            var s := Survivors(p.mpdus, fates);
            o.s.responses == r.responses + if |s| == 0 then [] else [RespondNdp(ToBody(a[0]), Some(s[|s| - 1]))]
  {
    hide SentBy, OnFrames, AllBlockAcked, Heard, ToBody, AckId, BlockAckFor;
    SentFacts(cfg, b, nextId, choice, seed, p);
    var (frames, s) := (Heard(p.mpdus, fates, EofOf(p)), Survivors(p.mpdus, fates));
    var blockAck := WantsBlockAck(RxOf(p), frames);
    HeardEof(p.mpdus, fates, EofOf(p));
    OnFramesAnswer(rcfg, r, p.mpdus, fates, EofOf(p), RxOf(p), blockAck, now, draw);
    BlockAckedSurvivors(rcfg, r, p.mpdus, fates, EofOf(p), RxOf(p), now);
    if |p.mpdus| == 1 {
      OneHeard(p.mpdus, fates, EofOf(p));
      AnswerSingle(rcfg, RxOf(p), p.mpdus[0]);
    }
  }

  lemma {:induction false} AggregateSilent(cfg: Config, s: MacState, mpdus: seq<Mpdu>, fates: seq<Fate>, eof: bool, rx: RxInfo, now: nat, draw: nat)
    requires |mpdus| == |fates| && AllForUs(cfg, mpdus)
    ensures OnFrames(cfg, s, Heard(mpdus, fates, eof), rx, true, now, draw).s.responses == s.responses
  {
    hide OnFrame, Survivors, Heard, OnFrames, AllBlockAcked, ForUs;
    if |mpdus| == 0 {
      NothingHeard(cfg, s, eof, rx, true, now, draw);
    } else {
      var n := |mpdus| - 1;
      AggregateSilent(cfg, s, mpdus[..n], fates[..n], eof, rx, now, draw);
      HeardLast(cfg, s, mpdus, fates, eof, rx, true, now, draw);
      assert ForUs(cfg, mpdus[n]);
      FrameSilent(cfg, OnFrames(cfg, s, Heard(mpdus[..n], fates[..n], eof), rx, true, now, draw).s, FrameOf(mpdus[n], fates[n]), rx, now, draw);
    }
  }

  lemma {:induction false} FrameSilent(cfg: Config, s: MacState, f: Frame, rx: RxInfo, now: nat, draw: nat)
    requires f.BrokenFrame? || (f.DataFrame? && ForUs(cfg, f.mpdu))
    ensures OnFrame(cfg, s, f, rx, true, now, draw).s.responses == s.responses
  {
    hide Delivery, Remember;
  }

  /** An A-MPDU of several MPDUs is answered once, as it asks for: by a BlockAck of all that survived,
      or by a legacy Ack to the sender of the last. */
  lemma {:induction false} AggregateAnswered(cfg: Config, r: MacState, p: Ppdu, fates: seq<Fate>, now: nat, draw: nat)
    requires |fates| == |p.mpdus| > 1 && p.aggregated && AllForUs(cfg, p.mpdus) && cfg.ackEnabled
    ensures var s := Survivors(p.mpdus, fates);
            OnPhyEvent(cfg, r, Arrival(p, fates), now, draw).s.responses
            == r.responses + if |s| == 0 then []
                             else match p.response
                               case NdpResponse => [RespondNdp(ToBody(BlockAckFor(p.seed, Sns(s))), Some(s[|s| - 1]))]
                               case NormalResponse => [RespondAck(s[|s| - 1].msdu.src)]
                               case _ => []
  {
    hide OnFrames, AllBlockAcked, Heard, ToBody, BlockAckFor, Survivors;
    HeardEof(p.mpdus, fates, EofOf(p));
    AggregateSilent(cfg, r, p.mpdus, fates, EofOf(p), RxOf(p), now, draw);
    BlockAckedSurvivors(cfg, r, p.mpdus, fates, EofOf(p), RxOf(p), now);
  }

  lemma {:induction false} OneHeard(mpdus: seq<Mpdu>, fates: seq<Fate>, eof: bool)
    requires |mpdus| == |fates| == 1 && fates[0].Good?
    ensures Heard(mpdus, fates, eof) == [(DataFrame(mpdus[0], false), eof)] && Survivors(mpdus, fates) == [mpdus[0]]
  {
  }

  lemma {:induction false} AnswerSingle(cfg: Config, rx: RxInfo, m: Mpdu)
    ensures AnswerEach(cfg, rx, [m]) == [RespondNdp(ToBody(Ack(AckId(rx.seed, cfg.fcs(m)), false, false, 0, false)), Some(m))]
  {
    assert [m][..0] == [];
  }

  /** Acknowledgment agreement. For every PPDU the planner sends and whichever of its MPDUs survive,
      the answer, read back from the air, is of the kind and with the identifier the sender awaits,
      and a block ack covers exactly the survivors. */
  lemma {:induction false} AckAgreement(cfg: Config, rcfg: Config, b: Batch, nextId: nat, choice: TxChoice, seed: nat, p: Ppdu, fates: seq<Fate>)
    requires SentBy(cfg, b, nextId, choice, seed, p) && Receives(rcfg, cfg, b) && |fates| == |p.mpdus|
    ensures |p.mpdus| > 0
    ensures var a := AnswerTo(cfg, p, fates);
            |a| > 0 ==>
              var got := Parse(ToBody(a[0]));
              && got == a[0]
              && (ExpectFor(cfg, p).ExpectNdpAck? ==> got.Ack? && got.ackId == ExpectFor(cfg, p).ackId)
              && (ExpectFor(cfg, p).ExpectBlockAck? ==> got.BlockAck? && got.blockAckId == ExpectFor(cfg, p).blockAckId)
              && (ExpectFor(cfg, p).ExpectNdpAck? <==> |p.mpdus| == 1)
              && (got.BlockAck? ==> forall i | 0 <= i < |p.mpdus| :: AckBitmap(got.ssn, got.bitmap).Covers(p.mpdus[i].sn) <==> fates[i].Good?)
  {
    hide SentBy, Parse, ToBody, AckId, BitmapTo, Survivors, OneBatch, GetBit, SeqDiff;
    SentFacts(cfg, b, nextId, choice, seed, p);
    var (a, s) := (AnswerTo(cfg, p, fates), Survivors(p.mpdus, fates));
    if |s| > 0 {
      if |p.mpdus| == 1 {
        AckIdFits(p.seed, cfg.fcs(p.mpdus[0]));
        FrameRoundTrip(a[0]);
      } else {
        forall i | 0 <= i < |p.mpdus|
          ensures Parse(ToBody(a[0])) == a[0] && (AckBitmap(a[0].ssn, a[0].bitmap).Covers(p.mpdus[i].sn) <==> fates[i].Good?)
        {
          AcknowledgedIffGood(p.seed, p.mpdus, fates, b.base, i);
        }
        assert Parse(ToBody(a[0])) == a[0] by { AcknowledgedIffGood(p.seed, p.mpdus, fates, b.base, 0); }
      }
    }
  }
}

/** Control handshakes that carry an address: RTS and CTS, and legacy Acks
    (crates/s2g-mac/src/engine.rs). Frames may be sent for another source address than the
    station's own; what becomes of the handshake then is stated exactly. */
module MacHandshake {
  import opened Wrappers
  import opened Params
  import opened Ndp
  import opened MacTypes
  import opened MacSpec
  import opened MacInvariant

  /** How an RTS arrives. */
  function RtsArrival(ra: Addr, ta: Addr, durationUs: nat, seed: nat): PhyEvent {
    PsduHeard(RxInfo(false, NdpResponse, seed), [(RtsFrame(ra, ta, durationUs), false)])
  }

  lemma {:induction false} OneFrame(cfg: Config, s: MacState, f: Frame, rx: RxInfo, blockAck: bool, now: nat, draw: nat)
    requires !f.DataFrame?
    ensures OnFrames(cfg, s, [(f, false)], rx, blockAck, now, draw).s == OnFrame(cfg, s, f, rx, blockAck, now, draw).s
    ensures AllBlockAcked(cfg, [(f, false)], blockAck) == []
  {
    hide OnFrame;
    assert [(f, false)][..0] == [];
  }

  /** What is left of the duration of an RTS after the CTS, 160 and 240 microseconds, in fifteen bits. */
  function AfterCts(durationUs: nat): nat {
    if durationUs < 400 then 0 else if durationUs - 400 > 0x7FFF then 0x7FFF else durationUs - 400
  }

  /** The station an RTS names answers with a CTS for its transmitter, by its partial AID, for 2 MHz,
      whatever else it is doing; any other station sets its NAV. */
  lemma {:induction false} RtsAnswered(rcfg: Config, r: MacState, ra: Addr, ta: Addr, durationUs: nat, seed: nat, now: nat, draw: nat)
    ensures var t := OnPhyEvent(rcfg, r, RtsArrival(ra, ta, durationUs, seed), now, draw).s;
            && t.responses == r.responses + (if ra == rcfg.addr then
                                             [RespondNdp(ToBody(Cts(false, PartialAid(rcfg, ta), AfterCts(durationUs), false, 1)), None)]
                                           else [])
            && (ra != rcfg.addr && durationUs > 0 ==> t.medium.navUntilUs >= now + durationUs)
  {
    hide OnFrames, ToBody, AllBlockAcked;
    var rx := RxInfo(false, NdpResponse, seed);
    OneFrame(rcfg, r, RtsFrame(ra, ta, durationUs), rx, false, now, draw);
  }

  /** Both stations derive partial AIDs alike. */
  ghost predicate SameAids(cfg: Config, rcfg: Config) {
    forall a: Addr :: PartialAid(cfg, a) == PartialAid(rcfg, a)
  }

  lemma {:induction false} CtsRead(rcfg: Config, ta: Addr, durationUs: nat)
    ensures Parse(ToBody(CtsFor(rcfg, ta, durationUs))) == CtsFor(rcfg, ta, durationUs)
  {
    hide Parse, ToBody;
    FrameRoundTrip(CtsFor(rcfg, ta, durationUs));
  }

  /** The CTS that answers an RTS lets the attempt proceed at once if and only if the source address
      of the batch has the station's own partial AID: an RTS names the source of the frames as its
      transmitter, while a CTS is compared with the station's address. For frames of another source
      the handshake cannot complete, but for a coincidence of partial AIDs. */
  lemma {:induction false} CtsAcceptedIff(cfg: Config, rcfg: Config, s: MacState, durationUs: nat, now: nat, draw: nat)
    requires Valid(cfg, s) && s.tx.AwaitResponse? && s.tx.awaited.ExpectCts? && SameAids(cfg, rcfg)
    ensures s.cur.Some?
    ensures var b := s.cur.value;
            var t := OnNdp(cfg, s, Parse(ToBody(CtsFor(rcfg, b.src, durationUs))), now, draw).s;
            if PartialAid(cfg, b.src) == PartialAid(cfg, cfg.addr)
            then t.tx == Backoff(now) && t.cur == Some(b.(ctsOk := true)) && !NeedRts(cfg, t.cur.value)
            else t.tx == s.tx && t.cur == s.cur
  {
    hide Parse, ToBody, Admissible, Measure, MpdusOk, NoteLate, UpdateDelay, TotalLen, WantAck, PartialAid;
    CtsRead(rcfg, s.cur.value.src, durationUs);
  }

  /** Likewise for the legacy Ack that answers a frame: it names the source of the frame, and
      completes the attempt if and only if that is the station's own address. */
  lemma {:induction false} LegacyAckAcceptedIff(cfg: Config, s: MacState, now: nat, draw: nat)
    requires Valid(cfg, s) && s.tx.AwaitResponse? && s.tx.awaited.ExpectAck?
    ensures s.cur.Some?
    ensures var b := s.cur.value;
            var o := OnAckFrame(cfg, s, b.src, now, draw);
            if b.src == cfg.addr
            then o == Resolve(cfg, s.(delay := NoteResponse(s.delay, now)), AckAll, now, draw) && !o.s.tx.AwaitResponse?
            else o == Out(s, [])
  {
    hide Resolve, Carriable, Measure, Budget, MpdusOk, UpdateDelay, NoteLate;
    if s.cur.value.src == cfg.addr {
      var d := s.(delay := NoteResponse(s.delay, now));
      SameCoreValid(cfg, s, d);
      ResolveValid(cfg, d, AckAll, now, draw);
    }
  }

  /** An RTS reserves what follows: unless the fifteen-bit field is exhausted, the duration in the
      answering CTS is exactly SIFS, data, SIFS and response. */
  lemma {:induction false} CtsCovers(cfg: Config, rcfg: Config, s: MacState, b: Batch, now: nat, inp: PollInput)
    ensures var a := Reserve(cfg, s, b, now, inp).action;
            a.Some? && a.value.SendRts? && a.value.ra == b.dest && a.value.ta == b.src
            && var total := TotalLen(b, |b.mpdus|);
               var est := if cfg.rateEnabled then inp.estimate else FixedChoice(cfg);
               var rest := A_SIFS_TIME_US + TxTime(est, total > Params.PSDU_MAX_NO_AGG, Min(total, Params.PSDU_MAX_NO_AGG), 10_000)
                           + A_SIFS_TIME_US + ResponseTime(cfg);
               (rest + A_SIFS_TIME_US + NDP_TX_TIME_US <= MAX_DURATION ==> CtsFor(rcfg, a.value.ta, a.value.durationUs).durationUs == rest)
  {
    hide TxTime, TotalLen, ResponseTime, NormalTxTime, ResponseTimeout, PartialAid;
  }
}

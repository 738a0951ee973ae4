/** Times of the MAC engine: response delay and timeout, airtime, contention window
    (crates/s2g-mac/src/engine.rs). */
module MacTiming {
  import opened Wrappers
  import opened Params
  import opened Ndp
  import opened MacTypes
  import opened MacSpec
  import opened MacInvariant
  import Geometry

  // ---- Response delay ----

  function Gap(a: nat, b: nat): nat {
    if a < b then b - a else a - b
  }

  /** The estimate moves an eighth of the way to a sample, the deviation a quarter, rounded down. */
  lemma {:induction false} SampleMoves(d: Delay, sample: nat)
    ensures var e := UpdateDelay(d, sample);
            && e == d.(srttUs := e.srttUs, rttvarUs := e.rttvarUs) && e.srttUs.Some?
            && (d.srttUs.None? ==> e.srttUs.value == sample && 2 * e.rttvarUs <= sample <= 2 * e.rttvarUs + 1)
            && (d.srttUs.Some? ==>
                  var was := d.srttUs.value;
                  && 8 * e.srttUs.value <= 7 * was + sample < 8 * (e.srttUs.value + 1)
                  && 4 * e.rttvarUs <= 3 * d.rttvarUs + Gap(was, sample) < 4 * (e.rttvarUs + 1))
  {
  }

  /** Estimate after a sequence of samples. */
  function Measured(d: Delay, samples: seq<nat>): Delay {
    if |samples| == 0 then d else UpdateDelay(Measured(d, samples[..|samples| - 1]), samples[|samples| - 1])
  }

  /** Whatever the samples, the estimate stays within them and the deviation within their spread or
      half of the first. */
  lemma {:induction false} EstimateWithin(d: Delay, samples: seq<nat>, lo: nat, hi: nat)
    requires d.srttUs.None? && |samples| > 0 && forall i | 0 <= i < |samples| :: lo <= samples[i] <= hi
    ensures var e := Measured(d, samples);
            e.srttUs.Some? && lo <= e.srttUs.value <= hi && e.rttvarUs <= Max(hi / 2, hi - lo)
  {
    hide UpdateDelay;
    var n := |samples| - 1;
    SampleMoves(Measured(d, samples[..n]), samples[n]);
    if n > 0 {
      EstimateWithin(d, samples[..n], lo, hi);
    }
  }

  /** The timeout covers the estimate with four deviations, or half of it again, and a headroom, as
      far as the configured ceiling allows, and is no longer than it must be. */
  lemma {:induction false} TimeoutCovers(cfg: Config, d: Delay)
    ensures var t := ResponseTimeout(cfg, d);
            && t <= cfg.ackTimeoutUs && (t >= 5000 || t == cfg.ackTimeoutUs)
            && (!cfg.adaptive || d.srttUs.None? ==> t == cfg.ackTimeoutUs)
            && (cfg.adaptive && d.srttUs.Some? ==>
                  var srtt := d.srttUs.value;
                  && (t >= srtt + 4 * d.rttvarUs + 4000 || t == cfg.ackTimeoutUs)
                  && (t >= srtt + srtt / 2 + 4000 || t == cfg.ackTimeoutUs)
                  && (t <= 5000 || t == srtt + 4 * d.rttvarUs + 4000 || t == srtt + srtt / 2 + 4000 || t == cfg.ackTimeoutUs))
  {
  }

  lemma {:induction false} ResolveDelay(cfg: Config, s: MacState, acks: Acks, now: nat, draw: nat)
    ensures Resolve(cfg, s, acks, now, draw).s.delay == s.delay
  {
    hide SweepTo;
  }

  /** An awaited acknowledgment is measured from the end of the transmission; a late one counts once,
      from the end of its own, and not at all after twice the ceiling; others do not count. */
  lemma {:induction false} ResponsesMeasured(cfg: Config, s: MacState, f: NdpFrame, now: nat, draw: nat)
    requires f.Ack? || f.BlockAck?
    ensures var (d, e) := (s.delay, OnNdp(cfg, s, f, now, draw).s.delay);
            var awaited := if f.Ack? then ExpectNdpAck(f.ackId) else ExpectBlockAck(f.blockAckId);
            if s.tx.AwaitResponse? && s.tx.awaited == awaited then e == UpdateDelay(d, Since(now, d.sentEndUs))
            else if d.late.Some? && d.late.value.0 == awaited then
              if Since(now, d.late.value.1) <= 2 * cfg.ackTimeoutUs then e == UpdateDelay(d.(late := None), Since(now, d.late.value.1))
              else e == d.(late := None)
            else e == d
  {
    hide Resolve, UpdateDelay;
    var rid := NdpRidLength(cfg, f);
    var t := if rid > 0 then s.(medium := ExtendRid(s.medium, now + rid)) else s;
    var m := t.(delay := NoteResponse(t.delay, now));
    ResolveDelay(cfg, m, AckAll, now, draw);
    if f.BlockAck? {
      ResolveDelay(cfg, m, AckBitmap(f.ssn, f.bitmap), now, draw);
    }
  }

  // ---- Airtime ----

  /** Preamble, then symbols of 40 microseconds, or after the first of 36 with the short guard interval. */
  lemma {:induction false} AirtimeIs(choice: TxChoice, aggregation: bool, psduLen: nat, fallback: nat)
    ensures var g := Geometry.GeometryFor(choice.mcs, psduLen, aggregation, choice.coding);
            var t := TxTime(choice, aggregation, psduLen, fallback);
            && (g.Failure? ==> t == fallback)
            && (g.Success? && choice.gi.LongGi? ==> t == 240 + 40 * g.value.nSym)
            && (g.Success? && choice.gi.ShortGi? && g.value.nSym > 0 ==> t == 240 + 40 + 36 * (g.value.nSym - 1))
  {
    hide Geometry.GeometryFor;
  }

  /** Time for the response to a data PPDU. */
  function ResponseUs(cfg: Config): nat {
    if cfg.ndpAck then 240 else TxTime(TxChoice(0, LongGi, BccCoding), false, 14, 1000)
  }

  /** What goes on the air carries the duration of the response to come, marks retries, and is awaited
      until the response timeout after its end. */
  lemma {:induction false} FlightTimes(cfg: Config, s: MacState, b: Batch, now: nat, inp: PollInput)
    requires s.cur == Some(b) && |b.mpdus| > 0
    ensures var p := Fly(cfg, s, b, now, inp);
            p.action.Some? ==>
              && p.action.value.SendData?
              && (var q := p.action.value.ppdu;
                  && |q.mpdus| <= |b.mpdus|
                  && (forall i | 0 <= i < |q.mpdus| ::
                        && q.mpdus[i].durationUs == (if WantAck(cfg, b) then Min(160 + ResponseUs(cfg), 0x7FFF) else 0)
                        && (q.mpdus[i].retry <==> b.mpdus[i].retries > 0)
                        && q.mpdus[i].sn == b.mpdus[i].sn)
                  && (WantAck(cfg, b) ==> p.s.tx.AwaitResponse? && p.s.delay.sentEndUs == now + TxTime(q.choice, q.aggregated, q.psduLen, 10_000)
                                          && p.s.tx.deadlineUs == p.s.delay.sentEndUs + ResponseTimeout(cfg, s.delay))
                  && (!WantAck(cfg, b) ==> p.s.tx.Idle?))
  {
    hide PlanAttempt, TxTime, ResponseTimeout, CompletedTo, DroppedTo, TotalLen, MarkFlown, ExpectFor, WantAck;
    var c := ChoiceFor(cfg, b, inp);
    if PlanAttempt(b, c.mcs, c.coding).Some? {
      PlanCount(b, c.mcs, c.coding);
    }
  }

  // ---- The contention window ----

  /** The first `m` MPDUs are on the air: how many of the first `n` leave acknowledged, and their octets. */
  lemma {:induction false} SweepCounts(b: Batch, m: nat, acks: Acks, maxRetries: nat, n: nat)
    requires n <= |b.mpdus|
    ensures var w := SweepTo(b, Indices(m), acks, maxRetries, n);
            && w.acked <= Min(n, m) && w.delivered == DeliveredOctets(b, m, acks, n)
            && (w.acked == Min(n, m) <==> forall i | 0 <= i < Min(n, m) :: acks.Covers(b.mpdus[i].sn))
  {
    hide Acks.Covers;
    if n > 0 {
      SweepCounts(b, m, acks, maxRetries, n - 1);
    }
  }

  /** Octets of the MPDUs on the air that are acknowledged. */
  function DeliveredOctets(b: Batch, m: nat, acks: Acks, n: nat): nat
    requires n <= |b.mpdus|
  {
    if n == 0 then 0
    else DeliveredOctets(b, m, acks, n - 1) + if n - 1 < m && acks.Covers(b.mpdus[n - 1].sn) then MpduLen(b.qos, b.mpdus[n - 1].body) else 0
  }

  /** After an attempt the window is the smallest again if the batch is done or everything on the air
      was acknowledged, else twice as large up to the limit; and the rate is taken to have worked if
      enough octets were delivered. */
  lemma {:induction false} ResolveCounts(cfg: Config, s: MacState, acks: Acks, now: nat, draw: nat)
    requires s.cur.Some? && s.cur.value.inFlight == Indices(|s.cur.value.inFlight|) && |s.cur.value.inFlight| <= |s.cur.value.mpdus|
    ensures var (b, t) := (s.cur.value, Resolve(cfg, s, acks, now, draw).s);
            var all := forall i | 0 <= i < |b.inFlight| :: acks.Covers(b.mpdus[i].sn);
            var octets := DeliveredOctets(b, |b.inFlight|, acks, |b.mpdus|);
            && t.cwExp == (if t.cur.None? || all then cfg.cwMinExp else Min(s.cwExp + 1, cfg.cwMaxExp))
            && (t.cur.Some? ==> !t.cur.value.ctsOk && t.cur.value.attempts == b.attempts + (if all then 0 else 1))
            && (t.cur.Some? ==> t.cur.value.rateFailures == if octets > 0 && octets >= b.lowerOctets then 0 else b.rateFailures + 1)
  {
    hide SweepTo, Acks.Covers, DeliveredOctets;
    SweepCounts(s.cur.value, |s.cur.value.inFlight|, acks, cfg.maxRetries, |s.cur.value.mpdus|);
  }

  /** A frame of the batch, tried once more. */
  ghost predicate TriedOnceMore(b: Batch, m: PendingMpdu) {
    exists j :: 0 <= j < |b.mpdus| && m == b.mpdus[j].(retries := b.mpdus[j].retries + 1)
  }

  ghost predicate AllOnceMore(b: Batch, q: seq<PendingMpdu>) {
    forall i | 0 <= i < |q| :: TriedOnceMore(b, q[i])
  }

  lemma {:induction false} SweepRetries(b: Batch, maxRetries: nat, n: nat)
    requires n <= |b.mpdus|
    ensures AllOnceMore(b, SweepTo(b, Indices(|b.mpdus|), AckNone, maxRetries, n).kept)
  {
    hide TriedOnceMore;
    if n > 0 {
      SweepRetries(b, maxRetries, n - 1);
      LastTried(b, n - 1);
      var (w, m) := (SweepTo(b, Indices(|b.mpdus|), AckNone, maxRetries, n - 1), b.mpdus[n - 1]);
      assert SweepTo(b, Indices(|b.mpdus|), AckNone, maxRetries, n) == SweepOne(b, w, m, true, false, maxRetries);
    }
  }

  lemma {:induction false} LastTried(b: Batch, j: nat)
    requires j < |b.mpdus|
    ensures TriedOnceMore(b, b.mpdus[j].(retries := b.mpdus[j].retries + 1))
  {
  }

  /** An unanswered RTS costs every frame a retry and doubles the window, and is not counted against
      the rate. */
  lemma {:induction false} RtsFailed(cfg: Config, s: MacState, now: nat, draw: nat)
    requires s.cur.Some?
    ensures var (b, t) := (s.cur.value, FailRts(cfg, s, now, draw).s);
            if t.cur.None? then t.cwExp == cfg.cwMinExp && t.tx.Idle?
            else
              && t.cwExp == Min(s.cwExp + 1, cfg.cwMaxExp) && t.tx.Backoff?
              && !t.cur.value.ctsOk && t.cur.value.attempts == b.attempts + 1 && t.cur.value.rateFailures == b.rateFailures
              && AllOnceMore(b, t.cur.value.mpdus)
  {
    hide SweepTo, AllOnceMore;
    SweepRetries(s.cur.value, cfg.maxRetries, |s.cur.value.mpdus|);
  }

  /** State after `k` unanswered attempts of one batch, each put on the air anew in between. */
  function Unanswered(cfg: Config, s: MacState, now: nat, draw: nat, k: nat): MacState {
    if k == 0 then s
    else
      var t := Unanswered(cfg, s, now, draw, k - 1);
      FailAttempt(cfg, if t.cur.Some? then t.(cur := Some(t.cur.value.(inFlight := Indices(1))), tx := AwaitResponse(now, ExpectAck)) else t, now, draw).s
  }

  lemma {:induction false} FailedOnce(cfg: Config, s: MacState, now: nat, draw: nat)
    requires s.cur.Some? && |s.cur.value.mpdus| > 0 && s.cur.value.inFlight == Indices(1) && s.tx == AwaitResponse(now, ExpectAck)
    ensures var t := FailAttempt(cfg, s, now, draw).s;
            (t.cur.Some? ==> t.cwExp == Min(s.cwExp + 1, cfg.cwMaxExp) && |t.cur.value.mpdus| > 0) && (t.cur.None? ==> t.cwExp == cfg.cwMinExp)
  {
    hide SweepTo;
    var late := s.(delay := s.delay.(late := Some((s.tx.awaited, s.delay.sentEndUs))));
    ResolveCounts(cfg, late, AckNone, now, draw);
    assert !AckNone.Covers(s.cur.value.mpdus[0].sn);
  }

  /** Binary exponential back-off: the window doubles with every unanswered attempt, up to its limit. */
  lemma {:induction false} WindowDoubles(cfg: Config, s: MacState, now: nat, draw: nat, k: nat)
    requires s.cur.Some? && |s.cur.value.mpdus| > 0 && s.cwExp <= cfg.cwMaxExp
    ensures var t := Unanswered(cfg, s, now, draw, k);
            t.cur.Some? ==> t.cwExp == Min(s.cwExp + k, cfg.cwMaxExp) && |t.cur.value.mpdus| > 0
  {
    hide FailAttempt;
    if k > 0 {
      WindowDoubles(cfg, s, now, draw, k - 1);
      var t := Unanswered(cfg, s, now, draw, k - 1);
      if t.cur.Some? {
        FailedOnce(cfg, t.(cur := Some(t.cur.value.(inFlight := Indices(1))), tx := AwaitResponse(now, ExpectAck)), now, draw);
      } else {
        NoBatchFails(cfg, t, now, draw);
      }
    }
  }

  lemma {:induction false} NoBatchFails(cfg: Config, s: MacState, now: nat, draw: nat)
    requires s.cur.None?
    ensures FailAttempt(cfg, s, now, draw).s.cur.None?
  {
  }
}

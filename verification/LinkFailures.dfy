/** How an acknowledged frame can fail to be handed up: the 12-bit sequence number wraps around, or
    a late Ack shares its Ack ID with the one awaited. */
module LinkFailures {
  import opened Wrappers
  import opened Params
  import opened Words
  import opened Ndp
  import opened MacTypes
  import opened MacSpec
  import opened MacInvariant
  import opened MacAcks
  import opened MacReception
  import opened Link
  import Bits

  // ---- When an Ack counts for another frame ----

  predicate IsAcked(e: MacEvent, id: nat) {
    e.TxComplete? && e.acked && e.id == id
  }

  /** The frame is reported as acknowledged. */
  ghost predicate Acked(events: seq<MacEvent>, id: nat) {
    exists i :: 0 <= i < |events| && IsAcked(events[i], id)
  }

  /** The Ack queued for frame `x` completes the batch of which `y` is on the air if and only if the
      Ack IDs agree: the seeds in seven bits and the check sequences in nine. */
  lemma {:induction false} AckCompletesIff(cfg: Config, s: MacState, x: Mpdu, y: Mpdu, rx: RxInfo, seed: nat, now: nat, draw: nat)
    requires Valid(cfg, s) && s.tx.AwaitResponse? && s.tx.awaited == ExpectNdpAck(AckId(seed, cfg.fcs(y)))
    requires rx.response.NdpResponse? && s.cur.Some? && |s.cur.value.mpdus| > 0
    ensures var responses := QueueAck(cfg, InitialState(cfg), rx, x).responses;
            && |responses| == 1 && responses[0].RespondNdp?
            && (Acked(OnPhyEvent(cfg, s, NdpHeard(responses[0].body), now, draw).events, s.cur.value.mpdus[0].id)
                <==> GetField(rx.seed, 0, 7) == GetField(seed, 0, 7) && GetField(cfg.fcs(x), 23, 9) == GetField(cfg.fcs(y), 23, 9))
  {
    hide Valid, Parse, ToBody, AckId, GetField, SweepTo, NoteLate, UpdateDelay, Acks.Covers, StartBackoff;
    var f := Ack(AckId(rx.seed, cfg.fcs(x)), false, false, 0, false);
    AckIdFits(rx.seed, cfg.fcs(x));
    FrameRoundTrip(f);
    AckIdCollides(rx.seed, cfg.fcs(x), seed, cfg.fcs(y));
    var o := OnNdp(cfg, s, f, now, draw);
    var e := OnPhyEvent(cfg, s, NdpHeard(ToBody(f)), now, draw).events;
    assert e == o.events + [NdpReceived(f)];
    var b := s.cur.value;
    AwaitedOne(cfg, s);
    if AckId(rx.seed, cfg.fcs(x)) == AckId(seed, cfg.fcs(y)) {
      FirstAcked(b, cfg.maxRetries, |b.mpdus|);
      var i :| 0 <= i < |o.events| && IsAcked(o.events[i], b.mpdus[0].id);
      assert e[i] == o.events[i];
    }
  }

  lemma {:induction false} AwaitedOne(cfg: Config, s: MacState)
    requires Valid(cfg, s) && s.tx.AwaitResponse? && s.tx.awaited.ExpectNdpAck?
    ensures s.cur.Some? && s.cur.value.inFlight == [0]
  {
    hide Carriable, Measure, Budget, MpdusOk;
  }

  lemma {:induction false} FirstAcked(b: Batch, maxRetries: nat, n: nat)
    requires 0 < n <= |b.mpdus| && b.inFlight == [0]
    ensures Acked(SweepTo(b, b.inFlight, AckAll, maxRetries, n).events, b.mpdus[0].id)
  {
    var w := SweepTo(b, b.inFlight, AckAll, maxRetries, n);
    if n == 1 {
      assert SweepTo(b, b.inFlight, AckAll, maxRetries, 0).events == [];
      assert IsAcked(w.events[0], b.mpdus[0].id);
    } else {
      FirstAcked(b, maxRetries, n - 1);
      var i :| 0 <= i < |SweepTo(b, b.inFlight, AckAll, maxRetries, n - 1).events|
               && IsAcked(SweepTo(b, b.inFlight, AckAll, maxRetries, n - 1).events[i], b.mpdus[0].id);
      assert IsAcked(w.events[i], b.mpdus[0].id);
    }
  }

  // ---- One frame of one station ----

  /** No call sign, filter, rate control or RTS; NDP acknowledgment. */
  predicate Plain(cfg: Config) {
    && cfg.identBody.None? && !cfg.egressFilter && cfg.queueLimit > 0 && !cfg.rateEnabled && cfg.rtsThreshold.None?
    && cfg.ackEnabled && cfg.ndpAck && cfg.difsUs > 0
  }

  predicate Still(m: Medium) {
    !m.ccaBusy && m.busyUntilUs == 0 && m.navUntilUs == 0 && m.ridUntilUs == 0 && !m.eifsPending
  }

  /** Nothing to do after `k` frames. */
  predicate Ready(s: MacState, k: nat) {
    && s.queue == [] && s.cur.None? && s.responses == [] && s.tx.Idle? && Still(s.medium)
    && s.sn == k % SEQ_MOD && s.nextId == k
  }

  /** An Ethernet frame that goes out without aggregation. */
  predicate Small(eth: seq<Bits.Octet>) {
    ParseEthernet(eth).Some? && MpduLen(true, ParseEthernet(eth).value.body) <= PSDU_MAX_NO_AGG
  }

  /** Frame `k` on the air. */
  function Air(cfg: Config, m: Msdu, k: nat): Mpdu {
    Mpdu(m, k % SEQ_MOD, false, false, if IsGroup(m.dest) then 0 else Min(A_SIFS_TIME_US + ResponseTime(cfg), MAX_DURATION), k, k)
  }

  function Alone(cfg: Config, m: Msdu, k: nat): Batch {
    Batch(m.dest, m.src, [PendingMpdu(k, k % SEQ_MOD, m.body, 0, 0)], [], 0, 0, false, FixedChoice(cfg), 0, false, false, k, 1, 0)
  }

  predicate Holds(cfg: Config, s: MacState, m: Msdu, k: nat) {
    && s.queue == [] && s.responses == [] && Still(s.medium)
    && s.sn == (k + 1) % SEQ_MOD && s.nextId == k + 1 && s.cur == Some(Alone(cfg, m, k)) && s.tx.Backoff?
  }

  /** Frame `k` is on the air and its Ack is awaited. */
  predicate Awaits(cfg: Config, s: MacState, m: Msdu, k: nat, seed: nat) {
    && s.queue == [] && s.responses == [] && Still(s.medium) && s.sn == (k + 1) % SEQ_MOD && s.nextId == k + 1
    && s.cur.Some? && s.cur.value.mpdus == [PendingMpdu(k, k % SEQ_MOD, m.body, 0, 1)] && s.cur.value.inFlight == [0]
    && s.cur.value.dest == m.dest && s.cur.value.src == m.src
    && s.tx.AwaitResponse? && s.tx.awaited == ExpectNdpAck(AckId(seed, cfg.fcs(Air(cfg, m, k))))
  }

  function Draws(cfg: Config, seed: nat): PollInput {
    PollInput(0, 0, seed, FixedChoice(cfg), FixedChoice(cfg), 0)
  }

  lemma {:induction false} Queues(cfg: Config, s: MacState, eth: seq<Bits.Octet>, k: nat)
    requires Plain(cfg) && Ready(s, k) && Small(eth)
    ensures Enqueue(cfg, s, eth).0 == s.(queue := [ParseEthernet(eth).value])
  {
    hide ParseEthernet;
  }

  lemma {:induction false} TakesUp(cfg: Config, s: MacState, m: Msdu, t: nat, seed: nat, k: nat)
    requires Plain(cfg) && Ready(s.(queue := []), k) && s.queue == [m]
    ensures var p := Poll(cfg, s, t, Draws(cfg, seed));
            && p.events == [] && p.action.None? && Holds(cfg, p.s, m, k) && p.s.tx.untilUs == t + cfg.difsUs && p.s.log == s.log
  {
    hide PullWork, Fly, Reserve;
    PullsOne(cfg, s, m, t, k);
  }

  lemma {:induction false} PullsOne(cfg: Config, s: MacState, m: Msdu, t: nat, k: nat)
    requires Plain(cfg) && Ready(s.(queue := []), k) && s.queue == [m]
    ensures var p := PullWork(cfg, s, t, 0); Holds(cfg, p, m, k) && p.tx.untilUs == t + cfg.difsUs && p.log == s.log
  {
    hide Pow2, BatchLimit, Numbered;
    OneNumbered(s.queue, s.sn, k);
    assert RunLength(s.queue, BatchLimit(cfg, m.dest), 1) == 1;
    assert s.queue[1..] == [];
    assert 0 % Pow2(s.cwExp) == 0;
  }

  lemma {:induction false} OneNumbered(queue: seq<Msdu>, sn: nat, k: nat)
    requires |queue| == 1 && sn == k % SEQ_MOD
    ensures Numbered(queue, 1, sn, k) == [PendingMpdu(k, k % SEQ_MOD, queue[0].body, 0, 0)]
  {
    assert Numbered(queue, 0, sn, k) == [];
  }

  lemma {:induction false} PlansOne(cfg: Config, b: Batch)
    requires |b.mpdus| == 1 && MpduLen(b.qos, b.mpdus[0].body) <= PSDU_MAX_NO_AGG
    ensures PlanAttempt(b, cfg.mcs, cfg.coding) == Some(Plan(1, false, MpduLen(b.qos, b.mpdus[0].body)))
  {
    var lens := BatchLens(b);
    assert lens[..1] == lens;
    assert Grow(lens, cfg.mcs, cfg.coding, 1) == 1;
  }

  /** What goes on the air. */
  function OnAir(cfg: Config, m: Msdu, k: nat, seed: nat): Ppdu {
    Ppdu(FixedChoice(cfg), false, if IsGroup(m.dest) then NoResponse else NdpResponse, seed, MpduLen(false, m.body), [Air(cfg, m, k)])
  }

  lemma {:induction false} Flies(cfg: Config, s: MacState, m: Msdu, t: nat, seed: nat, k: nat)
    requires Plain(cfg) && Holds(cfg, s, m, k) && s.tx.untilUs <= t && MpduLen(true, m.body) <= PSDU_MAX_NO_AGG
    ensures var p := Poll(cfg, s, t, Draws(cfg, seed));
            && p.action == Some(SendData(OnAir(cfg, m, k, seed))) && p.s.log == s.log
            && (if IsGroup(m.dest) then Ready(p.s, k + 1) else Awaits(cfg, p.s, m, k, seed))
  {
    hide AckId, TxTime, ResponseTimeout, PlanAttempt;
    var b := s.cur.value;
    PlansOne(cfg, b);
    assert Timeout(cfg, s, t, 0) == Out(s, []) && PullWork(cfg, s, t, 0) == s;
    var plan := Plan(1, false, MpduLen(false, m.body));
    var p := PpduFor(cfg, b, plan, FixedChoice(cfg), seed);
    assert p.mpdus[0] == Air(cfg, m, k);
    assert p.mpdus == [Air(cfg, m, k)];
    assert MarkFlown(b.mpdus, 1) == [PendingMpdu(k, k % SEQ_MOD, m.body, 0, 1)];
    assert Indices(0) == [] && Indices(1) == [0];
    assert CompletedTo(b, cfg.mcs, 0) == [];
  }

  lemma {:induction false} HearsAck(cfg: Config, s: MacState, m: Msdu, k: nat, seed: nat, body: nat, now: nat)
    requires Awaits(cfg, s, m, k, seed) && body == ToBody(Ack(AckId(seed, cfg.fcs(Air(cfg, m, k))), false, false, 0, false))
    ensures var o := OnPhyEvent(cfg, s, NdpHeard(body), now, 0);
            Ready(o.s, k + 1) && |o.events| == 2 && IsAcked(o.events[0], k)
  {
    hide AckId, ToBody, Parse, UpdateDelay, NoteLate;
    AckIdFits(seed, cfg.fcs(Air(cfg, m, k)));
    FrameRoundTrip(Ack(AckId(seed, cfg.fcs(Air(cfg, m, k))), false, false, 0, false));
    var b := s.cur.value;
    assert SweepTo(b, [0], AckAll, cfg.maxRetries, 0) == Sweep([], [], 0, 0);
    assert SweepTo(b, [0], AckAll, cfg.maxRetries, 1).kept == [];
  }

  lemma {:induction false} GivesUp(cfg: Config, s: MacState, m: Msdu, k: nat, seed: nat, now: nat)
    requires Plain(cfg) && cfg.maxRetries == 0 && Awaits(cfg, s, m, k, seed) && s.tx.deadlineUs <= now
    ensures var p := Poll(cfg, s, now, Draws(cfg, seed)); Ready(p.s, k + 1) && p.action.None?
  {
    hide AckId;
    var b := s.cur.value;
    assert SweepTo(b, [0], AckNone, 0, 0) == Sweep([], [], 0, 0);
    assert SweepTo(b, [0], AckNone, 0, 1).kept == [];
  }

  lemma {:induction false} HearsData(cfg: Config, s: MacState, p: Ppdu, now: nat)
    requires |p.mpdus| == 1 && !p.aggregated && p.response.NdpResponse? && ForUs(cfg, p.mpdus[0]) && cfg.ackEnabled
    ensures var (o, m) := (OnPhyEvent(cfg, s, Arrival(p, [Good]), now, 0), p.mpdus[0]);
            && o.s.responses == s.responses + [RespondNdp(ToBody(Ack(AckId(p.seed, cfg.fcs(m)), false, false, 0, false)), Some(m))]
            && (if m.sn in SeenFrom(s.dedup, m.msdu.src) then o.s.log == s.log && o.s.dedup == s.dedup
                else o.s.log == s.log + [m] && o.s.dedup == Remember(s.dedup, m.msdu.src, m.sn))
  {
    hide AckId, ToBody, Delivery, Remember;
    OneHeard(p.mpdus, [Good], false);
    var f := (DataFrame(p.mpdus[0], false), false);
    assert [f][..0] == [];
    assert OnFrames(cfg, s, [], RxOf(p), false, now, 0) == Out(s, []);
    assert AllBlockAcked(cfg, [], false) == [];
  }

  // ---- Runs ----

  /** Some run ends like this. */
  ghost predicate Reached(cfgA: Config, cfgB: Config, l: Link) {
    exists moves :: RunLink(cfgA, cfgB, moves) == l
  }

  lemma {:induction false} Continues(cfgA: Config, cfgB: Config, l: Link, m: (bool, Move))
    requires Reached(cfgA, cfgB, l)
    ensures Reached(cfgA, cfgB, Next(cfgA, cfgB, l, m))
  {
    hide Next;
    var moves :| RunLink(cfgA, cfgB, moves) == l;
    assert (moves + [m])[..|moves|] == moves;
    assert RunLink(cfgA, cfgB, moves + [m]) == Next(cfgA, cfgB, l, m);
  }

  /** Station `a` takes the frame up. */
  lemma {:induction false} BacksOff(cfgA: Config, cfgB: Config, l: Link, eth: seq<Bits.Octet>, t: nat, seed: nat, k: nat) returns (r: Link)
    requires Reached(cfgA, cfgB, l) && Plain(cfgA) && Ready(l.a, k) && Small(eth) && l.ab == []
    ensures Reached(cfgA, cfgB, r) && r.b == l.b && r.ab == [] && r.ba == l.ba
    ensures Holds(cfgA, r.a, ParseEthernet(eth).value, k) && r.a.tx.Backoff? && r.a.tx.untilUs == t + cfgA.difsUs
  {
    hide Poll, ParseEthernet, Enqueue, Plain, Ready, Holds, Reached;
    Queues(cfgA, l.a, eth, k);
    StillReady(l.a, ParseEthernet(eth).value, k);
    var enqueue := (true, Local(InEnqueue(eth)));
    Continues(cfgA, cfgB, l, enqueue);
    r := Next(cfgA, cfgB, l, enqueue);
    TakesUp(cfgA, r.a, ParseEthernet(eth).value, t, seed, k);
    var poll := (true, Local(InPoll(t, Draws(cfgA, seed))));
    Continues(cfgA, cfgB, r, poll);
    r := Next(cfgA, cfgB, r, poll);
    HoldsBackoff(cfgA, r.a, ParseEthernet(eth).value, k);
  }

  /** Station `a` sends the frame. */
  lemma {:induction false} Sends(cfgA: Config, cfgB: Config, l: Link, eth: seq<Bits.Octet>, t: nat, seed: nat, k: nat) returns (r: Link)
    requires Reached(cfgA, cfgB, l) && Plain(cfgA) && Ready(l.a, k) && Small(eth) && l.ab == []
    ensures var m := ParseEthernet(eth).value;
            && Reached(cfgA, cfgB, r) && r.b == l.b && r.ab == [SendData(OnAir(cfgA, m, k, seed))] && r.ba == l.ba
            && (if IsGroup(m.dest) then Ready(r.a, k + 1) else Awaits(cfgA, r.a, m, k, seed))
  {
    hide Poll, ParseEthernet, Plain, Ready, Holds, OnAir, Awaits, Reached;
    r := BacksOff(cfgA, cfgB, l, eth, t, seed, k);
    Flies(cfgA, r.a, ParseEthernet(eth).value, t + cfgA.difsUs, seed, k);
    var poll := (true, Local(InPoll(t + cfgA.difsUs, Draws(cfgA, seed))));
    Continues(cfgA, cfgB, r, poll);
    r := Next(cfgA, cfgB, r, poll);
  }

  lemma {:induction false} StillReady(s: MacState, m: Msdu, k: nat)
    requires Ready(s, k)
    ensures Ready(s.(queue := [m]).(queue := []), k)
  {
  }

  lemma {:induction false} HoldsBackoff(cfg: Config, s: MacState, m: Msdu, k: nat)
    requires Holds(cfg, s, m, k)
    ensures s.tx.Backoff?
  {
  }

  /** What is on its way to `b` is lost. */
  lemma {:induction false} Loses(cfgA: Config, cfgB: Config, l: Link) returns (r: Link)
    requires Reached(cfgA, cfgB, l) && |l.ab| > 0
    ensures Reached(cfgA, cfgB, r) && r == l.(ab := l.ab[1..])
  {
    r := Next(cfgA, cfgB, l, (false, Lose));
    Continues(cfgA, cfgB, l, (false, Lose));
  }

  /** `b` hears the frame on its way and answers. */
  lemma {:induction false} Answers(cfgA: Config, cfgB: Config, l: Link, p: Ppdu, now: nat) returns (r: Link)
    requires Reached(cfgA, cfgB, l) && l.ab == [SendData(p)] && l.ba == [] && l.b.responses == []
    requires |p.mpdus| == 1 && !p.aggregated && p.response.NdpResponse? && ForUs(cfgB, p.mpdus[0]) && cfgB.ackEnabled
    ensures var m := p.mpdus[0];
            && Reached(cfgA, cfgB, r) && r.a == l.a && r.ab == [] && r.b.responses == []
            && r.ba == [SendNdp(ToBody(Ack(AckId(p.seed, cfgB.fcs(m)), false, false, 0, false)), Some(m))]
            && (if m.sn in SeenFrom(l.b.dedup, m.msdu.src) then r.b.log == l.b.log && r.b.dedup == l.b.dedup
                else r.b.log == l.b.log + [m] && r.b.dedup == Remember(l.b.dedup, m.msdu.src, m.sn))
  {
    hide AckId, ToBody, Remember, SeenFrom, OnPhyEvent, ForUs, Arrival;
    HearsData(cfgB, l.b, p, now);
    var hear := (false, Hear([Good], now, 0));
    Continues(cfgA, cfgB, l, hear);
    r := Next(cfgA, cfgB, l, hear);
    var poll := (false, Local(InPoll(now, Draws(cfgB, 0))));
    Continues(cfgA, cfgB, r, poll);
    r := Next(cfgA, cfgB, r, poll);
  }

  /** The Ack arrives. */
  lemma {:induction false} Completes(cfgA: Config, cfgB: Config, l: Link, m: Msdu, k: nat, seed: nat, body: nat, about: Option<Mpdu>, now: nat) returns (r: Link)
    requires Reached(cfgA, cfgB, l) && Awaits(cfgA, l.a, m, k, seed) && l.ba == [SendNdp(body, about)]
    requires body == ToBody(Ack(AckId(seed, cfgA.fcs(Air(cfgA, m, k))), false, false, 0, false))
    ensures Reached(cfgA, cfgB, r) && Ready(r.a, k + 1) && r.b == l.b && r.ab == l.ab && r.ba == [] && Acked(r.eventsA, k)
  {
    hide AckId, ToBody, OnPhyEvent, Awaits, Ready;
    HearsAck(cfgA, l.a, m, k, seed, body, now);
    var hear := (true, Hear([], now, 0));
    Continues(cfgA, cfgB, l, hear);
    r := Next(cfgA, cfgB, l, hear);
    assert IsAcked(r.eventsA[|l.eventsA|], k);
  }

  /** `n` group frames are lost. */
  lemma {:induction false} LosesGroups(cfgA: Config, cfgB: Config, l: Link, eth: seq<Bits.Octet>, t: nat, k: nat, n: nat) returns (r: Link)
    requires Reached(cfgA, cfgB, l) && Plain(cfgA) && Ready(l.a, k) && Small(eth) && IsGroup(ParseEthernet(eth).value.dest) && l.ab == []
    ensures Reached(cfgA, cfgB, r) && Ready(r.a, k + n) && r.b == l.b && r.ab == [] && r.ba == l.ba
    decreases n
  {
    hide Plain, Ready, ParseEthernet, Small, Reached;
    r := l;
    if n > 0 {
      r := Sends(cfgA, cfgB, l, eth, t, 0, k);
      r := Loses(cfgA, cfgB, r);
      r := LosesGroups(cfgA, cfgB, r, eth, t + 1_000_000, k + 1, n - 1);
    }
  }

  /** Frames of this id are not handed up if they are not logged. */
  lemma {:induction false} NotHandedUp(cfgA: Config, cfgB: Config, l: Link, src: Addr, id: nat)
    requires Reached(cfgA, cfgB, l) && forall i | 0 <= i < |l.b.log| :: l.b.log[i].id != id
    ensures HandUps(l.eventsB, OfFrame(src, id)) == 0
  {
    hide RunLink, Valid, HandUps, LoggedUps, LogGood, DedupOk;
    var moves :| RunLink(cfgA, cfgB, moves) == l;
    RunForward(cfgA, cfgB, moves);
    LoggedOnce(cfgB, l.b.log, src, id);
    assert HandUps(l.eventsB, OfFrame(src, id)) == LoggedUps(cfgB, l.b.log, OfFrame(src, id));
  }

  /** Two stations that hear each other, and a frame from the one to the other. */
  ghost predicate Between(cfgA: Config, cfgB: Config, eth: seq<Bits.Octet>) {
    && Plain(cfgA) && cfgB.ackEnabled && (forall m :: cfgA.fcs(m) == cfgB.fcs(m))
    && Small(eth) && ParseEthernet(eth).value.dest == cfgB.addr && ParseEthernet(eth).value.src != cfgB.addr && !IsGroup(cfgB.addr)
  }

  lemma {:induction false} Started(cfgA: Config, cfgB: Config)
    ensures Reached(cfgA, cfgB, Start(cfgA, cfgB)) && Ready(Start(cfgA, cfgB).a, 0)
  {
    assert RunLink(cfgA, cfgB, []) == Start(cfgA, cfgB);
  }

  /** The first frame of `a` is heard and answered. */
  lemma {:induction false} FirstAnswered(cfgA: Config, cfgB: Config, eth: seq<Bits.Octet>, seed: nat) returns (r: Link)
    requires Between(cfgA, cfgB, eth)
    ensures var (m, x) := (ParseEthernet(eth).value, Air(cfgA, ParseEthernet(eth).value, 0));
            && Reached(cfgA, cfgB, r) && Awaits(cfgA, r.a, m, 0, seed) && r.ab == [] && r.b.responses == []
            && r.ba == [SendNdp(ToBody(Ack(AckId(seed, cfgA.fcs(x)), false, false, 0, false)), Some(x))]
            && r.b.log == [x] && 0 in SeenFrom(r.b.dedup, m.src)
  {
    hide AckId, ToBody, ParseEthernet, Plain, Reached, Ready, Awaits;
    Started(cfgA, cfgB);
    r := Sends(cfgA, cfgB, Start(cfgA, cfgB), eth, 0, seed, 0);
    var m := ParseEthernet(eth).value;
    r := Answers(cfgA, cfgB, r, OnAir(cfgA, m, 0, seed), 20_000);
    assert Last64([] + [0]) == [0];
  }

  /** The wrap: after a first frame and 4095 group frames that are lost, the next frame is
      acknowledged and never handed up. */
  lemma {:induction false} WrapLoses(cfgA: Config, cfgB: Config, eth: seq<Bits.Octet>, group: seq<Bits.Octet>, seed: nat)
    requires Between(cfgA, cfgB, eth) && Small(group) && IsGroup(ParseEthernet(group).value.dest)
    ensures exists moves :: var l := RunLink(cfgA, cfgB, moves);
                            Acked(l.eventsA, SEQ_MOD) && HandUps(l.eventsB, OfFrame(ParseEthernet(eth).value.src, SEQ_MOD)) == 0
  {
    hide AckId, ToBody, ParseEthernet, Plain, Reached, Ready, Awaits, RunLink, Acked, HandUps, Acked;
    var m := ParseEthernet(eth).value;
    var r := FirstAnswered(cfgA, cfgB, eth, seed);
    r := Completes(cfgA, cfgB, r, m, 0, seed, r.ba[0].body, r.ba[0].about, 30_000);
    r := LosesGroups(cfgA, cfgB, r, group, 1_000_000, 1, SEQ_MOD - 1);
    r := Sends(cfgA, cfgB, r, eth, 5_000_000_000, seed, SEQ_MOD);
    r := Answers(cfgA, cfgB, r, OnAir(cfgA, m, SEQ_MOD, seed), 5_000_020_000);
    r := Completes(cfgA, cfgB, r, m, SEQ_MOD, seed, r.ba[0].body, r.ba[0].about, 5_000_030_000);
    NotHandedUp(cfgA, cfgB, r, m.src, SEQ_MOD);
    assert Reached(cfgA, cfgB, r);
    ReachedBy(cfgA, cfgB, r);
  }

  lemma {:induction false} ReachedBy(cfgA: Config, cfgB: Config, l: Link)
    requires Reached(cfgA, cfgB, l)
    ensures exists moves :: RunLink(cfgA, cfgB, moves) == l
  {
  }

  /** The shared Ack ID: the Ack of a first frame comes after its retries are used up and counts for
      the second, which is lost, so that this one is acknowledged and never handed up. */
  lemma {:induction false} SharedLoses(cfgA: Config, cfgB: Config, first: seq<Bits.Octet>, second: seq<Bits.Octet>, seed: nat, other: nat)
    requires Between(cfgA, cfgB, first) && Between(cfgA, cfgB, second) && cfgA.maxRetries == 0
    requires AckId(seed, cfgA.fcs(Air(cfgA, ParseEthernet(first).value, 0))) == AckId(other, cfgA.fcs(Air(cfgA, ParseEthernet(second).value, 1)))
    ensures exists moves :: var l := RunLink(cfgA, cfgB, moves);
                            Acked(l.eventsA, 1) && HandUps(l.eventsB, OfFrame(ParseEthernet(second).value.src, 1)) == 0
  {
    hide AckId, ToBody, ParseEthernet, Plain, Reached, Ready, RunLink, Acked, HandUps, Poll;
    var (m, n) := (ParseEthernet(first).value, ParseEthernet(second).value);
    var r := FirstAnswered(cfgA, cfgB, first, seed);
    var late := r.a.tx.deadlineUs;
    GivesUp(cfgA, r.a, m, 0, seed, late);
    var poll := (true, Local(InPoll(late, Draws(cfgA, seed))));
    Continues(cfgA, cfgB, r, poll);
    r := Next(cfgA, cfgB, r, poll);
    r := Sends(cfgA, cfgB, r, second, late, other, 1);
    r := Loses(cfgA, cfgB, r);
    r := Completes(cfgA, cfgB, r, n, 1, other, r.ba[0].body, r.ba[0].about, late + 10_000);
    NotHandedUp(cfgA, cfgB, r, n.src, 1);
    ReachedBy(cfgA, cfgB, r);
  }
}

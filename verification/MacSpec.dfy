/** What each operation of the MAC engine does to its state (crates/s2g-mac/src/engine.rs).
    Clock, random draws and rate choices are arguments. */
module MacSpec {
  import opened Wrappers
  import opened Params
  import opened Words
  import opened Bits
  import opened Ndp
  import opened MacTypes
  import Ampdu
  import Geometry

  const AMPDU_MAX_MPDUS: nat := 16
  const DEDUP_LEN: nat := 64
  const A_SIFS_TIME_US: nat := 160
  const NDP_TX_TIME_US: nat := 240
  const T_PREAMBLE_US: nat := 240
  const T_SYML_US: nat := 40
  const T_SYMS_US: nat := 36
  const MIN_RESPONSE_TIMEOUT_US: nat := 5_000
  const RESPONSE_HEADROOM_US: nat := 4_000
  const IDENT_REPEAT_US: nat := 60_000_000
  const MAX_DURATION: nat := 0x7FFF

  /** State after a step and the events it reports. */
  datatype Out = Out(s: MacState, events: seq<MacEvent>)

  function Max(a: nat, b: nat): nat {
    if a < b then b else a
  }

  function Min(a: nat, b: nat): nat {
    if a < b then a else b
  }

  /** Subtraction that stops at zero. */
  function Since(now: nat, earlier: nat): nat {
    if now < earlier then 0 else now - earlier
  }

  // ---- Times ----

  function DataDuration(gi: GuardInterval, nSym: nat): nat {
    match gi
    case LongGi => nSym * T_SYML_US
    case ShortGi => if nSym == 0 then 0 else T_SYML_US + (nSym - 1) * T_SYMS_US
  }

  /** TXTIME, or `fallback` for a PSDU the PHY refuses. */
  function TxTime(choice: TxChoice, aggregation: bool, psduLen: nat, fallback: nat): nat {
    match Geometry.GeometryFor(choice.mcs, psduLen, aggregation, choice.coding)
    case Success(g) => T_PREAMBLE_US + DataDuration(choice.gi, g.nSym)
    case Failure(_) => fallback
  }

  const CONTROL_CHOICE: TxChoice := TxChoice(0, LongGi, BccCoding)

  function NormalTxTime(octets: nat): nat {
    TxTime(CONTROL_CHOICE, false, octets, 1000)
  }

  predicate MediumBusy(m: Medium, now: nat) {
    m.ccaBusy || now < m.busyUntilUs || now < m.navUntilUs || now < m.ridUntilUs
  }

  function EifsUs(cfg: Config): nat {
    A_SIFS_TIME_US + NDP_TX_TIME_US + cfg.difsUs
  }

  // ---- Response delay ----

  function ResponseTimeout(cfg: Config, d: Delay): nat {
    if d.srttUs.Some? && cfg.adaptive then
      var srtt := d.srttUs.value;
      Max(Min(MIN_RESPONSE_TIMEOUT_US, cfg.ackTimeoutUs),
          Min(cfg.ackTimeoutUs, srtt + Max(4 * d.rttvarUs, srtt / 2) + RESPONSE_HEADROOM_US))
    else cfg.ackTimeoutUs
  }

  function UpdateDelay(d: Delay, sample: nat): Delay {
    match d.srttUs
    case None => d.(srttUs := Some(sample), rttvarUs := sample / 2)
    case Some(srtt) =>
      var err := if sample < srtt then srtt - sample else sample - srtt;
      d.(rttvarUs := (3 * d.rttvarUs + err) / 4, srttUs := Some((7 * srtt + sample) / 8))
  }

  function NoteResponse(d: Delay, now: nat): Delay {
    UpdateDelay(d, Since(now, d.sentEndUs))
  }

  function NoteLate(cfg: Config, d: Delay, now: nat): Delay {
    match d.late
    case None => d
    case Some((_, end)) =>
      var sample := Since(now, end);
      if sample <= 2 * cfg.ackTimeoutUs then UpdateDelay(d.(late := None), sample) else d.(late := None)
  }

  predicate LateIs(d: Delay, awaited: Expect) {
    d.late.Some? && d.late.value.0 == awaited
  }

  // ---- Channel access ----

  function StartBackoff(cfg: Config, s: MacState, now: nat, draw: nat): MacState {
    var idleAt := Max(Max(Max(now, s.medium.busyUntilUs), s.medium.navUntilUs), s.medium.ridUntilUs);
    var ifs := if s.medium.eifsPending then EifsUs(cfg) else cfg.difsUs;
    s.(tx := Backoff(idleAt + ifs + (draw % Pow2(s.cwExp)) * cfg.slotUs),
       medium := s.medium.(eifsPending := false))
  }

  function ExtendRid(m: Medium, until: nat): Medium {
    m.(ridUntilUs := Max(m.ridUntilUs, until))
  }

  function ExtendNav(m: Medium, until: nat): Medium {
    m.(navUntilUs := Max(m.navUntilUs, until))
  }

  function ExtendBusy(m: Medium, until: nat): Medium {
    m.(busyUntilUs := Max(m.busyUntilUs, until))
  }

  function RidLength(cfg: Config, rx: RxInfo): nat {
    match rx.response
    case NoResponse => 0
    case NdpResponse => NDP_TX_TIME_US + A_SIFS_TIME_US
    case NormalResponse => NormalTxTime(if rx.aggregation then 32 else 14) + A_SIFS_TIME_US
    case LongResponse => cfg.longTxTimeUs + A_SIFS_TIME_US
  }

  function NdpRidLength(cfg: Config, f: NdpFrame): nat {
    match f
    case Ack(_, _, idle, duration, _) => if idle && duration == 0 then cfg.longTxTimeUs + A_SIFS_TIME_US else 0
    case BlockAck(_, _, _) => 0
    case Cts(_, _, _, _, _) => 0
    case Other(t, _) =>
      if t == TYPE_PS_POLL || t == TYPE_PROBE_REQUEST then NDP_TX_TIME_US + A_SIFS_TIME_US
      else if t == TYPE_BF_REPORT_POLL then cfg.longTxTimeUs + A_SIFS_TIME_US
      else 0
  }

  // ---- Resolving an attempt ----

  /** Which sequence numbers a response acknowledges. */
  datatype Acks = AckAll | AckNone | AckBitmap(ssn: nat, bitmap: nat)
  {
    predicate Covers(sn: nat) {
      match this
      case AckAll => true
      case AckNone => false
      case AckBitmap(ssn, bitmap) =>
        var d := SeqDiff(sn, ssn);
        d < 16 && GetBit(bitmap, d)
    }
  }

  /** Outcome of going through the first MPDUs of a batch. */
  datatype Sweep = Sweep(kept: seq<PendingMpdu>, events: seq<MacEvent>, acked: nat, delivered: nat)

  function HdrLen(qos: bool): nat {
    if qos then QOS_DATA_HDR_LEN else DATA_HDR_LEN
  }

  function MpduLen(qos: bool, body: seq<Octet>): nat {
    HdrLen(qos) + |body| + FCS_LEN
  }

  function MsduOf(b: Batch, m: PendingMpdu): Msdu {
    Msdu(b.dest, b.src, m.body)
  }

  /** MPDU `m` leaves the batch acknowledged, is kept untouched, burns a retry or is dropped. */
  function SweepOne(b: Batch, w: Sweep, m: PendingMpdu, flown: bool, covered: bool, maxRetries: nat): Sweep {
    if flown && covered then
      Sweep(w.kept, w.events + [TxComplete(MsduOf(b, m), true, m.retries, b.choice.mcs, m.id)],
            w.acked + 1, w.delivered + MpduLen(b.qos, m.body))
    else if !flown then w.(kept := w.kept + [m])
    else if m.retries + 1 > maxRetries then w.(events := w.events + [TxDropped(MsduOf(b, m), RetryLimit, b.ident, m.id)])
    else w.(kept := w.kept + [m.(retries := m.retries + 1)])
  }

  function SweepTo(b: Batch, flown: seq<nat>, acks: Acks, maxRetries: nat, n: nat): Sweep
    requires n <= |b.mpdus|
  {
    if n == 0 then Sweep([], [], 0, 0)
    else
      var m := b.mpdus[n - 1];
      SweepOne(b, SweepTo(b, flown, acks, maxRetries, n - 1), m, n - 1 in flown, acks.Covers(m.sn), maxRetries)
  }

  function Indices(n: nat): (r: seq<nat>)
    ensures |r| == n && forall i | 0 <= i < n :: r[i] == i
    ensures forall i: nat :: i in r <==> i < n
  {
    if n == 0 then [] else Indices(n - 1) + [n - 1]
  }

  /** End of a batch: idle, smallest contention window. */
  function EndBatch(cfg: Config, s: MacState): MacState {
    s.(cur := None, tx := Idle, cwExp := cfg.cwMinExp)
  }

  /** The batch goes on with the MPDUs kept. */
  function Carry(b: Batch, kept: seq<PendingMpdu>): Batch {
    b.(mpdus := kept, inFlight := [], ctsOk := false, resolved := b.resolved + 1)
  }

  function Resolve(cfg: Config, s: MacState, acks: Acks, now: nat, draw: nat): Out {
    match s.cur
    case None => Out(s, [])
    case Some(b) =>
      var w := SweepTo(b, b.inFlight, acks, cfg.maxRetries, |b.mpdus|);
      if |w.kept| == 0 then Out(EndBatch(cfg, s), w.events)
      else
        var success := w.delivered > 0 && w.delivered >= b.lowerOctets;
        var failed := w.acked < |b.inFlight|;
        var next := Carry(b, w.kept).(
          rateFailures := if success then 0 else b.rateFailures + 1,
          attempts := if failed then b.attempts + 1 else b.attempts);
        var cw := if failed then Min(s.cwExp + 1, cfg.cwMaxExp) else cfg.cwMinExp;
        Out(StartBackoff(cfg, s.(cur := Some(next), cwExp := cw), now, draw), w.events)
  }

  /** An unanswered RTS burns a retry of every MPDU. */
  function FailRts(cfg: Config, s: MacState, now: nat, draw: nat): Out {
    match s.cur
    case None => Out(s, [])
    case Some(b) =>
      var w := SweepTo(b, Indices(|b.mpdus|), AckNone, cfg.maxRetries, |b.mpdus|);
      if |w.kept| == 0 then Out(EndBatch(cfg, s), w.events)
      else
        var next := Carry(b, w.kept).(attempts := b.attempts + 1);
        Out(StartBackoff(cfg, s.(cur := Some(next), cwExp := Min(s.cwExp + 1, cfg.cwMaxExp)), now, draw), w.events)
  }

  function FailAttempt(cfg: Config, s: MacState, now: nat, draw: nat): Out {
    if s.tx.AwaitResponse? then
      var t := s.(delay := s.delay.(late := Some((s.tx.awaited, s.delay.sentEndUs))));
      if s.tx.awaited.ExpectCts? then FailRts(cfg, t, now, draw) else Resolve(cfg, t, AckNone, now, draw)
    else Resolve(cfg, s, AckNone, now, draw)
  }

  // ---- Reception ----

  function OnNdpAck(cfg: Config, s: MacState, f: NdpFrame, now: nat, draw: nat): Out
    requires f.Ack?
  {
    var o :=
      if s.tx.AwaitResponse? && s.tx.awaited == ExpectNdpAck(f.ackId) then
        Resolve(cfg, s.(delay := NoteResponse(s.delay, now)), AckAll, now, draw)
      else if LateIs(s.delay, ExpectNdpAck(f.ackId)) then Out(s.(delay := NoteLate(cfg, s.delay, now)), [])
      else Out(s, []);
    if !f.idleIndication && f.duration > 0 then o.(s := o.s.(medium := ExtendNav(o.s.medium, now + f.duration))) else o
  }

  function OnBlockAck(cfg: Config, s: MacState, f: NdpFrame, now: nat, draw: nat): Out
    requires f.BlockAck?
  {
    if s.tx.AwaitResponse? && s.tx.awaited == ExpectBlockAck(f.blockAckId) then
      Resolve(cfg, s.(delay := NoteResponse(s.delay, now)), AckBitmap(f.ssn, f.bitmap), now, draw)
    else if LateIs(s.delay, ExpectBlockAck(f.blockAckId)) then Out(s.(delay := NoteLate(cfg, s.delay, now)), [])
    else Out(s, [])
  }

  /** The low nine bits that stand for a station. */
  function PartialAid(cfg: Config, a: Addr): nat {
    cfg.partialAid(a) % 0x200
  }

  function OnCts(cfg: Config, s: MacState, f: NdpFrame, now: nat): MacState
    requires f.Cts?
  {
    if !f.addressIndicator && f.raPbssid == PartialAid(cfg, cfg.addr) then
      if s.tx.AwaitResponse? && s.tx.awaited.ExpectCts? then
        s.(delay := NoteResponse(s.delay, now), tx := Backoff(now),
           cur := if s.cur.Some? then Some(s.cur.value.(ctsOk := true)) else None)
      else if s.delay.late.Some? && s.delay.late.value.0.ExpectCts? then s.(delay := NoteLate(cfg, s.delay, now))
      else s
    else if f.durationUs > 0 then s.(medium := ExtendNav(s.medium, now + f.durationUs))
    else s
  }

  function OnNdp(cfg: Config, s: MacState, f: NdpFrame, now: nat, draw: nat): Out {
    var rid := NdpRidLength(cfg, f);
    var t := if rid > 0 then s.(medium := ExtendRid(s.medium, now + rid)) else s;
    match f
    case Ack(_, _, _, _, _) => OnNdpAck(cfg, t, f, now, draw)
    case BlockAck(_, _, _) => OnBlockAck(cfg, t, f, now, draw)
    case Cts(_, _, _, _, _) => Out(OnCts(cfg, t, f, now), [])
    case Other(_, _) => Out(t, [])
  }

  // ---- Duplicates ----

  function Last64(q: seq<nat>): seq<nat> {
    if |q| > DEDUP_LEN then q[|q| - DEDUP_LEN..] else q
  }

  function SeenFrom(dedup: map<Addr, seq<nat>>, src: Addr): seq<nat> {
    if src in dedup then dedup[src] else []
  }

  /** Remember a sequence number of a station, the oldest of more than 64 forgotten. */
  function Remember(dedup: map<Addr, seq<nat>>, src: Addr, sn: nat): map<Addr, seq<nat>> {
    dedup[src := Last64(SeenFrom(dedup, src) + [sn])]
  }

  // ---- Data frames ----

  /** What handing up a data MPDU reports. */
  function Delivery(cfg: Config, m: Mpdu): seq<MacEvent> {
    if IsIdent(m.msdu.body) then [IdentReceived(m.msdu.src, m.msdu.body)]
    else match ToEthernet(m.msdu)
      case None => []
      case Some(eth) => if cfg.ingressFilter && !cfg.passes(eth) then [Filtered] else [EthReceived(eth, m.msdu.src, m.id)]
  }

  function HandUp(cfg: Config, s: MacState, m: Mpdu): Out {
    if m.sn in SeenFrom(s.dedup, m.msdu.src) then Out(s, [])
    else
      var d := Delivery(cfg, m);
      Out(s.(dedup := Remember(s.dedup, m.msdu.src, m.sn), log := s.log + [m],
             ingressDrops := if d == [Filtered] then s.ingressDrops + 1 else s.ingressDrops), d)
  }

  function QueueAck(cfg: Config, s: MacState, rx: RxInfo, m: Mpdu): MacState {
    match rx.response
    case NdpResponse => s.(responses := s.responses + [RespondNdp(ToBody(Ack(AckId(rx.seed, cfg.fcs(m)), false, false, 0, false)), Some(m))])
    case NormalResponse => s.(responses := s.responses + [RespondAck(m.msdu.src)])
    case _ => s
  }

  function Sns(mpdus: seq<Mpdu>): (sns: seq<nat>)
    ensures |sns| == |mpdus|
  {
    seq(|mpdus|, i requires 0 <= i < |mpdus| => mpdus[i].sn)
  }

  /** Queue one block ack for these MPDUs. */
  function QueueBlockAck(s: MacState, rx: RxInfo, covered: seq<Mpdu>): MacState
    requires |covered| > 0
  {
    var last := covered[|covered| - 1];
    match rx.response
    case NdpResponse => s.(responses := s.responses + [RespondNdp(ToBody(BlockAckFor(rx.seed, Sns(covered))), Some(last))])
    case NormalResponse => s.(responses := s.responses + [RespondAck(last.msdu.src)])
    case _ => s
  }

  predicate ForUs(cfg: Config, m: Mpdu) {
    m.msdu.src != cfg.addr && m.msdu.dest == cfg.addr
  }

  /** Whether the block ack of the A-MPDU must cover this MPDU. */
  predicate NeedsBlockAck(cfg: Config, m: Mpdu, noAck: bool, blockAck: bool) {
    ForUs(cfg, m) && cfg.ackEnabled && !noAck && blockAck
  }

  function OnData(cfg: Config, s: MacState, m: Mpdu, noAck: bool, rx: RxInfo, blockAck: bool, now: nat): Out {
    if m.msdu.src == cfg.addr then Out(s, [])
    else if m.msdu.dest != cfg.addr && !IsGroup(m.msdu.dest) then
      Out(if m.durationUs > 0 then s.(medium := ExtendNav(s.medium, now + m.durationUs)) else s, [])
    else if m.msdu.dest == cfg.addr then
      var t := s.(medium := s.medium.(ridUntilUs := 0));
      HandUp(cfg, if cfg.ackEnabled && !noAck && !blockAck then QueueAck(cfg, t, rx, m) else t, m)
    else HandUp(cfg, s, m)
  }

  /** NDP CTS: duration of the RTS less SIFS and the CTS itself. */
  function CtsFor(cfg: Config, ta: Addr, durationUs: nat): NdpFrame {
    Cts(false, PartialAid(cfg, ta), Min(Since(durationUs, A_SIFS_TIME_US + NDP_TX_TIME_US), MAX_DURATION), false, 1)
  }

  function OnAckFrame(cfg: Config, s: MacState, ra: Addr, now: nat, draw: nat): Out {
    if ra != cfg.addr then Out(s, [])
    else if s.tx.AwaitResponse? && s.tx.awaited.ExpectAck? then
      Resolve(cfg, s.(delay := NoteResponse(s.delay, now)), AckAll, now, draw)
    else if s.delay.late.Some? && s.delay.late.value.0.ExpectAck? then Out(s.(delay := NoteLate(cfg, s.delay, now)), [])
    else Out(s, [])
  }

  function OnRts(cfg: Config, s: MacState, ra: Addr, ta: Addr, durationUs: nat, now: nat): MacState {
    if ra == cfg.addr then
      s.(medium := s.medium.(ridUntilUs := 0), responses := s.responses + [RespondNdp(ToBody(CtsFor(cfg, ta, durationUs)), None)])
    else if durationUs > 0 then s.(medium := ExtendNav(s.medium, now + durationUs))
    else s
  }

  function OnFrame(cfg: Config, s: MacState, f: Frame, rx: RxInfo, blockAck: bool, now: nat, draw: nat): Out {
    if f.BrokenFrame? then Out(s, [])
    else
      var t := s.(medium := s.medium.(eifsPending := false));
      match f
      case DataFrame(m, noAck) => OnData(cfg, t, m, noAck, rx, blockAck, now)
      case AckFrame(ra) => OnAckFrame(cfg, t, ra, now, draw)
      case RtsFrame(ra, ta, d) => Out(OnRts(cfg, t, ra, ta, d, now), [])
      case OtherFrame(d) => Out(if d > 0 then t.(medium := ExtendNav(t.medium, now + d)) else t, [])
      case _ => Out(t, [])
  }

  /** What a frame adds to the block ack, if anything. */
  function BlockAcked(cfg: Config, f: Frame, blockAck: bool): seq<Mpdu> {
    if f.DataFrame? && NeedsBlockAck(cfg, f.mpdu, f.noAck, blockAck) then [f.mpdu] else []
  }

  /** Effect of the frames of a PSDU, in order. */
  function OnFrames(cfg: Config, s: MacState, frames: seq<(Frame, bool)>, rx: RxInfo, blockAck: bool, now: nat, draw: nat): Out {
    if |frames| == 0 then Out(s, [])
    else
      var n := |frames| - 1;
      var o := OnFrames(cfg, s, frames[..n], rx, blockAck, now, draw);
      var p := OnFrame(cfg, o.s, frames[n].0, rx, blockAck, now, draw);
      Out(p.s, o.events + p.events)
  }

  function AllBlockAcked(cfg: Config, frames: seq<(Frame, bool)>, blockAck: bool): seq<Mpdu> {
    if |frames| == 0 then []
    else AllBlockAcked(cfg, frames[..|frames| - 1], blockAck) + BlockAcked(cfg, frames[|frames| - 1].0, blockAck)
  }

  /** A genuine A-MPDU, answered with one block ack. */
  predicate WantsBlockAck(rx: RxInfo, frames: seq<(Frame, bool)>) {
    rx.aggregation && !(|frames| == 1 && frames[0].1)
  }

  function OnPsdu(cfg: Config, s: MacState, rx: RxInfo, frames: seq<(Frame, bool)>, now: nat, draw: nat): Out {
    var blockAck := WantsBlockAck(rx, frames);
    var o := OnFrames(cfg, s, frames, rx, blockAck, now, draw);
    var covered := AllBlockAcked(cfg, frames, blockAck);
    if |covered| == 0 then o else o.(s := QueueBlockAck(o.s, rx, covered))
  }

  function OnRxStart(cfg: Config, m: Medium, rx: RxInfo, durationUs: nat, now: nat): Medium {
    var end := now + Since(durationUs, T_PREAMBLE_US);
    var t := ExtendBusy(m, end).(lastPpduEndUs := end);
    var rid := RidLength(cfg, rx);
    if rid > 0 then ExtendRid(t, end + rid) else t
  }

  function OnPhyEvent(cfg: Config, s: MacState, ev: PhyEvent, now: nat, draw: nat): Out {
    match ev
    case Cca(busy, hold) =>
      var m := s.medium.(ccaBusy := busy);
      Out(s.(medium := if busy && hold > 0 then ExtendBusy(m, now + hold) else m), [])
    case PpduStart => Out(s.(medium := ExtendBusy(s.medium, now + T_PREAMBLE_US)), [])
    case RxStart(rx, d) => Out(s.(medium := OnRxStart(cfg, s.medium, rx, d, now)), [])
    case NdpHeard(body) =>
      var f := Parse(body);
      var o := OnNdp(cfg, s, f, now, draw);
      Out(o.s, o.events + [NdpReceived(f)])
    case RxEnd(violation) => Out(if violation then s.(medium := s.medium.(eifsPending := true)) else s, [])
    case PsduHeard(rx, frames) => OnPsdu(cfg, s, rx, frames, now, draw)
  }

  // ---- Queueing ----

  function FloorMcs(cfg: Config): nat {
    if cfg.rateEnabled then Min(cfg.minMcs, cfg.mcs) else cfg.mcs
  }

  /** The size check before a frame is queued. */
  predicate Admissible(cfg: Config, body: seq<Octet>) {
    var len := MpduLen(true, body);
    len > PSDU_MAX_NO_AGG ==>
      len <= Ampdu.MAX_MPDU_LEN && Geometry.AggregatedCapacity(FloorMcs(cfg), Ampdu.PreEofLen(len), cfg.coding).Success?
  }

  function Enqueue(cfg: Config, s: MacState, eth: seq<Octet>): (MacState, Result<(), MacError>) {
    if cfg.egressFilter && !cfg.passes(eth) then (s.(egressDrops := s.egressDrops + 1), Failure(EgressFiltered))
    else match ParseEthernet(eth)
      case None => (s, Failure(BadEthernet))
      case Some(m) =>
        if |s.queue| >= cfg.queueLimit then (s, Failure(QueueFull))
        else if !Admissible(cfg, m.body) then (s, Failure(FrameTooBig))
        else (s.(queue := s.queue + [m]), Success(()))
  }

  // ---- Planning an attempt ----

  /** MPDUs of these lengths fit one PPDU. */
  predicate Fits(lens: seq<nat>, mcs: nat, coding: Coding)
    requires |lens| > 0
  {
    if |lens| == 1 then lens[0] <= PSDU_MAX_NO_AGG || Geometry.AggregatedCapacity(mcs, Ampdu.PreEofLen(lens[0]), coding).Success?
    else Geometry.AggregatedCapacity(mcs, Ampdu.PreEofOfLens(lens), coding).Success?
  }

  /** The first `i` MPDUs fit together. */
  predicate PrefixFits(lens: seq<nat>, mcs: nat, coding: Coding, i: nat)
    requires 0 < i <= |lens|
  {
    Fits(lens[..i], mcs, coding)
  }

  /** How many of the MPDUs go out: one more as long as it fits. */
  function Grow(lens: seq<nat>, mcs: nat, coding: Coding, k: nat): (n: nat)
    requires k <= |lens|
    ensures k <= n <= |lens|
    decreases |lens| - k
  {
    if k < |lens| && PrefixFits(lens, mcs, coding, k + 1) then Grow(lens, mcs, coding, k + 1) else k
  }

  /** Everything that goes out fits together, and one more would not. */
  lemma {:induction false} GrowFits(lens: seq<nat>, mcs: nat, coding: Coding, k: nat)
    requires k <= |lens|
    ensures var n := Grow(lens, mcs, coding, k);
            && (forall i | k < i <= n :: PrefixFits(lens, mcs, coding, i))
            && (n < |lens| ==> !PrefixFits(lens, mcs, coding, n + 1))
    decreases |lens| - k
  {
    hide PrefixFits;
    if k < |lens| && PrefixFits(lens, mcs, coding, k + 1) {
      GrowFits(lens, mcs, coding, k + 1);
    }
  }

  /** MPDU lengths of a batch, at most sixteen. */
  function BatchLens(b: Batch): (lens: seq<nat>)
    ensures |lens| == Min(|b.mpdus|, AMPDU_MAX_MPDUS)
    ensures forall i | 0 <= i < |lens| :: lens[i] == MpduLen(b.qos, b.mpdus[i].body)
  {
    seq(Min(|b.mpdus|, AMPDU_MAX_MPDUS), i requires 0 <= i < Min(|b.mpdus|, AMPDU_MAX_MPDUS) => MpduLen(b.qos, b.mpdus[i].body))
  }

  /** How many MPDUs go out, whether as an A-MPDU, and the PSDU length. */
  datatype Plan = Plan(count: nat, aggregated: bool, psduLen: nat)

  function PlanAttempt(b: Batch, mcs: nat, coding: Coding): Option<Plan> {
    var lens := BatchLens(b);
    var n := Grow(lens, mcs, coding, 0);
    if n == 0 then None
    else if n == 1 && lens[0] <= PSDU_MAX_NO_AGG then Some(Plan(1, false, lens[0]))
    else
      match Geometry.AggregatedCapacity(mcs, if n == 1 then Ampdu.PreEofLen(lens[0]) else Ampdu.PreEofOfLens(lens[..n]), coding)
      case Success(cap) => Some(Plan(n, true, cap))
      case Failure(_) => None
  }

  function BuildMpdu(b: Batch, i: nat, durationUs: nat): Mpdu
    requires i < |b.mpdus|
  {
    var m := b.mpdus[i];
    Mpdu(MsduOf(b, m), m.sn, m.retries > 0, b.qos, durationUs, m.id, b.base)
  }

  function BuildMpdus(b: Batch, n: nat, durationUs: nat): (r: seq<Mpdu>)
    requires n <= |b.mpdus|
    ensures |r| == n && forall i | 0 <= i < n :: r[i] == BuildMpdu(b, i, durationUs)
  {
    seq(n, i requires 0 <= i < n => BuildMpdu(b, i, durationUs))
  }

  // ---- Polling ----

  datatype PollOut = PollOut(s: MacState, events: seq<MacEvent>, action: Option<Action>)

  predicate WantAck(cfg: Config, b: Batch) {
    cfg.ackEnabled && !IsGroup(b.dest) && !b.ident
  }

  predicate IdentDue(cfg: Config, s: MacState, now: nat) {
    cfg.identBody.Some?
    && ((s.queue != [] && (s.ident.lastUs.Some? ==> Since(now, s.ident.lastUs.value) >= cfg.identIntervalUs))
        || (s.queue == [] && s.ident.sentSince && Since(now, s.ident.lastDataUs) >= cfg.endIdleUs
            && (s.ident.lastUs.Some? ==> Since(now, s.ident.lastUs.value) >= IDENT_REPEAT_US)))
  }

  function FixedChoice(cfg: Config): TxChoice {
    TxChoice(cfg.mcs, cfg.gi, cfg.coding)
  }

  function NextSn(sn: nat): nat {
    (sn + 1) % SEQ_MOD
  }

  function NewBatch(cfg: Config, s: MacState, dest: Addr, src: Addr, mpdus: seq<PendingMpdu>, choice: TxChoice, ident: bool): Batch {
    Batch(dest, src, mpdus, [], 0, 0, false, choice, 0, |mpdus| > 1, ident, s.nextId, |mpdus|, 0)
  }

  /** The most frames pulled into one batch. */
  function BatchLimit(cfg: Config, dest: Addr): (n: nat)
    ensures 1 <= n <= AMPDU_MAX_MPDUS
  {
    if cfg.ackEnabled && cfg.ndpAck && !IsGroup(dest) then Max(1, Min(cfg.ampduMaxMpdus, AMPDU_MAX_MPDUS)) else 1
  }

  /** How many leading frames of the queue share the first one's addresses, at most `limit`. */
  function RunLength(queue: seq<Msdu>, limit: nat, k: nat): (n: nat)
    requires 0 < |queue| && 1 <= k <= limit && k <= |queue|
    ensures k <= n <= limit && n <= |queue|
    ensures forall i | k <= i < n :: queue[i].dest == queue[0].dest && queue[i].src == queue[0].src
    decreases limit - k
  {
    if k < limit && k < |queue| && queue[k].dest == queue[0].dest && queue[k].src == queue[0].src
    then RunLength(queue, limit, k + 1) else k
  }

  /** The first `n` queued frames with consecutive sequence numbers. */
  function Numbered(queue: seq<Msdu>, n: nat, sn: nat, id: nat): (r: seq<PendingMpdu>)
    requires n <= |queue|
    ensures |r| == n
    ensures forall i | 0 <= i < n :: r[i] == PendingMpdu(id + i, (sn + i) % SEQ_MOD, queue[i].body, 0, 0)
  {
    if n == 0 then [] else Numbered(queue, n - 1, sn, id) + [PendingMpdu(id + n - 1, (sn + n - 1) % SEQ_MOD, queue[n - 1].body, 0, 0)]
  }

  function PullWork(cfg: Config, s: MacState, now: nat, draw: nat): MacState {
    if !(s.tx.Idle? && s.cur.None?) then s
    else if IdentDue(cfg, s, now) then
      var m := PendingMpdu(s.nextId, s.sn, cfg.identBody.value, 0, 0);
      var b := NewBatch(cfg, s, BROADCAST, cfg.addr, [m], CONTROL_CHOICE, true);
      StartBackoff(cfg, s.(cur := Some(b), sn := NextSn(s.sn), nextId := s.nextId + 1), now, draw)
    else if s.queue == [] then s
    else
      var first := s.queue[0];
      var n := RunLength(s.queue, BatchLimit(cfg, first.dest), 1);
      var b := NewBatch(cfg, s, first.dest, first.src, Numbered(s.queue, n, s.sn, s.nextId), FixedChoice(cfg), false);
      StartBackoff(cfg, s.(cur := Some(b), queue := s.queue[n..], sn := (s.sn + n) % SEQ_MOD, nextId := s.nextId + n), now, draw)
  }

  function TotalLen(b: Batch, n: nat): nat
    requires n <= |b.mpdus|
  {
    if n == 0 then 0 else TotalLen(b, n - 1) + MpduLen(b.qos, b.mpdus[n - 1].body)
  }

  predicate NeedRts(cfg: Config, b: Batch) {
    WantAck(cfg, b) && !b.ctsOk && cfg.rtsThreshold.Some? && TotalLen(b, |b.mpdus|) > cfg.rtsThreshold.value
  }

  function ResponseTime(cfg: Config): nat {
    if cfg.ndpAck then NDP_TX_TIME_US else NormalTxTime(14)
  }

  /** RTS first: the duration covers CTS, data and response at the expected rate. */
  function Reserve(cfg: Config, s: MacState, b: Batch, now: nat, inp: PollInput): PollOut {
    var total := TotalLen(b, |b.mpdus|);
    var est := if cfg.rateEnabled then inp.estimate else FixedChoice(cfg);
    var dataTime := TxTime(est, total > PSDU_MAX_NO_AGG, Min(total, PSDU_MAX_NO_AGG), 10_000);
    var duration := A_SIFS_TIME_US + NDP_TX_TIME_US + A_SIFS_TIME_US + dataTime + A_SIFS_TIME_US + ResponseTime(cfg);
    var end := now + NormalTxTime(RTS_LEN);
    PollOut(s.(delay := s.delay.(sentEndUs := end), tx := AwaitResponse(end + ResponseTimeout(cfg, s.delay), ExpectCts)), [],
            Some(SendRts(b.dest, b.src, Min(duration, MAX_DURATION), inp.seed)))
  }

  function ChoiceFor(cfg: Config, b: Batch, inp: PollInput): TxChoice {
    if b.ident then CONTROL_CHOICE
    else if WantAck(cfg, b) && cfg.rateEnabled then inp.choice
    else FixedChoice(cfg)
  }

  /** The attempt as it goes on the air. */
  function PpduFor(cfg: Config, b: Batch, plan: Plan, choice: TxChoice, seed: nat): (p: Ppdu)
    requires plan.count <= |b.mpdus|
    ensures |p.mpdus| == plan.count
  {
    var want := WantAck(cfg, b);
    var duration := if want then Min(A_SIFS_TIME_US + ResponseTime(cfg), MAX_DURATION) else 0;
    var response := if !want then NoResponse else if cfg.ndpAck then NdpResponse else NormalResponse;
    Ppdu(choice, plan.aggregated, response, seed, plan.psduLen, BuildMpdus(b, plan.count, duration))
  }

  /** A single MPDU is acknowledged as such; several by one block ack. */
  function ExpectFor(cfg: Config, p: Ppdu): Expect
    requires |p.mpdus| > 0
  {
    if !cfg.ndpAck then ExpectAck
    else if |p.mpdus| == 1 then ExpectNdpAck(AckId(p.seed, cfg.fcs(p.mpdus[0])))
    else ExpectBlockAck(BlockAckId(p.seed))
  }

  /** History: the first `n` MPDUs were on the air once more. */
  function MarkFlown(mpdus: seq<PendingMpdu>, n: nat): (r: seq<PendingMpdu>)
    ensures |r| == |mpdus|
    ensures forall i | 0 <= i < |r| :: r[i] == if i < n then mpdus[i].(flights := mpdus[i].flights + 1) else mpdus[i]
  {
    seq(|mpdus|, i requires 0 <= i < |mpdus| => if i < n then mpdus[i].(flights := mpdus[i].flights + 1) else mpdus[i])
  }

  /** Reports on the first `n` frames of a batch that ends without acknowledgment. */
  function CompletedTo(b: Batch, mcs: nat, n: nat): seq<MacEvent>
    requires n <= |b.mpdus|
  {
    if n == 0 then []
    else CompletedTo(b, mcs, n - 1) + [TxComplete(MsduOf(b, b.mpdus[n - 1]), false, b.mpdus[n - 1].retries, mcs, b.mpdus[n - 1].id)]
  }

  function DroppedTo(b: Batch, n: nat): seq<MacEvent>
    requires n <= |b.mpdus|
  {
    if n == 0 then [] else DroppedTo(b, n - 1) + [TxDropped(MsduOf(b, b.mpdus[n - 1]), BuildFailed, b.ident, b.mpdus[n - 1].id)]
  }

  /** State once the attempt is on the air, awaiting its response. */
  function Await(cfg: Config, s: MacState, b: Batch, plan: Plan, p: Ppdu, now: nat, inp: PollInput): MacState
    requires plan.count <= |b.mpdus| && |p.mpdus| > 0
  {
    var end := now + TxTime(p.choice, p.aggregated, p.psduLen, 10_000);
    var flying := b.(mpdus := MarkFlown(b.mpdus, plan.count), inFlight := Indices(plan.count), choice := p.choice,
                     lowerOctets := Min(inp.lowerOctets, TotalLen(b, plan.count)));
    s.(cur := Some(flying), delay := s.delay.(sentEndUs := end),
       tx := AwaitResponse(end + ResponseTimeout(cfg, s.delay), ExpectFor(cfg, p)),
       ident := s.ident.(sentSince := true, lastDataUs := now))
  }

  /** State and reports after a transmission nobody answers. */
  function Finish(s: MacState, b: Batch, mcs: nat, now: nat): Out {
    var t := s.(cur := None, tx := Idle);
    if b.ident && |b.mpdus| > 0 then Out(t.(ident := s.ident.(lastUs := Some(now), sentSince := false)), [IdentSent(b.mpdus[0].body)])
    else Out(t.(ident := s.ident.(sentSince := true, lastDataUs := now)), CompletedTo(b, mcs, |b.mpdus|))
  }

  function Fly(cfg: Config, s: MacState, b: Batch, now: nat, inp: PollInput): PollOut {
    var choice := ChoiceFor(cfg, b, inp);
    match PlanAttempt(b, choice.mcs, choice.coding)
    case None => PollOut(s.(cur := None, tx := Idle), DroppedTo(b, |b.mpdus|), None)
    case Some(plan) =>
      var p := PpduFor(cfg, b, plan, choice, inp.seed);
      if WantAck(cfg, b) then PollOut(Await(cfg, s, b, plan, p, now, inp), [], Some(SendData(p)))
      else
        var o := Finish(s, b, choice.mcs, now);
        PollOut(o.s, o.events, Some(SendData(p)))
  }

  /** Back-off expiry. The source panics without a batch; the invariant excludes it. */
  function Access(cfg: Config, s: MacState, now: nat, inp: PollInput): PollOut {
    if !s.tx.Backoff? || now < s.tx.untilUs || s.cur.None? then PollOut(s, [], None)
    else if MediumBusy(s.medium, now) then PollOut(StartBackoff(cfg, s, now, inp.redraw), [], None)
    else if NeedRts(cfg, s.cur.value) then Reserve(cfg, s, s.cur.value, now, inp)
    else Fly(cfg, s, s.cur.value, now, inp)
  }

  function Respond(r: Response): Action {
    match r
    case RespondNdp(body, about) => SendNdp(body, about)
    case RespondAck(ra) => SendAck(ra)
  }

  function Timeout(cfg: Config, s: MacState, now: nat, draw: nat): Out {
    if s.tx.AwaitResponse? && now >= s.tx.deadlineUs then FailAttempt(cfg, s, now, draw) else Out(s, [])
  }

  function Poll(cfg: Config, s: MacState, now: nat, inp: PollInput): PollOut {
    if |s.responses| > 0 then PollOut(s.(responses := s.responses[1..]), [], Some(Respond(s.responses[0])))
    else
      var o := Timeout(cfg, s, now, inp.draw);
      var t := PullWork(cfg, o.s, now, inp.draw);
      var p := Access(cfg, t, now, inp);
      PollOut(p.s, o.events + p.events, p.action)
  }

  // ---- Runs ----

  datatype Input = InEnqueue(eth: seq<Octet>) | InPhy(ev: PhyEvent, now: nat, draw: nat) | InPoll(now: nat, inp: PollInput)

  function Step(cfg: Config, s: MacState, i: Input): PollOut {
    match i
    case InEnqueue(eth) => PollOut(Enqueue(cfg, s, eth).0, [], None)
    case InPhy(ev, now, draw) => var o := OnPhyEvent(cfg, s, ev, now, draw); PollOut(o.s, o.events, None)
    case InPoll(now, inp) => Poll(cfg, s, now, inp)
  }

  /** State and events after a run. */
  function Run(cfg: Config, ins: seq<Input>): Out {
    if |ins| == 0 then Out(InitialState(cfg), [])
    else
      var o := Run(cfg, ins[..|ins| - 1]);
      var p := Step(cfg, o.s, ins[|ins| - 1]);
      Out(p.s, o.events + p.events)
  }
}

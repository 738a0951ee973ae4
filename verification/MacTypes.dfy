/** Frames, events, configuration and state of the MAC engine (types of
    crates/s2g-mac/src/engine.rs, frame.rs and eth.rs). */
module MacTypes {
  import opened Wrappers
  import opened Params
  import opened Bits
  import opened Ndp

  // ---- Frames ----

  type Addr = a: seq<Octet> | |a| == 6 witness [0, 0, 0, 0, 0, 0]

  const BROADCAST: Addr := [0xFF, 0xFF, 0xFF, 0xFF, 0xFF, 0xFF]

  predicate IsGroup(a: Addr) {
    a[0] % 2 == 1
  }

  const ETH_HDR_LEN: nat := 14
  const DATA_HDR_LEN: nat := 24
  const QOS_DATA_HDR_LEN: nat := 26
  const FCS_LEN: nat := 4
  const RTS_LEN: nat := 20

  const LLC_SNAP: seq<Octet> := [0xAA, 0xAA, 0x03, 0x00, 0x00, 0x00]

  /** One frame to carry: addresses and 802.11 body. */
  datatype Msdu = Msdu(dest: Addr, src: Addr, body: seq<Octet>)

  /** Addresses, EtherType and payload of an Ethernet frame, the last two behind a SNAP header. */
  function ParseEthernet(eth: seq<Octet>): Option<Msdu> {
    if |eth| < ETH_HDR_LEN then None else Some(Msdu(eth[..6], eth[6..12], LLC_SNAP + eth[12..]))
  }

  /** A body with a SNAP header and an EtherType. */
  predicate Encapsulated(body: seq<Octet>) {
    |body| >= 8 && body[..6] == LLC_SNAP
  }

  /** The Ethernet frame a received body stands for. */
  function ToEthernet(m: Msdu): Option<seq<Octet>> {
    if !Encapsulated(m.body) then None else Some(m.dest + m.src + m.body[6..])
  }

  /** An identification body: EtherType 0x88B5 and text that starts with "DE ". */
  predicate IsIdent(body: seq<Octet>) {
    Encapsulated(body) && |body| >= 11 && body[6] == 0x88 && body[7] == 0xB5
    && body[8] == 0x44 && body[9] == 0x45 && body[10] == 0x20
  }

  /** A frame accepted at one end is rebuilt octet by octet at the other. */
  lemma {:induction false} EthernetRoundTrip(eth: seq<Octet>)
    requires ParseEthernet(eth).Some?
    ensures ToEthernet(ParseEthernet(eth).value) == Some(eth)
  {
    var m := ParseEthernet(eth).value;
    assert m.body[..6] == LLC_SNAP;
    assert m.body[6..] == eth[12..];
    assert eth == eth[..6] + eth[6..12] + eth[12..];
  }

  /** A data MPDU on the air. `id` and `base` are history: the position of the frame in the
      sender's sequence and that of the first frame of its batch; no station reads them. */
  datatype Mpdu = Mpdu(msdu: Msdu, sn: nat, retry: bool, qos: bool, durationUs: nat, id: nat, base: nat)

  /** What frame parsing makes of a received MPDU. `IgnoredFrame` has a good check sequence but
      is of no concern to the engine; `BrokenFrame` has a bad one. */
  datatype Frame =
    | DataFrame(mpdu: Mpdu, noAck: bool)
    | AckFrame(ra: Addr)
    | RtsFrame(ra: Addr, ta: Addr, durationUs: nat)
    | OtherFrame(durationUs: nat)
    | IgnoredFrame
    | BrokenFrame

  datatype TxChoice = TxChoice(mcs: nat, gi: GuardInterval, coding: Coding)

  /** A data PPDU. */
  datatype Ppdu = Ppdu(choice: TxChoice, aggregated: bool, response: ResponseIndication, seed: nat, psduLen: nat,
                       mpdus: seq<Mpdu>)

  /** `about` is history: the last data MPDU an acknowledgment answers. */
  datatype Action =
    | SendData(ppdu: Ppdu)
    | SendRts(ra: Addr, ta: Addr, durationUs: nat, seed: nat)
    | SendAck(ra: Addr)
    | SendNdp(body: nat, about: Option<Mpdu>)

  // ---- Inputs and events ----

  datatype RxInfo = RxInfo(aggregation: bool, response: ResponseIndication, seed: nat)

  datatype PhyEvent =
    | Cca(busy: bool, holdUs: nat)
    | PpduStart
    | RxStart(rx: RxInfo, durationUs: nat)
    | NdpHeard(body: nat)
    | RxEnd(formatViolation: bool)
    /** Frames of a PSDU, each with the EOF flag of its delimiter. */
    | PsduHeard(rx: RxInfo, frames: seq<(Frame, bool)>)

  /** What a poll draws from outside: two back-off draws, the scrambler seed, the choices of rate
      control and the octets an attempt has to deliver to count for its rate. */
  datatype PollInput = PollInput(draw: nat, redraw: nat, seed: nat, choice: TxChoice, estimate: TxChoice, lowerOctets: nat)

  datatype DropReason = RetryLimit | BuildFailed

  /** Reports to the caller. History: the frame and `id` of a finished transmission or a hand-up,
      and whether a dropped one was an identification. */
  datatype MacEvent =
    | EthReceived(eth: seq<Octet>, src: Addr, id: nat)
    | TxComplete(msdu: Msdu, acked: bool, retries: nat, mcs: nat, id: nat)
    | TxDropped(msdu: Msdu, reason: DropReason, ident: bool, id: nat)
    | NdpReceived(frame: NdpFrame)
    | IdentSent(body: seq<Octet>)
    | IdentReceived(src: Addr, body: seq<Octet>)
    | Filtered

  datatype MacError = QueueFull | BadEthernet | FrameTooBig | EgressFiltered

  // ---- Configuration ----

  /** `passes` is the verdict of the frame filter, `fcs` the frame check sequence, `partialAid`
      the checksum whose low nine bits stand for a station in an NDP CTS. */
  datatype Config = Config(
    addr: Addr, mcs: nat, gi: GuardInterval, coding: Coding,
    ackEnabled: bool, ndpAck: bool, rtsThreshold: Option<nat>,
    ackTimeoutUs: nat, adaptive: bool, maxRetries: nat, cwMinExp: nat, cwMaxExp: nat,
    slotUs: nat, difsUs: nat, longTxTimeUs: nat, queueLimit: nat,
    rateEnabled: bool, minMcs: nat, ampduMaxMpdus: nat,
    identBody: Option<seq<Octet>>, identIntervalUs: nat, endIdleUs: nat,
    egressFilter: bool, ingressFilter: bool, passes: seq<Octet> -> bool,
    fcs: Mpdu -> nat, partialAid: Addr -> nat)

  // ---- State ----

  /** The response a transmission waits for. */
  datatype Expect = ExpectAck | ExpectNdpAck(ackId: nat) | ExpectBlockAck(blockAckId: nat) | ExpectCts

  datatype TxState = Idle | Backoff(untilUs: nat) | AwaitResponse(deadlineUs: nat, awaited: Expect)

  /** One frame awaiting delivery. `flights` is history: how often it was on the air. */
  datatype PendingMpdu = PendingMpdu(id: nat, sn: nat, body: seq<Octet>, retries: nat, flights: nat)

  /** The frames for one destination being worked on. History: `base` is the id of the first,
      `started` how many there were, `resolved` how many attempts and unanswered RTS ended. */
  datatype Batch = Batch(
    dest: Addr, src: Addr, mpdus: seq<PendingMpdu>, inFlight: seq<nat>, attempts: nat, rateFailures: nat,
    ctsOk: bool, choice: TxChoice, lowerOctets: nat, qos: bool, ident: bool,
    base: nat, started: nat, resolved: nat)

  datatype Medium = Medium(ccaBusy: bool, busyUntilUs: nat, navUntilUs: nat, ridUntilUs: nat, lastPpduEndUs: nat, eifsPending: bool)

  /** Response-delay estimate. */
  datatype Delay = Delay(srttUs: Option<nat>, rttvarUs: nat, sentEndUs: nat, late: Option<(Expect, nat)>)

  datatype IdentState = IdentState(lastUs: Option<nat>, sentSince: bool, lastDataUs: nat)

  datatype Response = RespondNdp(body: nat, about: Option<Mpdu>) | RespondAck(ra: Addr)

  /** History: `nextId` counts the sequence numbers given out, `log` lists the data MPDUs that
      passed duplicate detection. */
  datatype MacState = MacState(
    sn: nat, queue: seq<Msdu>, cur: Option<Batch>, responses: seq<Response>, tx: TxState, medium: Medium,
    cwExp: nat, dedup: map<Addr, seq<nat>>, ident: IdentState, delay: Delay,
    egressDrops: nat, ingressDrops: nat, nextId: nat, log: seq<Mpdu>)

  function InitialState(cfg: Config): MacState {
    MacState(0, [], None, [], Idle, Medium(false, 0, 0, 0, 0, false), cfg.cwMinExp, map[],
             IdentState(None, false, 0), Delay(None, 0, 0, None), 0, 0, 0, [])
  }
}

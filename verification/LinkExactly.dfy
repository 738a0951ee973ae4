/** Acknowledged means handed up exactly once. */
module LinkExactly {
  import opened Wrappers
  import opened Ndp
  import opened MacTypes
  import opened MacSpec
  import opened MacInvariant
  import opened MacAcks
  import opened MacEvolution
  import opened MacReception
  import opened LinkOrder
  import opened LinkAcks
  import opened Link

  // ---- What must not happen on the way ----

  /** `b` hears data of which a number wraps around onto a frame it remembers. */
  ghost predicate WrappedData(cfgB: Config, l: Link, m: (bool, Move)) {
    !m.0 && m.1.Hear? && |l.ab| > 0 && !NoneWraps(cfgB, l.b.log, DataOf(l.ab[0]))
  }

  /** `a` hears a BlockAck it awaits by its id, but which answers a batch more than 4096 frames back. */
  ghost predicate WrappedAck(l: Link, m: (bool, Move)) {
    m.0 && m.1.Hear? && |l.ba| > 0 && l.ba[0].SendNdp? && LateBlockAck(l.a, l.ba[0].body, l.ba[0].about)
  }

  /** `a` hears an Ack it awaits by its Ack ID, but which answers another frame. */
  ghost predicate SharedAck(l: Link, m: (bool, Move)) {
    m.0 && m.1.Hear? && |l.ba| > 0 && l.ba[0].SendNdp? && LateAck(l.a, l.ba[0].body, l.ba[0].about)
  }

  /** No move of the run meets the 12-bit wrap. */
  ghost predicate NoWrap(cfgA: Config, cfgB: Config, moves: seq<(bool, Move)>) {
    |moves| > 0 ==>
      var (before, m) := (moves[..|moves| - 1], moves[|moves| - 1]);
      var l := RunLink(cfgA, cfgB, before);
      NoWrap(cfgA, cfgB, before) && !WrappedData(cfgB, l, m) && !WrappedAck(l, m)
  }

  /** No move of the run meets a shared Ack ID. */
  ghost predicate NoShared(cfgA: Config, cfgB: Config, moves: seq<(bool, Move)>) {
    |moves| > 0 ==>
      var (before, m) := (moves[..|moves| - 1], moves[|moves| - 1]);
      NoShared(cfgA, cfgB, before) && !SharedAck(RunLink(cfgA, cfgB, before), m)
  }

  /** Every acknowledgment pending at `b` or in flight stands for logged frames, and so does every
      one `a` has reported. */
  ghost predicate Confirmed(l: Link) {
    ResponsesOk(l.b.responses, l.b.log) && ActionsOk(l.ba, l.b.log) && AllDelivered(l.b.log, l.eventsA)
  }

  // ---- The sender moves ----

  lemma {:induction false} MoreDelivered(log: seq<Mpdu>, a: seq<MacEvent>, b: seq<MacEvent>)
    requires AllDelivered(log, a) && AllDelivered(log, b)
    ensures AllDelivered(log, a + b)
  {
    hide Delivered;
  }

  lemma {:induction false} SilentDelivered(log: seq<Mpdu>, events: seq<MacEvent>)
    requires Silent(events)
    ensures AllDelivered(log, events)
  {
    forall i | 0 <= i < |events|
      ensures Delivered(log, events[i])
    {
      assert Quiet(events[i]);
    }
  }

  lemma {:induction false} HeadOk(ch: seq<Action>, log: seq<Mpdu>)
    requires |ch| > 0 && ActionsOk(ch, log)
    ensures ActionsOk(ch[1..], log) && (ch[0].SendNdp? ==> Justified(ch[0].body, ch[0].about, log))
  {
    hide Justified;
  }

  /** The station that moves is the sender. */
  lemma {:induction false} SenderConfirms(cfgA: Config, cfgB: Config, l: Link, m: Move)
    requires Forward(cfgA, cfgB, l) && Confirmed(l) && cfgA.ndpAck && !WrappedAck(l, (true, m)) && !SharedAck(l, (true, m))
    ensures Confirmed(MoveA(cfgA, l, m))
  {
    hide Valid, Poll, OnPhyEvent, ActionsOk, AllDelivered, Justified, Enqueue, LateAck, LateBlockAck, DedupOk, LogGood, ChannelOk, LogReaches,
         AllSettled, ChannelSettled, UpsAgree, Silent;
    if Possible(l, m) {
      match m
      case Local(i) =>
        match i {
          case InEnqueue(eth) => assert l.eventsA + [] == l.eventsA;
          case InPhy(ev, now, draw) =>
            EventDelivers(cfgA, l.a, ev, None, now, draw, l.b.log);
            MoreDelivered(l.b.log, l.eventsA, OnPhyEvent(cfgA, l.a, ev, now, draw).events);
          case InPoll(now, inp) =>
            PollFacts(cfgA, l.a, now, inp);
            SilentDelivered(l.b.log, Poll(cfgA, l.a, now, inp).events);
            MoreDelivered(l.b.log, l.eventsA, Poll(cfgA, l.a, now, inp).events);
        }
      case Hear(fates, now, draw) =>
        HeadOk(l.ba, l.b.log);
        var ev := EventOf(l.ba[0], fates);
        EventDelivers(cfgA, l.a, ev, if l.ba[0].SendNdp? then l.ba[0].about else None, now, draw, l.b.log);
        MoreDelivered(l.b.log, l.eventsA, OnPhyEvent(cfgA, l.a, ev, now, draw).events);
      case Lose => HeadOk(l.ba, l.b.log);
    }
  }

  // ---- The receiver moves ----

  lemma {:induction false} DeliveredKept(log: seq<Mpdu>, more: seq<Mpdu>, events: seq<MacEvent>)
    requires AllDelivered(log, events) && LogKept(log, more)
    ensures AllDelivered(more, events)
  {
    forall k | 0 <= k < |events|
      ensures Delivered(more, events[k])
    {
      assert Delivered(log, events[k]);
      if events[k].TxComplete? && events[k].acked {
        var i :| 0 <= i < |log| && log[i].id == events[k].id && log[i].msdu == events[k].msdu;
        assert more[i] == more[..|log|][i];
      }
    }
  }

  lemma {:induction false} LogKeptSame(log: seq<Mpdu>)
    ensures LogKept(log, log)
  {
    assert log[..|log|] == log;
  }

  /** The receiver `b` hears something. */
  lemma {:induction false} ReceiverHearsConfirmed(cfgA: Config, cfgB: Config, l: Link, fates: seq<Fate>, now: nat, draw: nat)
    requires Forward(cfgA, cfgB, l) && Confirmed(l)
    requires |l.ab| > 0 && |fates| == |DataOf(l.ab[0])| && NoneWraps(cfgB, l.b.log, DataOf(l.ab[0]))
    ensures var t := OnPhyEvent(cfgB, l.b, EventOf(l.ab[0], fates), now, draw).s;
            LogKept(l.b.log, t.log) && ResponsesOk(t.responses, t.log)
  {
    hide Valid, OnPhyEvent, ResponsesOk, ActionsOk, AllDelivered, Arrival, NoneWraps,
         DedupOk, LogGood, AllReach, AllSettled, UpsAgree, Counted, LogKept, LogFrom, WrapsFrom, Answered, Burst;
    if l.ab[0].SendData? {
      assert AllReach(l.b.log, DataOf(l.ab[0])) && Burst(DataOf(l.ab[0]));
      DataAnswered(cfgB, l.b, l.ab[0].ppdu, fates, now, draw);
      DataArrives(cfgB, l.b, l.ab[0].ppdu, fates, now, draw);
    } else {
      EventResponses(cfgB, l.b, EventOf(l.ab[0], fates), now, draw);
      LogKeptSame(l.b.log);
    }
  }

  lemma {:induction false} ReceiverPollsConfirmed(cfg: Config, l: Link, now: nat, inp: PollInput)
    requires Valid(cfg, l.b) && Confirmed(l)
    ensures var p := Poll(cfg, l.b, now, inp);
            p.s.log == l.b.log && ResponsesOk(p.s.responses, l.b.log) && ActionsOk(l.ba + Sent(p.action), l.b.log)
  {
    hide Valid, Poll, Prepared, Evolves, AllDelivered, Flown, Justified, Silent;
    PollFacts(cfg, l.b, now, inp);
  }

  /** The station that moves, here `a`, is the receiver of the direction considered. */
  lemma {:induction false} ReceiverConfirms(cfgA: Config, cfgB: Config, l: Link, m: Move)
    requires Forward(cfgB, cfgA, l.Swap()) && Confirmed(l.Swap()) && !WrappedData(cfgA, l.Swap(), (false, m))
    ensures Confirmed(MoveA(cfgA, l, m).Swap())
  {
    hide Forward, Poll, OnPhyEvent, ResponsesOk, ActionsOk, AllDelivered, Enqueue, Valid, NoneWraps, LogKept, EventOf, Noise;
    LogKeptSame(l.a.log);
    if Possible(l, m) {
      match m
      case Local(i) =>
        match i {
          case InEnqueue(eth) =>
            EnqueueFacts(cfgA, l.a, eth);
            assert l.ab + [] == l.ab;
          case InPhy(ev, now, draw) =>
            NoiseResponses(cfgA, l.a, ev, now, draw);
            assert l.ab + [] == l.ab;
          case InPoll(now, inp) =>
            ForwardValid(cfgB, cfgA, l.Swap());
            ReceiverPollsConfirmed(cfgA, l.Swap(), now, inp);
        }
      case Hear(fates, now, draw) =>
        ReceiverHearsConfirmed(cfgB, cfgA, l.Swap(), fates, now, draw);
        var log := OnPhyEvent(cfgA, l.a, EventOf(l.ba[0], fates), now, draw).s.log;
        ActionsKept(l.ab, l.a.log, log);
        DeliveredKept(l.a.log, log, l.eventsB);
      case Lose =>
    }
  }

  lemma {:induction false} ForwardValid(cfgA: Config, cfgB: Config, l: Link)
    requires Forward(cfgA, cfgB, l)
    ensures Valid(cfgB, l.b)
  {
  }

  lemma {:induction false} NoiseResponses(cfg: Config, s: MacState, ev: PhyEvent, now: nat, draw: nat)
    requires Noise(ev) && ResponsesOk(s.responses, s.log)
    ensures var o := OnPhyEvent(cfg, s, ev, now, draw); o.s.log == s.log && ResponsesOk(o.s.responses, s.log)
  {
    hide OnPhyEvent, ResponsesOk;
    EventResponses(cfg, s, ev, now, draw);
  }

  // ---- Runs ----

  lemma {:induction false} RunConfirmed(cfgA: Config, cfgB: Config, moves: seq<(bool, Move)>)
    requires cfgA.ndpAck && NoWrap(cfgA, cfgB, moves) && NoShared(cfgA, cfgB, moves)
    ensures Confirmed(RunLink(cfgA, cfgB, moves))
  {
    hide Forward, MoveA, Confirmed, WrappedData, WrappedAck, SharedAck;
    if |moves| == 0 {
      StartConfirmed(cfgA, cfgB);
    } else {
      var (before, m) := (moves[..|moves| - 1], moves[|moves| - 1]);
      var l := RunLink(cfgA, cfgB, before);
      RunForward(cfgA, cfgB, before);
      RunConfirmed(cfgA, cfgB, before);
      if m.0 {
        assert m == (true, m.1);
        SenderConfirms(cfgA, cfgB, l, m.1);
      } else {
        assert m == (false, m.1) && l.Swap().Swap() == l;
        ReceiverConfirms(cfgB, cfgA, l.Swap(), m.1);
      }
    }
  }

  lemma {:induction false} StartConfirmed(cfgA: Config, cfgB: Config)
    ensures Confirmed(Start(cfgA, cfgB))
  {
  }

  /** Exactly once: with NDP acknowledgment and no ingress filter at the receiver, on every run where
      no number heard wraps around onto one remembered and no Ack heard shares its Ack ID with the
      one awaited, a frame reported as acknowledged was handed up at the other end exactly once,
      octet for octet as it was sent. Identification text is reported apart. */
  lemma {:induction false} AckedExactlyOnce(cfgA: Config, cfgB: Config, moves: seq<(bool, Move)>, k: nat)
    requires cfgA.ndpAck && !cfgB.ingressFilter && NoWrap(cfgA, cfgB, moves) && NoShared(cfgA, cfgB, moves)
    requires k < |RunLink(cfgA, cfgB, moves).eventsA|
    requires var e := RunLink(cfgA, cfgB, moves).eventsA[k]; e.TxComplete? && e.acked && !IsIdent(e.msdu.body)
    ensures var (l, e) := (RunLink(cfgA, cfgB, moves), RunLink(cfgA, cfgB, moves).eventsA[k]);
            && HandUps(l.eventsB, OfFrame(e.msdu.src, e.id)) == 1
            && ToEthernet(e.msdu).Some?
            && HandUps(l.eventsB, Exactly(EthReceived(ToEthernet(e.msdu).value, e.msdu.src, e.id))) >= 1
  {
    hide RunLink, Valid, HandUps, LoggedUps, LogGood, DedupOk, ResponsesOk, ActionsOk, NoWrap, NoShared,
         ChannelOk, LogReaches, AllSettled, ChannelSettled, IsIdent;
    RunForward(cfgA, cfgB, moves);
    RunConfirmed(cfgA, cfgB, moves);
    var (l, e) := (RunLink(cfgA, cfgB, moves), RunLink(cfgA, cfgB, moves).eventsA[k]);
    assert Delivered(l.b.log, e);
    var i :| 0 <= i < |l.b.log| && l.b.log[i].id == e.id && l.b.log[i].msdu == e.msdu;
    LoggedExactlyOnce(cfgB, l.b.log, i);
    var (frame, event) := (OfFrame(e.msdu.src, e.id), Exactly(EthReceived(ToEthernet(e.msdu).value, e.msdu.src, e.id)));
    assert HandUps(l.eventsB, frame) == LoggedUps(cfgB, l.b.log, frame);
    assert HandUps(l.eventsB, event) == LoggedUps(cfgB, l.b.log, event);
  }

  // ---- Before the wrap ----

  /** Ids only grow. */
  lemma {:induction false} NextGrows(cfgA: Config, cfgB: Config, l: Link, m: (bool, Move))
    requires Forward(cfgA, cfgB, l) && Forward(cfgB, cfgA, l.Swap())
    ensures Next(cfgA, cfgB, l, m).a.nextId >= l.a.nextId
  {
    hide Valid, Poll, OnPhyEvent, Enqueue, EventOf, Noise, DedupOk, LogGood, ChannelOk, LogReaches, AllSettled, ChannelSettled, UpsAgree;
    if m.0 && Possible(l, m.1) {
      match m.1
      case Local(i) =>
        match i {
          case InEnqueue(eth) => EnqueueFacts(cfgA, l.a, eth);
          case InPhy(ev, now, draw) => EventFacts(cfgA, l.a, ev, now, draw);
          case InPoll(now, inp) => PollFacts(cfgA, l.a, now, inp);
        }
      case Hear(fates, now, draw) => EventFacts(cfgA, l.a, EventOf(l.ba[0], fates), now, draw);
      case Lose =>
    }
  }

  lemma {:induction false} NoneWrapsBefore(cfgA: Config, cfgB: Config, l: Link, ms: seq<Mpdu>)
    requires Forward(cfgA, cfgB, l) && AllSettled(l.a, ms) && l.a.nextId <= SEQ_MOD
    ensures NoneWraps(cfgB, l.b.log, ms)
  {
    hide Valid, Window, Content, Recent;
    forall j | 0 <= j < |ms| && ForUs(cfgB, ms[j])
      ensures !Wraps(l.b.log, ms[j])
    {
      assert Settled(l.a, ms[j]);
      var r := Recent(l.b.log, ms[j].msdu.src);
      forall i | 0 <= i < |r| && r[i].id < ms[j].id
        ensures (ms[j].id - r[i].id) % SEQ_MOD != 0
      {
      }
    }
  }

  /** Nothing wraps before 4096 sequence numbers are given out. */
  lemma {:induction false} NoWrapBefore(cfgA: Config, cfgB: Config, moves: seq<(bool, Move)>)
    requires RunLink(cfgA, cfgB, moves).a.nextId <= SEQ_MOD
    ensures NoWrap(cfgA, cfgB, moves)
  {
    hide Valid, Next, LateBlockAck, DedupOk, LogGood, ChannelOk, LogReaches, AllSettled, UpsAgree, NoneWraps;
    if |moves| > 0 {
      var (before, m) := (moves[..|moves| - 1], moves[|moves| - 1]);
      var l := RunLink(cfgA, cfgB, before);
      RunForward(cfgA, cfgB, before);
      NextGrows(cfgA, cfgB, l, m);
      NoWrapBefore(cfgA, cfgB, before);
      if |l.ab| > 0 {
        assert AllSettled(l.a, DataOf(l.ab[0]));
        NoneWrapsBefore(cfgA, cfgB, l, DataOf(l.ab[0]));
      }
      if m.0 && m.1.Hear? && |l.ba| > 0 && l.ba[0].SendNdp? {
        NotLateBefore(l.a, l.ba[0].body, l.ba[0].about);
      }
    }
  }

  lemma {:induction false} NotLateBefore(s: MacState, body: nat, about: Option<Mpdu>)
    requires s.nextId <= SEQ_MOD
    ensures !LateBlockAck(s, body, about)
  {
  }
}

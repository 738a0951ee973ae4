/** One direction of a link: a sender, an order-preserving lossy channel and a receiver. */
module LinkOrder {
  import opened Wrappers
  import opened Params
  import opened Ndp
  import opened MacTypes
  import opened MacSpec
  import opened MacInvariant
  import opened MacAcks
  import opened MacEvolution
  import opened MacReception

  // ---- The channel ----

  /** Data MPDUs of a transmission. */
  function DataOf(a: Action): seq<Mpdu> {
    if a.SendData? then a.ppdu.mpdus else []
  }

  /** How a transmission arrives. */
  function EventOf(a: Action, fates: seq<Fate>): PhyEvent
    requires |fates| == |DataOf(a)|
  {
    match a
    case SendData(p) => Arrival(p, fates)
    case SendRts(ra, ta, d, seed) => PsduHeard(RxInfo(false, NdpResponse, seed), [(RtsFrame(ra, ta, d), false)])
    case SendAck(ra) => PsduHeard(RxInfo(false, NoResponse, 0), [(AckFrame(ra), false)])
    case SendNdp(body, _) => NdpHeard(body)
  }

  /** A frame that is neither data nor a response. */
  predicate IdleFrame(f: Frame) {
    f.OtherFrame? || f.IgnoredFrame? || f.BrokenFrame?
  }

  /** What a station can also hear: anything but data, responses and requests to send. */
  predicate Noise(ev: PhyEvent) {
    !ev.NdpHeard? && (ev.PsduHeard? ==> forall i | 0 <= i < |ev.frames| :: IdleFrame(ev.frames[i].0))
  }

  // ---- Order ----

  ghost predicate Cross(xs: seq<Mpdu>, ys: seq<Mpdu>) {
    AllReach(xs, ys)
  }

  /** Transmissions in flight carry one batch each, in order of batches. */
  ghost predicate ChannelOk(ch: seq<Action>) {
    && (forall i | 0 <= i < |ch| :: Burst(DataOf(ch[i])))
    && forall i, j | 0 <= i < j < |ch| :: Cross(DataOf(ch[i]), DataOf(ch[j]))
  }

  ghost predicate LogReaches(log: seq<Mpdu>, ch: seq<Action>) {
    forall j | 0 <= j < |ch| :: AllReach(log, DataOf(ch[j]))
  }

  /** A frame in flight with the id of one in the batch is that frame. */
  ghost predicate Content(b: Batch, m: Mpdu) {
    forall i | 0 <= i < |b.mpdus| :: b.mpdus[i].id == m.id ==> m.msdu == MsduOf(b, b.mpdus[i])
  }

  /** An MPDU sent earlier, seen from the sender's state. */
  ghost predicate Settled(s: MacState, m: Mpdu) {
    && Window(m) && m.id < s.nextId
    && (s.cur.Some? ==>
          && m.base <= s.cur.value.base && (m.base < s.cur.value.base ==> m.id < s.cur.value.base)
          && Content(s.cur.value, m))
  }

  ghost predicate AllSettled(s: MacState, ms: seq<Mpdu>) {
    forall i | 0 <= i < |ms| :: Settled(s, ms[i])
  }

  ghost predicate ChannelSettled(s: MacState, ch: seq<Action>) {
    forall i | 0 <= i < |ch| :: AllSettled(s, DataOf(ch[i]))
  }

  /** The receiver's reports agree with its log. */
  ghost predicate UpsAgree(cfg: Config, r: MacState, events: seq<MacEvent>) {
    forall key: Key :: HandUps(events, key) == LoggedUps(cfg, r.log, key)
  }

  /** What one direction of a link keeps. */
  ghost predicate Dir(cfgS: Config, cfgR: Config, s: MacState, ch: seq<Action>, r: MacState, events: seq<MacEvent>) {
    && Valid(cfgS, s)
    && DedupOk(r) && LogGood(r.log)
    && ChannelOk(ch) && LogReaches(r.log, ch)
    && AllSettled(s, r.log) && ChannelSettled(s, ch)
    && UpsAgree(cfgR, r, events)
  }

  // ---- The sender moves ----

  lemma {:induction false} ContentLeft(b: Batch, c: Batch, m: Mpdu)
    requires LeftOf(b, c) && Content(b, m)
    ensures Content(c, m)
  {
    forall i | 0 <= i < |c.mpdus| && c.mpdus[i].id == m.id
      ensures m.msdu == MsduOf(c, c.mpdus[i])
    {
      assert Has(b, c.mpdus[i].id, c.mpdus[i].body);
      var j :| 0 <= j < |b.mpdus| && b.mpdus[j].id == c.mpdus[i].id && b.mpdus[j].body == c.mpdus[i].body;
    }
  }

  /** A later batch has no frame with an old id. */
  lemma {:induction false} ContentNew(cfg: Config, s: MacState, m: Mpdu)
    requires Valid(cfg, s) && s.cur.Some? && m.id < s.cur.value.base
    ensures Content(s.cur.value, m)
  {
    hide Carriable, Measure, Budget, TxOk, CwOk;
    var b := s.cur.value;
    forall i | 0 <= i < |b.mpdus|
      ensures b.mpdus[i].id != m.id
    {
      assert MpduOk(cfg, b.base, s.nextId, b.ident, b.mpdus[i], i < |b.inFlight|);
    }
  }

  lemma {:induction false} SettledEvolves(cfg: Config, s: MacState, t: MacState, m: Mpdu)
    requires Settled(s, m) && Evolves(s, t) && Valid(cfg, t)
    ensures Settled(t, m)
  {
    hide Content, LeftOf, Valid;
    if t.cur.Some? {
      if s.cur.Some? && LeftOf(s.cur.value, t.cur.value) {
        ContentLeft(s.cur.value, t.cur.value, m);
        BaseKept(s.cur.value, t.cur.value);
      } else {
        ContentNew(cfg, t, m);
      }
    }
  }

  lemma {:induction false} AllSettledEvolves(cfg: Config, s: MacState, t: MacState, ms: seq<Mpdu>)
    requires AllSettled(s, ms) && Evolves(s, t) && Valid(cfg, t)
    ensures AllSettled(t, ms)
  {
    hide Settled, Evolves, Valid;
    forall i | 0 <= i < |ms|
      ensures Settled(t, ms[i])
    {
      SettledEvolves(cfg, s, t, ms[i]);
    }
  }

  lemma {:induction false} ChannelSettledEvolves(cfg: Config, s: MacState, t: MacState, ch: seq<Action>)
    requires ChannelSettled(s, ch) && Evolves(s, t) && Valid(cfg, t)
    ensures ChannelSettled(t, ch)
  {
    hide AllSettled, Evolves, Valid;
    forall i | 0 <= i < |ch|
      ensures AllSettled(t, DataOf(ch[i]))
    {
      AllSettledEvolves(cfg, s, t, DataOf(ch[i]));
    }
  }

  /** The sender changes state without sending data. */
  lemma {:induction false} SenderEvolves(cfgS: Config, cfgR: Config, s: MacState, t: MacState, ch: seq<Action>, r: MacState, events: seq<MacEvent>)
    requires Dir(cfgS, cfgR, s, ch, r, events) && Evolves(s, t) && Valid(cfgS, t)
    ensures Dir(cfgS, cfgR, t, ch, r, events)
  {
    hide Valid, Evolves, DedupOk, LogGood, ChannelOk, LogReaches, AllSettled, ChannelSettled, UpsAgree;
    AllSettledEvolves(cfgS, s, t, r.log);
    ChannelSettledEvolves(cfgS, s, t, ch);
  }

  /** What a station puts on the air is one batch, in the window of its state. */
  lemma {:induction false} CarriedFacts(cfg: Config, s: MacState, p: Ppdu, i: nat)
    requires Valid(cfg, s) && s.cur.Some? && CarriedBy(s.cur.value, p) && i < |p.mpdus|
    ensures var b := s.cur.value;
            && Window(p.mpdus[i]) && p.mpdus[i].base == b.base && p.mpdus[i].id < s.nextId && Content(b, p.mpdus[i])
            && b.mpdus[i].id == p.mpdus[i].id && p.mpdus[i].msdu == MsduOf(b, b.mpdus[i])
  {
    hide Carriable, Measure, Budget, TxOk, CwOk;
    var b := s.cur.value;
    assert MpduOk(cfg, b.base, s.nextId, b.ident, b.mpdus[i], i < |b.inFlight|);
    forall j | 0 <= j < |b.mpdus| && b.mpdus[j].id == p.mpdus[i].id
      ensures j == i
    {
    }
  }

  lemma {:induction false} FlownSettled(cfg: Config, s: MacState, t: MacState, p: Ppdu)
    requires Valid(cfg, s) && Flown(cfg, s, t, p)
    ensures AllSettled(t, p.mpdus) && Burst(p.mpdus)
  {
    hide Valid, Content, LeftOf, BuildMpdu, Window;
    forall i | 0 <= i < |p.mpdus|
      ensures Settled(t, p.mpdus[i]) && Window(p.mpdus[i]) && p.mpdus[i].base == s.cur.value.base
    {
      CarriedFacts(cfg, s, p, i);
      if t.cur.Some? {
        ContentLeft(s.cur.value, t.cur.value, p.mpdus[i]);
        BaseKept(s.cur.value, t.cur.value);
      }
    }
  }

  /** Everything sent earlier comes before what is sent now. */
  lemma {:induction false} SettledBefore(cfg: Config, s: MacState, p: Ppdu, ms: seq<Mpdu>)
    requires Valid(cfg, s) && s.cur.Some? && CarriedBy(s.cur.value, p) && AllSettled(s, ms)
    ensures AllReach(ms, p.mpdus)
  {
    hide Valid, Content, CarriedBy;
    forall j | 0 <= j < |p.mpdus|
      ensures Reaches(ms, p.mpdus[j])
    {
      CarriedFacts(cfg, s, p, j);
      forall i | 0 <= i < |ms|
        ensures Before(ms[i], p.mpdus[j])
      {
        assert Settled(s, ms[i]);
      }
    }
  }

  /** The sender transmits data. */
  lemma {:induction false} SenderFlies(cfgS: Config, cfgR: Config, s: MacState, t: MacState, p: Ppdu, ch: seq<Action>, r: MacState, events: seq<MacEvent>)
    requires Dir(cfgS, cfgR, s, ch, r, events) && Flown(cfgS, s, t, p) && Evolves(s, t) && Valid(cfgS, t)
    ensures Dir(cfgS, cfgR, t, ch + [SendData(p)], r, events)
  {
    hide Valid, DedupOk, LogGood, AllReach, AllSettled, UpsAgree, Burst, CarriedBy, LeftOf, ExpectFor;
    SenderEvolves(cfgS, cfgR, s, t, ch, r, events);
    FlownSettled(cfgS, s, t, p);
    SettledBefore(cfgS, s, p, r.log);
    var next := ch + [SendData(p)];
    assert DataOf(SendData(p)) == p.mpdus;
    forall j | 0 <= j < |next|
      ensures AllReach(r.log, DataOf(next[j])) && AllSettled(t, DataOf(next[j])) && Burst(DataOf(next[j]))
    {
      assert j < |ch| ==> next[j] == ch[j];
    }
    forall i, j | 0 <= i < j < |next|
      ensures Cross(DataOf(next[i]), DataOf(next[j]))
    {
      assert next[i] == ch[i];
      if j < |ch| {
        assert next[j] == ch[j] && Cross(DataOf(ch[i]), DataOf(ch[j]));
      } else {
        SettledBefore(cfgS, s, p, DataOf(ch[i]));
      }
    }
  }

  /** The sender transmits something without data. */
  lemma {:induction false} SenderSends(cfgS: Config, cfgR: Config, s: MacState, a: Action, ch: seq<Action>, r: MacState, events: seq<MacEvent>)
    requires Dir(cfgS, cfgR, s, ch, r, events) && !a.SendData?
    ensures Dir(cfgS, cfgR, s, ch + [a], r, events)
  {
    hide Valid, DedupOk, LogGood, UpsAgree, Before, Window, Settled;
    var next := ch + [a];
    assert DataOf(a) == [];
    forall j | 0 <= j < |next|
      ensures AllReach(r.log, DataOf(next[j])) && AllSettled(s, DataOf(next[j])) && Burst(DataOf(next[j]))
    {
      assert j < |ch| ==> next[j] == ch[j];
    }
    forall i, j | 0 <= i < j < |next|
      ensures Cross(DataOf(next[i]), DataOf(next[j]))
    {
      assert next[i] == ch[i] && (j < |ch| ==> next[j] == ch[j]);
    }
  }

  // ---- The receiver moves ----

  lemma {:induction false} ReceiverUnmoved(cfgS: Config, cfgR: Config, s: MacState, ch: seq<Action>, r: MacState, events: seq<MacEvent>, o: Out)
    requires Dir(cfgS, cfgR, s, ch, r, events) && Unmoved(r, o)
    ensures Dir(cfgS, cfgR, s, ch, o.s, events + o.events)
  {
    hide Valid, LogGood, ChannelOk, AllReach, AllSettled, ChannelSettled, Last64, FromSrc, HandUps, LoggedUps;
    forall key: Key
      ensures HandUps(events + o.events, key) == LoggedUps(cfgR, o.s.log, key)
    {
      HandUpsConcat(events, o.events, key);
      NoHandUps(o.events, key);
    }
  }

  /** The head of the channel is gone. */
  lemma {:induction false} HeadGone(cfgS: Config, cfgR: Config, s: MacState, ch: seq<Action>, r: MacState, events: seq<MacEvent>)
    requires Dir(cfgS, cfgR, s, ch, r, events) && |ch| > 0
    ensures Dir(cfgS, cfgR, s, ch[1..], r, events)
  {
    hide Valid, DedupOk, LogGood, AllReach, AllSettled, UpsAgree, Burst;
    var rest := ch[1..];
    forall j | 0 <= j < |rest|
      ensures AllReach(r.log, DataOf(rest[j])) && AllSettled(s, DataOf(rest[j])) && Burst(DataOf(rest[j]))
    {
      assert rest[j] == ch[j + 1];
    }
    forall i, j | 0 <= i < j < |rest|
      ensures Cross(DataOf(rest[i]), DataOf(rest[j]))
    {
      assert rest[i] == ch[i + 1] && rest[j] == ch[j + 1];
    }
  }

  /** Logged MPDUs come from the log or the burst, so whatever both precede the new log precedes. */
  lemma {:induction false} LogFromReaches(log: seq<Mpdu>, more: seq<Mpdu>, ms: seq<Mpdu>, ys: seq<Mpdu>)
    requires LogFrom(log, more, ms) && AllReach(log, ys) && AllReach(ms, ys)
    ensures AllReach(more, ys)
  {
    hide Before;
    forall j, i | 0 <= j < |ys| && 0 <= i < |more|
      ensures Before(more[i], ys[j])
    {
      assert Reaches(log, ys[j]) && Reaches(ms, ys[j]);
      if more[i] in log {
        var k :| 0 <= k < |log| && log[k] == more[i];
      } else {
        var k :| 0 <= k < |ms| && ms[k] == more[i];
      }
    }
  }

  lemma {:induction false} LogFromSettled(s: MacState, log: seq<Mpdu>, more: seq<Mpdu>, ms: seq<Mpdu>)
    requires LogFrom(log, more, ms) && AllSettled(s, log) && AllSettled(s, ms)
    ensures AllSettled(s, more)
  {
    hide Settled;
    forall i | 0 <= i < |more|
      ensures Settled(s, more[i])
    {
      if more[i] in log {
        var k :| 0 <= k < |log| && log[k] == more[i];
      } else {
        var k :| 0 <= k < |ms| && ms[k] == more[i];
      }
    }
  }

  /** Queueing a response changes neither log nor reports. */
  lemma {:induction false} DataArrives(cfg: Config, r: MacState, p: Ppdu, fates: seq<Fate>, now: nat, draw: nat)
    requires |fates| == |p.mpdus| && DedupOk(r) && LogGood(r.log) && Burst(p.mpdus) && AllReach(r.log, p.mpdus)
    ensures var o := OnPhyEvent(cfg, r, Arrival(p, fates), now, draw);
            Took(cfg, r, o, p.mpdus) && Answered(cfg, r.log, o.s.log, p.mpdus, fates, |p.mpdus|)
  {
    hide LogGood, Burst, AllReach, OnFrames, Heard, LogFrom, LogKept, AllBlockAcked, ToBody, BlockAckFor, LoggedUps, HandUps, Last64, FromSrc, Got, Wraps, WrapsFrom;
    var frames := Heard(p.mpdus, fates, EofOf(p));
    var blockAck := WantsBlockAck(RxOf(p), frames);
    assert p.mpdus[..|p.mpdus|] == p.mpdus && fates[..|p.mpdus|] == fates;
    OnFramesTook(cfg, r, p.mpdus, fates, EofOf(p), RxOf(p), blockAck, now, draw, |p.mpdus|);
  }

  /** Data arrives, as much of it as survives. */
  lemma {:induction false} ReceiverHears(cfgS: Config, cfgR: Config, s: MacState, ch: seq<Action>, r: MacState, events: seq<MacEvent>,
                                         fates: seq<Fate>, now: nat, draw: nat)
    requires Dir(cfgS, cfgR, s, ch, r, events) && |ch| > 0 && |fates| == |DataOf(ch[0])|
    ensures var o := OnPhyEvent(cfgR, r, EventOf(ch[0], fates), now, draw);
            Dir(cfgS, cfgR, s, ch[1..], o.s, events + o.events)
  {
    hide Valid, OnPhyEvent, DedupOk, LogGood, AllReach, AllSettled, Burst, LogFrom, LogKept, WrapsFrom, Arrival, Answered, HandUps, LoggedUps;
    var o := OnPhyEvent(cfgR, r, EventOf(ch[0], fates), now, draw);
    HeadGone(cfgS, cfgR, s, ch, r, events);
    if ch[0].SendData? {
      var ms := ch[0].ppdu.mpdus;
      DataArrives(cfgR, r, ch[0].ppdu, fates, now, draw);
      LogFromSettled(s, r.log, o.s.log, ms);
      forall j | 0 <= j < |ch[1..]|
        ensures AllReach(o.s.log, DataOf(ch[1..][j]))
      {
        assert ch[1..][j] == ch[j + 1] && Cross(DataOf(ch[0]), DataOf(ch[j + 1]));
        LogFromReaches(r.log, o.s.log, ms, DataOf(ch[j + 1]));
      }
      forall key: Key
        ensures HandUps(events + o.events, key) == LoggedUps(cfgR, o.s.log, key)
      {
        HandUpsConcat(events, o.events, key);
      }
    } else {
      EventFacts(cfgR, r, EventOf(ch[0], fates), now, draw);
      ReceiverUnmoved(cfgS, cfgR, s, ch[1..], r, events, o);
    }
  }
}

/** No frame is lost or duplicated inside the engine: every accepted frame is queued, in the current
    batch, or reported complete or dropped exactly once. */
module MacConservation {
  import opened Wrappers
  import opened Bits
  import opened Ndp
  import opened MacTypes
  import opened MacSpec
  import opened MacInvariant

  // ---- Where frames are ----

  /** Frames of a batch. */
  function Frames(dest: Addr, src: Addr, q: seq<PendingMpdu>): multiset<Msdu> {
    if |q| == 0 then multiset{} else Frames(dest, src, q[..|q| - 1]) + multiset{Msdu(dest, src, q[|q| - 1].body)}
  }

  function Held(cur: Option<Batch>): multiset<Msdu> {
    if cur.None? || cur.value.ident then multiset{} else Frames(cur.value.dest, cur.value.src, cur.value.mpdus)
  }

  /** Frames queued or being worked on; identification frames are apart. */
  function Holdings(s: MacState): multiset<Msdu> {
    multiset(s.queue) + Held(s.cur)
  }

  function FinishedBy(e: MacEvent): multiset<Msdu> {
    match e
    case TxComplete(m, _, _, _, _) => multiset{m}
    case TxDropped(m, _, ident, _) => if ident then multiset{} else multiset{m}
    case _ => multiset{}
  }

  /** Frames reported complete or dropped. */
  function Finished(events: seq<MacEvent>): multiset<Msdu> {
    if |events| == 0 then multiset{} else Finished(events[..|events| - 1]) + FinishedBy(events[|events| - 1])
  }

  function Accepted(cfg: Config, s: MacState, i: Input): multiset<Msdu> {
    if i.InEnqueue? && Enqueue(cfg, s, i.eth).1.Success? then multiset{ParseEthernet(i.eth).value} else multiset{}
  }

  /** Frames accepted over a run. */
  function AcceptedAll(cfg: Config, ins: seq<Input>): multiset<Msdu> {
    if |ins| == 0 then multiset{}
    else AcceptedAll(cfg, ins[..|ins| - 1]) + Accepted(cfg, Run(cfg, ins[..|ins| - 1]).s, ins[|ins| - 1])
  }

  lemma {:induction false} FramesAppend(dest: Addr, src: Addr, q: seq<PendingMpdu>, m: PendingMpdu)
    ensures Frames(dest, src, q + [m]) == Frames(dest, src, q) + multiset{Msdu(dest, src, m.body)}
  {
    assert (q + [m])[..|q|] == q;
  }

  lemma {:induction false} FinishedAppend(events: seq<MacEvent>, e: MacEvent)
    ensures Finished(events + [e]) == Finished(events) + FinishedBy(e)
  {
    assert (events + [e])[..|events|] == events;
  }

  lemma {:induction false} FinishedConcat(a: seq<MacEvent>, b: seq<MacEvent>)
    ensures Finished(a + b) == Finished(a) + Finished(b)
  {
    hide FinishedBy;
    if |b| == 0 {
      assert a + b == a;
    } else {
      FinishedConcat(a, b[..|b| - 1]);
      assert (a + b)[..|a + b| - 1] == a + b[..|b| - 1];
    }
  }

  lemma {:induction false} FinishedNothing(e: MacEvent)
    ensures Finished([e]) == FinishedBy(e) && Finished([]) == multiset{}
  {
    assert [e] == [] + [e];
    FinishedAppend([], e);
  }

  // ---- Resolving ----

  lemma {:induction false} SweepOneConserves(b: Batch, w: Sweep, m: PendingMpdu, flown: bool, covered: bool, maxRetries: nat)
    requires !b.ident
    ensures var v := SweepOne(b, w, m, flown, covered, maxRetries);
            Frames(b.dest, b.src, v.kept) + Finished(v.events)
            == Frames(b.dest, b.src, w.kept) + Finished(w.events) + multiset{MsduOf(b, m)}
  {
    hide Frames, Finished;
    FramesAppend(b.dest, b.src, w.kept, m);
    FramesAppend(b.dest, b.src, w.kept, m.(retries := m.retries + 1));
    FinishedAppend(w.events, TxComplete(MsduOf(b, m), true, m.retries, b.choice.mcs, m.id));
    FinishedAppend(w.events, TxDropped(MsduOf(b, m), RetryLimit, b.ident, m.id));
  }

  lemma {:induction false} SweepConserves(b: Batch, flown: seq<nat>, acks: Acks, maxRetries: nat, n: nat)
    requires n <= |b.mpdus| && !b.ident
    ensures var w := SweepTo(b, flown, acks, maxRetries, n);
            Frames(b.dest, b.src, w.kept) + Finished(w.events) == Frames(b.dest, b.src, b.mpdus[..n])
  {
    hide SweepOne, Finished, Frames;
    if n == 0 {
      NoFrames(b.dest, b.src);
      FinishedNothing(Filtered);
    } else {
      SweepConserves(b, flown, acks, maxRetries, n - 1);
      var m := b.mpdus[n - 1];
      SweepOneConserves(b, SweepTo(b, flown, acks, maxRetries, n - 1), m, n - 1 in flown, acks.Covers(m.sn), maxRetries);
      assert b.mpdus[..n] == b.mpdus[..n - 1] + [m];
      FramesAppend(b.dest, b.src, b.mpdus[..n - 1], m);
    }
  }

  /** Nothing is lost between two states. */
  ghost predicate Conserved(s: MacState, o: Out) {
    Holdings(o.s) + Finished(o.events) == Holdings(s)
  }

  lemma {:induction false} NoFrames(dest: Addr, src: Addr)
    ensures Frames(dest, src, []) == multiset{}
  {
  }

  lemma {:induction false} ResolveConserves(cfg: Config, s: MacState, acks: Acks, now: nat, draw: nat)
    requires s.cur.Some? ==> !s.cur.value.ident
    ensures Conserved(s, Resolve(cfg, s, acks, now, draw))
  {
    hide SweepTo, Frames, Finished;
    if s.cur.Some? {
      var b := s.cur.value;
      SweepConserves(b, b.inFlight, acks, cfg.maxRetries, |b.mpdus|);
      assert b.mpdus[..|b.mpdus|] == b.mpdus;
      NoFrames(b.dest, b.src);
    } else {
      FinishedNothing(Filtered);
    }
  }

  lemma {:induction false} FailRtsConserves(cfg: Config, s: MacState, now: nat, draw: nat)
    requires s.cur.Some? ==> !s.cur.value.ident
    ensures Conserved(s, FailRts(cfg, s, now, draw))
  {
    hide SweepTo, Frames, Finished;
    if s.cur.Some? {
      var b := s.cur.value;
      SweepConserves(b, Indices(|b.mpdus|), AckNone, cfg.maxRetries, |b.mpdus|);
      assert b.mpdus[..|b.mpdus|] == b.mpdus;
      NoFrames(b.dest, b.src);
    } else {
      FinishedNothing(Filtered);
    }
  }

  /** An attempt is awaited only for a batch that is not an identification. */
  lemma {:induction false} AwaitedNotIdent(cfg: Config, s: MacState)
    requires Valid(cfg, s) && s.tx.AwaitResponse?
    ensures s.cur.Some? && !s.cur.value.ident
  {
  }

  // ---- Reception ----

  lemma {:induction false} OnNdpAckConserves(cfg: Config, s: MacState, f: NdpFrame, now: nat, draw: nat)
    requires f.Ack? && Valid(cfg, s)
    ensures Conserved(s, OnNdpAck(cfg, s, f, now, draw))
  {
    hide Resolve, Valid, Frames, Finished, NoteLate, UpdateDelay;
    FinishedNothing(Filtered);
    if s.tx.AwaitResponse? {
      AwaitedNotIdent(cfg, s);
      ResolveConserves(cfg, s.(delay := NoteResponse(s.delay, now)), AckAll, now, draw);
    }
  }

  lemma {:induction false} OnBlockAckConserves(cfg: Config, s: MacState, f: NdpFrame, now: nat, draw: nat)
    requires f.BlockAck? && Valid(cfg, s)
    ensures Conserved(s, OnBlockAck(cfg, s, f, now, draw))
  {
    hide Resolve, Valid, Frames, Finished, NoteLate, UpdateDelay;
    FinishedNothing(Filtered);
    if s.tx.AwaitResponse? {
      AwaitedNotIdent(cfg, s);
      ResolveConserves(cfg, s.(delay := NoteResponse(s.delay, now)), AckBitmap(f.ssn, f.bitmap), now, draw);
    }
  }

  lemma {:induction false} OnNdpConserves(cfg: Config, s: MacState, f: NdpFrame, now: nat, draw: nat)
    requires Valid(cfg, s)
    ensures Conserved(s, OnNdp(cfg, s, f, now, draw))
  {
    hide OnNdpAck, OnBlockAck, Valid, Frames, Finished, NoteLate, UpdateDelay;
    FinishedNothing(Filtered);
    var rid := NdpRidLength(cfg, f);
    var t := if rid > 0 then s.(medium := ExtendRid(s.medium, now + rid)) else s;
    SameCoreValid(cfg, s, t);
    if f.Ack? {
      OnNdpAckConserves(cfg, t, f, now, draw);
    } else if f.BlockAck? {
      OnBlockAckConserves(cfg, t, f, now, draw);
    }
  }

  lemma {:induction false} DeliveryFinishesNothing(cfg: Config, m: Mpdu)
    ensures Finished(Delivery(cfg, m)) == multiset{}
  {
    hide IsIdent, ToEthernet, Finished;
    var d := Delivery(cfg, m);
    FinishedNothing(Filtered);
    if |d| == 1 {
      FinishedNothing(d[0]);
    }
  }

  lemma {:induction false} OnDataConserves(cfg: Config, s: MacState, m: Mpdu, noAck: bool, rx: RxInfo, blockAck: bool, now: nat)
    ensures Conserved(s, OnData(cfg, s, m, noAck, rx, blockAck, now))
  {
    hide Finished, Delivery, ToBody, AckId, Remember, Conserved, SeenFrom;
    FinishedNothing(Filtered);
    DeliveryFinishesNothing(cfg, m);
    NothingConserves(s);
    SameHeldConserves(s, Out(s, []), OnData(cfg, s, m, noAck, rx, blockAck, now));
  }

  lemma {:induction false} OnAckFrameConserves(cfg: Config, s: MacState, ra: Addr, now: nat, draw: nat)
    requires Valid(cfg, s)
    ensures Conserved(s, OnAckFrame(cfg, s, ra, now, draw))
  {
    hide Resolve, Valid, Finished, NoteLate, UpdateDelay, Conserved;
    FinishedNothing(Filtered);
    NothingConserves(s);
    if ra == cfg.addr && s.tx.AwaitResponse? && s.tx.awaited.ExpectAck? {
      AwaitedNotIdent(cfg, s);
      var d := s.(delay := NoteResponse(s.delay, now));
      ResolveConserves(cfg, d, AckAll, now, draw);
      FromSameHeld(s, d, Resolve(cfg, d, AckAll, now, draw));
    } else {
      SameHeldConserves(s, Out(s, []), OnAckFrame(cfg, s, ra, now, draw));
    }
  }

  lemma {:induction false} FromSameHeld(s: MacState, t: MacState, o: Out)
    requires Conserved(t, o) && t.queue == s.queue && t.cur == s.cur
    ensures Conserved(s, o)
  {
    hide Finished, Held;
  }

  lemma {:induction false} OnFrameConserves(cfg: Config, s: MacState, f: Frame, rx: RxInfo, blockAck: bool, now: nat, draw: nat)
    requires Valid(cfg, s)
    ensures Conserved(s, OnFrame(cfg, s, f, rx, blockAck, now, draw))
  {
    hide OnAckFrame, Valid, Finished, OnData, ToBody, Conserved;
    FinishedNothing(Filtered);
    NothingConserves(s);
    var t := s.(medium := s.medium.(eifsPending := false));
    SameCoreValid(cfg, s, t);
    match f
    case DataFrame(m, noAck) =>
      OnDataConserves(cfg, t, m, noAck, rx, blockAck, now);
      FromSameHeld(s, t, OnData(cfg, t, m, noAck, rx, blockAck, now));
    case AckFrame(ra) =>
      OnAckFrameConserves(cfg, t, ra, now, draw);
      FromSameHeld(s, t, OnAckFrame(cfg, t, ra, now, draw));
    case _ => SameHeldConserves(s, Out(s, []), OnFrame(cfg, s, f, rx, blockAck, now, draw));
  }

  lemma {:induction false} FramesConserve(cfg: Config, s: MacState, frames: seq<(Frame, bool)>, rx: RxInfo, blockAck: bool,
                                          now: nat, draw: nat)
    requires Valid(cfg, s)
    ensures Conserved(s, OnFrames(cfg, s, frames, rx, blockAck, now, draw))
  {
    hide Valid, OnFrame, Finished, Holdings;
    FinishedNothing(Filtered);
    if |frames| > 0 {
      var (before, last) := (frames[..|frames| - 1], frames[|frames| - 1].0);
      FramesConserve(cfg, s, before, rx, blockAck, now, draw);
      FramesValid(cfg, s, before, rx, blockAck, now, draw);
      var o := OnFrames(cfg, s, before, rx, blockAck, now, draw);
      OnFrameConserves(cfg, o.s, last, rx, blockAck, now, draw);
      FinishedConcat(o.events, OnFrame(cfg, o.s, last, rx, blockAck, now, draw).events);
    }
  }

  /** Answering does not touch the frames held. */
  lemma {:induction false} SameHeldConserves(s: MacState, o: Out, p: Out)
    requires Conserved(s, o) && p.s.queue == o.s.queue && p.s.cur == o.s.cur && Finished(p.events) == Finished(o.events)
    ensures Conserved(s, p)
  {
    hide Finished, Held;
  }

  lemma {:induction false} PsduConserves(cfg: Config, s: MacState, rx: RxInfo, frames: seq<(Frame, bool)>, now: nat, draw: nat)
    requires Valid(cfg, s)
    ensures Conserved(s, OnPsdu(cfg, s, rx, frames, now, draw))
  {
    hide Valid, OnFrames, AllBlockAcked, WantsBlockAck, BlockAckFor, Finished, Conserved, ToBody;
    var o := OnFrames(cfg, s, frames, rx, WantsBlockAck(rx, frames), now, draw);
    FramesConserve(cfg, s, frames, rx, WantsBlockAck(rx, frames), now, draw);
    SameHeldConserves(s, o, OnPsdu(cfg, s, rx, frames, now, draw));
  }

  lemma {:induction false} OnPhyEventConserves(cfg: Config, s: MacState, ev: PhyEvent, now: nat, draw: nat)
    requires Valid(cfg, s)
    ensures Conserved(s, OnPhyEvent(cfg, s, ev, now, draw))
  {
    hide Valid, OnPsdu, OnNdp, Parse, OnRxStart, Finished, Conserved;
    FinishedNothing(Filtered);
    NothingConserves(s);
    match ev
    case NdpHeard(body) =>
      var o := OnNdp(cfg, s, Parse(body), now, draw);
      OnNdpConserves(cfg, s, Parse(body), now, draw);
      FinishedAppend(o.events, NdpReceived(Parse(body)));
      SameHeldConserves(s, o, OnPhyEvent(cfg, s, ev, now, draw));
    case PsduHeard(rx, frames) => PsduConserves(cfg, s, rx, frames, now, draw);
    case _ => SameHeldConserves(s, Out(s, []), OnPhyEvent(cfg, s, ev, now, draw));
  }

  lemma {:induction false} NothingConserves(s: MacState)
    ensures Conserved(s, Out(s, []))
  {
    FinishedNothing(Filtered);
  }

  // ---- Queueing and polling ----

  lemma {:induction false} EnqueueConserves(cfg: Config, s: MacState, eth: seq<Octet>)
    ensures Holdings(Enqueue(cfg, s, eth).0) == Holdings(s) + Accepted(cfg, s, InEnqueue(eth))
  {
    hide Carriable, Held, ParseEthernet;
  }

  lemma {:induction false} NumberedFrames(dest: Addr, src: Addr, queue: seq<Msdu>, n: nat, sn: nat, id: nat)
    requires n <= |queue| && forall i | 0 <= i < n :: queue[i].dest == dest && queue[i].src == src
    ensures Frames(dest, src, Numbered(queue, n, sn, id)) == multiset(queue[..n])
  {
    hide Frames;
    if n == 0 {
      NoFrames(dest, src);
    } else {
      NumberedFrames(dest, src, queue, n - 1, sn, id);
      NumberedLast(queue, n, sn, id);
      FramesAppend(dest, src, Numbered(queue, n - 1, sn, id), Numbered(queue, n, sn, id)[n - 1]);
      assert queue[..n] == queue[..n - 1] + [queue[n - 1]];
      assert queue[n - 1] == Msdu(dest, src, queue[n - 1].body);
    }
  }

  lemma {:induction false} NumberedLast(queue: seq<Msdu>, n: nat, sn: nat, id: nat)
    requires 0 < n <= |queue|
    ensures Numbered(queue, n, sn, id) == Numbered(queue, n - 1, sn, id) + [Numbered(queue, n, sn, id)[n - 1]]
  {
    hide SEQ_MOD;
  }

  lemma {:induction false} PullWorkConserves(cfg: Config, s: MacState, now: nat, draw: nat)
    ensures Holdings(PullWork(cfg, s, now, draw)) == Holdings(s)
  {
    hide Frames, IdentDue, Numbered, RunLength;
    if s.tx.Idle? && s.cur.None? && !IdentDue(cfg, s, now) && s.queue != [] {
      var first := s.queue[0];
      var n := RunLength(s.queue, BatchLimit(cfg, first.dest), 1);
      NumberedFrames(first.dest, first.src, s.queue, n, s.sn, s.nextId);
      assert s.queue == s.queue[..n] + s.queue[n..];
    }
    if s.tx.Idle? && s.cur.None? && IdentDue(cfg, s, now) {
      IdentConserves(cfg, s, now, draw);
    }
  }

  lemma {:induction false} IdentConserves(cfg: Config, s: MacState, now: nat, draw: nat)
    requires s.tx.Idle? && s.cur.None? && IdentDue(cfg, s, now)
    ensures Holdings(PullWork(cfg, s, now, draw)) == Holdings(s)
  {
  }

  lemma {:induction false} CompletedFrames(b: Batch, mcs: nat, n: nat)
    requires n <= |b.mpdus|
    ensures Finished(CompletedTo(b, mcs, n)) == Frames(b.dest, b.src, b.mpdus[..n])
  {
    hide Frames, Finished;
    if n == 0 {
      NoFrames(b.dest, b.src);
      FinishedNothing(Filtered);
    } else {
      CompletedFrames(b, mcs, n - 1);
      var m := b.mpdus[n - 1];
      FinishedAppend(CompletedTo(b, mcs, n - 1), TxComplete(MsduOf(b, m), false, m.retries, mcs, m.id));
      assert b.mpdus[..n] == b.mpdus[..n - 1] + [m];
      FramesAppend(b.dest, b.src, b.mpdus[..n - 1], m);
    }
  }

  lemma {:induction false} DroppedFrames(b: Batch, n: nat)
    requires n <= |b.mpdus|
    ensures Finished(DroppedTo(b, n)) == if b.ident then multiset{} else Frames(b.dest, b.src, b.mpdus[..n])
  {
    hide Frames, Finished;
    if n == 0 {
      NoFrames(b.dest, b.src);
      FinishedNothing(Filtered);
    } else {
      DroppedFrames(b, n - 1);
      var m := b.mpdus[n - 1];
      FinishedAppend(DroppedTo(b, n - 1), TxDropped(MsduOf(b, m), BuildFailed, b.ident, m.id));
      assert b.mpdus[..n] == b.mpdus[..n - 1] + [m];
      FramesAppend(b.dest, b.src, b.mpdus[..n - 1], m);
    }
  }

  lemma {:induction false} MarkFlownFrames(dest: Addr, src: Addr, q: seq<PendingMpdu>, n: nat)
    ensures Frames(dest, src, MarkFlown(q, n)) == Frames(dest, src, q)
  {
    if |q| > 0 {
      MarkFlownFrames(dest, src, q[..|q| - 1], n);
      assert MarkFlown(q, n)[..|q| - 1] == MarkFlown(q[..|q| - 1], n);
    }
  }

  lemma {:induction false} FlyConserves(cfg: Config, s: MacState, b: Batch, now: nat, inp: PollInput)
    requires s.cur == Some(b) && |b.mpdus| > 0
    ensures var p := Fly(cfg, s, b, now, inp); Conserved(s, Out(p.s, p.events))
  {
    hide Frames, Finished, PlanAttempt, PpduFor, TxTime, ResponseTimeout, CompletedTo, DroppedTo, TotalLen, MarkFlown, ExpectFor;
    var choice := ChoiceFor(cfg, b, inp);
    FinishedNothing(IdentSent(b.mpdus[0].body));
    DroppedFrames(b, |b.mpdus|);
    CompletedFrames(b, choice.mcs, |b.mpdus|);
    assert b.mpdus[..|b.mpdus|] == b.mpdus;
    match PlanAttempt(b, choice.mcs, choice.coding)
    case None =>
    case Some(plan) =>
      PlanCount(b, choice.mcs, choice.coding);
      MarkFlownFrames(b.dest, b.src, b.mpdus, plan.count);
  }

  lemma {:induction false} AccessConserves(cfg: Config, s: MacState, now: nat, inp: PollInput)
    requires Valid(cfg, s)
    ensures var p := Access(cfg, s, now, inp); Conserved(s, Out(p.s, p.events))
  {
    hide Frames, Finished, Fly, TxTime, NeedRts, MediumBusy, Carriable, ResponseTimeout, TotalLen, Measure, MpdusOk;
    FinishedNothing(Filtered);
    if s.cur.Some? {
      FlyConserves(cfg, s, s.cur.value, now, inp);
    }
  }

  lemma {:induction false} PollConserves(cfg: Config, s: MacState, now: nat, inp: PollInput)
    requires Valid(cfg, s)
    ensures var p := Poll(cfg, s, now, inp); Conserved(s, Out(p.s, p.events))
  {
    hide Valid, Resolve, FailRts, PullWork, Access, Frames, Finished;
    FinishedNothing(Filtered);
    if |s.responses| == 0 {
      if s.tx.AwaitResponse? {
        AwaitedNotIdent(cfg, s);
        var t := s.(delay := s.delay.(late := Some((s.tx.awaited, s.delay.sentEndUs))));
        ResolveConserves(cfg, t, AckNone, now, inp.draw);
        FailRtsConserves(cfg, t, now, inp.draw);
        FailAttemptValid(cfg, s, now, inp.draw);
      }
      var o := Timeout(cfg, s, now, inp.draw);
      PullWorkValid(cfg, o.s, now, inp.draw);
      PullWorkConserves(cfg, o.s, now, inp.draw);
      var p := Access(cfg, PullWork(cfg, o.s, now, inp.draw), now, inp);
      AccessConserves(cfg, PullWork(cfg, o.s, now, inp.draw), now, inp);
      FinishedConcat(o.events, p.events);
    }
  }

  // ---- Runs ----

  lemma {:induction false} StepConserves(cfg: Config, s: MacState, i: Input)
    requires Valid(cfg, s)
    ensures var p := Step(cfg, s, i); Holdings(p.s) + Finished(p.events) == Holdings(s) + Accepted(cfg, s, i)
  {
    hide Valid, Enqueue, OnPhyEvent, Poll, Holdings, Finished;
    FinishedNothing(Filtered);
    match i
    case InEnqueue(eth) => EnqueueConserves(cfg, s, eth);
    case InPhy(ev, now, draw) => OnPhyEventConserves(cfg, s, ev, now, draw);
    case InPoll(now, inp) => PollConserves(cfg, s, now, inp);
  }

  lemma {:induction false} InitialConserves(cfg: Config)
    ensures Holdings(InitialState(cfg)) == multiset{} && Finished([]) == multiset{}
  {
  }

  /** Frame conservation: after any run, the frames accepted are, each exactly once, those queued,
      those in the current batch and those reported complete or dropped. */
  lemma {:induction false} RunConserves(cfg: Config, ins: seq<Input>)
    ensures Holdings(Run(cfg, ins).s) + Finished(Run(cfg, ins).events) == AcceptedAll(cfg, ins)
  {
    hide Step, Accepted, Holdings, Finished, Valid;
    if |ins| == 0 {
      InitialConserves(cfg);
    } else {
      var (before, i) := (ins[..|ins| - 1], ins[|ins| - 1]);
      RunConserves(cfg, before);
      RunValid(cfg, before);
      var o := Run(cfg, before);
      var p := Step(cfg, o.s, i);
      StepConserves(cfg, o.s, i);
      FinishedConcat(o.events, p.events);
      Regroup(Holdings(p.s), Finished(o.events), Finished(p.events), Holdings(o.s), Accepted(cfg, o.s, i), AcceptedAll(cfg, before));
    }
  }

  lemma {:induction false} Regroup(h: multiset<Msdu>, a: multiset<Msdu>, b: multiset<Msdu>, was: multiset<Msdu>, more: multiset<Msdu>, all: multiset<Msdu>)
    requires h + b == was + more && was + a == all
    ensures h + (a + b) == all + more
  {
    assert h + (a + b) == (h + b) + a;
  }
}

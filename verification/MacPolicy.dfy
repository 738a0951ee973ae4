/** What the MAC engine takes up, sends first and lets through (crates/s2g-mac/src/engine.rs). */
module MacPolicy {
  import opened Wrappers
  import opened Params
  import opened Ndp
  import opened MacTypes
  import opened MacSpec
  import opened MacInvariant
  import opened MacEvolution

  // ---- First in, first out ----

  /** Frames accepted over a run, in order. */
  function AcceptedSeq(cfg: Config, ins: seq<Input>): seq<Msdu> {
    if |ins| == 0 then []
    else
      var (before, i) := (ins[..|ins| - 1], ins[|ins| - 1]);
      AcceptedSeq(cfg, before)
      + if i.InEnqueue? && Enqueue(cfg, Run(cfg, before).s, i.eth).1.Success? then [ParseEthernet(i.eth).value] else []
  }

  ghost predicate Suffix(q: seq<Msdu>, all: seq<Msdu>) {
    |q| <= |all| && all[|all| - |q|..] == q
  }

  lemma {:induction false} SuffixAppend(q: seq<Msdu>, all: seq<Msdu>, more: seq<Msdu>)
    requires Suffix(q, all)
    ensures Suffix(q + more, all + more)
  {
  }

  lemma {:induction false} SuffixTail(q: seq<Msdu>, all: seq<Msdu>, n: nat)
    requires Suffix(q, all) && n <= |q|
    ensures Suffix(q[n..], all)
  {
  }

  /** Taking up work takes the oldest frames: as many as go to the first one's receiver from its
      sender without a break, up to the limit, which is one without block acknowledgment. */
  lemma {:induction false} TakesOldest(cfg: Config, s: MacState, now: nat, draw: nat)
    requires s.tx.Idle? && s.cur.None? && !IdentDue(cfg, s, now) && s.queue != []
    ensures var t := PullWork(cfg, s, now, draw);
            var limit := if cfg.ackEnabled && cfg.ndpAck && !IsGroup(s.queue[0].dest) && cfg.ampduMaxMpdus > 1 then
                           (if cfg.ampduMaxMpdus > 16 then 16 else cfg.ampduMaxMpdus)
                         else 1;
            && t.cur.Some? && !t.cur.value.ident
            && var (b, n) := (t.cur.value, |t.cur.value.mpdus|);
               && 1 <= n <= limit && n <= |s.queue| && t.queue == s.queue[n..]
               && b.dest == s.queue[0].dest && b.src == s.queue[0].src
               && (forall i | 0 <= i < n :: MsduOf(b, b.mpdus[i]) == s.queue[i] && b.mpdus[i].id == s.nextId + i)
               && (n < limit && n < |s.queue| ==> s.queue[n].dest != b.dest || s.queue[n].src != b.src)
  {
    hide StartBackoff, Numbered, RunLength;
    var first := s.queue[0];
    RunMaximal(s.queue, BatchLimit(cfg, first.dest), 1);
    BackoffKeeps(cfg, s, now, draw);
  }

  lemma {:induction false} RunMaximal(queue: seq<Msdu>, limit: nat, k: nat)
    requires 0 < |queue| && 1 <= k <= limit && k <= |queue|
    ensures var n := RunLength(queue, limit, k);
            n < limit && n < |queue| ==> queue[n].dest != queue[0].dest || queue[n].src != queue[0].src
    decreases limit - k
  {
    if k < limit && k < |queue| && queue[k].dest == queue[0].dest && queue[k].src == queue[0].src {
      RunMaximal(queue, limit, k + 1);
    }
  }

  lemma {:induction false} BackoffKeeps(cfg: Config, s: MacState, now: nat, draw: nat)
    ensures forall t: MacState :: var u := StartBackoff(cfg, t, now, draw); u.cur == t.cur && u.queue == t.queue && u.nextId == t.nextId
  {
    hide Words.Pow2;
  }

  /** The queue after a sweep, an answer or an attempt is the queue before. */
  lemma {:induction false} ResolveQueue(cfg: Config, s: MacState, acks: Acks, now: nat, draw: nat)
    ensures Resolve(cfg, s, acks, now, draw).s.queue == s.queue
  {
    hide SweepTo;
  }

  lemma {:induction false} FrameQueue(cfg: Config, s: MacState, f: Frame, rx: RxInfo, blockAck: bool, now: nat, draw: nat)
    ensures OnFrame(cfg, s, f, rx, blockAck, now, draw).s.queue == s.queue
  {
    hide Resolve, NoteLate, UpdateDelay, Delivery, ToBody, AckId, Remember, CtsFor;
    var t := s.(medium := s.medium.(eifsPending := false));
    ResolveQueue(cfg, t.(delay := NoteResponse(t.delay, now)), AckAll, now, draw);
  }

  lemma {:induction false} FramesQueue(cfg: Config, s: MacState, frames: seq<(Frame, bool)>, rx: RxInfo, blockAck: bool, now: nat, draw: nat)
    ensures OnFrames(cfg, s, frames, rx, blockAck, now, draw).s.queue == s.queue
  {
    hide OnFrame;
    if |frames| > 0 {
      var n := |frames| - 1;
      FramesQueue(cfg, s, frames[..n], rx, blockAck, now, draw);
      FrameQueue(cfg, OnFrames(cfg, s, frames[..n], rx, blockAck, now, draw).s, frames[n].0, rx, blockAck, now, draw);
    }
  }

  lemma {:induction false} EventQueue(cfg: Config, s: MacState, ev: PhyEvent, now: nat, draw: nat)
    ensures OnPhyEvent(cfg, s, ev, now, draw).s.queue == s.queue
  {
    hide OnFrames, AllBlockAcked, WantsBlockAck, BlockAckFor, ToBody, Parse, Resolve, NoteLate, UpdateDelay;
    match ev
    case PsduHeard(rx, frames) => FramesQueue(cfg, s, frames, rx, WantsBlockAck(rx, frames), now, draw);
    case NdpHeard(body) =>
      var rid := NdpRidLength(cfg, Parse(body));
      var t := if rid > 0 then s.(medium := ExtendRid(s.medium, now + rid)) else s;
      forall acks
        ensures Resolve(cfg, t.(delay := NoteResponse(t.delay, now)), acks, now, draw).s.queue == s.queue
      {
        ResolveQueue(cfg, t.(delay := NoteResponse(t.delay, now)), acks, now, draw);
      }
    case _ =>
  }

  lemma {:induction false} FailQueue(cfg: Config, s: MacState, now: nat, draw: nat)
    ensures FailAttempt(cfg, s, now, draw).s.queue == s.queue
  {
    hide SweepTo;
  }

  lemma {:induction false} AccessQueue(cfg: Config, s: MacState, now: nat, inp: PollInput)
    ensures Access(cfg, s, now, inp).s.queue == s.queue
  {
    hide PlanAttempt, TxTime, ResponseTimeout, CompletedTo, DroppedTo, TotalLen, MarkFlown, ExpectFor, WantAck, NeedRts, MediumBusy;
  }

  /** A poll only ever takes frames from the front. */
  lemma {:induction false} PollQueue(cfg: Config, s: MacState, now: nat, inp: PollInput)
    ensures exists n: nat :: n <= |s.queue| && Poll(cfg, s, now, inp).s.queue == s.queue[n..]
  {
    hide FailAttempt, PullWork, Access, IdentDue;
    assert s.queue[0..] == s.queue;
    if |s.responses| == 0 {
      FailQueue(cfg, s, now, inp.draw);
      var o := Timeout(cfg, s, now, inp.draw);
      var t := PullWork(cfg, o.s, now, inp.draw);
      PullQueue(cfg, o.s, now, inp.draw);
      AccessQueue(cfg, t, now, inp);
    }
  }

  lemma {:induction false} PullQueue(cfg: Config, s: MacState, now: nat, draw: nat)
    ensures exists n: nat :: n <= |s.queue| && PullWork(cfg, s, now, draw).queue == s.queue[n..]
  {
    hide StartBackoff, Numbered, RunLength;
    assert s.queue[0..] == s.queue;
    BackoffKeeps(cfg, s, now, draw);
  }

  /** First in, first out: on every run the queue is what was accepted last, in order. */
  lemma {:induction false} QueueIsLatest(cfg: Config, ins: seq<Input>)
    ensures Suffix(Run(cfg, ins).s.queue, AcceptedSeq(cfg, ins))
  {
    hide Poll, OnPhyEvent, Admissible, ParseEthernet;
    if |ins| > 0 {
      var (before, i) := (ins[..|ins| - 1], ins[|ins| - 1]);
      QueueIsLatest(cfg, before);
      var (s, all) := (Run(cfg, before).s, AcceptedSeq(cfg, before));
      assert all + [] == all;
      match i
      case InEnqueue(eth) =>
        if Enqueue(cfg, s, eth).1.Success? {
          SuffixAppend(s.queue, all, [ParseEthernet(eth).value]);
        }
      case InPhy(ev, now, draw) => EventQueue(cfg, s, ev, now, draw);
      case InPoll(now, inp) =>
        PollQueue(cfg, s, now, inp);
        var n: nat :| n <= |s.queue| && Poll(cfg, s, now, inp).s.queue == s.queue[n..];
        SuffixTail(s.queue, all, n);
    }
  }

  // ---- RTS ----

  /** Octets of all MPDUs of a batch. */
  function Octets(b: Batch, n: nat): nat
    requires n <= |b.mpdus|
  {
    if n == 0 then 0 else Octets(b, n - 1) + (if b.qos then 26 else 24) + |b.mpdus[n - 1].body| + 4
  }

  lemma {:induction false} OctetsAre(b: Batch, n: nat)
    requires n <= |b.mpdus|
    ensures Octets(b, n) == TotalLen(b, n)
  {
    if n > 0 {
      OctetsAre(b, n - 1);
    }
  }

  /** A transmission begins with an RTS exactly if it expects an acknowledgment, is longer than the
      threshold and has not been cleared to send yet. */
  lemma {:induction false} RtsIff(cfg: Config, s: MacState, now: nat, inp: PollInput)
    requires s.tx.Backoff? && s.tx.untilUs <= now && s.cur.Some? && !MediumBusy(s.medium, now)
    ensures var (a, b) := (Access(cfg, s, now, inp).action, s.cur.value);
            (a.Some? && a.value.SendRts?)
            <==> cfg.ackEnabled && !IsGroup(b.dest) && !b.ident && !b.ctsOk && cfg.rtsThreshold.Some? && Octets(b, |b.mpdus|) > cfg.rtsThreshold.value
  {
    hide PlanAttempt, TxTime, ResponseTimeout, CompletedTo, DroppedTo, TotalLen, MarkFlown, ExpectFor, ResponseTime;
    OctetsAre(s.cur.value, |s.cur.value.mpdus|);
  }

  /** An attempt awaits an answer exactly if acknowledgments are on and it goes to one station, which
      the low bit of the first octet of its address tells, and it is not an identification. */
  lemma {:induction false} AwaitedIff(cfg: Config, s: MacState, b: Batch, now: nat, inp: PollInput)
    requires s.cur == Some(b) && |b.mpdus| > 0
    ensures var p := Fly(cfg, s, b, now, inp);
            p.action.Some? ==> (p.s.tx.AwaitResponse? <==> cfg.ackEnabled && b.dest[0] % 2 == 0 && !b.ident) && (p.s.tx.AwaitResponse? || p.s.tx.Idle?)
  {
    hide PlanAttempt, TxTime, ResponseTimeout, CompletedTo, DroppedTo, TotalLen, MarkFlown, ExpectFor;
    var c := ChoiceFor(cfg, b, inp);
    if PlanAttempt(b, c.mcs, c.coding).Some? {
      PlanCount(b, c.mcs, c.coding);
    }
  }

  // ---- What the filter lets through ----

  /** What is handed up passes the filter if it is asked. */
  ghost predicate Passed(cfg: Config, events: seq<MacEvent>) {
    forall i | 0 <= i < |events| && events[i].EthReceived? :: !cfg.ingressFilter || cfg.passes(events[i].eth)
  }

  lemma {:induction false} NothingPassed(cfg: Config, events: seq<MacEvent>)
    requires NoHandUp(events)
    ensures Passed(cfg, events)
  {
    forall i | 0 <= i < |events|
      ensures !events[i].EthReceived?
    {
      assert !IsHandUp(events[i]);
    }
  }

  lemma {:induction false} FramePassed(cfg: Config, s: MacState, f: Frame, rx: RxInfo, blockAck: bool, now: nat, draw: nat)
    ensures Passed(cfg, OnFrame(cfg, s, f, rx, blockAck, now, draw).events)
  {
    if f.DataFrame? {
      hide ToEthernet, IsIdent, ToBody, AckId, Remember, Resolve;
    } else {
      hide OnFrame;
      OnFrameFacts(cfg, s, f, rx, blockAck, now, draw);
      NothingPassed(cfg, OnFrame(cfg, s, f, rx, blockAck, now, draw).events);
    }
  }

  lemma {:induction false} FramesPassed(cfg: Config, s: MacState, frames: seq<(Frame, bool)>, rx: RxInfo, blockAck: bool, now: nat, draw: nat)
    ensures Passed(cfg, OnFrames(cfg, s, frames, rx, blockAck, now, draw).events)
  {
    hide OnFrame;
    if |frames| > 0 {
      var n := |frames| - 1;
      FramesPassed(cfg, s, frames[..n], rx, blockAck, now, draw);
      FramePassed(cfg, OnFrames(cfg, s, frames[..n], rx, blockAck, now, draw).s, frames[n].0, rx, blockAck, now, draw);
    }
  }

  lemma {:induction false} EventPassed(cfg: Config, s: MacState, ev: PhyEvent, now: nat, draw: nat)
    ensures Passed(cfg, OnPhyEvent(cfg, s, ev, now, draw).events)
  {
    hide OnFrames, AllBlockAcked, WantsBlockAck, BlockAckFor, ToBody, Parse, OnNdp;
    match ev
    case PsduHeard(rx, frames) => FramesPassed(cfg, s, frames, rx, WantsBlockAck(rx, frames), now, draw);
    case NdpHeard(body) =>
      OnNdpFacts(cfg, s, Parse(body), now, draw);
      NothingPassed(cfg, OnNdp(cfg, s, Parse(body), now, draw).events);
    case _ =>
  }

  /** On every run, what is handed up has passed the filter, and so has what was accepted. */
  lemma {:induction false} RunPassed(cfg: Config, ins: seq<Input>)
    ensures Passed(cfg, Run(cfg, ins).events)
    ensures cfg.egressFilter ==> forall m | m in AcceptedSeq(cfg, ins) :: exists eth :: cfg.passes(eth) && ParseEthernet(eth) == Some(m)
  {
    hide Valid, Poll, OnPhyEvent, Admissible, ParseEthernet, Silent;
    if |ins| > 0 {
      var (before, i) := (ins[..|ins| - 1], ins[|ins| - 1]);
      RunPassed(cfg, before);
      RunValid(cfg, before);
      var s := Run(cfg, before).s;
      match i
      case InEnqueue(eth) =>
      case InPhy(ev, now, draw) => EventPassed(cfg, s, ev, now, draw);
      case InPoll(now, inp) =>
        PollFacts(cfg, s, now, inp);
        SilentPassed(cfg, Poll(cfg, s, now, inp).events);
    }
  }

  lemma {:induction false} SilentPassed(cfg: Config, events: seq<MacEvent>)
    requires Silent(events)
    ensures Passed(cfg, events)
  {
    forall i | 0 <= i < |events|
      ensures !events[i].EthReceived?
    {
      assert Quiet(events[i]);
    }
  }

  // ---- Identification after the last data ----

  /** So much time has passed since then. */
  predicate Elapsed(start: nat, us: nat, now: nat) {
    us == 0 || now >= start + us
  }

  /** An idle station takes up its identification exactly when one is due: before data if none was
      sent within the interval, and once data has been sent and nothing is left to send, after the
      idle time, but not more often than once a minute. */
  lemma {:induction false} IdentTakenIff(cfg: Config, s: MacState, now: nat, draw: nat)
    requires s.tx.Idle? && s.cur.None?
    ensures var (t, last) := (PullWork(cfg, s, now, draw), s.ident.lastUs);
            (t.cur.Some? && t.cur.value.ident)
            <==> cfg.identBody.Some?
                 && if s.queue == [] then
                      s.ident.sentSince && Elapsed(s.ident.lastDataUs, cfg.endIdleUs, now) && (last.None? || Elapsed(last.value, 60_000_000, now))
                    else last.None? || Elapsed(last.value, cfg.identIntervalUs, now)
    ensures var t := PullWork(cfg, s, now, draw);
            t.cur.Some? && t.cur.value.ident ==>
              && t.cur.value.dest == BROADCAST && t.cur.value.src == cfg.addr && t.queue == s.queue
              && |t.cur.value.mpdus| == 1 && Some(t.cur.value.mpdus[0].body) == cfg.identBody
  {
    hide Numbered, RunLength, StartBackoff;
    BackoffKeeps(cfg, s, now, draw);
  }

  /** Data was sent in the run after the last identification. */
  ghost predicate Owes(cfg: Config, ins: seq<Input>) {
    |ins| > 0 &&
    var (before, i) := (ins[..|ins| - 1], ins[|ins| - 1]);
    var (s, p) := (Run(cfg, before).s, Step(cfg, Run(cfg, before).s, i));
    if SentIdent(p.events) then false
    else (i.InPoll? && p.action.Some? && p.action.value.SendData?) || Owes(cfg, before)
  }

  /** A poll that sends data without identifying itself leaves that to be done. */
  lemma {:induction false} PollOwes(cfg: Config, s: MacState, now: nat, inp: PollInput)
    requires Valid(cfg, s)
    ensures var p := Poll(cfg, s, now, inp);
            !SentIdent(p.events) ==>
              if p.action.Some? && p.action.value.SendData? then p.s.ident.sentSince && p.s.ident.lastDataUs == now
              else p.s.ident.sentSince == s.ident.sentSince
  {
    hide Valid, FailAttempt, PullWork, Access, SentIdent, BatchOk, IdentDue;
    if |s.responses| == 0 {
      FailAttemptFacts(cfg, s, now, inp.draw);
      var o := Timeout(cfg, s, now, inp.draw);
      var t := PullWork(cfg, o.s, now, inp.draw);
      if s.tx.AwaitResponse? {
        FailAttemptValid(cfg, s, now, inp.draw);
      }
      PullWorkValid(cfg, o.s, now, inp.draw);
      PullWorkFacts(cfg, o.s, now, inp.draw);
      AccessOwes(cfg, t, now, inp);
      ConcatIdent(o.events, Access(cfg, t, now, inp).events);
    } else {
      NoneSent();
    }
  }

  lemma {:induction false} NoneSent()
    ensures !SentIdent([])
  {
  }

  lemma {:induction false} AccessOwes(cfg: Config, s: MacState, now: nat, inp: PollInput)
    requires Valid(cfg, s)
    ensures var p := Access(cfg, s, now, inp);
            !SentIdent(p.events) ==>
              if p.action.Some? && p.action.value.SendData? then p.s.ident.sentSince && p.s.ident.lastDataUs == now
              else p.s.ident == s.ident
  {
    hide Carriable, MpdusOk, CwOk, Fly, TxTime, ResponseTimeout, TotalLen, ResponseTime, NeedRts, MediumBusy, Measure, Budget, SentIdent;
    if s.cur.Some? {
      FlyOwes(cfg, s, s.cur.value, now, inp);
    }
  }

  lemma {:induction false} FlyOwes(cfg: Config, s: MacState, b: Batch, now: nat, inp: PollInput)
    requires s.cur == Some(b) && |b.mpdus| > 0
    ensures var p := Fly(cfg, s, b, now, inp);
            !SentIdent(p.events) ==>
              if p.action.Some? then p.s.ident.sentSince && p.s.ident.lastDataUs == now else p.s.ident == s.ident
    ensures var p := Fly(cfg, s, b, now, inp); p.action.Some? ==> p.action.value.SendData?
  {
    hide PlanAttempt, TxTime, ResponseTimeout, CompletedTo, DroppedTo, TotalLen, MarkFlown, ExpectFor, WantAck;
    var c := ChoiceFor(cfg, b, inp);
    if PlanAttempt(b, c.mcs, c.coding).Some? {
      PlanCount(b, c.mcs, c.coding);
    }
    if b.ident {
      var o := Finish(s, b, c.mcs, now);
      assert o.events[0].IdentSent?;
    }
  }

  /** An identification that goes out is reported with its text, and nothing is owed then. */
  lemma {:induction false} IdentRecorded(cfg: Config, s: MacState, b: Batch, now: nat, inp: PollInput)
    requires s.cur == Some(b) && |b.mpdus| > 0 && b.ident
    ensures var p := Fly(cfg, s, b, now, inp);
            p.action.Some? ==> p.events == [IdentSent(b.mpdus[0].body)] && p.s.ident.lastUs == Some(now) && !p.s.ident.sentSince && p.s.tx.Idle?
  {
    hide PlanAttempt, TxTime, ResponseTimeout, CompletedTo, DroppedTo, TotalLen, MarkFlown, ExpectFor;
    if PlanAttempt(b, 0, BccCoding).Some? {
      PlanCount(b, 0, BccCoding);
    }
  }

  /** On every run, once data has been sent and until the station identifies itself again, it keeps
      in mind that it must. */
  lemma {:induction false} RunOwes(cfg: Config, ins: seq<Input>)
    ensures Owes(cfg, ins) ==> Run(cfg, ins).s.ident.sentSince
  {
    hide Valid, Enqueue, OnPhyEvent, Poll, SentIdent;
    if |ins| > 0 {
      var (before, i) := (ins[..|ins| - 1], ins[|ins| - 1]);
      RunOwes(cfg, before);
      RunValid(cfg, before);
      var s := Run(cfg, before).s;
      match i
      case InEnqueue(eth) => EnqueueFacts(cfg, s, eth);
      case InPhy(ev, now, draw) => EventFacts(cfg, s, ev, now, draw);
      case InPoll(now, inp) => PollOwes(cfg, s, now, inp);
    }
  }
}

/** Two stations joined by a lossy channel that keeps order in each direction. */
module Link {
  import opened Wrappers
  import opened MacTypes
  import opened MacSpec
  import opened MacInvariant
  import opened MacAcks
  import opened MacEvolution
  import opened MacReception
  import opened LinkOrder

  // ---- The link ----

  /** Stations `a` and `b`, what is in flight, and all they have reported. */
  datatype Link = Link(a: MacState, b: MacState, ab: seq<Action>, ba: seq<Action>, eventsA: seq<MacEvent>, eventsB: seq<MacEvent>)
  {
    /** The other station's view. */
    function Swap(): Link {
      Link(b, a, ba, ab, eventsB, eventsA)
    }
  }

  /** One station queues a frame, polls or hears noise; hears what arrives; or what is in flight
      towards it is lost. */
  datatype Move = Local(i: Input) | Hear(fates: seq<Fate>, now: nat, draw: nat) | Lose

  predicate Possible(l: Link, m: Move) {
    match m
    case Local(i) => i.InPhy? ==> Noise(i.ev)
    case Hear(fates, _, _) => |l.ba| > 0 && |fates| == |DataOf(l.ba[0])|
    case Lose => |l.ba| > 0
  }

  function Sent(a: Option<Action>): seq<Action> {
    if a.Some? then [a.value] else []
  }

  /** Station `a` moves; an impossible move changes nothing. */
  function MoveA(cfg: Config, l: Link, m: Move): Link {
    if !Possible(l, m) then l
    else match m
      case Local(i) =>
        var p := Step(cfg, l.a, i);
        l.(a := p.s, ab := l.ab + Sent(p.action), eventsA := l.eventsA + p.events)
      case Hear(fates, now, draw) =>
        var o := OnPhyEvent(cfg, l.a, EventOf(l.ba[0], fates), now, draw);
        l.(a := o.s, ba := l.ba[1..], eventsA := l.eventsA + o.events)
      case Lose => l.(ba := l.ba[1..])
  }

  function Next(cfgA: Config, cfgB: Config, l: Link, m: (bool, Move)): Link {
    if m.0 then MoveA(cfgA, l, m.1) else MoveA(cfgB, l.Swap(), m.1).Swap()
  }

  function Start(cfgA: Config, cfgB: Config): Link {
    Link(InitialState(cfgA), InitialState(cfgB), [], [], [], [])
  }

  /** The link after a run; each move is tagged with whether station `a` makes it. */
  function RunLink(cfgA: Config, cfgB: Config, moves: seq<(bool, Move)>): Link {
    if |moves| == 0 then Start(cfgA, cfgB)
    else Next(cfgA, cfgB, RunLink(cfgA, cfgB, moves[..|moves| - 1]), moves[|moves| - 1])
  }

  /** Direction from `a` to `b`. */
  ghost predicate Forward(cfgA: Config, cfgB: Config, l: Link) {
    Dir(cfgA, cfgB, l.a, l.ab, l.b, l.eventsB) && Valid(cfgB, l.b)
  }

  // ---- Each move keeps both directions ----

  lemma {:induction false} FlownEvolves(cfg: Config, s: MacState, t: MacState, p: Ppdu)
    requires Flown(cfg, s, t, p)
    ensures Evolves(s, t)
  {
    hide LeftOf, CarriedBy, ExpectFor;
  }

  lemma {:induction false} SenderPolls(cfgA: Config, cfgB: Config, l: Link, now: nat, inp: PollInput)
    requires Forward(cfgA, cfgB, l)
    ensures Forward(cfgA, cfgB, MoveA(cfgA, l, Local(InPoll(now, inp))))
  {
    hide Poll, Prepared, Valid, Evolves, Dir, Flown;
    var p := Poll(cfgA, l.a, now, inp);
    DirValid(cfgA, cfgB, l.a, l.ab, l.b, l.eventsB);
    PollFacts(cfgA, l.a, now, inp);
    PollValid(cfgA, l.a, now, inp);
    if p.action.None? {
      assert l.ab + [] == l.ab;
      SenderEvolves(cfgA, cfgB, l.a, p.s, l.ab, l.b, l.eventsB);
    } else if p.action.value.SendData? {
      var t := Prepared(cfgA, l.a, now, inp);
      SenderEvolves(cfgA, cfgB, l.a, t, l.ab, l.b, l.eventsB);
      FlownEvolves(cfgA, t, p.s, p.action.value.ppdu);
      SenderFlies(cfgA, cfgB, t, p.s, p.action.value.ppdu, l.ab, l.b, l.eventsB);
    } else {
      SenderEvolves(cfgA, cfgB, l.a, p.s, l.ab, l.b, l.eventsB);
      SenderSends(cfgA, cfgB, p.s, p.action.value, l.ab, l.b, l.eventsB);
    }
  }

  lemma {:induction false} DirValid(cfgS: Config, cfgR: Config, s: MacState, ch: seq<Action>, r: MacState, events: seq<MacEvent>)
    requires Dir(cfgS, cfgR, s, ch, r, events)
    ensures Valid(cfgS, s)
  {
  }

  /** The station that moves is the sender. */
  lemma {:induction false} SenderMoves(cfgA: Config, cfgB: Config, l: Link, m: Move)
    requires Forward(cfgA, cfgB, l)
    ensures Forward(cfgA, cfgB, MoveA(cfgA, l, m))
  {
    hide Poll, Valid, Evolves, Dir, Flown, OnPhyEvent, Enqueue, EventOf, Noise;
    DirValid(cfgA, cfgB, l.a, l.ab, l.b, l.eventsB);
    if Possible(l, m) {
      match m
      case Local(i) =>
        match i {
          case InEnqueue(eth) =>
            assert l.ab + [] == l.ab;
            EnqueueFacts(cfgA, l.a, eth);
            EnqueueValid(cfgA, l.a, eth);
            SenderEvolves(cfgA, cfgB, l.a, Enqueue(cfgA, l.a, eth).0, l.ab, l.b, l.eventsB);
          case InPhy(ev, now, draw) =>
            assert l.ab + [] == l.ab;
            EventFacts(cfgA, l.a, ev, now, draw);
            OnPhyEventValid(cfgA, l.a, ev, now, draw);
            SenderEvolves(cfgA, cfgB, l.a, OnPhyEvent(cfgA, l.a, ev, now, draw).s, l.ab, l.b, l.eventsB);
          case InPoll(now, inp) => SenderPolls(cfgA, cfgB, l, now, inp);
        }
      case Hear(fates, now, draw) =>
        EventFacts(cfgA, l.a, EventOf(l.ba[0], fates), now, draw);
        OnPhyEventValid(cfgA, l.a, EventOf(l.ba[0], fates), now, draw);
        SenderEvolves(cfgA, cfgB, l.a, OnPhyEvent(cfgA, l.a, EventOf(l.ba[0], fates), now, draw).s, l.ab, l.b, l.eventsB);
      case Lose =>
    }
  }

  lemma {:induction false} SilentNoHandUp(events: seq<MacEvent>)
    requires Silent(events)
    ensures NoHandUp(events)
  {
    forall i | 0 <= i < |events|
      ensures !IsHandUp(events[i])
    {
      assert Quiet(events[i]);
    }
  }

  lemma {:induction false} LocalUnmoved(cfg: Config, s: MacState, i: Input)
    requires Valid(cfg, s) && (i.InPhy? ==> Noise(i.ev))
    ensures var p := Step(cfg, s, i); Unmoved(s, Out(p.s, p.events))
  {
    hide Poll, Valid, Evolves, Flown, OnPhyEvent, Enqueue, Silent;
    match i
    case InEnqueue(eth) => EnqueueFacts(cfg, s, eth);
    case InPhy(ev, now, draw) => EventFacts(cfg, s, ev, now, draw);
    case InPoll(now, inp) =>
      PollFacts(cfg, s, now, inp);
      SilentNoHandUp(Poll(cfg, s, now, inp).events);
  }

  /** The station that moves is the receiver. */
  lemma {:induction false} ReceiverMoves(cfgA: Config, cfgB: Config, l: Link, m: Move)
    requires Forward(cfgB, cfgA, l.Swap())
    ensures Forward(cfgB, cfgA, MoveA(cfgA, l, m).Swap())
  {
    hide Valid, Dir, OnPhyEvent, EventOf, Noise, Step, Unmoved;
    if Possible(l, m) {
      match m
      case Local(i) =>
        LocalUnmoved(cfgA, l.a, i);
        StepValid(cfgA, l.a, i);
        var p := Step(cfgA, l.a, i);
        ReceiverUnmoved(cfgB, cfgA, l.b, l.ba, l.a, l.eventsA, Out(p.s, p.events));
      case Hear(fates, now, draw) =>
        OnPhyEventValid(cfgA, l.a, EventOf(l.ba[0], fates), now, draw);
        ReceiverHears(cfgB, cfgA, l.b, l.ba, l.a, l.eventsA, fates, now, draw);
      case Lose => HeadGone(cfgB, cfgA, l.b, l.ba, l.a, l.eventsA);
    }
  }

  lemma {:induction false} StartForward(cfgA: Config, cfgB: Config)
    ensures Forward(cfgA, cfgB, Start(cfgA, cfgB))
  {
    hide Carriable;
    InitialValid(cfgA);
    InitialValid(cfgB);
  }

  lemma {:induction false} RunForward(cfgA: Config, cfgB: Config, moves: seq<(bool, Move)>)
    ensures Forward(cfgA, cfgB, RunLink(cfgA, cfgB, moves)) && Forward(cfgB, cfgA, RunLink(cfgA, cfgB, moves).Swap())
  {
    hide Forward, MoveA;
    if |moves| == 0 {
      StartForward(cfgA, cfgB);
      StartForward(cfgB, cfgA);
    } else {
      var (l, m) := (RunLink(cfgA, cfgB, moves[..|moves| - 1]), moves[|moves| - 1]);
      RunForward(cfgA, cfgB, moves[..|moves| - 1]);
      if m.0 {
        SenderMoves(cfgA, cfgB, l, m.1);
        ReceiverMoves(cfgA, cfgB, l, m.1);
      } else {
        SenderMoves(cfgB, cfgA, l.Swap(), m.1);
        ReceiverMoves(cfgB, cfgA, l.Swap(), m.1);
        assert l.Swap().Swap() == l;
      }
    }
  }

  /** At most once: on every run of the link, whatever is lost, damaged, retried or wraps around,
      no frame is handed up twice at either end. */
  lemma {:induction false} HandedUpAtMostOnce(cfgA: Config, cfgB: Config, moves: seq<(bool, Move)>, src: Addr, id: nat)
    ensures HandUps(RunLink(cfgA, cfgB, moves).eventsB, OfFrame(src, id)) <= 1
    ensures HandUps(RunLink(cfgA, cfgB, moves).eventsA, OfFrame(src, id)) <= 1
  {
    hide RunLink, Valid, HandUps, LoggedUps, LogGood, DedupOk;
    RunForward(cfgA, cfgB, moves);
    var l := RunLink(cfgA, cfgB, moves);
    LoggedOnce(cfgB, l.b.log, src, id);
    LoggedOnce(cfgA, l.a.log, src, id);
    assert HandUps(l.eventsB, OfFrame(src, id)) == LoggedUps(cfgB, l.b.log, OfFrame(src, id));
    assert HandUps(l.eventsA, OfFrame(src, id)) == LoggedUps(cfgA, l.a.log, OfFrame(src, id));
  }

  /** What becomes of the next data MPDU on every run: it is dropped exactly if it is logged already
      or wraps around onto one of the last 64 of its station. */
  lemma {:induction false} NextDroppedIff(cfgA: Config, cfgB: Config, moves: seq<(bool, Move)>, i: nat)
    requires var l := RunLink(cfgA, cfgB, moves); |l.ab| > 0 && i < |DataOf(l.ab[0])|
    ensures var (l, m) := (RunLink(cfgA, cfgB, moves), DataOf(RunLink(cfgA, cfgB, moves).ab[0])[i]);
            HandUp(cfgB, l.b, m).s.log == l.b.log <==> Got(l.b.log, m) || Wraps(l.b.log, m)
  {
    hide RunLink, Valid, HandUp, DedupOk, LogGood, Window, Wraps, Got, UpsAgree, AllSettled, ChannelSettled, Reaches;
    RunForward(cfgA, cfgB, moves);
    var l := RunLink(cfgA, cfgB, moves);
    assert Burst(DataOf(l.ab[0])) && AllReach(l.b.log, DataOf(l.ab[0]));
    DroppedIff(cfgB, l.b, DataOf(l.ab[0])[i]);
  }

  /** And of a whole PPDU, whatever of it survives: every MPDU that arrives for the receiver is in
      its log afterwards, or wraps around. */
  lemma {:induction false} HeardKept(cfgA: Config, cfgB: Config, moves: seq<(bool, Move)>, fates: seq<Fate>, now: nat, draw: nat, i: nat)
    requires var l := RunLink(cfgA, cfgB, moves); |l.ab| > 0 && |fates| == |DataOf(l.ab[0])| && i < |fates|
    requires fates[i].Good? && ForUs(cfgB, DataOf(RunLink(cfgA, cfgB, moves).ab[0])[i])
    ensures var (l, m) := (RunLink(cfgA, cfgB, moves), DataOf(RunLink(cfgA, cfgB, moves).ab[0])[i]);
            Got(Next(cfgA, cfgB, l, (false, Hear(fates, now, draw))).b.log, m) || Wraps(l.b.log, m)
  {
    hide RunLink, Valid, OnPhyEvent, DedupOk, LogGood, Window, Wraps, Got, Burst, AllReach, UpsAgree, AllSettled, ChannelSettled, Counted, LogFrom, LogKept,
         WrapsFrom, Arrival;
    RunForward(cfgA, cfgB, moves);
    var l := RunLink(cfgA, cfgB, moves);
    assert Burst(DataOf(l.ab[0])) && AllReach(l.b.log, DataOf(l.ab[0]));
    DataArrives(cfgB, l.b, l.ab[0].ppdu, fates, now, draw);
  }
}

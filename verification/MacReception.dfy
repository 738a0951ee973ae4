/** Duplicate detection over whole reception histories (`note_duplicate` and `on_data` of
    crates/s2g-mac/src/engine.rs). */
module MacReception {
  import opened Ndp
  import opened MacTypes
  import opened MacSpec
  import opened MacAcks
  import opened MacEvolution

  // ---- Remembered sequence numbers ----

  /** MPDUs of one station, in order. */
  function FromSrc(log: seq<Mpdu>, src: Addr): seq<Mpdu> {
    if |log| == 0 then []
    else FromSrc(log[..|log| - 1], src) + if log[|log| - 1].msdu.src == src then [log[|log| - 1]] else []
  }

  /** What is remembered of each station is the last 64 of its logged sequence numbers. */
  ghost predicate DedupOk(s: MacState) {
    forall src: Addr :: SeenFrom(s.dedup, src) == Last64(Sns(FromSrc(s.log, src)))
  }

  lemma {:induction false} FromSrcAppend(log: seq<Mpdu>, m: Mpdu, src: Addr)
    ensures FromSrc(log + [m], src) == FromSrc(log, src) + if m.msdu.src == src then [m] else []
  {
    assert (log + [m])[..|log|] == log;
  }

  lemma {:induction false} Last64Append(q: seq<nat>, x: nat)
    ensures Last64(Last64(q) + [x]) == Last64(q + [x])
  {
  }

  lemma {:induction false} HandUpDedup(cfg: Config, s: MacState, m: Mpdu)
    requires DedupOk(s)
    ensures DedupOk(HandUp(cfg, s, m).s)
  {
    hide Last64, Delivery, FromSrc;
    var t := HandUp(cfg, s, m).s;
    if m.sn !in SeenFrom(s.dedup, m.msdu.src) {
      forall src: Addr
        ensures SeenFrom(t.dedup, src) == Last64(Sns(FromSrc(t.log, src)))
      {
        FromSrcAppend(s.log, m, src);
        if src == m.msdu.src {
          SnsAppend(FromSrc(s.log, src), m);
          Last64Append(Sns(FromSrc(s.log, src)), m.sn);
        } else {
          assert FromSrc(t.log, src) == FromSrc(s.log, src);
        }
      }
    }
  }

  // ---- Order of batches ----

  /** Numbered within its batch of at most sixteen, and sent modulo 4096. */
  ghost predicate Window(m: Mpdu) {
    m.base <= m.id < m.base + AMPDU_MAX_MPDUS && m.sn == m.id % SEQ_MOD
  }

  /** `y` is of the same batch as `x` or of a later one. */
  ghost predicate Before(x: Mpdu, y: Mpdu) {
    x.base <= y.base && (x.base < y.base ==> x.id < y.base)
  }

  ghost predicate Reaches(log: seq<Mpdu>, m: Mpdu) {
    forall i | 0 <= i < |log| :: Before(log[i], m)
  }

  ghost predicate SameFrame(x: Mpdu, y: Mpdu) {
    x.id == y.id && x.msdu.src == y.msdu.src
  }

  /** Logged in order of batches, no frame twice. */
  ghost predicate LogGood(log: seq<Mpdu>) {
    && (forall i | 0 <= i < |log| :: Window(log[i]))
    && (forall i, j | 0 <= i < j < |log| :: Before(log[i], log[j]) && !SameFrame(log[i], log[j]))
  }

  /** Pairwise different numbers from a range are no more than the range has. */
  lemma {:induction false} Pigeonhole(q: seq<nat>, low: nat, n: nat)
    requires forall i | 0 <= i < |q| :: low <= q[i] < low + n
    requires forall i, j | 0 <= i < j < |q| :: q[i] != q[j]
    ensures |q| <= n
  {
    if |q| > 0 {
      assert low <= q[0] < low + n;
      var top := low + n - 1;
      if top in q {
        var k :| 0 <= k < |q| && q[k] == top;
        var rest := q[..k] + q[k + 1..];
        forall i | 0 <= i < |rest|
          ensures low <= rest[i] < low + n - 1
        {
          var j := if i < k then i else i + 1;
          assert rest[i] == q[j] && q[j] != q[k];
        }
        forall i, j | 0 <= i < j < |rest|
          ensures rest[i] != rest[j]
        {
          assert rest[i] == q[if i < k then i else i + 1] && rest[j] == q[if j < k then j else j + 1];
        }
        Pigeonhole(rest, low, n - 1);
      } else {
        assert forall i | 0 <= i < |q| :: q[i] != top;
        Pigeonhole(q, low, n - 1);
      }
    }
  }

  lemma {:induction false} FromSrcIs(log: seq<Mpdu>, src: Addr)
    ensures forall i | 0 <= i < |FromSrc(log, src)| :: FromSrc(log, src)[i] in log && FromSrc(log, src)[i].msdu.src == src
  {
    if |log| > 0 {
      FromSrcIs(log[..|log| - 1], src);
    }
  }

  lemma {:induction false} FromSrcHas(log: seq<Mpdu>, src: Addr, k: nat)
    requires k < |log| && log[k].msdu.src == src
    ensures log[k] in FromSrc(log, src)
  {
    if k < |log| - 1 {
      FromSrcHas(log[..|log| - 1], src, k);
    }
  }

  lemma {:induction false} PrefixGood(log: seq<Mpdu>)
    requires LogGood(log) && |log| > 0
    ensures LogGood(log[..|log| - 1])
  {
  }

  /** The frames of one station inherit the order. */
  lemma {:induction false} FromSrcGood(log: seq<Mpdu>, src: Addr)
    requires LogGood(log)
    ensures LogGood(FromSrc(log, src))
  {
    hide Window, Before, SameFrame;
    if |log| > 0 {
      var (before, last) := (log[..|log| - 1], log[|log| - 1]);
      PrefixGood(log);
      FromSrcGood(before, src);
      FromSrcIs(before, src);
      var f := FromSrc(before, src);
      forall i | 0 <= i < |f|
        ensures Before(f[i], last) && !SameFrame(f[i], last)
      {
        var k :| 0 <= k < |before| && before[k] == f[i];
        assert log[k] == f[i];
      }
      GoodAppend(f, last);
    }
  }

  lemma {:induction false} GoodAppend(log: seq<Mpdu>, m: Mpdu)
    requires LogGood(log) && Window(m) && forall i | 0 <= i < |log| :: Before(log[i], m) && !SameFrame(log[i], m)
    ensures LogGood(log + [m])
  {
    hide Window, Before, SameFrame;
  }

  /** A frame logged earlier is among the last sixteen of its station, so it is still remembered. */
  lemma {:induction false} RecentRemembered(f: seq<Mpdu>, src: Addr, k: nat, m: Mpdu)
    requires LogGood(f) && Reaches(f, m) && Window(m) && k < |f| && f[k].id == m.id
    requires forall i | 0 <= i < |f| :: f[i].msdu.src == src
    ensures m.sn in Last64(Sns(f))
  {
    var tail := seq(|f| - k, i requires 0 <= i < |f| - k => f[k + i].id);
    forall i | 0 <= i < |tail|
      ensures m.base <= tail[i] < m.base + AMPDU_MAX_MPDUS
    {
      assert Before(f[k], m) && Before(f[k + i], m) && Window(f[k]) && Window(f[k + i]);
      assert i > 0 ==> Before(f[k], f[k + i]);
    }
    forall i, j | 0 <= i < j < |tail|
      ensures tail[i] != tail[j]
    {
      assert !SameFrame(f[k + i], f[k + j]);
    }
    Pigeonhole(tail, m.base, AMPDU_MAX_MPDUS);
    var sns := Sns(f);
    assert Window(f[k]);
    assert sns[k] == m.sn;
    if |sns| > DEDUP_LEN {
      assert Last64(sns)[k - (|sns| - DEDUP_LEN)] == sns[k];
    }
  }

  /** Duplicate detection is complete: a frame already logged is recognised. */
  lemma {:induction false} DuplicateFound(s: MacState, m: Mpdu, k: nat)
    requires DedupOk(s) && LogGood(s.log) && Reaches(s.log, m) && Window(m) && k < |s.log| && SameFrame(s.log[k], m)
    ensures m.sn in SeenFrom(s.dedup, m.msdu.src)
  {
    hide LogGood, Window, Before, Last64, FromSrc;
    var f := FromSrc(s.log, m.msdu.src);
    FromSrcGood(s.log, m.msdu.src);
    FromSrcIs(s.log, m.msdu.src);
    FromSrcHas(s.log, m.msdu.src, k);
    var l :| 0 <= l < |f| && f[l] == s.log[k];
    forall i | 0 <= i < |f|
      ensures Before(f[i], m)
    {
      var j :| 0 <= j < |s.log| && s.log[j] == f[i];
    }
    RecentRemembered(f, m.msdu.src, l, m);
  }

  // ---- When a frame is dropped ----

  /** What of a station's log its memory covers. */
  function Recent(log: seq<Mpdu>, src: Addr): seq<Mpdu> {
    var f := FromSrc(log, src);
    if |f| > DEDUP_LEN then f[|f| - DEDUP_LEN..] else f
  }

  /** This frame is logged. */
  ghost predicate Got(log: seq<Mpdu>, m: Mpdu) {
    exists i :: 0 <= i < |log| && SameFrame(log[i], m)
  }

  /** One of the last 64 logged frames of the station is a positive multiple of 4096 older. */
  ghost predicate Wraps(log: seq<Mpdu>, m: Mpdu) {
    exists i :: 0 <= i < |Recent(log, m.msdu.src)| && Recent(log, m.msdu.src)[i].id < m.id
                && (m.id - Recent(log, m.msdu.src)[i].id) % SEQ_MOD == 0
  }

  lemma {:induction false} RecentIs(log: seq<Mpdu>, src: Addr)
    ensures Sns(Recent(log, src)) == Last64(Sns(FromSrc(log, src)))
    ensures forall i | 0 <= i < |Recent(log, src)| :: Recent(log, src)[i] in log && Recent(log, src)[i].msdu.src == src
  {
    FromSrcIs(log, src);
  }

  /** A frame is dropped if and only if one of the last 64 logged of its station agrees with it in the
      low twelve bits of the sequence. */
  lemma {:induction false} HandUpIff(cfg: Config, s: MacState, m: Mpdu)
    requires DedupOk(s) && LogGood(s.log) && Window(m)
    ensures HandUp(cfg, s, m).s.log == s.log
            <==> exists i :: 0 <= i < |Recent(s.log, m.msdu.src)| && Recent(s.log, m.msdu.src)[i].id % SEQ_MOD == m.id % SEQ_MOD
  {
    hide Last64, Recent, FromSrc, Before, Delivery;
    var r := Recent(s.log, m.msdu.src);
    RecentIs(s.log, m.msdu.src);
    assert SeenFrom(s.dedup, m.msdu.src) == Sns(r);
    forall i | 0 <= i < |r|
      ensures Sns(r)[i] == r[i].id % SEQ_MOD
    {
      var k :| 0 <= k < |s.log| && s.log[k] == r[i];
      assert Window(s.log[k]);
    }
    if m.sn in Sns(r) {
      var i :| 0 <= i < |Sns(r)| && Sns(r)[i] == m.sn;
    }
  }

  lemma {:induction false} SameLowBits(x: Mpdu, m: Mpdu)
    requires Window(x) && Window(m) && Before(x, m) && x.msdu.src == m.msdu.src && x.id % SEQ_MOD == m.id % SEQ_MOD
    ensures SameFrame(x, m) || (x.id < m.id && (m.id - x.id) % SEQ_MOD == 0)
  {
  }

  /** That is: either it is logged already, or it is new and the counter has wrapped around onto a
      frame still remembered. */
  lemma {:induction false} DroppedIff(cfg: Config, s: MacState, m: Mpdu)
    requires DedupOk(s) && LogGood(s.log) && Window(m) && Reaches(s.log, m)
    ensures HandUp(cfg, s, m).s.log == s.log <==> Got(s.log, m) || Wraps(s.log, m)
  {
    hide HandUp, Recent, DedupOk, SameFrame, Before, Window;
    HandUpIff(cfg, s, m);
    RecentIs(s.log, m.msdu.src);
    var r := Recent(s.log, m.msdu.src);
    if i :| 0 <= i < |r| && r[i].id % SEQ_MOD == m.id % SEQ_MOD {
      var k :| 0 <= k < |s.log| && s.log[k] == r[i];
      SameLowBits(r[i], m);
    }
    if Got(s.log, m) {
      var k :| 0 <= k < |s.log| && SameFrame(s.log[k], m);
      DuplicateFound(s, m, k);
      SeenDropped(cfg, s, m);
    }
  }

  lemma {:induction false} SeenDropped(cfg: Config, s: MacState, m: Mpdu)
    requires m.sn in SeenFrom(s.dedup, m.msdu.src)
    ensures HandUp(cfg, s, m).s.log == s.log
  {
  }

  /** Logging one frame of a batch brings no wrap for another. */
  lemma {:induction false} WrapsAppend(log: seq<Mpdu>, m: Mpdu, y: Mpdu)
    requires Window(m) && Window(y) && m.base == y.base && Wraps(log + [m], y)
    ensures Wraps(log, y)
  {
    hide FromSrc;
    var src := y.msdu.src;
    FromSrcAppend(log, m, src);
    var (r, q) := (Recent(log, src), Recent(log + [m], src));
    var i :| 0 <= i < |q| && q[i].id < y.id && (y.id - q[i].id) % SEQ_MOD == 0;
    assert q[i] != m;
    assert q[i] in r;
    var k :| 0 <= k < |r| && r[k] == q[i];
  }

  /** Handing up keeps the log good. */
  lemma {:induction false} HandUpGood(cfg: Config, s: MacState, m: Mpdu)
    requires DedupOk(s) && LogGood(s.log) && Reaches(s.log, m) && Window(m)
    ensures var t := HandUp(cfg, s, m).s;
            && DedupOk(t) && LogGood(t.log) && (t.log == s.log || t.log == s.log + [m])
            && (t.log == s.log ==> m.sn in SeenFrom(s.dedup, m.msdu.src))
  {
    hide LogGood, Window, Before, SameFrame, DedupOk, Delivery;
    HandUpDedup(cfg, s, m);
    if m.sn !in SeenFrom(s.dedup, m.msdu.src) {
      forall i | 0 <= i < |s.log|
        ensures !SameFrame(s.log[i], m)
      {
        if SameFrame(s.log[i], m) {
          DuplicateFound(s, m, i);
        }
      }
      GoodAppend(s.log, m);
    }
  }

  // ---- Hand-ups ----

  /** What hand-ups to look for: of a frame, or one with this very content. */
  datatype Key = OfFrame(src: Addr, id: nat) | Exactly(event: MacEvent)

  predicate IsHandUpOf(e: MacEvent, key: Key) {
    e.EthReceived?
    && match key
       case OfFrame(src, id) => e.src == src && e.id == id
       case Exactly(event) => e == event
  }

  /** How often a frame is reported to the local network. */
  function HandUps(events: seq<MacEvent>, key: Key): nat {
    if |events| == 0 then 0
    else HandUps(events[..|events| - 1], key) + if IsHandUpOf(events[|events| - 1], key) then 1 else 0
  }

  predicate Deliverable(cfg: Config, m: Mpdu, key: Key) {
    |Delivery(cfg, m)| == 1 && IsHandUpOf(Delivery(cfg, m)[0], key)
  }

  /** How often the log says it was. */
  function LoggedUps(cfg: Config, log: seq<Mpdu>, key: Key): nat {
    if |log| == 0 then 0
    else LoggedUps(cfg, log[..|log| - 1], key) + if Deliverable(cfg, log[|log| - 1], key) then 1 else 0
  }

  lemma {:induction false} HandUpsConcat(a: seq<MacEvent>, b: seq<MacEvent>, key: Key)
    ensures HandUps(a + b, key) == HandUps(a, key) + HandUps(b, key)
  {
    if |b| == 0 {
      assert a + b == a;
    } else {
      HandUpsConcat(a, b[..|b| - 1], key);
      assert (a + b)[..|a + b| - 1] == a + b[..|b| - 1];
    }
  }

  lemma {:induction false} NoHandUps(events: seq<MacEvent>, key: Key)
    requires NoHandUp(events)
    ensures HandUps(events, key) == 0
  {
    if |events| > 0 {
      NoHandUps(events[..|events| - 1], key);
      assert !IsHandUp(events[|events| - 1]);
    }
  }

  lemma {:induction false} DeliveryUps(cfg: Config, m: Mpdu, key: Key)
    ensures HandUps(Delivery(cfg, m), key) == if Deliverable(cfg, m, key) then 1 else 0
  {
    hide IsIdent, ToEthernet;
    var d := Delivery(cfg, m);
    if |d| == 1 {
      assert d[..0] == [];
    }
  }

  lemma {:induction false} LoggedUpsAppend(cfg: Config, log: seq<Mpdu>, m: Mpdu, key: Key)
    ensures LoggedUps(cfg, log + [m], key) == LoggedUps(cfg, log, key) + if Deliverable(cfg, m, key) then 1 else 0
  {
    hide Deliverable;
    assert (log + [m])[..|log|] == log;
  }

  /** Hand-ups are exactly what the log gains. */
  ghost predicate Counted(cfg: Config, s: MacState, o: Out) {
    forall key: Key :: LoggedUps(cfg, o.s.log, key) == LoggedUps(cfg, s.log, key) + HandUps(o.events, key)
  }

  lemma {:induction false} HandUpCounted(cfg: Config, s: MacState, m: Mpdu)
    ensures Counted(cfg, s, HandUp(cfg, s, m))
  {
    hide LoggedUps, Deliverable, Delivery, HandUps;
    var o := HandUp(cfg, s, m);
    forall key: Key
      ensures LoggedUps(cfg, o.s.log, key) == LoggedUps(cfg, s.log, key) + HandUps(o.events, key)
    {
      DeliveryUps(cfg, m, key);
      LoggedUpsAppend(cfg, s.log, m, key);
      NoHandUps([], key);
    }
  }

  /** In a good log every frame is handed up at most once. */
  lemma {:induction false} LoggedOnce(cfg: Config, log: seq<Mpdu>, src: Addr, id: nat)
    requires LogGood(log)
    ensures LoggedUps(cfg, log, OfFrame(src, id)) <= 1
    ensures LoggedUps(cfg, log, OfFrame(src, id)) == 1 ==> exists i :: 0 <= i < |log| && log[i].msdu.src == src && log[i].id == id
  {
    hide Delivery, Window, Before;
    if |log| > 0 {
      var (before, last) := (log[..|log| - 1], log[|log| - 1]);
      PrefixGood(log);
      LoggedOnce(cfg, before, src, id);
      if Deliverable(cfg, last, OfFrame(src, id)) {
        DeliverableIs(cfg, last, src, id);
      }
      if LoggedUps(cfg, before, OfFrame(src, id)) == 1 {
        var i :| 0 <= i < |before| && before[i].msdu.src == src && before[i].id == id;
        assert log[i].msdu.src == src && !SameFrame(log[i], last);
      }
    }
  }

  lemma {:induction false} DeliverableIs(cfg: Config, m: Mpdu, src: Addr, id: nat)
    requires Deliverable(cfg, m, OfFrame(src, id))
    ensures m.msdu.src == src && m.id == id
  {
    hide IsIdent, ToEthernet;
  }

  /** And a deliverable one in it exactly once, as it was sent. */
  lemma {:induction false} LoggedExactlyOnce(cfg: Config, log: seq<Mpdu>, k: nat)
    requires LogGood(log) && k < |log| && |Delivery(cfg, log[k])| == 1 && Delivery(cfg, log[k])[0].EthReceived?
    ensures LoggedUps(cfg, log, OfFrame(log[k].msdu.src, log[k].id)) == 1
    ensures LoggedUps(cfg, log, Exactly(Delivery(cfg, log[k])[0])) >= 1
  {
    hide Delivery, Window, Before, SameFrame;
    LoggedOnce(cfg, log, log[k].msdu.src, log[k].id);
    DeliveryNames(cfg, log[k]);
    LoggedAtLeast(cfg, log, k, OfFrame(log[k].msdu.src, log[k].id));
    LoggedAtLeast(cfg, log, k, Exactly(Delivery(cfg, log[k])[0]));
  }

  lemma {:induction false} DeliveryNames(cfg: Config, m: Mpdu)
    requires |Delivery(cfg, m)| == 1 && Delivery(cfg, m)[0].EthReceived?
    ensures Delivery(cfg, m)[0].src == m.msdu.src && Delivery(cfg, m)[0].id == m.id
  {
    hide IsIdent, ToEthernet;
  }

  lemma {:induction false} LoggedAtLeast(cfg: Config, log: seq<Mpdu>, k: nat, key: Key)
    requires k < |log| && Deliverable(cfg, log[k], key)
    ensures LoggedUps(cfg, log, key) >= 1
  {
    hide Deliverable;
    if k < |log| - 1 {
      LoggedAtLeast(cfg, log[..|log| - 1], k, key);
    }
  }

  // ---- A burst of MPDUs ----

  /** MPDUs of one batch. */
  ghost predicate Burst(ms: seq<Mpdu>) {
    && (forall i | 0 <= i < |ms| :: Window(ms[i]))
    && forall i, j | 0 <= i < |ms| && 0 <= j < |ms| :: Before(ms[i], ms[j])
  }

  ghost predicate AllReach(log: seq<Mpdu>, ms: seq<Mpdu>) {
    forall j | 0 <= j < |ms| :: Reaches(log, ms[j])
  }

  /** Nothing is logged but what was logged before or is among `ms`. */
  ghost predicate LogFrom(log: seq<Mpdu>, more: seq<Mpdu>, ms: seq<Mpdu>) {
    forall i | 0 <= i < |more| :: more[i] in log || more[i] in ms
  }

  /** What was logged stays logged. */
  ghost predicate LogKept(log: seq<Mpdu>, more: seq<Mpdu>) {
    |log| <= |more| && more[..|log|] == log
  }

  /** No frame of `ms` wraps onto a newly logged one. */
  ghost predicate WrapsFrom(log: seq<Mpdu>, more: seq<Mpdu>, ms: seq<Mpdu>) {
    forall j | 0 <= j < |ms| :: Wraps(more, ms[j]) ==> Wraps(log, ms[j])
  }

  lemma {:induction false} GotKept(log: seq<Mpdu>, more: seq<Mpdu>, m: Mpdu)
    requires LogKept(log, more) && Got(log, m)
    ensures Got(more, m)
  {
    var i :| 0 <= i < |log| && SameFrame(log[i], m);
    assert more[i] == more[..|log|][i];
  }

  /** Receiving one MPDU of a burst: it is in the log afterwards unless its number wraps. */
  lemma {:induction false} HandUpBurst(cfg: Config, s: MacState, ms: seq<Mpdu>, k: nat)
    requires DedupOk(s) && LogGood(s.log) && Burst(ms) && AllReach(s.log, ms) && k < |ms|
    ensures var t := HandUp(cfg, s, ms[k]).s;
            && DedupOk(t) && LogGood(t.log) && AllReach(t.log, ms) && LogFrom(s.log, t.log, ms) && LogKept(s.log, t.log)
            && WrapsFrom(s.log, t.log, ms) && (Got(t.log, ms[k]) || Wraps(s.log, ms[k]))
  {
    hide LogGood, Window, DedupOk, HandUp, Wraps;
    var m := ms[k];
    HandUpGood(cfg, s, m);
    DroppedIff(cfg, s, m);
    var t := HandUp(cfg, s, m).s;
    if t.log == s.log {
      assert t.log[..|s.log|] == s.log;
    } else {
      assert t.log[|s.log|] == m;
      forall j | 0 <= j < |ms| && Wraps(t.log, ms[j])
        ensures Wraps(s.log, ms[j])
      {
        assert Before(m, ms[j]) && Before(ms[j], m);
        WrapsAppend(s.log, m, ms[j]);
      }
    }
  }

  /** Received part of a burst: the log is still good and gained what was handed up. */
  ghost predicate Took(cfg: Config, s: MacState, o: Out, ms: seq<Mpdu>) {
    && DedupOk(o.s) && LogGood(o.s.log) && AllReach(o.s.log, ms)
    && LogFrom(s.log, o.s.log, ms) && LogKept(s.log, o.s.log) && WrapsFrom(s.log, o.s.log, ms) && Counted(cfg, s, o)
  }

  lemma {:induction false} TookNothing(cfg: Config, s: MacState, o: Out, ms: seq<Mpdu>)
    requires DedupOk(s) && LogGood(s.log) && AllReach(s.log, ms) && SameLog(s, o.s) && NoHandUp(o.events)
    ensures Took(cfg, s, o, ms)
  {
    hide LogGood, AllReach, Last64, FromSrc, HandUps, LoggedUps;
    forall key: Key
      ensures LoggedUps(cfg, o.s.log, key) == LoggedUps(cfg, s.log, key) + HandUps(o.events, key)
    {
      NoHandUps(o.events, key);
    }
    assert o.s.log[..|s.log|] == s.log;
  }

  lemma {:induction false} TookBoth(cfg: Config, s: MacState, o: Out, p: Out, ms: seq<Mpdu>)
    requires Took(cfg, s, o, ms) && Took(cfg, o.s, p, ms)
    ensures Took(cfg, s, Out(p.s, o.events + p.events), ms)
  {
    hide LogGood, AllReach, DedupOk, HandUps, LoggedUps;
    var q := Out(p.s, o.events + p.events);
    forall key: Key
      ensures LoggedUps(cfg, q.s.log, key) == LoggedUps(cfg, s.log, key) + HandUps(q.events, key)
    {
      HandUpsConcat(o.events, p.events, key);
      assert LoggedUps(cfg, o.s.log, key) == LoggedUps(cfg, s.log, key) + HandUps(o.events, key);
      assert LoggedUps(cfg, p.s.log, key) == LoggedUps(cfg, o.s.log, key) + HandUps(p.events, key);
    }
    assert q.s.log[..|s.log|] == q.s.log[..|o.s.log|][..|s.log|];
  }

  lemma {:induction false} HandUpTook(cfg: Config, s: MacState, t: MacState, ms: seq<Mpdu>, k: nat)
    requires DedupOk(s) && LogGood(s.log) && Burst(ms) && AllReach(s.log, ms) && k < |ms| && SameLog(s, t)
    ensures var o := HandUp(cfg, t, ms[k]); Took(cfg, s, o, ms) && (Got(o.s.log, ms[k]) || Wraps(s.log, ms[k]))
  {
    hide LogGood, AllReach, Burst, Last64, FromSrc, HandUp, HandUps, LoggedUps, LogFrom, LogKept, Got, Wraps, WrapsFrom;
    assert DedupOk(t);
    HandUpBurst(cfg, t, ms, k);
    HandUpCounted(cfg, t, ms[k]);
  }

  lemma {:induction false} OnDataTook(cfg: Config, s: MacState, ms: seq<Mpdu>, k: nat, noAck: bool, rx: RxInfo, blockAck: bool, now: nat)
    requires DedupOk(s) && LogGood(s.log) && Burst(ms) && AllReach(s.log, ms) && k < |ms|
    ensures var o := OnData(cfg, s, ms[k], noAck, rx, blockAck, now);
            Took(cfg, s, o, ms) && (ForUs(cfg, ms[k]) ==> Got(o.s.log, ms[k]) || Wraps(s.log, ms[k]))
  {
    hide DedupOk, LogGood, AllReach, Burst, HandUp, Took, Got, Wraps, ToBody, AckId;
    var m := ms[k];
    if m.msdu.src == cfg.addr || (m.msdu.dest != cfg.addr && !IsGroup(m.msdu.dest)) {
      TookNothing(cfg, s, OnData(cfg, s, m, noAck, rx, blockAck, now), ms);
    } else if m.msdu.dest == cfg.addr {
      var t := s.(medium := s.medium.(ridUntilUs := 0));
      HandUpTook(cfg, s, if cfg.ackEnabled && !noAck && !blockAck then QueueAck(cfg, t, rx, m) else t, ms, k);
    } else {
      HandUpTook(cfg, s, s, ms, k);
    }
  }

  /** Of the first `n` MPDUs all that arrive for this station are in the log afterwards, but those
      whose number wraps onto one remembered before. */
  ghost predicate Answered(cfg: Config, log: seq<Mpdu>, more: seq<Mpdu>, ms: seq<Mpdu>, fates: seq<Fate>, n: nat)
    requires |ms| == |fates| && n <= |ms|
  {
    forall i | 0 <= i < n && fates[i].Good? && ForUs(cfg, ms[i]) :: Got(more, ms[i]) || Wraps(log, ms[i])
  }

  lemma {:induction false} OneFrameTook(cfg: Config, s: MacState, ms: seq<Mpdu>, k: nat, fate: Fate, rx: RxInfo, blockAck: bool, now: nat, draw: nat)
    requires DedupOk(s) && LogGood(s.log) && Burst(ms) && AllReach(s.log, ms) && k < |ms|
    ensures var o := OnFrame(cfg, s, FrameOf(ms[k], fate), rx, blockAck, now, draw);
            Took(cfg, s, o, ms) && (fate.Good? && ForUs(cfg, ms[k]) ==> Got(o.s.log, ms[k]) || Wraps(s.log, ms[k]))
  {
    hide LogGood, AllReach, Burst, Took, Got, Wraps, OnData, Last64, FromSrc;
    if fate.Good? {
      var t := s.(medium := s.medium.(eifsPending := false));
      assert DedupOk(t);
      OnDataTook(cfg, t, ms, k, false, rx, blockAck, now);
      TookFrom(cfg, s, t, OnData(cfg, t, ms[k], false, rx, blockAck, now), ms);
    } else {
      TookNothing(cfg, s, Out(s, []), ms);
    }
  }

  lemma {:induction false} TookFrom(cfg: Config, s: MacState, t: MacState, o: Out, ms: seq<Mpdu>)
    requires Took(cfg, t, o, ms) && SameLog(s, t)
    ensures Took(cfg, s, o, ms)
  {
    hide LogGood, AllReach, DedupOk, HandUps, LoggedUps, LogFrom, LogKept;
  }

  lemma {:induction false} AnsweredMore(cfg: Config, first: seq<Mpdu>, log: seq<Mpdu>, more: seq<Mpdu>, ms: seq<Mpdu>, fates: seq<Fate>, n: nat)
    requires |ms| == |fates| && n < |ms| && Answered(cfg, first, log, ms, fates, n) && LogKept(log, more) && WrapsFrom(first, log, ms)
    requires fates[n].Good? && ForUs(cfg, ms[n]) ==> Got(more, ms[n]) || Wraps(log, ms[n])
    ensures Answered(cfg, first, more, ms, fates, n + 1)
  {
    hide Got, Wraps, LogKept, ForUs;
    forall i | 0 <= i < n && fates[i].Good? && ForUs(cfg, ms[i]) && !Wraps(first, ms[i])
      ensures Got(more, ms[i])
    {
      GotKept(log, more, ms[i]);
    }
  }

  lemma {:induction false} OnFramesTook(cfg: Config, s: MacState, ms: seq<Mpdu>, fates: seq<Fate>, eof: bool, rx: RxInfo, blockAck: bool,
                                        now: nat, draw: nat, n: nat)
    requires |ms| == |fates| && n <= |ms| && DedupOk(s) && LogGood(s.log) && Burst(ms) && AllReach(s.log, ms)
    ensures var o := OnFrames(cfg, s, Heard(ms[..n], fates[..n], eof), rx, blockAck, now, draw);
            Took(cfg, s, o, ms) && Answered(cfg, s.log, o.s.log, ms, fates, n)
  {
    hide DedupOk, LogGood, AllReach, Burst, OnFrame, OnFrames, Heard, Counted, LogFrom, Got, Wraps;
    if n == 0 {
      NothingHeard(cfg, s, eof, rx, blockAck, now, draw);
      assert ms[..0] == [] && fates[..0] == [];
      TookNothing(cfg, s, Out(s, []), ms);
    } else {
      OnFramesTook(cfg, s, ms, fates, eof, rx, blockAck, now, draw, n - 1);
      var (m, f) := (ms[..n], fates[..n]);
      assert m[..n - 1] == ms[..n - 1] && f[..n - 1] == fates[..n - 1];
      var o := OnFrames(cfg, s, Heard(ms[..n - 1], fates[..n - 1], eof), rx, blockAck, now, draw);
      HeardStep(cfg, s, m, f, eof, rx, blockAck, now, draw);
      if fates[n - 1].Lost? {
        AnsweredMore(cfg, s.log, o.s.log, o.s.log, ms, fates, n - 1);
      } else {
        OneFrameTook(cfg, o.s, ms, n - 1, fates[n - 1], rx, blockAck, now, draw);
        var p := OnFrame(cfg, o.s, FrameOf(ms[n - 1], fates[n - 1]), rx, blockAck, now, draw);
        TookBoth(cfg, s, o, p, ms);
        AnsweredMore(cfg, s.log, o.s.log, p.s.log, ms, fates, n - 1);
      }
    }
  }

  /** State and events after one more frame heard. */
  lemma {:induction false} HeardStep(cfg: Config, s: MacState, mpdus: seq<Mpdu>, fates: seq<Fate>, eof: bool, rx: RxInfo, blockAck: bool,
                                     now: nat, draw: nat)
    requires |mpdus| == |fates| && |mpdus| > 0
    ensures var n := |mpdus| - 1;
            var (before, all) := (Heard(mpdus[..n], fates[..n], eof), Heard(mpdus, fates, eof));
            var o := OnFrames(cfg, s, before, rx, blockAck, now, draw);
            var p := OnFrame(cfg, o.s, FrameOf(mpdus[n], fates[n]), rx, blockAck, now, draw);
            OnFrames(cfg, s, all, rx, blockAck, now, draw) == if fates[n].Lost? then o else Out(p.s, o.events + p.events)
  {
    hide OnFrame;
    var n := |mpdus| - 1;
    var (before, all) := (Heard(mpdus[..n], fates[..n], eof), Heard(mpdus, fates, eof));
    if !fates[n].Lost? {
      assert all[..|before|] == before;
    } else {
      assert all == before;
    }
  }
}

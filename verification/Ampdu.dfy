/** A-MPDU aggregation and deaggregation (crates/s2g-mac/src/ampdu.rs). */
module Ampdu {
  import opened Wrappers
  import opened Params
  import opened Words
  import opened Bits

  const DELIM_LEN: nat := 4
  const SIGNATURE: nat := 0x4E
  const MAX_MPDU_LEN: nat := 16383

  // ---- Delimiters ----

  /** CRC-8 register, c7 first. */
  datatype Crc8 = Crc8(c7: Bit, c6: Bit, c5: Bit, c4: Bit, c3: Bit, c2: Bit, c1: Bit, c0: Bit)
  {
    function Next(b: Bit): Crc8 {
      var fb := b != c7;
      Crc8(c6, c5, c4, c3, c2, c1 != fb, c0 != fb, fb)
    }

    /** Complemented, c7 in the least significant bit. */
    function Packed(): Octet {
      PackOctet([!c7, !c6, !c5, !c4, !c3, !c2, !c1, !c0])
    }
  }

  function CrcAfter(header: seq<Bit>, n: nat): Crc8
    requires n <= |header|
  {
    if n == 0 then Crc8(true, true, true, true, true, true, true, true)
    else CrcAfter(header, n - 1).Next(header[n - 1])
  }

  /** CRC of the sixteen header bits. */
  function DelimCrc(header: seq<Bit>): Octet {
    CrcAfter(header, |header|).Packed()
  }

  method ComputeDelimCrc(header: seq<Bit>) returns (crc: Octet)
    ensures crc == DelimCrc(header)
  {
    var c := Crc8(true, true, true, true, true, true, true, true);
    for i := 0 to |header|
      invariant c == CrcAfter(header, i)
    {
      c := c.Next(header[i]);
    }
    crc := c.Packed();
  }

  /** EOF flag, reserved bit, the two high and the twelve low length bits. */
  function Header(len: nat, eof: bool): (h: seq<Bit>)
    ensures |h| == 16
  {
    var l := UintBits(len, 14);
    [eof, false] + l[12..] + l[..12]
  }

  function BuildDelimiter(len: nat, eof: bool): (d: seq<Octet>)
    ensures |d| == 4
  {
    var h := Header(len, eof);
    [PackOctet(h[..8]), PackOctet(h[8..]), DelimCrc(h), SIGNATURE]
  }

  /** Header bits of the first two octets. */
  function HeaderOf(d: seq<Octet>): (h: seq<Bit>)
    requires |d| >= 2
    ensures |h| == 16
  {
    UintBits(d[0], 8) + UintBits(d[1], 8)
  }

  /** MPDU length (twelve low bits, then two high ones) and EOF flag of a delimiter whose CRC and
      signature check. */
  function ParseDelimiter(d: seq<Octet>): Option<(nat, bool)> {
    if |d| < 4 || d[3] != SIGNATURE then None
    else
      var h := HeaderOf(d);
      if DelimCrc(h) != d[2] then None else Some((ToUint(h[4..] + h[2..4]), h[0]))
  }

  lemma {:induction false} OctetRoundTrip(bits: seq<Bit>)
    requires |bits| == 8
    ensures UintBits(PackOctet(bits), 8) == bits
  {
    hide GetBit, Pow2, PackTo;
    PackBits(bits, 8);
  }

  lemma {:induction false} DelimiterRoundTrip(len: nat, eof: bool)
    requires len <= MAX_MPDU_LEN
    ensures ParseDelimiter(BuildDelimiter(len, eof)) == Some((len, eof))
  {
    hide CrcAfter, Crc8.Packed, GetBit, PackTo, PackOctet, Pow2;
    var (l, h) := (UintBits(len, 14), Header(len, eof));
    OctetRoundTrip(h[..8]);
    OctetRoundTrip(h[8..]);
    assert h == h[..8] + h[8..];
    assert h[4..] + h[2..4] == l;
    FourteenBits();
    UintIs(l, len);
  }

  lemma {:induction false} FourteenBits()
    ensures Pow2(14) == MAX_MPDU_LEN + 1
  {
    assert Pow2(7) == 128;
  }

  function Pad4(n: nat): (m: nat)
    ensures n <= m < n + 4 && m % 4 == 0
  {
    (n + 3) / 4 * 4
  }

  /** The aligned word at `p`. */
  function WordAt(psdu: seq<Octet>, p: nat): seq<Octet>
    requires p + DELIM_LEN <= |psdu|
  {
    psdu[p..p + DELIM_LEN]
  }

  // ---- Building ----

  function PreEofLen(mpduLen: nat): nat {
    DELIM_LEN + mpduLen
  }

  /** Where subframe `i` starts: every earlier one is padded to a multiple of four. */
  function Start(ms: seq<seq<Octet>>, i: nat): (p: nat)
    requires i <= |ms|
    ensures p % 4 == 0
  {
    if i == 0 then 0 else Pad4(Start(ms, i - 1) + DELIM_LEN + |ms[i - 1]|)
  }

  /** End of the last MPDU, before the final padding. */
  function PreEofLenMany(ms: seq<seq<Octet>>): nat {
    if |ms| == 0 then 0 else Start(ms, |ms| - 1) + DELIM_LEN + |ms[|ms| - 1]|
  }

  function Min(a: nat, b: nat): nat {
    if a < b then a else b
  }

  /** The same end from the lengths alone: every subframe but the last is padded. */
  function PreEofOfLens(lens: seq<nat>): nat {
    if |lens| == 0 then 0
    else if |lens| == 1 then DELIM_LEN + lens[0]
    else Pad4(DELIM_LEN + lens[0]) + PreEofOfLens(lens[1..])
  }

  function Lens(ms: seq<seq<Octet>>): (lens: seq<nat>)
    ensures |lens| == |ms|
  {
    seq(|ms|, i requires 0 <= i < |ms| => |ms[i]|)
  }

  /** Padding commutes with whole words in front. */
  lemma {:induction false} PadShift(a: nat, b: nat)
    requires a % 4 == 0
    ensures Pad4(a + b) == a + Pad4(b)
  {
  }

  lemma {:induction false} StartShift(ms: seq<seq<Octet>>, i: nat)
    requires 0 < i <= |ms|
    ensures Start(ms, i) == Pad4(DELIM_LEN + |ms[0]|) + Start(ms[1..], i - 1)
  {
    hide Pad4;
    if i > 1 {
      StartShift(ms, i - 1);
      assert ms[1..][i - 2] == ms[i - 1];
      PadShift(Pad4(DELIM_LEN + |ms[0]|), Start(ms[1..], i - 2) + DELIM_LEN + |ms[i - 1]|);
    }
  }

  /** The length computed from MPDU lengths is where the last MPDU ends. */
  lemma {:induction false} PreEofAgrees(ms: seq<seq<Octet>>)
    ensures PreEofOfLens(Lens(ms)) == PreEofLenMany(ms)
  {
    if |ms| > 1 {
      PreEofAgrees(ms[1..]);
      assert Lens(ms)[1..] == Lens(ms[1..]);
      StartShift(ms, |ms| - 1);
    }
  }

  /** Subframe `i` lies in `out`: delimiter with the given EOF flag, then the MPDU. */
  ghost predicate Subframe(out: seq<Octet>, ms: seq<seq<Octet>>, eof: bool, i: nat)
    requires i < |ms|
  {
    var p := Start(ms, i);
    && p + DELIM_LEN + |ms[i]| <= |out|
    && WordAt(out, p) == BuildDelimiter(|ms[i]|, eof)
    && out[p + DELIM_LEN..p + DELIM_LEN + |ms[i]|] == ms[i]
  }

  /** From `p` on, as long as one fits, there are only empty EOF delimiters. */
  ghost predicate EofTail(out: seq<Octet>, p: nat) {
    forall q | p <= q && (q - p) % 4 == 0 && q + DELIM_LEN <= |out| :: WordAt(out, q) == BuildDelimiter(0, true)
  }

  /** An A-MPDU of the given MPDUs that fills `capacity` octets. */
  ghost predicate Laid(out: seq<Octet>, ms: seq<seq<Octet>>, eof: bool, capacity: nat) {
    && |out| == capacity
    && (forall i | 0 <= i < |ms| :: Subframe(out, ms, eof, i))
    && EofTail(out, Start(ms, |ms|))
  }

  /** Append `n - |out|` zeros, or cut to `n`. */
  function Resized(out: seq<Octet>, n: nat): (r: seq<Octet>)
    ensures |r| == n
  {
    if n <= |out| then out[..n] else out + seq(n - |out|, _ => 0 as Octet)
  }

  /** Final padding of a body that ends the subframes `ms`. */
  method Fill(body: seq<Octet>, ghost ms: seq<seq<Octet>>, ghost eof: bool, capacity: nat) returns (out: seq<Octet>)
    requires |ms| > 0 && |body| == PreEofLenMany(ms) <= capacity
    requires forall i | 0 <= i < |ms| :: Subframe(body, ms, eof, i)
    ensures Laid(out, ms, eof, capacity)
  {
    hide BuildDelimiter, EofTail, Subframe, WordAt;
    var aligned := Min(Pad4(|body|), capacity);
    ghost var tail := Start(ms, |ms|);
    assert Pad4(|body|) == tail;
    out := Resized(body, aligned);
    EofShort(out, tail);
    var d := BuildDelimiter(0, true);
    while |out| + DELIM_LEN <= capacity
      invariant aligned <= |out| <= capacity && out[..|body|] == body
      invariant |out| < capacity ==> |out| >= tail && (|out| - tail) % 4 == 0
      invariant EofTail(out, tail)
    {
      EofAppend(out, tail);
      out := out + d;
    }
    EofResize(out, tail, capacity);
    out := Resized(out, capacity);
    SubframesKept(body, out, ms, eof);
  }

  lemma {:induction false} EofShort(out: seq<Octet>, p: nat)
    requires |out| <= p
    ensures EofTail(out, p)
  {
  }

  lemma {:induction false} EofAppend(out: seq<Octet>, p: nat)
    requires EofTail(out, p) && p <= |out| && (|out| - p) % 4 == 0
    ensures EofTail(out + BuildDelimiter(0, true), p)
  {
    hide BuildDelimiter;
    var d := BuildDelimiter(0, true);
    var longer := out + d;
    forall q | p <= q && (q - p) % 4 == 0 && q + DELIM_LEN <= |longer|
      ensures WordAt(longer, q) == d
    {
      if q + DELIM_LEN <= |out| {
        assert WordAt(longer, q) == WordAt(out, q);
      } else {
        assert q == |out|;
      }
    }
  }

  /** Fewer than four loose octets after the last delimiter. */
  lemma {:induction false} EofResize(out: seq<Octet>, p: nat, n: nat)
    requires EofTail(out, p) && |out| <= n < |out| + DELIM_LEN
    requires |out| < n ==> p <= |out| && (|out| - p) % 4 == 0
    ensures EofTail(Resized(out, n), p)
  {
    hide BuildDelimiter;
    var longer := Resized(out, n);
    forall q | p <= q && (q - p) % 4 == 0 && q + DELIM_LEN <= |longer|
      ensures WordAt(longer, q) == BuildDelimiter(0, true)
    {
      assert q + DELIM_LEN <= |out|;
      assert WordAt(longer, q) == WordAt(out, q);
    }
  }

  lemma {:induction false} SubframesKept(body: seq<Octet>, out: seq<Octet>, ms: seq<seq<Octet>>, eof: bool)
    requires |body| <= |out| && out[..|body|] == body
    requires forall i | 0 <= i < |ms| :: Subframe(body, ms, eof, i)
    ensures forall i | 0 <= i < |ms| :: Subframe(out, ms, eof, i)
  {
    hide Subframe;
    forall i | 0 <= i < |ms|
      ensures Subframe(out, ms, eof, i)
    {
      SubframeKept(body, out, ms, eof, i);
    }
  }

  lemma {:induction false} SubframeKept(body: seq<Octet>, out: seq<Octet>, ms: seq<seq<Octet>>, eof: bool, i: nat)
    requires i < |ms| && Subframe(body, ms, eof, i) && |body| <= |out| && out[..|body|] == body
    ensures Subframe(out, ms, eof, i)
  {
    hide BuildDelimiter, Start;
    PrefixSlice(body, out, Start(ms, i), Start(ms, i) + DELIM_LEN);
    PrefixSlice(body, out, Start(ms, i) + DELIM_LEN, Start(ms, i) + DELIM_LEN + |ms[i]|);
  }

  lemma {:induction false} PrefixSlice(body: seq<Octet>, out: seq<Octet>, p: nat, q: nat)
    requires p <= q <= |body| <= |out| && out[..|body|] == body
    ensures out[p..q] == body[p..q]
  {
    forall k | p <= k < q
      ensures out[k] == body[k]
    {
      assert out[..|body|][k] == body[k];
    }
  }

  /** An S-MPDU: one MPDU whose delimiter has the EOF flag set. */
  method Aggregate(mpdu: seq<Octet>, capacity: nat) returns (out: seq<Octet>)
    requires |mpdu| <= MAX_MPDU_LEN && capacity >= PreEofLen(|mpdu|)
    ensures Laid(out, [mpdu], true, capacity)
  {
    hide BuildDelimiter;
    out := BuildDelimiter(|mpdu|, true);
    out := out + mpdu;
    assert Start([mpdu], 0) == 0;
    assert Subframe(out, [mpdu], true, 0);
    out := Fill(out, [mpdu], true, capacity);
  }

  /** A multi-MPDU A-MPDU. */
  method AggregateMany(ms: seq<seq<Octet>>, capacity: nat) returns (out: seq<Octet>)
    requires |ms| >= 2 && capacity >= PreEofLenMany(ms)
    requires forall i | 0 <= i < |ms| :: |ms[i]| <= MAX_MPDU_LEN
    ensures Laid(out, ms, false, capacity)
  {
    hide BuildDelimiter;
    out := [];
    for i := 0 to |ms|
      invariant i == 0 ==> out == []
      invariant i > 0 ==> |out| == Start(ms, i - 1) + DELIM_LEN + |ms[i - 1]|
      invariant forall k | 0 <= k < i :: Subframe(out, ms, false, k)
    {
      ghost var before := out;
      out := Resized(out, Pad4(|out|));
      assert |out| == Start(ms, i);
      out := out + BuildDelimiter(|ms[i]|, false);
      out := out + ms[i];
      forall k | 0 <= k < i
        ensures Subframe(out, ms, false, k)
      {
        assert out[..|before|] == before;
        SubframeKept(before, out, ms, false, k);
      }
      assert Subframe(out, ms, false, i);
    }
    out := Fill(out, ms, false, capacity);
  }

  // ---- Scanning ----

  /** Octet range of a recovered MPDU and the EOF flag of its delimiter. */
  datatype Range = Range(from: nat, len: nat, eof: bool)

  /** A delimiter at `pos` that announces a nonempty MPDU inside the PSDU. */
  function FrameAt(psdu: seq<Octet>, pos: nat): Option<Range>
    requires pos + DELIM_LEN <= |psdu|
  {
    match ParseDelimiter(WordAt(psdu, pos))
    case None => None
    case Some((len, eof)) =>
      if len > 0 && pos + DELIM_LEN + len <= |psdu| then Some(Range(pos + DELIM_LEN, len, eof)) else None
  }

  /** Ranges found from `pos` on: a good delimiter skips its subframe, anything else one word. */
  function Ranges(psdu: seq<Octet>, pos: nat): seq<Range>
    decreases |psdu| - pos
  {
    if pos + DELIM_LEN > |psdu| then []
    else match FrameAt(psdu, pos)
      case None => Ranges(psdu, pos + DELIM_LEN)
      case Some(r) => [r] + Ranges(psdu, Pad4(r.from + r.len))
  }

  function Inside(psdu: seq<Octet>, r: Range): bool {
    r.from + r.len <= |psdu|
  }

  lemma {:induction false} RangesInside(psdu: seq<Octet>, pos: nat)
    ensures forall i | 0 <= i < |Ranges(psdu, pos)| :: Inside(psdu, Ranges(psdu, pos)[i]) && Ranges(psdu, pos)[i].len > 0
    decreases |psdu| - pos
  {
    hide ParseDelimiter;
    if pos + DELIM_LEN <= |psdu| {
      match FrameAt(psdu, pos)
      case None => RangesInside(psdu, pos + DELIM_LEN);
      case Some(r) => RangesInside(psdu, Pad4(r.from + r.len));
    }
  }

  /** MPDUs of an A-MPDU with the EOF flags of their delimiters. */
  method Deaggregate(psdu: seq<Octet>) returns (out: seq<(seq<Octet>, bool)>)
    ensures |out| == |Ranges(psdu, 0)|
    ensures forall i | 0 <= i < |out| ::
              var r := Ranges(psdu, 0)[i];
              Inside(psdu, r) && out[i] == (psdu[r.from..r.from + r.len], r.eof)
  {
    hide ParseDelimiter, Ranges, Pad4;
    RangesInside(psdu, 0);
    out := [];
    var pos := 0;
    ghost var done := [];
    while pos + DELIM_LEN <= |psdu|
      invariant Ranges(psdu, 0) == done + Ranges(psdu, pos) && |out| == |done|
      invariant forall i | 0 <= i < |out| ::
                  Inside(psdu, done[i]) && out[i] == (psdu[done[i].from..done[i].from + done[i].len], done[i].eof)
      decreases |psdu| - pos
    {
      RangesNext(psdu, pos);
      match ParseDelimiter(WordAt(psdu, pos))
      case Some((len, eof)) =>
        if len == 0 {
          pos := pos + DELIM_LEN;
        } else if pos + DELIM_LEN + len <= |psdu| {
          out := out + [(psdu[pos + DELIM_LEN..pos + DELIM_LEN + len], eof)];
          done := done + [Range(pos + DELIM_LEN, len, eof)];
          pos := Pad4(pos + DELIM_LEN + len);
        } else {
          pos := pos + DELIM_LEN;
        }
      case None =>
        pos := pos + DELIM_LEN;
    }
    RangesEnd(psdu, pos);
  }

  /** One step of the scan. */
  lemma {:induction false} RangesNext(psdu: seq<Octet>, pos: nat)
    requires pos + DELIM_LEN <= |psdu|
    ensures Ranges(psdu, pos) == match FrameAt(psdu, pos)
                                 case None => Ranges(psdu, pos + DELIM_LEN)
                                 case Some(r) => [r] + Ranges(psdu, Pad4(r.from + r.len))
  {
    hide FrameAt;
  }

  lemma {:induction false} RangesEnd(psdu: seq<Octet>, pos: nat)
    requires pos + DELIM_LEN > |psdu|
    ensures Ranges(psdu, pos) == []
  {
  }

  // ---- Round trip ----

  /** Ranges of the nonempty MPDUs from `i` on. */
  function FramesFrom(ms: seq<seq<Octet>>, eof: bool, i: nat): seq<Range>
    requires i <= |ms|
    decreases |ms| - i
  {
    if i == |ms| then []
    else (if |ms[i]| > 0 then [Range(Start(ms, i) + DELIM_LEN, |ms[i]|, eof)] else []) + FramesFrom(ms, eof, i + 1)
  }

  lemma {:induction false} EofTailEmpty(psdu: seq<Octet>, p: nat, pos: nat)
    requires EofTail(psdu, p) && p <= pos && (pos - p) % 4 == 0
    ensures Ranges(psdu, pos) == []
    decreases |psdu| - pos
  {
    hide ParseDelimiter, BuildDelimiter;
    if pos + DELIM_LEN <= |psdu| {
      DelimiterRoundTrip(0, true);
      EofTailEmpty(psdu, p, pos + DELIM_LEN);
    }
  }

  /** What the scan meets at a subframe. */
  function FrameOf(ms: seq<seq<Octet>>, eof: bool, i: nat): Option<Range>
    requires i < |ms|
  {
    if |ms[i]| > 0 then Some(Range(Start(ms, i) + DELIM_LEN, |ms[i]|, eof)) else None
  }

  lemma {:induction false} SubframeScan(psdu: seq<Octet>, ms: seq<seq<Octet>>, eof: bool, i: nat)
    requires i < |ms| && |ms[i]| <= MAX_MPDU_LEN && Subframe(psdu, ms, eof, i)
    ensures FrameAt(psdu, Start(ms, i)) == FrameOf(ms, eof, i)
    ensures Start(ms, i + 1) == if |ms[i]| > 0 then Pad4(Start(ms, i) + DELIM_LEN + |ms[i]|) else Start(ms, i) + DELIM_LEN
  {
    hide ParseDelimiter, BuildDelimiter;
    DelimiterRoundTrip(|ms[i]|, eof);
  }

  /** One step of the scan over an intact subframe. */
  lemma {:induction false} SubframeStep(psdu: seq<Octet>, ms: seq<seq<Octet>>, eof: bool, i: nat)
    requires i < |ms| && |ms[i]| <= MAX_MPDU_LEN && Subframe(psdu, ms, eof, i)
    ensures Ranges(psdu, Start(ms, i))
            == (if |ms[i]| > 0 then [Range(Start(ms, i) + DELIM_LEN, |ms[i]|, eof)] else []) + Ranges(psdu, Start(ms, i + 1))
  {
    hide FrameAt, BuildDelimiter, WordAt, Start, Pad4;
    SubframeScan(psdu, ms, eof, i);
  }

  lemma {:induction false} RangesOfLaid(psdu: seq<Octet>, ms: seq<seq<Octet>>, eof: bool, capacity: nat, i: nat)
    requires Laid(psdu, ms, eof, capacity) && i <= |ms|
    requires forall k | 0 <= k < |ms| :: |ms[k]| <= MAX_MPDU_LEN
    ensures Ranges(psdu, Start(ms, i)) == FramesFrom(ms, eof, i)
    decreases |ms| - i
  {
    hide Ranges, EofTail, Start, Subframe;
    if i == |ms| {
      EofTailEmpty(psdu, Start(ms, i), Start(ms, i));
    } else {
      SubframeStep(psdu, ms, eof, i);
      RangesOfLaid(psdu, ms, eof, capacity, i + 1);
    }
  }

  /** Nonempty MPDUs in order. */
  function Nonempty(ms: seq<seq<Octet>>, i: nat): seq<seq<Octet>>
    requires i <= |ms|
    decreases |ms| - i
  {
    if i == |ms| then [] else (if |ms[i]| > 0 then [ms[i]] else []) + Nonempty(ms, i + 1)
  }

  /** Range `r` of the PSDU holds `m`. */
  ghost predicate Holds(psdu: seq<Octet>, r: Range, eof: bool, m: seq<Octet>) {
    Inside(psdu, r) && r.eof == eof && psdu[r.from..r.from + r.len] == m
  }

  lemma {:induction false} SubframeHolds(psdu: seq<Octet>, ms: seq<seq<Octet>>, eof: bool, i: nat)
    requires i < |ms| && Subframe(psdu, ms, eof, i)
    ensures Holds(psdu, Range(Start(ms, i) + DELIM_LEN, |ms[i]|, eof), eof, ms[i])
  {
    hide BuildDelimiter, Start;
  }

  /** Each range holds the corresponding MPDU. */
  ghost predicate AllHold(psdu: seq<Octet>, f: seq<Range>, eof: bool, ms: seq<seq<Octet>>) {
    |f| == |ms| && forall k | 0 <= k < |f| :: Holds(psdu, f[k], eof, ms[k])
  }

  lemma {:induction false} HoldOneMore(psdu: seq<Octet>, r: Range, f: seq<Range>, eof: bool, m: seq<Octet>, ms: seq<seq<Octet>>)
    requires AllHold(psdu, f, eof, ms) && Holds(psdu, r, eof, m)
    ensures AllHold(psdu, [r] + f, eof, [m] + ms) && [] + f == f && [] + ms == ms
  {
    hide Holds;
    forall k | 0 <= k < |f| + 1
      ensures Holds(psdu, ([r] + f)[k], eof, ([m] + ms)[k])
    {
      assert k > 0 ==> ([r] + f)[k] == f[k - 1] && ([m] + ms)[k] == ms[k - 1];
    }
  }

  lemma {:induction false} FramesCarry(psdu: seq<Octet>, ms: seq<seq<Octet>>, eof: bool, capacity: nat, i: nat)
    requires Laid(psdu, ms, eof, capacity) && i <= |ms|
    ensures AllHold(psdu, FramesFrom(ms, eof, i), eof, Nonempty(ms, i))
    decreases |ms| - i
  {
    hide EofTail, Start, Subframe, Holds;
    if i < |ms| {
      hide AllHold;
      FramesCarry(psdu, ms, eof, capacity, i + 1);
      SubframeHolds(psdu, ms, eof, i);
      HoldOneMore(psdu, Range(Start(ms, i) + DELIM_LEN, |ms[i]|, eof), FramesFrom(ms, eof, i + 1), eof, ms[i], Nonempty(ms, i + 1));
    }
  }

  /** A-MPDU round trip: deaggregating returns exactly the nonempty MPDUs in order with the flag
      they were sent with, whatever the capacity they were padded to. */
  lemma {:induction false} AggregateRoundTrip(psdu: seq<Octet>, ms: seq<seq<Octet>>, eof: bool, capacity: nat)
    requires Laid(psdu, ms, eof, capacity)
    requires forall k | 0 <= k < |ms| :: |ms[k]| <= MAX_MPDU_LEN
    ensures AllHold(psdu, Ranges(psdu, 0), eof, Nonempty(ms, 0))
  {
    hide Laid, Nonempty;
    RangesOfLaid(psdu, ms, eof, capacity, 0);
    FramesCarry(psdu, ms, eof, capacity, 0);
  }

  // ---- Damage ----

  /** From `pos` on, the two PSDUs agree outside the given bodies. */
  ghost predicate SameOutside(a: seq<Octet>, b: seq<Octet>, ranges: seq<Range>, pos: nat) {
    && |a| == |b|
    && forall p | pos <= p < |a| && (forall k | 0 <= k < |ranges| :: !(ranges[k].from <= p < ranges[k].from + ranges[k].len)) ::
         a[p] == b[p]
  }

  lemma {:induction false} RangesStart(psdu: seq<Octet>, pos: nat)
    ensures forall k | 0 <= k < |Ranges(psdu, pos)| :: Ranges(psdu, pos)[k].from >= pos + DELIM_LEN
    decreases |psdu| - pos
  {
    hide ParseDelimiter;
    if pos + DELIM_LEN <= |psdu| {
      match FrameAt(psdu, pos)
      case None => RangesStart(psdu, pos + DELIM_LEN);
      case Some(r) => RangesStart(psdu, Pad4(r.from + r.len));
    }
  }

  /** Damage confined to MPDU bodies never changes which ranges are found. */
  lemma {:induction false} BodiesDoNotMatter(a: seq<Octet>, b: seq<Octet>, pos: nat)
    requires SameOutside(a, b, Ranges(a, pos), pos)
    ensures Ranges(b, pos) == Ranges(a, pos)
    decreases |a| - pos
  {
    hide ParseDelimiter;
    if pos + DELIM_LEN <= |a| {
      RangesStart(a, pos);
      assert WordAt(a, pos) == WordAt(b, pos);
      match FrameAt(a, pos)
      case None =>
        BodiesDoNotMatter(a, b, pos + DELIM_LEN);
      case Some(r) =>
        var next := Pad4(r.from + r.len);
        assert Ranges(a, pos) == [r] + Ranges(a, next);
        RestSameOutside(a, b, r, next, pos);
        BodiesDoNotMatter(a, b, next);
    }
  }

  lemma {:induction false} RestSameOutside(a: seq<Octet>, b: seq<Octet>, r: Range, next: nat, pos: nat)
    requires pos <= r.from + r.len <= next
    requires SameOutside(a, b, [r] + Ranges(a, next), pos)
    ensures SameOutside(a, b, Ranges(a, next), next)
  {
    hide Ranges;
    var (rest, all) := (Ranges(a, next), [r] + Ranges(a, next));
    forall p | next <= p < |a| && forall k | 0 <= k < |rest| :: !(rest[k].from <= p < rest[k].from + rest[k].len)
      ensures a[p] == b[p]
    {
      forall k | 0 <= k < |all|
        ensures !(all[k].from <= p < all[k].from + all[k].len)
      {
        if k > 0 {
          assert all[k] == rest[k - 1];
        }
      }
    }
  }

  /** No aligned word in the stretch announces a frame. */
  ghost predicate Unreadable(psdu: seq<Octet>, from: nat, upTo: nat) {
    forall w | from <= w < upTo && (w - from) % 4 == 0 && w + DELIM_LEN <= |psdu| :: FrameAt(psdu, w).None?
  }

  lemma {:induction false} ScanSkips(psdu: seq<Octet>, from: nat, upTo: nat)
    requires from <= upTo && (upTo - from) % 4 == 0 && Unreadable(psdu, from, upTo)
    ensures Ranges(psdu, from) == Ranges(psdu, upTo)
    decreases upTo - from
  {
    hide FrameAt;
    if from < upTo {
      ScanSkips(psdu, from + 4, upTo);
      if from + DELIM_LEN > |psdu| {
        assert Ranges(psdu, upTo) == [];
      }
    }
  }

  lemma {:induction false} SuffixScan(a: seq<Octet>, b: seq<Octet>, pos: nat)
    requires |a| == |b| && forall p | pos <= p < |a| :: a[p] == b[p]
    ensures Ranges(a, pos) == Ranges(b, pos)
    decreases |a| - pos
  {
    hide ParseDelimiter;
    if pos + DELIM_LEN <= |a| {
      assert WordAt(a, pos) == WordAt(b, pos);
      match FrameAt(a, pos)
      case None => SuffixScan(a, b, pos + DELIM_LEN);
      case Some(r) => SuffixScan(a, b, Pad4(r.from + r.len));
    }
  }

  /** Ranges of the nonempty MPDUs from `i` on, but for MPDU `lost`. */
  function FramesWithout(ms: seq<seq<Octet>>, eof: bool, i: nat, lost: nat): seq<Range>
    requires i <= lost < |ms|
    decreases lost - i
  {
    if i == lost then FramesFrom(ms, eof, lost + 1)
    else (if |ms[i]| > 0 then [Range(Start(ms, i) + DELIM_LEN, |ms[i]|, eof)] else []) + FramesWithout(ms, eof, i + 1, lost)
  }

  lemma {:induction false} StartMonotone(ms: seq<seq<Octet>>, i: nat, j: nat)
    requires i <= j <= |ms|
    ensures Start(ms, i) <= Start(ms, j)
    ensures i < j ==> Start(ms, i) + DELIM_LEN + |ms[i]| <= Start(ms, j)
  {
    if i < j {
      StartMonotone(ms, i, j - 1);
    }
  }

  lemma {:induction false} SubframeIntact(sent: seq<Octet>, got: seq<Octet>, ms: seq<seq<Octet>>, eof: bool, i: nat)
    requires i < |ms| && Subframe(sent, ms, eof, i) && |got| == |sent|
    requires forall p | Start(ms, i) <= p < Start(ms, i) + DELIM_LEN + |ms[i]| :: got[p] == sent[p]
    ensures Subframe(got, ms, eof, i)
  {
    hide Start, BuildDelimiter;
    assert WordAt(got, Start(ms, i)) == WordAt(sent, Start(ms, i));
  }

  lemma {:induction false} SubframeBound(psdu: seq<Octet>, ms: seq<seq<Octet>>, eof: bool, i: nat)
    requires i < |ms| && Subframe(psdu, ms, eof, i)
    ensures Start(ms, i) + DELIM_LEN + |ms[i]| <= |psdu|
  {
    hide Start;
  }

  /** Resynchronisation: if one subframe is damaged so that no aligned word in it announces a
      frame, the scan loses that subframe alone and recovers every other one. */
  lemma {:induction false} Resynchronises(sent: seq<Octet>, got: seq<Octet>, ms: seq<seq<Octet>>, eof: bool, capacity: nat,
                                          i: nat, lost: nat)
    requires Laid(sent, ms, eof, capacity) && |got| == |sent| && i <= lost < |ms|
    requires forall k | 0 <= k < |ms| :: |ms[k]| <= MAX_MPDU_LEN
    requires forall p | 0 <= p < |sent| && !(Start(ms, lost) <= p < Start(ms, lost + 1)) :: got[p] == sent[p]
    requires Unreadable(got, Start(ms, lost), Start(ms, lost + 1))
    ensures Ranges(got, Start(ms, i)) == FramesWithout(ms, eof, i, lost)
    decreases lost - i
  {
    hide Ranges, EofTail, Unreadable, Start, Subframe;
    if i == lost {
      StartMonotone(ms, lost, lost + 1);
      ScanSkips(got, Start(ms, lost), Start(ms, lost + 1));
      SuffixScan(got, sent, Start(ms, lost + 1));
      RangesOfLaid(sent, ms, eof, capacity, lost + 1);
    } else {
      Resynchronises(sent, got, ms, eof, capacity, i + 1, lost);
      StartMonotone(ms, i, lost);
      SubframeBound(sent, ms, eof, i);
      SubframeIntact(sent, got, ms, eof, i);
      SubframeStep(got, ms, eof, i);
    }
  }

  // ---- S-MPDUs ----

  /** Exactly one MPDU, with the EOF flag set. */
  function IsSMpdu(psdu: seq<Octet>): bool {
    var f := Ranges(psdu, 0);
    |f| == 1 && f[0].eof
  }

  lemma {:induction false} AllNonempty(ms: seq<seq<Octet>>, i: nat)
    requires i <= |ms| && forall k | 0 <= k < |ms| :: |ms[k]| > 0
    ensures |Nonempty(ms, i)| == |ms| - i
    decreases |ms| - i
  {
    if i < |ms| {
      AllNonempty(ms, i + 1);
    }
  }

  /** A received A-MPDU counts as an S-MPDU exactly when it was built as one, however its MPDU
      bodies were damaged: what decides between Ack and BlockAck is never in a body. */
  lemma {:induction false} KindSurvives(sent: seq<Octet>, got: seq<Octet>, ms: seq<seq<Octet>>, eof: bool, capacity: nat)
    requires Laid(sent, ms, eof, capacity) && |ms| > 0 && (eof ==> |ms| == 1)
    requires forall k | 0 <= k < |ms| :: 0 < |ms[k]| <= MAX_MPDU_LEN
    requires SameOutside(sent, got, Ranges(sent, 0), 0)
    ensures IsSMpdu(got) <==> eof
    ensures |Ranges(got, 0)| == |ms|
  {
    hide Laid, Ranges, SameOutside;
    AggregateRoundTrip(sent, ms, eof, capacity);
    AllNonempty(ms, 0);
    BodiesDoNotMatter(sent, got, 0);
  }
}

/** `decode_data` of crates/s2g-phy/src/ldpc.rs: rebuilding each codeword's channel LLRs
    (shortening, puncturing, repetition) and decoding it. */
module LdpcReceive {
  import opened Params
  import opened Llr
  import opened LdpcCode
  import opened LdpcDecoder
  import opened LdpcSoundness
  import opened LdpcPpdu
  import opened LdpcData

  // ---- Channel LLRs of one codeword ----

  function MaxAbs(rx: seq<real>, n: nat): (m: real)
    requires n <= |rx|
    ensures m >= 0.0
  {
    if n == 0 then 0.0
    else
      var m := MaxAbs(rx, n - 1);
      if m < Abs(rx[n - 1]) then Abs(rx[n - 1]) else m
  }

  /** LLR given to a shortened bit, a known zero. */
  function KnownZero(rx: seq<real>): (z: real)
    ensures z > 0.0
  {
    var m := 16.0 * MaxAbs(rx, |rx|);
    if m < 1000.0 then 1000.0 else m
  }

  /** Received bits in their places, known zeros for shortened bits, nothing for punctured ones. */
  function Placed(p: PpduParams, rx: seq<real>, j: nat): (l: seq<real>)
    requires Balanced(p) && j < p.nCw && |rx| == BaseLen(p, j) + RepOf(p, j)
    ensures |l| == p.l
  {
    rx[..InfoLen(p, j)] + seq(ShrtOf(p, j), _ => KnownZero(rx))
    + rx[InfoLen(p, j)..BaseLen(p, j)] + seq(PuncOf(p, j), _ => 0.0)
  }

  /** The first `n` repeated bits added to the bits they repeat. */
  function Combined(p: PpduParams, rx: seq<real>, j: nat, n: nat): (l: seq<real>)
    requires Balanced(p) && j < p.nCw && |rx| == BaseLen(p, j) + RepOf(p, j) && n <= RepOf(p, j)
    ensures |l| == p.l
  {
    if n == 0 then Placed(p, rx, j)
    else
      SegmentInside(p, j);
      var l := Combined(p, rx, j, n - 1);
      var v := SourceIndex(p, j, RepeatSource(n - 1, BaseLen(p, j)));
      l[v := l[v] + rx[BaseLen(p, j) + n - 1]]
  }

  function ChannelLlrs(p: PpduParams, rx: seq<real>, j: nat): (l: seq<real>)
    requires Balanced(p) && j < p.nCw && |rx| == BaseLen(p, j) + RepOf(p, j)
    ensures |l| == p.l
  {
    Combined(p, rx, j, RepOf(p, j))
  }

  // ---- The decoder ----

  /** The received LLRs of codeword `j`. */
  function Segment(p: PpduParams, llrs: seq<real>, j: nat): (rx: seq<real>)
    requires Balanced(p) && j < p.nCw && |llrs| == p.nAvbits
    ensures |rx| == BaseLen(p, j) + RepOf(p, j)
  {
    SegmentInside(p, j);
    llrs[TxPos(p, j)..TxPos(p, j + 1)]
  }

  ghost function DecodedWord(p: PpduParams, c: Code, llrs: seq<real>, maxIter: nat, j: nat): (r: (seq<Bit>, bool))
    requires Balanced(p) && Suits(p, c) && j < p.nCw && |llrs| == p.nAvbits
    ensures |r.0| == p.l
  {
    Decoded(c, ChannelLlrs(p, Segment(p, llrs, j), j), maxIter)
  }

  /** Data bits of the first `n` codewords. */
  ghost function DataTo(p: PpduParams, c: Code, llrs: seq<real>, maxIter: nat, n: nat): (data: seq<Bit>)
    requires Balanced(p) && Suits(p, c) && n <= p.nCw && |llrs| == p.nAvbits
    ensures |data| == InfoPos(p, n)
  {
    if n == 0 then [] else DataTo(p, c, llrs, maxIter, n - 1) + DecodedWord(p, c, llrs, maxIter, n - 1).0[..InfoLen(p, n - 1)]
  }

  /** How many of the first `n` codewords ended with a nonzero syndrome. */
  ghost function FailuresTo(p: PpduParams, c: Code, llrs: seq<real>, maxIter: nat, n: nat): nat
    requires Balanced(p) && Suits(p, c) && n <= p.nCw && |llrs| == p.nAvbits
  {
    if n == 0 then 0
    else FailuresTo(p, c, llrs, maxIter, n - 1) + (if DecodedWord(p, c, llrs, maxIter, n - 1).1 then 0 else 1)
  }

  method DecodeData(p: PpduParams, c: Code, llrs: seq<real>, maxIter: nat) returns (out: seq<Bit>, failures: nat)
    requires Balanced(p) && Suits(p, c) && |llrs| == p.nAvbits
    ensures |out| == p.nPld && out == DataTo(p, c, llrs, maxIter, p.nCw)
    ensures failures == FailuresTo(p, c, llrs, maxIter, p.nCw)
  {
    hide Balanced, Suits, Decoded, ChannelLlrs, Segment, BaseLen, InfoLen, RepOf;
    SuitsParts(p, c);
    out, failures := [], 0;
    var pos := 0;
    for j := 0 to p.nCw
      invariant pos == TxPos(p, j)
      invariant out == DataTo(p, c, llrs, maxIter, j) && failures == FailuresTo(p, c, llrs, maxIter, j)
    {
      SegmentInside(p, j);
      var rx := llrs[pos..pos + BaseLen(p, j) + RepOf(p, j)];
      assert rx == Segment(p, llrs, j) by { SegmentSlice(p, llrs, j); }
      pos := pos + BaseLen(p, j) + RepOf(p, j);
      var l := BuildLlrs(p, rx, j);
      var bits, ok := Decode(c, l, maxIter);
      if !ok {
        failures := failures + 1;
      }
      out := out + bits[..InfoLen(p, j)];
    }
    PositionsClose(p);
  }

  lemma {:induction false} SuitsParts(p: PpduParams, c: Code)
    requires Suits(p, c)
    ensures c.Valid() && c.N() == p.l && c.K() == p.K() && DegreeTwo(c)
  {
  }

  lemma {:induction false} SegmentSlice(p: PpduParams, llrs: seq<real>, j: nat)
    requires Balanced(p) && j < p.nCw && |llrs| == p.nAvbits
    ensures TxPos(p, j) + BaseLen(p, j) + RepOf(p, j) <= |llrs|
    ensures Segment(p, llrs, j) == llrs[TxPos(p, j)..TxPos(p, j) + BaseLen(p, j) + RepOf(p, j)]
  {
    SegmentInside(p, j);
  }

  method BuildLlrs(p: PpduParams, rx: seq<real>, j: nat) returns (l: seq<real>)
    requires Balanced(p) && j < p.nCw && |rx| == BaseLen(p, j) + RepOf(p, j)
    ensures l == ChannelLlrs(p, rx, j)
  {
    hide Balanced, SourceIndex, Placed;
    SegmentInside(p, j);
    var maxAbs := 0.0;
    for i := 0 to |rx|
      invariant maxAbs == MaxAbs(rx, i)
    {
      if maxAbs < Abs(rx[i]) {
        maxAbs := Abs(rx[i]);
      }
    }
    var knownZero := if 16.0 * maxAbs < 1000.0 then 1000.0 else 16.0 * maxAbs;
    l := PlaceLlrs(p, rx, j, knownZero);
    for i := 0 to RepOf(p, j)
      invariant l == Combined(p, rx, j, i)
    {
      var v := SourceIndex(p, j, RepeatSource(i, BaseLen(p, j)));
      l := l[v := l[v] + rx[BaseLen(p, j) + i]];
    }
  }

  /** The copies and fills into a zeroed vector of one codeword. */
  method PlaceLlrs(p: PpduParams, rx: seq<real>, j: nat, knownZero: real) returns (l: seq<real>)
    requires Balanced(p) && j < p.nCw && |rx| == BaseLen(p, j) + RepOf(p, j)
    requires knownZero == KnownZero(rx)
    ensures l == Placed(p, rx, j)
  {
    hide KnownZero, ShrtOf, PuncOf, RepOf;
    var (k, info, base) := (p.K(), InfoLen(p, j), BaseLen(p, j));
    CodewordBits(p.nCw, p.l, p.rate);
    var a := new real[p.l](_ => 0.0);
    for i := 0 to info
      invariant forall v | 0 <= v < i :: a[v] == rx[v]
      invariant forall v | i <= v < p.l :: a[v] == 0.0
    {
      a[i] := rx[i];
    }
    for i := info to k
      invariant forall v | 0 <= v < info :: a[v] == rx[v]
      invariant forall v | info <= v < i :: a[v] == knownZero
      invariant forall v | i <= v < p.l :: a[v] == 0.0
    {
      a[i] := knownZero;
    }
    for i := 0 to base - info
      invariant forall v | 0 <= v < info :: a[v] == rx[v]
      invariant forall v | info <= v < k :: a[v] == knownZero
      invariant forall v | k <= v < k + i :: a[v] == rx[info + (v - k)]
      invariant forall v | k + i <= v < p.l :: a[v] == 0.0
    {
      a[k + i] := rx[info + i];
    }
    l := a[..];
  }

  // ---- Soundness ----

  lemma {:induction false} PlaceRight(p: PpduParams, c: Code, data: seq<Bit>, word: seq<Bit>, rx: seq<real>, j: nat, v: nat)
    requires Balanced(p) && Suits(p, c) && |data| == p.nPld && j < p.nCw && v < p.l
    requires SystematicCodeword(c, InfoOf(p, data, j), word) && |word| == p.l
    requires |rx| == BaseLen(p, j) + RepOf(p, j)
    requires forall i | 0 <= i < BaseLen(p, j) :: Toward(rx[i], BaseBits(p, word, j)[i]) > 0.0
    ensures Toward(Placed(p, rx, j)[v], word[v]) >= 0.0 && (v < p.K() ==> Placed(p, rx, j)[v] != 0.0)
  {
    hide KnownZero, SatisfiesChecks;
    var info := InfoLen(p, j);
    SegmentInside(p, j);
    if v < info {
      assert word[v] == BaseBits(p, word, j)[v];
    } else if v < p.K() {
      assert word[v] == InfoOf(p, data, j)[v];
    } else if v < p.K() + ParityLen(p, j) {
      assert word[v] == BaseBits(p, word, j)[info + (v - p.K())];
    }
  }

  lemma {:induction false} PlacedRight(p: PpduParams, c: Code, data: seq<Bit>, word: seq<Bit>, rx: seq<real>, j: nat)
    requires Balanced(p) && Suits(p, c) && |data| == p.nPld && j < p.nCw
    requires SystematicCodeword(c, InfoOf(p, data, j), word) && |word| == p.l
    requires |rx| == BaseLen(p, j) + RepOf(p, j)
    requires forall i | 0 <= i < BaseLen(p, j) :: Toward(rx[i], BaseBits(p, word, j)[i]) > 0.0
    ensures NoneWrong(Placed(p, rx, j), word)
    ensures forall v | 0 <= v < p.K() :: Placed(p, rx, j)[v] != 0.0
  {
    hide Suits, SystematicCodeword, BaseBits;
    SegmentInside(p, j);
    forall v | 0 <= v < p.l
      ensures Toward(Placed(p, rx, j)[v], word[v]) >= 0.0 && (v < p.K() ==> Placed(p, rx, j)[v] != 0.0)
    {
      PlaceRight(p, c, data, word, rx, j, v);
    }
  }

  /** Repeated bit `i` has the sign of the bit it repeats. */
  ghost predicate RepeatRight(p: PpduParams, word: seq<Bit>, rx: seq<real>, j: nat, i: nat)
    requires Balanced(p) && j < p.nCw && |word| == p.l
  {
    && BaseLen(p, j) > 0 && BaseLen(p, j) + i < |rx|
    && Toward(rx[BaseLen(p, j) + i], BaseBits(p, word, j)[RepeatSource(i, BaseLen(p, j))]) > 0.0
  }

  /** Repeated bits only strengthen the evidence for the bits they repeat. */
  lemma {:induction false} CombinedRight(p: PpduParams, word: seq<Bit>, rx: seq<real>, j: nat, n: nat)
    requires Balanced(p) && j < p.nCw && |word| == p.l
    requires |rx| == BaseLen(p, j) + RepOf(p, j) && n <= RepOf(p, j)
    requires NoneWrong(Placed(p, rx, j), word)
    requires forall v | 0 <= v < p.K() :: Placed(p, rx, j)[v] != 0.0
    requires forall i | 0 <= i < RepOf(p, j) :: RepeatRight(p, word, rx, j, i)
    ensures NoneWrong(Combined(p, rx, j, n), word)
    ensures forall v | 0 <= v < p.K() :: Combined(p, rx, j, n)[v] != 0.0
  {
    hide RepeatSource, Placed, Balanced;
    if n > 0 {
      CombinedRight(p, word, rx, j, n - 1);
      var (base, l) := (BaseLen(p, j), Combined(p, rx, j, n - 1));
      assert RepeatRight(p, word, rx, j, n - 1);
      var src := RepeatSource(n - 1, base);
      var v := SourceIndex(p, j, src);
      SourceBit(p, word, j, src);
      assert Toward(rx[base + (n - 1)], word[v]) > 0.0;
      assert Toward(l[v], word[v]) >= 0.0;
    }
  }

  lemma {:induction false} SourceBit(p: PpduParams, word: seq<Bit>, j: nat, src: nat)
    requires Balanced(p) && j < p.nCw && |word| == p.l && src < BaseLen(p, j)
    ensures word[SourceIndex(p, j, src)] == BaseBits(p, word, j)[src]
  {
  }

  /** Agreeing LLRs give codeword `j` evidence for every information bit and against none. */
  lemma {:induction false} SegmentEvidence(p: PpduParams, c: Code, data: seq<Bit>, word: seq<Bit>, coded: seq<Bit>, llrs: seq<real>, j: nat)
    requires Balanced(p) && Suits(p, c) && |data| == p.nPld && j < p.nCw
    requires SegmentCarries(p, c, data, word, coded, j)
    requires |llrs| == p.nAvbits && Agrees(llrs, coded)
    ensures var l := ChannelLlrs(p, Segment(p, llrs, j), j);
            NoneWrong(l, word) && forall v | 0 <= v < p.K() :: l[v] != 0.0
  {
    hide Balanced, Combined, BaseBits, RepeatSource, SystematicCodeword, TxPos, Suits, InfoOf;
    SegmentInside(p, j);
    SegmentSlice(p, llrs, j);
    var (rx, base, at) := (Segment(p, llrs, j), BaseLen(p, j), TxPos(p, j));
    forall i | 0 <= i < base
      ensures Toward(rx[i], BaseBits(p, word, j)[i]) > 0.0
    {
      assert rx[i] == llrs[at + i] && coded[at + i] == coded[at..at + base][i];
    }
    forall i | 0 <= i < RepOf(p, j)
      ensures RepeatRight(p, word, rx, j, i)
    {
      assert rx[base + i] == llrs[at + base + i];
    }
    PlacedRight(p, c, data, word, rx, j);
    CombinedRight(p, word, rx, j, RepOf(p, j));
  }

  /** Agreeing LLRs recover the data bits of codeword `j`, for every iteration limit. */
  lemma {:induction false} SegmentDecodes(p: PpduParams, c: Code, data: seq<Bit>, word: seq<Bit>, coded: seq<Bit>, llrs: seq<real>, maxIter: nat, j: nat)
    requires Balanced(p) && Suits(p, c) && |data| == p.nPld && j < p.nCw
    requires SegmentCarries(p, c, data, word, coded, j)
    requires |llrs| == p.nAvbits && Agrees(llrs, coded)
    ensures DecodedWord(p, c, llrs, maxIter, j).0[..InfoLen(p, j)] == InfoOf(p, data, j)[..InfoLen(p, j)]
  {
    hide Balanced, ChannelLlrs, BaseBits, RepeatSource, Decoded, SatisfiesChecks, Suits, DegreeTwo, TxPos, InfoOf, Agrees;
    SuitsParts(p, c);
    SegmentEvidence(p, c, data, word, coded, llrs, j);
    DecodeSound(c, ChannelLlrs(p, Segment(p, llrs, j), j), word, maxIter);
  }

  lemma {:induction false} DataToDecodes(p: PpduParams, c: Code, data: seq<Bit>, words: seq<seq<Bit>>, coded: seq<Bit>,
                                         llrs: seq<real>, maxIter: nat, n: nat)
    requires Balanced(p) && Suits(p, c) && n <= p.nCw && |llrs| == p.nAvbits
    requires Carries(p, c, data, words, coded) && Agrees(llrs, coded)
    ensures InfoPos(p, n) <= |data| && DataTo(p, c, llrs, maxIter, n) == data[..InfoPos(p, n)]
  {
    hide SegmentCarries, DecodedWord, Agrees, Suits, Balanced;
    if n > 0 {
      DataToDecodes(p, c, data, words, coded, llrs, maxIter, n - 1);
      SegmentDecodes(p, c, data, words[n - 1], coded, llrs, maxIter, n - 1);
      SegmentInside(p, n - 1);
      assert InfoOf(p, data, n - 1)[..InfoLen(p, n - 1)] == data[InfoPos(p, n - 1)..InfoPos(p, n)];
      assert data[..InfoPos(p, n)] == data[..InfoPos(p, n - 1)] + data[InfoPos(p, n - 1)..InfoPos(p, n)];
    }
  }

  /** LDPC soundness end to end: if every received LLR has the sign of the coded bit sent, the
      decoder returns exactly the data, whatever was shortened, punctured or repeated and
      however few iterations are allowed. */
  lemma {:induction false} DecodeDataSound(p: PpduParams, c: Code, data: seq<Bit>, words: seq<seq<Bit>>, coded: seq<Bit>,
                        llrs: seq<real>, maxIter: nat)
    requires Balanced(p) && Suits(p, c) && |llrs| == p.nAvbits
    requires Carries(p, c, data, words, coded) && Agrees(llrs, coded)
    ensures DataTo(p, c, llrs, maxIter, p.nCw) == data
  {
    hide SegmentCarries, DataTo, Balanced, Suits, Agrees;
    DataToDecodes(p, c, data, words, coded, llrs, maxIter, p.nCw);
    PositionsClose(p);
    assert data[..|data|] == data;
  }

  /** The flag of a decoding is the syndrome of its bits. */
  lemma {:induction false} FlagIsSyndrome(c: Code, b: Beliefs, iters: nat)
    requires c.Valid() && Fits(c.checks, c.N(), b)
    ensures DecodeFrom(c, b, iters).1 == SatisfiesChecks(c, DecodeFrom(c, b, iters).0)
    decreases iters
  {
    hide SweepTo, SatisfiesChecks, Hard, Fits;
    if iters > 0 {
      FlagIsSyndrome(c, SweepTo(c.checks, c.N(), b, |c.checks|), iters - 1);
    }
  }

  /** The number of failures is that of the codewords whose bits violate a check; in particular it is
      zero if and only if there is none. */
  lemma {:induction false} FailuresCounted(p: PpduParams, c: Code, llrs: seq<real>, maxIter: nat, n: nat)
    requires Balanced(p) && Suits(p, c) && n <= p.nCw && |llrs| == p.nAvbits
    ensures c.Valid()
    ensures FailuresTo(p, c, llrs, maxIter, n) == |set j: nat | j < n && !SatisfiesChecks(c, DecodedWord(p, c, llrs, maxIter, j).0)|
  {
    hide SatisfiesChecks, Balanced, DecodedWord, ChannelLlrs, Segment;
    SuitsParts(p, c);
    if n > 0 {
      FailuresCounted(p, c, llrs, maxIter, n - 1);
      WordFlag(p, c, llrs, maxIter, n - 1);
      var before := set j: nat | j < n - 1 && !SatisfiesChecks(c, DecodedWord(p, c, llrs, maxIter, j).0);
      var now := set j: nat | j < n && !SatisfiesChecks(c, DecodedWord(p, c, llrs, maxIter, j).0);
      assert now == if SatisfiesChecks(c, DecodedWord(p, c, llrs, maxIter, n - 1).0) then before else before + {n - 1};
    }
  }

  lemma {:induction false} WordFlag(p: PpduParams, c: Code, llrs: seq<real>, maxIter: nat, j: nat)
    requires Balanced(p) && Suits(p, c) && j < p.nCw && |llrs| == p.nAvbits
    ensures c.Valid() && DecodedWord(p, c, llrs, maxIter, j).1 == SatisfiesChecks(c, DecodedWord(p, c, llrs, maxIter, j).0)
  {
    hide SatisfiesChecks, Balanced, ChannelLlrs, Segment, DecodeFrom, Initial, Fits;
    SuitsParts(p, c);
    var l := ChannelLlrs(p, Segment(p, llrs, j), j);
    InitialFits(c, l);
    FlagIsSyndrome(c, Initial(c.checks, l), maxIter);
  }
}

/** NDP CMAC PPDU bodies of 37 bits, acknowledgment identifiers and block-ack bitmaps
    (crates/s2g-mac/src/ndp.rs and the users of bitmaps in crates/s2g-mac/src/engine.rs). */
module Ndp {
  import opened Words

  // ---- Bit fields ----

  /** Bits `lo` to `lo + n - 1` of a word as a number. */
  function GetField(w: nat, lo: nat, n: nat): nat {
    if n == 0 then 0 else SetBit(GetField(w, lo, n - 1), n - 1, GetBit(w, lo + n - 1))
  }

  /** Replace bits `lo` to `lo + n - 1` by the low `n` bits of `v`. */
  function PutField(w: nat, lo: nat, n: nat, v: nat): nat {
    if n == 0 then w else SetBit(PutField(w, lo, n - 1, v), lo + n - 1, GetBit(v, n - 1))
  }

  lemma {:induction false} PutBits(w: nat, lo: nat, n: nat, v: nat, i: nat)
    ensures GetBit(PutField(w, lo, n, v), i) == if lo <= i < lo + n then GetBit(v, i - lo) else GetBit(w, i)
  {
    hide GetBit, SetBit;
    if n > 0 {
      PutBits(w, lo, n - 1, v, i);
      SetBitGet(PutField(w, lo, n - 1, v), lo + n - 1, GetBit(v, n - 1), i);
    }
  }

  lemma {:induction false} PutWidth(w: nat, lo: nat, n: nat, v: nat, width: nat)
    requires w < Pow2(width) && lo + n <= width
    ensures PutField(w, lo, n, v) < Pow2(width)
  {
    hide GetBit, SetBit, Pow2;
    if n > 0 {
      PutWidth(w, lo, n - 1, v, width);
      SetBitWidth(PutField(w, lo, n - 1, v), lo + n - 1, GetBit(v, n - 1), width);
    }
  }

  lemma {:induction false} GetBits(w: nat, lo: nat, n: nat)
    ensures GetField(w, lo, n) < Pow2(n)
    ensures forall i | 0 <= i < n :: GetBit(GetField(w, lo, n), i) == GetBit(w, lo + i)
  {
    hide GetBit, SetBit;
    if n > 0 {
      GetBits(w, lo, n - 1);
      SetBitWidth(GetField(w, lo, n - 1), n - 1, GetBit(w, lo + n - 1), n);
      forall i | 0 <= i < n
        ensures GetBit(GetField(w, lo, n), i) == GetBit(w, lo + i)
      {
        SetBitGet(GetField(w, lo, n - 1), n - 1, GetBit(w, lo + n - 1), i);
      }
    }
  }

  /** A field whose bits are those of `v` reads back as the low bits of `v`. */
  lemma {:induction false} FieldIs(w: nat, lo: nat, n: nat, v: nat)
    requires v < Pow2(n) && forall i | 0 <= i < n :: GetBit(w, lo + i) == GetBit(v, i)
    ensures GetField(w, lo, n) == v
  {
    hide GetBit, Pow2, GetField;
    GetBits(w, lo, n);
    BitsDetermine(GetField(w, lo, n), v, n);
  }

  /** Reading what was just written. */
  lemma {:induction false} GetPut(w: nat, lo: nat, n: nat, v: nat)
    requires v < Pow2(n)
    ensures GetField(PutField(w, lo, n, v), lo, n) == v
  {
    hide GetBit, Pow2, PutField;
    forall i | 0 <= i < n
      ensures GetBit(PutField(w, lo, n, v), lo + i) == GetBit(v, i)
    {
      PutBits(w, lo, n, v, lo + i);
    }
    FieldIs(PutField(w, lo, n, v), lo, n, v);
  }

  /** Reading past a write elsewhere. */
  lemma {:induction false} GetPutOther(w: nat, lo: nat, n: nat, v: nat, at: nat, m: nat)
    requires at + m <= lo || lo + n <= at
    ensures GetField(PutField(w, lo, n, v), at, m) == GetField(w, at, m)
  {
    hide GetBit, PutField, SetBit;
    if m > 0 {
      GetPutOther(w, lo, n, v, at, m - 1);
      PutBits(w, lo, n, v, at + m - 1);
    }
  }

  /** Exclusive or of two words of `n` bits. */
  function XorField(a: nat, b: nat, n: nat): nat {
    if n == 0 then 0 else SetBit(XorField(a, b, n - 1), n - 1, GetBit(a, n - 1) != GetBit(b, n - 1))
  }

  lemma {:induction false} XorBits(a: nat, b: nat, n: nat)
    ensures XorField(a, b, n) < Pow2(n)
    ensures forall i | 0 <= i < n :: GetBit(XorField(a, b, n), i) == (GetBit(a, i) != GetBit(b, i))
  {
    hide GetBit, SetBit;
    if n > 0 {
      XorBits(a, b, n - 1);
      SetBitWidth(XorField(a, b, n - 1), n - 1, GetBit(a, n - 1) != GetBit(b, n - 1), n);
      forall i | 0 <= i < n
        ensures GetBit(XorField(a, b, n), i) == (GetBit(a, i) != GetBit(b, i))
      {
        SetBitGet(XorField(a, b, n - 1), n - 1, GetBit(a, n - 1) != GetBit(b, n - 1), i);
      }
    }
  }

  // ---- Frames ----

  const TYPE_CTS: nat := 0
  const TYPE_PS_POLL: nat := 1
  const TYPE_ACK: nat := 2
  const TYPE_BLOCK_ACK: nat := 4
  const TYPE_BF_REPORT_POLL: nat := 5
  const TYPE_PROBE_REQUEST: nat := 7

  datatype NdpFrame =
    | Cts(addressIndicator: bool, raPbssid: nat, durationUs: nat, early: bool, bandwidth: nat)
    | Ack(ackId: nat, moreData: bool, idleIndication: bool, duration: nat, relayed: bool)
    | BlockAck(blockAckId: nat, ssn: nat, bitmap: nat)
    | Other(ndpType: nat, body: nat)
  {
    /** Every subfield is within its width. */
    predicate Fits() {
      match this
      case Cts(_, ra, d, _, bw) => ra < 0x200 && d < 0x8000 && bw < 8
      case Ack(id, _, _, d, _) => id < 0x1_0000 && d < 0x4000
      case BlockAck(id, s, bm) => id < 0x40 && s < 0x1000 && bm < 0x1_0000
      case Other(_, _) => true
    }
  }

  function Bit(b: bool): nat {
    if b then 1 else 0
  }

  function Low37(body: nat): nat {
    GetField(body, 0, 37)
  }

  /** Unprotected block-ack body: ID, starting sequence number and bitmap. */
  function PlainBlockAck(id: nat, ssn: nat, bitmap: nat): nat {
    PutField(PutField(PutField(PutField(0, 0, 3, TYPE_BLOCK_ACK), 3, 6, id), 9, 12, ssn), 21, 16, bitmap)
  }

  /** Bits 3 to 18 exclusive-ored with the bitmap in bits 21 to 36. */
  function Protect(body: nat, bitmap: nat): nat {
    PutField(body, 3, 16, XorField(GetField(body, 3, 16), bitmap, 16))
  }

  function ToBody(f: NdpFrame): nat {
    match f
    case Cts(ai, ra, d, early, bw) =>
      PutField(PutField(PutField(PutField(PutField(PutField(PutField(0, 0, 3, TYPE_CTS), 3, 1, 0), 4, 1, Bit(ai)),
                                          5, 9, ra), 14, 15, d), 29, 1, Bit(early)), 30, 3, bw)
    case Ack(id, more, idle, d, relayed) =>
      PutField(PutField(PutField(PutField(PutField(PutField(0, 0, 3, TYPE_ACK), 3, 16, id), 19, 1, Bit(more)),
                                 20, 1, Bit(idle)), 21, 14, d), 35, 1, Bit(relayed))
    case BlockAck(id, ssn, bitmap) => Protect(PlainBlockAck(id, ssn, bitmap), bitmap)
    case Other(_, body) => Low37(body)
  }

  function Parse(raw: nat): NdpFrame {
    var body := Low37(raw);
    var t := GetField(body, 0, 3);
    if t == TYPE_CTS && GetField(body, 3, 1) == 0 then
      Cts(GetField(body, 4, 1) == 1, GetField(body, 5, 9), GetField(body, 14, 15), GetField(body, 29, 1) == 1, GetField(body, 30, 3))
    else if t == TYPE_ACK then
      Ack(GetField(body, 3, 16), GetField(body, 19, 1) == 1, GetField(body, 20, 1) == 1, GetField(body, 21, 14), GetField(body, 35, 1) == 1)
    else if t == TYPE_BLOCK_ACK then
      var bitmap := GetField(body, 21, 16);
      var plain := Protect(body, bitmap);
      BlockAck(GetField(plain, 3, 6), GetField(plain, 9, 12), bitmap)
    else Other(t, body)
  }

  // ---- Round trips ----

  lemma {:induction false} Widths()
    ensures Pow2(0) == 1 && Pow2(1) == 2 && Pow2(3) == 8 && Pow2(6) == 64 && Pow2(9) == 0x200 && Pow2(12) == 0x1000
    ensures Pow2(14) == 0x4000 && Pow2(15) == 0x8000 && Pow2(16) == 0x1_0000
  {
    assert Pow2(4) == 16 && Pow2(8) == 256;
    assert Pow2(12) == 16 * Pow2(8);
  }

  lemma {:induction false} Low37Is(body: nat)
    requires body < Pow2(37)
    ensures Low37(body) == body
  {
    hide GetBit, Pow2, GetField;
    FieldIs(body, 0, 37, body);
  }

  /** One written field: it reads back, every field elsewhere is as before, and the body
      keeps its 37 bits. */
  lemma {:induction false} Field(w: nat, lo: nat, n: nat, v: nat)
    requires v < Pow2(n) && lo + n <= 37 && w < Pow2(37)
    ensures GetField(PutField(w, lo, n, v), lo, n) == v
    ensures forall at: nat, m: nat | at + m <= lo || lo + n <= at :: GetField(PutField(w, lo, n, v), at, m) == GetField(w, at, m)
    ensures PutField(w, lo, n, v) < Pow2(37)
  {
    hide GetField, PutField, Pow2;
    GetPut(w, lo, n, v);
    PutWidth(w, lo, n, v, 37);
    forall at: nat, m: nat | at + m <= lo || lo + n <= at
      ensures GetField(PutField(w, lo, n, v), at, m) == GetField(w, at, m)
    {
      GetPutOther(w, lo, n, v, at, m);
    }
  }

  lemma {:induction false} CtsRoundTrip(f: NdpFrame)
    requires f.Cts? && f.Fits()
    ensures Parse(ToBody(f)) == f && ToBody(f) < Pow2(37)
  {
    hide GetField, PutField, Pow2;
    Widths();
    var b0 := PutField(0, 0, 3, TYPE_CTS);
    var b1 := PutField(b0, 3, 1, 0);
    var b2 := PutField(b1, 4, 1, Bit(f.addressIndicator));
    var b3 := PutField(b2, 5, 9, f.raPbssid);
    var b4 := PutField(b3, 14, 15, f.durationUs);
    var b5 := PutField(b4, 29, 1, Bit(f.early));
    Field(0, 0, 3, TYPE_CTS);
    Field(b0, 3, 1, 0);
    Field(b1, 4, 1, Bit(f.addressIndicator));
    Field(b2, 5, 9, f.raPbssid);
    Field(b3, 14, 15, f.durationUs);
    Field(b4, 29, 1, Bit(f.early));
    Field(b5, 30, 3, f.bandwidth);
    Low37Is(PutField(b5, 30, 3, f.bandwidth));
  }

  lemma {:induction false} AckRoundTrip(f: NdpFrame)
    requires f.Ack? && f.Fits()
    ensures Parse(ToBody(f)) == f && ToBody(f) < Pow2(37)
  {
    hide GetField, PutField, Pow2;
    Widths();
    var b0 := PutField(0, 0, 3, TYPE_ACK);
    var b1 := PutField(b0, 3, 16, f.ackId);
    var b2 := PutField(b1, 19, 1, Bit(f.moreData));
    var b3 := PutField(b2, 20, 1, Bit(f.idleIndication));
    var b4 := PutField(b3, 21, 14, f.duration);
    Field(0, 0, 3, TYPE_ACK);
    Field(b0, 3, 16, f.ackId);
    Field(b1, 19, 1, Bit(f.moreData));
    Field(b2, 20, 1, Bit(f.idleIndication));
    Field(b3, 21, 14, f.duration);
    Field(b4, 35, 1, Bit(f.relayed));
    Low37Is(PutField(b4, 35, 1, Bit(f.relayed)));
  }

  lemma {:induction false} BlockAckRoundTrip(f: NdpFrame)
    requires f.BlockAck? && f.Fits()
    ensures Parse(ToBody(f)) == f && ToBody(f) < Pow2(37)
  {
    hide GetField, PutField, Pow2, XorField;
    Widths();
    var b0 := PutField(0, 0, 3, TYPE_BLOCK_ACK);
    var b1 := PutField(b0, 3, 6, f.blockAckId);
    var b2 := PutField(b1, 9, 12, f.ssn);
    var b3 := PutField(b2, 21, 16, f.bitmap);
    Field(0, 0, 3, TYPE_BLOCK_ACK);
    Field(b0, 3, 6, f.blockAckId);
    Field(b1, 9, 12, f.ssn);
    Field(b2, 21, 16, f.bitmap);
    XorBits(GetField(b3, 3, 16), f.bitmap, 16);
    Field(b3, 3, 16, XorField(GetField(b3, 3, 16), f.bitmap, 16));
    Low37Is(Protect(b3, f.bitmap));
    ProtectTwice(b3, f.bitmap, 3, 6);
    ProtectTwice(b3, f.bitmap, 9, 12);
  }

  /** Protection is undone by applying it again with the same bitmap, also for a field that lies
      only partly in the protected range. */
  lemma {:induction false} ProtectTwice(body: nat, bitmap: nat, at: nat, m: nat)
    ensures GetField(Protect(Protect(body, bitmap), bitmap), at, m) == GetField(body, at, m)
  {
    hide GetField, PutField, Pow2, XorField, GetBit, Protect;
    var twice := Protect(Protect(body, bitmap), bitmap);
    GetBits(body, at, m);
    forall i | 0 <= i < m
      ensures GetBit(twice, at + i) == GetBit(GetField(body, at, m), i)
    {
      ProtectedBit(body, bitmap, at + i);
    }
    FieldIs(twice, at, m, GetField(body, at, m));
  }

  lemma {:induction false} ProtectedBit(body: nat, bitmap: nat, i: nat)
    ensures GetBit(Protect(Protect(body, bitmap), bitmap), i) == GetBit(body, i)
  {
    hide GetField, PutField, Pow2, XorField, GetBit;
    var once := XorField(GetField(body, 3, 16), bitmap, 16);
    var b1 := PutField(body, 3, 16, once);
    PutBits(body, 3, 16, once, i);
    PutBits(b1, 3, 16, XorField(GetField(b1, 3, 16), bitmap, 16), i);
    GetBits(body, 3, 16);
    GetBits(b1, 3, 16);
    XorBits(GetField(body, 3, 16), bitmap, 16);
    XorBits(GetField(b1, 3, 16), bitmap, 16);
    if 3 <= i < 19 {
      PutBits(body, 3, 16, once, 3 + (i - 3));
      assert GetBit(GetField(b1, 3, 16), i - 3) == GetBit(b1, 3 + (i - 3));
      assert GetBit(GetField(body, 3, 16), i - 3) == GetBit(body, 3 + (i - 3));
    }
  }

  /** Protection is the exclusive or of bits 3 to 18 with the bitmap, and of no others. */
  lemma {:induction false} ProtectBits(body: nat, bitmap: nat, i: nat)
    ensures GetBit(Protect(body, bitmap), i) == (GetBit(body, i) != (3 <= i < 19 && GetBit(bitmap, i - 3)))
  {
    hide GetField, PutField, Pow2, XorField, GetBit;
    PutBits(body, 3, 16, XorField(GetField(body, 3, 16), bitmap, 16), i);
    GetBits(body, 3, 16);
    XorBits(GetField(body, 3, 16), bitmap, 16);
    if 3 <= i < 19 {
      PutBits(body, 3, 16, XorField(GetField(body, 3, 16), bitmap, 16), 3 + (i - 3));
      assert GetBit(GetField(body, 3, 16), i - 3) == GetBit(body, 3 + (i - 3));
    }
  }

  /** Every CTS, Ack and BlockAck whose subfields fit survives serialisation, bitmap protection
      included, and no other one does: a subfield that does not fit is truncated. */
  lemma {:induction false} FrameRoundTrip(f: NdpFrame)
    requires !f.Other?
    ensures Parse(ToBody(f)) == f <==> f.Fits()
    ensures f.Fits() ==> ToBody(f) < Pow2(37)
  {
    hide ToBody, Parse, Pow2;
    if f.Fits() {
      match f
      case Cts(_, _, _, _, _) => CtsRoundTrip(f);
      case Ack(_, _, _, _, _) => AckRoundTrip(f);
      case BlockAck(_, _, _) => BlockAckRoundTrip(f);
    } else {
      ParseFits(ToBody(f));
    }
  }

  lemma {:induction false} ParseFits(raw: nat)
    ensures Parse(raw).Fits()
  {
    hide GetField, GetBit, Pow2, Protect;
    var body := Low37(raw);
    Widths();
    GetBits(body, 5, 9);
    GetBits(body, 14, 15);
    GetBits(body, 30, 3);
    GetBits(body, 3, 16);
    GetBits(body, 21, 14);
    GetBits(body, 21, 16);
    var plain := Protect(body, GetField(body, 21, 16));
    GetBits(plain, 3, 6);
    GetBits(plain, 9, 12);
  }

  // ---- Acknowledgment identifiers ----

  /** Seed bits 0 to 6, then bits 23 to 31 of the frame check sequence. */
  function AckId(seed: nat, fcs: nat): nat {
    PutField(GetField(seed, 0, 7), 7, 9, GetField(fcs, 23, 9))
  }

  /** The same, bit by bit over the four octets of the frame check sequence. */
  method ComputeAckId(seed: nat, fcs: nat) returns (id: nat)
    ensures id == AckId(seed, fcs)
  {
    hide GetBit, SetBit;
    id := GetField(seed, 0, 7);
    GetBits(fcs, 23, 9);
    for j := 0 to 9
      invariant id == PutField(GetField(seed, 0, 7), 7, j, GetField(fcs, 23, 9))
    {
      var bit := GetBit(fcs, 23 + j);
      id := SetBit(id, 7 + j, bit);
    }
  }

  lemma {:induction false} AckIdFits(seed: nat, fcs: nat)
    ensures AckId(seed, fcs) < 0x1_0000
  {
    hide GetField, PutField, GetBit, Pow2;
    Widths();
    GetBits(seed, 0, 7);
    PowGrows(7, 16);
    PutWidth(GetField(seed, 0, 7), 7, 9, GetField(fcs, 23, 9), 16);
  }

  lemma {:induction false} PowGrows(a: nat, b: nat)
    requires a <= b
    ensures Pow2(a) <= Pow2(b)
  {
    if a < b {
      PowGrows(a, b - 1);
    }
  }

  /** Two frames share an Ack ID exactly when seeds agree in seven bits and check sequences in nine. */
  lemma {:induction false} AckIdCollides(s: nat, f: nat, t: nat, g: nat)
    ensures AckId(s, f) == AckId(t, g) <==> GetField(s, 0, 7) == GetField(t, 0, 7) && GetField(f, 23, 9) == GetField(g, 23, 9)
  {
    hide GetField, PutField, GetBit, Pow2;
    GetBits(f, 23, 9);
    GetBits(g, 23, 9);
    GetPut(GetField(s, 0, 7), 7, 9, GetField(f, 23, 9));
    GetPut(GetField(t, 0, 7), 7, 9, GetField(g, 23, 9));
    GetPutOther(GetField(s, 0, 7), 7, 9, GetField(f, 23, 9), 0, 7);
    GetPutOther(GetField(t, 0, 7), 7, 9, GetField(g, 23, 9), 0, 7);
    GetBits(s, 0, 7);
    GetBits(t, 0, 7);
    FieldIs(GetField(s, 0, 7), 0, 7, GetField(s, 0, 7));
    FieldIs(GetField(t, 0, 7), 0, 7, GetField(t, 0, 7));
  }

  /** Six bits of the seed. */
  function BlockAckId(seed: nat): nat {
    GetField(seed, 0, 6)
  }

  // ---- Block-ack bitmaps ----

  const SEQ_MOD: nat := 4096

  /** `a - b` in 12-bit sequence numbers. */
  function SeqDiff(a: nat, b: nat): (d: nat)
    ensures d < SEQ_MOD
  {
    (a - b) % SEQ_MOD
  }

  /** Bitmap after the first `n` received sequence numbers: bit `d` stands for `ssn + d`. */
  function BitmapTo(seqs: seq<nat>, ssn: nat, n: nat): nat
    requires n <= |seqs|
  {
    if n == 0 then 0
    else
      var b := BitmapTo(seqs, ssn, n - 1);
      var d := SeqDiff(seqs[n - 1], ssn);
      if d < 16 then SetBit(b, d, true) else b
  }

  /** The receiver's block ack for the sequence numbers it decoded, the first one leading. */
  function BlockAckFor(seed: nat, seqs: seq<nat>): NdpFrame
    requires |seqs| > 0
  {
    BlockAck(BlockAckId(seed), seqs[0] % SEQ_MOD, BitmapTo(seqs, seqs[0], |seqs|))
  }

  /** Whether the sender takes `s` as acknowledged. */
  predicate Acknowledges(f: NdpFrame, s: nat)
    requires f.BlockAck?
  {
    var d := SeqDiff(s, f.ssn);
    d < 16 && GetBit(f.bitmap, d)
  }

  lemma {:induction false} BitmapBits(seqs: seq<nat>, ssn: nat, n: nat, d: nat)
    requires n <= |seqs| && d < 16
    ensures GetBit(BitmapTo(seqs, ssn, n), d) <==> exists i :: 0 <= i < n && SeqDiff(seqs[i], ssn) == d
  {
    hide GetBit, SetBit, SeqDiff;
    if n == 0 {
      ZeroBits(d);
    } else {
      BitmapBits(seqs, ssn, n - 1, d);
      var e := SeqDiff(seqs[n - 1], ssn);
      if e < 16 {
        SetBitGet(BitmapTo(seqs, ssn, n - 1), e, true, d);
      }
      if GetBit(BitmapTo(seqs, ssn, n), d) && e != d {
        var i :| 0 <= i < n - 1 && SeqDiff(seqs[i], ssn) == d;
      }
    }
  }

  lemma {:induction false} BitmapWidth(seqs: seq<nat>, ssn: nat, n: nat)
    requires n <= |seqs|
    ensures BitmapTo(seqs, ssn, n) < Pow2(16)
  {
    hide SetBit;
    if n > 0 {
      BitmapWidth(seqs, ssn, n - 1);
      var d := SeqDiff(seqs[n - 1], ssn);
      if d < 16 {
        SetBitWidth(BitmapTo(seqs, ssn, n - 1), d, true, 16);
      }
    }
  }

  /** Differences of sequence numbers modulo 4096 determine each other. */
  lemma {:induction false} SeqDiffSame(a: nat, b: nat, ssn: nat)
    ensures SeqDiff(a, ssn) == SeqDiff(b, ssn) <==> a % SEQ_MOD == b % SEQ_MOD
    ensures SeqDiff(a, ssn % SEQ_MOD) == SeqDiff(a, ssn)
  {
  }

  /** Acknowledgment agreement: through the wire format, across the 12-bit wrap and the protected
      body, the sender takes as acknowledged exactly the sequence numbers the receiver decoded
      within sixteen of the first one. */
  lemma {:induction false} BlockAckAgreement(seed: nat, seqs: seq<nat>, s: nat)
    requires |seqs| > 0
    ensures var got := Parse(ToBody(BlockAckFor(seed, seqs)));
            && got == BlockAckFor(seed, seqs)
            && (Acknowledges(got, s) <==>
                SeqDiff(s, seqs[0]) < 16 && exists i :: 0 <= i < |seqs| && seqs[i] % SEQ_MOD == s % SEQ_MOD)
  {
    hide Parse, ToBody, BitmapTo, GetBit, GetField, SeqDiff;
    var f := BlockAckFor(seed, seqs);
    Widths();
    GetBits(seed, 0, 6);
    BitmapWidth(seqs, seqs[0], |seqs|);
    FrameRoundTrip(f);
    SeqDiffSame(s, s, seqs[0]);
    var d := SeqDiff(s, seqs[0]);
    if d < 16 {
      BitmapBits(seqs, seqs[0], |seqs|, d);
      forall i | 0 <= i < |seqs|
        ensures SeqDiff(seqs[i], seqs[0]) == d <==> seqs[i] % SEQ_MOD == s % SEQ_MOD
      {
        SeqDiffSame(seqs[i], s, seqs[0]);
      }
    }
  }
}

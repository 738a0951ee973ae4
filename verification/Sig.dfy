/** Bit layout, check and classification of the SIG field (S1G_SHORT) and of the SIG-A field
    (S1G_LONG) for one or several users (crates/s2g-phy/src/sig.rs). */
module Sig {
  import opened Wrappers
  import opened Params
  import opened Words
  import opened Bits

  // ---- Fields ----

  datatype PreambleType = S1gShort | S1gLong

  function ResponseOf(c: nat): ResponseIndication {
    match c % 4 case 0 => NoResponse case 1 => NdpResponse case 2 => NormalResponse case _ => LongResponse
  }

  /** Contents of SIG, or of SIG-A for one user. `b23` is the smoothing bit of SIG and the
      beam-change bit of SIG-A. */
  datatype Fields = Fields(
    stbc: bool, uplink: bool, bandwidth: nat, nsts: nat, id: nat, shortGi: bool, ldpc: bool, ldpcExtra: bool,
    mcs: nat, b23: bool, aggregation: bool, length: nat, response: ResponseIndication, travelingPilots: bool)
  {
    /** Every subfield is within its width. */
    predicate Fits() {
      bandwidth < 4 && nsts < 4 && id < 512 && mcs < 16 && length < 512
    }
  }

  /** Contents of SIG-A for up to four users, each with a number of streams and a coding bit. */
  datatype MuFields = MuFields(
    stbc: bool, nsts: seq<nat>, bandwidth: nat, groupId: nat, shortGi: bool, ldpc: seq<bool>, ldpcExtra: bool, length: nat,
    response: ResponseIndication, travelingPilots: bool)
  {
    predicate FourUsers() {
      |nsts| == |ldpc| == 4
    }

    /** Every subfield is within its width. */
    predicate Fits() {
      FourUsers() && bandwidth < 4 && groupId < 64 && length < 512 && forall u | 0 <= u < 4 :: nsts[u] < 4
    }

    /** The coding bit of an absent user is set. */
    predicate AbsentMarked()
      requires FourUsers()
    {
      forall u | 0 <= u < 4 :: nsts[u] == 0 ==> ldpc[u]
    }
  }

  // ---- Layout ----

  /** Bit `i` of the 38 protected bits; `first` leads and `x`, `y` end them. */
  function LayoutAt(f: Fields, first: Bit, x: Bit, y: Bit, i: nat): Bit {
    if i < 3 then (if i == 0 then first else if i == 1 then f.stbc else f.uplink)
    else if i < 16 then
      (if i < 5 then GetBit(f.bandwidth, i - 3) else if i < 7 then GetBit(f.nsts, i - 5) else GetBit(f.id, i - 7))
    else if i < 19 then (if i == 16 then f.shortGi else if i == 17 then f.ldpc else f.ldpcExtra)
    else if i < 25 then (if i < 23 then GetBit(f.mcs, i - 19) else if i == 23 then f.b23 else f.aggregation)
    else if i < 36 then (if i < 34 then GetBit(f.length, i - 25) else GetBit(f.response.Code(), i - 34))
    else if i == 36 then x else y
  }

  function Layout(f: Fields, first: Bit, x: Bit, y: Bit): (bits: seq<Bit>)
    ensures |bits| == 38 && forall i | 0 <= i < 38 :: bits[i] == LayoutAt(f, first, x, y, i)
  {
    seq(38, i requires 0 <= i < 38 => LayoutAt(f, first, x, y, i))
  }

  function ShortLayout(f: Fields): (bits: seq<Bit>)
    ensures |bits| == 38
  {
    Layout(f, true, f.travelingPilots, false)
  }

  function LongLayout(f: Fields): (bits: seq<Bit>)
    ensures |bits| == 38
  {
    Layout(f, false, true, f.travelingPilots)
  }

  /** Bit `i` of the 38 protected bits for several users. */
  function MuAt(f: MuFields, i: nat): Bit
    requires f.FourUsers()
  {
    if i < 11 then (if i == 0 then true else if i == 1 then f.stbc else if i == 2 then true else GetBit(f.nsts[(i - 3) / 2], (i - 3) % 2))
    else if i < 19 then (if i < 13 then GetBit(f.bandwidth, i - 11) else GetBit(f.groupId, i - 13))
    else if i < 24 then (if i == 19 then f.shortGi else f.ldpc[i - 20] || f.nsts[i - 20] == 0)
    else if i < 26 then (if i == 24 then f.ldpcExtra else true)
    else if i < 37 then (if i < 35 then GetBit(f.length, i - 26) else GetBit(f.response.Code(), i - 35))
    else f.travelingPilots
  }

  function MuLayout(f: MuFields): (bits: seq<Bit>)
    requires f.FourUsers()
    ensures |bits| == 38 && forall i | 0 <= i < 38 :: bits[i] == MuAt(f, i)
  {
    seq(38, i requires 0 <= i < 38 => MuAt(f, i))
  }

  method PushUint(v: seq<Bit>, value: nat, n: nat) returns (out: seq<Bit>)
    ensures out == v + UintBits(value, n)
  {
    out := v;
    for i := 0 to n
      invariant out == v + UintBits(value, i)
    {
      out := out + [GetBit(value, i)];
      assert UintBits(value, i + 1) == UintBits(value, i) + [GetBit(value, i)];
    }
  }

  /** The bits agree with the layout as far as they go. */
  ghost predicate LaidOut(bits: seq<Bit>, f: Fields, first: Bit, x: Bit, y: Bit) {
    |bits| <= 38 && forall i | 0 <= i < |bits| :: bits[i] == LayoutAt(f, first, x, y, i)
  }

  /** The sixteen bits up to the ID. */
  method PushAddress(f: Fields, first: Bit, ghost x: Bit, ghost y: Bit) returns (v: seq<Bit>)
    ensures |v| == 16 && LaidOut(v, f, first, x, y)
  {
    hide GetBit;
    v := [first, f.stbc, f.uplink];
    v := PushUint(v, f.bandwidth, 2);
    v := PushUint(v, f.nsts, 2);
    v := PushUint(v, f.id, 9);
  }

  /** First symbol: 24 bits. */
  method PushFirst(f: Fields, first: Bit, ghost x: Bit, ghost y: Bit) returns (v: seq<Bit>)
    ensures |v| == 24 && LaidOut(v, f, first, x, y)
  {
    hide GetBit;
    v := PushAddress(f, first, x, y);
    v := v + [f.shortGi, f.ldpc, f.ldpcExtra];
    v := PushUint(v, f.mcs, 4);
    v := v + [f.b23];
  }

  /** Second symbol up to the check bits: 14 more. */
  method PushSecond(v0: seq<Bit>, f: Fields, ghost first: Bit, x: Bit, y: Bit) returns (v: seq<Bit>)
    requires |v0| == 24 && LaidOut(v0, f, first, x, y)
    ensures |v| == 38 && LaidOut(v, f, first, x, y)
  {
    hide GetBit;
    v := v0 + [f.aggregation];
    v := PushUint(v, f.length, 9);
    v := PushUint(v, f.response.Code(), 2);
    v := v + [x, y];
  }

  // ---- CRC-4 and tail ----

  datatype Crc4 = Crc4(c3: Bit, c2: Bit, c1: Bit, c0: Bit)
  {
    function Next(b: Bit): Crc4 {
      var fb := b != c3;
      Crc4(c2, c1, c0 != fb, fb)
    }

    function Complement(): (bits: seq<Bit>)
      ensures |bits| == 4
    {
      [!c3, !c2, !c1, !c0]
    }
  }

  function CrcTo(bits: seq<Bit>, n: nat): Crc4
    requires n <= |bits|
  {
    if n == 0 then Crc4(true, true, true, true) else CrcTo(bits, n - 1).Next(bits[n - 1])
  }

  function Check(bits: seq<Bit>): (c: seq<Bit>)
    ensures |c| == 4
  {
    CrcTo(bits, |bits|).Complement()
  }

  method ComputeCheck(bits: seq<Bit>) returns (c: seq<Bit>)
    ensures c == Check(bits)
  {
    var r := Crc4(true, true, true, true);
    for i := 0 to |bits|
      invariant r == CrcTo(bits, i)
    {
      r := r.Next(bits[i]);
    }
    c := r.Complement();
  }

  function Tail(): (t: seq<Bit>)
    ensures |t| == 6 && forall i | 0 <= i < 6 :: !t[i]
  {
    [false, false, false, false, false, false]
  }

  /** The 48 bits: protected bits, check, tail. */
  function Finish(v: seq<Bit>): (bits: seq<Bit>)
    ensures |bits| == |v| + 10 && bits[..|v|] == v && bits[|v|..|v| + 4] == Check(v) && bits[|v| + 4..] == Tail()
  {
    v + Check(v) + Tail()
  }

  /** Serialise SIG. */
  method ShortBits(f: Fields) returns (bits: seq<Bit>)
    ensures bits == Finish(ShortLayout(f)) && |bits| == 48
  {
    var v := PushFirst(f, true, f.travelingPilots, false);
    v := PushSecond(v, f, true, f.travelingPilots, false);
    assert v == ShortLayout(f);
    var c := ComputeCheck(v);
    bits := v + c + Tail();
  }

  /** Serialise SIG-A for one user. */
  method LongBits(f: Fields) returns (bits: seq<Bit>)
    ensures bits == Finish(LongLayout(f)) && |bits| == 48
  {
    var v := PushFirst(f, false, true, f.travelingPilots);
    v := PushSecond(v, f, false, true, f.travelingPilots);
    assert v == LongLayout(f);
    var c := ComputeCheck(v);
    bits := v + c + Tail();
  }

  ghost predicate MuLaidOut(bits: seq<Bit>, f: MuFields)
    requires f.FourUsers()
  {
    |bits| <= 38 && forall i | 0 <= i < |bits| :: bits[i] == MuAt(f, i)
  }

  /** First symbol for several users. */
  method PushUsers(f: MuFields) returns (v: seq<Bit>)
    requires f.FourUsers()
    ensures |v| == 24 && MuLaidOut(v, f)
  {
    hide GetBit;
    v := [true, f.stbc, true];
    for u := 0 to 4
      invariant |v| == 3 + 2 * u && MuLaidOut(v, f)
    {
      v := PushUint(v, f.nsts[u], 2);
    }
    v := PushUint(v, f.bandwidth, 2);
    v := PushUint(v, f.groupId, 6);
    v := v + [f.shortGi];
    for u := 0 to 4
      invariant |v| == 20 + u && MuLaidOut(v, f)
    {
      v := v + [if f.nsts[u] > 0 then f.ldpc[u] else true];
    }
  }

  /** Serialise SIG-A for several users. */
  method MuBits(f: MuFields) returns (bits: seq<Bit>)
    requires f.FourUsers()
    ensures bits == Finish(MuLayout(f)) && |bits| == 48
  {
    hide GetBit;
    var v := PushUsers(f);
    v := v + [f.ldpcExtra, true];
    v := PushUint(v, f.length, 9);
    v := PushUint(v, f.response.Code(), 2);
    v := v + [f.travelingPilots];
    assert v == MuLayout(f);
    var c := ComputeCheck(v);
    bits := v + c + Tail();
  }

  // ---- Parsing ----

  datatype ReservedReason =
    NonzeroTail | FirstBit | ReservedB12 | OddStbc | BccExtra | NoSuchRate | EmptyData | MuB2 | MuB25 | AbsentCoding

  datatype SigError = CrcFailed | Reserved(reason: ReservedReason)

  datatype Content = Normal(f: Fields) | Ndp(body: nat) | LongSu(f: Fields) | LongMu(m: MuFields)

  function CheckBits(bits: seq<Bit>): Option<SigError>
    requires |bits| == 48
  {
    if bits[42..] != Tail() then Some(Reserved(NonzeroTail))
    else if bits[38..42] != Check(bits[..38]) then Some(CrcFailed)
    else None
  }

  function ReadFields(bits: seq<Bit>, pilots: Bit): Fields
    requires |bits| == 48
  {
    Fields(bits[1], bits[2], ToUint(bits[3..5]), ToUint(bits[5..7]), ToUint(bits[7..16]), bits[16], bits[17], bits[18],
           ToUint(bits[19..23]), bits[23], bits[24], ToUint(bits[25..34]), ResponseOf(ToUint(bits[34..36])), pilots)
  }

  function ReadMu(bits: seq<Bit>): (f: MuFields)
    requires |bits| == 48
    ensures f.FourUsers()
  {
    MuFields(bits[1], [ToUint(bits[3..5]), ToUint(bits[5..7]), ToUint(bits[7..9]), ToUint(bits[9..11])], ToUint(bits[11..13]),
             ToUint(bits[13..19]), bits[19], [bits[20], bits[21], bits[22], bits[23]], bits[24], ToUint(bits[26..35]),
             ResponseOf(ToUint(bits[35..37])), bits[37])
  }

  function ParseShort(bits: seq<Bit>): Result<Content, SigError>
    requires |bits| == 48
  {
    match CheckBits(bits)
    case Some(e) => Failure(e)
    case None =>
      if bits[37] then Success(Ndp(ToUint(bits[..37])))
      else if !bits[0] then Failure(Reserved(FirstBit))
      else Success(Normal(ReadFields(bits, bits[36])))
  }

  function ParseLong(bits: seq<Bit>): Result<Content, SigError>
    requires |bits| == 48
  {
    match CheckBits(bits)
    case Some(e) => Failure(e)
    case None =>
      if bits[0] then
        if !bits[2] then Failure(Reserved(MuB2))
        else if !bits[25] then Failure(Reserved(MuB25))
        else if !ReadMu(bits).AbsentMarked() then Failure(Reserved(AbsentCoding))
        else Success(LongMu(ReadMu(bits)))
      else if !bits[36] then Failure(Reserved(ReservedB12))
      else Success(LongSu(ReadFields(bits, bits[37])))
  }

  // ---- Round trips ----

  lemma {:induction false} FinishChecks(v: seq<Bit>)
    requires |v| == 38
    ensures CheckBits(Finish(v)).None?
  {
    hide Check;
    var bits := Finish(v);
    assert bits[42..] == Tail() && bits[38..42] == Check(v) && bits[..38] == v;
  }

  lemma {:induction false} Widths()
    ensures Pow2(2) == 4 && Pow2(4) == 16 && Pow2(6) == 64 && Pow2(9) == 512
  {
    assert Pow2(3) == 8 && Pow2(5) == 32;
  }

  lemma {:induction false} ResponseRoundTrip(r: ResponseIndication)
    ensures ResponseOf(r.Code()) == r
  {
  }

  /** Subfield `lo` to `lo + n - 1` of finished bits. */
  lemma {:induction false} Subfield(v: seq<Bit>, bits: seq<Bit>, lo: nat, n: nat, x: nat)
    requires |v| == 38 && bits == Finish(v) && lo + n <= 38 && x < Pow2(n)
    requires forall i | 0 <= i < n :: v[lo + i] == GetBit(x, i)
    ensures ToUint(bits[lo..lo + n]) == x
  {
    hide GetBit, Pow2, Finish, ToUint;
    var s := bits[lo..lo + n];
    forall i | 0 <= i < n
      ensures s[i] == GetBit(x, i)
    {
      FinishedBit(v, lo + i);
      assert v[lo + i] == GetBit(x, i);
    }
    UintIs(s, x);
  }

  lemma {:induction false} FinishedBit(v: seq<Bit>, i: nat)
    requires |v| == 38 && i < 38
    ensures Finish(v)[i] == v[i]
  {
    hide Check;
  }

  /** Every field is read back. */
  lemma {:induction false} FieldsRead(f: Fields, first: Bit, x: Bit, y: Bit, bits: seq<Bit>, pilots: Bit)
    requires f.Fits() && bits == Finish(Layout(f, first, x, y)) && pilots == f.travelingPilots
    ensures |bits| == 48 && ReadFields(bits, pilots) == f
    ensures bits[0] == first && bits[36] == x && bits[37] == y
  {
    hide GetBit, Pow2, Check, ToUint, Finish;
    Widths();
    var v := Layout(f, first, x, y);
    Subfield(v, bits, 3, 2, f.bandwidth);
    Subfield(v, bits, 5, 2, f.nsts);
    Subfield(v, bits, 7, 9, f.id);
    Subfield(v, bits, 19, 4, f.mcs);
    Subfield(v, bits, 25, 9, f.length);
    Subfield(v, bits, 34, 2, f.response.Code());
    ResponseRoundTrip(f.response);
    SingleBits(f, first, x, y, bits);
  }

  lemma {:induction false} SingleBits(f: Fields, first: Bit, x: Bit, y: Bit, bits: seq<Bit>)
    requires bits == Finish(Layout(f, first, x, y)) && |bits| == 48
    ensures bits[0] == first && bits[1] == f.stbc && bits[2] == f.uplink && bits[16] == f.shortGi && bits[17] == f.ldpc
    ensures bits[18] == f.ldpcExtra && bits[23] == f.b23 && bits[24] == f.aggregation && bits[36] == x && bits[37] == y
  {
    hide GetBit, Finish;
    forall i | 0 <= i < 38
      ensures bits[i] == LayoutAt(f, first, x, y, i)
    {
      FinishedBit(Layout(f, first, x, y), i);
    }
  }

  /** What parsing returns is always within its widths. */
  lemma {:induction false} ReadFits(bits: seq<Bit>, pilots: Bit)
    requires |bits| == 48
    ensures ReadFields(bits, pilots).Fits()
  {
    hide GetBit, Pow2;
    Widths();
    PackBits(bits[3..5], 2);
    PackBits(bits[5..7], 2);
    PackBits(bits[7..16], 9);
    PackBits(bits[19..23], 4);
    PackBits(bits[25..34], 9);
  }

  /** Fields survive serialisation, check and parsing exactly when each is within its width. */
  lemma {:induction false} FieldsRoundTrip(f: Fields)
    ensures ParseShort(Finish(ShortLayout(f))) == Success(Normal(f)) <==> f.Fits()
    ensures ParseLong(Finish(LongLayout(f))) == Success(LongSu(f)) <==> f.Fits()
  {
    hide GetBit, Check, CheckBits, ReadFields, Finish, Layout;
    var (s, l) := (Finish(ShortLayout(f)), Finish(LongLayout(f)));
    FinishChecks(ShortLayout(f));
    FinishChecks(LongLayout(f));
    if f.Fits() {
      FieldsRead(f, true, f.travelingPilots, false, s, f.travelingPilots);
      FieldsRead(f, false, true, f.travelingPilots, l, f.travelingPilots);
    } else {
      ReadFits(s, s[36]);
      ReadFits(l, l[37]);
    }
  }

  lemma {:induction false} MuBitsRead(f: MuFields, bits: seq<Bit>)
    requires f.FourUsers() && bits == Finish(MuLayout(f))
    ensures |bits| == 48 && forall i | 0 <= i < 38 :: bits[i] == MuAt(f, i)
  {
    hide MuAt, Finish;
    forall i | 0 <= i < 38
      ensures bits[i] == MuAt(f, i)
    {
      FinishedBit(MuLayout(f), i);
    }
  }

  lemma {:induction false} MuStreams(f: MuFields, bits: seq<Bit>)
    requires f.Fits() && bits == Finish(MuLayout(f))
    ensures ToUint(bits[3..5]) == f.nsts[0] && ToUint(bits[5..7]) == f.nsts[1]
    ensures ToUint(bits[7..9]) == f.nsts[2] && ToUint(bits[9..11]) == f.nsts[3]
  {
    hide GetBit, Pow2, ToUint, Finish;
    Widths();
    var v := MuLayout(f);
    Subfield(v, bits, 3, 2, f.nsts[0]);
    Subfield(v, bits, 5, 2, f.nsts[1]);
    Subfield(v, bits, 7, 2, f.nsts[2]);
    Subfield(v, bits, 9, 2, f.nsts[3]);
  }

  lemma {:induction false} MuNumbers(f: MuFields, bits: seq<Bit>)
    requires f.Fits() && bits == Finish(MuLayout(f))
    ensures ToUint(bits[11..13]) == f.bandwidth && ToUint(bits[13..19]) == f.groupId
    ensures ToUint(bits[26..35]) == f.length && ResponseOf(ToUint(bits[35..37])) == f.response
  {
    hide GetBit, Pow2, ToUint, Finish;
    Widths();
    var v := MuLayout(f);
    Subfield(v, bits, 11, 2, f.bandwidth);
    Subfield(v, bits, 13, 6, f.groupId);
    Subfield(v, bits, 26, 9, f.length);
    Subfield(v, bits, 35, 2, f.response.Code());
    ResponseRoundTrip(f.response);
  }

  /** Every field for several users is read back; the coding bit of an absent user as set. */
  lemma {:induction false} MuRead(f: MuFields, bits: seq<Bit>)
    requires f.Fits() && bits == Finish(MuLayout(f))
    ensures |bits| == 48 && ReadMu(bits) == f.(ldpc := ReadMu(bits).ldpc) && bits[0] && bits[2] && bits[25]
    ensures forall u | 0 <= u < 4 :: ReadMu(bits).ldpc[u] == (f.ldpc[u] || f.nsts[u] == 0)
  {
    hide GetBit, ToUint, Finish, MuLayout, ResponseOf;
    MuBitsRead(f, bits);
    MuStreams(f, bits);
    MuNumbers(f, bits);
    assert ReadMu(bits).nsts == f.nsts;
  }

  lemma {:induction false} MuReadFits(bits: seq<Bit>)
    requires |bits| == 48
    ensures ReadMu(bits).Fits()
  {
    hide GetBit, Pow2;
    Widths();
    PackBits(bits[3..5], 2);
    PackBits(bits[5..7], 2);
    PackBits(bits[7..9], 2);
    PackBits(bits[9..11], 2);
    PackBits(bits[11..13], 2);
    PackBits(bits[13..19], 6);
    PackBits(bits[26..35], 9);
  }

  /** So do those for several users, if the coding bit of every absent user is set. */
  lemma {:induction false} MuRoundTrip(f: MuFields)
    requires f.FourUsers()
    ensures ParseLong(Finish(MuLayout(f))) == Success(LongMu(f)) <==> f.Fits() && f.AbsentMarked()
  {
    hide GetBit, Check, CheckBits, ReadMu, Finish, MuLayout;
    var bits := Finish(MuLayout(f));
    FinishChecks(MuLayout(f));
    MuReadFits(bits);
    if f.Fits() {
      MuRead(f, bits);
      assert f.AbsentMarked() ==> ReadMu(bits).ldpc == f.ldpc;
    }
  }

  /** An NDP body of 37 bits survives too. */
  lemma {:induction false} NdpRoundTrip(body: nat)
    requires body < Pow2(37)
    ensures ParseShort(Finish(UintBits(body, 37) + [true])) == Success(Ndp(body))
  {
    hide GetBit, Check, CheckBits, ReadFields, Pow2;
    var v := UintBits(body, 37) + [true];
    var bits := Finish(v);
    FinishChecks(v);
    assert bits[37] == v[37];
    assert bits[..37] == UintBits(body, 37);
    UintIs(UintBits(body, 37), body);
  }

  /** A single flipped bit among the protected ones, the check or the tail never goes unnoticed. */
  lemma {:induction false} OneErrorFound(v: seq<Bit>, k: nat)
    requires |v| == 38 && k < 48
    ensures CheckBits(Finish(v)[k := !Finish(v)[k]]).Some?
  {
    var bits := Finish(v);
    var bad := bits[k := !bits[k]];
    if k >= 42 {
      assert bad[42..][k - 42] != bits[42..][k - 42];
    } else if k >= 38 {
      assert bad[..38] == bits[..38];
      assert bad[38..42][k - 38] != bits[38..42][k - 38];
    } else {
      var w := bad[..38];
      assert bad[38..42] == bits[38..42];
      CrcSame(v, w, k);
      CrcDiffers(v, w, k, 38);
    }
  }

  lemma {:induction false} CrcSame(v: seq<Bit>, w: seq<Bit>, n: nat)
    requires n <= |v| && n <= |w| && forall i | 0 <= i < n :: v[i] == w[i]
    ensures CrcTo(v, n) == CrcTo(w, n)
  {
    if n > 0 {
      CrcSame(v, w, n - 1);
    }
  }

  /** The register never forgets a difference: its step is invertible. */
  lemma {:induction false} CrcDiffers(v: seq<Bit>, w: seq<Bit>, k: nat, n: nat)
    requires k < n <= |v| && n <= |w| && v[k] != w[k] && (forall i | k < i < n :: v[i] == w[i])
    requires CrcTo(v, k) == CrcTo(w, k)
    ensures CrcTo(v, n) != CrcTo(w, n)
  {
    if k < n - 1 {
      CrcDiffers(v, w, k, n - 1);
    }
  }
}

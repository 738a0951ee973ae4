/** The SIG field from bits to tones and back, and what a receiver makes of its contents
    (crates/s2g-phy/src/sig.rs and the SIG permutation of crates/s2g-phy/src/interleaver.rs). */
module SigField {
  import opened Wrappers
  import opened Params
  import opened Words
  import opened Llr
  import opened Bcc
  import opened Viterbi
  import opened ViterbiProofs
  import opened Mapping
  import opened Sig

  // ---- Interleaving one symbol ----

  function SigPerm(k: nat): (j: nat)
    requires k < 48
    ensures j < 48
  {
    3 * (k % 16) + k / 16
  }

  function SigInverse(j: nat): (k: nat)
    requires j < 48
    ensures k < 48
  {
    16 * (j % 3) + j / 3
  }

  lemma {:induction false} SigPermBijective(k: nat)
    requires k < 48
    ensures SigInverse(SigPerm(k)) == k && SigPerm(SigInverse(k)) == k
  {
    var (c, r) := (k % 16, k / 16);
    assert (3 * c + r) / 3 == c && (3 * c + r) % 3 == r;
    var (a, b) := (k % 3, k / 3);
    assert (16 * a + b) / 16 == a && (16 * a + b) % 16 == b;
  }

  method InterleaveSig(bits: seq<Bit>) returns (out: seq<Bit>)
    requires |bits| == 48
    ensures |out| == 48 && forall k | 0 <= k < 48 :: out[SigPerm(k)] == bits[k]
  {
    var a := new Bit[48](_ => false);
    for k := 0 to 48
      invariant forall i | 0 <= i < k :: a[SigPerm(i)] == bits[i]
    {
      forall i | 0 <= i < k
        ensures SigPerm(i) != SigPerm(k)
      {
        SigPermBijective(i);
        SigPermBijective(k);
      }
      a[SigPerm(k)] := bits[k];
    }
    out := a[..];
  }

  method DeinterleaveSig(llrs: seq<real>) returns (out: seq<real>)
    requires |llrs| == 48
    ensures out == Deinterleaved(llrs)
  {
    var a := new real[48](_ => 0.0);
    for k := 0 to 48
      invariant forall i | 0 <= i < k :: a[i] == llrs[SigPerm(i)]
    {
      a[k] := llrs[SigPerm(k)];
    }
    out := a[..];
  }

  function Deinterleaved(llrs: seq<real>): (out: seq<real>)
    requires |llrs| == 48
    ensures |out| == 48 && forall k | 0 <= k < 48 :: out[k] == llrs[SigPerm(k)]
  {
    seq(48, k requires 0 <= k < 48 => llrs[SigPerm(k)])
  }

  // ---- Tones ----

  /** Both symbols of SIG are rotated by 90 degrees, of SIG-A only the first. */
  predicate Rotated(t: PreambleType, n: nat) {
    t.S1gShort? || n == 0
  }

  function Tone(b: Bit, rotated: bool): Point {
    var v := if b then 1.0 else -1.0;
    if rotated then Point(0.0, v) else Point(v, 0.0)
  }

  /** The axis that carries the bit. */
  function Carrier(p: Point, rotated: bool): real {
    if rotated then p.im else p.re
  }

  /** Tones of the two symbols of the field carry `bits`. */
  ghost predicate FieldTones(bits: seq<Bit>, t: PreambleType, tones: seq<Point>) {
    && |bits| == 48 && |Coded(bits, R12)| == 96 && |tones| == 96
    && forall n, k | 0 <= n < 2 && 0 <= k < 48 ::
         tones[48 * n + SigPerm(k)] == Tone(Coded(bits, R12)[48 * n + k], Rotated(t, n))
  }

  lemma {:induction false} HalfRate(bits: seq<Bit>, t: nat)
    requires t <= |bits|
    ensures |CodedUpTo(bits, R12, t)| == 2 * t
  {
    hide OutA, OutB;
    if t > 0 {
      HalfRate(bits, t - 1);
    }
  }

  method ToneSymbol(coded: seq<Bit>, rotated: bool) returns (tones: seq<Point>)
    requires |coded| == 48
    ensures |tones| == 48 && forall k | 0 <= k < 48 :: tones[SigPerm(k)] == Tone(coded[k], rotated)
  {
    var ilv := InterleaveSig(coded);
    tones := seq(48, j requires 0 <= j < 48 => Tone(ilv[j], rotated));
  }

  method EncodeField(bits: seq<Bit>, t: PreambleType) returns (tones: seq<Point>)
    requires |bits| == 48
    ensures FieldTones(bits, t, tones)
  {
    hide Coded, SigPerm;
    HalfRateCoded(bits);
    var coded := Coded(bits, R12);
    var first := ToneSymbol(coded[..48], Rotated(t, 0));
    var second := ToneSymbol(coded[48..], Rotated(t, 1));
    tones := first + second;
    forall n, k | 0 <= n < 2 && 0 <= k < 48
      ensures tones[48 * n + SigPerm(k)] == Tone(coded[48 * n + k], Rotated(t, n))
    {
      if n == 0 {
        assert coded[..48][k] == coded[k];
      } else {
        assert coded[48..][k] == coded[48 + k];
      }
    }
  }

  lemma {:induction false} HalfRateCoded(bits: seq<Bit>)
    ensures |Coded(bits, R12)| == 2 * |bits|
  {
    HalfRate(bits, |bits|);
  }

  // ---- Reception ----

  /** The soft bit of one tone, weighted by its channel state. */
  function ToneLlr(p: Point, rotated: bool, csi: real): real {
    AxisLlr(Carrier(p, rotated), 1, 1.0, 0) * csi
  }

  /** Soft bits of symbol `n`, as received. */
  function SymbolLlrs(points: seq<Point>, csi: seq<real>, t: PreambleType, n: nat): (llrs: seq<real>)
    requires |points| == |csi| == 96 && n < 2
    ensures |llrs| == 48 && forall j | 0 <= j < 48 :: llrs[j] == ToneLlr(points[48 * n + j], Rotated(t, n), csi[48 * n + j])
  {
    seq(48, j requires 0 <= j < 48 => ToneLlr(points[48 * n + j], Rotated(t, n), csi[48 * n + j]))
  }

  function FieldLlrs(points: seq<Point>, csi: seq<real>, t: PreambleType): (llrs: seq<real>)
    requires |points| == |csi| == 96
    ensures |llrs| == 96
  {
    Deinterleaved(SymbolLlrs(points, csi, t, 0)) + Deinterleaved(SymbolLlrs(points, csi, t, 1))
  }

  ghost function DecodedField(points: seq<Point>, csi: seq<real>, t: PreambleType): seq<Bit>
    requires |points| == |csi| == 96
  {
    Decode(FieldLlrs(points, csi, t), R12, 48)
  }

  /** Undo the rotation, take soft decisions, deinterleave, decode and parse. */
  method DecodeField(points: seq<Point>, csi: seq<real>, t: PreambleType) returns (r: Result<Content, SigError>)
    requires |points| == |csi| == 96
    ensures |DecodedField(points, csi, t)| == 48
    ensures r == match t case S1gShort => ParseShort(DecodedField(points, csi, t)) case S1gLong => ParseLong(DecodedField(points, csi, t))
  {
    hide AxisLlr, SigPerm, ParseShort, ParseLong, Decode;
    var llrs: seq<real> := [];
    for n := 0 to 2
      invariant llrs == if n == 0 then [] else if n == 1 then Deinterleaved(SymbolLlrs(points, csi, t, 0)) else FieldLlrs(points, csi, t)
    {
      var raw := DemapSymbol(points, csi, t, n);
      var sorted := DeinterleaveSig(raw);
      llrs := llrs + sorted;
    }
    var bits := ViterbiDecode(llrs, R12, 48);
    DecodedLength(llrs);
    match t {
      case S1gShort => r := ParseShort(bits);
      case S1gLong => r := ParseLong(bits);
    }
  }

  method DemapSymbol(points: seq<Point>, csi: seq<real>, t: PreambleType, n: nat) returns (raw: seq<real>)
    requires |points| == |csi| == 96 && n < 2
    ensures raw == SymbolLlrs(points, csi, t, n)
  {
    hide AxisLlr;
    raw := [];
    for j := 0 to 48
      invariant |raw| == j && forall i | 0 <= i < j :: raw[i] == ToneLlr(points[48 * n + i], Rotated(t, n), csi[48 * n + i])
    {
      var p := points[48 * n + j];
      // Multiply by -j where the symbol was rotated.
      var d := if Rotated(t, n) then Point(p.im, -p.re) else p;
      var l := AxisLlrs(d.re, 1, 1.0);
      raw := raw + [l[0] * csi[48 * n + j]];
    }
  }

  lemma {:induction false} DecodedLength(llrs: seq<real>)
    ensures |Decode(llrs, R12, 48)| == 48
  {
  }

  // ---- The field survives ----

  /** Every tone is received with channel state of the right sign and an error below half the
      distance between the two points, on the axis that carries the bit. */
  ghost predicate Received(tones: seq<Point>, points: seq<Point>, csi: seq<real>, t: PreambleType) {
    && |tones| == |points| == |csi| == 96
    && (forall j | 0 <= j < 96 :: csi[j] > 0.0)
    && forall j | 0 <= j < 96 :: -1.0 < Carrier(points[j], Rotated(t, j / 48)) - Carrier(tones[j], Rotated(t, j / 48)) < 1.0
  }

  lemma {:induction false} OneBitLevel(b: Bit)
    ensures Level([b]) == if b then 1 else -1
  {
    assert RangeXor([b], 0, 1) == b;
    assert Ungray([b]) == [b];
    assert [b][..0] == [] && [b][1..] == [];
    assert Value([b]) == if b then 1 else 0;
    assert Pow2(1) == 2;
  }

  lemma {:induction false} ToneRight(p: Point, b: Bit, rotated: bool, csi: real)
    requires csi > 0.0 && -1.0 < Carrier(p, rotated) - Carrier(Tone(b, rotated), rotated) < 1.0
    ensures Toward(ToneLlr(p, rotated, csi), b) > 0.0
  {
    hide AxisLlr, Level;
    OneBitLevel(b);
    AxisRight(Carrier(p, rotated), [b], 1.0, 0);
    SignKept(AxisLlr(Carrier(p, rotated), 1, 1.0, 0), csi, b);
  }

  lemma {:induction false} BitRight(bits: seq<Bit>, t: PreambleType, tones: seq<Point>, points: seq<Point>, csi: seq<real>, n: nat, k: nat)
    requires FieldTones(bits, t, tones) && Received(tones, points, csi, t) && n < 2 && k < 48
    ensures Toward(SymbolLlrs(points, csi, t, n)[SigPerm(k)], Coded(bits, R12)[48 * n + k]) > 0.0
  {
    hide ToneLlr, SigPerm, Coded, Tone, Carrier, Rotated, FieldTones, Received;
    ToneAt(bits, t, tones, n, k);
    var (i, bit) := (SigPerm(k), Coded(bits, R12)[48 * n + k]);
    var j := 48 * n + i;
    ReceivedAt(tones, points, csi, t, n, i);
    ToneRight(points[j], bit, Rotated(t, n), csi[j]);
  }

  lemma {:induction false} ToneAt(bits: seq<Bit>, t: PreambleType, tones: seq<Point>, n: nat, k: nat)
    requires FieldTones(bits, t, tones) && n < 2 && k < 48
    ensures |tones| == 96 == |Coded(bits, R12)| && tones[48 * n + SigPerm(k)] == Tone(Coded(bits, R12)[48 * n + k], Rotated(t, n))
  {
    hide SigPerm, Coded, Tone, Rotated;
  }

  lemma {:induction false} ReceivedAt(tones: seq<Point>, points: seq<Point>, csi: seq<real>, t: PreambleType, n: nat, i: nat)
    requires Received(tones, points, csi, t) && n < 2 && i < 48
    ensures |tones| == |points| == |csi| == 96 && csi[48 * n + i] > 0.0
    ensures -1.0 < Carrier(points[48 * n + i], Rotated(t, n)) - Carrier(tones[48 * n + i], Rotated(t, n)) < 1.0
  {
    hide Carrier, Rotated;
    assert (48 * n + i) / 48 == n;
  }

  lemma {:induction false} FieldRight(bits: seq<Bit>, t: PreambleType, tones: seq<Point>, points: seq<Point>, csi: seq<real>)
    requires FieldTones(bits, t, tones) && Received(tones, points, csi, t)
    ensures Agrees(FieldLlrs(points, csi, t), Coded(bits, R12))
  {
    hide FieldTones, Received, SigPerm, Coded, SymbolLlrs, Deinterleaved;
    TonesCount(bits, t, tones);
    ReceivedCount(tones, points, csi, t);
    CodedCount(bits, t, tones);
    var (llrs, code) := (FieldLlrs(points, csi, t), Coded(bits, R12));
    forall i | 0 <= i < 96
      ensures Toward(llrs[i], code[i]) > 0.0
    {
      if i < 48 {
        BitRight(bits, t, tones, points, csi, 0, i);
      } else {
        BitRight(bits, t, tones, points, csi, 1, i - 48);
      }
    }
  }

  lemma {:induction false} CodedCount(bits: seq<Bit>, t: PreambleType, tones: seq<Point>)
    requires FieldTones(bits, t, tones)
    ensures |Coded(bits, R12)| == 96
  {
  }

  /** Serialised bits end in six zeros, so the encoder ends in its initial state. */
  lemma {:induction false} FinishTerminates(v: seq<Bit>)
    requires |v| == 38
    ensures |Finish(v)| == 48 && StateAfter(Finish(v), 48) == 0
  {
    hide StateAfter, Check;
    var head := v + Check(v);
    assert seq(N_TAIL, _ => false) == Tail();
    TailTerminates(head);
    assert Finish(v) == head + seq(N_TAIL, _ => false);
  }

  /** The decoded bits are those sent. */
  lemma {:induction false} FieldSurvives(v: seq<Bit>, t: PreambleType, tones: seq<Point>, points: seq<Point>, csi: seq<real>)
    requires |v| == 38 && FieldTones(Finish(v), t, tones) && Received(tones, points, csi, t)
    ensures DecodedField(points, csi, t) == Finish(v)
  {
    hide Finish, FieldLlrs, Decode, StateAfter, Coded, FieldTones, Received;
    FinishTerminates(v);
    ReceivedCount(tones, points, csi, t);
    FieldRight(Finish(v), t, tones, points, csi);
    DecodeInverts(Finish(v), R12, FieldLlrs(points, csi, t));
  }

  /** The signalling chain: SIG or SIG-A fields, encoded, sent, received with bounded error, decoded
      and parsed, come back as they were whenever each is within its width. */
  method TransferFields(f: Fields, t: PreambleType, channel: seq<Point> -> (seq<Point>, seq<real>)) returns (r: Result<Content, SigError>)
    requires f.Fits()
    requires forall tones | |tones| == 96 :: Received(tones, channel(tones).0, channel(tones).1, t)
    ensures r == Success(if t.S1gShort? then Normal(f) else LongSu(f))
  {
    hide Finish, ShortLayout, LongLayout, ParseShort, ParseLong, FieldTones, DecodedField, Received;
    var bits: seq<Bit>;
    if t.S1gShort? {
      bits := ShortBits(f);
    } else {
      bits := LongBits(f);
    }
    var tones := EncodeField(bits, t);
    TonesCount(bits, t, tones);
    var heard := channel(tones);
    ReceivedCount(tones, heard.0, heard.1, t);
    FieldSurvives(if t.S1gShort? then ShortLayout(f) else LongLayout(f), t, tones, heard.0, heard.1);
    r := DecodeField(heard.0, heard.1, t);
    FieldsRoundTrip(f);
  }

  lemma {:induction false} TonesCount(bits: seq<Bit>, t: PreambleType, tones: seq<Point>)
    requires FieldTones(bits, t, tones)
    ensures |tones| == 96
  {
  }

  lemma {:induction false} ReceivedCount(tones: seq<Point>, points: seq<Point>, csi: seq<real>, t: PreambleType)
    requires Received(tones, points, csi, t)
    ensures |points| == |csi| == 96
  {
  }

  /** SIG is sent on the imaginary axis, and of SIG-A the first symbol only, by which the two kinds
      of PPDU are told apart. */
  lemma {:induction false} AxisTells(bits: seq<Bit>, t: PreambleType, tones: seq<Point>, j: nat)
    requires FieldTones(bits, t, tones) && j < 96
    ensures |tones| == 96
    ensures if t.S1gShort? || j < 48 then tones[j].re == 0.0 && (tones[j].im == 1.0 || tones[j].im == -1.0)
            else tones[j].im == 0.0 && (tones[j].re == 1.0 || tones[j].re == -1.0)
  {
    hide Coded, SigPerm, SigInverse;
    var (n, k) := (j / 48, SigInverse(j % 48));
    SigPermBijective(j % 48);
    assert tones[48 * n + SigPerm(k)] == Tone(Coded(bits, R12)[48 * n + k], Rotated(t, n));
  }
}

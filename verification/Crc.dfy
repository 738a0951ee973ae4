/** Cyclic redundancy checks: the shift registers compute the remainder of polynomial division. */
module Crc {
  import opened Params
  import opened Bits
  import Words
  import Sig
  import Ampdu

  // ---- Polynomials over two elements, highest power first ----

  function Sum(a: seq<Bit>, b: seq<Bit>): (s: seq<Bit>)
    requires |a| == |b|
    ensures |s| == |a| && forall i | 0 <= i < |s| :: s[i] == (a[i] != b[i])
  {
    seq(|a|, i requires 0 <= i < |a| => a[i] != b[i])
  }

  function Same(b: Bit, n: nat): (s: seq<Bit>)
    ensures |s| == n && forall i | 0 <= i < n :: s[i] == b
  {
    seq(n, _ => b)
  }

  /** A generator: its leading coefficient is one. */
  predicate Generator(g: seq<Bit>) {
    |g| >= 2 && g[0]
  }

  /** Long division: as long as there is a leading term to remove, subtract the generator from it. */
  function Remainder(s: seq<Bit>, g: seq<Bit>): (r: seq<Bit>)
    requires Generator(g)
    ensures |s| >= |g| - 1 ==> |r| == |g| - 1
    decreases |s|
  {
    if |s| < |g| then s
    else if s[0] then Remainder(Sum(s[..|g|], g)[1..] + s[|g|..], g)
    else Remainder(s[1..], g)
  }

  // ---- Registers ----

  /** One step of a register `c`: shift up, and feed back what is shifted out and comes in. */
  function ShiftIn(c: seq<Bit>, b: Bit, g: seq<Bit>): (d: seq<Bit>)
    requires Generator(g) && |c| == |g| - 1
    ensures |d| == |c|
  {
    var shifted := c[1..] + [false];
    if b != c[0] then Sum(shifted, g[1..]) else shifted
  }

  lemma {:induction false} ShiftedAt(c: seq<Bit>, b: Bit, g: seq<Bit>)
    requires Generator(g) && |c| == |g| - 1
    ensures forall i | 0 <= i < |c| :: ShiftIn(c, b, g)[i] == ((i + 1 < |c| && c[i + 1]) != (b != c[0] && g[i + 1]))
  {
  }

  function Register(c: seq<Bit>, m: seq<Bit>, g: seq<Bit>): (d: seq<Bit>)
    requires Generator(g) && |c| == |g| - 1
    ensures |d| == |c|
    decreases |m|
  {
    if |m| == 0 then c else Register(ShiftIn(c, m[0], g), m[1..], g)
  }

  /** The message with room for the remainder, its first bits inverted where the register starts at one. */
  function Dividend(c: seq<Bit>, m: seq<Bit>): seq<Bit> {
    Sum(m + Same(false, |c|), c + Same(false, |m|))
  }

  lemma {:induction false} DividendAt(c: seq<Bit>, m: seq<Bit>)
    ensures |Dividend(c, m)| == |m| + |c|
    ensures forall i | 0 <= i < |m| + |c| :: Dividend(c, m)[i] == ((i < |m| && m[i]) != (i < |c| && c[i]))
  {
  }

  /** One step of the register is one step of the division. */
  lemma {:induction false} DividendStep(c: seq<Bit>, m: seq<Bit>, g: seq<Bit>)
    requires Generator(g) && |c| == |g| - 1 && |m| > 0
    ensures Remainder(Dividend(c, m), g) == Remainder(Dividend(ShiftIn(c, m[0], g), m[1..]), g)
  {
    var (s, t) := (Dividend(c, m), Dividend(ShiftIn(c, m[0], g), m[1..]));
    assert |s| == |m| + |c| && s[0] == (m[0] != c[0]);
    DividendAt(c, m);
    DividendAt(ShiftIn(c, m[0], g), m[1..]);
    ShiftedAt(c, m[0], g);
    hide Dividend, ShiftIn;
    var next := if s[0] then Sum(s[..|g|], g)[1..] + s[|g|..] else s[1..];
    forall i | 0 <= i < |t|
      ensures next[i] == t[i]
    {
    }
    assert next == t;
  }

  /** The register that starts at `c` ends at the remainder of the message times x to the power of
      its length, with the first bits of the message changed by `c`. */
  lemma {:induction false} RegisterDivides(c: seq<Bit>, m: seq<Bit>, g: seq<Bit>)
    requires Generator(g) && |c| == |g| - 1
    ensures Register(c, m, g) == Remainder(Dividend(c, m), g)
    decreases |m|
  {
    hide ShiftIn, Dividend;
    if |m| == 0 {
      EmptyDividend(c, m);
    } else {
      DividendStep(c, m, g);
      RegisterDivides(ShiftIn(c, m[0], g), m[1..], g);
    }
  }

  lemma {:induction false} EmptyDividend(c: seq<Bit>, m: seq<Bit>)
    requires |m| == 0
    ensures Dividend(c, m) == c
  {
    assert m + Same(false, |c|) == Same(false, |c|) && c + Same(false, |m|) == c;
  }

  lemma {:induction false} RegisterLast(c: seq<Bit>, m: seq<Bit>, g: seq<Bit>)
    requires Generator(g) && |c| == |g| - 1 && |m| > 0
    ensures Register(c, m, g) == ShiftIn(Register(c, m[..|m| - 1], g), m[|m| - 1], g)
    decreases |m|
  {
    hide ShiftIn;
    if |m| > 1 {
      RegisterLast(ShiftIn(c, m[0], g), m[1..], g);
      assert m[1..][..|m| - 2] == m[..|m| - 1][1..];
    }
  }

  function Complement(s: seq<Bit>): (c: seq<Bit>)
    ensures |c| == |s| && forall i | 0 <= i < |s| :: c[i] == !s[i]
  {
    seq(|s|, i requires 0 <= i < |s| => !s[i])
  }

  // ---- SIG: D^4 + D + 1 ----

  const SIG_GENERATOR: seq<Bit> := [true, false, false, true, true]

  lemma {:induction false} SigRegister(bits: seq<Bit>, n: nat)
    requires n <= |bits|
    ensures var r := Sig.CrcTo(bits, n); Register(Same(true, 4), bits[..n], SIG_GENERATOR) == [r.c3, r.c2, r.c1, r.c0]
  {
    if n > 0 {
      SigRegister(bits, n - 1);
      RegisterLast(Same(true, 4), bits[..n], SIG_GENERATOR);
      assert bits[..n][..n - 1] == bits[..n - 1];
      var r := Sig.CrcTo(bits, n - 1);
      SigShift(r, bits[n - 1]);
    }
  }

  lemma {:induction false} SigShift(r: Sig.Crc4, b: Bit)
    ensures var t := r.Next(b); ShiftIn([r.c3, r.c2, r.c1, r.c0], b, SIG_GENERATOR) == [t.c3, t.c2, t.c1, t.c0]
  {
  }

  /** The check of SIG is the complement of the remainder modulo D^4 + D + 1 of the bits times D^4,
      the first four inverted. */
  lemma {:induction false} SigCheckDivides(bits: seq<Bit>)
    ensures Sig.Check(bits) == Complement(Remainder(Dividend(Same(true, 4), bits), SIG_GENERATOR))
  {
    hide Dividend, Remainder;
    SigRegister(bits, |bits|);
    assert bits[..|bits|] == bits;
    RegisterDivides(Same(true, 4), bits, SIG_GENERATOR);
    var r := Sig.CrcTo(bits, |bits|);
    assert Complement([r.c3, r.c2, r.c1, r.c0]) == Sig.Check(bits);
  }

  // ---- Delimiters: x^8 + x^2 + x + 1 ----

  const DELIMITER_GENERATOR: seq<Bit> := [true, false, false, false, false, false, true, true, true]

  function CellAt(r: Ampdu.Crc8, i: nat): Bit {
    match i
    case 0 => r.c7 case 1 => r.c6 case 2 => r.c5 case 3 => r.c4
    case 4 => r.c3 case 5 => r.c2 case 6 => r.c1 case _ => r.c0
  }

  function Cells(r: Ampdu.Crc8): (c: seq<Bit>)
    ensures |c| == 8 && forall i | 0 <= i < 8 :: c[i] == CellAt(r, i)
  {
    seq(8, i requires 0 <= i < 8 => CellAt(r, i))
  }

  lemma {:induction false} DelimiterTerms()
    ensures |DELIMITER_GENERATOR| == 9 && forall i | 0 <= i < 9 :: DELIMITER_GENERATOR[i] == (i == 0 || i >= 6)
  {
  }

  lemma {:induction false} NextCell(r: Ampdu.Crc8, b: Bit, i: nat)
    requires i < 8
    ensures CellAt(r.Next(b), i) == ((i < 7 && CellAt(r, i + 1)) != (b != CellAt(r, 0) && i >= 5))
  {
  }

  lemma {:induction false} DelimiterShift(r: Ampdu.Crc8, b: Bit)
    ensures ShiftIn(Cells(r), b, DELIMITER_GENERATOR) == Cells(r.Next(b))
  {
    hide ShiftIn, Ampdu.Crc8.Next, CellAt, Cells;
    DelimiterTerms();
    ShiftedAt(Cells(r), b, DELIMITER_GENERATOR);
    var (c, d) := (ShiftIn(Cells(r), b, DELIMITER_GENERATOR), Cells(r.Next(b)));
    forall i | 0 <= i < 8
      ensures c[i] == d[i]
    {
      NextCell(r, b, i);
    }
  }

  lemma {:induction false} DelimiterStart(header: seq<Bit>)
    ensures Same(true, 8) == Cells(Ampdu.CrcAfter(header, 0))
  {
  }

  lemma {:induction false} DelimiterRegister(header: seq<Bit>, n: nat)
    requires n <= |header|
    ensures Register(Same(true, 8), header[..n], DELIMITER_GENERATOR) == Cells(Ampdu.CrcAfter(header, n))
  {
    hide ShiftIn, Cells, Ampdu.Crc8.Next;
    if n > 0 {
      DelimiterRegister(header, n - 1);
      RegisterLast(Same(true, 8), header[..n], DELIMITER_GENERATOR);
      assert header[..n][..n - 1] == header[..n - 1];
      DelimiterShift(Ampdu.CrcAfter(header, n - 1), header[n - 1]);
    } else {
      DelimiterStart(header);
    }
  }

  lemma {:induction false} PackedBits(r: Ampdu.Crc8)
    ensures UintBits(r.Packed(), 8) == [!r.c7, !r.c6, !r.c5, !r.c4, !r.c3, !r.c2, !r.c1, !r.c0]
  {
    hide PackTo, Words.GetBit;
    PackBits([!r.c7, !r.c6, !r.c5, !r.c4, !r.c3, !r.c2, !r.c1, !r.c0], 8);
  }

  lemma {:induction false} CellsComplement(r: Ampdu.Crc8)
    ensures Complement(Cells(r)) == [!r.c7, !r.c6, !r.c5, !r.c4, !r.c3, !r.c2, !r.c1, !r.c0]
  {
  }

  /** The check octet of a delimiter, least significant bit first, is the complement of the remainder
      modulo x^8 + x^2 + x + 1 of the header times x^8, its first eight bits inverted. */
  lemma {:induction false} DelimiterCheckDivides(header: seq<Bit>)
    ensures UintBits(Ampdu.DelimCrc(header), 8) == Complement(Remainder(Dividend(Same(true, 8), header), DELIMITER_GENERATOR))
  {
    hide Dividend, Remainder, Cells, Ampdu.Crc8.Packed, UintBits, Complement, Register;
    DelimiterRegister(header, |header|);
    assert header[..|header|] == header;
    RegisterDivides(Same(true, 8), header, DELIMITER_GENERATOR);
    PackedBits(Ampdu.CrcAfter(header, |header|));
    CellsComplement(Ampdu.CrcAfter(header, |header|));
  }
}

/** Frame-synchronous scrambler x^7 + x^4 + 1 (crates/s2g-phy/src/scrambler.rs). */
module Scrambler {
  import opened Params
  import opened Words

  /** Bit `i` of the scrambling sequence: the seed's bits, then s[i-4] ^ s[i-7]. */
  function SequenceBit(seed: nat, i: nat): Bit {
    if i < 7 then GetBit(seed, i) else SequenceBit(seed, i - 4) != SequenceBit(seed, i - 7)
  }

  function Scrambled(seed: nat, bits: seq<Bit>): (s: seq<Bit>)
    ensures |s| == |bits|
  {
    seq(|bits|, i requires 0 <= i < |bits| => bits[i] != SequenceBit(seed, i))
  }

  method Sequence(seed: nat, len: nat) returns (s: seq<Bit>)
    ensures |s| == len && forall i | 0 <= i < len :: s[i] == SequenceBit(seed, i)
  {
    hide GetBit;
    s := [];
    for i := 0 to if len < 7 then len else 7
      invariant |s| == i && forall k | 0 <= k < i :: s[k] == SequenceBit(seed, k)
    {
      s := s + [GetBit(seed, i)];
    }
    if len > 7 {
      for i := 7 to len
        invariant |s| == i && forall k | 0 <= k < i :: s[k] == SequenceBit(seed, k)
      {
        var b := s[i - 4] != s[i - 7];
        s := s + [b];
      }
    }
  }

  /** Scramble or descramble the first `len` bits in place. */
  method ScrambleInPlace(seed: nat, bits: array<Bit>, len: nat)
    requires len <= bits.Length
    modifies bits
    ensures bits[..] == Scrambled(seed, old(bits[..len])) + old(bits[len..])
  {
    hide SequenceBit;
    var s := Sequence(seed, len);
    for i := 0 to len
      invariant forall k | 0 <= k < i :: bits[k] == (old(bits[k]) != SequenceBit(seed, k))
      invariant forall k | i <= k < bits.Length :: bits[k] == old(bits[k])
    {
      bits[i] := bits[i] != s[i];
    }
  }

  function RecoverTo(first: seq<Bit>, n: nat): nat
    requires n <= |first|
  {
    if n == 0 then 0 else SetBit(RecoverTo(first, n - 1), n - 1, first[n - 1])
  }

  /** The seed read off the first seven scrambled bits. */
  function RecoverSeed(first: seq<Bit>): nat
    requires |first| >= 7
  {
    RecoverTo(first, 7)
  }

  lemma {:induction false} RecoverBits(first: seq<Bit>, n: nat)
    requires n <= |first|
    ensures RecoverTo(first, n) < Pow2(n)
    ensures forall i | 0 <= i < n :: GetBit(RecoverTo(first, n), i) == first[i]
  {
    if n > 0 {
      RecoverBits(first, n - 1);
      SetBitWidth(RecoverTo(first, n - 1), n - 1, first[n - 1], n);
      forall i | 0 <= i < n
        ensures GetBit(RecoverTo(first, n), i) == first[i]
      {
        SetBitGet(RecoverTo(first, n - 1), n - 1, first[n - 1], i);
      }
    }
  }

  /** Scrambling twice restores the bits. */
  lemma {:induction false} ScrambleInvolution(seed: nat, bits: seq<Bit>)
    ensures Scrambled(seed, Scrambled(seed, bits)) == bits
  {
    hide SequenceBit;
  }

  /** Seven leading zero bits carry the seed to the receiver. */
  lemma {:induction false} SeedRecovered(seed: nat, bits: seq<Bit>)
    requires seed < 128 && |bits| >= 7 && forall i | 0 <= i < 7 :: !bits[i]
    ensures RecoverSeed(Scrambled(seed, bits)) == seed
  {
    hide GetBit, SetBit;
    var s := Scrambled(seed, bits);
    RecoverBits(s, 7);
    assert Pow2(7) == 128;
    forall i | 0 <= i < 7
      ensures GetBit(RecoverSeed(s), i) == GetBit(seed, i)
    {
      assert s[i] == SequenceBit(seed, i);
    }
    BitsDetermine(RecoverSeed(s), seed, 7);
  }

  // ---- Period ----

  /** Squaring the recurrence: s[i] = s[i - 4k] ^ s[i - 7k] gives the same with 2k. */
  lemma {:induction false} Recurrence(seed: nat, e: nat, i: nat)
    requires i >= 7 * Pow2(e)
    ensures SequenceBit(seed, i) == (SequenceBit(seed, i - 4 * Pow2(e)) != SequenceBit(seed, i - 7 * Pow2(e)))
  {
    hide SequenceBit;
    if e == 0 {
      FirstRecurrence(seed, i);
    } else {
      var k := Pow2(e - 1);
      Recurrence(seed, e - 1, i);
      Recurrence(seed, e - 1, i - 4 * k);
      Recurrence(seed, e - 1, i - 7 * k);
    }
  }

  lemma {:induction false} FirstRecurrence(seed: nat, i: nat)
    requires i >= 7
    ensures SequenceBit(seed, i) == (SequenceBit(seed, i - 4) != SequenceBit(seed, i - 7))
  {
  }

  /** The sequence repeats every 127 bits, whatever the seed. */
  lemma {:induction false} Period127(seed: nat, i: nat)
    ensures SequenceBit(seed, i + 127) == SequenceBit(seed, i)
  {
    hide SequenceBit;
    assert Pow2(1) == 2 && Pow2(2) == 4 && Pow2(3) == 8 && Pow2(4) == 16;
    if i >= 1 {
      PeriodFrom(seed, i - 1);
    } else {
      // s[0] = s[7] ^ s[3], and both of those repeat.
      PeriodFrom(seed, 6);
      PeriodFrom(seed, 2);
      FirstRecurrence(seed, 134);
      FirstRecurrence(seed, 7);
    }
  }

  /** x^128 = x modulo the generator. */
  lemma {:induction false} PeriodFrom(seed: nat, j: nat)
    ensures SequenceBit(seed, j + 128) == SequenceBit(seed, j + 1)
  {
    hide SequenceBit;
    assert Pow2(0) == 1 && Pow2(1) == 2 && Pow2(2) == 4 && Pow2(3) == 8 && Pow2(4) == 16;
    Recurrence(seed, 4, j + 128);
    Recurrence(seed, 3, j + 64);
    Recurrence(seed, 2, j + 32);
    Recurrence(seed, 1, j + 16);
    Recurrence(seed, 0, j + 8);
  }
}

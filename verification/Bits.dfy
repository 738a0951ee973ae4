/** Octets as bits, least significant bit first (crates/s2g-phy/src/bits.rs). */
module Bits {
  import opened Params
  import opened Words

  type Octet = b: nat | b < 256

  function BytesToBits(bytes: seq<Octet>): (bits: seq<Bit>)
    ensures |bits| == 8 * |bytes|
  {
    seq(8 * |bytes|, i requires 0 <= i < 8 * |bytes| => GetBit(bytes[i / 8], i % 8))
  }

  /** Pack the first `n` bits of an octet. */
  function PackTo(bits: seq<Bit>, n: nat): nat
    requires n <= |bits|
  {
    if n == 0 then 0 else SetBit(PackTo(bits, n - 1), n - 1, bits[n - 1])
  }

  lemma {:induction false} PackBits(bits: seq<Bit>, n: nat)
    requires n <= |bits|
    ensures PackTo(bits, n) < Pow2(n)
    ensures forall i | 0 <= i < n :: GetBit(PackTo(bits, n), i) == bits[i]
  {
    if n > 0 {
      PackBits(bits, n - 1);
      SetBitWidth(PackTo(bits, n - 1), n - 1, bits[n - 1], n);
      forall i | 0 <= i < n
        ensures GetBit(PackTo(bits, n), i) == bits[i]
      {
        SetBitGet(PackTo(bits, n - 1), n - 1, bits[n - 1], i);
      }
    }
  }

  function PackOctet(bits: seq<Bit>): Octet
    requires |bits| == 8
  {
    PackBits(bits, 8);
    assert Pow2(8) == 256;
    PackTo(bits, 8)
  }

  /** Whole octets of a bit sequence. */
  function BitsToBytes(bits: seq<Bit>): (bytes: seq<Octet>)
    ensures |bytes| == |bits| / 8
  {
    seq(|bits| / 8, k requires 0 <= k < |bits| / 8 => PackOctet(bits[8 * k..8 * k + 8]))
  }

  lemma {:induction false} BytesRoundTrip(bytes: seq<Octet>)
    ensures BitsToBytes(BytesToBits(bytes)) == bytes
  {
    hide PackTo, GetBit, Pow2;
    var bits := BytesToBits(bytes);
    forall k | 0 <= k < |bytes|
      ensures BitsToBytes(bits)[k] == bytes[k]
    {
      var o := bits[8 * k..8 * k + 8];
      PackBits(o, 8);
      forall i | 0 <= i < 8
        ensures GetBit(PackTo(o, 8), i) == GetBit(bytes[k], i)
      {
        assert o[i] == bits[8 * k + i] && (8 * k + i) / 8 == k && (8 * k + i) % 8 == i;
      }
      OctetWidth();
      BitsDetermine(PackTo(o, 8), bytes[k], 8);
    }
  }

  lemma {:induction false} OctetWidth()
    ensures Pow2(8) == 256
  {
  }

  // ---- Numbers ----

  /** `n` bits of a number, least significant first. */
  function UintBits(v: nat, n: nat): (bits: seq<Bit>)
    ensures |bits| == n && forall i | 0 <= i < n :: bits[i] == GetBit(v, i)
  {
    seq(n, i requires 0 <= i < n => GetBit(v, i))
  }

  function ToUint(bits: seq<Bit>): nat {
    PackTo(bits, |bits|)
  }

  /** A number in its width is read back from its bits. */
  lemma {:induction false} UintIs(bits: seq<Bit>, v: nat)
    requires v < Pow2(|bits|) && forall i | 0 <= i < |bits| :: bits[i] == GetBit(v, i)
    ensures ToUint(bits) == v
  {
    hide GetBit, Pow2;
    PackBits(bits, |bits|);
    BitsDetermine(ToUint(bits), v, |bits|);
  }
}

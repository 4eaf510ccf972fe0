/** Bytes and their bits, least-significant bit first: the order in which
    the driver shifts a byte onto the data line. */
module Bits {

  /** Rust's `u8`. */
  type Byte = bv8

  /** Bit `i` of `b`, counting from the least significant bit. */
  function Bit(b: Byte, i: nat): bool
    requires i < 8
  {
    (b >> i) & 1 == 1
  }

  /** The `n` low bits of `rest`, least significant first, obtained the way
      the driver obtains them: test bit 0, then shift right by one. */
  function LsbBits(rest: Byte, n: nat): (bits: seq<bool>)
    requires n <= 8
    ensures |bits| == n
  {
    if n == 0 then [] else [rest & 1 == 1] + LsbBits(rest >> 1, n - 1)
  }

  /** Reassembles a byte from at most eight bits given least significant
      first (the receiving side of a transfer). */
  function FromLsbBits(bits: seq<bool>): Byte
    requires |bits| <= 8
  {
    if |bits| == 0 then 0
    else (if bits[0] then 1 else 0) | (FromLsbBits(bits[1..]) << 1)
  }

  /** The mask selecting the `n` low bits of a byte. */
  function LowMask(n: nat): Byte
    requires n <= 8
  {
    ((1 as Byte) << n) - 1
  }

  lemma ShiftedBit(rest: Byte, i: nat)
    requires 1 <= i < 8
    ensures Bit(rest >> 1, i - 1) == Bit(rest, i)
  {
  }

  /** The `i`-th bit produced by shifting is bit `i` of the original byte. */
  lemma {:induction false} LsbBitsAt(rest: Byte, n: nat, i: nat)
    requires i < n <= 8
    ensures LsbBits(rest, n)[i] == Bit(rest, i)
  {
    if i > 0 {
      LsbBitsAt(rest >> 1, n - 1, i - 1);
      ShiftedBit(rest, i);
    }
  }

  lemma ShiftStep(rest: Byte, n: nat)
    requires 1 <= n <= 8
    ensures (rest & 1) | (((rest >> 1) & LowMask(n - 1)) << 1) == rest & LowMask(n)
  {
  }

  /** Reassembling the `n` shifted-out bits gives back the `n` low bits. */
  lemma {:induction false} FromLsbBitsMasks(rest: Byte, n: nat)
    requires n <= 8
    ensures FromLsbBits(LsbBits(rest, n)) == rest & LowMask(n)
  {
    if n > 0 {
      var bits := LsbBits(rest, n);
      assert bits[1..] == LsbBits(rest >> 1, n - 1);
      FromLsbBitsMasks(rest >> 1, n - 1);
      assert (if bits[0] then 1 else 0) == rest & 1;
      ShiftStep(rest, n);
    }
  }

  /** Round trip: a byte shifted out LSB first and reassembled LSB first is
      the same byte. */
  lemma RoundTrip(b: Byte)
    ensures FromLsbBits(LsbBits(b, 8)) == b
  {
    FromLsbBitsMasks(b, 8);
  }
}

/** Command bytes and the hex-digit segment table of the TM1637 driver. */
module Encoding {
  import opened Bits

  datatype Option<T> = None | Some(value: T)

  /** Maximum clock frequency of the chip, in kHz. */
  const MaxFreqKhz: nat := 500
  const UsecsInMsec: nat := 1000
  /** Length of one `delay()` call in microseconds: integer division, as the
      driver computes it at compile time (1000 / 500 = 2). */
  const DelayUsecs: nat := UsecsInMsec / MaxFreqKhz

  /** Data command: write with automatic address increment. */
  const AddressAutoIncrement1Mode: Byte := 0x40

  const AddressCommandBits: Byte := 0xC0
  const AddressCommandMask: Byte := 0x0F

  const DisplayControlBrightnessBits: Byte := 0x88
  const DisplayControlBrightnessMask: Byte := 0x07

  /** The display-on bit of the display-control command. */
  const DisplayOn: Byte := 0x08

  /** Segment patterns of the hex digits 0..F (bit 0 = segment a, ...,
      bit 6 = segment g, bit 7 = decimal point). */
  const Digits: seq<Byte> := [
    0x3F, 0x06, 0x5B, 0x4F,
    0x66, 0x6D, 0x7D, 0x07,
    0x7F, 0x6F, 0x77, 0x7C,
    0x39, 0x5E, 0x79, 0x71
  ]

  /** The set-address command for display position `address`: the opcode
      with the address reduced to its low four bits. */
  function AddressCommand(address: Byte): (cmd: Byte)
    ensures 0xC0 <= cmd <= 0xCF
    ensures cmd & 0xF0 == 0xC0
    ensures cmd & 0x0F == address & 0x0F
  {
    AddressCommandBits | (address & AddressCommandMask)
  }

  /** The display-control command for brightness `level`: the opcode (which
      carries the display-on bit) with the level reduced to its low three bits. */
  function BrightnessCommand(level: Byte): (cmd: Byte)
    ensures 0x88 <= cmd <= 0x8F
    ensures cmd & DisplayOn == DisplayOn
    ensures cmd & 0xF8 == 0x88
    ensures cmd & 0x07 == level & 0x07
  {
    DisplayControlBrightnessBits | (level & DisplayControlBrightnessMask)
  }

  /** Two addresses select the same command exactly when they agree in
      their low four bits. */
  lemma AddressCommandEqual(a: Byte, b: Byte)
    ensures AddressCommand(a) == AddressCommand(b) <==> a & 0x0F == b & 0x0F
  {
  }

  /** Two levels select the same command exactly when they agree in their
      low three bits. */
  lemma BrightnessCommandEqual(a: Byte, b: Byte)
    ensures BrightnessCommand(a) == BrightnessCommand(b) <==> a & 0x07 == b & 0x07
  {
  }

  /** The segment pattern shown for `digit`, which is reduced to its low
      nibble first, so every byte indexes the table. */
  function HexPattern(digit: Byte): (p: Byte)
    ensures p & 0x80 == 0
    ensures p != 0
  {
    Digits[(digit & 0x0F) as int]
  }

  /** The seven segments of one digit position. */
  datatype Segment = A | B | C | D | E | F | G

  /** The bit of a segment pattern that lights `s`. */
  function SegmentBit(s: Segment): Byte {
    match s
    case A => 0x01
    case B => 0x02
    case C => 0x04
    case D => 0x08
    case E => 0x10
    case F => 0x20
    case G => 0x40
  }

  /** The conventional seven-segment glyph of each hex digit
      (0 1 2 3 4 5 6 7 8 9 A b C d E F). */
  function Glyph(n: nat): set<Segment>
    requires n < 16
  {
    if n == 0x0 then {A, B, C, D, E, F}
    else if n == 0x1 then {B, C}
    else if n == 0x2 then {A, B, D, E, G}
    else if n == 0x3 then {A, B, C, D, G}
    else if n == 0x4 then {B, C, F, G}
    else if n == 0x5 then {A, C, D, F, G}
    else if n == 0x6 then {A, C, D, E, F, G}
    else if n == 0x7 then {A, B, C}
    else if n == 0x8 then {A, B, C, D, E, F, G}
    else if n == 0x9 then {A, B, C, D, F, G}
    else if n == 0xA then {A, B, C, E, F, G}
    else if n == 0xB then {C, D, E, F, G}
    else if n == 0xC then {A, D, E, F}
    else if n == 0xD then {B, C, D, E, G}
    else if n == 0xE then {A, D, E, F, G}
    else {A, E, F, G}
  }

  /** The pattern for `digit` lights exactly the segments of the glyph of
      its low nibble. */
  lemma HexPatternGlyph(digit: Byte, s: Segment)
    ensures HexPattern(digit) & SegmentBit(s) != 0 <==> s in Glyph((digit & 0x0F) as nat)
  {
  }

  /** Reading the lit segments back: the nibble whose pattern is `p`, if any. */
  function DecodePattern(p: Byte): (r: Option<nat>)
    ensures r.Some? ==> r.value < 16 && Digits[r.value] == p
    ensures r.None? ==> forall i :: 0 <= i < 16 ==> Digits[i] != p
  {
    FindPattern(Digits, p, 0)
  }

  /** The first index at or after `from` where `table` holds `p`. */
  function FindPattern(table: seq<Byte>, p: Byte, from: nat): (r: Option<nat>)
    requires from <= |table|
    ensures r.Some? ==> from <= r.value < |table| && table[r.value] == p
    ensures r.None? ==> forall i :: from <= i < |table| ==> table[i] != p
    decreases |table| - from
  {
    if from == |table| then None
    else if table[from] == p then Some(from)
    else FindPattern(table, p, from + 1)
  }

  /** Distinct nibbles have distinct patterns, so the displayed digit can be
      read back from the segments: decoding undoes encoding. */
  lemma DecodeHexPattern(digit: Byte)
    ensures DecodePattern(HexPattern(digit)) == Some((digit & 0x0F) as nat)
  {
    var k := (digit & 0x0F) as nat;
    assert Digits[k] == HexPattern(digit);
    DigitsDistinct();
  }

  /** No two hex digits share a segment pattern. */
  lemma DigitsDistinct()
    ensures forall i, j :: 0 <= i < 16 && 0 <= j < 16 && Digits[i] == Digits[j] ==> i == j
  {
  }

  /** Only the low nibble selects the pattern: `d` and `d + 16k` (mod 256)
      show the same digit. */
  lemma HexPatternMasks(d: Byte, k: Byte)
    ensures HexPattern(d + 0x10 * k) == HexPattern(d)
  {
  }
}

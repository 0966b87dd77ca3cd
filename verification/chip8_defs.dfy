/** Widths, sizes and the built-in font of the CHIP-8 machine (Chip8.h). */
module Chip8Defs {

  /** An 8-bit unsigned value: `byte` in Chip8.h (RAM cells, V registers, timers). */
  type byte = x: int | 0 <= x < 0x100

  /** A 16-bit unsigned value: `unsigned short` in Chip8.h (pc, I, sp, stack entries). */
  type u16 = x: int | 0 <= x < 0x1_0000

  const RamSize: nat := 4096
  const NumRegs: nat := 16
  const StackSize: nat := 16
  const NumKeys: nat := 16
  const ScreenWidth: nat := 64
  const ScreenHeight: nat := 32
  const ScreenSize: nat := ScreenWidth * ScreenHeight
  /** Programs are loaded, and execution starts, at this address. */
  const StartAddr: u16 := 0x200
  const FontsetSize: nat := 80
  /** Register VF doubles as the carry/borrow/collision flag. */
  const FlagReg: nat := 0xF

  /** The sixteen hexadecimal-digit glyphs, five rows each, one byte per row. */
  const Glyphs: seq<seq<byte>> := [
    [0xF0, 0x90, 0x90, 0x90, 0xF0], // 0
    [0x20, 0x60, 0x20, 0x20, 0x70], // 1
    [0xF0, 0x10, 0xF0, 0x80, 0xF0], // 2
    [0xF0, 0x10, 0xF0, 0x10, 0xF0], // 3
    [0x90, 0x90, 0xF0, 0x10, 0x10], // 4
    [0xF0, 0x80, 0xF0, 0x10, 0xF0], // 5
    [0xF0, 0x80, 0xF0, 0x90, 0xF0], // 6
    [0xF0, 0x10, 0x20, 0x40, 0x40], // 7
    [0xF0, 0x90, 0xF0, 0x90, 0xF0], // 8
    [0xF0, 0x90, 0xF0, 0x10, 0xF0], // 9
    [0xF0, 0x90, 0xF0, 0x90, 0x90], // A
    [0xE0, 0x90, 0xE0, 0x90, 0xE0], // B
    [0xF0, 0x80, 0x80, 0x80, 0xF0], // C
    [0xE0, 0x90, 0x90, 0x90, 0xE0], // D
    [0xF0, 0x80, 0xF0, 0x80, 0xF0], // E
    [0xF0, 0x80, 0xF0, 0x80, 0x80]  // F
  ]

  /** FONTSET: the glyphs laid end to end, 80 bytes in digit order. */
  function Fontset(): (f: seq<byte>)
    ensures |f| == FontsetSize
  {
    seq(FontsetSize, k requires 0 <= k < FontsetSize => Glyphs[k / 5][k % 5])
  }

  /** Truncation of an int result stored into a `byte` (C++ unsigned conversion). */
  function Wrap8(x: int): (r: byte)
    ensures 0 <= x < 0x100 ==> r == x
    ensures (r - x) % 0x100 == 0
  {
    x % 0x100
  }

  /** Truncation of an int result stored into an `unsigned short`. */
  function Wrap16(x: int): (r: u16)
    ensures 0 <= x < 0x1_0000 ==> r == x
    ensures (r - x) % 0x1_0000 == 0
  {
    x % 0x1_0000
  }

  function Pow2(w: nat): (p: nat)
    ensures p > 0
  {
    if w == 0 then 1 else 2 * Pow2(w - 1)
  }

  /** The low w bits of a & b, one bit at a time from the least significant. */
  function BitAnd(a: nat, b: nat, w: nat): (r: nat)
    ensures r <= a && r <= b && r < Pow2(w)
  {
    if w == 0 then 0 else 2 * BitAnd(a / 2, b / 2, w - 1) + (if a % 2 == 1 && b % 2 == 1 then 1 else 0)
  }

  /** The low w bits of a | b. */
  function BitOr(a: nat, b: nat, w: nat): (r: nat)
    ensures r < Pow2(w)
    ensures a < Pow2(w) ==> a <= r
    ensures b < Pow2(w) ==> b <= r
  {
    if w == 0 then 0 else 2 * BitOr(a / 2, b / 2, w - 1) + (if a % 2 == 1 || b % 2 == 1 then 1 else 0)
  }

  /** The low w bits of a ^ b. */
  function BitXor(a: nat, b: nat, w: nat): (r: nat)
    ensures r < Pow2(w)
  {
    if w == 0 then 0 else 2 * BitXor(a / 2, b / 2, w - 1) + (if a % 2 == b % 2 then 0 else 1)
  }

  /** XOR-ing twice with the same value gives back the original bits. */
  lemma {:induction false} XorTwice(a: nat, b: nat, w: nat)
    requires a < Pow2(w)
    ensures BitXor(BitXor(a, b, w), b, w) == a
  {
    if w > 0 {
      var r := BitXor(a, b, w);
      assert r / 2 == BitXor(a / 2, b / 2, w - 1) && r % 2 == (if a % 2 == b % 2 then 0 else 1);
      XorTwice(a / 2, b / 2, w - 1);
    }
  }

  /** Bit j of b (bit 0 is the least significant). */
  function Bit(b: nat, j: nat): (r: nat)
    ensures r <= 1
  {
    if j == 0 then b % 2 else Bit(b / 2, j - 1)
  }

  /** Masking with a single bit keeps exactly that bit: `b & 2^j` is 2^j times bit j of b. */
  lemma {:induction false} AndBit(b: nat, j: nat, w: nat)
    requires j < w
    ensures BitAnd(b, Pow2(j), w) == Pow2(j) * Bit(b, j)
  {
    if j == 0 {
      assert Pow2(j) == 1 && BitAnd(b / 2, 0, w - 1) == 0;
      assert BitAnd(b, 1, w) == 2 * BitAnd(b / 2, 0, w - 1) + (if b % 2 == 1 then 1 else 0);
    } else {
      var m := Pow2(j - 1);
      assert Pow2(j) == 2 * m;
      assert BitAnd(b, 2 * m, w) == 2 * BitAnd(b / 2, m, w - 1) by {
        assert (2 * m) % 2 == 0 && (2 * m) / 2 == m;
      }
      AndBit(b / 2, j - 1, w - 1);
      var bit := Bit(b / 2, j - 1);
      assert Bit(b, j) == bit;
      if bit == 0 {
        assert BitAnd(b / 2, m, w - 1) == 0;
      } else {
        assert BitAnd(b / 2, m, w - 1) == m;
      }
    }
  }

  /** The `|`, `&` and `^` of two bytes. */
  function Or8(a: byte, b: byte): (r: byte)
    ensures a <= r && b <= r
  {
    BitOr(a, b, 8)
  }

  function And8(a: byte, b: byte): (r: byte)
    ensures r <= a && r <= b
  {
    BitAnd(a, b, 8)
  }

  /** `^` with the same byte twice gives the first operand back. */
  function Xor8(a: byte, b: byte): (r: byte)
    ensures BitXor(r, b, 8) == a
  {
    XorTwice(a, b, 8);
    BitXor(a, b, 8)
  }

  /** The mask `0x80 >> c` that selects sprite column c of a sprite row. */
  const ColumnMask: seq<nat> := [0x80, 0x40, 0x20, 0x10, 0x08, 0x04, 0x02, 0x01]

  /** `0x80 >> c` is the single bit 7 - c. */
  lemma ColumnMaskIsBit(c: int)
    requires 0 <= c < 8
    ensures ColumnMask[c] == Pow2(7 - c)
  {
    assert Pow2(0) == 1 && Pow2(7) == 0x80;
  }

  /**
   * The pixel test `(pixels & (0x80 >> x_col)) != 0` of Dxyn: column c (0 = leftmost) of
   * sprite row b is set exactly when bit 7 - c of b is one.
   */
  predicate PixelSet(b: byte, c: int)
    requires 0 <= c < 8
    ensures PixelSet(b, c) <==> Bit(b, 7 - c) == 1
  {
    ColumnMaskIsBit(c);
    AndBit(b, 7 - c, 8);
    And8(b, ColumnMask[c]) != 0
  }

  /** Address of the glyph of hex digit d inside the font region. */
  function GlyphAddr(d: nat): nat { d * 5 }

  /** Row r of the glyph of hex digit d is the font byte at GlyphAddr(d) + r. */
  lemma GlyphAt(d: nat, r: nat)
    requires d < 16 && r < 5
    ensures |Fontset()| == FontsetSize == 16 * 5
    ensures GlyphAddr(d) + r < FontsetSize && Fontset()[GlyphAddr(d) + r] == Glyphs[d][r]
  {
    var k := GlyphAddr(d) + r;
    assert k / 5 == d && k % 5 == r;
  }

  /** The load address lies above the font region, so loading never touches a glyph. */
  lemma StartAboveFont()
    ensures FontsetSize <= StartAddr < RamSize
  {
  }

  /** A sprite row whose low nibble is zero lights only its four leftmost columns. */
  lemma NarrowRow(b: byte, c: int)
    requires b % 16 == 0 && 4 <= c < 8
    ensures !PixelSet(b, c)
  {
    var m := b / 16;
    assert b / 2 == 8 * m && b / 2 / 2 == 4 * m && b / 2 / 2 / 2 == 2 * m;
    var b1, b2, b3 := b / 2, b / 2 / 2, b / 2 / 2 / 2;
    assert Bit(b, 1) == Bit(b1, 0);
    assert Bit(b, 2) == Bit(b1, 1) == Bit(b2, 0);
    assert Bit(b, 3) == Bit(b1, 2) == Bit(b2, 1) == Bit(b3, 0);
  }

  /** Every glyph row has a zero low nibble, so glyphs are at most four pixels wide. */
  lemma GlyphsAreNarrow()
    ensures forall k :: 0 <= k < FontsetSize ==> Fontset()[k] % 16 == 0
    ensures forall k, c :: 0 <= k < FontsetSize && 4 <= c < 8 ==> !PixelSet(Fontset()[k], c)
  {
    forall d, r | 0 <= d < 16 && 0 <= r < 5
      ensures Glyphs[d][r] % 16 == 0
    {
    }
    forall k, c | 0 <= k < FontsetSize && 4 <= c < 8
      ensures !PixelSet(Fontset()[k], c)
    {
      NarrowRow(Fontset()[k], c);
    }
  }
}

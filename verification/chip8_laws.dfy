/**
 * What the transitions of Chip8Spec guarantee: the effect of each instruction family on the
 * registers and flags, the exact cells a sprite draw toggles, the key wait, BCD, register
 * save/restore, reset, the timers and the call stack.
 */
module Chip8Laws {
  import opened Chip8Defs
  import opened Chip8Isa
  import opened Chip8Spec

  // ---------------------------------------------------------------- fetch and dispatch

  /** The fetched word holds ram[pc] in its high byte and ram[pc + 1] in its low byte. */
  lemma OpcodeBytes(s: State)
    requires CanFetch(s)
    ensures Opcode(s) / 0x100 == s.ram[s.pc] && Opcode(s) % 0x100 == s.ram[s.pc + 1]
    ensures Digit1(Opcode(s)) == s.ram[s.pc] / 0x10 && Digit2(Opcode(s)) == s.ram[s.pc] % 0x10
    ensures Digit3(Opcode(s)) == s.ram[s.pc + 1] / 0x10 && Digit4(Opcode(s)) == s.ram[s.pc + 1] % 0x10
  {
    var hi, lo := s.ram[s.pc], s.ram[s.pc + 1];
    var op := Opcode(s);
    assert op == hi as int * 0x100 + lo;
    assert op / 0x100 == hi && op % 0x100 == lo;
    assert op / 0x1000 == hi / 0x10 by {
      assert op == (hi / 0x10) as int * 0x1000 + ((hi % 0x10) as int * 0x100 + lo);
    }
    assert op / 0x10 == hi as int * 0x10 + lo / 0x10;
  }

  /** An opcode that matches no branch of `execute` only advances pc. */
  lemma TickUnknown(s: State, rnd: byte)
    requires CanTick(s) && Decode(Opcode(s)).Unknown?
    ensures Tick(s, rnd) == s.(pc := Wrap16(s.pc + 2))
  {
  }

  /** Every branch other than the jumps, calls, returns, skips and Fx0A leaves pc where fetch put it. */
  lemma TickAdvancesPc(s: State, rnd: byte)
    requires CanTick(s)
    requires !IsControl(Decode(Opcode(s))) && !Decode(Opcode(s)).WaitKey?
    ensures Tick(s, rnd).pc == Wrap16(s.pc + 2)
  {
  }

  /** Only Cxkk consumes the random byte: every other branch is deterministic. */
  lemma RandomOnlyInCxkk(s: State, ins: Instr, rnd: byte, rnd': byte)
    requires Valid(s) && Defined(s, ins) && !ins.Random?
    ensures Execute(s, ins, rnd) == Execute(s, ins, rnd')
  {
  }

  /** Cxkk: Vx := rnd & kk, which never exceeds kk; nothing else changes. */
  lemma RandomMasked(s: State, x: Nibble, kk: byte, rnd: byte)
    requires Valid(s)
    ensures var r := Execute(s, Random(x, kk), rnd);
      r.v[x] == And8(rnd, kk) && r.v[x] <= kk && r.v[x] <= rnd && r == s.(v := s.v[x := r.v[x]])
  {
  }

  /** 8xy3 twice with the same Vy (x != y) gives Vx back: XOR undoes itself. */
  lemma XorTwiceRestores(s: State, x: Nibble, y: Nibble, rnd: byte)
    requires Valid(s) && x != y
    ensures Execute(Execute(s, Xor(x, y), rnd), Xor(x, y), rnd) == s
  {
    XorTwice(s.v[x], s.v[y], 8);
    assert Execute(Execute(s, Xor(x, y), rnd), Xor(x, y), rnd).v == s.v;
  }

  /** 9xy0 skips on equality, exactly as 5xy0 does. */
  lemma NineMatchesFive(s: State, x: Nibble, y: Nibble, rnd: byte)
    requires Valid(s)
    ensures Execute(s, SkipEqReg9(x, y), rnd) == Execute(s, SkipEqReg(x, y), rnd)
    ensures Execute(s, SkipEqReg9(x, y), rnd).pc == if s.v[x] == s.v[y] then Wrap16(s.pc + 2) else s.pc
  {
  }

  // ---------------------------------------------------------------- arithmetic and flags

  /** 8xy4: VF and Vx together hold the 9-bit sum; VF is the carry out of bit 7. */
  lemma AddRegCarry(s: State, x: Nibble, y: Nibble, rnd: byte)
    requires Valid(s) && x != FlagReg
    ensures var r := Execute(s, AddReg(x, y), rnd);
      r.v[x] == (s.v[x] as int + s.v[y]) % 0x100 &&
      r.v[FlagReg] == (if s.v[x] as int + s.v[y] > 0xFF then 1 else 0) &&
      r.v[FlagReg] as int * 0x100 + r.v[x] == s.v[x] as int + s.v[y] &&
      r == s.(v := s.v[x := r.v[x]][FlagReg := r.v[FlagReg]])
  {
  }

  /** 8xy4 with 0xFF + 0x01: Vx wraps to 0 and VF is 1. */
  lemma AddRegOverflowExample(s: State, x: Nibble, y: Nibble, rnd: byte)
    requires Valid(s) && x != FlagReg && x != y && s.v[x] == 0xFF && s.v[y] == 0x01
    ensures Execute(s, AddReg(x, y), rnd).v[x] == 0 && Execute(s, AddReg(x, y), rnd).v[FlagReg] == 1
  {
    AddRegCarry(s, x, y, rnd);
  }

  /** 8Fy4: VF is written after the sum, so only the carry survives. */
  lemma AddRegIntoFlag(s: State, y: Nibble, rnd: byte)
    requires Valid(s)
    ensures var r := Execute(s, AddReg(FlagReg, y), rnd);
      r.v[FlagReg] == (if s.v[FlagReg] as int + s.v[y] > 0xFF then 1 else 0) &&
      r.v == s.v[FlagReg := r.v[FlagReg]]
  {
  }

  /** 8xy5: Vx := Vx - Vy mod 256; VF compares the NEW Vx with Vy (not a no-borrow flag). */
  lemma SubRegFlag(s: State, x: Nibble, y: Nibble, rnd: byte)
    requires Valid(s) && x != FlagReg
    ensures var r := Execute(s, SubReg(x, y), rnd);
      r.v[x] == (s.v[x] as int - s.v[y]) % 0x100 &&
      (r.v[FlagReg] == 1 <==> r.v[x] > s.v[y]) && (r.v[FlagReg] == 0 <==> r.v[x] <= s.v[y]) &&
      r == s.(v := s.v[x := r.v[x]][FlagReg := r.v[FlagReg]])
  {
  }

  /** 8xy5 with Vx = 5, Vy = 3: Vx becomes 2 and VF 0, although nothing was borrowed. */
  lemma SubRegExample(s: State, x: Nibble, y: Nibble, rnd: byte)
    requires Valid(s) && x != FlagReg && x != y && s.v[x] == 5 && s.v[y] == 3
    ensures Execute(s, SubReg(x, y), rnd).v[x] == 2 && Execute(s, SubReg(x, y), rnd).v[FlagReg] == 0
  {
    SubRegFlag(s, x, y, rnd);
  }

  /** 8xy7: Vx := Vy - Vx mod 256; VF compares Vy with the NEW Vx. */
  lemma SubNegFlag(s: State, x: Nibble, y: Nibble, rnd: byte)
    requires Valid(s) && x != FlagReg
    ensures var r := Execute(s, SubNeg(x, y), rnd);
      r.v[x] == (s.v[y] as int - s.v[x]) % 0x100 &&
      (r.v[FlagReg] == 1 <==> s.v[y] > r.v[x]) && (r.v[FlagReg] == 0 <==> s.v[y] <= r.v[x]) &&
      r == s.(v := s.v[x := r.v[x]][FlagReg := r.v[FlagReg]])
  {
  }

  /** 8xy7 with Vx = 0, Vy = 5: Vx becomes 5 and VF 0, although nothing was borrowed. */
  lemma SubNegExample(s: State, x: Nibble, y: Nibble, rnd: byte)
    requires Valid(s) && x != FlagReg && x != y && s.v[x] == 0 && s.v[y] == 5
    ensures Execute(s, SubNeg(x, y), rnd).v[x] == 5 && Execute(s, SubNeg(x, y), rnd).v[FlagReg] == 0
  {
    SubNegFlag(s, x, y, rnd);
  }

  /**
   * 8Fy5 and 8Fy7: VF is written after the difference, so only the flag survives; the flag
   * is computed from the difference that was then overwritten.
   */
  lemma SubIntoFlag(s: State, y: Nibble, rnd: byte)
    requires Valid(s)
    ensures var r := Execute(s, SubReg(FlagReg, y), rnd);
      r.v[FlagReg] == (if (s.v[FlagReg] as int - s.v[y]) % 0x100 > s.v[y] then 1 else 0) &&
      r == s.(v := s.v[FlagReg := r.v[FlagReg]])
    ensures var r := Execute(s, SubNeg(FlagReg, y), rnd);
      r.v[FlagReg] == (if s.v[y] > (s.v[y] as int - s.v[FlagReg]) % 0x100 then 1 else 0) &&
      r == s.(v := s.v[FlagReg := r.v[FlagReg]])
  {
  }

  /** 8xy6: VF := the bit shifted out, Vx := Vx >> 1; together they rebuild the old Vx. */
  lemma ShiftRightFlag(s: State, x: Nibble, y: Nibble, rnd: byte)
    requires Valid(s) && x != FlagReg
    ensures var r := Execute(s, ShiftRight(x, y), rnd);
      r.v[FlagReg] == s.v[x] % 2 && r.v[x] == s.v[x] / 2 && 2 * r.v[x] as int + r.v[FlagReg] == s.v[x] &&
      r == s.(v := s.v[x := r.v[x]][FlagReg := r.v[FlagReg]])
  {
  }

  /** 8xyE: VF := the bit shifted out, Vx := Vx << 1 mod 256; together they hold 2 * old Vx. */
  lemma ShiftLeftFlag(s: State, x: Nibble, y: Nibble, rnd: byte)
    requires Valid(s) && x != FlagReg
    ensures var r := Execute(s, ShiftLeft(x, y), rnd);
      r.v[FlagReg] == s.v[x] / 0x80 && r.v[x] == (2 * s.v[x] as int) % 0x100 &&
      r.v[FlagReg] as int * 0x100 + r.v[x] == 2 * s.v[x] as int &&
      r == s.(v := s.v[x := r.v[x]][FlagReg := r.v[FlagReg]])
  {
  }

  /**
   * 8Fy6 and 8FyE: VF is first set to the bit shifted out and then shifted itself, so 8Fy6
   * always leaves VF = 0 and 8FyE leaves 2 * (old bit 7), never the shifted value.
   */
  lemma ShiftFlagItself(s: State, y: Nibble, rnd: byte)
    requires Valid(s)
    ensures Execute(s, ShiftRight(FlagReg, y), rnd).v == s.v[FlagReg := 0]
    ensures Execute(s, ShiftLeft(FlagReg, y), rnd).v == s.v[FlagReg := 2 * (s.v[FlagReg] / 0x80)]
  {
  }

  // ---------------------------------------------------------------- sprites

  /** Set pixel (r, c) of the n-row sprite at I lands on cell k when drawn at (xc, yc). */
  predicate Covers(ram: seq<byte>, index: u16, xc: int, yc: int, n: int, k: int) {
    exists r, c :: 0 <= r < n && 0 <= c < 8 && k == CellIndex(xc, yc, r, c) &&
      SpriteAddr(index, r) < |ram| && PixelSet(ram[SpriteAddr(index, r)], c)
  }

  /** After all n rows, the painted cells are exactly the cells some set pixel lands on. */
  lemma PaintedIsCovered(ram: seq<byte>, index: u16, xc: int, yc: int, n: int, k: int)
    requires 0 <= xc && 0 <= yc && 0 <= n <= ScreenHeight && 0 <= k < ScreenSize
    ensures Painted(ram, index, xc, yc, k, n * 8) <==> Covers(ram, index, xc, yc, n, k)
  {
    if Painted(ram, index, xc, yc, k, n * 8) {
      var r, c := RowOffset(yc, k), ColOffset(xc, k);
      CellOfOffsets(xc, yc, k);
      assert 0 <= r < n && 0 <= c < 8;
    }
    if Covers(ram, index, xc, yc, n, k) {
      var r, c :| 0 <= r < n && 0 <= c < 8 && k == CellIndex(xc, yc, r, c) &&
        SpriteAddr(index, r) < |ram| && PixelSet(ram[SpriteAddr(index, r)], c);
      CellOffsets(xc, yc, r, c);
    }
  }

  /**
   * Dxyn toggles exactly the cells its set pixels land on, and no others; VF := 1 iff one of
   * them was on; nothing but the screen and VF changes.
   */
  lemma DrawTogglesExactly(s: State, x: Nibble, y: Nibble, n: Nibble)
    requires Valid(s) && SpriteInRam(s, n)
    ensures var r := DrawSprite(s, x, y, n);
      (forall k :: 0 <= k < ScreenSize ==>
        (r.screen[k] != s.screen[k] <==> Covers(s.ram, s.index, s.v[x], s.v[y], n, k))) &&
      (r.v[FlagReg] == 1 <==>
        exists k :: 0 <= k < ScreenSize && Covers(s.ram, s.index, s.v[x], s.v[y], n, k) && s.screen[k]) &&
      r.v[FlagReg] <= 1 && r == s.(screen := r.screen, v := s.v[FlagReg := r.v[FlagReg]])
  {
    var xc, yc := s.v[x], s.v[y];
    forall k | 0 <= k < ScreenSize
      ensures Painted(s.ram, s.index, xc, yc, k, n * 8) <==> Covers(s.ram, s.index, xc, yc, n, k)
    {
      PaintedIsCovered(s.ram, s.index, xc, yc, n, k);
    }
  }

  /** XOR-ing the same painted cells twice gives back the original screen. */
  lemma ToggledTwice(screen: seq<bool>, ram: seq<byte>, index: u16, xc: int, yc: int, done: int)
    ensures Toggled(Toggled(screen, ram, index, xc, yc, done), ram, index, xc, yc, done) == screen
  {
  }

  /** The second of two equal draws collides exactly where the first one switched a cell on. */
  lemma ErasesAfterToggle(screen: seq<bool>, ram: seq<byte>, index: u16, xc: int, yc: int, done: int)
    ensures Erases(Toggled(screen, ram, index, xc, yc, done), ram, index, xc, yc, done) <==>
      exists k :: 0 <= k < |screen| && Painted(ram, index, xc, yc, k, done) && !screen[k]
  {
    var t := Toggled(screen, ram, index, xc, yc, done);
    if Erases(t, ram, index, xc, yc, done) {
      var k :| 0 <= k < |t| && Painted(ram, index, xc, yc, k, done) && t[k];
      assert !screen[k];
    }
    if exists k :: 0 <= k < |screen| && Painted(ram, index, xc, yc, k, done) && !screen[k] {
      var k :| 0 <= k < |screen| && Painted(ram, index, xc, yc, k, done) && !screen[k];
      assert t[k];
    }
  }

  /**
   * Drawing the same sprite twice at the same place restores the screen, since no cell is
   * toggled twice by one draw; the second VF reports whether some covered cell was off.
   */
  lemma DrawTwiceRestores(s: State, x: Nibble, y: Nibble, n: Nibble)
    requires Valid(s) && SpriteInRam(s, n) && x != FlagReg && y != FlagReg
    ensures var once := DrawSprite(s, x, y, n);
      SpriteInRam(once, n) &&
      DrawSprite(once, x, y, n).screen == s.screen &&
      (DrawSprite(once, x, y, n).v[FlagReg] == 1 <==>
        exists k :: 0 <= k < ScreenSize && Covers(s.ram, s.index, s.v[x], s.v[y], n, k) && !s.screen[k])
  {
    var xc, yc := s.v[x], s.v[y];
    var once := DrawSprite(s, x, y, n);
    assert once.v[x] == xc && once.v[y] == yc;
    ToggledTwice(s.screen, s.ram, s.index, xc, yc, n * 8);
    ErasesAfterToggle(s.screen, s.ram, s.index, xc, yc, n * 8);
    forall k | 0 <= k < ScreenSize
      ensures Painted(s.ram, s.index, xc, yc, k, n * 8) <==> Covers(s.ram, s.index, xc, yc, n, k)
    {
      PaintedIsCovered(s.ram, s.index, xc, yc, n, k);
    }
  }

  /** Fx29 points I at the glyph of hex digit Vx, provided the font is in place. */
  lemma FontAddrSelectsGlyph(s: State, x: Nibble, rnd: byte)
    requires Valid(s) && s.v[x] < 16 && s.ram[..FontsetSize] == Fontset()
    ensures var r := Execute(s, FontAddr(x), rnd);
      r.index == GlyphAddr(s.v[x]) &&
      (forall row :: 0 <= row < 5 ==> r.ram[r.index + row] == Glyphs[s.v[x]][row]) &&
      r == s.(index := r.index)
  {
    var r := Execute(s, FontAddr(x), rnd);
    forall row | 0 <= row < 5
      ensures r.ram[r.index + row] == Glyphs[s.v[x]][row]
    {
      GlyphAt(s.v[x], row);
      assert s.ram[r.index + row] == s.ram[..FontsetSize][r.index + row];
    }
  }

  // ---------------------------------------------------------------- keys

  /** Fx0A with no key down: the tick changes nothing at all (pc += 2, then pc -= 2). */
  lemma WaitKeyIdle(s: State, x: Nibble, rnd: byte)
    requires CanTick(s) && Decode(Opcode(s)) == WaitKey(x)
    requires forall k :: 0 <= k < NumKeys ==> !s.keys[k]
    ensures Tick(s, rnd) == s
  {
    assert FirstPressed(s.keys, 0).None?;
  }

  /** Fx0A with key k down: Vx := the lowest pressed key, pc stays advanced past Fx0A. */
  lemma WaitKeyPressed(s: State, x: Nibble, k: nat, rnd: byte)
    requires CanTick(s) && Decode(Opcode(s)) == WaitKey(x) && k < NumKeys && s.keys[k]
    ensures var r := Tick(s, rnd);
      r.pc == Wrap16(s.pc + 2) && r.v[x] <= k && s.keys[r.v[x]] &&
      (forall j :: 0 <= j < r.v[x] ==> !s.keys[j]) &&
      r == s.(pc := r.pc, v := s.v[x := r.v[x]])
  {
  }

  /** Ex9E and ExA1 skip on exactly complementary conditions. */
  lemma KeySkipsComplement(s: State, x: Nibble, rnd: byte)
    requires Valid(s) && s.v[x] < NumKeys
    ensures var hit, miss := Execute(s, SkipKey(x), rnd), Execute(s, SkipNotKey(x), rnd);
      (hit == Advance(s) && miss == s) || (hit == s && miss == Advance(s))
    ensures Execute(s, SkipKey(x), rnd) == Advance(s) <==> s.keys[s.v[x]]
  {
    assert Advance(s) != s by {
      assert Advance(s).pc == Wrap16(s.pc + 2);
    }
  }

  // ---------------------------------------------------------------- memory

  /** Fx33: three decimal digits of Vx at I, I + 1, I + 2; nothing else changes. */
  lemma BcdDigits(s: State, x: Nibble, rnd: byte)
    requires Valid(s) && s.index + 2 < RamSize
    ensures var r, i := Execute(s, StoreBcd(x), rnd), s.index;
      r.ram[i] < 10 && r.ram[i + 1] < 10 && r.ram[i + 2] < 10 &&
      100 * r.ram[i] + 10 * r.ram[i + 1] + r.ram[i + 2] == s.v[x] &&
      (forall k :: 0 <= k < RamSize && !(i <= k < i + 3) ==> r.ram[k] == s.ram[k]) &&
      r == s.(ram := r.ram)
  {
  }

  /** Fx33 with Vx = 156 writes 1, 5, 6. */
  lemma BcdExample(s: State, x: Nibble, rnd: byte)
    requires Valid(s) && s.index + 2 < RamSize && s.v[x] == 156
    ensures Execute(s, StoreBcd(x), rnd).ram[s.index..s.index + 3] == [1, 5, 6]
  {
  }

  /** Fx55: ram[I + i] := Vi for i <= x; I and every other cell are unchanged. */
  lemma StoreRegsCopies(s: State, x: Nibble, rnd: byte)
    requires Valid(s) && s.index + x < RamSize
    ensures var r := Execute(s, StoreRegs(x), rnd);
      (forall i :: 0 <= i <= x ==> r.ram[s.index + i] == s.v[i]) &&
      (forall k :: 0 <= k < RamSize && !(s.index <= k <= s.index + x) ==> r.ram[k] == s.ram[k]) &&
      r == s.(ram := r.ram)
  {
  }

  /** Fx65: Vi := ram[I + i] for i <= x; I and the higher registers are unchanged. */
  lemma LoadRegsCopies(s: State, x: Nibble, rnd: byte)
    requires Valid(s) && s.index + x < RamSize
    ensures var r := Execute(s, LoadRegs(x), rnd);
      (forall i :: 0 <= i <= x ==> r.v[i] == s.ram[s.index + i]) &&
      (forall i :: x < i < NumRegs ==> r.v[i] == s.v[i]) &&
      r == s.(v := r.v)
  {
  }

  /** Fx65 right after Fx55 (same x, same I) reloads exactly what was saved: a no-op. */
  lemma StoreThenLoad(s: State, x: Nibble, rnd: byte)
    requires Valid(s) && s.index + x < RamSize
    ensures var t := Execute(s, StoreRegs(x), rnd);
      Defined(t, LoadRegs(x)) && Execute(t, LoadRegs(x), rnd) == t
  {
    var t := Execute(s, StoreRegs(x), rnd);
    StoreRegsCopies(s, x, rnd);
    assert t.ram[s.index..s.index + x + 1] == s.v[..x + 1];
  }

  /** Fx55 right after Fx65 (same x, same I) stores back what was loaded: a no-op. */
  lemma LoadThenStore(s: State, x: Nibble, rnd: byte)
    requires Valid(s) && s.index + x < RamSize
    ensures var t := Execute(s, LoadRegs(x), rnd);
      Defined(t, StoreRegs(x)) && Execute(t, StoreRegs(x), rnd) == t
  {
    var t := Execute(s, LoadRegs(x), rnd);
    LoadRegsCopies(s, x, rnd);
    assert t.ram[..t.index] + t.v[..x + 1] + t.ram[t.index + x + 1..] == t.ram;
  }

  /** `load` puts data[i] at ram[i] for the program range and leaves the rest, font included. */
  lemma LoadCopies(s: State, data: seq<byte>, size: nat)
    requires Valid(s) && CanLoad(s, data, size)
    ensures var r, end := Load(s, data, size), LoadEnd(size);
      (forall i :: StartAddr <= i < end ==> r.ram[i] == data[i]) &&
      (forall i :: 0 <= i < RamSize && !(StartAddr <= i < end) ==> r.ram[i] == s.ram[i]) &&
      r.ram[..FontsetSize] == s.ram[..FontsetSize] && r == s.(ram := r.ram)
    ensures StartAddr + size < 0x1_0000_0000 ==> LoadEnd(size) == StartAddr + size
    ensures StartAddr + size >= 0x1_0000_0000 ==> Load(s, data, size) == s
  {
  }

  // ---------------------------------------------------------------- reset and construction

  /** `reset` zeroes everything but the font region and `beeping`. */
  lemma ResetClears(s: State)
    requires Valid(s)
    ensures var r := Reset(s);
      r.pc == StartAddr && r.index == 0 && r.sp == 0 && r.dt == 0 && r.st == 0 &&
      r.beeping == s.beeping && r.ram[..FontsetSize] == s.ram[..FontsetSize] &&
      (forall k :: FontsetSize <= k < RamSize ==> r.ram[k] == 0) &&
      (forall k :: 0 <= k < ScreenSize ==> !r.screen[k]) &&
      (forall k :: 0 <= k < NumRegs ==> r.v[k] == 0) &&
      (forall k :: 0 <= k < StackSize ==> r.stack[k] == 0) &&
      (forall k :: 0 <= k < NumKeys ==> !r.keys[k])
  {
  }

  /** Resetting twice is resetting once. */
  lemma ResetIdempotent(s: State)
    requires Valid(s)
    ensures Reset(Reset(s)) == Reset(s)
  {
    var r := Reset(s);
    assert r.ram[..FontsetSize] == s.ram[..FontsetSize];
  }

  /** With the font in place, `reset` brings back the constructed machine. */
  lemma ResetIsInitial(s: State)
    requires Valid(s) && s.ram[..FontsetSize] == Fontset()
    ensures Reset(s) == Initial(s.beeping)
  {
    assert Reset(s).ram == FontRam();
  }

  /** The constructed machine holds the font, and loading a program never overwrites it. */
  lemma FontSurvivesLoad(beeping: bool, data: seq<byte>, size: nat)
    requires CanLoad(Initial(beeping), data, size)
    ensures Load(Initial(beeping), data, size).ram[..FontsetSize] == Fontset()
  {
    LoadCopies(Initial(beeping), data, size);
  }

  // ---------------------------------------------------------------- timers

  /** `tick_timers` applied n times. */
  function TickTimersN(s: State, n: nat): (r: State)
    decreases n
    ensures r == s.(dt := r.dt, st := r.st, beeping := r.beeping)
  {
    if n == 0 then s else TickTimersN(TickTimers(s), n - 1)
  }

  /**
   * After n calls both timers have counted down by n without going below zero, and (for n > 0)
   * `beeping` says whether st was still running at the start of the last call.
   */
  lemma {:induction false} TimersAfter(s: State, n: nat)
    decreases n
    ensures var r := TickTimersN(s, n);
      r.dt == (if s.dt > n then s.dt - n else 0) && r.st == (if s.st > n then s.st - n else 0) &&
      (n > 0 ==> r.beeping == (s.st >= n))
  {
    if n > 0 {
      TimersAfter(TickTimers(s), n - 1);
    }
  }

  /** With st = 1 the call that stops the timer still reports beeping; the next one clears it. */
  lemma SoundLastCall(s: State)
    requires s.st == 1
    ensures TickTimers(s).st == 0 && TickTimers(s).beeping
    ensures !TickTimers(TickTimers(s)).beeping
  {
  }

  // ---------------------------------------------------------------- return stack

  /** `pop` after `push` returns the pushed item and restores sp. */
  lemma PushPop(s: State, item: u16)
    requires Valid(s) && s.sp < StackSize
    ensures Pop(Push(s, item)) == (s.(stack := s.stack[s.sp := item]), item)
  {
  }

  /**
   * 2nnn followed (at nnn) by 00EE resumes right after the call, with sp restored; the
   * stack keeps the return address in the slot that was pushed.
   */
  lemma CallThenReturn(s: State, rnd: byte)
    requires CanTick(s) && Decode(Opcode(s)).Call?
    requires CanTick(Tick(s, rnd)) && Decode(Opcode(Tick(s, rnd))) == Ret
    ensures var r := Tick(Tick(s, rnd), rnd);
      r.pc == Wrap16(s.pc + 2) && r.sp == s.sp &&
      r == s.(pc := r.pc, stack := s.stack[s.sp := Wrap16(s.pc + 2)])
  {
  }
}

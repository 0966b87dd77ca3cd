/**
 * The machine state of class `Chip8` (Chip8.h) as a value, and every operation of Chip8.cpp
 * as a function from the old state to the new one. The class in Chip8Machine is proved
 * to follow these functions; the lemmas in Chip8Laws state what they guarantee.
 */
module Chip8Spec {
  import opened Chip8Defs
  import opened Chip8Isa

  datatype Option<T> = None | Some(value: T)

  datatype State = State(
    pc: u16,            // program counter
    index: u16,         // i_reg
    sp: u16,            // stack pointer
    dt: byte,           // delay timer
    st: byte,           // sound timer
    beeping: bool,
    ram: seq<byte>,
    screen: seq<bool>,  // row-major, ScreenWidth cells per row
    v: seq<byte>,       // V0 .. VF
    stack: seq<u16>,
    keys: seq<bool>)

  /** The fixed array sizes of Chip8.h. */
  predicate Valid(s: State) {
    |s.ram| == RamSize && |s.screen| == ScreenSize && |s.v| == NumRegs &&
    |s.stack| == StackSize && |s.keys| == NumKeys
  }

  function Zeros(n: nat): (z: seq<byte>)
    ensures |z| == n && forall k :: 0 <= k < n ==> z[k] == 0
  {
    seq(n, _ => 0)
  }

  function Blank(n: nat): (z: seq<bool>)
    ensures |z| == n && forall k :: 0 <= k < n ==> !z[k]
  {
    seq(n, _ => false)
  }

  /** RAM holding the font below FontsetSize and zeros above it. */
  function FontRam(): (m: seq<byte>)
    ensures |m| == RamSize && m[..FontsetSize] == Fontset()
    ensures forall k :: FontsetSize <= k < RamSize ==> m[k] == 0
  {
    Fontset() + Zeros(RamSize - FontsetSize)
  }

  /**
   * The state left by the constructor. `beeping` has no initializer in Chip8.h, so its
   * initial value is a parameter: anything the object happened to hold.
   */
  function Initial(beeping: bool): (s: State)
    ensures Valid(s)
  {
    State(StartAddr, 0, 0, 0, 0, beeping, FontRam(), Blank(ScreenSize), Zeros(NumRegs),
          Zeros(StackSize), Blank(NumKeys))
  }

  // ---------------------------------------------------------------- host interface

  /** `keypress(idx, pressed)`; an index of 16 or more is out of bounds in the source. */
  function Keypress(s: State, idx: nat, pressed: bool): (r: State)
    requires Valid(s) && idx < NumKeys
    ensures Valid(r) && r.keys[idx] == pressed
    ensures forall k :: 0 <= k < NumKeys && k != idx ==> r.keys[k] == s.keys[k]
    ensures r == s.(keys := r.keys)
  {
    s.(keys := s.keys[idx := pressed])
  }

  /**
   * `unsigned int end = START_ADDR + size`: the end of the copy, wrapping at 2^32. When it
   * wraps, the end lies below the start.
   */
  function LoadEnd(size: nat): (e: nat)
    requires size < 0x1_0000_0000
    ensures e < 0x1_0000_0000
    ensures StartAddr + size < 0x1_0000_0000 ==> e == StartAddr + size
    ensures StartAddr + size >= 0x1_0000_0000 ==> e < StartAddr
  {
    (StartAddr + size) % 0x1_0000_0000
  }

  /**
   * `load(data, size)`: the loop runs i over [StartAddr, end) and copies data[i] (not
   * data[i - StartAddr]) into ram[i]; with a wrapped end it runs zero times. The caller
   * guarantees that `size` fits an `unsigned int` and that both indexings stay in bounds.
   */
  predicate CanLoad(s: State, data: seq<byte>, size: nat) {
    size < 0x1_0000_0000 &&
    (LoadEnd(size) <= StartAddr || (LoadEnd(size) <= |s.ram| && LoadEnd(size) <= |data|))
  }

  function Load(s: State, data: seq<byte>, size: nat): (r: State)
    requires Valid(s) && CanLoad(s, data, size)
    ensures Valid(r)
  {
    var end := LoadEnd(size);
    if end <= StartAddr then s
    else s.(ram := s.ram[..StartAddr] + data[StartAddr..end] + s.ram[end..])
  }

  /** `reset()`: zero everything except the font region and `beeping`; pc back to StartAddr. */
  function Reset(s: State): (r: State)
    requires Valid(s)
    ensures Valid(r)
  {
    s.(pc := StartAddr, index := 0, sp := 0, dt := 0, st := 0,
       ram := s.ram[..FontsetSize] + Zeros(RamSize - FontsetSize),
       screen := Blank(ScreenSize), v := Zeros(NumRegs), stack := Zeros(StackSize),
       keys := Blank(NumKeys))
  }

  /** `tick_timers()`: both timers count down to zero; `beeping` records whether st was running. */
  function TickTimers(s: State): (r: State)
    ensures r == s.(dt := r.dt, st := r.st, beeping := r.beeping)
    ensures r.dt <= s.dt && r.st <= s.st && (r.dt == 0 <==> s.dt <= 1) && (r.st == 0 <==> s.st <= 1)
    ensures r.beeping <==> s.st > 0
  {
    s.(dt := if s.dt > 0 then s.dt - 1 else s.dt,
       beeping := s.st > 0,
       st := if s.st > 0 then s.st - 1 else s.st)
  }

  // ---------------------------------------------------------------- return stack

  /** `push(item)`: stack[sp] := item; sp++. Pushing onto a full stack is out of bounds. */
  function Push(s: State, item: u16): (r: State)
    requires Valid(s) && s.sp < StackSize
    ensures Valid(r)
  {
    s.(stack := s.stack[s.sp := item], sp := s.sp + 1)
  }

  /** `pop()`: sp--; return stack[sp]. Popping an empty stack is out of bounds. */
  function Pop(s: State): (r: (State, u16))
    requires Valid(s) && 0 < s.sp <= StackSize
    ensures Valid(r.0)
  {
    (s.(sp := s.sp - 1), s.stack[s.sp - 1])
  }

  // ---------------------------------------------------------------- fetch

  /** Both opcode bytes lie inside RAM: the source reads ram[pc] and ram[pc + 1] unchecked. */
  predicate CanFetch(s: State) {
    s.pc + 1 < |s.ram|
  }

  /** The big-endian opcode at pc: `(ram[pc] << 8) | ram[pc + 1]`. */
  function Opcode(s: State): (op: u16)
    requires CanFetch(s)
    ensures op / 0x100 == s.ram[s.pc] && op % 0x100 == s.ram[s.pc + 1]
  {
    s.ram[s.pc] as int * 0x100 + s.ram[s.pc + 1]
  }

  /**
   * `pc += 2` in 16 bits: the state change made by `fetch`, and the skip of the next
   * instruction taken by 3xkk, 4xkk, 5xy0, 9xy0, Ex9E and ExA1.
   */
  function Advance(s: State): (r: State)
    ensures r == s.(pc := r.pc) && (r.pc - s.pc) % 0x1_0000 == 2
    ensures Valid(s) ==> Valid(r)
  {
    s.(pc := Wrap16(s.pc + 2))
  }

  // ---------------------------------------------------------------- execute

  function SetV(s: State, x: nat, val: byte): (r: State)
    requires Valid(s) && x < NumRegs
    ensures Valid(r)
  {
    s.(v := s.v[x := val])
  }

  /** The address of sprite row r: `u16 addr = i_reg + y_line`. */
  function SpriteAddr(index: u16, r: int): (a: int)
    ensures 0 <= a < 0x1_0000 && (0 <= index + r < 0x1_0000 ==> a == index + r)
  {
    (index + r) % 0x1_0000
  }

  /** Screen cell of sprite row r, column c drawn at (xc, yc), both coordinates wrapping. */
  function CellIndex(xc: int, yc: int, r: int, c: int): (k: int)
    ensures 0 <= k < ScreenSize
  {
    ((yc + r) % ScreenHeight) * ScreenWidth + (xc + c) % ScreenWidth
  }

  /** Which sprite row and column land on cell k when drawing at (xc, yc). */
  function RowOffset(yc: int, k: int): int { (k / ScreenWidth - yc) % ScreenHeight }
  function ColOffset(xc: int, k: int): int { (k % ScreenWidth - xc) % ScreenWidth }

  /**
   * Cell k is toggled by one of the first `done` sprite pixels visited by Dxyn (visiting rows
   * top to bottom and, within a row, columns left to right; pixel r * 8 + c).
   */
  predicate Painted(ram: seq<byte>, index: u16, xc: int, yc: int, k: int, done: int) {
    var r, c := RowOffset(yc, k), ColOffset(xc, k);
    c < 8 && r * 8 + c < done && SpriteAddr(index, r) < |ram| && PixelSet(ram[SpriteAddr(index, r)], c)
  }

  /** Every row of an n-row sprite at I lies inside RAM. */
  predicate SpriteInRam(s: State, n: nat) {
    forall r :: 0 <= r < n ==> SpriteAddr(s.index, r) < |s.ram|
  }

  /**
   * Dxyn: XOR the n-row sprite at I onto the screen at (Vx, Vy); VF := 1 iff some cell that
   * was on is toggled. The coordinates are read before VF is written.
   */
  function DrawSprite(s: State, x: Nibble, y: Nibble, n: Nibble): (r: State)
    requires Valid(s) && SpriteInRam(s, n)
    ensures Valid(r)
  {
    var xc, yc := s.v[x], s.v[y];
    s.(screen := Toggled(s.screen, s.ram, s.index, xc, yc, n * 8),
       v := s.v[FlagReg := if Erases(s.screen, s.ram, s.index, xc, yc, n * 8) then 1 else 0])
  }

  /** The screen after XOR-ing the first `done` sprite pixels onto it. */
  function Toggled(screen: seq<bool>, ram: seq<byte>, index: u16, xc: int, yc: int, done: int): (t: seq<bool>)
    ensures |t| == |screen|
  {
    seq(|screen|, k requires 0 <= k < |screen| => screen[k] != Painted(ram, index, xc, yc, k, done))
  }

  /** Some cell toggled by the first `done` sprite pixels was on: the `has_erased` flag. */
  predicate Erases(screen: seq<bool>, ram: seq<byte>, index: u16, xc: int, yc: int, done: int) {
    exists k :: 0 <= k < |screen| && Painted(ram, index, xc, yc, k, done) && screen[k]
  }

  /** Drawing at (xc, yc), sprite row r and column c land on cell CellIndex, and nowhere else. */
  lemma CellOffsets(xc: int, yc: int, r: int, c: int)
    requires 0 <= xc && 0 <= yc && 0 <= r < ScreenHeight && 0 <= c < ScreenWidth
    ensures 0 <= CellIndex(xc, yc, r, c) < ScreenSize
    ensures RowOffset(yc, CellIndex(xc, yc, r, c)) == r && ColOffset(xc, CellIndex(xc, yc, r, c)) == c
  {
    var row, col := (yc + r) % ScreenHeight, (xc + c) % ScreenWidth;
    var k := row * ScreenWidth + col;
    assert k / ScreenWidth == row && k % ScreenWidth == col;
    assert (row - yc) % ScreenHeight == r by {
      assert row - yc == r - ScreenHeight * ((yc + r) / ScreenHeight);
    }
    assert (col - xc) % ScreenWidth == c by {
      assert col - xc == c - ScreenWidth * ((xc + c) / ScreenWidth);
    }
  }

  /** Every cell is the landing cell of its own row and column offsets. */
  lemma CellOfOffsets(xc: int, yc: int, k: int)
    requires 0 <= xc && 0 <= yc && 0 <= k < ScreenSize
    ensures k == CellIndex(xc, yc, RowOffset(yc, k), ColOffset(xc, k))
  {
    var row, col := k / ScreenWidth, k % ScreenWidth;
    var r, c := RowOffset(yc, k), ColOffset(xc, k);
    assert (yc + r) % ScreenHeight == row by {
      assert yc + r == row - ScreenHeight * ((row - yc) / ScreenHeight) by {
        assert r == (row - yc) - ScreenHeight * ((row - yc) / ScreenHeight);
      }
    }
    assert (xc + c) % ScreenWidth == col by {
      assert c == (col - xc) - ScreenWidth * ((col - xc) / ScreenWidth);
    }
  }

  /**
   * Visiting sprite pixel r * 8 + c adds exactly the cell CellIndex(xc, yc, r, c) to the
   * painted cells, and only when that pixel is set: no cell is painted twice by one Dxyn.
   */
  lemma PaintedStep(ram: seq<byte>, index: u16, xc: int, yc: int, r: int, c: int, k: int)
    requires 0 <= xc && 0 <= yc && 0 <= r < ScreenHeight && 0 <= c < 8 && 0 <= k < ScreenSize
    ensures Painted(ram, index, xc, yc, k, r * 8 + c + 1) <==>
      Painted(ram, index, xc, yc, k, r * 8 + c) ||
      (k == CellIndex(xc, yc, r, c) && SpriteAddr(index, r) < |ram| && PixelSet(ram[SpriteAddr(index, r)], c))
  {
    var kr, kc := RowOffset(yc, k), ColOffset(xc, k);
    if k == CellIndex(xc, yc, r, c) {
      CellOffsets(xc, yc, r, c);
    } else if kc < 8 && kr * 8 + kc == r * 8 + c {
      assert kr == r && kc == c;
      CellOfOffsets(xc, yc, k);
    }
  }

  /**
   * One step of the Dxyn loops: visiting pixel (r, c) flips the landing cell when the pixel is
   * set, and the collision flag then also records whether that cell was on just before.
   */
  lemma ToggleStep(screen: seq<bool>, ram: seq<byte>, index: u16, xc: int, yc: int, r: int, c: int)
    requires |screen| == ScreenSize && 0 <= xc && 0 <= yc && 0 <= r < ScreenHeight && 0 <= c < 8
    requires SpriteAddr(index, r) < |ram|
    ensures 0 <= CellIndex(xc, yc, r, c) < ScreenSize
    ensures var cell, now := CellIndex(xc, yc, r, c), Toggled(screen, ram, index, xc, yc, r * 8 + c);
      if PixelSet(ram[SpriteAddr(index, r)], c) then
        Toggled(screen, ram, index, xc, yc, r * 8 + c + 1) == now[cell := !now[cell]] &&
        (Erases(screen, ram, index, xc, yc, r * 8 + c + 1) <==>
          Erases(screen, ram, index, xc, yc, r * 8 + c) || now[cell])
      else
        Toggled(screen, ram, index, xc, yc, r * 8 + c + 1) == now &&
        (Erases(screen, ram, index, xc, yc, r * 8 + c + 1) <==> Erases(screen, ram, index, xc, yc, r * 8 + c))
  {
    var cell, p := CellIndex(xc, yc, r, c), r * 8 + c;
    var now, next := Toggled(screen, ram, index, xc, yc, p), Toggled(screen, ram, index, xc, yc, p + 1);
    CellOffsets(xc, yc, r, c);
    assert !Painted(ram, index, xc, yc, cell, p);
    forall k | 0 <= k < ScreenSize
      ensures Painted(ram, index, xc, yc, k, p + 1) <==>
        Painted(ram, index, xc, yc, k, p) || (k == cell && PixelSet(ram[SpriteAddr(index, r)], c))
    {
      PaintedStep(ram, index, xc, yc, r, c, k);
    }
    if PixelSet(ram[SpriteAddr(index, r)], c) {
      assert next == now[cell := !now[cell]];
      if now[cell] {
        assert Painted(ram, index, xc, yc, cell, p + 1) && screen[cell];
      }
    } else {
      assert next == now;
    }
  }

  /** The lowest pressed key at or after `from`, as found by the Fx0A scan. */
  function FirstPressed(keys: seq<bool>, from: nat): (r: Option<nat>)
    decreases |keys| - from
    ensures r.Some? ==>
      from <= r.value < |keys| && keys[r.value] && (forall j :: from <= j < r.value ==> !keys[j])
    ensures r.None? ==> forall j :: from <= j < |keys| ==> !keys[j]
  {
    if from >= |keys| then None
    else if keys[from] then Some(from)
    else FirstPressed(keys, from + 1)
  }

  /**
   * What each instruction needs so that the source does not index out of bounds:
   * the return stack for 00EE/2nnn, the sprite rows for Dxyn, keys[Vx] for Ex9E/ExA1,
   * and the RAM cells written or read by Fx33/Fx55/Fx65.
   */
  predicate Defined(s: State, ins: Instr)
    requires Valid(s)
  {
    match ins
    case Ret => 0 < s.sp <= StackSize
    case Call(_) => s.sp < StackSize
    case Draw(_, _, n) => SpriteInRam(s, n)
    case SkipKey(x) => s.v[x] < NumKeys
    case SkipNotKey(x) => s.v[x] < NumKeys
    case StoreBcd(_) => s.index + 2 < RamSize
    case StoreRegs(x) => s.index + x < RamSize
    case LoadRegs(x) => s.index + x < RamSize
    case _ => true
  }

  /** Branches that change only pc and the return stack: returns, jumps, calls and skips. */
  predicate IsControl(ins: Instr) {
    match ins
    case Ret | Jump(_) | Call(_) | SkipEqImm(_, _) | SkipNeImm(_, _) | SkipEqReg(_, _)
      | SkipEqReg9(_, _) | JumpV0(_) | SkipKey(_) | SkipNotKey(_) => true
    case _ => false
  }

  /** Branches that write one V register and leave VF alone (unless VF is the target). */
  predicate IsLoad(ins: Instr) {
    match ins
    case LoadImm(_, _) | AddImm(_, _) | Move(_, _) | Or(_, _) | And(_, _) | Xor(_, _)
      | Random(_, _) | LoadDelay(_) => true
    case _ => false
  }

  /** The 8xy_ branches that also write the flag register VF. */
  predicate IsArith(ins: Instr) {
    ins.AddReg? || ins.SubReg? || ins.ShiftRight? || ins.SubNeg? || ins.ShiftLeft?
  }

  /** Branches on the timers, on I and on RAM, and the opcodes that match no branch. */
  predicate IsMemory(ins: Instr) {
    match ins
    case SetDelay(_) | SetSound(_) | LoadIndex(_) | AddIndex(_) | FontAddr(_) | StoreBcd(_)
      | StoreRegs(_) | LoadRegs(_) | Unknown(_) => true
    case _ => false
  }

  /**
   * One branch of `execute`, with `rnd` standing for the `random(256)` byte of Cxkk.
   * The branches are grouped by the part of the state they change.
   */
  function Execute(s: State, ins: Instr, rnd: byte): (r: State)
    requires Valid(s) && Defined(s, ins)
    ensures Valid(r)
  {
    if ins.Cls? then s.(screen := Blank(ScreenSize))
    else if ins.Draw? then DrawSprite(s, ins.x, ins.y, ins.n)
    else if ins.WaitKey? then WaitForKey(s, ins.x)
    else if IsControl(ins) then ExecuteControl(s, ins)
    else if IsLoad(ins) then ExecuteLoad(s, ins, rnd)
    else if IsArith(ins) then ExecuteArith(s, ins)
    else ExecuteMemory(s, ins)
  }

  /** 00EE, 1nnn, 2nnn, 3xkk, 4xkk, 5xy0, 9xy0, Bnnn, Ex9E, ExA1. */
  function ExecuteControl(s: State, ins: Instr): (r: State)
    requires Valid(s) && Defined(s, ins) && IsControl(ins)
    ensures Valid(r)
  {
    match ins
    case Ret => var popped := Pop(s); popped.0.(pc := popped.1)
    case Jump(nnn) => s.(pc := nnn)
    case Call(nnn) => Push(s, s.pc).(pc := nnn)
    case SkipEqImm(x, kk) => if s.v[x] == kk then Advance(s) else s
    case SkipNeImm(x, kk) => if s.v[x] != kk then Advance(s) else s
    case SkipEqReg(x, y) => if s.v[x] == s.v[y] then Advance(s) else s
    case SkipEqReg9(x, y) => if s.v[x] == s.v[y] then Advance(s) else s
    case JumpV0(nnn) => s.(pc := s.v[0] as int + nnn)
    case SkipKey(x) => if s.keys[s.v[x]] then Advance(s) else s
    case SkipNotKey(x) => if !s.keys[s.v[x]] then Advance(s) else s
  }

  /** 6xkk, 7xkk, 8xy0 .. 8xy3, Cxkk, Fx07. */
  function ExecuteLoad(s: State, ins: Instr, rnd: byte): (r: State)
    requires Valid(s) && IsLoad(ins)
    ensures Valid(r)
  {
    match ins
    case LoadImm(x, kk) => SetV(s, x, kk)
    case AddImm(x, kk) => SetV(s, x, Wrap8(s.v[x] as int + kk))
    case Move(x, y) => SetV(s, x, s.v[y])
    case Or(x, y) => SetV(s, x, Or8(s.v[x], s.v[y]))
    case And(x, y) => SetV(s, x, And8(s.v[x], s.v[y]))
    case Xor(x, y) => SetV(s, x, Xor8(s.v[x], s.v[y]))
    case Random(x, kk) => SetV(s, x, And8(rnd, kk))
    case LoadDelay(x) => SetV(s, x, s.dt)
  }

  /**
   * 8xy4, 8xy5, 8xy6, 8xy7, 8xyE. Vx is written first and VF last, except for the shifts,
   * which write VF first and then shift Vx.
   */
  function ExecuteArith(s: State, ins: Instr): (r: State)
    requires Valid(s) && IsArith(ins)
    ensures Valid(r)
  {
    match ins
    case AddReg(x, y) =>
      var vy := s.v[y];
      var sum := Wrap8(s.v[x] as int + vy);
      var carry := sum < s.v[x] || sum < vy;
      SetV(SetV(s, x, sum), FlagReg, if carry then 1 else 0)
    case SubReg(x, y) =>
      var vy := s.v[y];
      var diff := Wrap8(s.v[x] as int - vy);
      SetV(SetV(s, x, diff), FlagReg, if diff > vy then 1 else 0)
    case ShiftRight(x, _) =>
      var t := SetV(s, FlagReg, s.v[x] % 2);
      SetV(t, x, t.v[x] / 2)
    case SubNeg(x, y) =>
      var vy := s.v[y];
      var diff := Wrap8(vy as int - s.v[x]);
      SetV(SetV(s, x, diff), FlagReg, if vy > diff then 1 else 0)
    case ShiftLeft(x, _) =>
      var t := SetV(s, FlagReg, s.v[x] / 0x80);
      SetV(t, x, Wrap8(t.v[x] as int * 2))
  }

  /** Fx0A: Vx := the lowest pressed key; with none pressed, pc -= 2 so Fx0A runs again. */
  function WaitForKey(s: State, x: Nibble): (r: State)
    requires Valid(s)
    ensures Valid(r)
  {
    match FirstPressed(s.keys, 0)
    case Some(k) => SetV(s, x, k)
    case None => s.(pc := Wrap16(s.pc - 2))
  }

  /** Fx15, Fx18, Annn, Fx1E, Fx29, Fx33, Fx55, Fx65, and the opcodes of no branch. */
  function ExecuteMemory(s: State, ins: Instr): (r: State)
    requires Valid(s) && Defined(s, ins) && IsMemory(ins)
    ensures Valid(r)
  {
    match ins
    case SetDelay(x) => s.(dt := s.v[x])
    case SetSound(x) => s.(st := s.v[x])
    case LoadIndex(nnn) => s.(index := nnn)
    case AddIndex(x) => s.(index := Wrap16(s.index as int + s.v[x]))
    case FontAddr(x) => s.(index := s.v[x] as int * 5)
    case StoreBcd(x) =>
      var vx := s.v[x];
      s.(ram := s.ram[s.index := vx / 100][s.index + 1 := (vx / 10) % 10][s.index + 2 := vx % 10])
    case StoreRegs(x) =>
      s.(ram := s.ram[..s.index] + s.v[..x + 1] + s.ram[s.index + x + 1..])
    case LoadRegs(x) =>
      s.(v := s.ram[s.index..s.index + x + 1] + s.v[x + 1..])
    case Unknown(_) => s
  }

  /** `tick()` is allowed: the opcode is fetchable and its branch stays in bounds. */
  predicate CanTick(s: State) {
    Valid(s) && CanFetch(s) && Defined(Advance(s), Decode(Opcode(s)))
  }

  /** `tick()`: fetch (pc += 2), then execute the fetched opcode on the advanced state. */
  function Tick(s: State, rnd: byte): (r: State)
    requires CanTick(s)
    ensures Valid(r)
  {
    Execute(Advance(s), Decode(Opcode(s)), rnd)
  }
}

/**
 * class Chip8 of Chip8.h / Chip8.cpp: registers as mutable fields, RAM, screen, V registers,
 * return stack and keypad as arrays updated in place. Every state-changing public method, and
 * each helper it hands a whole branch to, is proved to move the machine from `old(Snapshot())`
 * to the state the matching function of Chip8Spec computes; DrawRow and the Clear helpers state
 * their loop's effect on the arrays they change, and GetDisplay returns the screen's contents.
 */
module Chip8Machine {
  import opened Chip8Defs
  import opened Chip8Isa
  import Spec = Chip8Spec

  class Chip8 {
    var pc: u16
    var index: u16   // i_reg
    var sp: u16
    var dt: byte
    var st: byte
    var beeping: bool
    const ram: array<byte>
    const screen: array<bool>
    const v: array<byte>
    const stack: array<u16>
    const keys: array<bool>

    /** The array sizes of Chip8.h; the arrays are distinct members, so they never alias. */
    ghost predicate Valid()
      reads this
    {
      ram.Length == RamSize && screen.Length == ScreenSize && v.Length == NumRegs &&
      stack.Length == StackSize && keys.Length == NumKeys &&
      ram != v && ram as object != stack && v as object != stack && screen != keys
    }

    /** The whole machine as a value of the specification. */
    ghost function Snapshot(): (s: Spec.State)
      requires Valid()
      reads this, ram, screen, v, stack, keys
      ensures Spec.Valid(s)
    {
      Spec.State(pc, index, sp, dt, st, beeping, ram[..], screen[..], v[..], stack[..], keys[..])
    }

    /**
     * `Chip8()`: registers zeroed, pc at StartAddr, the font copied to the bottom of RAM.
     * The arrays are value-initialised members, hence all zero; `beeping` is left as it was.
     */
    constructor ()
      ensures Valid() && Snapshot() == Spec.Initial(beeping)
      ensures fresh(ram) && fresh(screen) && fresh(v) && fresh(stack) && fresh(keys)
    {
      pc, index, sp, dt, st := StartAddr, 0, 0, 0, 0;
      var mem := new byte[RamSize](_ => 0);
      var font := Fontset();
      for i := 0 to FontsetSize
        invariant forall k :: 0 <= k < RamSize ==> mem[k] == if k < i then font[k] else 0
      {
        mem[i] := font[i];
      }
      assert mem[..] == Spec.FontRam();
      ram := mem;
      screen := new bool[ScreenSize](_ => false);
      v := new byte[NumRegs](_ => 0);
      stack := new u16[StackSize](_ => 0);
      keys := new bool[NumKeys](_ => false);
      new;
      assert screen[..] == Spec.Blank(ScreenSize) && keys[..] == Spec.Blank(NumKeys);
      assert v[..] == Spec.Zeros(NumRegs) && stack[..] == Spec.Zeros(StackSize);
    }

    /** `push(item)`. */
    method Push(item: u16)
      requires Valid() && sp < StackSize
      modifies this`sp, stack
      ensures Valid() && Snapshot() == Spec.Push(old(Snapshot()), item)
    {
      stack[sp] := item;
      sp := sp + 1;
    }

    /** `pop()`. */
    method Pop() returns (item: u16)
      requires Valid() && 0 < sp <= StackSize
      modifies this`sp
      ensures Valid() && (Snapshot(), item) == Spec.Pop(old(Snapshot()))
    {
      sp := sp - 1;
      item := stack[sp];
    }

    /** `get_display()`: the host reads the screen cells, row-major. */
    method GetDisplay() returns (cells: seq<bool>)
      requires Valid()
      ensures |cells| == ScreenSize && forall k :: 0 <= k < ScreenSize ==> cells[k] == screen[k]
    {
      cells := screen[..];
    }

    /** `keypress(idx, pressed)`. */
    method Keypress(idx: nat, pressed: bool)
      requires Valid() && idx < NumKeys
      modifies keys
      ensures Valid() && Snapshot() == Spec.Keypress(old(Snapshot()), idx, pressed)
    {
      keys[idx] := pressed;
    }

    /** `load(data, size)`: ram[i] := data[i] for i from StartAddr up to the (wrapping) end. */
    method Load(data: seq<byte>, size: nat)
      requires Valid() && Spec.CanLoad(Snapshot(), data, size)
      modifies ram
      ensures Valid() && Snapshot() == Spec.Load(old(Snapshot()), data, size)
    {
      var start: nat := StartAddr;
      var end := Spec.LoadEnd(size);
      var i := start;
      while i < end
        invariant start <= i && (if start < end then i <= end else i == start)
        invariant forall k :: 0 <= k < RamSize ==> ram[k] == if start <= k < i then data[k] else old(ram[k])
      {
        ram[i] := data[i];
        i := i + 1;
      }
      if start < end {
        assert ram[..] == old(ram[..])[..start] + data[start..end] + old(ram[..])[end..];
      } else {
        assert ram[..] == old(ram[..]);
      }
    }

    /** `reset()`: the RAM loop clears every cell from FontsetSize up and keeps the font. */
    method Reset()
      requires Valid()
      modifies this, ram, screen, v, stack, keys
      ensures Valid() && Snapshot() == Spec.Reset(old(Snapshot()))
    {
      pc, index, sp, dt, st := StartAddr, 0, 0, 0, 0;
      ClearProgramRam();
      ClearScreen();
      ClearRegisters();
    }

    /** The V register, stack and key loops of `reset()`. */
    method ClearRegisters()
      requires Valid()
      modifies v, stack, keys
      ensures v[..] == Spec.Zeros(NumRegs) && stack[..] == Spec.Zeros(StackSize)
      ensures keys[..] == Spec.Blank(NumKeys)
    {
      for i := 0 to NumRegs
        invariant forall k :: 0 <= k < i ==> v[k] == 0
        modifies v
      {
        v[i] := 0;
      }
      assert v[..] == Spec.Zeros(NumRegs);
      for i := 0 to StackSize
        invariant forall k :: 0 <= k < i ==> stack[k] == 0
        modifies stack
      {
        stack[i] := 0;
      }
      assert stack[..] == Spec.Zeros(StackSize);
      for i := 0 to NumKeys
        invariant forall k :: 0 <= k < i ==> !keys[k]
        modifies keys
      {
        keys[i] := false;
      }
    }

    /** The RAM loop of `reset()`: every cell from FontsetSize up is zeroed, the font is kept. */
    method ClearProgramRam()
      requires Valid()
      modifies ram
      ensures ram[..] == old(ram[..])[..FontsetSize] + Spec.Zeros(RamSize - FontsetSize)
    {
      for i := 0 to RamSize
        invariant forall k :: 0 <= k < RamSize ==> ram[k] == if FontsetSize <= k < i then 0 else old(ram[k])
      {
        if i >= FontsetSize {
          ram[i] := 0;
        }
      }
    }

    /** `tick()`: fetch the opcode at pc, then execute it. */
    method Tick(rnd: byte)
      requires Valid() && Spec.CanTick(Snapshot())
      modifies this, ram, screen, v, stack
      ensures Valid() && Snapshot() == Spec.Tick(old(Snapshot()), rnd)
    {
      var op := Fetch();
      Execute(op, rnd);
    }

    /** `fetch()`: the big-endian word at pc; pc advances by two. */
    method Fetch() returns (op: u16)
      requires Valid() && Spec.CanFetch(Snapshot())
      modifies this`pc
      ensures Valid() && op == Spec.Opcode(old(Snapshot()))
      ensures Snapshot() == Spec.Advance(old(Snapshot()))
    {
      var high := ram[pc];
      var low := ram[pc + 1];
      pc := Wrap16(pc as int + 2);
      op := high as int * 0x100 + low;
    }

    /** `tick_timers()`. */
    method TickTimers()
      requires Valid()
      modifies this`dt, this`st, this`beeping
      ensures Valid() && Snapshot() == Spec.TickTimers(old(Snapshot()))
    {
      if dt > 0 {
        dt := dt - 1;
      }
      if st > 0 {
        beeping := true;
        st := st - 1;
      } else {
        beeping := false;
      }
    }

    /** `execute(op)`, with `rnd` standing for the value `random(256)` returns. */
    method Execute(op: u16, rnd: byte)
      requires Valid() && Spec.Defined(Snapshot(), Decode(op))
      modifies this, ram, screen, v, stack
      ensures Valid() && Snapshot() == Spec.Execute(old(Snapshot()), Decode(op), rnd)
    {
      var ins := Decode(op);
      if ins.Cls? {
        ClearScreen();
      } else if ins.Draw? {
        DrawSprite(ins.x, ins.y, ins.n);
      } else if ins.WaitKey? {
        WaitForKey(ins.x);
      } else if Spec.IsControl(ins) {
        ExecuteControl(ins);
      } else if Spec.IsLoad(ins) {
        ExecuteLoad(ins, rnd);
      } else if Spec.IsArith(ins) {
        ExecuteArith(ins);
      } else {
        ExecuteMemory(ins);
      }
    }

    /** 00EE, 1nnn, 2nnn, 3xkk, 4xkk, 5xy0, 9xy0, Bnnn, Ex9E, ExA1. */
    method ExecuteControl(ins: Instr)
      requires Valid() && Spec.Defined(Snapshot(), ins) && Spec.IsControl(ins)
      modifies this`pc, this`sp, stack
      ensures Valid() && Snapshot() == Spec.ExecuteControl(old(Snapshot()), ins)
    {
      match ins {
        case Ret => pc := Pop();
        case Jump(nnn) => pc := nnn;
        case Call(nnn) =>
          Push(pc);
          pc := nnn;
        case SkipEqImm(x, kk) =>
          if v[x] == kk { pc := Wrap16(pc as int + 2); }
        case SkipNeImm(x, kk) =>
          if v[x] != kk { pc := Wrap16(pc as int + 2); }
        case SkipEqReg(x, y) =>
          if v[x] == v[y] { pc := Wrap16(pc as int + 2); }
        case SkipEqReg9(x, y) =>
          if v[x] == v[y] { pc := Wrap16(pc as int + 2); }
        case JumpV0(nnn) => pc := v[0] as int + nnn;
        case SkipKey(x) =>
          if keys[v[x]] { pc := Wrap16(pc as int + 2); }
        case SkipNotKey(x) =>
          if !keys[v[x]] { pc := Wrap16(pc as int + 2); }
      }
    }

    /** 6xkk, 7xkk, 8xy0 .. 8xy3, Cxkk, Fx07. */
    method ExecuteLoad(ins: Instr, rnd: byte)
      requires Valid() && Spec.IsLoad(ins)
      modifies v
      ensures Valid() && Snapshot() == Spec.ExecuteLoad(old(Snapshot()), ins, rnd)
    {
      match ins {
        case LoadImm(x, kk) => v[x] := kk;
        case AddImm(x, kk) => v[x] := Wrap8(v[x] as int + kk);
        case Move(x, y) => v[x] := v[y];
        case Or(x, y) => v[x] := Or8(v[x], v[y]);
        case And(x, y) => v[x] := And8(v[x], v[y]);
        case Xor(x, y) => v[x] := Xor8(v[x], v[y]);
        case Random(x, kk) => v[x] := And8(rnd, kk);
        case LoadDelay(x) => v[x] := dt;
      }
    }

    /** 8xy4, 8xy5, 8xy6, 8xy7, 8xyE. */
    method ExecuteArith(ins: Instr)
      requires Valid() && Spec.IsArith(ins)
      modifies v
      ensures Valid() && Snapshot() == Spec.ExecuteArith(old(Snapshot()), ins)
    {
      match ins {
        case AddReg(x, y) =>
          var vy := v[y];
          var sum := Wrap8(v[x] as int + vy);
          var carry := sum < v[x] || sum < vy;
          v[x] := sum;
          v[FlagReg] := if carry then 1 else 0;
        case SubReg(x, y) =>
          var vy := v[y];
          v[x] := Wrap8(v[x] as int - vy);
          v[FlagReg] := if v[x] > vy then 1 else 0;
        case ShiftRight(x, _) =>
          var lsb := v[x] % 2;
          v[FlagReg] := lsb;
          v[x] := v[x] / 2;
        case SubNeg(x, y) =>
          var vy := v[y];
          v[x] := Wrap8(vy as int - v[x]);
          v[FlagReg] := if vy > v[x] then 1 else 0;
        case ShiftLeft(x, _) =>
          var msb := v[x] / 0x80;
          v[FlagReg] := msb;
          v[x] := Wrap8(v[x] as int * 2);
      }
    }

    /** Fx15, Fx18, Annn, Fx1E, Fx29, Fx33, Fx55, Fx65, and the opcodes of no branch. */
    method ExecuteMemory(ins: Instr)
      requires Valid() && Spec.Defined(Snapshot(), ins) && Spec.IsMemory(ins)
      modifies this`dt, this`st, this`index, ram, v
      ensures Valid() && Snapshot() == Spec.ExecuteMemory(old(Snapshot()), ins)
    {
      match ins {
        case SetDelay(x) => dt := v[x];
        case SetSound(x) => st := v[x];
        case LoadIndex(nnn) => index := nnn;
        case AddIndex(x) => index := Wrap16(index as int + v[x]);
        case FontAddr(x) => index := v[x] as int * 5;
        case StoreBcd(x) => WriteBcd(x);
        case StoreRegs(x) => WriteRegs(x);
        case LoadRegs(x) => ReadRegs(x);
        case Unknown(_) =>
      }
    }

    /** 00E0, and the screen loop of `reset()`: every cell off. */
    method ClearScreen()
      requires Valid()
      modifies screen
      ensures Valid() && Snapshot() == old(Snapshot()).(screen := Spec.Blank(ScreenSize))
    {
      for i := 0 to ScreenSize
        invariant forall k :: 0 <= k < i ==> !screen[k]
      {
        screen[i] := false;
      }
      assert screen[..] == Spec.Blank(ScreenSize);
    }

    /** Dxyn: the row loop of `execute`; VF is written once every row is drawn. */
    method DrawSprite(x: Nibble, y: Nibble, n: Nibble)
      requires Valid() && Spec.SpriteInRam(Snapshot(), n)
      modifies screen, v
      ensures Valid() && Snapshot() == Spec.DrawSprite(old(Snapshot()), x, y, n)
    {
      ghost var before := screen[..];
      var erased := false;
      var xc, yc := v[x], v[y];
      for r := 0 to n
        invariant screen[..] == Spec.Toggled(before, ram[..], index, xc, yc, r * 8)
        invariant erased == Spec.Erases(before, ram[..], index, xc, yc, r * 8)
        modifies screen
      {
        erased := DrawRow(before, xc, yc, r, erased);
      }
      v[FlagReg] := if erased then 1 else 0;
    }

    /**
     * The column loop of Dxyn for sprite row r: every set pixel flips its landing cell, and
     * `has_erased` picks up the cells that were on.
     */
    method DrawRow(ghost before: seq<bool>, xc: byte, yc: byte, r: nat, erased: bool) returns (erased': bool)
      requires Valid() && |before| == ScreenSize && r < 16 && Spec.SpriteAddr(index, r) < RamSize
      requires screen[..] == Spec.Toggled(before, ram[..], index, xc, yc, r * 8)
      requires erased == Spec.Erases(before, ram[..], index, xc, yc, r * 8)
      modifies screen
      ensures screen[..] == Spec.Toggled(before, ram[..], index, xc, yc, r * 8 + 8)
      ensures erased' == Spec.Erases(before, ram[..], index, xc, yc, r * 8 + 8)
    {
      erased' := erased;
      var pixels := ram[Spec.SpriteAddr(index, r)];
      ghost var mem := ram[..];
      for c := 0 to 8
        invariant screen[..] == Spec.Toggled(before, mem, index, xc, yc, r * 8 + c)
        invariant erased' == Spec.Erases(before, mem, index, xc, yc, r * 8 + c)
      {
        Spec.ToggleStep(before, mem, index, xc, yc, r, c);
        if PixelSet(pixels, c) {
          var cell := Spec.CellIndex(xc, yc, r, c);
          ghost var now := screen[..];
          erased' := erased' || screen[cell];
          screen[cell] := !screen[cell];
          assert screen[..] == now[cell := !now[cell]];
        }
      }
    }

    /** Fx0A: scan the keys upwards, store the first pressed one; with none, undo the fetch. */
    method WaitForKey(x: Nibble)
      requires Valid()
      modifies this`pc, v
      ensures Valid() && Snapshot() == Spec.WaitForKey(old(Snapshot()), x)
    {
      var pressed := false;
      for k := 0 to NumKeys
        invariant !pressed && v[..] == old(v[..])
        invariant Spec.FirstPressed(keys[..], 0) == Spec.FirstPressed(keys[..], k)
      {
        if keys[k] {
          v[x] := k;
          pressed := true;
          break;
        }
      }
      if !pressed {
        pc := Wrap16(pc as int - 2);
      }
    }

    /** Fx33: hundreds, tens and ones of Vx into ram[I], ram[I + 1], ram[I + 2]. */
    method WriteBcd(x: Nibble)
      requires Valid() && index + 2 < RamSize
      modifies ram
      ensures Valid() && Snapshot() == Spec.ExecuteMemory(old(Snapshot()), StoreBcd(x))
    {
      var vx := v[x];
      var bcd := [vx / 100, (vx / 10) % 10, vx % 10];
      for i := 0 to 3
        invariant forall k :: 0 <= k < RamSize ==>
          ram[k] == if index <= k < index + i then bcd[k - index] else old(ram[k])
      {
        ram[index + i] := bcd[i];
      }
      assert ram[..] == old(ram[..])[index := bcd[0]][index + 1 := bcd[1]][index + 2 := bcd[2]];
    }

    /** Fx55: V0 ..= Vx into ram[I ..= I + x]; I is left unchanged. */
    method WriteRegs(x: Nibble)
      requires Valid() && index + x < RamSize
      modifies ram
      ensures Valid() && Snapshot() == Spec.ExecuteMemory(old(Snapshot()), StoreRegs(x))
    {
      for i := 0 to x + 1
        invariant forall k :: 0 <= k < RamSize ==>
          ram[k] == if index <= k < index + i then v[k - index] else old(ram[k])
      {
        ram[index + i] := v[i];
      }
      assert ram[..] == old(ram[..])[..index] + v[..x + 1] + old(ram[..])[index + x + 1..];
    }

    /** Fx65: ram[I ..= I + x] into V0 ..= Vx; I is left unchanged. */
    method ReadRegs(x: Nibble)
      requires Valid() && index + x < RamSize
      modifies v
      ensures Valid() && Snapshot() == Spec.ExecuteMemory(old(Snapshot()), LoadRegs(x))
    {
      for i := 0 to x + 1
        invariant forall k :: 0 <= k < NumRegs ==> v[k] == if k < i then ram[index + k] else old(v[k])
      {
        v[i] := ram[index + i];
      }
      assert v[..] == ram[index..index + x + 1] + old(v[..])[x + 1..];
    }
  }
}

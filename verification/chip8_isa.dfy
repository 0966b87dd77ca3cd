/**
 * The opcode dispatch of `Chip8::execute` (Chip8.cpp): a 16-bit opcode is split into four
 * nibbles and matched against 34 patterns, first match wins; anything else is a no-op.
 * Decode selects the same branch as that if-chain and names it.
 */
module Chip8Isa {
  import opened Chip8Defs

  /** A register index or the low operand nibble. */
  type Nibble = x: int | 0 <= x < 0x10

  /** A 12-bit address operand `nnn`. */
  type Addr = x: int | 0 <= x < 0x1000

  /** One constructor per branch of the dispatch, in source order; operand names as in the source. */
  datatype Instr =
    | Cls                              // 00E0
    | Ret                              // 00EE
    | Jump(nnn: Addr)                  // 1nnn
    | Call(nnn: Addr)                  // 2nnn
    | SkipEqImm(x: Nibble, kk: byte)   // 3xkk
    | SkipNeImm(x: Nibble, kk: byte)   // 4xkk
    | SkipEqReg(x: Nibble, y: Nibble)  // 5xy0
    | LoadImm(x: Nibble, kk: byte)     // 6xkk
    | AddImm(x: Nibble, kk: byte)      // 7xkk
    | Move(x: Nibble, y: Nibble)       // 8xy0
    | Or(x: Nibble, y: Nibble)         // 8xy1
    | And(x: Nibble, y: Nibble)        // 8xy2
    | Xor(x: Nibble, y: Nibble)        // 8xy3
    | AddReg(x: Nibble, y: Nibble)     // 8xy4
    | SubReg(x: Nibble, y: Nibble)     // 8xy5
    | ShiftRight(x: Nibble, y: Nibble) // 8xy6 (y is ignored)
    | SubNeg(x: Nibble, y: Nibble)     // 8xy7
    | ShiftLeft(x: Nibble, y: Nibble)  // 8xyE (y is ignored)
    | SkipEqReg9(x: Nibble, y: Nibble) // 9xy0 (skips when EQUAL, as written)
    | LoadIndex(nnn: Addr)             // Annn
    | JumpV0(nnn: Addr)                // Bnnn
    | Random(x: Nibble, kk: byte)      // Cxkk
    | Draw(x: Nibble, y: Nibble, n: Nibble) // Dxyn
    | SkipKey(x: Nibble)               // Ex9E
    | SkipNotKey(x: Nibble)            // ExA1
    | LoadDelay(x: Nibble)             // Fx07
    | WaitKey(x: Nibble)               // Fx0A
    | SetDelay(x: Nibble)              // Fx15
    | SetSound(x: Nibble)              // Fx18
    | AddIndex(x: Nibble)              // Fx1E
    | FontAddr(x: Nibble)              // Fx29
    | StoreBcd(x: Nibble)              // Fx33
    | StoreRegs(x: Nibble)             // Fx55
    | LoadRegs(x: Nibble)              // Fx65
    | Unknown(op: u16)                 // matches no branch

  /** digit1 .. digit4 of the source: `(op & 0xF000) >> 12` down to `op & 0x000F`. */
  function Digit1(op: u16): Nibble { op / 0x1000 }
  function Digit2(op: u16): Nibble { (op / 0x100) % 0x10 }
  function Digit3(op: u16): Nibble { (op / 0x10) % 0x10 }
  function Digit4(op: u16): Nibble { op % 0x10 }

  /**
   * Selects the branch of `execute` that runs for `op`, with its operands `op & 0xFFF` and
   * `op & 0xFF`. The source tests the 34 patterns one after another; patterns with different
   * first nibbles never both match, so testing digit1 first and then the source's conditions,
   * in the source's order, selects the same branch.
   */
  function Decode(op: u16): Instr {
    var d1, d2, d3, d4 := Digit1(op), Digit2(op), Digit3(op), Digit4(op);
    var nnn: Addr := op % 0x1000;
    var kk: byte := op % 0x100;
    if d1 == 0 then
      if d2 == 0 && d3 == 0xE && d4 == 0 then Cls
      else if d2 == 0 && d3 == 0xE && d4 == 0xE then Ret
      else Unknown(op)
    else if d1 == 1 then Jump(nnn)
    else if d1 == 2 then Call(nnn)
    else if d1 == 3 then SkipEqImm(d2, kk)
    else if d1 == 4 then SkipNeImm(d2, kk)
    else if d1 == 5 then
      if d4 == 0 then SkipEqReg(d2, d3) else Unknown(op)
    else if d1 == 6 then LoadImm(d2, kk)
    else if d1 == 7 then AddImm(d2, kk)
    else if d1 == 8 then
      if d4 == 0 then Move(d2, d3)
      else if d4 == 1 then Or(d2, d3)
      else if d4 == 2 then And(d2, d3)
      else if d4 == 3 then Xor(d2, d3)
      else if d4 == 4 then AddReg(d2, d3)
      else if d4 == 5 then SubReg(d2, d3)
      else if d4 == 6 then ShiftRight(d2, d3)
      else if d4 == 7 then SubNeg(d2, d3)
      else if d4 == 0xE then ShiftLeft(d2, d3)
      else Unknown(op)
    else if d1 == 9 then
      if d4 == 0 then SkipEqReg9(d2, d3) else Unknown(op)
    else if d1 == 0xA then LoadIndex(nnn)
    else if d1 == 0xB then JumpV0(nnn)
    else if d1 == 0xC then Random(d2, kk)
    else if d1 == 0xD then Draw(d2, d3, d4)
    else if d1 == 0xE then
      if d3 == 9 && d4 == 0xE then SkipKey(d2)
      else if d3 == 0xA && d4 == 1 then SkipNotKey(d2)
      else Unknown(op)
    else
      if d3 == 0 && d4 == 7 then LoadDelay(d2)
      else if d3 == 0 && d4 == 0xA then WaitKey(d2)
      else if d3 == 1 && d4 == 5 then SetDelay(d2)
      else if d3 == 1 && d4 == 8 then SetSound(d2)
      else if d3 == 1 && d4 == 0xE then AddIndex(d2)
      else if d3 == 2 && d4 == 9 then FontAddr(d2)
      else if d3 == 3 && d4 == 3 then StoreBcd(d2)
      else if d3 == 5 && d4 == 5 then StoreRegs(d2)
      else if d3 == 6 && d4 == 5 then LoadRegs(d2)
      else Unknown(op)
  }

  /** The opcode word of an instruction: the partner of Decode. */
  function Encode(ins: Instr): u16 {
    match ins
    case Cls => 0x00E0
    case Ret => 0x00EE
    case Jump(nnn) => 0x1000 + nnn
    case Call(nnn) => 0x2000 + nnn
    case SkipEqImm(x, kk) => 0x3000 + x * 0x100 + kk
    case SkipNeImm(x, kk) => 0x4000 + x * 0x100 + kk
    case SkipEqReg(x, y) => 0x5000 + x * 0x100 + y * 0x10
    case LoadImm(x, kk) => 0x6000 + x * 0x100 + kk
    case AddImm(x, kk) => 0x7000 + x * 0x100 + kk
    case Move(x, y) => 0x8000 + x * 0x100 + y * 0x10
    case Or(x, y) => 0x8001 + x * 0x100 + y * 0x10
    case And(x, y) => 0x8002 + x * 0x100 + y * 0x10
    case Xor(x, y) => 0x8003 + x * 0x100 + y * 0x10
    case AddReg(x, y) => 0x8004 + x * 0x100 + y * 0x10
    case SubReg(x, y) => 0x8005 + x * 0x100 + y * 0x10
    case ShiftRight(x, y) => 0x8006 + x * 0x100 + y * 0x10
    case SubNeg(x, y) => 0x8007 + x * 0x100 + y * 0x10
    case ShiftLeft(x, y) => 0x800E + x * 0x100 + y * 0x10
    case SkipEqReg9(x, y) => 0x9000 + x * 0x100 + y * 0x10
    case LoadIndex(nnn) => 0xA000 + nnn
    case JumpV0(nnn) => 0xB000 + nnn
    case Random(x, kk) => 0xC000 + x * 0x100 + kk
    case Draw(x, y, n) => 0xD000 + x * 0x100 + y * 0x10 + n
    case SkipKey(x) => 0xE09E + x * 0x100
    case SkipNotKey(x) => 0xE0A1 + x * 0x100
    case LoadDelay(x) => 0xF007 + x * 0x100
    case WaitKey(x) => 0xF00A + x * 0x100
    case SetDelay(x) => 0xF015 + x * 0x100
    case SetSound(x) => 0xF018 + x * 0x100
    case AddIndex(x) => 0xF01E + x * 0x100
    case FontAddr(x) => 0xF029 + x * 0x100
    case StoreBcd(x) => 0xF033 + x * 0x100
    case StoreRegs(x) => 0xF055 + x * 0x100
    case LoadRegs(x) => 0xF065 + x * 0x100
    case Unknown(op) => op
  }

  /** The four nibbles and the operand fields of a word assembled from four nibbles. */
  lemma NibblesOf(op: u16, a: Nibble, b: Nibble, c: Nibble, d: Nibble)
    requires op == a * 0x1000 + b * 0x100 + c * 0x10 + d
    ensures Digit1(op) == a && Digit2(op) == b && Digit3(op) == c && Digit4(op) == d
    ensures op % 0x1000 == b * 0x100 + c * 0x10 + d && op % 0x100 == c * 0x10 + d
  {
    assert op / 0x1000 == a && op % 0x1000 == b * 0x100 + c * 0x10 + d;
    assert op / 0x100 == a * 0x10 + b && op % 0x100 == c * 0x10 + d;
    assert op / 0x10 == a * 0x100 + b * 0x10 + c;
  }

  /** Every word is the sum of its nibbles. */
  lemma WordOfNibbles(op: u16)
    ensures op == Digit1(op) * 0x1000 + Digit2(op) * 0x100 + Digit3(op) * 0x10 + Digit4(op)
    ensures op % 0x1000 == Digit2(op) * 0x100 + Digit3(op) * 0x10 + Digit4(op)
    ensures op % 0x100 == Digit3(op) * 0x10 + Digit4(op)
  {
  }

  /** Decoding loses nothing: every opcode is re-encoded to itself, so distinct words decode apart. */
  lemma {:induction false} EncodeDecode(op: u16)
    ensures Encode(Decode(op)) == op
  {
    WordOfNibbles(op);
    var d1 := Digit1(op);
    if d1 == 0 {
      assert Decode(op) in {Cls, Ret, Unknown(op)};
    } else if d1 < 8 {
      EncodeDecodeLow(op);
    } else if d1 == 8 {
      EncodeDecodeAlu(op);
    } else if d1 < 0xE {
      EncodeDecodeHigh(op);
    } else if d1 == 0xE {
      assert Decode(op) in {SkipKey(Digit2(op)), SkipNotKey(Digit2(op)), Unknown(op)};
    } else {
      EncodeDecodeF(op);
    }
  }

  lemma EncodeDecodeLow(op: u16)
    requires 0 < Digit1(op) < 8
    requires op == Digit1(op) * 0x1000 + Digit2(op) * 0x100 + Digit3(op) * 0x10 + Digit4(op)
    requires op % 0x1000 == Digit2(op) * 0x100 + Digit3(op) * 0x10 + Digit4(op)
    requires op % 0x100 == Digit3(op) * 0x10 + Digit4(op)
    ensures Encode(Decode(op)) == op
  {
    var ins := Decode(op);
    assert ins.Jump? || ins.Call? || ins.SkipEqImm? || ins.SkipNeImm? || ins.SkipEqReg? ||
      ins.LoadImm? || ins.AddImm? || ins == Unknown(op);
  }

  lemma EncodeDecodeAlu(op: u16)
    requires Digit1(op) == 8
    requires op == Digit1(op) * 0x1000 + Digit2(op) * 0x100 + Digit3(op) * 0x10 + Digit4(op)
    ensures Encode(Decode(op)) == op
  {
    var ins, x, y := Decode(op), Digit2(op), Digit3(op);
    assert ins in {Move(x, y), Or(x, y), And(x, y), Xor(x, y), AddReg(x, y), SubReg(x, y),
      ShiftRight(x, y), SubNeg(x, y), ShiftLeft(x, y), Unknown(op)};
  }

  lemma EncodeDecodeHigh(op: u16)
    requires 8 < Digit1(op) < 0xE
    requires op == Digit1(op) * 0x1000 + Digit2(op) * 0x100 + Digit3(op) * 0x10 + Digit4(op)
    requires op % 0x1000 == Digit2(op) * 0x100 + Digit3(op) * 0x10 + Digit4(op)
    requires op % 0x100 == Digit3(op) * 0x10 + Digit4(op)
    ensures Encode(Decode(op)) == op
  {
    var ins := Decode(op);
    assert ins.SkipEqReg9? || ins.LoadIndex? || ins.JumpV0? || ins.Random? || ins.Draw? || ins == Unknown(op);
  }

  lemma EncodeDecodeF(op: u16)
    requires Digit1(op) == 0xF
    requires op == Digit1(op) * 0x1000 + Digit2(op) * 0x100 + Digit3(op) * 0x10 + Digit4(op)
    ensures Encode(Decode(op)) == op
  {
    var ins, x := Decode(op), Digit2(op);
    assert ins in {LoadDelay(x), WaitKey(x), SetDelay(x), SetSound(x), AddIndex(x), FontAddr(x),
      StoreBcd(x), StoreRegs(x), LoadRegs(x), Unknown(op)};
  }

  /** Splits a 12-bit address or a byte into its nibbles. */
  lemma AddrNibbles(nnn: Addr)
    ensures nnn == (nnn / 0x100) * 0x100 + ((nnn / 0x10) % 0x10) * 0x10 + nnn % 0x10
  {
  }

  lemma ByteNibbles(kk: byte)
    ensures kk == (kk / 0x10) * 0x10 + kk % 0x10
  {
  }

  /** Every known instruction with in-range operands is decoded back from its encoding. */
  lemma {:induction false} DecodeEncode(ins: Instr)
    requires !ins.Unknown?
    ensures Decode(Encode(ins)) == ins
  {
    if ins.Cls? || ins.Ret? || ins.Jump? || ins.Call? {
      DecodeEncodeControl(ins);
    } else if ins.SkipEqImm? || ins.SkipNeImm? || ins.SkipEqReg? {
      DecodeEncodeSkips(ins);
    } else if ins.LoadImm? || ins.AddImm? || ins.Move? {
      DecodeEncodeImmediates(ins);
    } else if ins.Or? || ins.And? || ins.Xor? {
      DecodeEncodeLogic(ins);
    } else if ins.AddReg? || ins.SubReg? || ins.ShiftRight? || ins.SubNeg? || ins.ShiftLeft? {
      DecodeEncodeArith(ins);
    } else if ins.SkipEqReg9? || ins.LoadIndex? || ins.JumpV0? || ins.Random? {
      DecodeEncodeIndex(ins);
    } else if ins.Draw? || ins.SkipKey? || ins.SkipNotKey? {
      DecodeEncodeDraw(ins);
    } else if ins.LoadDelay? || ins.WaitKey? || ins.SetDelay? || ins.SetSound? || ins.AddIndex? {
      DecodeEncodeTimers(ins);
    } else {
      DecodeEncodeMemory(ins);
    }
  }

  lemma DecodeEncodeControl(ins: Instr)
    requires ins.Cls? || ins.Ret? || ins.Jump? || ins.Call?
    ensures Decode(Encode(ins)) == ins
  {
    var op := Encode(ins);
    match ins
    case Cls => NibblesOf(op, 0, 0, 0xE, 0);
    case Ret => NibblesOf(op, 0, 0, 0xE, 0xE);
    case Jump(nnn) => AddrNibbles(nnn); NibblesOf(op, 1, nnn / 0x100, (nnn / 0x10) % 0x10, nnn % 0x10);
    case Call(nnn) => AddrNibbles(nnn); NibblesOf(op, 2, nnn / 0x100, (nnn / 0x10) % 0x10, nnn % 0x10);
  }

  lemma DecodeEncodeSkips(ins: Instr)
    requires ins.SkipEqImm? || ins.SkipNeImm? || ins.SkipEqReg?
    ensures Decode(Encode(ins)) == ins
  {
    var op := Encode(ins);
    match ins
    case SkipEqImm(x, kk) => ByteNibbles(kk); NibblesOf(op, 3, x, kk / 0x10, kk % 0x10);
    case SkipNeImm(x, kk) => ByteNibbles(kk); NibblesOf(op, 4, x, kk / 0x10, kk % 0x10);
    case SkipEqReg(x, y) => NibblesOf(op, 5, x, y, 0);
  }

  lemma DecodeEncodeImmediates(ins: Instr)
    requires ins.LoadImm? || ins.AddImm? || ins.Move?
    ensures Decode(Encode(ins)) == ins
  {
    var op := Encode(ins);
    match ins
    case LoadImm(x, kk) => ByteNibbles(kk); NibblesOf(op, 6, x, kk / 0x10, kk % 0x10);
    case AddImm(x, kk) => ByteNibbles(kk); NibblesOf(op, 7, x, kk / 0x10, kk % 0x10);
    case Move(x, y) => NibblesOf(op, 8, x, y, 0);
  }

  lemma DecodeEncodeLogic(ins: Instr)
    requires ins.Or? || ins.And? || ins.Xor?
    ensures Decode(Encode(ins)) == ins
  {
    var op := Encode(ins);
    match ins
    case Or(x, y) => NibblesOf(op, 8, x, y, 1);
    case And(x, y) => NibblesOf(op, 8, x, y, 2);
    case Xor(x, y) => NibblesOf(op, 8, x, y, 3);
  }

  lemma DecodeEncodeArith(ins: Instr)
    requires ins.AddReg? || ins.SubReg? || ins.ShiftRight? || ins.SubNeg? || ins.ShiftLeft?
    ensures Decode(Encode(ins)) == ins
  {
    var op := Encode(ins);
    match ins
    case AddReg(x, y) => NibblesOf(op, 8, x, y, 4);
    case SubReg(x, y) => NibblesOf(op, 8, x, y, 5);
    case ShiftRight(x, y) => NibblesOf(op, 8, x, y, 6);
    case SubNeg(x, y) => NibblesOf(op, 8, x, y, 7);
    case ShiftLeft(x, y) => NibblesOf(op, 8, x, y, 0xE);
  }

  lemma DecodeEncodeIndex(ins: Instr)
    requires ins.SkipEqReg9? || ins.LoadIndex? || ins.JumpV0? || ins.Random?
    ensures Decode(Encode(ins)) == ins
  {
    var op := Encode(ins);
    match ins
    case SkipEqReg9(x, y) => NibblesOf(op, 9, x, y, 0);
    case LoadIndex(nnn) => AddrNibbles(nnn); NibblesOf(op, 0xA, nnn / 0x100, (nnn / 0x10) % 0x10, nnn % 0x10);
    case JumpV0(nnn) => AddrNibbles(nnn); NibblesOf(op, 0xB, nnn / 0x100, (nnn / 0x10) % 0x10, nnn % 0x10);
    case Random(x, kk) => ByteNibbles(kk); NibblesOf(op, 0xC, x, kk / 0x10, kk % 0x10);
  }

  lemma DecodeEncodeDraw(ins: Instr)
    requires ins.Draw? || ins.SkipKey? || ins.SkipNotKey?
    ensures Decode(Encode(ins)) == ins
  {
    var op := Encode(ins);
    match ins
    case Draw(x, y, n) => NibblesOf(op, 0xD, x, y, n);
    case SkipKey(x) => NibblesOf(op, 0xE, x, 9, 0xE);
    case SkipNotKey(x) => NibblesOf(op, 0xE, x, 0xA, 1);
  }

  lemma DecodeEncodeTimers(ins: Instr)
    requires ins.LoadDelay? || ins.WaitKey? || ins.SetDelay? || ins.SetSound? || ins.AddIndex?
    ensures Decode(Encode(ins)) == ins
  {
    var op := Encode(ins);
    match ins
    case LoadDelay(x) => NibblesOf(op, 0xF, x, 0, 7);
    case WaitKey(x) => NibblesOf(op, 0xF, x, 0, 0xA);
    case SetDelay(x) => NibblesOf(op, 0xF, x, 1, 5);
    case SetSound(x) => NibblesOf(op, 0xF, x, 1, 8);
    case AddIndex(x) => NibblesOf(op, 0xF, x, 1, 0xE);
  }

  lemma DecodeEncodeMemory(ins: Instr)
    requires ins.FontAddr? || ins.StoreBcd? || ins.StoreRegs? || ins.LoadRegs?
    ensures Decode(Encode(ins)) == ins
  {
    var op := Encode(ins);
    match ins
    case FontAddr(x) => NibblesOf(op, 0xF, x, 2, 9);
    case StoreBcd(x) => NibblesOf(op, 0xF, x, 3, 3);
    case StoreRegs(x) => NibblesOf(op, 0xF, x, 5, 5);
    case LoadRegs(x) => NibblesOf(op, 0xF, x, 6, 5);
  }

  /** 9xy0 has its own branch, distinct from 5xy0; what that branch does is stated in Chip8Laws.NineMatchesFive. */
  lemma DecodeFiveAndNine(x: Nibble, y: Nibble)
    ensures Decode(0x9000 + x * 0x100 + y * 0x10) == SkipEqReg9(x, y)
    ensures Decode(0x5000 + x * 0x100 + y * 0x10) == SkipEqReg(x, y)
  {
    NibblesOf(0x9000 + x * 0x100 + y * 0x10, 9, x, y, 0);
    NibblesOf(0x5000 + x * 0x100 + y * 0x10, 5, x, y, 0);
  }

  /**
   * Exactly these words match no branch: 0nnn other than 00E0 and 00EE, 5xyn and 9xyn with
   * n != 0, 8xyn with n in 8..D or F, ExXX other than Ex9E and ExA1, and FxXX other than the
   * nine F patterns. An unmatched word is kept as it is.
   */
  lemma UnknownWords(op: u16)
    ensures Decode(op).Unknown? <==>
      var d1, d2, d3, d4 := Digit1(op), Digit2(op), Digit3(op), Digit4(op);
      (d1 == 0 && !(d2 == 0 && d3 == 0xE && (d4 == 0 || d4 == 0xE))) ||
      ((d1 == 5 || d1 == 9) && d4 != 0) ||
      (d1 == 8 && 8 <= d4 && d4 != 0xE) ||
      (d1 == 0xE && !(d3 == 9 && d4 == 0xE) && !(d3 == 0xA && d4 == 1)) ||
      (d1 == 0xF && !((d3, d4) in {(0, 7), (0, 0xA), (1, 5), (1, 8), (1, 0xE), (2, 9), (3, 3), (5, 5), (6, 5)}))
    ensures Decode(op).Unknown? ==> Decode(op).op == op
    ensures Digit1(op) == 0 && op != 0x00E0 && op != 0x00EE ==> Decode(op).Unknown?
  {
    WordOfNibbles(op);
  }
}

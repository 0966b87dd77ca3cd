# CHIP-8 interpreter core, modelled in Dafny

This project models the `Chip8` class of an Arduino CHIP-8 interpreter (`Chip8.h`, `Chip8.cpp`)
and proves properties of it. The machine has:
- 4 KiB of RAM with the 80-byte hex font at the bottom;
- sixteen 8-bit V registers, with VF doubling as the flag register;
- a 16-bit index register I and a 16-bit program counter;
- a 16-entry return stack with its stack pointer;
- sixteen keys and a 64×32 monochrome screen;
- a delay timer, a sound timer and a `beeping` flag.

`tick` fetches a big-endian opcode at pc, advances pc by 2 and runs one of 34 instructions.
`tick_timers` counts the timers down.

Five modules:

- `Chip8Defs` (`chip8_defs.dfy`) holds the widths, sizes and `FONTSET` of `Chip8.h`:
  - the `byte`/`u16` ranges, with explicit wrap-around `Wrap8`/`Wrap16`;
  - the byte operators `|`, `&` and `^`;
  - the sprite pixel test.
- `Chip8Isa` (`chip8_isa.dfy`) turns the 34-branch if-chain of `execute` into an `Instr` value.
  `Decode` picks the branch, and `Encode` is its inverse.
- `Chip8Spec` (`chip8_spec.dfy`) holds the machine state as a value, `State`. Every operation is a
  function from the old state to the new one.
  - Unchecked C++ indexing that could go out of bounds becomes a precondition (`Defined`,
    `CanFetch`, `CanLoad`, `CanTick`). Examples: stack overflow or underflow, `ram[pc + 1]`,
    `ram[I + k]` and `keys[Vx]`.
  - The `random(256)` byte of Cxkk becomes a parameter `rnd`.
- `Chip8Laws` (`chip8_laws.dfy`) holds the lemmas stating what the transitions guarantee.
- `Chip8Machine` (`chip8_machine.dfy`) is `class Chip8`. Its scalar registers are mutable fields,
  and its RAM, screen, V registers, stack and keys are arrays updated in place by the loops of the
  source. Every state-changing public method, and each helper it delegates a whole branch to,
  is proved to move the object from `old(Snapshot())` to exactly the state the matching
  `Chip8Spec` function computes; `DrawRow` and the `Clear` helpers state their loop's effect on
  the arrays they change, and `GetDisplay` returns the screen's contents.

The model follows the code as written, including the places where it departs from the usual
CHIP-8 conventions:
- 9xy0 skips when the registers are equal, exactly like 5xy0.
- 8xy5 and 8xy7 derive VF from the updated Vx.
- The write order into VF differs by family:
  - 8xy6 and 8xyE write VF before shifting, so with x = F the shifted flag remains.
  - 8xy4, 8xy5 and 8xy7 write VF last, so with x = F the flag remains.
- Bnnn adds V0.
- Fx29 computes I := Vx * 5 without masking Vx.
- Fx55 and Fx65 cover V0..Vx inclusive and leave I unchanged.
- `load` copies `data[i]` (not `data[i - 0x200]`) into `ram[i]`, and copies nothing when
  `START_ADDR + size` wraps around in `unsigned int`.
- `reset` also clears the keys and leaves `beeping` alone.

## Model

| member | source | states |
|---|---|---|
| Chip8Defs.Fontset | Chip8.h:30-48 | FONTSET is exactly 80 bytes, the sixteen 5-row glyphs in digit order |
| Chip8Defs.GlyphAt | Chip8.h:31-48 | the glyph of hex digit d occupies font bytes 5·d .. 5·d+4, row r at 5·d + r |
| Chip8Defs.GlyphsAreNarrow | Chip8.h:32-47 | every font byte has a zero low nibble, so no glyph lights a column beyond the fourth |
| Chip8Defs.NarrowRow | Chip8.h:32-47 | a sprite row with zero low nibble sets none of the columns 4..7 |
| Chip8Defs.StartAboveFont | Chip8.h:28-30 | the load address 0x200 lies above the 80-byte font region and inside the 4096-byte RAM |
| Chip8Defs.Wrap8 | Chip8.h:4 | storing an int into a `byte` keeps it when in range and otherwise differs from it by a multiple of 256 |
| Chip8Defs.Wrap16 | Chip8.cpp:88 | storing an int into an `unsigned short` keeps it when in range, otherwise differs by a multiple of 65536 |
| Chip8Defs.BitAnd | Chip8.cpp:191 | `a & b` (over w bits) never exceeds either operand and fits in w bits |
| Chip8Defs.BitOr | Chip8.cpp:185 | `a \| b` fits in w bits and is at least each operand that does |
| Chip8Defs.BitXor | Chip8.cpp:197 | `a ^ b` fits in w bits |
| Chip8Defs.XorTwice | Chip8.cpp:197 | XOR-ing twice with the same value restores the original |
| Chip8Defs.Or8 | Chip8.cpp:181-186 | 8xy1's `*vx \|= vy` on bytes: the result is at least each operand |
| Chip8Defs.And8 | Chip8.cpp:187-192 | 8xy2's `*vx &= vy` (and Cxkk's `rng & kk`) on bytes: the result exceeds neither operand |
| Chip8Defs.Xor8 | Chip8.cpp:193-198 | 8xy3's `*vx ^= vy` on bytes: XOR-ing the result with the same vy gives back vx |
| Chip8Defs.Bit | Chip8.cpp:272 | bit j of a value is 0 or 1 |
| Chip8Defs.AndBit | Chip8.cpp:272 | masking with the single bit 2^j keeps exactly bit j: `b & 2^j == 2^j * bit_j(b)` |
| Chip8Defs.ColumnMaskIsBit | Chip8.cpp:272 | the mask `0x80 >> x_col` is the single bit 7 - x_col |
| Chip8Defs.PixelSet | Chip8.cpp:272 | the pixel test `(pixels & (0x80 >> x_col)) != 0` holds exactly when bit 7 - x_col of the sprite row is one |
| Chip8Isa.Digit1 | Chip8.cpp:109 | `(op & 0xF000) >> 12`, the top nibble; `Chip8Isa.WordOfNibbles` recombines the four digits into op |
| Chip8Isa.Digit2 | Chip8.cpp:110 | `(op & 0x0F00) >> 8`, the second nibble (the x operand) |
| Chip8Isa.Digit3 | Chip8.cpp:111 | `(op & 0x00F0) >> 4`, the third nibble (the y operand) |
| Chip8Isa.Digit4 | Chip8.cpp:112 | `op & 0x000F`, the low nibble (n, or the sub-opcode of the 8 family) |
| Chip8Isa.Decode | Chip8.cpp:108-357 | the branch of the first-match if-chain that runs for op, with its operands; `Chip8Isa.EncodeDecode` and `Chip8Isa.DecodeEncode` prove it loses no information and reaches every branch |
| Chip8Isa.EncodeDecode | Chip8.cpp:108-357 | every 16-bit opcode re-encodes to itself from the branch and operands `Decode` extracts, so the dispatch loses no information |
| Chip8Isa.DecodeEncode | Chip8.cpp:108-357 | every instruction with known encoding decodes back to itself: each branch pattern is reachable with the operands it names |
| Chip8Isa.NibblesOf | Chip8.cpp:109-112 | digit1..digit4 of a word built from four nibbles are those nibbles, and `op & 0xFFF`, `op & 0xFF` are its low fields |
| Chip8Isa.WordOfNibbles | Chip8.cpp:109-112 | every word is digit1·0x1000 + digit2·0x100 + digit3·0x10 + digit4 |
| Chip8Isa.DecodeFiveAndNine | Chip8.cpp:238-242 | 9xy0 selects its own branch, as 5xy0 (Chip8.cpp:155-162) does, with the register operands x and y |
| Chip8Isa.UnknownWords | Chip8.cpp:108-357 | for every word: it matches no branch exactly when it is 0nnn other than 00E0/00EE, 5xyn or 9xyn with n ≠ 0, 8xyn with n in 8..D or F, an E word other than Ex9E/ExA1, or an F word other than the nine F patterns; an unmatched word is kept unchanged |
| Chip8Spec.Initial | Chip8.cpp:7-18 | the constructed state has valid array sizes; `Chip8Laws.ResetIsInitial` and `Chip8Laws.FontSurvivesLoad` relate it to `reset` and `load` |
| Chip8Spec.FontRam | Chip8.cpp:14-17 | RAM after construction holds FONTSET in [0, 80) and zeros above (members are `= {}`-initialised) |
| Chip8Spec.Zeros | Chip8.h:51-57 | a zero-filled array of the given length |
| Chip8Spec.Blank | Chip8.h:52 | an all-false array of the given length |
| Chip8Spec.Keypress | Chip8.cpp:34-36 | `keypress(idx, pressed)` sets key idx and changes nothing else |
| Chip8Spec.LoadEnd | Chip8.cpp:39-40 | `end = START_ADDR + size` in `unsigned int`: it equals 0x200 + size without overflow and falls below the start when it wraps |
| Chip8Spec.Load | Chip8.cpp:38-45 | `load` keeps array sizes valid; what it copies is stated by `Chip8Laws.LoadCopies` |
| Chip8Spec.Reset | Chip8.cpp:47-77 | `reset` keeps array sizes valid; its effect is stated by `Chip8Laws.ResetClears` and `Chip8Laws.ResetIsInitial` |
| Chip8Spec.TickTimers | Chip8.cpp:92-106 | `tick_timers` changes only dt, st and `beeping`; neither timer grows, each reaches 0 exactly when it was at most 1, and `beeping` says whether st was running; `Chip8Laws.TimersAfter` gives n calls |
| Chip8Spec.Push | Chip8.cpp:20-23 | `push` on a non-full stack keeps array sizes valid; its partner is `Chip8Laws.PushPop` |
| Chip8Spec.Pop | Chip8.cpp:25-28 | `pop` on a non-empty stack keeps array sizes valid; its partner is `Chip8Laws.PushPop` |
| Chip8Spec.Opcode | Chip8.cpp:84-90 | the fetched word has ram[pc] as its high byte and ram[pc+1] as its low byte |
| Chip8Spec.Advance | Chip8.cpp:84-90 | `pc += 2` in 16 bits, used by `fetch` (line 88) and by every skip (lines 145, 153, 161, 241, 288, 295): only pc changes, and it moves by 2 modulo 65536 |
| Chip8Spec.SetV | Chip8.cpp:166 | writing one V register keeps array sizes valid |
| Chip8Spec.DrawSprite | Chip8.cpp:259-283 | Dxyn keeps array sizes valid; its effect is stated by `Chip8Laws.DrawTogglesExactly` |
| Chip8Spec.SpriteAddr | Chip8.cpp:267 | `u16 addr = i_reg + y_line`: a 16-bit address, equal to I + row when that does not overflow |
| Chip8Spec.CellIndex | Chip8.cpp:270-274 | `y * SCREEN_WIDTH + x` with both coordinates wrapped is always a screen cell |
| Chip8Spec.Painted | Chip8.cpp:266-279 | cell k is toggled by one of the first `done` visited pixels; `Chip8Spec.PaintedStep` and `Chip8Laws.PaintedIsCovered` characterise it |
| Chip8Spec.Erases | Chip8.cpp:276 | `has_erased`: some cell toggled so far was on; `Chip8Spec.ToggleStep` states how one step updates it |
| Chip8Spec.Toggled | Chip8.cpp:276-277 | XOR-ing painted cells keeps the screen length |
| Chip8Spec.CellOffsets | Chip8.cpp:270-274 | sprite pixel (r, c) drawn at (xc, yc) lands on a screen cell, from which r and c are recovered |
| Chip8Spec.CellOfOffsets | Chip8.cpp:270-274 | every screen cell is the landing cell of its own row and column offsets |
| Chip8Spec.PaintedStep | Chip8.cpp:266-279 | visiting pixel (r, c) adds exactly its landing cell to the toggled set, and only when its bit is set |
| Chip8Spec.ToggleStep | Chip8.cpp:271-279 | one inner-loop step of Dxyn flips the landing cell iff the pixel is set and ORs that cell's previous value into `has_erased` |
| Chip8Spec.FirstPressed | Chip8.cpp:305-311 | the key scan finds the lowest pressed key, or reports that none is pressed |
| Chip8Spec.Execute | Chip8.cpp:108-357 | every branch of `execute` keeps array sizes valid; per-branch effects are the `Chip8Laws` lemmas |
| Chip8Spec.ExecuteControl | Chip8.cpp:122-297 | 00EE, 1nnn, 2nnn, 3xkk, 4xkk, 5xy0 (122-162), 9xy0 (238-242), Bnnn (248-252), Ex9E and ExA1 (284-297) keep array sizes valid; `Chip8Laws.NineMatchesFive`, `Chip8Laws.KeySkipsComplement` and `Chip8Laws.CallThenReturn` state their effects |
| Chip8Spec.ExecuteLoad | Chip8.cpp:163-301 | 6xkk, 7xkk, 8xy0..8xy3 (163-198), Cxkk (253-258) and Fx07 (298-301) keep array sizes valid; `Chip8Laws.RandomMasked` and `Chip8Laws.XorTwiceRestores` state effects |
| Chip8Spec.ExecuteArith | Chip8.cpp:199-237 | the flag-setting 8xy_ branches keep array sizes valid; `Chip8Laws.AddRegCarry`, `SubRegFlag`, `SubNegFlag`, `ShiftRightFlag`, `ShiftLeftFlag` state their effects |
| Chip8Spec.WaitForKey | Chip8.cpp:302-316 | Fx0A keeps array sizes valid; its effect is stated by `Chip8Laws.WaitKeyIdle` and `Chip8Laws.WaitKeyPressed` |
| Chip8Spec.ExecuteMemory | Chip8.cpp:243-356 | Annn (243-247) and Fx15..Fx65 (317-356) keep array sizes valid; `Chip8Laws.BcdDigits`, `StoreRegsCopies`, `LoadRegsCopies` and `FontAddrSelectsGlyph` state their effects |
| Chip8Spec.Tick | Chip8.cpp:79-82 | `tick` keeps array sizes valid; `Chip8Laws.TickAdvancesPc` and `Chip8Laws.TickUnknown` state its pc step |
| Chip8Laws.OpcodeBytes | Chip8.cpp:84-90 | the fetched opcode has ram[pc] as its high byte and ram[pc+1] as its low byte, and its nibbles are theirs |
| Chip8Laws.TickUnknown | Chip8.cpp:79-90 | an opcode matching no branch only advances pc by 2 |
| Chip8Laws.TickAdvancesPc | Chip8.cpp:79-90 | every branch other than jumps, calls, returns, skips and Fx0A leaves pc at old pc + 2 |
| Chip8Laws.RandomOnlyInCxkk | Chip8.cpp:253-258 | only Cxkk depends on the random byte |
| Chip8Laws.RandomMasked | Chip8.cpp:253-258 | Cxkk stores exactly rnd & kk in Vx, which exceeds neither kk nor rnd, and changes nothing else |
| Chip8Laws.XorTwiceRestores | Chip8.cpp:193-198 | running 8xy3 twice with x ≠ y restores the whole state |
| Chip8Laws.NineMatchesFive | Chip8.cpp:238-242 | 9xy0 behaves exactly like 5xy0: it skips when Vx == Vy |
| Chip8Laws.AddRegCarry | Chip8.cpp:199-209 | 8xy4: Vx := (Vx + Vy) mod 256, VF := 1 iff Vx + Vy > 255, VF·256 + Vx is the exact sum, nothing else changes |
| Chip8Laws.AddRegOverflowExample | Chip8.cpp:199-209 | 0xFF + 0x01 gives Vx = 0 and VF = 1 |
| Chip8Laws.AddRegIntoFlag | Chip8.cpp:207-208 | 8Fy4: VF is written last, so it ends up holding the carry, not the sum |
| Chip8Laws.SubRegFlag | Chip8.cpp:210-217 | 8xy5: Vx := (Vx − Vy) mod 256 and VF := 1 iff the new Vx exceeds Vy |
| Chip8Laws.SubRegExample | Chip8.cpp:210-217 | Vx = 5, Vy = 3 gives Vx = 2 and VF = 0 |
| Chip8Laws.SubNegFlag | Chip8.cpp:224-231 | 8xy7: Vx := (Vy − Vx) mod 256 and VF := 1 iff Vy exceeds the new Vx |
| Chip8Laws.SubNegExample | Chip8.cpp:224-231 | Vx = 0, Vy = 5 gives Vx = 5 and VF = 0 |
| Chip8Laws.SubIntoFlag | Chip8.cpp:210-231 | 8Fy5 leaves VF = 1 iff (VF − Vy) mod 256 > Vy, 8Fy7 leaves VF = 1 iff Vy > (Vy − VF) mod 256, else 0: the flag overwrites the difference; nothing else changes |
| Chip8Laws.ShiftRightFlag | Chip8.cpp:218-223 | 8xy6: VF := Vx & 1, Vx := Vx >> 1, and 2·Vx + VF rebuilds the old Vx |
| Chip8Laws.ShiftLeftFlag | Chip8.cpp:232-237 | 8xyE: VF := bit 7 of Vx, Vx := (Vx << 1) mod 256, and VF·256 + Vx is 2·(old Vx) |
| Chip8Laws.ShiftFlagItself | Chip8.cpp:218-237 | with x = F the shift is applied to the freshly written flag: 8Fy6 leaves VF = 0, 8FyE leaves 2·(old bit 7) |
| Chip8Laws.PaintedIsCovered | Chip8.cpp:266-279 | after all n rows, the toggled cells are exactly the landing cells of set sprite pixels |
| Chip8Laws.DrawTogglesExactly | Chip8.cpp:259-283 | Dxyn flips exactly the cells `((Vy+r) mod 32)·64 + (Vx+c) mod 64` of set pixels of `ram[I+r]`, VF := 1 iff one of them was on, nothing else changes |
| Chip8Laws.ToggledTwice | Chip8.cpp:276-277 | XOR-ing the same cells twice restores the screen |
| Chip8Laws.ErasesAfterToggle | Chip8.cpp:276 | after a draw, the same draw collides exactly on the cells the first one switched on |
| Chip8Laws.DrawTwiceRestores | Chip8.cpp:259-283 | drawing the same sprite twice at the same place (x, y ≠ F) restores the screen; the second VF is 1 iff some covered cell was originally off |
| Chip8Laws.FontAddrSelectsGlyph | Chip8.cpp:329-332 | with the font in place and Vx < 16, Fx29 points I at the five rows of the glyph of Vx |
| Chip8Laws.WaitKeyIdle | Chip8.cpp:302-316 | a tick on Fx0A with no key pressed changes nothing at all (pc += 2 then pc −= 2) |
| Chip8Laws.WaitKeyPressed | Chip8.cpp:302-316 | a tick on Fx0A with a key pressed stores the lowest pressed key in Vx and leaves pc advanced |
| Chip8Laws.KeySkipsComplement | Chip8.cpp:284-297 | Ex9E skips iff key Vx is down, and ExA1 skips exactly when Ex9E does not |
| Chip8Laws.BcdDigits | Chip8.cpp:333-344 | Fx33 writes three decimal digits, each < 10, with 100·d0 + 10·d1 + d2 = Vx, and changes no other cell |
| Chip8Laws.BcdExample | Chip8.cpp:333-344 | Vx = 156 gives [1, 5, 6] |
| Chip8Laws.StoreRegsCopies | Chip8.cpp:345-350 | Fx55 stores V0..Vx inclusive at I.., leaves I and all other cells alone |
| Chip8Laws.LoadRegsCopies | Chip8.cpp:351-356 | Fx65 loads V0..Vx inclusive from I.., leaves I and the higher registers alone |
| Chip8Laws.StoreThenLoad | Chip8.cpp:345-356 | Fx65 right after Fx55 with the same x and I is a no-op |
| Chip8Laws.LoadThenStore | Chip8.cpp:345-356 | Fx55 right after Fx65 with the same x and I is a no-op |
| Chip8Laws.LoadCopies | Chip8.cpp:38-45 | `load` sets ram[i] := data[i] for i in [0x200, end), keeps all other cells (the font included) and all other state; end = 0x200 + size without overflow, and a wrapped end copies nothing |
| Chip8Laws.ResetClears | Chip8.cpp:47-77 | `reset` sets pc = 0x200, zeroes I, sp, dt, st, RAM above the font, screen, V, stack and keys; keeps the font and `beeping` |
| Chip8Laws.ResetIdempotent | Chip8.cpp:47-77 | resetting twice equals resetting once |
| Chip8Laws.ResetIsInitial | Chip8.cpp:47-77 | with the font in place, `reset` gives back the freshly constructed machine |
| Chip8Laws.FontSurvivesLoad | Chip8.cpp:38-45 | loading a program into the constructed machine leaves FONTSET intact |
| Chip8Laws.TickTimersN | Chip8.cpp:92-106 | repeated `tick_timers` touches only dt, st and `beeping` |
| Chip8Laws.TimersAfter | Chip8.cpp:92-106 | after n calls both timers have dropped by n, stopping at 0, and `beeping` says whether st was still ≥ n |
| Chip8Laws.SoundLastCall | Chip8.cpp:98-105 | with st = 1, the call that stops the timer still sets `beeping`; only the next call clears it |
| Chip8Laws.PushPop | Chip8.cpp:20-28 | `pop` after `push` returns the pushed item and restores sp; the stack keeps the pushed slot |
| Chip8Laws.CallThenReturn | Chip8.cpp:122-138 | 2nnn then 00EE resumes right after the call with sp restored; the pushed slot holds the return address |
| Chip8Machine.Chip8.Snapshot | Chip8.h:50-59 | the object's fields and arrays, read as a `State` with valid sizes |
| Chip8Machine.Chip8.constructor | Chip8.cpp:7-18 | the new object is `Initial(beeping)`: registers zero, pc = 0x200, font copied in by the loop; its five arrays are fresh, as the embedded member arrays of the C++ object are |
| Chip8Machine.Chip8.Push | Chip8.cpp:20-23 | writes stack[sp], increments sp, as `Push` |
| Chip8Machine.Chip8.Pop | Chip8.cpp:25-28 | decrements sp and returns stack[sp], as `Pop` |
| Chip8Machine.Chip8.GetDisplay | Chip8.cpp:30-32 | returns the 2048 screen cells as they are |
| Chip8Machine.Chip8.Keypress | Chip8.cpp:34-36 | updates key idx in place, as `Keypress` |
| Chip8Machine.Chip8.Load | Chip8.cpp:38-45 | the copy loop from 0x200 while i < end (none when end wraps) leaves RAM as `Load` says |
| Chip8Machine.Chip8.Reset | Chip8.cpp:47-77 | the five clearing loops leave the machine as `Reset` says |
| Chip8Machine.Chip8.ClearProgramRam | Chip8.cpp:54-60 | the RAM loop of `reset` keeps ram[0..80) and zeroes the rest |
| Chip8Machine.Chip8.ClearRegisters | Chip8.cpp:65-76 | the V, stack and key loops of `reset` zero those arrays |
| Chip8Machine.Chip8.Tick | Chip8.cpp:79-82 | fetch then execute, as `Tick` |
| Chip8Machine.Chip8.Fetch | Chip8.cpp:84-90 | returns the big-endian opcode at pc and advances pc by 2 (mod 65536), as `Opcode` and `Advance` |
| Chip8Machine.Chip8.TickTimers | Chip8.cpp:92-106 | updates dt, st and `beeping` as `TickTimers` |
| Chip8Machine.Chip8.Execute | Chip8.cpp:108-357 | runs the branch `Decode(op)` selects, as `Execute` |
| Chip8Machine.Chip8.ExecuteControl | Chip8.cpp:122-297 | 00EE, 1nnn, 2nnn, 3xkk, 4xkk, 5xy0, 9xy0, Bnnn, Ex9E, ExA1, as `ExecuteControl` |
| Chip8Machine.Chip8.ExecuteLoad | Chip8.cpp:163-301 | 6xkk, 7xkk, 8xy0..8xy3, Cxkk, Fx07, as `ExecuteLoad` |
| Chip8Machine.Chip8.ExecuteArith | Chip8.cpp:199-237 | 8xy4..8xyE with the source's order of writes to Vx and VF, as `ExecuteArith` |
| Chip8Machine.Chip8.ExecuteMemory | Chip8.cpp:243-356 | Fx15, Fx18, Annn, Fx1E, Fx29, Fx33, Fx55, Fx65 and unmatched opcodes, as `ExecuteMemory` |
| Chip8Machine.Chip8.ClearScreen | Chip8.cpp:114-121 | 00E0 sets every screen cell to false |
| Chip8Machine.Chip8.DrawSprite | Chip8.cpp:259-283 | the row loop of Dxyn leaves screen and VF as `DrawSprite` says |
| Chip8Machine.Chip8.DrawRow | Chip8.cpp:266-280 | one row of the column loop advances the toggled screen and `has_erased` by eight pixels |
| Chip8Machine.Chip8.WaitForKey | Chip8.cpp:302-316 | the key scan with `break` stores the lowest pressed key, or rewinds pc by 2 |
| Chip8Machine.Chip8.WriteBcd | Chip8.cpp:333-344 | the 3-step loop writes the BCD digits at I, I+1, I+2 |
| Chip8Machine.Chip8.WriteRegs | Chip8.cpp:345-350 | the loop copies V0..Vx to ram[I..I+x] |
| Chip8Machine.Chip8.ReadRegs | Chip8.cpp:351-356 | the loop copies ram[I..I+x] to V0..Vx |

## Left out

- The Arduino `random(256)` call in Cxkk is foreign and nondeterministic. Its byte is the `rnd` parameter of `Tick` and `Execute`, and only `Vx := rnd & kk` is modelled.
- Chip8Machine.Chip8.GetDisplay: returns a copy of the screen cells instead of the aliasing `bool*`, so later writes by the host through that pointer are not modelled.
- Unchecked out-of-range indexing is undefined behaviour in C++, so it is excluded by preconditions rather than given a made-up meaning. This covers stack overflow and underflow, `ram[pc + 1]` at the top of RAM, `ram[I + k]` past 4096, `keys[Vx]` with Vx ≥ 16, `keypress` with idx ≥ 16, and a `load` that writes past RAM or reads past `data`.
- `beeping` has no initializer, so the constructor leaves it as it finds it, and `Initial` takes its value as a parameter.
- The host side is not part of this model: pacing of `tick` and `tick_timers`, rendering, audio, input polling and `Arduino.h`.
- src/Chip8.cpp and src/Chip8.h are an older copy of the same class, whose `execute` is empty. They are not part of this model.
- `|`, `&` and `^` on bytes are defined bit by bit on integers. They are not C++ bit operations, but they give the same values for 8-bit operands.
- `execute` is one if-chain in the source. In the model it dispatches to four family functions and methods plus 00E0, Dxyn and Fx0A, with the same branch for every opcode.
- `Decode` tests the first nibble before the other conditions. The branch it picks is the same because the source's patterns never overlap across first nibbles.

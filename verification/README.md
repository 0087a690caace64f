# CHIP-8 interpreter core in Dafny

This project models the core of a small CHIP-8 interpreter written in Go (`chip8/chip8.go`).
The core consists of:

- the machine record: 4 KiB of memory, sixteen byte registers `V0`..`VF`, the 16-bit index
  register `I` and program counter, two timers, a 16-entry return stack with its pointer,
  the draw flag, a 64x32 display of one byte per pixel, and 16 key latches;
- the constructor, which zeroes the machine, loads the font and then loads a program image
  at 0x200 under a size ceiling;
- sprite drawing, which XORs sprite rows onto the display and reports collisions in `VF`;
- the fetch/decode/execute cycle over the 34 instructions the code implements.

The model follows the Go code as written, including the places where it differs from the
usual CHIP-8 description:

- the font loop stores every glyph byte into cell 0;
- `8XY0` copies `VX` into `VY`;
- `BNNN` adds a further 2 after the jump;
- `FX33` repeats the hundreds digit in the third cell;
- `2NNN` increments `SP` before pushing;
- `EX9E` clears the latch it tested;
- `FX0A` clears `key[VX]` even while it waits;
- `FX29` multiplies the whole of `VX` by 5;
- family 0 is dispatched on its low byte alone, and `5XYN` ignores `N`;
- a sprite that runs past the right edge continues on the next display line.

`uint16` arithmetic on `pc`, `I` and `SP` wraps modulo 65536 explicitly (`Words.Add16`,
`Words.Dec16`). Wherever the Go code would index past an array and panic, the model has a
precondition instead (`Cpu.CanExecute`, `Cpu.Runnable`). The random byte of `CXNN` is a
parameter `r` of `Cpu.Step`.

Modules, one per file:

- `Words` (`words.dfy`): byte and word types, wrapping arithmetic, bitwise helpers.
- `Machine` (`machine.dfy`): the state record, the constants and font, and the constructor
  with the font and program loaders.
- `Opcodes` (`opcodes.dfy`): fetch, the `Instr` datatype, decoding, and an encoder that is
  its inverse.
- `Display` (`display.dfy`): sprite drawing, plus a closed-form description of the cells a
  sprite covers.
- `Transfer` (`transfer.dfy`): `FX33`, `FX55` and `FX65`.
- `Cpu` (`cpu.dfy`): instruction execution and `Step`, with a per-instruction footprint of
  the state parts an instruction may write.
- `CpuProperties` (`cpu_properties.dfy`): lemmas about single cycles and pairs of cycles.
- `Scenarios` (`scenarios.dfy`): concrete runs.

## Model

| member | source | states |
|---|---|---|
| Words.Add16 | chip8/chip8.go:195 | `uint16` addition gives the exact sum when it stays below 65536, and otherwise the sum less 65536. |
| Words.Dec16 | chip8/chip8.go:233 | `uint16` decrement gives `a - 1` for positive `a`; 0 wraps to 65535. |
| Words.OffsetOfAdd | chip8/chip8.go:210 | The cell reached by adding `k` to `i` in `uint16` is exactly the cell whose wrapped distance from `i` is `k`. |
| Words.Flip | chip8/chip8.go:113 | `^= 1` on a byte toggles the parity and keeps the higher bits. |
| Words.FlipFlip | chip8/chip8.go:113 | Toggling a pixel twice restores it. |
| Words.LowBitMask | chip8/chip8.go:311 | `vx & 0x1` is the low bit `vx mod 2`, the value the model stores in VF for 8XY6. |
| Words.HighBitMask | chip8/chip8.go:325 | `(vx & 0x80) >> 7` is the high bit `vx div 128`, the value the model stores in VF for 8XYE. |
| Words.XorOneFlips | chip8/chip8.go:113 | `b ^ 1` computed bit by bit is exactly `Words.Flip(b)`: the lowest bit toggles and the others stay. |
| Words.Or8 | chip8/chip8.go:279-282 | Byte `|`: bit `j` of the result is set exactly when it is set in either operand, and the result is at least each operand. |
| Words.And8 | chip8/chip8.go:283-286 | Byte `&`: bit `j` of the result is set exactly when it is set in both operands, and the result is at most each operand. |
| Words.Xor8 | chip8/chip8.go:287-290 | Byte `^`: bit `j` of the result is set exactly when the operands differ in bit `j`. |
| Machine.Blank | chip8/chip8.go:61-63 | The zero-valued machine is well-formed with its counter at 0x200. Everything else is zero: `I`, `SP`, the recorded word, both timers, memory, registers, stack slots, display and key latches; the draw flag is false. |
| Machine.WriteGlyphs | chip8/chip8.go:75-77 | After the font loop only cell 0 has changed, and it holds the last glyph byte. |
| Machine.LoadFontset | chip8/chip8.go:74-78 | Loading the font changes only memory cell 0, which ends as 0x80. |
| Machine.CopyRom | chip8/chip8.go:90-92 | The copy loop puts image byte `a - 0x200` into each cell `a` of the image range and leaves every other cell alone. |
| Machine.LoadRom | chip8/chip8.go:80-94 | An image longer than 3583 bytes is refused with the error and the machine unchanged. Otherwise the result carries no error, image byte `k` is at 0x200 + `k`, and every other cell and field is unchanged. |
| Machine.New | chip8/chip8.go:58-72 | Fails exactly for images over 3583 bytes. On success: counter 0x200; `I`, `SP`, the recorded word, both timers, registers, stack slots, display and keys zero; draw flag false; cell 0 is 0x80; cells 1..0x1FF and those past the image are zero; the image is at 0x200. |
| Opcodes.Fetch | chip8/chip8.go:122 | The fetched word's high byte is `memory[pc]` and its low byte is `memory[pc+1]`. |
| Opcodes.FieldsOfWord | chip8/chip8.go:124-127 | The `x`, `y`, `n`, `nn` and `nnn` fields and the family of a word built from four nibbles are those nibbles and their combinations. |
| Opcodes.WordOfFields | chip8/chip8.go:124-127 | Every 16-bit word is recovered from its family, `x`, `y` and `n` fields; `nn` and `nnn` are their low combinations. |
| Opcodes.DecodeUnknown | chip8/chip8.go:129-341 | The dispatch matches no case exactly on the words `IsUnknown` lists family by family, and it then keeps the word. |
| Opcodes.DecodeEncode | chip8/chip8.go:129-341 | Decoding inverts the encoder for every instruction, and for every word that no case matches. |
| Opcodes.EncodeDispatch | chip8/chip8.go:129-341 | Every case of the dispatch keeps each nibble it reads: encoding its instruction gives back the word of the four nibbles, with only the `x` of family 0 and the `n` of family 5 cleared. |
| Opcodes.EncodeDecode | chip8/chip8.go:124-341 | Conversely to `DecodeEncode`, a word that decodes to an instruction is that instruction's encoding up to the fields the dispatch ignores, and an unmatched word is kept as is. |
| Opcodes.FamilyZeroIgnoresX | chip8/chip8.go:222-238 | A family-0 word decodes the same as its low byte alone, so `0x01E0` clears the screen like `0x00E0`. |
| Opcodes.SkipIfEqualRegIgnoresN | chip8/chip8.go:259-264 | Every `5XYN` decodes as `5XY0`. |
| Display.PixelIndex | chip8/chip8.go:105 | The `uint16` pixel index never wraps: it equals `x + col + (y + row) * 64`. |
| Display.SpriteBitIsMaskTest | chip8/chip8.go:109 | The model's sprite-bit test (bit `7 - col` of the row byte is set) is Go's `pix & (0x80 >> col) != 0`, with `0x80 >> col` the single bit `2^(7 - col)`. |
| Display.DrawColumns | chip8/chip8.go:104-115 | The inner loop toggles exactly the in-range cells of one sprite row whose bit is set. Its collision result is true exactly when one of those cells was lit or the incoming flag was already set. |
| Display.DrawRows | chip8/chip8.go:101-116 | The outer loop from row `row` on toggles exactly the cells covered by rows `row..n-1` and reports whether any of them was lit. |
| Display.DrawSprite | chip8/chip8.go:97-118 | Each display cell is toggled if the sprite covers it and kept otherwise. Covered cells are those at `x + col + (y + row) * 64` below 2048 with sprite bit `col` of byte `i + row` set. The collision result is true exactly when some covered cell held 1. |
| Display.DrawKeepsBinary | chip8/chip8.go:110-113 | A display of zeros and ones stays so after a draw. |
| Display.DrawTwiceRestores | chip8/chip8.go:97-118 | Drawing the same sprite at the same place twice gives back the original display. |
| Transfer.StoreFrom | chip8/chip8.go:209-211 | The dump loop from register `idx` on writes `v[k]` to the cell at offset `k` from `i` for `idx <= k <= x` and leaves every other cell alone. |
| Transfer.StoreRegisters | chip8/chip8.go:208-213 | FX55 writes `v[k]` at `i + k` for every `k <= x` and changes no cell whose offset from `i` is above `x`. |
| Transfer.LoadFrom | chip8/chip8.go:215-217 | The load loop from register `idx` on reads registers `idx..x` from `i + k` and keeps the others. |
| Transfer.LoadRegisters | chip8/chip8.go:214-219 | FX65 reads `v[k]` from `i + k` for every `k <= x` and keeps the registers above `x`. |
| Transfer.StoreThenLoad | chip8/chip8.go:208-219 | Loading back a block just dumped from the same `i` with the same `x` returns the register file unchanged. |
| Transfer.StoreDecimal | chip8/chip8.go:202-205 | FX33 as written stores the hundreds digit at `i`, the tens digit at `i + 1` and the hundreds digit again at `i + 2`, and changes no other cell. |
| Transfer.DecimalDigitsExactlyWhen | chip8/chip8.go:202-205 | The third cell holds the units digit exactly when the units digit equals the hundreds digit. |
| Cpu.FirstPressed | chip8/chip8.go:177-183 | The key scan returns the lowest non-zero latch at or after `k`, or nothing when all those latches are zero. |
| Cpu.SkipIf | chip8/chip8.go:247-264 | A conditional skip moves the counter 4 ahead in `uint16` when the condition holds and 2 ahead otherwise; without wrap-around that is exactly `pc + 4` or `pc + 2`. |
| Cpu.CanExecute | chip8/chip8.go:102-244 | Only the nine instructions that index an array with a value from the state can panic. A sprite draw, FX33, FX55 and FX65 cannot panic when their block of memory from `I` fits below 4096, and FX0A cannot when some latch is set. |
| Cpu.ExecuteControl | chip8/chip8.go:222-264 | Clear, return, jumps, call, the register skips and unmatched words keep the machine valid. They write only their footprint, and only clear raises the draw flag. |
| Cpu.ExecuteRegisterWrite | chip8/chip8.go:265-290 | 6XNN, 7XNN, 8XY0-8XY3 (and CXNN, lines 140-143) change exactly one register, `VY` for 8XY0 and `VX` otherwise, advance the counter by 2, and change nothing else: in particular VF is kept unless it is the target. |
| Cpu.ExecuteFlagged | chip8/chip8.go:291-329 | 8XY4-8XY7 and 8XYE change only `VX` and VF and advance by 2. Unless `VX` is VF itself, VF ends as 0 or 1. |
| Cpu.ExecuteIndexed | chip8/chip8.go:130-219 | ANNN, FX1E, FX29, FX33, FX55 and FX65 advance by 2 and change only `I`, memory or registers. Memory changes only for FX33/FX55, registers only for FX65, and `I` only for the three index instructions. |
| Cpu.ExecuteDevice | chip8/chip8.go:145-193 | Draw, key and timer instructions keep the machine valid and write only their footprint. Only draw raises the draw flag, and a binary display stays binary. |
| Cpu.Execute | chip8/chip8.go:129-341 | Executing any instruction keeps the machine valid and keeps the recorded word. Parts outside the instruction's footprint are unchanged, and the draw flag is raised exactly by clear and draw. |
| Cpu.Step | chip8/chip8.go:120-350 | One cycle records the fetched word and changes no part outside the decoded instruction's footprint. The draw flag ends set exactly for 00E0 and DXYN, and a display of zeros and ones stays so. |
| CpuProperties.AddRegCarry | chip8/chip8.go:291-299 | 8XY4 (operands other than VF): VF is 1 iff the sum exceeds 255, else 0; `VX` gets the sum mod 256; other registers are kept; the counter advances by 2. |
| CpuProperties.SubRegBorrow | chip8/chip8.go:300-308 | 8XY5: VF is 0 iff `VY > VX`, else 1; `VX` gets `VX - VY` mod 256; other registers are kept. |
| CpuProperties.SubReverseBorrow | chip8/chip8.go:315-323 | 8XY7: VF is 0 iff `VX > VY`, else 1; `VX` gets `VY - VX` mod 256; other registers are kept. |
| CpuProperties.FlagOperandsAsWritten | chip8/chip8.go:291-323 | For 8XY4/5/7 with any operands: the flag is written first and the arithmetic reads the updated VF. With `x` = F the result overwrites the flag, and with `y` = F the flag is the operand. |
| CpuProperties.ShiftRightOut | chip8/chip8.go:309-314 | 8XY6: VF gets the old low bit (unless `x` = F), `VX` is halved, other registers are kept, and the counter advances by 2. |
| CpuProperties.ShiftLeftOut | chip8/chip8.go:324-328 | 8XYE: VF gets the old high bit and `VX` is doubled mod 256. With `x` = F, VF ends as twice the old high bit. The counter advances by 2. |
| CpuProperties.SetImmLoads | chip8/chip8.go:265-268 | 6XNN: the register file afterwards is the old one with `VX` replaced by `nn`; the counter advances by 2. |
| CpuProperties.OrRegisters | chip8/chip8.go:279-282 | 8XY1: `VX` becomes `VX | VY`, each of its bits set exactly when set in either operand. No other register changes (VF included, unless `x` = F); the counter advances by 2. |
| CpuProperties.AndRegisters | chip8/chip8.go:283-286 | 8XY2: `VX` becomes `VX & VY`, each of its bits set exactly when set in both operands. No other register changes; the counter advances by 2. |
| CpuProperties.XorRegisters | chip8/chip8.go:287-290 | 8XY3: `VX` becomes `VX ^ VY`, each of its bits set exactly when the operands differ there. No other register changes; the counter advances by 2. |
| CpuProperties.MoveCopiesXIntoY | chip8/chip8.go:275-278 | 8XY0 copies `VX` into `VY` and keeps every other register. |
| CpuProperties.AddImmNoCarry | chip8/chip8.go:269-272 | 7XNN adds mod 256 into `VX` and writes no other register (in particular not VF). |
| CpuProperties.RandomMasked | chip8/chip8.go:140-143 | CXNN stores the random byte ANDed with `nn`, and the result is never 255 since the byte is below 255. |
| CpuProperties.SkipAdvance | chip8/chip8.go:153-167 | 3XNN, 4XNN, 5XY0, 9XY0, EX9E and EXA1 advance by 4 when their condition holds and by 2 otherwise, and write no register. EX9E zeroes the tested latch only on a match; no other latch changes. |
| CpuProperties.JumpSetsCounter | chip8/chip8.go:239-241 | 1NNN sets the counter to `nnn`. |
| CpuProperties.JumpOffsetAdvancesPastTarget | chip8/chip8.go:135-138 | BNNN as written leaves the counter at `nnn + V0 + 2`. |
| CpuProperties.SequentialAdvance | chip8/chip8.go:130-219 | Every instruction other than a jump, call, return, skip, FX0A or unmatched word advances the counter by exactly 2. |
| CpuProperties.CallThenReturn | chip8/chip8.go:231-246 | 2NNN pushes the call's own address at `SP + 1` (in `uint16`) and jumps, touching no other stack slot. The following 00EE resumes at that address + 2 with `SP` restored, leaving registers, `I`, memory, display and keys unchanged. |
| CpuProperties.CallSkipsSlotZero | chip8/chip8.go:242-246 | From `SP` = 0 a call stores the return address in slot 1, sets `SP` to 1, and leaves slot 0 alone. |
| CpuProperties.CallPushes | chip8/chip8.go:242-246 | 2NNN from any `SP`: `SP` becomes `SP + 1` in `uint16`, the stack is the old one with that slot set to the call's own address, and the counter is `nnn`. |
| CpuProperties.ReturnPops | chip8/chip8.go:231-234 | 00EE (which requires `SP` < 16) resumes at `stack[SP] + 2`, decrements `SP` in `uint16`, and leaves the stack slots alone. |
| CpuProperties.ReturnUnderflowWraps | chip8/chip8.go:231-234 | 00EE at `SP` = 0 wraps the pointer to 65535 and resumes at `stack[0] + 2`. |
| CpuProperties.SetIndexLoads | chip8/chip8.go:130-133 | ANNN sets `I` to `nnn`, writes no register and advances by 2. |
| CpuProperties.AddIndexWraps | chip8/chip8.go:194-197 | FX1E adds `VX` to `I` modulo 65536 and writes no register (no overflow flag). |
| CpuProperties.FontCharWholeRegister | chip8/chip8.go:198-201 | FX29 sets `I` to 5 times the whole of `VX`, so values of 16 or more point past the glyph table. |
| CpuProperties.BcdAsWritten | chip8/chip8.go:202-207 | Through the cycle, FX33 writes hundreds, tens, hundreds at `I`, `I + 1`, `I + 2` and no other cell. |
| CpuProperties.StoreRegsWrites | chip8/chip8.go:208-213 | Through the cycle, FX55 writes `v[k]` at `I + k` for `k <= x`, no other cell, and neither `I` nor a register. |
| CpuProperties.LoadRegsReads | chip8/chip8.go:214-219 | Through the cycle, FX65 sets `v[k]` to the cell at `I + k` for every `k <= x`, keeps the registers above `x`, and changes neither `I` nor memory. |
| CpuProperties.StoreThenLoadRegisters | chip8/chip8.go:208-219 | FX55 followed by FX65 with the same `x` leaves all registers as they were and memory as the dump left it. |
| CpuProperties.ClearScreenBlanks | chip8/chip8.go:224-230 | 00E0 zeroes every display cell, raises the draw flag and advances by 2. |
| CpuProperties.DrawThroughCycle | chip8/chip8.go:145-151 | DXYN toggles exactly the cells covered by the sprite at (`VX`, `VY`) and sets VF to 1 iff a covered cell was lit, else 0. It keeps other registers, raises the draw flag and advances by 2. |
| CpuProperties.GetDelayReads | chip8/chip8.go:172-175 | FX07: the register file afterwards is the old one with `VX` replaced by the delay timer; the timer is kept and the counter advances by 2. |
| CpuProperties.SetTimers | chip8/chip8.go:186-193 | FX15 sets the delay timer and FX18 the sound timer to `VX`; the other timer and every register are kept and the counter advances by 2. |
| CpuProperties.WaitKeyWaits | chip8/chip8.go:176-185 | FX0A with no latch set keeps the counter (the instruction repeats) and the registers, but zeroes `key[VX]`. |
| CpuProperties.WaitKeyTakesFirst | chip8/chip8.go:176-185 | FX0A stores the lowest set latch index in `VX`, zeroes that latch and advances by 2. |
| CpuProperties.UnknownIsNoOp | chip8/chip8.go:222-238 | A word no case matches changes nothing except clearing the draw flag and recording the word. This covers family 0, 8, 9, E and F leftovers. |
| Scenarios.BootAndClear | chip8/chip8.go:58-72 | Booting the image `00 E0` and running one cycle gives a blank display, a raised draw flag and the counter at 0x202. |
| Scenarios.FullRowTwice | chip8/chip8.go:97-118 | A 0xFF row drawn at (0, 0) on a blank display lights cells 0-7 with no collision. Drawn again, it blanks them and reports a collision. |
| Scenarios.SpillsIntoNextLine | chip8/chip8.go:105-108 | A 0xFF row drawn at (60, 0) covers exactly cells 60-67, so its last four pixels land on the second line. |
| Scenarios.DecimalOf234 | chip8/chip8.go:202-205 | FX33 on 234 stores 2, 3, 2. |
| Scenarios.RomSizeBoundary | chip8/chip8.go:52 | An image of 3583 bytes loads and one of 3584 bytes is refused. |

## Left out

- Reading the image file (`ioutil.ReadFile`) and its I/O error path: `Machine.LoadRom` and `Machine.New` take the image as a byte sequence. Their only error is the size error.
- The size ceiling `0xFFF - 0x200` is 3583 bytes, one less than the 3584 bytes from 0x200 to the end of memory. The model keeps the code's value (see `Scenarios.RomSizeBoundary`).
- The random source of CXNN (`rand.Intn(255)`): the byte is the parameter `r` of `Cpu.Step`, required to be below 255.
- `fmt.Printf` for unmatched family-0 words and in the `default` arm: they are modelled as no state change. The `default` arm itself cannot be reached, since all sixteen families have a case.
- Timer countdown: it is commented out in the cycle, so the timers change only through FX15/FX18.
- Go panics on out-of-range indexing are preconditions (`Cpu.CanExecute`, `Cpu.Runnable`), not fault values:
  - `pc + 1 < 4096` for the fetch;
  - `I + row < 4096` for every sprite row;
  - `I + 2` resp. `I + x` inside memory for FX33 resp. FX55/FX65;
  - `VX < 16` for EX9E/EXA1, and for FX0A when no latch is set;
  - `SP + 1 < 16` for 2NNN and `SP < 16` for 00EE.
- The shifts `vx >> 1` and `(vx << 1) & 0xFF` are written as `div 2` and `2 * vx mod 256` with no mask-form lemma; the two flag masks (`Words.LowBitMask`, `Words.HighBitMask`) and `gfx[idx] ^= 1` (`Words.XorOneFlips`) have one. The bitwise operators `|`, `&`, `^` are defined bit by bit on integers (`Words.Bitwise`).
- The pointer result of `New` is a value: the model has no aliasing.
- Rendering, keyboard polling, audio and cycle pacing are outside this core.
- CpuProperties.AddRegCarry: stated only for operands other than VF; `CpuProperties.FlagOperandsAsWritten` covers operands equal to VF.
- CpuProperties.SubRegBorrow: stated only for operands other than VF, for the same reason.
- CpuProperties.SubReverseBorrow: stated only for operands other than VF, for the same reason.
- Opcodes.Decode: carries no postcondition of its own, since a contract on the 35-way dispatch would be unfolded in every proof about a cycle. What it computes is stated by `Opcodes.DecodeEncode`, `Opcodes.EncodeDecode`, `Opcodes.EncodeDispatch` and `Opcodes.DecodeUnknown`.
- Opcodes.Dispatch: no postcondition, for the same reason; `Opcodes.EncodeDispatch` states it.
- Cpu.ExecuteControl: its contract is a frame (what may change); the values written are stated per instruction by `CpuProperties.JumpSetsCounter`, `JumpOffsetAdvancesPastTarget`, `CallPushes`, `ReturnPops`, `SkipAdvance`, `ClearScreenBlanks` and `UnknownIsNoOp`.
- Cpu.ExecuteRegisterWrite: the value written into the target register is stated by `CpuProperties.SetImmLoads`, `AddImmNoCarry`, `MoveCopiesXIntoY`, `OrRegisters`, `AndRegisters`, `XorRegisters` and `RandomMasked`, not by its own contract.
- Cpu.ExecuteFlagged: the values of `VX` and VF are stated by `CpuProperties.AddRegCarry`, `SubRegBorrow`, `SubReverseBorrow`, `FlagOperandsAsWritten`, `ShiftRightOut` and `ShiftLeftOut`, not by its own contract.
- Cpu.ExecuteIndexed: the values of `I`, memory and registers are stated by `CpuProperties.SetIndexLoads`, `AddIndexWraps`, `FontCharWholeRegister`, `BcdAsWritten`, `StoreRegsWrites` and `LoadRegsReads`, not by its own contract.
- Cpu.ExecuteDevice: the values written are stated by `CpuProperties.DrawThroughCycle`, `SkipAdvance`, `GetDelayReads`, `SetTimers`, `WaitKeyWaits` and `WaitKeyTakesFirst`, not by its own contract.

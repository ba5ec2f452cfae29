# CHIP-8 interpreter core, modelled in Dafny

This project models the `Chip8` class of a small CHIP-8 interpreter written in C++. It covers:

- the machine state: 4096 bytes of memory, a 64×32 video buffer of 32-bit cells, sixteen 8-bit registers with VF as the flag, the 16-bit index `I` and program counter, a 16-slot stack with an 8-bit stack pointer, the delay and sound timers, the 16-key keypad, the last opcode and `drawFlag`;
- the constructor, `loadROM`'s copy loop, `setKeys`, `emulateCycle`, `execute`, and the `drawFlag` reset at the end of `draw()`.

`src/main.cpp` holds an older copy of the same class. Its constructor, `loadROM` copy, `execute`, `emulateCycle` and `setKeys` are the same code, except that its constructor leaves `drawFlag` unset, so one model covers both.

The files:

- `layout.dfy` (module `Layout`): the sizes and load addresses from the header, the font table, the field widths as subset types (`Byte`, `Word`, `Cell`), and the whole state as one value, `Machine`.
- `bits.dfy` (module `Bits`): `&`, `|` and `^` on naturals, bit by bit, with their per-bit laws.
- `opcodes.dfy` (module `Opcodes`): the dispatcher's decoding of a 16-bit word into the 34 instructions the source handles, or `Unknown`. There is no 0NNN (SYS): a family-0 word whose low nibble is neither 0 nor E is unknown. It also has a canonical encoding and the round trip between the two.
- `semantics.dfy` (module `Semantics`): what each instruction, a cycle, the constructor, `loadROM` and `setKeys` do, as functions on `Machine`.
  - `Safe` collects the conditions under which the source's unchecked array accesses stay in bounds.
- `interpreter.dfy` (module `Interpreter`): the class `Chip8`.
  - Its fields are arrays and integer fields updated in place, with the source's loops: the font copy, the ROM copy, the keypad copy, the sprite scan, the key scan, and the FX55/FX65 block copies.
  - Every method except the row helper `DrawRow` is proved to leave `Snapshot()` equal to the matching function of `Semantics` applied to the state it started in. `DrawRow` is proved to take the video buffer and VF from `VideoBefore` and `CollisionBefore` at one row to the same at the next, for the state at the start of the draw.
- `properties.dfy` (module `Properties`): the behaviour the source promises, proved about those functions. This covers flags, skips, call and return, the sprite XOR and collision, key waits, block copies, the font, ROM loading, timers, and a two-cycle ROM run.

Integer widths are explicit. 8-bit and 16-bit `+=` wrap through `% 0x100` and `% 0x1_0000`. The source's `>> 8`, `& 0x0F00` and similar field extractions become `/` and `%` by powers of two.

Measured against Cowgod's Chip-8 Technical Reference, this code departs from the usual CHIP-8 behaviour in the following places. In each one the model follows the code:

- The sprite index `x + xline + (y + yline) * 64` does not wrap at the screen edges. A draw whose set pixels land past the buffer is excluded by a precondition.
- Accesses through `I`, the stack pointer, `keypad[Vx]` and `memory[pc + 1]` are not wrapped or reported as faults. They are unchecked, and the model requires them to be in bounds.
- Family 0 is decoded on its low nibble only (src/chip8.cpp:127-139). Every 0NN0 clears the screen and every 0NNE returns, where the reference has 0NNN SYS and only the exact words 00E0 and 00EE.
- FX1E writes VF: 1 when I + Vx exceeds 0xFFF, else 0 (src/chip8.cpp:342). The reference sets no flag.
- FX55 and FX65 advance I by X + 1 (src/chip8.cpp:361, 367). The reference leaves I unchanged.
- FX0A scans all sixteen keys and keeps the highest-numbered one that is down (src/chip8.cpp:316-323).
- An unknown word changes nothing, not even the program counter (src/chip8.cpp:141-143 and the other `default:` arms), so the interpreter executes it again on the next cycle.

## Model

| member | source | states |
|---|---|---|
| Layout.VideoAddress | src/chip8.cpp:106 | the cell of column x, row y in the 2048-cell row-major buffer lies inside it and gives back y by `/ 64` and x by `% 64` |
| Layout.Glyph | src/chip8.h:64-81 | the glyph of hexadecimal digit d is five bytes long |
| Bits.AndBit | src/chip8.cpp:195-198 | bit j of `a & b` is set exactly when it is set in both |
| Bits.OrBit | src/chip8.cpp:190-193 | bit j of the bitwise or of a and b is set exactly when it is set in either |
| Bits.XorBit | src/chip8.cpp:200-203 | bit j of `a ^ b` is set exactly when it is set in one only |
| Bits.OrBelow | src/chip8.cpp:190-193 | the bitwise or of two k-bit values is a k-bit value, so 8XY1 keeps a register a byte |
| Bits.XorBelow | src/chip8.cpp:200-203 | the same for the bitwise xor of 8XY3 |
| Bits.MaskTest | src/chip8.cpp:269 | a row tested against the one-bit mask `2^k` (`0x80 >> b` with k = 7 - b) is nonzero exactly when bit k of the row is set |
| Bits.XorOne | src/chip8.cpp:273 | `c ^ 1` is c + 1 for even c and c - 1 for odd c, and applying it twice gives c back |
| Opcodes.DecodeEncode | src/chip8.cpp:122-381 | every instruction's canonical word is dispatched back to that instruction |
| Opcodes.EncodeDecode | src/chip8.cpp:122-381 | every decoded word yields an encodable instruction whose canonical word decodes the same |
| Opcodes.UnknownWords | src/chip8.cpp:122-381 | the words the dispatcher reports as unknown are exactly: family 0 except 0NN0 and 0NNE; family 8 with low nibble 8 to D or F; family E except EX9E and EXA1; family F except the nine low bytes it handles |
| Opcodes.FamilyZero | src/chip8.cpp:126-145 | family 0 is decided on the low nibble alone: every 0NN0 clears the screen and every 0NNE returns |
| Opcodes.RegisterSkipsIgnoreLowNibble | src/chip8.cpp:166-170 | 5XYN, like 9XYN, decodes as if its low nibble were 0 |
| Opcodes.Decode | src/chip8.cpp:122-381 | the dispatcher's nested switch; its own contract says only that an unknown word keeps the word; `DecodeEncode`, `EncodeDecode`, `UnknownWords` and `FamilyZero` state what it decodes |
| Semantics.Step | src/chip8.cpp:122-381 | one instruction, dispatched to the groups below; its own contract gives only `WellFormed`; the Properties lemmas state each instruction's effect |
| Semantics.FlowStep | src/chip8.cpp:126-153 | 00E0, 00EE, 1NNN, 2NNN and BNNN (250-252); own contract `WellFormed` and both timers unchanged; meaning in `ClearBlanks`, `ReturnPops`, `CallThenReturn`, `Jumps` |
| Semantics.SkipStep | src/chip8.cpp:154-170 | 3XKK, 4XKK, 5XY0, 9XY0 (241-245), EX9E and EXA1 (286-296); own contract `WellFormed` and both timers unchanged; meaning in `SkipsOnByte`, `SkipsOnRegisters`, `SkipsOnKey` |
| Semantics.LoadStep | src/chip8.cpp:172-180 | 6XKK, 7XKK, ANNN (246-249) and CXKK (253-256); own contract `WellFormed` and both timers unchanged; meaning in `LoadAndAddByte`, `Jumps`, `RandomMasked` |
| Semantics.LogicStep | src/chip8.cpp:185-203 | 8XY0 to 8XY3; own contract `WellFormed` and both timers unchanged; meaning in `LogicBits` |
| Semantics.ArithStep | src/chip8.cpp:205-233 | 8XY4 to 8XY7 and 8XYE, flag first; own contract `WellFormed` and both timers unchanged; meaning in `AddRegCarry`, `SubBorrow`, `SubnBorrow`, `ShrOutBit`, `ShlOutBit` |
| Semantics.DrawStep | src/chip8.cpp:257-281 | DXYN; own contract `WellFormed` and both timers unchanged; meaning in `DrawFlips`, `DrawCollision`, `DrawKeepsBinary`, `DrawTwiceRestores` |
| Semantics.TimerStep | src/chip8.cpp:307-339 | FX07, FX0A, FX15 and FX18; own contract `WellFormed`, with only FX15 changing the delay timer and only FX18 the sound timer; meaning in `TimerRead`, `TimerSet`, `WaitKeyStalls`, `WaitKeyTakesHighest` |
| Semantics.IndexStep | src/chip8.cpp:341-369 | FX1E, FX29, FX33, FX55 and FX65; own contract `WellFormed` and both timers unchanged; meaning in `AddIndexFlag`, `FontPointsAtGlyph`, `BcdDigits`, `StoreRegsCopies`, `LoadRegsCopies` |
| Semantics.Execute | src/chip8.cpp:122-124 | `execute(op)` is decoding then one step; own contract `WellFormed`; meaning in `UnknownStalls`, `FetchDecodes` |
| Semantics.Fetch | src/chip8.cpp:79 | the fetched word's high byte is `memory[pc]` and its low byte `memory[pc + 1]` |
| Semantics.Tick | src/chip8.cpp:82-90 | the timers never rise, each reaches 0 exactly from 0 or 1, and nothing else changes |
| Semantics.Beeps | src/chip8.cpp:86-88 | the beep sounds exactly on the tick that takes a running sound timer to 0 |
| Semantics.Cycle | src/chip8.cpp:77-91 | fetch, execute, tick; own contract `WellFormed`; meaning in `CycleTicks`, `StalledCycleTicks`, `BeepOnce`, `SilentAtZero`, `RunSmallRom` |
| Semantics.Initial | src/chip8.cpp:8-23 | the constructed state; own contract `WellFormed`; meaning in `InitialState`, `InitialGlyphs` |
| Semantics.LoadRom | src/chip8.cpp:72 | the ROM copy; own contract `WellFormed`; meaning in `LoadRomPlaces` |
| Semantics.SetKeys | src/chip8.cpp:119 | the keypad copy; own contract `WellFormed`; meaning in `SetKeysReplaces` |
| Semantics.Present | src/chip8.cpp:93-115 | the state effect of `draw()`: `drawFlag` is false afterwards; meaning in `PresentClears` |
| Semantics.HighestPressed | src/chip8.cpp:316-323 | the key the scan leaves in Vx is pressed, no higher key is pressed, and there is none exactly when no key is down |
| Semantics.VideoStep | src/chip8.cpp:267-275 | visiting pixel (r, b) XORs exactly its target cell when the pixel is set; that cell is inside the buffer and not yet flipped |
| Semantics.CollisionStep | src/chip8.cpp:269-272 | visiting pixel (r, b) raises the collision exactly when the pixel is set and its target cell holds 1 |
| Semantics.VideoRowEnd | src/chip8.cpp:264-276 | finishing row r of the scan is starting row r + 1 |
| Interpreter.Chip8.constructor | src/chip8.cpp:8-23 | the constructed object is `Initial`: pc 0x200, font at 0..79, everything else zero, `drawFlag` false (line 49), timers as given |
| Interpreter.Chip8.LoadRom | src/chip8.cpp:72 | the copy loop leaves memory as the ROM laid over it from 0x200 on |
| Interpreter.Chip8.SetKeys | src/chip8.cpp:117-120 | the keypad becomes the first sixteen input entries and nothing else changes |
| Interpreter.Chip8.Draw | src/chip8.cpp:93-115 | the object ends in `Present`'s state: when `drawFlag` is set it is cleared, and nothing else changes |
| Interpreter.Chip8.EmulateCycle | src/chip8.cpp:77-91 | the object ends in `Cycle`'s state and `beep` is `Cycle`'s beep: fetch, execute, tick |
| Interpreter.Chip8.TickTimers | src/chip8.cpp:82-90 | each timer drops by one unless zero; `beep` holds exactly when the sound timer was 1 |
| Interpreter.Chip8.Execute | src/chip8.cpp:122-381 | running a word leaves the object in the state `Step(Decode(op))` gives; an unknown word changes nothing |
| Interpreter.Chip8.ExecuteOthers | src/chip8.cpp:126-256 | the cases of the switch from 00E0 to CXKK, plus EX9E and EXA1 (286-296), each run its group's method, ending in `Step`'s state |
| Interpreter.Chip8.ExecuteDrawOrFx | src/chip8.cpp:257-381 | DXYN, the FXNN cases and the unknown words (the key skips at 286-296 excepted) each run their method, ending in `Step`'s state; an unknown word changes nothing |
| Interpreter.Chip8.ExecuteFlow | src/chip8.cpp:126-153 | 00E0, 00EE, 1NNN, 2NNN and BNNN (lines 250-252) move the state as `FlowStep` says |
| Interpreter.Chip8.ExecuteSkip | src/chip8.cpp:154-170 | 3XKK, 4XKK, 5XY0, 9XY0 (241-245), EX9E and EXA1 (286-296) as `SkipStep` says |
| Interpreter.Chip8.ExecuteLoad | src/chip8.cpp:172-180 | 6XKK, 7XKK, ANNN (246-249) and CXKK (253-256) as `LoadStep` says |
| Interpreter.Chip8.ExecuteLogic | src/chip8.cpp:185-203 | 8XY0 to 8XY3 as `LogicStep` says |
| Interpreter.Chip8.ExecuteArith | src/chip8.cpp:205-233 | 8XY4 to 8XY7 and 8XYE, flag written first, as `ArithStep` says |
| Interpreter.Chip8.ExecuteAdd | src/chip8.cpp:205-209 | 8XY4 writes the carry to VF, then re-reads the operands for the sum, as `ArithStep` says |
| Interpreter.Chip8.ExecuteSub | src/chip8.cpp:211-227 | 8XY5 and 8XY7 write the no-borrow flag to VF, then re-read the operands for the difference, as `ArithStep` says |
| Interpreter.Chip8.ExecuteShift | src/chip8.cpp:217-233 | 8XY6 and 8XYE write VF with the bit shifted out, then re-read Vx, as `ArithStep` says |
| Interpreter.Chip8.DrawSprite | src/chip8.cpp:257-281 | the row-by-row scan leaves VF, the video buffer, `drawFlag` and pc as `DrawStep` says |
| Interpreter.Chip8.DrawRow | src/chip8.cpp:266-276 | one row of the scan takes the video buffer and VF from their state before row r to their state before row r + 1 |
| Interpreter.Chip8.ExecuteTimer | src/chip8.cpp:307-339 | FX07, FX0A, FX15 and FX18 as `TimerStep` says; FX0A with no key down returns without advancing |
| Interpreter.Chip8.WaitKey | src/chip8.cpp:314-323 | the key scan reports a key exactly when one is down and leaves the highest pressed key in Vx, and otherwise changes nothing |
| Interpreter.Chip8.ExecuteIndex | src/chip8.cpp:341-357 | FX1E, FX29 and FX33 as `IndexStep` says |
| Interpreter.Chip8.StoreRegisters | src/chip8.cpp:359-363 | FX55's loop lays V0..Vx over memory at I, then I and pc advance |
| Interpreter.Chip8.LoadRegisters | src/chip8.cpp:365-369 | FX65's loop lays memory at I over V0..Vx, then I and pc advance |
| Properties.AddRegCarry | src/chip8.cpp:205-209 | 8XY4: VF is the carry out of Vx + Vy; Vx is the sum mod 256; with Y = F and X not F, Vx + carry mod 256, since the flag is written first; with X = F the sum overwrites the flag; no other register changes; pc += 2 |
| Properties.SubBorrow | src/chip8.cpp:211-215 | 8XY5: VF is 1 exactly when Vx > Vy strictly; Vx + Vy is the old Vx, mod 256 |
| Properties.SubnBorrow | src/chip8.cpp:223-227 | 8XY7: VF is 1 exactly when Vy > Vx; Vx + old Vx is Vy, mod 256 |
| Properties.ShrOutBit | src/chip8.cpp:217-221 | 8XY6: VF is bit 0 of Vx and 2·Vx' + VF is the old Vx |
| Properties.ShlOutBit | src/chip8.cpp:229-233 | 8XYE: VF is bit 7 of Vx and Vx' + 256·VF is twice the old Vx |
| Properties.TopBit | src/chip8.cpp:230 | `Vx >> 7` reads the top bit: bit 7 of a byte is set exactly when it is at least 0x80 |
| Properties.LoadAndAddByte | src/chip8.cpp:172-180 | 6XKK loads KK; 7XKK adds KK mod 256 and leaves every other register, VF included, alone |
| Properties.LogicFrame | src/chip8.cpp:185-203 | 8XY0 to 8XY3 set Vx to Vy, or, and, xor of Vx and Vy; each leaves every other register, VF included, and the rest of the state alone, and pc += 2 |
| Properties.LogicBits | src/chip8.cpp:185-203 | 8XY0 copies Vy; 8XY1, 8XY2 and 8XY3 give the bitwise or, and, xor of Vx and Vy, bit by bit |
| Properties.RandomMasked | src/chip8.cpp:253-256 | CXKK leaves in Vx exactly the bits the random byte shares with KK, so none outside KK |
| Properties.SkipsOnByte | src/chip8.cpp:154-164 | 3XKK and 4XKK add 4 to pc when Vx equals, resp. differs from, KK and 2 otherwise, changing nothing else |
| Properties.SkipsOnRegisters | src/chip8.cpp:166-170 | 5XY0 and 9XY0 (241-245) do the same on Vx and Vy |
| Properties.SkipsOnKey | src/chip8.cpp:286-296 | EX9E and EXA1 do the same on key Vx being down, resp. up |
| Properties.Jumps | src/chip8.cpp:246-252 | 1NNN (146-148) sets pc to NNN without +2; BNNN sets pc to NNN + V0 unwrapped; ANNN sets I and pc += 2 |
| Properties.JumpPastMemory | src/chip8.cpp:250-251 | BNNN can target 0x1000, beyond memory |
| Properties.CallThenReturn | src/chip8.cpp:135-153 | 2NNN saves pc in `stack[sp]`, bumps sp and jumps, leaving the other stack slots and the rest of the state alone; a following 00EE restores sp and resumes at the call + 2 |
| Properties.ReturnPops | src/chip8.cpp:135-139 | 00EE decrements sp and resumes two bytes after the saved address, changing nothing else |
| Properties.LitReadsBit | src/chip8.cpp:269 | pixel b of row r is set exactly when bit 7 - b of the sprite byte at I + r is set |
| Properties.TargetCell | src/chip8.cpp:271-273 | a pixel left of the right edge lands in column x + b of row y + r; one past the edge does not wrap within its row but lands in the next row |
| Properties.HitIsTarget | src/chip8.cpp:264-276 | a cell is hit exactly when it is the target `x + b + (y + r) * 64` of a set sprite pixel |
| Properties.DrawFlips | src/chip8.cpp:257-280 | DXYN flips the low bit of exactly the hit cells, sets `drawFlag`, pc += 2, and of the registers changes only VF |
| Properties.DrawCollision | src/chip8.cpp:262-273 | after DXYN VF is 1 exactly when some hit cell held 1, and 0 otherwise |
| Properties.DrawKeepsBinary | src/chip8.cpp:273 | a buffer of zeros and ones stays so after a draw |
| Properties.DrawTwiceRestores | src/chip8.cpp:257-280 | drawing the same sprite twice, with X and Y not F, restores the video buffer |
| Properties.WaitKeyStalls | src/chip8.cpp:312-326 | FX0A with no key down changes nothing, pc included |
| Properties.WaitKeyTakesHighest | src/chip8.cpp:312-329 | FX0A with key k down and none higher stores k in Vx and advances |
| Properties.AddIndexFlag | src/chip8.cpp:341-345 | FX1E: VF is 1 exactly when I + Vx > 0xFFF; I becomes I + Vx mod 65536, adding the fresh flag when X = F |
| Properties.FontPointsAtGlyph | src/chip8.cpp:347-350 | FX29 sets I to 5·Vx for every Vx, up to 1275, changing only I and pc += 2; for Vx < 16 with the font loaded, the glyph of Vx sits there |
| Properties.BcdDigits | src/chip8.cpp:352-357 | FX33 writes three digits ≤ 9 with 100h + 10d + u = Vx at I..I+2 and no other byte |
| Properties.BcdExample | src/chip8.cpp:352-357 | 234 is stored as 2, 3, 4 |
| Properties.StoreRegsCopies | src/chip8.cpp:359-363 | FX55: memory[I + k] = Vk for k ≤ x, other bytes and the registers unchanged, I += x + 1 |
| Properties.LoadRegsCopies | src/chip8.cpp:365-369 | FX65: Vk = memory[I + k] for k ≤ x, higher registers unchanged, I += x + 1 |
| Properties.StoreThenLoad | src/chip8.cpp:359-369 | FX55, ANNN back to the block, FX65 gives back the stored registers |
| Properties.TimerRead | src/chip8.cpp:307-310 | FX07 copies the delay timer into Vx |
| Properties.TimerSet | src/chip8.cpp:331-339 | FX15 and FX18 set the delay and sound timers from Vx |
| Properties.ClearBlanks | src/chip8.cpp:129-133 | 00E0 zeroes every cell and sets `drawFlag` |
| Properties.UnknownStalls | src/main.cpp:141-143 | an unknown word leaves the machine unchanged, pc included |
| Properties.DecodeExamples | src/chip8.cpp:124-145 | 0x0001 and 0x8008 are unknown, 0x0000 and 0x0230 clear, 0x0DDE returns |
| Properties.FetchDecodes | src/chip8.cpp:79-80 | an instruction stored high byte first at pc is the one the cycle executes |
| Properties.CycleTicks | src/chip8.cpp:77-91 | after the instruction each timer drops by one unless zero; the cycle beeps exactly when the sound timer it ticks is 1 |
| Properties.StalledCycleTicks | src/chip8.cpp:77-91 | a cycle stalled on FX0A keeps pc and registers but still ticks both timers |
| Properties.OnlyLdSoundSetsSound | src/chip8.cpp:336-339 | no instruction other than FX18 changes the sound timer |
| Properties.BeepOnce | src/chip8.cpp:84-90 | FX18 with Vx = 1 beeps in its own cycle and leaves the timer at 0 |
| Properties.SilentAtZero | src/chip8.cpp:84-90 | with the sound timer at 0 a cycle not running FX18 does not beep |
| Properties.InitialState | src/main.cpp:87-102 | the constructed machine: font in 0..79, other bytes, video, registers, stack and keypad zero, pc 0x200, I and sp 0 |
| Properties.InitialGlyphs | src/chip8.h:64-81 | in the initial memory the glyph of digit d starts at 5·d |
| Properties.LoadRomPlaces | src/main.cpp:117 | ROM byte k lands at 0x200 + k; all other bytes, the font included, and the rest of the state are unchanged |
| Properties.SetKeysReplaces | src/main.cpp:422-425 | the keypad becomes the sixteen inputs, nothing else changes, and a second identical call changes nothing |
| Properties.PresentClears | src/chip8.cpp:95-114 | `draw()` clears `drawFlag` and changes nothing else; a second call changes nothing, a call with the flag clear changes nothing, and after DXYN it keeps the drawn buffer |
| Properties.RunSmallRom | src/chip8.cpp:77-91 | loading `60 05 70 03` into the constructed machine and running two cycles leaves 8 in V0 and pc at 0x204 |

## Left out

- SDL: window and renderer setup and teardown (src/chip8.cpp:25-48, 52-57), and the rendering part of `draw()` (src/chip8.cpp:98-113). These are foreign library calls whose only effect is on the screen. `draw()` itself does nothing when `drawFlag` is false. Otherwise it renders and then resets `drawFlag` (src/chip8.cpp:114; src/main.cpp:419). That reset is modelled, as `Semantics.Present` and `Interpreter.Chip8.Draw`; only the pixels drawn are left out.
- `main` and its event loop, key mapping and frame pacing (src/main.cpp:428-495). They drive the class from outside.
- The file I/O in `loadROM`: opening, sizing and reading the file, and the early return when it cannot be opened. The model takes the file's bytes as a `seq<Byte>` of integers 0 to 255 rather than bit-vectors; the same applies to the `char` to `uint8_t` conversion.
- Interpreter.Chip8.LoadRom: requires the ROM to fit above 0x200. The source has no size check, and a longer file would write past the array.
- The random engine: CXKK's random byte is a parameter of `Execute` and `EmulateCycle`.
- Console output. The unknown-opcode message on `cerr` is not modelled; the instruction changes nothing. The "BEEP!" on `cout` is the `beep` result of `EmulateCycle`.
- Interpreter.Chip8.constructor: the source never initialises the timers, so their starting values are constructor parameters.
- Interpreter.Chip8.constructor: the `src/main.cpp` copy never initialises `drawFlag`. The model sets it to false, as `src/chip8.cpp` does.
- Unchecked accesses. Out-of-bounds behaviour is undefined in C++ and is not modelled: the `Safe` and `DrawSafe` preconditions of `Execute` and `EmulateCycle` exclude it. This covers 00EE with sp 0 or above 16, 2NNN with sp 16 or above, EX9E/EXA1 with Vx ≥ 16, FX33/FX55/FX65 past memory, a sprite row or pixel past memory or the video buffer, and a fetch at pc ≥ 0xFFF.
- Properties.SubBorrow: says nothing about Vx when X or Y is F. That value is fixed by `Semantics.ArithStep`, and `Interpreter.Chip8.ExecuteArith` is proved to follow it.
- Properties.SubnBorrow: the same for 8XY7.

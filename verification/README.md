# Verified models of the course workbench

The workbench holds an instruction-lowering layer for a minimal RISC-V machine, a 64-bit runtime
library, a NES emulator, an FPGA board simulator and a small multiprocessor kernel. This project
models the parts of them whose correctness is not visible from reading one function, and proves it.
Each module models one source file or one part of it:

- **Minirv\*** — the lowering of RV32I to eight base instructions (add, addi, lui, lw, lbu, sw, sb,
  jalr) by assembler macros that work on bytes, lookup tables and stack slots below `sp`.
  `MinirvMachine` is the base machine, `MinirvTables` the table generator, `MinirvMacros` the macros
  as code over base instructions, `MinirvSource` the meaning of the lowered instructions (sections
  2.4, 2.5 and 2.6 of the RISC-V Unprivileged ISA), and `MinirvTheorem` the simulation over whole
  runs. `MinirvEncoding` shows that every expansion can be assembled, `MinirvOperands` what becomes of
  operands the macros accept but cannot handle, `MinirvDefined` which programs and steps the simulation
  speaks of, and `MinirvLink` that a memory layout as it assumes exists.
- **Int64** — unsigned and signed 64-bit division on two 32-bit halves, and counting of leading and
  trailing zeros by binary search.
- **PpuScroll, PpuDots, PpuSprites** — the picture unit of the NES: the packed scroll address of the
  old renderer against the five counters of the new one, the dot clock and the picture the scroll
  counters trace out, and the two sprite evaluators.
- **Sound, SoundMeaning, Filter, Playback** — square, triangle and noise channels that are rendered only when a
  register they read is about to change, the chunk-wise resampler and volume filter behind them, and
  both together, from register writes to what is played; `SoundMeaning` says what registers and ticks
  mean for the wave forms, the length of a note and its volume.
- **Handlers, Cart** — the nibble-packed table of memory handlers, and bank switching by page pointers.
- **Terminal, Keyboard, Uart** — the text terminal that redraws only dirty cells, the PS/2 keyboard,
  and the serial port of the board.
- **Scheduler** — the interrupt handler and the spin lock of the thread kernel.
- **Timers** — interrupt counters of three mapper boards.
- **Bits** — division, powers of two and bitwise operators on integers, which all of these use.

## How the models are built

Machine words are integers with the wrap-around written out; the bitwise operators are defined bit by
bit in `Bits`. State that the source changes in place is a class with the same fields (or an array),
loops are loops. A ghost field or a value beside such a class is the specification: the plain handler
table, the channels run cycle by cycle, the stream fed to the resampler, the receiver at the other end
of a line. `Valid` ties the two together and every method keeps it.

What runs outside a model enters as a parameter of which nothing is assumed: the CPU that changes
picture registers at any dot (`PpuDots.Loop.cpu`), the interleaving of processors, the sequence and
timing of register writes, the FIR coefficients, the addresses the linker gives to tables.

Results that say where the code does not do what its callers may expect:

- `seqz` is right exactly for destinations other than `s0` and `sp`, `sltz` for others than `sp`
  (`SeqzRightIff`, `SltzRightIff`); `lb` into `sp` ends in a misaligned access for most bytes (`LbIntoSp`).
- Signed division: exact for every pair but the smallest number divided by -1 (`DivideExactIff`).
- The handler table: an address nobody set a handler for reads as the function that was registered
  first, so it agrees with the plain table exactly for addresses that were set, or while nothing is
  registered (`Handlers.Table.Get`, `UnsetReads`).
- The two renderers take a $2007 access alike exactly if both count it as one while rendering or neither
  does (`Access2007`); the source's conditions for that differ on the line before the picture.
- `Term::backspace` with `is_input` set, a public branch that nothing in the repository calls (the
  backspace key goes over the serial line and comes back as a character), removes a line but leaves its
  row on the screen. While nothing is dirty the screen stays right exactly if the cursor is hidden and
  the line is blank behind it (`Backspace`); `StaleCursor` is the smallest run that leaves a second cursor.
- The serial port sends nothing from the first zero byte on (`Settle`).
- The scheduler's search finds a task exactly if the processor's number is below the number of tasks
  (`FindsIff`).

## Model

| member | source | states |
|---|---|---|
| MinirvTheorem.LoweringSimulates | ysyx-workbench/abstract-machine/tools/minirv/inst-replace.h:1-733 | for every program over the lowered instructions and every run of it, the expanded program reaches a state with the same pc, memory and registers (tp, gp, the slots below sp and the scratch array apart), without a misaligned, unmapped or out-of-RAM access |
| MinirvTheorem.SimMachineStep | ysyx-workbench/abstract-machine/tools/minirv/inst-replace.h:80-733 | one source step is matched by running the instructions of its expansion from the image, jumps included |
| MinirvTheorem.SimStep | ysyx-workbench/abstract-machine/tools/minirv/inst-replace.h:80-733 | executing an expansion does what the instruction does, for every instruction kind |
| MinirvTheorem.SimBranch | ysyx-workbench/abstract-machine/tools/minirv/inst-replace.h:277-382 | all six conditional branches, with their cases for a zero operand, continue at the target or behind the expansion as the comparison says |
| MinirvTheorem.SimCall | ysyx-workbench/abstract-machine/tools/minirv/inst-replace.h:92-108 | jal, j and tail land on the target and leave the return address behind the expansion |
| MinirvDefined.StepDefined | ysyx-workbench/abstract-machine/tools/minirv/inst-replace.h:80-733 | a source step exists exactly where every byte loaded has a value, every byte stored into may be, and a jump through a register meets the address of an instruction |
| MinirvDefined.JumpRegGoes | ysyx-workbench/abstract-machine/tools/minirv/inst-replace.h:92-95 | such a jump continues at the instruction that has the even target as its address |
| MinirvDefined.FindAddrExact | ysyx-workbench/abstract-machine/tools/minirv/inst-replace.h:92-95 | the first index with an address is found, and none exactly if no index has it |
| MinirvDefined.StepMemory | ysyx-workbench/abstract-machine/tools/minirv/inst-replace.h:80-733 | a step loses no byte but those below sp and changes none but those it stores into |
| MinirvDefined.RunDefined | ysyx-workbench/abstract-machine/tools/minirv/inst-replace.h:80-733 | a run goes on exactly as long as its instructions are defined |
| MinirvDefined.LegalExactly | ysyx-workbench/abstract-machine/tools/minirv/inst-replace.h:5-11 | an instruction is legal exactly if it leaves gp and tp alone, its immediate fits and its macro can handle its operands |
| MinirvLink.Link | ysyx-workbench/abstract-machine/tools/minirv/inst-replace.h:39-90 | with the generated tables in read-only memory and the scratch array in RAM, all that the macros assume of memory holds, for any aligned sp in the rest of RAM |
| MinirvOperands.SeqzIntoS0 | ysyx-workbench/abstract-machine/tools/minirv/inst-replace.h:255-273 | with s0 as destination seqz leaves the old s0, because s0 is restored last |
| MinirvOperands.SeqzIntoSp | ysyx-workbench/abstract-machine/tools/minirv/inst-replace.h:255-273 | with sp as destination and a zero operand the restore of s0 is misaligned |
| MinirvOperands.SeqzRightIff | ysyx-workbench/abstract-machine/tools/minirv/inst-replace.h:255-273 | seqz ends well, with the right result and no other register changed, for all operands exactly when its destination is neither s0 nor sp |
| MinirvOperands.SltzIntoSp | ysyx-workbench/abstract-machine/tools/minirv/inst-replace.h:117-126 | msb with sp as destination faults if the top byte is odd |
| MinirvOperands.SltzRightIff | ysyx-workbench/abstract-machine/tools/minirv/inst-replace.h:667-669 | sltz is right for all operands exactly when its destination is not sp |
| MinirvOperands.LbIntoSp | ysyx-workbench/abstract-machine/tools/minirv/inst-replace.h:570-576 | lb with sp as destination faults for every byte that is not a multiple of four |
| MinirvMachine.RunIsExec | ysyx-workbench/abstract-machine/tools/minirv/inst-replace.h:1-24 | stepping through straight-line code in the image by fetching at the pc is executing it as a unit |
| MinirvMachine.RunBlock | ysyx-workbench/abstract-machine/tools/minirv/inst-replace.h:92-108 | the same for code that ends in a jump |
| MinirvMacros.SizeFixed | ysyx-workbench/abstract-machine/tools/minirv/inst-replace.h:277-296 | the length of an expansion does not depend on the addresses put into it, so a layout exists |
| MinirvEncoding.ExpansionEncodes | ysyx-workbench/abstract-machine/tools/minirv/inst-replace.h:2-3 | every expansion consists of the eight base instructions with immediates that fit |
| MinirvTables.GenLut | ysyx-workbench/abstract-machine/tools/minirv/gen-lut.c:6-29 | the generated file has the six tables at the offsets the macros use, with the entry wanted at every row and column |
| MinirvTables.GenLogicTable | ysyx-workbench/abstract-machine/tools/minirv/gen-lut.c:10-21 | row j, column i of an appended logic table is the operator applied to j and i |
| MinirvTables.GenShiftTable | ysyx-workbench/abstract-machine/tools/minirv/gen-lut.c:10-24 | row j, column i of an appended shift table is byte i shifted by j, as four bytes |
| MinirvEffects.DoSub | ysyx-workbench/abstract-machine/tools/minirv/inst-replace.h:110-115 | complement, add and add one is subtraction modulo 2^32 |
| MinirvEffects.DoNot | ysyx-workbench/abstract-machine/tools/minirv/inst-replace.h:629-657 | four lookups in the last row of the xor table complement a word |
| MinirvEffects.DoMsb | ysyx-workbench/abstract-machine/tools/minirv/inst-replace.h:117-126 | doubling the top byte and taking byte 1 gives the sign bit |
| MinirvEffects.SltTables | ysyx-workbench/abstract-machine/tools/minirv/inst-replace.h:49-63 | the eight-entry tables decide signed and unsigned order from the signs of the operands and of their difference |
| MinirvEffects.DoSlt | ysyx-workbench/abstract-machine/tools/minirv/inst-replace.h:128-163 | slt and sltu set their destination by that table and restore s0 and s1, whatever registers the operands are |
| MinirvEffects.DoLogic | ysyx-workbench/abstract-machine/tools/minirv/inst-replace.h:165-210 | and, or, xor byte by byte through the tables are the operators on words |
| MinirvEffects.DoSameByte | ysyx-workbench/abstract-machine/tools/minirv/inst-replace.h:213-224 | marking one entry of the scratch array and clearing the other tells whether two bytes are equal |
| MinirvEffects.DoSetEqual | ysyx-workbench/abstract-machine/tools/minirv/inst-replace.h:226-247 | seq is equality of words |
| MinirvEffects.DoSetZero | ysyx-workbench/abstract-machine/tools/minirv/inst-replace.h:249-273 | seqz is equality with zero, unless its destination is s0 |
| MinirvShifts.ShiftLeftBytes | ysyx-workbench/abstract-machine/tools/minirv/inst-replace.h:412-429 | the sum of the four table words moved to their places is x shifted left by a |
| MinirvShifts.NoCarry | ysyx-workbench/abstract-machine/tools/minirv/inst-replace.h:463-499 | the byte sums of a right shift never carry, for all x and a |
| MinirvShifts.ShiftRightTop | ysyx-workbench/abstract-machine/tools/minirv/inst-replace.h:463-512 | the top word and the combined lower bytes add up to x shifted right, logically or arithmetically |
| MinirvShifts.TopDisjoint | ysyx-workbench/abstract-machine/tools/minirv/inst-replace.h:463-512 | the sign-filled word of the top byte has no bit in common with the combined lower bytes |
| MinirvShiftEffects.DoShiftLeft | ysyx-workbench/abstract-machine/tools/minirv/inst-replace.h:399-430 | sll shifts by its operand modulo 32 |
| MinirvShiftEffects.DoShiftRight | ysyx-workbench/abstract-machine/tools/minirv/inst-replace.h:432-523 | srl and sra shift by their operand modulo 32 |
| MinirvShiftEffects.DoShiftRightImm | ysyx-workbench/abstract-machine/tools/minirv/inst-replace.h:432-562 | srli and srai for every amount, the short form for 24 included |
| MinirvShiftEffects.DoSlli | ysyx-workbench/abstract-machine/tools/minirv/inst-replace.h:526-552 | slli for every amount, through a byte or halfword store or by doubling |
| MinirvSimulation.DoAlu | ysyx-workbench/abstract-machine/tools/minirv/inst-replace.h:110-210 | every register-register operation leaves its value and touches nothing else but tp, gp and the slots |
| MinirvSimulation.DoAluImm | ysyx-workbench/abstract-machine/tools/minirv/inst-replace.h:80-85 | every register-immediate operation through tp |
| MinirvSimulation.DoLb | ysyx-workbench/abstract-machine/tools/minirv/inst-replace.h:570-576 | lb sign-extends a byte |
| MinirvSimulation.DoLhu | ysyx-workbench/abstract-machine/tools/minirv/inst-replace.h:578-585 | lhu joins two bytes, at any alignment |
| MinirvSimulation.DoLh | ysyx-workbench/abstract-machine/tools/minirv/inst-replace.h:587-595 | lh sign-extends two bytes, at any alignment |
| MinirvSimulation.SimStoreHalf | ysyx-workbench/abstract-machine/tools/minirv/inst-replace.h:597-601 | sh stores two bytes and keeps the states related |
| MinirvSimulation.DoResolve | ysyx-workbench/abstract-machine/tools/minirv/inst-replace.h:277-296 | the flag in tp selects one of two addresses stored in adjacent slots |
| MinirvSimulation.DoSelect | ysyx-workbench/abstract-machine/tools/minirv/inst-replace.h:299-382 | a branch leaves in tp the target if it is taken and the address behind it otherwise |
| Int64.UDivMod | ysyx-workbench/abstract-machine/klib/src/int64.c:412-620 | for every dividend and every divisor but zero, quotient and remainder with n = q * d + r and r < d |
| Int64.DivLoop | ysyx-workbench/abstract-machine/klib/src/int64.c:597-619 | the loop started with r and q holding n above and below bit sr divides n by d |
| Int64.DivStep | ysyx-workbench/abstract-machine/klib/src/int64.c:598-615 | one turn brings in the next bit of n, takes d away exactly if it fits, and keeps r below d and the consumed prefix of n equal to quotient * d + r |
| Int64.SubtractIf | ysyx-workbench/abstract-machine/klib/src/int64.c:612-614 | the branchless compare and subtract is the one with a branch, in every state the loop can reach |
| Int64.WrappedTest | ysyx-workbench/abstract-machine/klib/src/int64.c:605-614 | in every state the loop can reach, the sign of the wrapped difference decides r >= d, also for divisors from 2^63 up |
| Int64.DivByHighWord | ysyx-workbench/abstract-machine/klib/src/int64.c:446-507 | divisors that are multiples of 2^32 |
| Int64.DivByLowWord | ysyx-workbench/abstract-machine/klib/src/int64.c:510-558 | divisors below 2^32, powers of two included |
| Int64.DivByBothWords | ysyx-workbench/abstract-machine/klib/src/int64.c:559-589 | divisors with both words |
| Int64.DivDi3 | ysyx-workbench/abstract-machine/klib/src/int64.c:355-365 | the quotient rounded towards zero, as a 64-bit pattern, for every pair with nonzero divisor |
| Int64.ModDi3 | ysyx-workbench/abstract-machine/klib/src/int64.c:379-390 | the remainder with the sign of the dividend |
| Int64.DivModDi4 | ysyx-workbench/abstract-machine/klib/src/int64.c:369-375 | both at once |
| Int64.TruncMeaning | ysyx-workbench/abstract-machine/klib/src/int64.c:353-390 | what rounding towards zero means: a = b * q + r, r smaller than b and of a's sign |
| Int64.DivideExactIff | ysyx-workbench/abstract-machine/klib/src/int64.c:355-365 | the signed quotient is represented for every pair but the smallest number by -1 |
| Int64.ClzSi2 | ysyx-workbench/abstract-machine/klib/src/int64.c:626-655 | 32 minus the position of the highest one, for every nonzero word |
| Int64.CtzSi2 | ysyx-workbench/abstract-machine/klib/src/int64.c:661-695 | the position of the lowest one, for every nonzero word |
| Int64.ClzDi2 | ysyx-workbench/abstract-machine/klib/src/int64.c:711-717 | the same for 64 bits, leading |
| Int64.CtzDi2 | ysyx-workbench/abstract-machine/klib/src/int64.c:703-709 | the same for 64 bits, trailing |
| PpuScroll.FieldWise | ysyx-workbench/fceux-am/src/ppu.cpp:848-958 | a bitwise operation on packed addresses acts on each field by itself |
| PpuScroll.UnpackPack | ysyx-workbench/fceux-am/src/ppu.cpp:142-162 | unpacking inverts packing, whatever lies above bit 15 |
| PpuScroll.PackUnpack | ysyx-workbench/fceux-am/src/ppu.cpp:142-162 | packing inverts unpacking on the low 15 bits |
| PpuScroll.Write2000 | ysyx-workbench/fceux-am/src/ppu.cpp:856-861 | the mask write of the packed address is the update of two counters |
| PpuScroll.Write2005X | ysyx-workbench/fceux-am/src/ppu.cpp:910-915 | the same for the first $2005 write |
| PpuScroll.Write2005Y | ysyx-workbench/fceux-am/src/ppu.cpp:916-922 | the same for the second $2005 write |
| PpuScroll.Write2006High | ysyx-workbench/fceux-am/src/ppu.cpp:932-940 | the same for the first $2006 write, whose byte boundary lies inside the row field |
| PpuScroll.Write2006Low | ysyx-workbench/fceux-am/src/ppu.cpp:941-954 | the same for the second $2006 write |
| PpuScroll.DownOne | ysyx-workbench/fceux-am/src/ppu.cpp:1195-1211 | the masked increment of the packed address is one line down in the counters |
| PpuScroll.NextLineIsNext | ysyx-workbench/fceux-am/src/ppu.cpp:201-212 | inside the picture area one line down is the next of 480 lines, cyclically |
| PpuScroll.ClockChain | ysyx-workbench/fceux-am/src/ppu.cpp:248-271 | the daisy-chained counters are a 15-bit addition of 1 or 32 |
| PpuScroll.Ppu.constructor | ysyx-workbench/fceux-am/src/ppu.cpp:164-171 | from zero both renderers agree |
| PpuScroll.Ppu.IncrementHsc | ysyx-workbench/fceux-am/src/ppu.cpp:191-199 | one tile to the right round 64 columns |
| PpuScroll.Ppu.IncrementVs | ysyx-workbench/fceux-am/src/ppu.cpp:201-212 | one line down, as the other renderer does it |
| PpuScroll.Ppu.Increment2007 | ysyx-workbench/fceux-am/src/ppu.cpp:237-272 | the step of the counters at a $2007 access |
| PpuScroll.Ppu.OldIncrement2007 | ysyx-workbench/fceux-am/src/ppu.cpp:821-842 | the step of the packed address at a $2007 access has the same effect |
| PpuScroll.RenderingMatters | ysyx-workbench/fceux-am/src/ppu.cpp:237-272 | from every position an access while rendering leads elsewhere than one that is not |
| PpuScroll.Ppu.Access2007 | ysyx-workbench/fceux-am/src/ppu.cpp:821-842 | after an access the renderers agree exactly if both took it as one while rendering or neither did |
| PpuScroll.Ppu.Fixit1 | ysyx-workbench/fceux-am/src/ppu.cpp:1195-1211 | one line down if rendering is on |
| PpuScroll.Ppu.Fixit2 | ysyx-workbench/fceux-am/src/ppu.cpp:1186-1193 | column and horizontal nametable reloaded from the temporary address |
| PpuScroll.Ppu.B2000 | ysyx-workbench/fceux-am/src/ppu.cpp:848-862 | keeps the renderers in agreement and sets the latched nametable |
| PpuScroll.Ppu.B2005 | ysyx-workbench/fceux-am/src/ppu.cpp:906-925 | keeps the renderers in agreement and sets fine and coarse scroll in turn |
| PpuScroll.Ppu.B2006 | ysyx-workbench/fceux-am/src/ppu.cpp:928-958 | keeps the renderers in agreement; two writes set a 14-bit address that becomes current |
| PpuScroll.Ppu.Handle | ysyx-workbench/fceux-am/src/ppu.cpp:142-272 | after each event the renderers agree, at the position that the event leads to from the one before |
| PpuScroll.Ppu.HandleAll | ysyx-workbench/fceux-am/src/ppu.cpp:142-272 | over any sequence of register writes, accesses and line events the two renderers agree, at the position the events lead to one after the other |
| PpuScroll.Ppu.StartFrame | ysyx-workbench/fceux-am/src/ppu.cpp:1709-1711 | before the first line both take over the temporary address, if rendering is on |
| PpuScroll.AddressSet | ysyx-workbench/fceux-am/src/ppu.cpp:928-958 | two writes to $2006 set the 14-bit address of their bytes, whatever it was |
| PpuScroll.ScrollSet | ysyx-workbench/fceux-am/src/ppu.cpp:906-925 | two writes to $2005 set the scroll in pixels and keep the nametable |
| PpuDots.Loop.Read | ysyx-workbench/fceux-am/src/ppu.cpp:1894-1945 | a tile fetch takes eight dots; the counters go down in it exactly if it covers dot 251 and rendering is on there |
| PpuDots.Loop.FetchSprites | ysyx-workbench/fceux-am/src/ppu.cpp:2219-2326 | the sprite fetches take 64 dots whatever is on the line and whatever the limit, with at most one reload of the counters, at its place |
| PpuDots.Loop.IdleDots | ysyx-workbench/fceux-am/src/ppu.cpp:2334-2356 | the rest of the line, with the dot that is dropped |
| PpuDots.Loop.ScanLine | ysyx-workbench/fceux-am/src/ppu.cpp:2041-2357 | for every behaviour of the CPU a line runs from dot 0 to dot 0 in 341 dots, 340 where the idle dot is skipped; the counters go down once, at dot 251, exactly if rendering is on there |
| PpuDots.Loop.Frame | ysyx-workbench/fceux-am/src/ppu.cpp:1991-2366 | the dots of a frame; and if the scroll is left alone, every background pixel of the picture comes from the point that the latched position gives it |
| PpuDots.Loop.TwoFrames | ysyx-workbench/fceux-am/src/ppu.cpp:2341-2356 | two rendered frames in a row are one dot short of twice 262 lines |
| PpuDots.Loop.DeadFrame | ysyx-workbench/fceux-am/src/ppu.cpp:1973-1989 | a frame before the unit is alive keeps the clock at the start of a line |
| PpuDots.WindowOf | ysyx-workbench/fceux-am/src/ppu.cpp:2092-2117 | that picture is a 256 by 240 window of the 512 by 480 pixels of the nametables, wrapping round |
| PpuDots.DownLines | ysyx-workbench/fceux-am/src/ppu.cpp:201-212 | k lines further down is k further in the 480 lines, with the column kept |
| PpuDots.TilePixel | ysyx-workbench/fceux-am/src/ppu.cpp:2092-2117 | tile and pixel inside the tile, taken after adding the fine offset, are the scrolled point |
| PpuSprites.FoundExactly | ysyx-workbench/fceux-am/src/ppu.cpp:1336-1338 | the list of sprites on a line has each of them once, in order, and nothing else |
| PpuSprites.OldAddressIs | ysyx-workbench/fceux-am/src/ppu.cpp:1329-1360 | the old evaluator's address sums give the row of the pattern, in both sizes, flipped or not |
| PpuSprites.NewAddressIs | ysyx-workbench/fceux-am/src/ppu.cpp:2231-2257 | so do the new evaluator's |
| PpuSprites.FetchSpriteData | ysyx-workbench/fceux-am/src/ppu.cpp:1318-1388 | the old evaluator fetches the first eight (or all) sprites on the line in order, and sets overflow exactly if there are more than eight |
| PpuSprites.FindSprites | ysyx-workbench/fceux-am/src/ppu.cpp:2175-2202 | the new evaluator copies the same sprites; with rendering off it neither stops at eight nor sets overflow |
| PpuSprites.FetchSlots | ysyx-workbench/fceux-am/src/ppu.cpp:2219-2326 | and fetches the row of each |
| PpuSprites.Both | ysyx-workbench/fceux-am/src/ppu.cpp:2175-2326 | for every sprite table and line, with rendering on, both evaluators fetch the same and set overflow alike |
| Sound.StretchesJoin | ysyx-workbench/fceux-am/src/sound.cpp:571-628 | rendering a channel in two stretches under the same registers is rendering it in one |
| Sound.OthersUnheard | ysyx-workbench/fceux-am/src/sound.cpp:195-280 | a register write leaves what every other channel reads, and its oscillator, alone |
| Sound.EagerPassIs | ysyx-workbench/fceux-am/src/sound.cpp:571-987 | cycle by cycle the four channels run independently of one another |
| Sound.RenderSquare | ysyx-workbench/fceux-am/src/sound.cpp:602-627 | the loop adds the channel's output of every cycle to the buffer and leaves the oscillator where single cycles would |
| Sound.RenderTriangle | ysyx-workbench/fceux-am/src/sound.cpp:738-778 | the same for the triangle, halted or not |
| Sound.RenderNoise | ysyx-workbench/fceux-am/src/sound.cpp:924-987 | the same for the noise, in both shift modes |
| Sound.Apu.CatchUp | ysyx-workbench/fceux-am/src/sound.cpp:571-778 | a channel that is brought up to now is where its twin is that runs every cycle |
| Sound.Apu.WritePsg | ysyx-workbench/fceux-am/src/sound.cpp:195-280 | register writes keep every channel a catch-up away from its twin |
| Sound.Apu.StatusWrite | ysyx-workbench/fceux-am/src/sound.cpp:323-348 | so do status writes, which silence exactly the channels whose bit is clear |
| Sound.Apu.FrameSoundUpdate | ysyx-workbench/fceux-am/src/sound.cpp:370-475 | so do the ticks of the frame sequencer; and each length counter, the linear counter, both sweeps and the three envelopes take the step the halt bits, the tick and their settings ask for |
| Sound.Apu.WriteIrqFm | ysyx-workbench/fceux-am/src/sound.cpp:989-1000 | so does the write that restarts the sequencer |
| SoundMeaning.LengthRunsOut | ysyx-workbench/fceux-am/src/sound.cpp:382-395 | a length counter loaded with L and not halted is at 0 after exactly L even ticks |
| SoundMeaning.HeardFor | ysyx-workbench/fceux-am/src/sound.cpp:382-395 | so a note is heard for no more even ticks than it was loaded with, the noise for exactly as many |
| SoundMeaning.LinearRunsOut | ysyx-workbench/fceux-am/src/sound.cpp:426-432 | the linear counter runs for as many ticks as it was loaded with |
| SoundMeaning.EnvelopeFades | ysyx-workbench/fceux-am/src/sound.cpp:434-455 | a restarted envelope falls from 15 by one every speed + 1 ticks, to 0 or round again |
| SoundMeaning.StepAt | ysyx-workbench/fceux-am/src/sound.cpp:570-628 | the step a square or triangle wave is at after any number of cycles |
| SoundMeaning.SquareIs | ysyx-workbench/fceux-am/src/sound.cpp:570-628 | a square channel is at its amplitude for the first eighth, quarter, half or three quarters of every eight steps |
| SoundMeaning.SweepSilences | ysyx-workbench/fceux-am/src/sound.cpp:170-180 | the sweep silences a channel exactly if it would take the period past eleven bits |
| SoundMeaning.TriangleIs | ysyx-workbench/fceux-am/src/sound.cpp:738-778 | the levels of the triangle fall and rise in 32 steps |
| SoundMeaning.NoiseIs | ysyx-workbench/fceux-am/src/sound.cpp:955-985 | the noise register is a 15-bit shift register with the stated feedback |
| SoundMeaning.VolumeIs | ysyx-workbench/fceux-am/src/sound.cpp:588-598 | the volume is the constant volume or the envelope, scaled in 256ths |
| SoundMeaning.FrequencyWritten | ysyx-workbench/fceux-am/src/sound.cpp:182-279 | the two frequency registers make up the 11-bit period |
| SoundMeaning.LengthWritten | ysyx-workbench/fceux-am/src/sound.cpp:182-279 | the last register of a channel loads its length, if the channel is enabled, and restarts its envelope |
| SoundMeaning.EnvelopeWritten | ysyx-workbench/fceux-am/src/sound.cpp:195-279 | the first register of a channel sets its envelope and nothing else |
| SoundMeaning.MixGrows | ysyx-workbench/fceux-am/src/sound.cpp:1036-1044 | fields are mixed separately, and a louder one never to less |
| Sound.NoCarry | ysyx-workbench/fceux-am/src/sound.cpp:1036-1044 | sums of samples never carry between the packed fields and stay inside both mixing tables |
| Sound.Apu.Flush | ysyx-workbench/fceux-am/src/sound.cpp:1013-1053 | the samples handed on are the mix of what the twins put out, and the kept ones move to the front |
| Sound.Apu.Run | ysyx-workbench/fceux-am/src/sound.cpp:195-1053 | over any timed sequence of writes, ticks and hand-overs, lazy rendering gives the samples of rendering every cycle |
| Filter.Resampler.constructor | ysyx-workbench/fceux-am/src/filter.cpp:165-186 | the first output is taken one sample after a full window |
| Filter.Resampler.Sums | ysyx-workbench/fceux-am/src/filter.cpp:108-118 | the inner loop is the sum of products over the windows at two neighbouring positions, all inside the buffer |
| Filter.Resampler.Outputs | ysyx-workbench/fceux-am/src/filter.cpp:105-140 | output n is the sample at start + n * ratio of the whole stream, for every position the chunk reaches |
| Filter.Resampler.NeoFilterSound | ysyx-workbench/fceux-am/src/filter.cpp:93-163 | after any chunk, all that has come out is the whole stream resampled and filtered, and the kept samples and the position are what the next chunk needs |
| Filter.ResampledOnce | ysyx-workbench/fceux-am/src/filter.cpp:93-145 | a stream has only one resampling |
| Filter.ChunksDoNotMatter | ysyx-workbench/fceux-am/src/filter.cpp:93-163 | two ways of cutting a stream into chunks give the same output and the same state |
| Filter.TapInStretch | ysyx-workbench/fceux-am/src/filter.cpp:108-122 | a sample depends on its window only, wherever the buffer begins in the stream |
| Filter.TapWhole | ysyx-workbench/fceux-am/src/filter.cpp:105-140 | at a whole position the sample is the window sum there, in units of 2048 |
| Filter.TapBetween | ysyx-workbench/fceux-am/src/filter.cpp:119-137 | between two it is as far on the way from one sum to the other as the position, and never outside them |
| Filter.BlendGrows | ysyx-workbench/fceux-am/src/filter.cpp:119-137 | a later position is nearer to the later sum |
| Filter.TapOfConstant | ysyx-workbench/fceux-am/src/filter.cpp:105-140 | a constant stream gives its gain at every position |
| Filter.FirOfImpulse | ysyx-workbench/fceux-am/src/filter.cpp:108-118 | an impulse comes out as the coefficients in order |
| Filter.FilteredTogether | ysyx-workbench/fceux-am/src/filter.cpp:48-84 | filtering two chunks with the state carried over is filtering them together |
| Filter.VolumeFollows | ysyx-workbench/fceux-am/src/filter.cpp:61-67 | the two followers close their part of the distance to the input, and to what the first has left of it, without overshooting |
| Filter.VolumeOutIs | ysyx-workbench/fceux-am/src/filter.cpp:68-74 | what comes out is the part neither has followed, inverted and held inside 16 bits |
| Filter.SteadyIsSilent | ysyx-workbench/fceux-am/src/filter.cpp:61-76 | an input both have caught up with is silent |
| Filter.VolumeFilter | ysyx-workbench/fceux-am/src/filter.cpp:48-84 | the loop in place is that filter |
| Playback.Player.Flush | ysyx-workbench/fceux-am/src/sound.cpp:1013-1053 | mixing, resampling and moving the kept samples to the front leave the buffer as the next hand-over needs it |
| Playback.Player.Run | ysyx-workbench/fceux-am/src/sound.cpp:195-1053 | over any timed sequence of writes, ticks and hand-overs the resampler has been fed exactly the mix of what the twins put out up to the last hand-over |
| Playback.Play | ysyx-workbench/fceux-am/src/sound.cpp:195-1053 | what is played from power-up on is the filtered resampling of the mix of the channels run cycle by cycle, whatever the hand-overs |
| Terminal.Term.constructor | ysyx-workbench/nvboard/src/term.cpp:4-19 | a new terminal shows its empty line and the cursor |
| Terminal.Term.FeedCh | ysyx-workbench/nvboard/src/term.cpp:59-117 | a printing character is at the old cursor and no other old cell has changed, a backspace blanks the cell it steps onto, a line feed adds an empty line; the cursor stays inside the window and its line, and what is not dirty still shows the text |
| Terminal.TextTyped | ysyx-workbench/nvboard/src/term.cpp:106-121 | characters that fit into the line appear there one after the other and change nothing else |
| Terminal.Term.Clear | ysyx-workbench/nvboard/src/term.cpp:47-57 | one empty line and a blank screen |
| Terminal.Term.UpdateGui | ysyx-workbench/nvboard/src/term.cpp:142-166 | which cells are redrawn; afterwards only the cursor's cell may differ from a full redraw |
| Terminal.Term.Backspace | ysyx-workbench/nvboard/src/term.cpp:86-104 | a backspace character takes back a character and keeps the screen right; with is_input set it joins lines, and the screen stays right exactly if the removed row looked blank, which while nothing is dirty the cursor and the line tell |
| Terminal.Term.Run | ysyx-workbench/nvboard/src/term.cpp:47-166 | over any sequence of characters, clears, redraws and cursor changes the text is what the characters make and the screen shows it |
| Handlers.PutNibbleIs | ysyx-workbench/fceux-am/src/fceu.cpp:191-204 | a nibble write sets its nibble and never disturbs the neighbour's |
| Handlers.Table.Register | ysyx-workbench/fceux-am/src/fceu.cpp:159-167 | the list stays a duplicate-free prefix; registration fails exactly if sixteen others are in it |
| Handlers.Table.SetIdx | ysyx-workbench/fceux-am/src/fceu.cpp:191-204 | the index of one address changes and no other |
| Handlers.Table.Get | ysyx-workbench/fceux-am/src/fceu.cpp:179-213 | the function set last for the address; where none was set, the one registered first |
| Handlers.UnsetReads | ysyx-workbench/fceux-am/src/fceu.cpp:179-239 | an address nobody has set reads as the function set for another |
| Handlers.Table.Set | ysyx-workbench/fceux-am/src/fceu.cpp:215-239 | the packed table goes on standing for the plain one, of which the same range is set |
| Handlers.Table.Run | ysyx-workbench/fceux-am/src/fceu.cpp:158-273 | in a run with at most sixteen different functions every registration succeeds, and the table refines the plain one |
| Scheduler.SearchStep | ysyx-workbench/am-kernels/kernels/thread-os/thread-os.c:48-50 | each step round the ring arrives at the task the search is heading for or comes nearer to it |
| Scheduler.FindsIff | ysyx-workbench/am-kernels/kernels/thread-os/thread-os.c:48-50 | there is a task to find exactly if the processor's number is below the number of tasks |
| Scheduler.RoundRobin | ysyx-workbench/am-kernels/kernels/thread-os/thread-os.c:48-50 | the next task is the next one of the residue class, and after the last the first |
| Scheduler.Kernel.constructor | ysyx-workbench/am-kernels/kernels/thread-os/thread-os.c:60-69 | the tasks form a ring and no processor has one |
| Scheduler.Kernel.OnInterrupt | ysyx-workbench/am-kernels/kernels/thread-os/thread-os.c:45-53 | the loop ends; the interrupted task's context is saved, the processor's next task is resumed with its saved one, and nothing else changes |
| Scheduler.StepSafe | ysyx-workbench/am-kernels/kernels/thread-os/thread-os.c:22-53 | every step of every processor keeps the safety of the system |
| Scheduler.OthersUntouched | ysyx-workbench/am-kernels/kernels/thread-os/thread-os.c:22-53 | a step leaves the other processors and every task not running on this one alone |
| Scheduler.InterruptSaves | ysyx-workbench/am-kernels/kernels/thread-os/thread-os.c:45-48 | an interrupt saves the running task as it is and starts a search from it |
| Scheduler.LockHandedOver | ysyx-workbench/am-kernels/kernels/thread-os/thread-os.c:17-24 | a task that finds the lock free takes it, one that does not changes nothing, and unlocking frees it |
| Scheduler.RunSafe | ysyx-workbench/am-kernels/kernels/thread-os/thread-os.c:22-69 | in all interleavings no two processors run the same task, a task is resumed in its latest state, and at most one is between lock and unlock |
| Scheduler.SearchProgress | ysyx-workbench/am-kernels/kernels/thread-os/thread-os.c:45-53 | a search ends although other processors step in between, with the task it was heading for and that task's latest context |
| Scheduler.StepDue | ysyx-workbench/am-kernels/kernels/thread-os/thread-os.c:45-53 | every step of every processor keeps the task a processor takes next, except the one that ends its search with that task |
| Scheduler.DispatchedInTurn | ysyx-workbench/am-kernels/kernels/thread-os/thread-os.c:22-69 | in all interleavings the tasks a processor takes are the successive turns from the one that was due |
| Scheduler.DispatchedRound | ysyx-workbench/am-kernels/kernels/thread-os/thread-os.c:22-69 | so the k-th of them is the k-th further on in its residue class, cyclically |
| Scheduler.DispatchedInRound | ysyx-workbench/am-kernels/kernels/thread-os/thread-os.c:22-69 | and among any round of them is each task of the class |
| Scheduler.SearchesEnd | ysyx-workbench/am-kernels/kernels/thread-os/thread-os.c:45-53 | in all interleavings a processor takes a task at least once in every n of its search steps |
| Scheduler.NoStarvation | ysyx-workbench/am-kernels/kernels/thread-os/thread-os.c:22-69 | no task starves: in every run in which its processor makes n search steps for each task of the class, it takes each of them |
| Cart.WholeBank | ysyx-workbench/fceux-am/src/cart.cpp:138-200 | masking the bank number is modular addressing for a window that divides the chip |
| Cart.SmallBank | ysyx-workbench/fceux-am/src/cart.cpp:156-200 | page-wise masking is modular addressing for a window larger than the chip |
| Cart.PrgMap.SetPagePtr | ysyx-workbench/fceux-am/src/cart.cpp:64-78 | the pages of the window get the pointer and its flag, the others keep theirs |
| Cart.PrgMap.SetPrg | ysyx-workbench/fceux-am/src/cart.cpp:138-204 | after a set call every page of the window shows, at every address, the byte (bank * window + offset) mod size |
| Cart.PrgMap.SetAll | ysyx-workbench/fceux-am/src/cart.cpp:64-204 | after any run of set calls each page shows the window that covered it last |
| Cart.PrgMap.Read | ysyx-workbench/fceux-am/src/cart.cpp:121-136 | a read gives that byte, or the data bus where the chip is missing |
| Cart.PrgMap.Write | ysyx-workbench/fceux-am/src/cart.cpp:125-129 | a write changes that byte of a writable chip and nothing else |
| Cart.ChrMap.SetChr | ysyx-workbench/fceux-am/src/cart.cpp:206-252 | the same for character windows; the writable bits match the chip mapped last, and a missing chip changes nothing |
| Cart.ChrMap.Read | ysyx-workbench/fceux-am/src/cart.cpp:206-252 | pattern reads give the byte of modular addressing |
| Keyboard.ParityIsOdd | ysyx-workbench/nvboard/include/keyboard.h:15-17 | the folding macros give the parity of the number of ones |
| Keyboard.FrameReceived | ysyx-workbench/nvboard/src/keyboard.cpp:49-71 | the eleven bits of a byte are received as that byte, with odd parity |
| Keyboard.Device.PushKey | ysyx-workbench/nvboard/src/keyboard.cpp:21-30 | a key event queues its make or break codes |
| Keyboard.Device.Update | ysyx-workbench/nvboard/src/keyboard.cpp:39-72 | a code is on the lines for exactly 242 updates and then received; no assertion fails |
| Keyboard.Device.Run | ysyx-workbench/nvboard/src/keyboard.cpp:21-72 | for any interleaving of key events and updates the receiver has the first of the queued codes, in order and without an error |
| Keyboard.Device.Drain | ysyx-workbench/nvboard/src/keyboard.cpp:39-72 | 242 updates a code deliver all of them |
| Uart.AllArrived | ysyx-workbench/nvboard/src/uart.cpp:49-51 | eight shifts in from the top restore what eight shifts out to the bottom sent |
| Uart.Loopback.Tick | ysyx-workbench/nvboard/src/uart.cpp:40-80 | what was given is what was delivered, what is on the wire and what is queued, in order; a character takes ten ticks and the next follows at once |
| Uart.Loopback.GetChar | ysyx-workbench/nvboard/src/uart.cpp:82-85 | a character is queued behind the others and delays none of them |
| Uart.Loopback.Update | ysyx-workbench/nvboard/src/nvboard.cpp:27-32 | a tick when the divisor counter is at zero, nothing else changed otherwise; each update brings every delivery exactly one update nearer |
| Uart.Loopback.Run | ysyx-workbench/nvboard/src/nvboard.cpp:20-32 | with characters given at any times between updates, all arrive in order, and each set of them given before is delivered exactly when ten divisor ticks a character have gone by |
| Uart.Loopback.Settle | ysyx-workbench/nvboard/src/uart.cpp:40-85 | everything given arrives exactly if it has no zero byte, in ten ticks a character |
| Timers.StretchesAdd | ysyx-workbench/fceux-am/src/boards/252.cpp:86-101 | line counts of two stretches add up |
| Timers.Board252.Irq | ysyx-workbench/fceux-am/src/boards/252.cpp:86-101 | every cycle counts for exactly three dots, and interrupts come every 256 - latch lines |
| Timers.Board252.IrqTwice | ysyx-workbench/fceux-am/src/boards/252.cpp:86-101 | a batch of cycles split in two counts like the whole |
| Timers.Board252.FromStart | ysyx-workbench/fceux-am/src/boards/252.cpp:73-101 | from a restart on there is an interrupt at the end of every (256 - latch)th line |
| Timers.Board90.ClockCounter | ysyx-workbench/fceux-am/src/boards/90.cpp:329-367 | prescaler and counter step as one number, and an interrupt is requested exactly where it wraps |
| Timers.Board90.CpuWrap | ysyx-workbench/fceux-am/src/boards/90.cpp:369-373 | a batch of cycles is that many steps |
| Timers.CountsUp | ysyx-workbench/fceux-am/src/boards/90.cpp:329-373 | counting up, steps are an addition modulo the size of the counter and interrupts its carries |
| Timers.CountsDown | ysyx-workbench/fceux-am/src/boards/90.cpp:329-373 | the same counting down |
| Timers.BatchesAdd | ysyx-workbench/fceux-am/src/boards/90.cpp:369-373 | two batches are one |
| Timers.Board116.HBlank | ysyx-workbench/fceux-am/src/boards/116.cpp:264-277 | one line brings the counter one nearer to zero, with or without a pending reload |
| Timers.Board116.Lines | ysyx-workbench/fceux-am/src/boards/116.cpp:264-277 | with a constant latch the counter is at zero, and an interrupt requested, every latch + 1 lines |

## Left out

- Lowering: code lies in memory of its own, so programs that write to their own instructions are not modelled; a program whose behaviour is not defined (a load of a byte without a value, a jump to no instruction) has no run.
- Lowering: pseudo-instructions that only rename another macro (neg, snez, sgt, beqz and the like) are covered by the macro they name; auipc, fences and system instructions are not lowered by the source.
- MinirvEffects.DoMsb: not for sp as destination, which the macro cannot handle (`MinirvOperands.SltzRightIff`).
- MinirvEffects.DoSetZero: not for sp as destination (`MinirvOperands.SeqzRightIff`).
- MinirvSimulation.DoLb: not for sp as destination (`MinirvOperands.LbIntoSp`).
- Lowering: assembler symbol arithmetic is represented by the values of the symbols.
- Division: division by zero, which the source leaves to the hardware, and the fallbacks for compilers without bit-count builtins.
- Picture scroll: both address representations are kept up to date at once; the emulator steps only the one of the renderer in use.
- PpuScroll.Ppu.HandleAll: an access counts as rendering in both renderers or in neither; which lines each of them counts is left to the event (`ppu.cpp:822` leaves out the line before the picture, the new renderer does not), and `Access2007` says what follows if they differ.
- Picture pixels: sprite pixels, colours, left-column clipping and emphasis; the picture is the background point behind each pixel.
- PpuDots.Loop.Frame: the picture is claimed for frames in which the CPU leaves the scroll alone after vertical blanking; the dot counts are claimed for every CPU.
- Sprites: the address hooks of mapper boards, the fetches for empty slots and sprite patterns themselves.
- Old renderer: the tile loop of `pputile.inc` and the `OldLine` record it fills; `pputile.inc` is not part of this model.
- Sound.Apu.Flush: the addend of the sample channel (DMC) in the mix is left out, because it is rendered for a time before the present one by a clock outside the modelled code; `NoCarry` leaves room for it.
- Sound.Apu.Run: the same.
- Playback.Player.Run: the same.
- Playback.Play: the same; and the sums of the resampler are exact integers.
- Sound: the DMC channel, the low-quality path, expansion chips and the interrupt flags of the frame sequencer; the sequencer's ticks come at arbitrary times.
- Sample buffer: the samples between two hand-overs have to fit into the buffer, and there have to be enough of them to keep.
- Filter.Resampler.Sums: sums are exact integers, where the source adds in 32 bits and asks its callers for inputs that do not overflow.
- Filter.Resampler.Outputs: the same.
- Filter.Resampler.NeoFilterSound: sums are exact integers, so overflow of the 32-bit accumulators is not modelled; chunks of at most 40000 samples and at least a window; the optional low-pass stage is left out.
- Text window: textures, pixels and timing of the window system; the screen is an array of cells.
- Characters: bytes from 128 up, on which the original stops.
- Handler calls: calling a handler; read and write tables are the same code, modelled once.
- Thread kernel: creation of kernel contexts and stacks, and printing inside the critical section.
- Cartridge: windows of 4K over smaller chips, for which the source has no case; nametable mirroring and the game genie's page table.
- Pattern memory: writes to pattern memory.
- Keys: the drawing of keys; the scan code tables are parameters.
- Serial port: the divisor is constant; what the terminal does with a delivered character is in Terminal.
- Mapper boards: the modes of board 90 that count picture fetches and writes use the same step; bank registers of the three boards.

# LC-3 emulator core in Dafny

This project models the core of a small LC-3 virtual machine written in C and proves properties of that model. The LC-3 is the 16-bit teaching machine of Patt and Patel, *Introduction to Computing Systems*, Appendix A. The C program has two source files and the header `lc3.h`:

- `lc3.c`: the helpers (`swap16`, `sign_extend`, `update_flags`), memory access (`mem_read`, `mem_write`), the thirteen instruction handlers `op_*`, the trap routines `trap_puts`, `trap_putsp` and `trap_in`, and the image loader `read_image_file`.
- `main.c`: the fetch / increment / decode / dispatch loop, the inline GETC, OUT and HALT traps, and the loop that loads the image files.
- `lc3.h`: the constants: register indices, condition flags, opcodes, trap vectors, the KBSR and KBDR addresses, PC_START and the memory size.

The machine is an immutable record:

- `State.Machine` holds:
  - R0..R7, PC and COND;
  - 65536 words of memory;
  - the `running` flag;
  - the console input still to come;
  - the console output so far.
- Every handler, trap routine and loop step is a pure function from machine to machine.
- The keyboard is an input timeline. Each entry is `Some(byte)` or `None`:
  - a read of KBSR (0xFE00) polls one entry;
  - `getchar` skips `None` entries, because it blocks, and returns EOF once the timeline runs out.
- Console output is a byte sequence that only grows.
- The main loop is `Cpu.Run`, which takes fuel because a program may never halt.

Modules, leaves first:

- `Words`: 16-bit words, bytes, byte swap, sign extension.
- `Lc3`: constants, opcodes, trap vectors, instruction fields.
- `Memory`: `mem_read` and `mem_write`.
- `State`: machine, flags, machine-level loads, initial registers.
- `Ops`: the `op_*` handlers.
- `Traps`: the trap routines.
- `Cpu`: TRAP dispatch, `Execute`, `Step`, `Run`, and the run lemmas.
- `Loader`: `read_image_file` and the loading loop.
- `Scenarios`: worked examples, including a whole program.

Two behaviours of the code are worth stating up front:

- Loading fails only when a file cannot be opened (`main.c:43-47`). A short file loads whatever whole words it has.
- An unknown trap vector saves R7 and does nothing else (`main.c:110-136`). `Cpu.TrapSavesReturnAddress` states that.

## Model

| member | source | states |
|---|---|---|
| Words.Swap16 | lc3.c:52-55 | the result's high byte is the argument's low byte and vice versa |
| Words.Swap16Involution | lc3.c:52-55 | swapping twice gives back every word |
| Words.Swap16Injective | lc3.c:52-55 | two words swap to the same word only if they are equal |
| Words.SignedSign | lc3.c:115-120 | a word is negative as two's complement exactly when bit 15 is set, and zero exactly when it is the zero word |
| Words.CharToWord | lc3.c:106 | a byte stored through a signed char becomes a word whose low byte is the byte and whose high byte is 0x00 or 0xFF according to its top bit |
| Words.SignExtendBitwise | lc3.c:164-170 | sign_extend at each field width n (5, 6, 9, 11) keeps the low n bits (the field); for a field with nothing above it, bits n-1..15 of the result all copy the sign bit |
| Words.SignExtendBits5 | lc3.c:164-170 | for a 5-bit field: unchanged when bit 4 is clear, otherwise bits 5..15 are set (adds 0xFFE0) |
| Words.SignExtendBits6 | lc3.c:164-170 | the same for a 6-bit field (adds 0xFFC0 when bit 5 is set) |
| Words.SignExtendBits9 | lc3.c:164-170 | the same for a 9-bit field (adds 0xFE00 when bit 8 is set) |
| Words.SignExtendBits11 | lc3.c:164-170 | the same for an 11-bit field (adds 0xF800 when bit 10 is set) |
| Words.SignExtendValue | lc3.c:164-170 | read as a signed word, sign_extend of an n-bit field is the field's two's-complement value: the field, or the field minus 2^n when its top bit is set |
| Lc3.OpcodeOf | main.c:67 | the decoded opcode is the one whose number is instr >> 12 |
| Lc3.OpcodeNumbering | lc3.h:31-49 | the sixteen opcodes have distinct numbers, and an instruction built from an opcode's number decodes back to that opcode |
| Lc3.TrapOf | lc3.h:52-60 | vectors 0x20..0x25 name a routine whose vector is that value, and every other vector names none |
| Lc3.TrapVectorRoundTrip | lc3.h:52-60 | decoding a routine's vector gives back the routine |
| Lc3.Imm5 | lc3.c:294-296 | the imm5 operand read as signed is the two's-complement value of bits 4..0, within -16..15 |
| Lc3.Offset6 | lc3.c:186 | the offset6 operand read as signed is the two's-complement value of bits 5..0, within -32..31 |
| Lc3.PcOffset9 | lc3.c:196 | the PCoffset9 operand read as signed is the two's-complement value of bits 8..0, within -256..255 |
| Lc3.PcOffset11 | lc3.c:237 | the PCoffset11 operand read as signed is the two's-complement value of bits 10..0, within -1024..1023 |
| Lc3.RegisterFieldsAreGprs | lc3.h:8-20 | a 3-bit register field can only name R0..R7, never PC or COND |
| Memory.MemWrite | lc3.c:93-96 | the addressed cell holds the value and every other cell is unchanged |
| Memory.MemRead | lc3.c:98-111 | away from KBSR: returns the cell and changes nothing. At KBSR: KBSR becomes 0x8000 and KBDR the polled byte when one is waiting, else KBSR becomes 0; the refreshed KBSR is returned; no other cell changes |
| State.CondFor | lc3.c:113-122 | the flag is FL_ZRO exactly for 0 and FL_NEG exactly when bit 15 is set; it is one of the three flags and matches the value's sign |
| State.ReflectsIsExactlyOne | lc3.c:113-122 | a flag that matches a value's sign is one of the three flags, and the value determines it |
| State.SetReg | lc3.c:113-122 | the register receives the value and COND matches its sign; the other registers, PC, memory and console are unchanged |
| State.Poll | lc3.c:103-104 | read(0, &ch, 1) takes the next entry of the input when there is one, and yields nothing at the end of the input |
| State.Load | lc3.c:98-111 | mem_read on the machine: away from KBSR it is a pure lookup. At KBSR it consumes one poll and returns 0x8000 or 0 according to that poll. KBDR becomes the polled byte widened as a signed char, or keeps its value when nothing was waiting. Only KBSR and KBDR change |
| State.Initial | lc3.c:11-23 | R0..R7 are zero, PC is 0x3000, COND is FL_ZRO, and the machine is running with no output over the given memory and input |
| Ops.OpAdd | lc3.c:285-302 | Rd becomes SR1 plus SR2 or imm5, modulo 2^16; COND matches Rd; nothing else changes |
| Ops.OpAnd | lc3.c:269-283 | Rd becomes SR1 and SR2 or imm5, bitwise; COND matches Rd; nothing else changes |
| Ops.OpNot | lc3.c:260-267 | Rd becomes the complement of SR1; COND matches Rd; nothing else changes |
| Ops.Taken | lc3.c:255-256 | the branch test `cond_flag & reg[R_COND]`: it can hold only with a non-empty mask and a non-zero COND (Cpu.BranchTakenIff gives the exact condition) |
| Ops.OpBr | lc3.c:252-258 | when the nzp mask meets COND, PC moves by PCoffset9; otherwise the machine is unchanged; only PC can change |
| Ops.OpJmp | lc3.c:245-250 | PC becomes the base register; nothing else changes |
| Ops.OpJsr | lc3.c:232-243 | R7 becomes the old PC. Then PC moves by PCoffset11 (JSR), or becomes the base register (JSRR). With base R7, PC stays where it was. COND, memory and the other registers are unchanged |
| Ops.OpLd | lc3.c:224-230 | Rd becomes the word read at PC + PCoffset9, with COND matching; only that read's keyboard effect and Rd and COND change |
| Ops.OpLdr | lc3.c:180-189 | Rd becomes the word read at base + offset6, with COND matching; only that read's keyboard effect and Rd and COND change |
| Ops.OpLdi | lc3.c:191-200 | Rd becomes the word read at the address read at PC + PCoffset9; both reads may poll the keyboard; COND matches Rd |
| Ops.OpLdiPlain | lc3.c:191-200 | away from KBSR, LDI yields mem[mem[PC + PCoffset9]] and changes only Rd and COND |
| Ops.OpLea | lc3.c:216-222 | Rd becomes PC + PCoffset9 and COND matches it; memory is not read |
| Ops.OpSt | lc3.c:209-214 | exactly the cell at PC + PCoffset9 changes, to the source register; registers and flags are unchanged |
| Ops.OpStr | lc3.c:172-178 | exactly the cell at base + offset6 changes, to the source register; registers and flags are unchanged |
| Ops.OpSti | lc3.c:202-207 | the cell addressed by the word at PC + PCoffset9 changes to the source register; away from KBSR that is the only change |
| Traps.Getchar | main.c:115 | getchar returns the first waiting byte and consumes the timeline through it; it returns EOF exactly when no entry holds a byte |
| Traps.GetcharWord | main.c:115 | a byte widens with a zero high byte; EOF becomes 0xFFFF |
| Traps.GetcharByte | lc3.c:144-146 | `char c = getchar()` is the low byte of getchar's result; at EOF that byte widens back to 0xFFFF |
| Traps.StringAt | lc3.c:156-160 | the words from the start address are all non-zero and are followed by a zero word or the end of memory |
| Traps.PutsFrom | lc3.c:153-162 | PUTS prints the low byte of each word of the string, one character per word |
| Traps.PackedChars | lc3.c:130-137 | a word prints its low byte always and its high byte exactly when that is non-zero |
| Traps.Unpack | lc3.c:130-137 | packed words print between one and two bytes per word |
| Traps.PutspFrom | lc3.c:124-140 | PUTSP prints the string's words unpacked in order, stopping at the zero word |
| Traps.PutspOfNarrowString | lc3.c:124-162 | for a string whose high bytes are all zero, PUTSP and PUTS print the same |
| Traps.TrapGetc | main.c:113-117 | R0 becomes getchar() widened to 16 bits and COND matches it; only R0, COND and the input change |
| Traps.TrapOut | main.c:118-121 | the low byte of R0 is appended to the output; nothing else changes |
| Traps.TrapPuts | main.c:122-124 | the output grows by the PUTS text of the string at R0; nothing else changes |
| Traps.TrapIn | lc3.c:142-151 | prints the prompt, then echoes the byte read (0xFF at EOF); R0 becomes that byte widened as a signed char; COND matches R0 |
| Traps.TrapPutsp | main.c:128-130 | the output grows by the PUTSP text of the string at R0; nothing else changes |
| Traps.TrapHalt | main.c:131-135 | prints "HALT" and a newline and clears running; nothing else changes |
| Cpu.OpTrap | main.c:109-137 | R7 becomes PC before any routine runs. An unknown vector changes nothing else. HALT stops the machine and prints its text. No other vector stops it. PC and memory are unchanged |
| Cpu.RunTrap | main.c:111-136 | each known vector runs its routine; R7, PC and memory are untouched by all of them |
| Cpu.Execute | main.c:69-143 | every handler keeps COND valid and only moves the console forward; only TRAP, RTI and RES can stop the machine; RTI and the reserved opcode change nothing but stop the machine, whatever the address of the fetch |
| Cpu.Step | main.c:53-63 | a stopped machine does not step; a step keeps COND valid and only moves the console forward |
| Cpu.StepFetchesThenIncrements | main.c:62-63 | away from KBSR, a step fetches the word at the old PC and executes it with PC already incremented |
| Cpu.LeaCountsFromNextInstruction | lc3.c:216-222 | one LEA step is the LEA handler run with PC already incremented, so offsets count from the next instruction |
| Cpu.BranchTakenIff | lc3.c:252-258 | BR branches exactly when n is set and COND is N, or z and Z, or p and P |
| Cpu.BranchNever | lc3.c:255-257 | BR with an empty mask changes nothing |
| Cpu.BranchAlways | lc3.c:255-257 | BR with the full mask always branches, since COND holds one flag |
| Cpu.DispatchIsExact | main.c:67-69 | an instruction decodes to an opcode exactly when its top four bits are that opcode's number |
| Cpu.RtiAndResStop | main.c:138-142 | away from KBSR, a step of RTI or the reserved opcode only increments PC and stops the machine (a fetch at KBSR also polls the keyboard, as `Cpu.Execute` and `State.Load` state) |
| Cpu.TrapSavesReturnAddress | main.c:109-111 | TRAP puts the address of the next instruction in R7 for every vector; an unknown vector does nothing else |
| Cpu.HaltIsFinal | main.c:131-135 | HALT prints its text and stops the machine, and no later pass of the loop changes anything |
| Cpu.Iterate | main.c:53 | the `while (running)` loop over a given step, for at most fuel passes: a stopped machine is returned as it is, and so is one the step leaves unchanged |
| Cpu.Run | main.c:53-144 | the emulator's loop for at most fuel passes: a stopped machine does not move; every run keeps COND valid and only moves the console forward |
| Cpu.RunSteps | main.c:53 | while running and with fuel left, the loop takes one step and continues |
| Cpu.StoppedStaysStopped | main.c:53 | a stopped machine is final |
| Cpu.IterateCompose | main.c:53 | running the loop a + b times is running it a times and then b more |
| Cpu.RunCompose | main.c:53-144 | running the emulator a + b steps is running a steps and then b more |
| Cpu.IterateKeeps | main.c:53 | the loop keeps every invariant that each step keeps |
| Cpu.RunKeeps | main.c:53-144 | every run keeps COND valid; its output extends the starting output; its remaining input is a suffix of the starting input |
| Cpu.CondAlwaysValid | lc3.c:15-21 | from the initial registers, COND holds exactly one flag after any number of steps |
| Cpu.JsrSavesNextInstruction | lc3.c:232-243 | one JSR or JSRR step puts the address of the next instruction in R7 |
| Cpu.RetJumpsToR7 | lc3.c:245-250 | RET jumps to R7 and changes no register |
| Cpu.JsrThenRet | lc3.c:232-250 | JSR to a subroutine that starts with RET resumes at the instruction after the JSR |
| Cpu.JsrrThroughR7 | lc3.c:235-241 | JSRR through R7 continues at the next instruction, because R7 is written before it is read |
| Loader.HostWord | lc3.c:66 | fread on a little-endian host puts the first file byte in the low half |
| Loader.SwapHostWord | lc3.c:45-55 | swapping a word read that way gives the big-endian value of the two file bytes |
| Loader.Origin | lc3.c:66-67 | the load address is the header word with its bytes exchanged |
| Loader.MaxRead | lc3.c:59-70 | max_read is the room between the origin and the end of memory, except that origin 0 gives 0 |
| Loader.ReadCount | lc3.c:70-72 | fread delivers all words up to max_read, and never past the end of memory |
| Loader.LoadImage | lc3.c:57-80 | word i of the image, swapped, lands at origin + i for each word read; no other cell changes |
| Loader.LoadImageCell | lc3.c:57-80 | a cell after loading holds the image's swapped word if the image covers it, else its old value |
| Loader.OriginZeroLoadsNothing | lc3.c:70 | an image with origin 0 leaves memory unchanged |
| Loader.StoreRaw | lc3.c:71-72 | the fread stores count raw words from the origin upwards and nothing else |
| Loader.SwapInPlace | lc3.c:74-79 | the swap loop byte-swaps exactly the count words from the origin |
| Loader.ReadImageFile | lc3.c:57-80 | the C procedure (fread, then swap in place) produces exactly LoadImage |
| Loader.LoadImages | main.c:42-48 | loading the images in command-line order changes only cells that some image covers |
| Loader.UncoveredCellUnchanged | main.c:42-48 | a cell no image covers keeps its initial contents |
| Loader.LastImageWins | main.c:42-48 | images load in command-line order: a cell holds the word of the last image covering it |
| Loader.LoadAll | main.c:42-48 | loading fails exactly when some image file cannot be opened |
| Loader.LoadAllLoadsInOrder | main.c:42-48 | when every file opens, loading them is loading the images in order |
| Loader.Boot | main.c:29-48 | no machine starts when an image fails to open; otherwise the loaded memory with the initial registers |
| Scenarios.Imm5Examples | lc3.c:164-170 | imm5 0b10001 widens to 0xFFF1 (-15) and 0b01111 to 0x000F (15) |
| Scenarios.AddWrapsToZero | lc3.c:285-302 | 0xFFFF + 1 wraps to 0 and sets Z |
| Scenarios.GetcAtEndOfInput | main.c:113-117 | GETC at end of input leaves 0xFFFF in R0 with N set |
| Scenarios.InAtEndOfInput | lc3.c:142-151 | trap_in at end of input echoes 0xFF and leaves 0xFFFF in R0 |
| Scenarios.PutspZeroLowByte | lc3.c:130-137 | PUTSP of the word 0x4100 prints a zero byte and then 'A' |
| Scenarios.PutsHi | lc3.c:153-162 | PUTS of "HI" prints the two characters |
| Scenarios.LoadNearTheTop | lc3.c:67-72 | an image at origin 0xFFF0 with 48 words loads only 16 |
| Scenarios.ProgramComputesTen | main.c:53-144 | ADD R0,R0,#5 twice then HALT, from the initial registers, ends with R0 = 10, P set, the machine stopped and "HALT" printed |

## Left out

- Terminal raw mode (`lc3.c:25-37`), the SIGINT handler (`main.c:5-11`), and the usage, terminal and allocation checks with their exit codes (`main.c:18-40`). These are operating-system glue.
- `malloc`, `calloc` and `free`. Initial memory is a parameter with arbitrary contents, as `malloc` leaves it. The initial registers are those `initialize_registers` sets.
- Register slots 10..15. `lc3.h` sets NUMBER_OF_REGISTERS to 16 and `initialize_registers` allocates that many slots with `calloc` (`lc3.c:13`), but no code uses slots 10..15, so the machine has only R0..R7, PC and COND.
- `fopen`, `fread` and `fclose`:
  - An image is the header word and the words as `fread` delivers them.
  - A file that cannot be opened is `None` in `Loader.LoadAll`.
  - A file shorter than two bytes leaves `origin` uninitialised in the C code. This is not modelled.
  - A trailing odd byte is indeterminate in C. The model ignores it.
- `read(0, …)` returning -1. `mem_read` treats that as a byte waiting, with an uninitialised `ch`. The model's poll only ever yields a byte or nothing.
- The split between `read(0, …)` and buffered `getchar`. In the model, both draw on one input timeline.
- Words.CharToWord: the signedness of `char` is host-defined. The model takes the signed reading (x86), for KBDR and for R0 after `trap_in`. With an unsigned char, the high byte would be zero.
- Traps.StringAt: a string with no zero word before the end of memory stops at address 0xFFFF. The C code would read past the array there, which is undefined behaviour, not a wrap to address 0.
- Traps.PutsFrom and Traps.PutspFrom: each stops where `Traps.StringAt` stops.
- `printf`, `putc`, `puts` and `fflush`. These are modelled only as bytes appended to the output.
- Cpu.Run: the emulator's loop runs until HALT, RTI or RES, possibly forever. The model runs at most `fuel` steps.

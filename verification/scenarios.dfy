/** Concrete runs of the model: worked examples of the instruction
    semantics, the trap routines, the loader, and a whole program. */
module Scenarios {
  import opened Words
  import opened Lc3
  import opened Memory
  import opened State
  import opened Ops
  import opened Traps
  import opened Cpu
  import opened Loader

  /** imm5 = 0b10001 is -15; imm5 = 0b01111 is 15. */
  lemma Imm5Examples()
    ensures Imm5(0x1071) == 0xFFF1 && Signed(Imm5(0x1071)) == -15
    ensures Imm5(0x106F) == 0x000F && Signed(Imm5(0x106F)) == 15
  {
  }

  /** ADD R0, R1, R2 with R1 = 0xFFFF and R2 = 1 wraps to 0 and sets Z. */
  lemma AddWrapsToZero(m: Machine)
    requires m.reg[1] == 0xFFFF && m.reg[2] == 1
    ensures OpAdd(m, 0x1042).reg[0] == 0 && OpAdd(m, 0x1042).cond == FL_ZRO
  {
    assert Dr(0x1042) == 0 && Sr1(0x1042) == 1 && !ImmMode(0x1042) && Sr2(0x1042) == 2;
  }

  /** GETC at the end of input: R0 = 0xFFFF, which is negative. */
  lemma GetcAtEndOfInput(m: Machine)
    requires m.input == []
    ensures TrapGetc(m).reg[R_R0] == 0xFFFF && TrapGetc(m).cond == FL_NEG
  {
  }

  /** trap_in at the end of input echoes the byte 0xFF and leaves
      0xFFFF in R0. */
  lemma InAtEndOfInput(m: Machine)
    requires m.input == []
    ensures TrapIn(m).out == m.out + (IN_PROMPT + [0xFF])
    ensures TrapIn(m).reg[R_R0] == 0xFFFF && TrapIn(m).cond == FL_NEG
  {
  }

  /** PUTSP of the word 0x4100 prints the zero low byte and then 'A'. */
  lemma PutspZeroLowByte(mem: Memory, a: nat)
    requires a + 1 < MEMORY_MAX && mem[a] == 0x4100 && mem[a + 1] == 0
    ensures PutspFrom(mem, a) == [0x00, 0x41]
  {
    assert PutspFrom(mem, a + 1) == [];
  }

  /** PUTS of "HI" prints the two characters and stops at the zero word. */
  lemma PutsHi(mem: Memory, a: nat)
    requires a + 2 < MEMORY_MAX
    requires mem[a] == 0x48 && mem[a + 1] == 0x49 && mem[a + 2] == 0
    ensures PutsFrom(mem, a) == [0x48, 0x49]
  {
    assert PutsFrom(mem, a + 2) == [];
  }

  /** An image at origin 0xFFF0 with 48 words loads only the sixteen
      that fit below the end of memory. */
  lemma LoadNearTheTop(words: seq<Word>)
    requires |words| == 48
    ensures Origin(Image(0xF0FF, words)) == 0xFFF0
    ensures ReadCount(Image(0xF0FF, words)) == 16
  {
  }

  // A three-instruction program at 0x3000:
  //   ADD R0, R0, #5   (0x1025)
  //   ADD R0, R0, #5   (0x1025)
  //   HALT             (0xF025)

  predicate Program(mem: Memory) {
    mem[0x3000] == 0x1025 && mem[0x3001] == 0x1025 && mem[0x3002] == 0xF025
  }

  /** Either ADD of the program adds 5 to R0 and moves to the next word. */
  lemma AddFiveStep(m: Machine)
    requires m.running && (m.pc == 0x3000 || m.pc == 0x3001) && Program(m.mem)
    ensures Step(m).running && Step(m).pc == m.pc + 1 && Step(m).mem == m.mem
    ensures Step(m).reg[R_R0] == m.reg[R_R0] + 5 && Step(m).out == m.out
    ensures Reflects(Step(m).cond, Step(m).reg[R_R0])
  {
    StepFetchesThenIncrements(m);
    assert Step(m) == OpAdd(m.(pc := m.pc + 1), 0x1025);
    assert Dr(0x1025) == 0 && Sr1(0x1025) == 0 && ImmMode(0x1025) && Imm5(0x1025) == 5;
  }

  lemma ThirdStep(m: Machine)
    requires m.running && m.pc == 0x3002 && Program(m.mem)
    ensures !Step(m).running && Step(m).out == m.out + HALT_TEXT
    ensures Step(m).reg[R_R0] == m.reg[R_R0] && Step(m).cond == m.cond
  {
    StepFetchesThenIncrements(m);
  }

  /** The program leaves 10 in R0 with P set, prints "HALT" and stops;
      any further fuel changes nothing. */
  lemma ProgramComputesTen(mem: Memory, input: Input, fuel: nat)
    requires Program(mem) && fuel >= 3
    ensures var r := Run(Initial(mem, input), fuel);
      && r.reg[R_R0] == 10 && r.cond == FL_POS && !r.running && r.out == HALT_TEXT
  {
    var m0 := Initial(mem, input);
    AddFiveStep(m0);
    var m1 := Step(m0);
    AddFiveStep(m1);
    var m2 := Step(m1);
    assert m2.reg[R_R0] == 10;
    ThirdStep(m2);
    var m3 := Step(m2);
    RunSteps(m0, fuel);
    RunSteps(m1, fuel - 1);
    RunSteps(m2, fuel - 2);
    StoppedStaysStopped(m3, fuel - 3);
  }
}

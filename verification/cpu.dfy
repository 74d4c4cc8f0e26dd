/** The fetch-increment-decode-dispatch step of the emulator's main loop,
    the TRAP dispatch, and runs of several steps. */
module Cpu {
  import opened Words
  import opened Wrappers
  import opened Lc3
  import opened Memory
  import opened State
  import opened Ops
  import opened Traps

  /** TRAP: R7 := PC, then the routine named by the low byte of the
      instruction. An unknown vector does nothing more. */
  function OpTrap(m: Machine, instr: Word): (m': Machine)
    ensures m'.reg[R_R7] == m.pc && m'.pc == m.pc && m'.mem == m.mem
    ensures TrapOf(TrapVect(instr)).None? ==> m' == m.(reg := m.reg[R_R7 := m.pc])
    ensures TrapOf(TrapVect(instr)) == Some(HALT) ==>
      !m'.running && m'.out == m.out + HALT_TEXT && m'.input == m.input
    ensures TrapOf(TrapVect(instr)) != Some(HALT) ==> m'.running == m.running
    ensures Keeps(m, m')
  {
    var saved := m.(reg := m.reg[R_R7 := m.pc]);
    KeepsByAppending(m, saved);
    var m' := RunTrap(saved, TrapOf(TrapVect(instr)));
    KeepsTransitive(m, saved, m');
    m'
  }

  /** The trap routine for a vector, or nothing for an unknown one. */
  function RunTrap(m: Machine, t: Option<TrapRoutine>): (m': Machine)
    ensures m'.reg[R_R7] == m.reg[R_R7] && m'.pc == m.pc && m'.mem == m.mem
    ensures t.None? ==> m' == m
    ensures t == Some(HALT) ==> !m'.running && m'.out == m.out + HALT_TEXT && m'.input == m.input
    ensures t != Some(HALT) ==> m'.running == m.running
    ensures Keeps(m, m')
  {
    match t
    case None => KeepsByAppending(m, m); m
    case Some(GETC) => TrapGetc(m)
    case Some(OUT) => TrapOut(m)
    case Some(PUTS) => TrapPuts(m)
    case Some(IN) => TrapIn(m)
    case Some(PUTSP) => TrapPutsp(m)
    case Some(HALT) => TrapHalt(m)
  }

  /** The handler for an instruction whose PC has already been
      incremented, chosen by the opcode in its top four bits. RTI and the
      reserved opcode stop the machine. */
  function Execute(m: Machine, instr: Word): (m': Machine)
    ensures Keeps(m, m')
    ensures OpcodeOf(instr) != TRAP && OpcodeOf(instr) != RTI && OpcodeOf(instr) != RES ==>
      m'.running == m.running
    ensures OpcodeOf(instr) == RTI || OpcodeOf(instr) == RES ==> m' == m.(running := false)
  {
    match OpcodeOf(instr)
    case ADD => OpAdd(m, instr)
    case AND => OpAnd(m, instr)
    case NOT => OpNot(m, instr)
    case BR => OpBr(m, instr)
    case JMP => OpJmp(m, instr)
    case JSR => OpJsr(m, instr)
    case LD => OpLd(m, instr)
    case LDI => OpLdi(m, instr)
    case LDR => OpLdr(m, instr)
    case LEA => OpLea(m, instr)
    case ST => OpSt(m, instr)
    case STI => OpSti(m, instr)
    case STR => OpStr(m, instr)
    case TRAP => OpTrap(m, instr)
    case RTI => KeepsByAppending(m, m.(running := false)); m.(running := false)
    case RES => KeepsByAppending(m, m.(running := false)); m.(running := false)
  }

  /** One pass of the main loop: fetch the word at PC, increment PC, and
      execute the word. A stopped machine does not step. */
  function Step(m: Machine): (m': Machine)
    ensures !m.running ==> m' == m
    ensures Keeps(m, m')
  {
    if !m.running then KeepsByAppending(m, m); m
    else
      var f := Load(m, m.pc);
      var fetched := f.m.(pc := f.m.pc + 1);
      var m' := Execute(fetched, f.value);
      KeepsByAppending(f.m, fetched);
      KeepsTransitive(m, f.m, fetched);
      KeepsTransitive(m, fetched, m');
      m'
  }

  /** The main loop, while (running), over a given step: at most fuel
      passes, stopping early once the machine stops. */
  function Iterate(next: Machine -> Machine, m: Machine, fuel: nat): (r: Machine)
    decreases fuel
    ensures !m.running ==> r == m
    ensures next(m) == m ==> r == m
  {
    if fuel == 0 || !m.running then m else Iterate(next, next(m), fuel - 1)
  }

  /** At most fuel passes of the emulator's main loop. A run keeps COND
      valid and only moves the console forward. */
  function Run(m: Machine, fuel: nat): (r: Machine)
    ensures !m.running ==> r == m
    ensures Keeps(m, r)
  {
    IterateKeeps(Step, m, fuel);
    Iterate(Step, m, fuel)
  }

  /** Iterating a + b times is iterating a times and then b more. */
  lemma {:induction false} IterateCompose(next: Machine -> Machine, m: Machine, a: nat, b: nat)
    decreases a
    ensures Iterate(next, m, a + b) == Iterate(next, Iterate(next, m, a), b)
  {
    if a > 0 && m.running {
      IterateCompose(next, next(m), a - 1, b);
    }
  }

  /** The loop keeps whatever each step keeps. */
  lemma {:induction false} IterateKeeps(next: Machine -> Machine, m: Machine, fuel: nat)
    requires forall x :: Keeps(x, next(x))
    decreases fuel
    ensures Keeps(m, Iterate(next, m, fuel))
  {
    if fuel == 0 || !m.running {
      KeepsByAppending(m, m);
    } else {
      IterateKeeps(next, next(m), fuel - 1);
      KeepsTransitive(m, next(m), Iterate(next, m, fuel));
    }
  }

  /** The fetch reads the word at the old PC; the handler then sees the
      incremented PC, so every PC-relative offset counts from the word
      after the instruction. */
  lemma StepFetchesThenIncrements(m: Machine)
    requires m.running && m.pc != MR_KBSR
    ensures Step(m) == Execute(m.(pc := m.pc + 1), m.mem[m.pc])
  {
  }

  /** One step of LEA is the LEA handler run with PC already
      incremented, so Rd gets the address of the next instruction plus
      PCoffset9. */
  lemma LeaCountsFromNextInstruction(m: Machine)
    requires m.running && m.pc != MR_KBSR && OpcodeOf(m.mem[m.pc]) == LEA
    ensures Step(m) == OpLea(m.(pc := m.pc + 1), m.mem[m.pc])
  {
    StepFetchesThenIncrements(m);
  }

  /** A branch is taken exactly when one of the flags named in the
      instruction is the current flag. */
  lemma BranchTakenIff(m: Machine, instr: Word)
    requires ValidCond(m.cond)
    ensures Taken(m, instr) <==>
      || (instr & 0x0800 != 0 && m.cond == FL_NEG)
      || (instr & 0x0400 != 0 && m.cond == FL_ZRO)
      || (instr & 0x0200 != 0 && m.cond == FL_POS)
  {
  }

  /** BR with an empty mask never branches. */
  lemma BranchNever(m: Machine, instr: Word)
    requires Nzp(instr) == 0
    ensures OpBr(m, instr) == m
  {
  }

  /** BR with the full mask always branches, since COND always holds one
      flag. */
  lemma BranchAlways(m: Machine, instr: Word)
    requires Nzp(instr) == 7 && ValidCond(m.cond)
    ensures OpBr(m, instr).pc == m.pc + PcOffset9(instr)
  {
  }

  /** Decoding is a bijection between the top four bits and the sixteen
      opcodes: every instruction word reaches exactly one handler. */
  lemma DispatchIsExact(instr: Word, op: Opcode)
    ensures OpcodeOf(instr) == op <==> instr >> 12 == OpcodeNumber(op)
  {
    if instr >> 12 == OpcodeNumber(op) {
      OpcodeNumbering(OpcodeOf(instr), op, 0);
    }
  }

  /** RTI and the reserved opcode only stop the machine. */
  lemma RtiAndResStop(m: Machine)
    requires m.running && m.pc != MR_KBSR
    requires OpcodeOf(m.mem[m.pc]) == RTI || OpcodeOf(m.mem[m.pc]) == RES
    ensures Step(m) == m.(pc := m.pc + 1, running := false)
  {
    StepFetchesThenIncrements(m);
  }

  /** TRAP saves the address of the next instruction in R7 whatever the
      vector; an unknown vector does nothing else. */
  lemma TrapSavesReturnAddress(m: Machine)
    requires m.running && m.pc != MR_KBSR && OpcodeOf(m.mem[m.pc]) == TRAP
    ensures Step(m).reg[R_R7] == m.pc + 1 && Step(m).pc == m.pc + 1
    ensures TrapOf(TrapVect(m.mem[m.pc])).None? ==>
      Step(m) == m.(pc := m.pc + 1, reg := m.reg[R_R7 := m.pc + 1])
  {
    StepFetchesThenIncrements(m);
  }

  /** HALT prints its message, stops the machine, and no later step
      changes anything. */
  lemma HaltIsFinal(m: Machine, fuel: nat)
    requires m.running && m.pc != MR_KBSR
    requires OpcodeOf(m.mem[m.pc]) == TRAP && TrapVect(m.mem[m.pc]) == 0x25
    ensures !Step(m).running && Step(m).out == m.out + HALT_TEXT
    ensures Run(Step(m), fuel) == Step(m)
  {
    StepFetchesThenIncrements(m);
  }

  /** A running machine with fuel left takes a step and continues. */
  lemma RunSteps(m: Machine, fuel: nat)
    requires fuel > 0 && m.running
    ensures Run(m, fuel) == Run(Step(m), fuel - 1)
  {
  }

  /** A stopped machine is final. */
  lemma StoppedStaysStopped(m: Machine, fuel: nat)
    requires !m.running
    ensures Run(m, fuel) == m
  {
  }

  /** Running a + b steps is running a steps and then b more. */
  lemma RunCompose(m: Machine, a: nat, b: nat)
    ensures Run(m, a + b) == Run(Run(m, a), b)
  {
    IterateCompose(Step, m, a, b);
  }

  /** Every run keeps COND valid and only moves the console forward. */
  lemma RunKeeps(m: Machine, fuel: nat)
    ensures Keeps(m, Run(m, fuel))
  {
    IterateKeeps(Step, m, fuel);
  }

  /** From the initial registers, COND holds exactly one flag at every
      point of every run. */
  lemma CondAlwaysValid(mem: Memory, input: Input, fuel: nat)
    ensures ValidCond(Run(Initial(mem, input), fuel).cond)
  {
    RunKeeps(Initial(mem, input), fuel);
  }

  /** One step of JSR or JSRR is the JSR handler run with PC already
      incremented, so R7 receives the address of the next instruction. */
  lemma JsrSavesNextInstruction(m: Machine)
    requires m.running && m.pc != MR_KBSR && OpcodeOf(m.mem[m.pc]) == JSR
    ensures Step(m) == OpJsr(m.(pc := m.pc + 1), m.mem[m.pc])
    ensures Step(m).reg[R_R7] == m.pc + 1
  {
    StepFetchesThenIncrements(m);
  }

  /** RET (JMP R7) jumps to the address in R7 and changes no register. */
  lemma RetJumpsToR7(m: Machine)
    requires m.running && m.pc != MR_KBSR && m.mem[m.pc] == 0xC1C0
    ensures Step(m).pc == m.reg[R_R7] && Step(m).reg == m.reg
  {
    StepFetchesThenIncrements(m);
    assert OpcodeOf(0xC1C0) == JMP && Sr1(0xC1C0) == R_R7;
  }

  /** JSR to a subroutine whose first instruction is RET comes back to
      the instruction after the JSR. */
  lemma JsrThenRet(m: Machine)
    requires m.running && m.pc != MR_KBSR && OpcodeOf(m.mem[m.pc]) == JSR
    requires Step(m).pc != MR_KBSR && Step(m).mem[Step(m).pc] == 0xC1C0
    ensures Step(Step(m)).pc == m.pc + 1
    ensures Step(Step(m)).reg[R_R7] == m.pc + 1
  {
    JsrSavesNextInstruction(m);
    RetJumpsToR7(Step(m));
  }

  /** JSRR through R7 jumps nowhere: R7 is overwritten before it is read
      as the base, so execution continues at the next instruction. */
  lemma JsrrThroughR7(m: Machine)
    requires m.running && m.pc != MR_KBSR
    requires OpcodeOf(m.mem[m.pc]) == JSR && !LongFlag(m.mem[m.pc]) && Sr1(m.mem[m.pc]) == R_R7
    ensures Step(m).pc == m.pc + 1 && Step(m).reg[R_R7] == m.pc + 1
  {
    StepFetchesThenIncrements(m);
  }
}

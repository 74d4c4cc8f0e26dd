/** The thirteen instruction handlers op_* of lc3.c, each a transition of
    the machine. PC has already been incremented past the instruction
    when a handler runs, so every PC-relative address is relative to the
    following instruction. */
module Ops {
  import opened Words
  import opened Lc3
  import opened Memory
  import opened State

  /** The second operand of ADD and AND: imm5 or register Sr2. */
  function Source2(m: Machine, instr: Word): Word {
    if ImmMode(instr) then Imm5(instr) else m.reg[Sr2(instr)]
  }

  /** Only Rd and COND may differ, and COND reflects the new Rd. */
  ghost predicate WritesRd(m: Machine, m': Machine, instr: Word) {
    && RegsExcept(m, m', Dr(instr))
    && Reflects(m'.cond, m'.reg[Dr(instr)])
    && m'.pc == m.pc && m'.mem == m.mem && SameIo(m, m')
  }

  /** op_add: Rd := Sr1 + operand modulo 2^16, flags from Rd. */
  function OpAdd(m: Machine, instr: Word): (m': Machine)
    ensures m'.reg[Dr(instr)] == m.reg[Sr1(instr)] + Source2(m, instr)
    ensures WritesRd(m, m', instr) && Keeps(m, m')
  {
    SetReg(m, Dr(instr), m.reg[Sr1(instr)] + Source2(m, instr))
  }

  /** op_and: Rd := Sr1 & operand, flags from Rd. */
  function OpAnd(m: Machine, instr: Word): (m': Machine)
    ensures m'.reg[Dr(instr)] == m.reg[Sr1(instr)] & Source2(m, instr)
    ensures WritesRd(m, m', instr) && Keeps(m, m')
  {
    SetReg(m, Dr(instr), m.reg[Sr1(instr)] & Source2(m, instr))
  }

  /** op_not: Rd := ~Sr1, flags from Rd. */
  function OpNot(m: Machine, instr: Word): (m': Machine)
    ensures m'.reg[Dr(instr)] == !m.reg[Sr1(instr)]
    ensures WritesRd(m, m', instr) && Keeps(m, m')
  {
    SetReg(m, Dr(instr), !m.reg[Sr1(instr)])
  }

  /** The branch condition of BR: some flag of the n, z, p mask is set in
      COND. */
  function Taken(m: Machine, instr: Word): (b: bool)
    ensures b ==> Nzp(instr) != 0 && m.cond != 0
  {
    Nzp(instr) & m.cond != 0
  }

  /** op_br: when the condition holds, PC moves by PCoffset9 (modulo
      2^16); otherwise nothing changes. */
  function OpBr(m: Machine, instr: Word): (m': Machine)
    ensures Taken(m, instr) ==> m'.pc == m.pc + PcOffset9(instr)
    ensures !Taken(m, instr) ==> m' == m
    ensures m' == m.(pc := m'.pc)
    ensures Keeps(m, m')
  {
    KeepsByAppending(m, m.(pc := m.pc + PcOffset9(instr)));
    if Taken(m, instr) then m.(pc := m.pc + PcOffset9(instr)) else m
  }

  /** op_jmp: PC := base register (RET when the base is R7). */
  function OpJmp(m: Machine, instr: Word): (m': Machine)
    ensures m'.pc == m.reg[Sr1(instr)]
    ensures m' == m.(pc := m'.pc)
    ensures Keeps(m, m')
  {
    KeepsByAppending(m, m.(pc := m.reg[Sr1(instr)]));
    m.(pc := m.reg[Sr1(instr)])
  }

  /** op_jsr: R7 := PC, then PC := PC + PCoffset11 (JSR) or PC := base
      register (JSRR). The base register is read after R7 is written, so
      JSRR R7 leaves PC where it was. */
  function OpJsr(m: Machine, instr: Word): (m': Machine)
    ensures m'.reg[R_R7] == m.pc && RegsExcept(m, m', R_R7)
    ensures LongFlag(instr) ==> m'.pc == m.pc + PcOffset11(instr)
    ensures !LongFlag(instr) && Sr1(instr) != R_R7 ==> m'.pc == m.reg[Sr1(instr)]
    ensures !LongFlag(instr) && Sr1(instr) == R_R7 ==> m'.pc == m.pc
    ensures m'.cond == m.cond && m'.mem == m.mem && SameIo(m, m')
    ensures Keeps(m, m')
  {
    var saved := m.reg[R_R7 := m.pc];
    var m' := if LongFlag(instr) then
      m.(reg := saved, pc := m.pc + PcOffset11(instr))
    else
      m.(reg := saved, pc := saved[Sr1(instr)]);
    KeepsByAppending(m, m');
    m'
  }

  /** op_ld: Rd := mem[PC + PCoffset9], flags from Rd. */
  function OpLd(m: Machine, instr: Word): (m': Machine)
    ensures var l := Load(m, m.pc + PcOffset9(instr));
      && m'.reg[Dr(instr)] == l.value
      && WritesRd(l.m, m', instr)
    ensures m.pc + PcOffset9(instr) != MR_KBSR ==>
      m'.reg[Dr(instr)] == m.mem[m.pc + PcOffset9(instr)] && WritesRd(m, m', instr)
    ensures Keeps(m, m')
  {
    var l := Load(m, m.pc + PcOffset9(instr));
    var m' := SetReg(l.m, Dr(instr), l.value);
    KeepsTransitive(m, l.m, m');
    m'
  }

  /** op_ldr: Rd := mem[base + offset6], flags from Rd. */
  function OpLdr(m: Machine, instr: Word): (m': Machine)
    ensures var l := Load(m, m.reg[Sr1(instr)] + Offset6(instr));
      && m'.reg[Dr(instr)] == l.value
      && WritesRd(l.m, m', instr)
    ensures m.reg[Sr1(instr)] + Offset6(instr) != MR_KBSR ==>
      m'.reg[Dr(instr)] == m.mem[m.reg[Sr1(instr)] + Offset6(instr)] && WritesRd(m, m', instr)
    ensures Keeps(m, m')
  {
    var l := Load(m, m.reg[Sr1(instr)] + Offset6(instr));
    var m' := SetReg(l.m, Dr(instr), l.value);
    KeepsTransitive(m, l.m, m');
    m'
  }

  /** op_ldi: Rd := mem[mem[PC + PCoffset9]], flags from Rd. The pointer
      cell is read first; either read may poll the keyboard. */
  function OpLdi(m: Machine, instr: Word): (m': Machine)
    ensures var l1 := Load(m, m.pc + PcOffset9(instr));
      var l2 := Load(l1.m, l1.value);
      && m'.reg[Dr(instr)] == l2.value
      && WritesRd(l2.m, m', instr)
    ensures Keeps(m, m')
  {
    var l1 := Load(m, m.pc + PcOffset9(instr));
    var l2 := Load(l1.m, l1.value);
    var m' := SetReg(l2.m, Dr(instr), l2.value);
    KeepsTransitive(m, l1.m, l2.m);
    KeepsTransitive(m, l2.m, m');
    m'
  }

  /** When neither the pointer cell nor the cell it points to is KBSR,
      LDI is a plain double indirection that changes only Rd and COND. */
  lemma OpLdiPlain(m: Machine, instr: Word)
    requires m.pc + PcOffset9(instr) != MR_KBSR
    requires m.mem[m.pc + PcOffset9(instr)] != MR_KBSR
    ensures OpLdi(m, instr).reg[Dr(instr)] == m.mem[m.mem[m.pc + PcOffset9(instr)]]
    ensures WritesRd(m, OpLdi(m, instr), instr)
  {
  }

  /** op_lea: Rd := PC + PCoffset9. This implementation also sets the
      flags from Rd. Memory is not read. */
  function OpLea(m: Machine, instr: Word): (m': Machine)
    ensures m'.reg[Dr(instr)] == m.pc + PcOffset9(instr)
    ensures WritesRd(m, m', instr) && Keeps(m, m')
  {
    SetReg(m, Dr(instr), m.pc + PcOffset9(instr))
  }

  /** Only the memory cell at a changes, to v. */
  ghost predicate WritesCell(m: Machine, m': Machine, a: Word, v: Word) {
    && m'.mem[a] == v
    && SameExcept(m.mem, m'.mem, a, a)
    && m'.reg == m.reg && m'.pc == m.pc && m'.cond == m.cond && SameIo(m, m')
  }

  /** op_st: mem[PC + PCoffset9] := Sr. */
  function OpSt(m: Machine, instr: Word): (m': Machine)
    ensures WritesCell(m, m', m.pc + PcOffset9(instr), m.reg[Dr(instr)])
    ensures Keeps(m, m')
  {
    var m' := m.(mem := MemWrite(m.mem, m.pc + PcOffset9(instr), m.reg[Dr(instr)]));
    KeepsByAppending(m, m');
    m'
  }

  /** op_str: mem[base + offset6] := Sr. */
  function OpStr(m: Machine, instr: Word): (m': Machine)
    ensures WritesCell(m, m', m.reg[Sr1(instr)] + Offset6(instr), m.reg[Dr(instr)])
    ensures Keeps(m, m')
  {
    var m' := m.(mem := MemWrite(m.mem, m.reg[Sr1(instr)] + Offset6(instr), m.reg[Dr(instr)]));
    KeepsByAppending(m, m');
    m'
  }

  /** op_sti: mem[mem[PC + PCoffset9]] := Sr. Apart from the poll when
      the pointer cell is KBSR, exactly one cell changes. */
  function OpSti(m: Machine, instr: Word): (m': Machine)
    ensures var l := Load(m, m.pc + PcOffset9(instr));
      WritesCell(l.m, m', l.value, m.reg[Dr(instr)])
    ensures var p := m.pc + PcOffset9(instr);
      p != MR_KBSR ==> WritesCell(m, m', m.mem[p], m.reg[Dr(instr)])
    ensures Keeps(m, m')
  {
    var l := Load(m, m.pc + PcOffset9(instr));
    var m' := l.m.(mem := MemWrite(l.m.mem, l.value, m.reg[Dr(instr)]));
    KeepsByAppending(l.m, m');
    KeepsTransitive(m, l.m, m');
    m'
  }
}

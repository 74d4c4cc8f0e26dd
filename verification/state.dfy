/** The machine state of the emulator: the register file, memory, the
    running flag and the console streams, with the flag discipline of
    update_flags and the machine-level memory read. */
module State {
  import opened Words
  import opened Wrappers
  import opened Lc3
  import opened Memory

  /** R0..R7. PC and COND are separate fields of the machine. */
  type Regs = r: seq<Word> | |r| == 8 witness [0, 0, 0, 0, 0, 0, 0, 0]

  /** The console input as a timeline: each poll of KBSR takes one entry,
      Some(b) when byte b is waiting and None when nothing is; a blocking
      read skips the None entries. The end of the sequence is end of
      input. */
  type Input = seq<Option<Byte>>

  datatype Machine = Machine(
    reg: Regs,
    pc: Word,
    cond: Word,
    mem: Memory,
    running: bool,
    input: Input,
    out: seq<Byte>)

  /** Every general-purpose register other than r keeps its value. */
  ghost predicate RegsExcept(m: Machine, m': Machine, r: RegIndex) {
    forall g: RegIndex :: g != r ==> m'.reg[g] == m.reg[g]
  }

  /** The console and the running flag are untouched. */
  predicate SameIo(m: Machine, m': Machine) {
    m'.running == m.running && m'.input == m.input && m'.out == m.out
  }

  /** m' is a later point of the same run's console: the output so far
      extends m's output, and the input left is what remained of m's
      input after some of it was consumed. */
  predicate Progress(m: Machine, m': Machine) {
    && m.out <= m'.out
    && |m'.input| <= |m.input|
    && m'.input == m.input[|m.input| - |m'.input|..]
  }

  /** Console progress composes. */
  lemma ProgressTransitive(m1: Machine, m2: Machine, m3: Machine)
    requires Progress(m1, m2) && Progress(m2, m3)
    ensures Progress(m1, m3)
  {
    var k2 := |m1.input| - |m2.input|;
    var k3 := |m2.input| - |m3.input|;
    assert m3.input == m1.input[k2..][k3..];
  }

  /** Consuming input down to a suffix of it and appending to the
      output is progress. */
  lemma ProgressByConsuming(m: Machine, rest: Input, extra: seq<Byte>)
    requires |rest| <= |m.input| && rest == m.input[|m.input| - |rest|..]
    ensures Progress(m, m.(input := rest, out := m.out + extra))
  {
  }

  /** What every transition keeps: a valid COND stays valid, and the
      console only moves forward. */
  predicate Keeps(m: Machine, m': Machine) {
    (ValidCond(m.cond) ==> ValidCond(m'.cond)) && Progress(m, m')
  }

  lemma KeepsTransitive(m1: Machine, m2: Machine, m3: Machine)
    requires Keeps(m1, m2) && Keeps(m2, m3)
    ensures Keeps(m1, m3)
  {
    ProgressTransitive(m1, m2, m3);
  }

  /** A transition that leaves COND and the input alone and only appends
      to the output keeps the invariants. */
  lemma KeepsByAppending(m: Machine, m': Machine)
    requires m'.cond == m.cond && m'.input == m.input && m.out <= m'.out
    ensures Keeps(m, m')
  {
    assert m.input[|m.input| - |m.input|..] == m.input;
  }

  /** COND holds exactly one of the three flags. */
  predicate ValidCond(c: Word) {
    c == FL_POS || c == FL_ZRO || c == FL_NEG
  }

  /** COND c describes the sign of v read as a two's-complement word. */
  predicate Reflects(c: Word, v: Word) {
    && (c == FL_NEG <==> Signed(v) < 0)
    && (c == FL_ZRO <==> Signed(v) == 0)
    && (c == FL_POS <==> Signed(v) > 0)
  }

  /** update_flags: the flag for a value just written to a register. */
  function CondFor(v: Word): (c: Word)
    ensures ValidCond(c)
    ensures Reflects(c, v)
    ensures c == FL_ZRO <==> v == 0
    ensures c == FL_NEG <==> v >> 15 == 1
  {
    SignedSign(v);
    if v == 0 then FL_ZRO
    else if v >> 15 == 1 then FL_NEG
    else FL_POS
  }

  /** A flag reflecting some value is exactly one of the three flags, and
      the value determines it. */
  lemma ReflectsIsExactlyOne(c: Word, c': Word, v: Word)
    requires Reflects(c, v) && Reflects(c', v)
    ensures ValidCond(c) && c == c'
  {
  }

  /** Writes v to register r and sets COND from it, as the flag-setting
      instructions do. Nothing else changes. */
  function SetReg(m: Machine, r: RegIndex, v: Word): (m': Machine)
    ensures m'.reg[r] == v && Reflects(m'.cond, v)
    ensures RegsExcept(m, m', r) && m'.pc == m.pc && m'.mem == m.mem && SameIo(m, m')
    ensures ValidCond(m'.cond) && Progress(m, m')
  {
    assert m.input[|m.input| - |m.input|..] == m.input;
    m.(reg := m.reg[r := v], cond := CondFor(v))
  }

  /** The next poll result and the input that remains after it. */
  function Poll(input: Input): (r: (Option<Byte>, Input))
    ensures |input| > 0 ==> r == (input[0], input[1..])
    ensures |input| == 0 ==> r == (None, input)
  {
    if |input| == 0 then (None, input) else (input[0], input[1..])
  }

  /** A word read by the machine and the machine after the read. */
  datatype Loaded = Loaded(value: Word, m: Machine)

  /** mem_read at machine level: a read of KBSR consumes one poll from
      the input; a read anywhere else changes nothing. */
  function Load(m: Machine, a: Word): (r: Loaded)
    ensures a != MR_KBSR ==> r == Loaded(m.mem[a], m)
    ensures a == MR_KBSR ==>
      && r.m.reg == m.reg && r.m.pc == m.pc && r.m.cond == m.cond
      && r.m.running == m.running && r.m.out == m.out
      && r.m.input == Poll(m.input).1
      && r.value == r.m.mem[MR_KBSR]
      && (r.value == 0x8000 <==> Poll(m.input).0.Some?)
      && (r.value == 0 <==> Poll(m.input).0.None?)
      && SameExcept(m.mem, r.m.mem, MR_KBSR, MR_KBDR)
    ensures a == MR_KBSR && Poll(m.input).0.Some? ==>
      r.m.mem[MR_KBDR] == CharToWord(Poll(m.input).0.value)
    ensures a == MR_KBSR && Poll(m.input).0.None? ==> r.m.mem[MR_KBDR] == m.mem[MR_KBDR]
    ensures Keeps(m, r.m)
  {
    assert m.input[|m.input| - |m.input|..] == m.input;
    if a == MR_KBSR then
      var (poll, rest) := Poll(m.input);
      var rd := MemRead(m.mem, a, poll);
      Loaded(rd.value, m.(mem := rd.mem, input := rest))
    else
      var rd := MemRead(m.mem, a, None);
      Loaded(rd.value, m)
  }

  /** initialize_registers together with the loaded memory: R0..R7 are
      zero, PC is PC_START and COND is FL_ZRO. */
  function Initial(mem: Memory, input: Input): (m: Machine)
    ensures ValidCond(m.cond) && m.running && m.out == []
    ensures forall r: RegIndex :: m.reg[r] == 0
    ensures m.pc == 0x3000 && m.cond == FL_ZRO
    ensures m.mem == mem && m.input == input
  {
    Machine([0, 0, 0, 0, 0, 0, 0, 0], PC_START, FL_ZRO, mem, true, input, [])
  }
}

/** The constants of lc3.h and the decoding of an instruction word into
    its opcode and operand fields. */
module Lc3 {
  import opened Words
  import opened Wrappers

  // Register indices. R_PC and R_COND sit above every general-purpose
  // register, so no 3-bit register field of an instruction reaches them.
  const R_R0: nat := 0
  const R_R7: nat := 7
  const R_PC: nat := 8
  const R_COND: nat := 9
  const NUMBER_OF_REGISTERS: nat := 16

  // Condition flags: exactly one of them is held in COND.
  const FL_POS: Word := 1
  const FL_ZRO: Word := 2
  const FL_NEG: Word := 4

  // Memory-mapped keyboard registers.
  const MR_KBSR: Word := 0xFE00
  const MR_KBDR: Word := 0xFE02

  const PC_START: Word := 0x3000
  const MEMORY_MAX: nat := 0x1_0000

  /** A general-purpose register index R0..R7. */
  type RegIndex = r: nat | r < 8

  /** The sixteen opcodes, numbered 0..15 in this order. */
  datatype Opcode =
    | BR | ADD | LD | ST | JSR | AND | LDR | STR
    | RTI | NOT | LDI | STI | JMP | RES | LEA | TRAP

  /** The number of an opcode (its value in the top four bits). */
  function OpcodeNumber(op: Opcode): (n: Word)
    ensures n < 16
  {
    match op
    case BR => 0 case ADD => 1 case LD => 2 case ST => 3
    case JSR => 4 case AND => 5 case LDR => 6 case STR => 7
    case RTI => 8 case NOT => 9 case LDI => 10 case STI => 11
    case JMP => 12 case RES => 13 case LEA => 14 case TRAP => 15
  }

  /** The opcode selected by the top four bits of an instruction. Every
      instruction selects exactly one opcode: the one whose number is
      instr >> 12. */
  function OpcodeOf(instr: Word): (op: Opcode)
    ensures OpcodeNumber(op) == instr >> 12
  {
    var n := instr >> 12;
    if n == 0 then BR else if n == 1 then ADD else if n == 2 then LD
    else if n == 3 then ST else if n == 4 then JSR else if n == 5 then AND
    else if n == 6 then LDR else if n == 7 then STR else if n == 8 then RTI
    else if n == 9 then NOT else if n == 10 then LDI else if n == 11 then STI
    else if n == 12 then JMP else if n == 13 then RES else if n == 14 then LEA
    else TRAP
  }

  /** Distinct opcodes have distinct numbers, and each opcode is decoded
      from any instruction carrying its number. */
  lemma OpcodeNumbering(op: Opcode, op': Opcode, operands: Word)
    requires operands < 0x1000
    ensures OpcodeNumber(op) == OpcodeNumber(op') <==> op == op'
    ensures OpcodeOf((OpcodeNumber(op) << 12) | operands) == op
  {
    var instr := (OpcodeNumber(op) << 12) | operands;
    assert instr >> 12 == OpcodeNumber(op);
  }

  /** The six trap routines. */
  datatype TrapRoutine = GETC | OUT | PUTS | IN | PUTSP | HALT

  /** The trap vector of each routine, 0x20..0x25. */
  function TrapVector(t: TrapRoutine): (v: Word)
    ensures 0x20 <= v <= 0x25
  {
    match t
    case GETC => 0x20 case OUT => 0x21 case PUTS => 0x22
    case IN => 0x23 case PUTSP => 0x24 case HALT => 0x25
  }

  /** The routine a trap vector selects; vectors outside 0x20..0x25 select
      none. */
  function TrapOf(vector: Word): (t: Option<TrapRoutine>)
    ensures t.None? <==> !(0x20 <= vector <= 0x25)
    ensures t.Some? ==> TrapVector(t.value) == vector
  {
    if vector == 0x20 then Some(GETC)
    else if vector == 0x21 then Some(OUT)
    else if vector == 0x22 then Some(PUTS)
    else if vector == 0x23 then Some(IN)
    else if vector == 0x24 then Some(PUTSP)
    else if vector == 0x25 then Some(HALT)
    else None
  }

  /** Decoding a routine's own vector gives back the routine. */
  lemma TrapVectorRoundTrip(t: TrapRoutine)
    ensures TrapOf(TrapVector(t)) == Some(t)
  {
  }

  // Operand fields, extracted at the fixed bit positions of the
  // instruction formats.

  /** Bits 11..9: destination (or, for stores, source) register. */
  function Dr(instr: Word): RegIndex {
    ((instr >> 9) & 7) as nat
  }

  /** Bits 8..6: first source or base register. */
  function Sr1(instr: Word): RegIndex {
    ((instr >> 6) & 7) as nat
  }

  /** Bits 2..0: second source register. */
  function Sr2(instr: Word): RegIndex {
    (instr & 7) as nat
  }

  /** Bit 5: ADD and AND take a sign-extended imm5 instead of Sr2. */
  predicate ImmMode(instr: Word) {
    (instr >> 5) & 1 == 1
  }

  /** Bit 11: JSR (PC-relative) rather than JSRR (base register). */
  predicate LongFlag(instr: Word) {
    (instr >> 11) & 1 == 1
  }

  /** Bits 11..9 of a BR: the n, z, p condition mask. */
  function Nzp(instr: Word): (mask: Word)
    ensures mask < 8
  {
    (instr >> 9) & 7
  }

  /** Bits 7..0 of a TRAP: the trap vector. */
  function TrapVect(instr: Word): (v: Word)
    ensures v < 0x100
  {
    instr & 0xFF
  }

  /** The sign-extended imm5 field: its signed value lies in -16..15. */
  function Imm5(instr: Word): (w: Word)
    ensures Signed(w) == FieldValue((instr & 0x1F) as int, 5) && -16 <= Signed(w) < 16
  {
    SignExtendValue(instr & 0x1F, 5);
    SignExtend(instr & 0x1F, 5)
  }

  /** The sign-extended offset6 field: its signed value lies in -32..31. */
  function Offset6(instr: Word): (w: Word)
    ensures Signed(w) == FieldValue((instr & 0x3F) as int, 6) && -32 <= Signed(w) < 32
  {
    SignExtendValue(instr & 0x3F, 6);
    SignExtend(instr & 0x3F, 6)
  }

  /** The sign-extended PCoffset9 field: its signed value lies in
      -256..255. */
  function PcOffset9(instr: Word): (w: Word)
    ensures Signed(w) == FieldValue((instr & 0x1FF) as int, 9) && -256 <= Signed(w) < 256
  {
    SignExtendValue(instr & 0x1FF, 9);
    SignExtend(instr & 0x1FF, 9)
  }

  /** The sign-extended PCoffset11 field: its signed value lies in
      -1024..1023. */
  function PcOffset11(instr: Word): (w: Word)
    ensures Signed(w) == FieldValue((instr & 0x7FF) as int, 11) && -1024 <= Signed(w) < 1024
  {
    SignExtendValue(instr & 0x7FF, 11);
    SignExtend(instr & 0x7FF, 11)
  }

  /** No 3-bit register field can address PC or COND. */
  lemma RegisterFieldsAreGprs(instr: Word)
    ensures Dr(instr) < R_PC && Sr1(instr) < R_PC && Sr2(instr) < R_PC
    ensures R_PC < R_COND < NUMBER_OF_REGISTERS
  {
  }
}

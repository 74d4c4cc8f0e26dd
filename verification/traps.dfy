/** The trap routines: the string output of trap_puts and trap_putsp, the
    keyboard input of GETC and trap_in, OUT and HALT. Console output is a
    byte sequence appended to; console input is the machine's input
    timeline. */
module Traps {
  import opened Words
  import opened Wrappers
  import opened Lc3
  import opened Memory
  import opened State

  /** What getchar returns: a byte, or end of input. */
  datatype CharIn = Char(c: Byte) | Eof

  /** getchar: blocks until a byte arrives, skipping the moments when
      nothing is waiting; at the end of the input it returns EOF. */
  function Getchar(input: Input): (r: (CharIn, Input))
    decreases |input|
    ensures |r.1| <= |input| && r.1 == input[|input| - |r.1|..]
    ensures r.0.Eof? <==> forall i :: 0 <= i < |input| ==> input[i].None?
    ensures r.0.Eof? ==> r.1 == []
    ensures r.0.Char? ==>
      var j := |input| - |r.1| - 1;
      && 0 <= j
      && input[j] == Some(r.0.c)
      && forall i :: 0 <= i < j ==> input[i].None?
  {
    if |input| == 0 then (Eof, input)
    else
      match input[0]
      case Some(b) => (Char(b), input[1..])
      case None => Getchar(input[1..])
  }

  /** (uint16_t)getchar(): a byte zero-extended, EOF (-1) as 0xFFFF. */
  function GetcharWord(c: CharIn): (w: Word)
    ensures c.Char? ==> Hi(w) == 0 && Lo(w) == c.c
    ensures c.Eof? ==> w == 0xFFFF
  {
    match c
    case Char(b) => b as Word
    case Eof => 0xFFFF
  }

  /** (char)getchar(): getchar's int truncated to a char, so EOF (-1)
      is the byte 0xFF, which widens back to the word of EOF. */
  function GetcharByte(c: CharIn): (b: Byte)
    ensures b == Lo(GetcharWord(c))
    ensures c.Eof? ==> CharToWord(b) == GetcharWord(c)
  {
    match c
    case Char(b) => b
    case Eof => 0xFF
  }

  /** The string output by puts("HALT"). */
  const HALT_TEXT: seq<Byte> := Ascii("HALT\n")

  /** The prompt printed by trap_in. */
  const IN_PROMPT: seq<Byte> := Ascii("Enter a character: ")

  /** The words of the string at address a: those before the first zero
      word. A string with no terminator stops at the end of memory. */
  function StringAt(mem: Memory, a: nat): (ws: seq<Word>)
    requires a <= MEMORY_MAX
    decreases MEMORY_MAX - a
    ensures a + |ws| <= MEMORY_MAX
    ensures forall i :: 0 <= i < |ws| ==> ws[i] == mem[a + i] && ws[i] != 0
    ensures a + |ws| == MEMORY_MAX || mem[a + |ws|] == 0
  {
    if a == MEMORY_MAX || mem[a] == 0 then [] else [mem[a]] + StringAt(mem, a + 1)
  }

  /** trap_puts from address a: one character per word, the low byte of
      each word up to, not including, the first zero word. */
  function PutsFrom(mem: Memory, a: nat): (out: seq<Byte>)
    requires a <= MEMORY_MAX
    decreases MEMORY_MAX - a
    ensures |out| == |StringAt(mem, a)|
    ensures forall i :: 0 <= i < |out| ==> out[i] == Lo(StringAt(mem, a)[i])
  {
    if a == MEMORY_MAX || mem[a] == 0 then [] else [Lo(mem[a])] + PutsFrom(mem, a + 1)
  }

  /** The bytes trap_putsp emits for one non-zero word: the low byte
      always, then the high byte unless it is zero. */
  function PackedChars(w: Word): (bs: seq<Byte>)
    ensures 1 <= |bs| <= 2 && bs[0] == Lo(w)
    ensures |bs| == 2 <==> Hi(w) != 0
    ensures |bs| == 2 ==> bs[1] == Hi(w)
  {
    if Hi(w) != 0 then [Lo(w), Hi(w)] else [Lo(w)]
  }

  /** The bytes of a sequence of packed words, in order. */
  function Unpack(ws: seq<Word>): (bs: seq<Byte>)
    ensures |ws| <= |bs| <= 2 * |ws|
  {
    if |ws| == 0 then [] else PackedChars(ws[0]) + Unpack(ws[1..])
  }

  /** trap_putsp from address a: two characters per word, up to, not
      including, the first zero word. */
  function PutspFrom(mem: Memory, a: nat): (out: seq<Byte>)
    requires a <= MEMORY_MAX
    decreases MEMORY_MAX - a
    ensures out == Unpack(StringAt(mem, a))
  {
    if a == MEMORY_MAX || mem[a] == 0 then [] else PackedChars(mem[a]) + PutspFrom(mem, a + 1)
  }

  /** A string whose words all have a zero high byte prints the same
      through PUTSP as through PUTS. */
  lemma {:induction false} PutspOfNarrowString(mem: Memory, a: nat)
    requires a <= MEMORY_MAX
    requires forall i :: 0 <= i < |StringAt(mem, a)| ==> Hi(StringAt(mem, a)[i]) == 0
    decreases MEMORY_MAX - a
    ensures PutspFrom(mem, a) == PutsFrom(mem, a)
  {
    if a < MEMORY_MAX && mem[a] != 0 {
      var ws := StringAt(mem, a);
      assert ws == [mem[a]] + StringAt(mem, a + 1);
      assert Hi(ws[0]) == 0;
      var rest := StringAt(mem, a + 1);
      forall i | 0 <= i < |rest|
        ensures Hi(rest[i]) == 0
      {
        assert rest[i] == ws[i + 1];
      }
      PutspOfNarrowString(mem, a + 1);
    }
  }

  /** GETC: R0 := (uint16_t)getchar(), flags from R0. Nothing is echoed. */
  function TrapGetc(m: Machine): (m': Machine)
    ensures m'.reg[R_R0] == GetcharWord(Getchar(m.input).0)
    ensures Reflects(m'.cond, m'.reg[R_R0])
    ensures m'.input == Getchar(m.input).1
    ensures RegsExcept(m, m', R_R0) && m'.pc == m.pc && m'.mem == m.mem
    ensures m'.out == m.out && m'.running == m.running
    ensures Keeps(m, m')
  {
    var g := Getchar(m.input);
    var consumed := m.(input := g.1, out := m.out + []);
    ProgressByConsuming(m, g.1, []);
    var m' := SetReg(consumed, R_R0, GetcharWord(g.0));
    ProgressTransitive(m, consumed, m');
    m'
  }

  /** OUT: writes the low byte of R0. */
  function TrapOut(m: Machine): (m': Machine)
    ensures m'.out == m.out + [Lo(m.reg[R_R0])]
    ensures m' == m.(out := m'.out)
    ensures Keeps(m, m')
  {
    KeepsByAppending(m, m.(out := m.out + [Lo(m.reg[R_R0])]));
    m.(out := m.out + [Lo(m.reg[R_R0])])
  }

  /** PUTS: writes the string at R0, one character per word. */
  function TrapPuts(m: Machine): (m': Machine)
    ensures m'.out == m.out + PutsFrom(m.mem, m.reg[R_R0] as int)
    ensures m' == m.(out := m'.out)
    ensures Keeps(m, m')
  {
    KeepsByAppending(m, m.(out := m.out + PutsFrom(m.mem, m.reg[R_R0] as int)));
    m.(out := m.out + PutsFrom(m.mem, m.reg[R_R0] as int))
  }

  /** trap_in: prints a prompt, reads a character and echoes it, then
      R0 := the character widened as a (signed) char, flags from R0. */
  function TrapIn(m: Machine): (m': Machine)
    ensures m'.out == m.out + (IN_PROMPT + [GetcharByte(Getchar(m.input).0)])
    ensures m'.reg[R_R0] == CharToWord(GetcharByte(Getchar(m.input).0))
    ensures Reflects(m'.cond, m'.reg[R_R0])
    ensures m'.input == Getchar(m.input).1
    ensures RegsExcept(m, m', R_R0) && m'.pc == m.pc && m'.mem == m.mem
    ensures m'.running == m.running
    ensures Keeps(m, m')
  {
    var g := Getchar(m.input);
    var ch := GetcharByte(g.0);
    var echoed := m.(input := g.1, out := m.out + (IN_PROMPT + [ch]));
    ProgressByConsuming(m, g.1, IN_PROMPT + [ch]);
    var m' := SetReg(echoed, R_R0, CharToWord(ch));
    ProgressTransitive(m, echoed, m');
    m'
  }

  /** PUTSP: writes the string at R0, two characters per word. */
  function TrapPutsp(m: Machine): (m': Machine)
    ensures m'.out == m.out + PutspFrom(m.mem, m.reg[R_R0] as int)
    ensures m' == m.(out := m'.out)
    ensures Keeps(m, m')
  {
    KeepsByAppending(m, m.(out := m.out + PutspFrom(m.mem, m.reg[R_R0] as int)));
    m.(out := m.out + PutspFrom(m.mem, m.reg[R_R0] as int))
  }

  /** HALT: prints "HALT" and a newline and stops the machine. */
  function TrapHalt(m: Machine): (m': Machine)
    ensures !m'.running && m'.out == m.out + HALT_TEXT
    ensures m' == m.(out := m'.out, running := false)
    ensures Keeps(m, m')
  {
    KeepsByAppending(m, m.(out := m.out + HALT_TEXT, running := false));
    m.(out := m.out + HALT_TEXT, running := false)
  }
}

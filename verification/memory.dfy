/** The 64K-word memory of lc3.c and its two accessors, including the
    keyboard poll performed by a read of the status register. */
module Memory {
  import opened Words
  import opened Wrappers
  import opened Lc3

  /** The whole address space. Its initial contents are whatever the host
      allocator left there, so nothing is assumed about them. */
  type Memory = m: seq<Word> | |m| == MEMORY_MAX witness seq(MEMORY_MAX, _ => 0)

  /** The cells of m' and m agree everywhere except possibly at a and b. */
  ghost predicate SameExcept(m: Memory, m': Memory, a: Word, b: Word) {
    forall i :: 0 <= i < MEMORY_MAX && i != a as int && i != b as int ==> m'[i] == m[i]
  }

  /** mem_write: a plain store. */
  function MemWrite(mem: Memory, address: Word, val: Word): (m': Memory)
    ensures m'[address] == val
    ensures SameExcept(mem, m', address, address)
  {
    mem[address := val]
  }

  /** The outcome of a read: the word read and the memory after it. */
  datatype Read = Read(value: Word, mem: Memory)

  /** mem_read. A read of KBSR first polls the keyboard: when a byte is
      available KBSR becomes 0x8000 and KBDR the byte, otherwise KBSR
      becomes 0; the read then returns the refreshed KBSR. Any other
      address is a plain lookup with no effect. */
  function MemRead(mem: Memory, address: Word, poll: Option<Byte>): (r: Read)
    ensures address != MR_KBSR ==> r.value == mem[address] && r.mem == mem
    ensures address == MR_KBSR ==>
      && r.value == r.mem[MR_KBSR]
      && (r.value >> 15 == 1 <==> poll.Some?)
      && r.value & 0x7FFF == 0
      && r.mem[MR_KBDR] == (if poll.Some? then CharToWord(poll.value) else mem[MR_KBDR])
      && SameExcept(mem, r.mem, MR_KBSR, MR_KBDR)
  {
    if address == MR_KBSR then
      var mem' :=
        match poll
        case Some(ch) => mem[MR_KBSR := 0x8000][MR_KBDR := CharToWord(ch)]
        case None => mem[MR_KBSR := 0];
      Read(mem'[address], mem')
    else
      Read(mem[address], mem)
  }
}

/** read_image_file and the image-loading loop of main: each image is an
    origin word followed by the program's words, both big-endian; the
    words land from the origin upwards, byte-swapped to host order. */
module Loader {
  import opened Words
  import opened Wrappers
  import opened Lc3
  import opened Memory
  import opened State

  /** An image file as fread delivers it on a little-endian host: the
      header word and the words after it, each with its bytes in file
      order, so each must be swapped before use. */
  datatype Image = Image(header: Word, words: seq<Word>)

  /** The word fread puts in memory for the file bytes b0 b1, in that
      order, on a little-endian host. */
  function HostWord(b0: Byte, b1: Byte): (w: Word)
    ensures Lo(w) == b0 && Hi(w) == b1
  {
    Join(b1, b0)
  }

  /** Swapping a word read on a little-endian host gives the big-endian
      value of the two file bytes. */
  lemma SwapHostWord(b0: Byte, b1: Byte)
    ensures Swap16(HostWord(b0, b1)) == Join(b0, b1)
  {
    SplitJoin(Swap16(HostWord(b0, b1)));
  }

  /** The load address of an image: the header word with its bytes
      exchanged, so the first file byte is the high half. */
  function Origin(img: Image): (o: Word)
    ensures Hi(o) == Lo(img.header) && Lo(o) == Hi(img.header)
  {
    Swap16(img.header)
  }

  /** max_read: MEMORY_MAX - origin stored in a 16-bit variable, so the
      room up to the end of memory, except that origin 0 gives 0. */
  function MaxRead(origin: Word): (n: nat)
    ensures n < MEMORY_MAX
    ensures origin == 0 ==> n == 0
    ensures origin != 0 ==> origin as int + n == MEMORY_MAX
  {
    (MEMORY_MAX - origin as int) % WORD_MODULUS
  }

  /** The number of words fread delivers: all of them, up to max_read. */
  function ReadCount(img: Image): (n: nat)
    ensures n <= |img.words| && n <= MaxRead(Origin(img))
    ensures n == |img.words| || n == MaxRead(Origin(img))
    ensures Origin(img) as int + n <= MEMORY_MAX
  {
    var limit := MaxRead(Origin(img));
    if |img.words| < limit then |img.words| else limit
  }

  /** Whether loading img writes address a. */
  predicate Covers(img: Image, a: int) {
    Origin(img) as int <= a < Origin(img) as int + ReadCount(img)
  }

  /** The memory after loading one image: word i of the image, swapped,
      at origin + i, for each word read; every other cell as before. */
  function LoadImage(mem: Memory, img: Image): (m': Memory)
    ensures forall i :: 0 <= i < ReadCount(img) ==>
      m'[Origin(img) as int + i] == Swap16(img.words[i])
    ensures forall a :: 0 <= a < MEMORY_MAX && !Covers(img, a) ==> m'[a] == mem[a]
  {
    var o := Origin(img) as int;
    var n := ReadCount(img);
    seq(MEMORY_MAX, a requires 0 <= a < MEMORY_MAX =>
      if o <= a < o + n then Swap16(img.words[a - o]) else mem[a])
  }

  /** One cell after loading an image. */
  lemma LoadImageCell(mem: Memory, img: Image, a: int)
    requires 0 <= a < MEMORY_MAX
    ensures LoadImage(mem, img)[a] ==
      if Covers(img, a) then Swap16(img.words[a - Origin(img) as int]) else mem[a]
  {
  }

  /** An image with origin 0 loads nothing. */
  lemma OriginZeroLoadsNothing(mem: Memory, img: Image)
    requires Origin(img) == 0
    ensures LoadImage(mem, img) == mem
  {
  }

  /** The fread of read_image_file: count raw words stored from address
      o upwards, unswapped. */
  method StoreRaw(mem: Memory, o: nat, words: seq<Word>, count: nat) returns (m': Memory)
    requires count <= |words| && o + count <= MEMORY_MAX
    ensures forall a :: 0 <= a < MEMORY_MAX ==>
      m'[a] == (if o <= a < o + count then words[a - o] else mem[a])
  {
    m' := mem;
    var k := 0;
    while k < count
      invariant 0 <= k <= count
      invariant forall a :: 0 <= a < MEMORY_MAX ==>
        m'[a] == (if o <= a < o + k then words[a - o] else mem[a])
    {
      m' := m'[o + k := words[k]];
      k := k + 1;
    }
  }

  /** The swap loop of read_image_file: the count words from address o
      upwards are byte-swapped in place, one at a time. */
  method SwapInPlace(mem: Memory, o: nat, count: nat) returns (m': Memory)
    requires o + count <= MEMORY_MAX
    ensures forall a :: 0 <= a < MEMORY_MAX ==>
      m'[a] == (if o <= a < o + count then Swap16(mem[a]) else mem[a])
  {
    m' := mem;
    var tmp := o;
    var read := count;
    while read > 0
      invariant 0 <= read <= count && tmp == o + count - read
      invariant forall a :: 0 <= a < MEMORY_MAX ==>
        m'[a] == (if o <= a < tmp then Swap16(mem[a]) else mem[a])
    {
      m' := m'[tmp := Swap16(m'[tmp])];
      tmp := tmp + 1;
      read := read - 1;
    }
  }

  /** read_image_file as the C code does it: one fread of the raw words
      to the origin, then a pass that swaps each of them in place. */
  method ReadImageFile(mem: Memory, img: Image) returns (m': Memory)
    ensures m' == LoadImage(mem, img)
  {
    var origin := Swap16(img.header);
    var maxRead := MaxRead(origin);
    var count := if |img.words| < maxRead then |img.words| else maxRead;
    var o := origin as int;
    var raw := StoreRaw(mem, o, img.words, count);
    m' := SwapInPlace(raw, o, count);
    var loaded := LoadImage(mem, img);
    forall a | 0 <= a < MEMORY_MAX
      ensures m'[a] == loaded[a]
    {
      if o <= a < o + count {
        assert m'[a] == Swap16(img.words[a - o]);
      } else {
        assert m'[a] == mem[a];
      }
    }
  }

  /** The loop of main over the image files in command-line order: each
      image is loaded on top of the memory the earlier ones left. */
  function LoadImages(mem: Memory, imgs: seq<Image>): (r: Memory)
    decreases |imgs|
    ensures forall a :: 0 <= a < MEMORY_MAX && r[a] != mem[a] ==>
      exists j :: 0 <= j < |imgs| && Covers(imgs[j], a)
  {
    if |imgs| == 0 then mem
    else LoadImage(LoadImages(mem, imgs[..|imgs| - 1]), imgs[|imgs| - 1])
  }

  /** A cell no image covers keeps its initial contents. */
  lemma {:induction false} UncoveredCellUnchanged(mem: Memory, imgs: seq<Image>, a: int)
    requires 0 <= a < MEMORY_MAX
    requires forall j :: 0 <= j < |imgs| ==> !Covers(imgs[j], a)
    decreases |imgs|
    ensures LoadImages(mem, imgs)[a] == mem[a]
  {
    if |imgs| > 0 {
      var init := imgs[..|imgs| - 1];
      forall j | 0 <= j < |init|
        ensures !Covers(init[j], a)
      {
        assert init[j] == imgs[j];
      }
      UncoveredCellUnchanged(mem, init, a);
      LoadImageCell(LoadImages(mem, init), imgs[|imgs| - 1], a);
    }
  }

  /** A cell holds the word of the last image that covers it: a later
      image overwrites the cells it shares with an earlier one. */
  lemma {:induction false} LastImageWins(mem: Memory, imgs: seq<Image>, j: int, a: int)
    requires 0 <= j < |imgs| && Covers(imgs[j], a) && 0 <= a < MEMORY_MAX
    requires forall k :: j < k < |imgs| ==> !Covers(imgs[k], a)
    decreases |imgs|
    ensures LoadImages(mem, imgs)[a] == Swap16(imgs[j].words[a - Origin(imgs[j]) as int])
  {
    var last := |imgs| - 1;
    var init := imgs[..last];
    LoadImageCell(LoadImages(mem, init), imgs[last], a);
    if j < last {
      forall k | j < k < |init|
        ensures !Covers(init[k], a)
      {
        assert init[k] == imgs[k];
      }
      assert init[j] == imgs[j];
      LastImageWins(mem, init, j, a);
    }
  }

  /** main's loading loop: an image that cannot be opened ends the
      program before it runs; otherwise all images are loaded in order. */
  function LoadAll(mem: Memory, files: seq<Option<Image>>): (r: Option<Memory>)
    decreases |files|
    ensures r.None? <==> exists i :: 0 <= i < |files| && files[i].None?
  {
    if |files| == 0 then Some(mem)
    else match files[|files| - 1]
      case None => None
      case Some(img) =>
        match LoadAll(mem, files[..|files| - 1])
        case None => None
        case Some(m) => Some(LoadImage(m, img))
  }

  /** When every image opens, loading them all is LoadImages in order. */
  lemma {:induction false} LoadAllLoadsInOrder(mem: Memory, imgs: seq<Image>)
    decreases |imgs|
    ensures LoadAll(mem, seq(|imgs|, i requires 0 <= i < |imgs| => Some(imgs[i])))
      == Some(LoadImages(mem, imgs))
  {
    if |imgs| > 0 {
      var files := seq(|imgs|, i requires 0 <= i < |imgs| => Some(imgs[i]));
      var init := imgs[..|imgs| - 1];
      assert files[..|files| - 1] == seq(|init|, i requires 0 <= i < |init| => Some(init[i]));
      LoadAllLoadsInOrder(mem, init);
    }
  }

  /** The machine main starts: memory from whatever the allocator left,
      with the images loaded, and the registers of initialize_registers;
      nothing runs when an image fails to open. */
  function Boot(mem: Memory, files: seq<Option<Image>>, input: Input): (r: Option<Machine>)
    ensures r.None? <==> exists i :: 0 <= i < |files| && files[i].None?
    ensures r.Some? ==> r.value == Initial(LoadAll(mem, files).value, input)
  {
    match LoadAll(mem, files)
    case None => None
    case Some(m) => Some(Initial(m, input))
  }
}

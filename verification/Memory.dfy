/** The memory of the simulator: pages of 16384 words that are allocated, zeroed, when they are first
    touched, against a flat map of bytes. Addresses are the unsigned values of 32-bit ints. */
module Memory {

  type Word = bv32
  type Byte = bv8

  // ---- Words and their bytes ----

  function Byte0(w: Word): Byte { (w & 0xff) as bv8 }
  function Byte1(w: Word): Byte { ((w >> 8) & 0xff) as bv8 }
  function Byte2(w: Word): Byte { ((w >> 16) & 0xff) as bv8 }
  function Byte3(w: Word): Byte { ((w >> 24) & 0xff) as bv8 }

  /** Byte k of a word, little-endian. */
  function ByteOf(w: Word, k: nat): Byte {
    if k == 0 then Byte0(w) else if k == 1 then Byte1(w) else if k == 2 then Byte2(w) else Byte3(w)
  }

  function Join4(b0: Byte, b1: Byte, b2: Byte, b3: Byte): Word {
    (b0 as bv32) | ((b1 as bv32) << 8) | ((b2 as bv32) << 16) | ((b3 as bv32) << 24)
  }

  function Join2(b0: Byte, b1: Byte): Word { (b0 as bv32) | ((b1 as bv32) << 8) }

  function Join1(b0: Byte): Word { b0 as bv32 }

  /** The masked updates and reads of memory.c. */
  function SetLowHalf(w: Word, d: Word): Word { (w & 0xffff0000) | (d & 0x0000ffff) }
  function SetHighHalf(w: Word, d: Word): Word { (w & 0x0000ffff) | (d << 16) }
  function SetByte0(w: Word, d: Word): Word { (w & 0xffffff00) | (d & 0xff) }
  function SetByte1(w: Word, d: Word): Word { (w & 0xffff00ff) | ((d & 0xff) << 8) }
  function SetByte2(w: Word, d: Word): Word { (w & 0xff00ffff) | ((d & 0xff) << 16) }
  function SetByte3(w: Word, d: Word): Word { (w & 0x00ffffff) | ((d & 0xff) << 24) }
  function LowHalf(w: Word): Word { w & 0xffff }
  function HighHalf(w: Word): Word { (w >> 16) & 0xffff }
  function Read0(w: Word): Word { w & 0xff }
  function Read1(w: Word): Word { (w >> 8) & 0xff }
  function Read2(w: Word): Word { (w >> 16) & 0xff }
  function Read3(w: Word): Word { (w >> 24) & 0xff }

  predicate SameByteBits(a: Byte, b: Byte) { a ^ b == 0 }
  predicate SameWordBits(a: Word, b: Word) { a ^ b == 0 }

  lemma SameByte(a: Byte, b: Byte)
    requires SameByteBits(a, b)
    ensures a == b
  {
  }

  lemma SameWord(a: Word, b: Word)
    requires SameWordBits(a, b)
    ensures a == b
  {
  }

  ghost predicate LowBits(r: Word, d0: Byte, d1: Byte) {
    SameByteBits(Byte0(r), d0) && SameByteBits(Byte1(r), d1)
  }

  ghost predicate HighBits(r: Word, d2: Byte, d3: Byte) {
    SameByteBits(Byte2(r), d2) && SameByteBits(Byte3(r), d3)
  }

  predicate UpperSame(r: Word, w: Word) { (r ^ w) & 0xffff0000 == 0 }

  lemma UpperByte2(r: Word, w: Word)
    requires UpperSame(r, w)
    ensures SameByteBits(Byte2(r), Byte2(w))
  {
  }

  lemma UpperByte3(r: Word, w: Word)
    requires UpperSame(r, w)
    ensures SameByteBits(Byte3(r), Byte3(w))
  {
  }

  lemma UpperHighBits(r: Word, w: Word)
    requires UpperSame(r, w)
    ensures HighBits(r, Byte2(w), Byte3(w))
  {
    hide UpperSame, SameByteBits, Byte2, Byte3;
    UpperByte2(r, w);
    UpperByte3(r, w);
  }

  /** The bytes of r, least significant first. */
  ghost predicate HasBytes(r: Word, d0: Byte, d1: Byte, d2: Byte, d3: Byte) {
    ByteOf(r, 0) == d0 && ByteOf(r, 1) == d1 && ByteOf(r, 2) == d2 && ByteOf(r, 3) == d3
  }

  lemma FromBits(r: Word, d0: Byte, d1: Byte, d2: Byte, d3: Byte)
    requires LowBits(r, d0, d1) && HighBits(r, d2, d3)
    ensures HasBytes(r, d0, d1, d2, d3)
  {
    hide Byte0, Byte1, Byte2, Byte3, SameByteBits;
    SameByte(Byte0(r), d0);
    SameByte(Byte1(r), d1);
    SameByte(Byte2(r), d2);
    SameByte(Byte3(r), d3);
  }

  lemma SetLowHalfLowBits(w: Word, d: Word)
    ensures LowBits(SetLowHalf(w, d), Byte0(d), Byte1(d))
  {
  }

  lemma SetLowHalfHighBits(w: Word, d: Word)
    ensures UpperSame(SetLowHalf(w, d), w)
  {
  }

  lemma SetLowHalfBytes(w: Word, d: Word)
    ensures HasBytes(SetLowHalf(w, d), Byte0(d), Byte1(d), Byte2(w), Byte3(w))
  {
    hide *;
    SetLowHalfLowBits(w, d);
    SetLowHalfHighBits(w, d);
    UpperHighBits(SetLowHalf(w, d), w);
    FromBits(SetLowHalf(w, d), Byte0(d), Byte1(d), Byte2(w), Byte3(w));
  }

  lemma SetHighHalfLowBits(w: Word, d: Word)
    ensures LowBits(SetHighHalf(w, d), Byte0(w), Byte1(w))
  {
  }

  lemma SetHighHalfHighBits(w: Word, d: Word)
    ensures HighBits(SetHighHalf(w, d), Byte0(d), Byte1(d))
  {
  }

  lemma SetHighHalfBytes(w: Word, d: Word)
    ensures HasBytes(SetHighHalf(w, d), Byte0(w), Byte1(w), Byte0(d), Byte1(d))
  {
    hide *;
    SetHighHalfLowBits(w, d);
    SetHighHalfHighBits(w, d);
    FromBits(SetHighHalf(w, d), Byte0(w), Byte1(w), Byte0(d), Byte1(d));
  }

  lemma SetByte0LowBits(w: Word, d: Word)
    ensures LowBits(SetByte0(w, d), Byte0(d), Byte1(w))
  {
  }

  lemma SetByte0HighBits(w: Word, d: Word)
    ensures UpperSame(SetByte0(w, d), w)
  {
  }

  lemma SetByte0Bytes(w: Word, d: Word)
    ensures HasBytes(SetByte0(w, d), Byte0(d), Byte1(w), Byte2(w), Byte3(w))
  {
    hide *;
    SetByte0LowBits(w, d);
    SetByte0HighBits(w, d);
    UpperHighBits(SetByte0(w, d), w);
    FromBits(SetByte0(w, d), Byte0(d), Byte1(w), Byte2(w), Byte3(w));
  }

  lemma SetByte1LowBits(w: Word, d: Word)
    ensures LowBits(SetByte1(w, d), Byte0(w), Byte0(d))
  {
  }

  lemma SetByte1HighBits(w: Word, d: Word)
    ensures UpperSame(SetByte1(w, d), w)
  {
  }

  lemma SetByte1Bytes(w: Word, d: Word)
    ensures HasBytes(SetByte1(w, d), Byte0(w), Byte0(d), Byte2(w), Byte3(w))
  {
    hide *;
    SetByte1LowBits(w, d);
    SetByte1HighBits(w, d);
    UpperHighBits(SetByte1(w, d), w);
    FromBits(SetByte1(w, d), Byte0(w), Byte0(d), Byte2(w), Byte3(w));
  }

  lemma SetByte2LowBits(w: Word, d: Word)
    ensures LowBits(SetByte2(w, d), Byte0(w), Byte1(w))
  {
  }

  lemma SetByte2HighBits(w: Word, d: Word)
    ensures HighBits(SetByte2(w, d), Byte0(d), Byte3(w))
  {
  }

  lemma SetByte2Bytes(w: Word, d: Word)
    ensures HasBytes(SetByte2(w, d), Byte0(w), Byte1(w), Byte0(d), Byte3(w))
  {
    hide *;
    SetByte2LowBits(w, d);
    SetByte2HighBits(w, d);
    FromBits(SetByte2(w, d), Byte0(w), Byte1(w), Byte0(d), Byte3(w));
  }

  lemma SetByte3LowBits(w: Word, d: Word)
    ensures LowBits(SetByte3(w, d), Byte0(w), Byte1(w))
  {
  }

  lemma SetByte3HighBits(w: Word, d: Word)
    ensures HighBits(SetByte3(w, d), Byte2(w), Byte0(d))
  {
  }

  lemma SetByte3Bytes(w: Word, d: Word)
    ensures HasBytes(SetByte3(w, d), Byte0(w), Byte1(w), Byte2(w), Byte0(d))
  {
    hide *;
    SetByte3LowBits(w, d);
    SetByte3HighBits(w, d);
    FromBits(SetByte3(w, d), Byte0(w), Byte1(w), Byte2(w), Byte0(d));
  }

  lemma WordReadBits(w: Word)
    ensures SameWordBits(w, Join4(Byte0(w), Byte1(w), Byte2(w), Byte3(w)))
    ensures SameWordBits(LowHalf(w), Join2(Byte0(w), Byte1(w)))
    ensures SameWordBits(HighHalf(w), Join2(Byte2(w), Byte3(w)))
  {
  }

  lemma ByteReadBits(w: Word)
    ensures SameWordBits(Read0(w), Join1(Byte0(w))) && SameWordBits(Read1(w), Join1(Byte1(w)))
    ensures SameWordBits(Read2(w), Join1(Byte2(w))) && SameWordBits(Read3(w), Join1(Byte3(w)))
  {
  }

  /** A read of any width gives the bytes that it covers. */
  lemma ReadsJoin(w: Word)
    ensures w == Join4(Byte0(w), Byte1(w), Byte2(w), Byte3(w))
    ensures LowHalf(w) == Join2(Byte0(w), Byte1(w)) && HighHalf(w) == Join2(Byte2(w), Byte3(w))
    ensures Read0(w) == Join1(Byte0(w)) && Read1(w) == Join1(Byte1(w))
    ensures Read2(w) == Join1(Byte2(w)) && Read3(w) == Join1(Byte3(w))
  {
    hide *;
    WordReadBits(w);
    ByteReadBits(w);
    SameWord(w, Join4(Byte0(w), Byte1(w), Byte2(w), Byte3(w)));
    SameWord(LowHalf(w), Join2(Byte0(w), Byte1(w)));
    SameWord(HighHalf(w), Join2(Byte2(w), Byte3(w)));
    SameWord(Read0(w), Join1(Byte0(w)));
    SameWord(Read1(w), Join1(Byte1(w)));
    SameWord(Read2(w), Join1(Byte2(w)));
    SameWord(Read3(w), Join1(Byte3(w)));
  }

  // ---- Pages ----

  type Pages = map<nat, seq<Word>>

  const PAGE_WORDS: nat := 16384

  ghost predicate PagesOk(p: Pages) {
    forall k | k in p :: |p[k]| == PAGE_WORDS
  }

  /** (addr >> 16) & 0xffff and (addr >> 2) & 0x3fff */
  function PageNumber(addr: nat): nat { addr / 65536 }
  function Slot(addr: nat): (i: nat) ensures i < PAGE_WORDS { (addr / 4) % PAGE_WORDS }

  lemma SameSlot(a: nat, b: nat)
    ensures PageNumber(a) == PageNumber(b) && Slot(a) == Slot(b) <==> a / 4 == b / 4
  {
    assert a / 65536 == (a / 4) / PAGE_WORDS && b / 65536 == (b / 4) / PAGE_WORDS;
  }

  /** get_page: a page that is missing is allocated, zeroed. */
  function GetPage(p: Pages, addr: nat): (p': Pages)
    ensures PageNumber(addr) in p' && (PagesOk(p) ==> PagesOk(p'))
  {
    if PageNumber(addr) in p then p else p[PageNumber(addr) := seq(PAGE_WORDS, _ => 0)]
  }

  function WordAt(p: Pages, addr: nat): Word
    requires PagesOk(p)
  {
    if PageNumber(addr) in p then p[PageNumber(addr)][Slot(addr)] else 0
  }

  function SetWord(p: Pages, addr: nat, w: Word): (p': Pages)
    requires PagesOk(p)
    ensures PagesOk(p')
  {
    var q := GetPage(p, addr);
    q[PageNumber(addr) := q[PageNumber(addr)][Slot(addr) := w]]
  }

  /** Allocating a page changes no word, and writing a word changes that word alone. */
  lemma WordsKept(p: Pages, addr: nat, w: Word, b: nat)
    requires PagesOk(p)
    ensures WordAt(GetPage(p, addr), b) == WordAt(p, b)
    ensures WordAt(SetWord(p, addr, w), b) == if b / 4 == addr / 4 then w else WordAt(p, b)
  {
    SameSlot(addr, b);
  }

  // ---- Reads and writes of one, two or four bytes ----

  datatype Width = One | Two | Four

  function Bytes(width: Width): nat {
    match width case One => 1 case Two => 2 case Four => 4
  }

  /** Reads and writes that are not aligned stop the program. */
  predicate Aligned(addr: nat, width: Width) {
    match width case One => true case Two => addr % 4 == 0 || addr % 4 == 2 case Four => addr % 4 == 0
  }

  function NewWord(old_: Word, addr: nat, width: Width, data: Word): Word {
    match width
    case Four => data
    case Two => if addr % 4 < 2 then SetLowHalf(old_, data) else SetHighHalf(old_, data)
    case One =>
      if addr % 4 == 0 then SetByte0(old_, data)
      else if addr % 4 == 1 then SetByte1(old_, data)
      else if addr % 4 == 2 then SetByte2(old_, data)
      else SetByte3(old_, data)
  }

  function WordValue(w: Word, addr: nat, width: Width): Word {
    match width
    case Four => w
    case Two => if addr % 4 < 2 then LowHalf(w) else HighHalf(w)
    case One =>
      if addr % 4 == 0 then Read0(w)
      else if addr % 4 == 1 then Read1(w)
      else if addr % 4 == 2 then Read2(w)
      else Read3(w)
  }

  /** memory_wr_w, memory_wr_h and memory_wr_b at an aligned address. */
  function Write(p: Pages, addr: nat, width: Width, data: Word): (p': Pages)
    requires PagesOk(p)
    ensures PagesOk(p')
  {
    SetWord(p, addr, NewWord(WordAt(p, addr), addr, width, data))
  }

  /** memory_rd_w, memory_rd_h and memory_rd_b at an aligned address. */
  function Read(p: Pages, addr: nat, width: Width): (r: (Pages, Word))
    requires PagesOk(p)
    ensures PagesOk(r.0)
  {
    (GetPage(p, addr), WordValue(WordAt(p, addr), addr, width))
  }

  // ---- The flat memory ----

  type Flat = nat -> Byte

  function FlatRead(m: Flat, addr: nat, width: Width): Word {
    match width
    case One => Join1(m(addr))
    case Two => Join2(m(addr), m(addr + 1))
    case Four => Join4(m(addr), m(addr + 1), m(addr + 2), m(addr + 3))
  }

  function FlatWrite(m: Flat, addr: nat, width: Width, data: Word): Flat {
    (a: nat) => if addr <= a < addr + Bytes(width) then ByteOf(data, a - addr) else m(a)
  }

  function PagedByte(p: Pages, a: nat): Byte
    requires PagesOk(p)
  {
    ByteOf(WordAt(p, a), a % 4)
  }

  /** The pages hold the bytes of the flat memory. */
  ghost predicate Refines(p: Pages, m: Flat) {
    PagesOk(p) && forall a: nat :: PagedByte(p, a) == m(a)
  }

  /** What the bytes of the new word are. */
  lemma NewWordBytes(w: Word, addr: nat, width: Width, data: Word, k: nat)
    requires Aligned(addr, width) && k < 4
    ensures ByteOf(NewWord(w, addr, width, data), k)
         == if addr % 4 <= k < addr % 4 + Bytes(width) then ByteOf(data, k - addr % 4) else ByteOf(w, k)
  {
    hide SetLowHalf, SetHighHalf, SetByte0, SetByte1, SetByte2, SetByte3, Byte0, Byte1, Byte2, Byte3;
    match width
    case Four =>
    case Two =>
      if addr % 4 == 0 {
        SetLowHalfBytes(w, data);
      } else {
        SetHighHalfBytes(w, data);
      }
    case One =>
      if addr % 4 == 0 {
        SetByte0Bytes(w, data);
      } else if addr % 4 == 1 {
        SetByte1Bytes(w, data);
      } else if addr % 4 == 2 {
        SetByte2Bytes(w, data);
      } else {
        SetByte3Bytes(w, data);
      }
  }

  /** Writing refines writing. */
  lemma WriteRefines(p: Pages, m: Flat, addr: nat, width: Width, data: Word)
    requires Refines(p, m) && Aligned(addr, width)
    ensures Refines(Write(p, addr, width, data), FlatWrite(m, addr, width, data))
  {
    hide Write, FlatWrite, PagedByte, Aligned;
    var p', m' := Write(p, addr, width, data), FlatWrite(m, addr, width, data);
    forall a: nat ensures PagedByte(p', a) == m'(a) {
      assert PagedByte(p, a) == m(a);
      ByteWritten(p, m, addr, width, data, a);
    }
  }

  /** The bytes of an aligned access lie in one word. */
  lemma InOneWord(addr: nat, width: Width, a: nat)
    requires Aligned(addr, width)
    ensures addr <= a < addr + Bytes(width) <==> a / 4 == addr / 4 && addr % 4 <= a % 4 < addr % 4 + Bytes(width)
    ensures a / 4 == addr / 4 ==> a - addr == a % 4 - addr % 4
  {
    hide Aligned;
    OffsetInWord(addr, width);
  }

  lemma ByteWritten(p: Pages, m: Flat, addr: nat, width: Width, data: Word, a: nat)
    requires PagesOk(p) && PagedByte(p, a) == m(a) && Aligned(addr, width)
    ensures PagedByte(Write(p, addr, width, data), a) == FlatWrite(m, addr, width, data)(a)
  {
    hide NewWord, SetWord, ByteOf, WordAt, Aligned, Bytes;
    var w := NewWord(WordAt(p, addr), addr, width, data);
    WordsKept(p, addr, w, a);
    InOneWord(addr, width, a);
    if a / 4 == addr / 4 {
      SameWordAt(p, a, addr);
      NewWordBytes(WordAt(p, addr), addr, width, data, a % 4);
    }
  }

  lemma SameWordAt(p: Pages, a: nat, b: nat)
    requires PagesOk(p) && a / 4 == b / 4
    ensures WordAt(p, a) == WordAt(p, b)
  {
    SameSlot(a, b);
  }

  lemma ReadKeepsBytes(p: Pages, m: Flat, addr: nat, width: Width)
    requires Refines(p, m)
    ensures Refines(Read(p, addr, width).0, m)
  {
    hide WordAt, GetPage, ByteOf, WordValue;
    var q := Read(p, addr, width).0;
    forall a: nat ensures PagedByte(q, a) == m(a) {
      WordsKept(p, addr, 0, a);
      assert PagedByte(p, a) == m(a);
    }
  }

  /** Reading gives what the flat memory holds, and changes no byte. */
  lemma ReadRefines(p: Pages, m: Flat, addr: nat, width: Width)
    requires Refines(p, m) && Aligned(addr, width)
    ensures Read(p, addr, width).1 == FlatRead(m, addr, width) && Refines(Read(p, addr, width).0, m)
  {
    hide WordAt, GetPage, WordValue, ByteOf, Aligned, Join1, Join2, Join4, PagedByte;
    ReadKeepsBytes(p, m, addr, width);
    ValueOfBytes(WordAt(p, addr), addr, width);
    OffsetInWord(addr, width);
    ByteAt(p, m, addr, 0);
    if width != One {
      ByteAt(p, m, addr, 1);
    }
    if width == Four {
      ByteAt(p, m, addr, 2);
      ByteAt(p, m, addr, 3);
    }
  }

  lemma OffsetInWord(addr: nat, width: Width)
    requires Aligned(addr, width)
    ensures addr % 4 + Bytes(width) <= 4 && (width == Two ==> addr % 4 == 0 || addr % 4 == 2)
  {
  }

  /** Byte k of an access in one word. */
  lemma ByteAt(p: Pages, m: Flat, addr: nat, k: nat)
    requires Refines(p, m) && addr % 4 + k < 4
    ensures m(addr + k) == ByteOf(WordAt(p, addr), addr % 4 + k)
  {
    hide ByteOf, WordAt, PagesOk;
    assert PagedByte(p, addr + k) == m(addr + k);
    assert (addr + k) / 4 == addr / 4 && (addr + k) % 4 == addr % 4 + k;
    SameWordAt(p, addr + k, addr);
  }

  /** What an access reads from a word is made of the word's bytes. */
  lemma ValueOfBytes(w: Word, addr: nat, width: Width)
    requires Aligned(addr, width)
    ensures
      var v, o := WordValue(w, addr, width), addr % 4;
      match width
      case One => v == Join1(ByteOf(w, o))
      case Two => v == Join2(ByteOf(w, o), ByteOf(w, o + 1))
      case Four => v == Join4(ByteOf(w, o), ByteOf(w, o + 1), ByteOf(w, o + 2), ByteOf(w, o + 3))
  {
    hide LowHalf, HighHalf, Read0, Read1, Read2, Read3, Join1, Join2, Join4, Byte0, Byte1, Byte2, Byte3, Aligned;
    OffsetInWord(addr, width);
    ReadsJoin(w);
  }

  lemma EmptyRefinesZero()
    ensures Refines(map[], a => 0)
  {
    ZeroBytes();
    hide ByteOf;
  }

  lemma ZeroBytes()
    ensures ByteOf(0, 0) == 0 && ByteOf(0, 1) == 0 && ByteOf(0, 2) == 0 && ByteOf(0, 3) == 0
  {
  }

  // ---- Any sequence of accesses ----

  datatype Access = Load(addr: nat, width: Width) | Store(addr: nat, width: Width, data: Word)

  /** What a sequence of accesses reads, up to the first one that is not aligned. */
  function PagedTrace(p: Pages, accesses: seq<Access>): seq<Word>
    requires PagesOk(p)
    decreases |accesses|
  {
    if accesses == [] || !Aligned(accesses[0].addr, accesses[0].width) then [] else
    match accesses[0]
    case Load(addr, width) =>
      var (p', w) := Read(p, addr, width);
      [w] + PagedTrace(p', accesses[1..])
    case Store(addr, width, data) => PagedTrace(Write(p, addr, width, data), accesses[1..])
  }

  function FlatTrace(m: Flat, accesses: seq<Access>): seq<Word>
    decreases |accesses|
  {
    if accesses == [] || !Aligned(accesses[0].addr, accesses[0].width) then [] else
    match accesses[0]
    case Load(addr, width) => [FlatRead(m, addr, width)] + FlatTrace(m, accesses[1..])
    case Store(addr, width, data) => FlatTrace(FlatWrite(m, addr, width, data), accesses[1..])
  }

  /** Every sequence of reads and writes of mixed widths reads the same from the pages as from the flat
      memory. */
  lemma {:induction false} TracesAgree(p: Pages, m: Flat, accesses: seq<Access>)
    requires Refines(p, m)
    ensures PagedTrace(p, accesses) == FlatTrace(m, accesses)
    decreases |accesses|
  {
    hide Read, Write, FlatRead, FlatWrite, Refines;
    PagesOfRefinement(p, m);
    if accesses != [] && Aligned(accesses[0].addr, accesses[0].width) {
      match accesses[0]
      case Load(addr, width) =>
        ReadRefines(p, m, addr, width);
        TracesAgree(Read(p, addr, width).0, m, accesses[1..]);
      case Store(addr, width, data) =>
        WriteRefines(p, m, addr, width, data);
        TracesAgree(Write(p, addr, width, data), FlatWrite(m, addr, width, data), accesses[1..]);
    }
  }

  /** struct memory. An access that is not aligned is refused, where the program exits. */
  class PagedMemory {
    var pages: Pages
    ghost var flat: Flat

    ghost predicate Valid()
      reads this
    {
      Refines(pages, flat)
    }

    /** memory_create. */
    constructor ()
      ensures Valid() && forall a: nat :: flat(a) == 0
    {
      pages, flat := map[], a => 0;
      new;
      EmptyRefinesZero();
    }

    method GetPageAt(addr: nat) returns (page: seq<Word>)
      requires PagesOk(pages)
      modifies this`pages
      ensures PagesOk(pages) && pages == GetPage(old(pages), addr) && page == pages[PageNumber(addr)]
    {
      if PageNumber(addr) !in pages {
        pages := pages[PageNumber(addr) := seq(PAGE_WORDS, _ => 0)];
      }
      page := pages[PageNumber(addr)];
    }

    method Store(addr: nat, width: Width, data: Word) returns (ok: bool)
      requires Valid()
      modifies this
      ensures Valid() && ok == Aligned(addr, width)
      ensures flat == if ok then FlatWrite(old(flat), addr, width, data) else old(flat)
    {
      hide NewWord, FlatWrite, Aligned;
      ok := Aligned(addr, width);
      if ok {
        WriteRefines(pages, flat, addr, width, data);
        ghost var was := pages;
        var page := GetPageAt(addr);
        WordsKept(was, addr, 0, addr);
        var index := (addr / 4) % PAGE_WORDS;
        pages := pages[PageNumber(addr) := page[index := NewWord(page[index], addr, width, data)]];
        flat := FlatWrite(flat, addr, width, data);
      }
    }

    method Load(addr: nat, width: Width) returns (ok: bool, w: Word)
      requires Valid()
      modifies this
      ensures Valid() && flat == old(flat) && ok == Aligned(addr, width)
      ensures ok ==> w == FlatRead(flat, addr, width)
    {
      hide WordValue, FlatRead, Refines, Aligned;
      ghost var was := pages;
      assert PagesOk(pages) by { PagesOfRefinement(pages, flat); }
      LoadKeeps(pages, flat, addr);
      var page := GetPageAt(addr);
      ok, w := Aligned(addr, width), 0;
      if ok {
        ReadRefines(was, flat, addr, width);
        WordsKept(was, addr, 0, addr);
        w := WordValue(page[(addr / 4) % PAGE_WORDS], addr, width);
      }
    }
  }

  lemma PagesOfRefinement(p: Pages, m: Flat)
    requires Refines(p, m)
    ensures PagesOk(p)
  {
  }

  lemma LoadKeeps(p: Pages, m: Flat, addr: nat)
    requires Refines(p, m)
    ensures PagesOk(p) && Refines(GetPage(p, addr), m)
  {
    ReadRefines(p, m, addr, One);
  }
}

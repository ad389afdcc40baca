/** The allocator for small blocks: one free list per size, linked through the blocks themselves, and
    the size of a live block in the word in front of its payload. Memory is a map from the addresses
    of words to their contents; pointers and ints are words of four bytes, and 0 is NULL. */
module Allocator {
  import opened Arith

  const WORD := 4
  const BLOCK_SIZE_STEP := 8
  const NUM_SIZES := 512
  const MIN_ALLOCATION := 100

  type Words = map<int, int>

  /** A block that has been carved from the heap, header word included. */
  datatype Block = Block(addr: int, size: int)

  // ---- The carved heap ----

  predicate BlockOk(b: Block) {
    0 < b.size && b.size % BLOCK_SIZE_STEP == 0 && b.size / BLOCK_SIZE_STEP < NUM_SIZES
  }

  /** The blocks follow each other without a gap from lo to hi. */
  ghost predicate Tiling(tiles: seq<Block>, lo: int, hi: int) {
    if tiles == [] then lo == hi
    else tiles[0].addr == lo && BlockOk(tiles[0]) && Tiling(tiles[1..], lo + tiles[0].size, hi)
  }

  lemma {:induction false} TileInside(tiles: seq<Block>, lo: int, hi: int, b: Block)
    requires Tiling(tiles, lo, hi) && b in tiles
    ensures lo <= b.addr && b.addr + b.size <= hi && BlockOk(b)
  {
    if b == tiles[0] {
      TilingBounds(tiles[1..], lo + tiles[0].size, hi);
    } else {
      TileInside(tiles[1..], lo + tiles[0].size, hi, b);
    }
  }

  lemma {:induction false} TilingBounds(tiles: seq<Block>, lo: int, hi: int)
    requires Tiling(tiles, lo, hi)
    ensures lo <= hi
  {
    if tiles != [] {
      TilingBounds(tiles[1..], lo + tiles[0].size, hi);
    }
  }

  /** Two blocks are the same or do not overlap. */
  lemma {:induction false} TilesApart(tiles: seq<Block>, lo: int, hi: int, b: Block, c: Block)
    requires Tiling(tiles, lo, hi) && b in tiles && c in tiles
    ensures b == c || b.addr + b.size <= c.addr || c.addr + c.size <= b.addr
  {
    var rest := tiles[1..];
    if b == tiles[0] && c != tiles[0] {
      TileInside(rest, lo + tiles[0].size, hi, c);
    } else if c == tiles[0] && b != tiles[0] {
      TileInside(rest, lo + tiles[0].size, hi, b);
    } else if b != tiles[0] {
      TilesApart(rest, lo + tiles[0].size, hi, b, c);
    }
  }

  /** Every address of the carved heap is in some block. */
  lemma {:induction false} TilesCover(tiles: seq<Block>, lo: int, hi: int, x: int) returns (b: Block)
    requires Tiling(tiles, lo, hi) && lo <= x < hi
    ensures b in tiles && b.addr <= x < b.addr + b.size
  {
    if x < lo + tiles[0].size {
      b := tiles[0];
    } else {
      b := TilesCover(tiles[1..], lo + tiles[0].size, hi, x);
    }
  }

  lemma {:induction false} TilingConcat(a: seq<Block>, b: seq<Block>, lo: int, mid: int, hi: int)
    requires Tiling(a, lo, mid) && Tiling(b, mid, hi)
    ensures Tiling(a + b, lo, hi)
  {
    if a == [] {
      assert a + b == b;
    } else {
      TilingConcat(a[1..], b, lo + a[0].size, mid, hi);
      assert (a + b)[1..] == a[1..] + b;
    }
  }

  // ---- Free lists ----

  /** Following the links from a head visits exactly these addresses and ends at NULL. */
  ghost predicate Chain(mem: Words, head: int, list: seq<int>)
    decreases list
  {
    if list == [] then head == 0
    else head == list[0] && head != 0 && head in mem && Chain(mem, mem[head], list[1..])
  }

  ghost predicate NoDup(list: seq<int>) {
    forall i, j | 0 <= i < j < |list| :: list[i] != list[j]
  }

  lemma {:induction false} ChainFrame(mem: Words, head: int, list: seq<int>, x: int, v: int)
    requires Chain(mem, head, list) && x !in list
    ensures Chain(mem[x := v], head, list)
    decreases list
  {
    if list != [] {
      ChainFrame(mem, mem[head], list[1..], x, v);
    }
  }

  /** A free list of one size: acyclic, and made of blocks of that size. */
  ghost predicate ListOk(mem: Words, head: int, list: seq<int>, k: nat, tiles: seq<Block>) {
    && Chain(mem, head, list) && NoDup(list)
    && forall a | a in list :: Block(a, BLOCK_SIZE_STEP * k) in tiles
  }

  /** What the allocator owns: the tiles, the live blocks with their sizes and the free lists. */
  datatype Book = Book(tiles: seq<Block>, live: map<int, int>, lists: seq<seq<int>>)

  ghost predicate IsFree(book: Book, b: Block)
    requires |book.lists| == NUM_SIZES && BlockOk(b)
  {
    b.addr in book.lists[b.size / BLOCK_SIZE_STEP]
  }

  predicate IsLive(book: Book, b: Block) {
    b.addr in book.live && book.live[b.addr] == b.size
  }

  /** Each block of the tiling is live or on its free list, and not both; nothing else is either. */
  ghost predicate BookOk(book: Book, lo: int, hi: int) {
    && |book.lists| == NUM_SIZES && 0 < lo && lo % WORD == 0
    && Tiling(book.tiles, lo, hi)
    && (forall b | b in book.tiles :: BlockOk(b))
    && (forall a | a in book.live :: Block(a, book.live[a]) in book.tiles)
    && (forall b | b in book.tiles :: IsLive(book, b) <==> !IsFree(book, b))
  }

  ghost predicate MemOk(mem: Words, heads: seq<int>, book: Book)
    requires |book.lists| == NUM_SIZES
  {
    && |heads| == NUM_SIZES
    && (forall k | 0 <= k < NUM_SIZES :: ListOk(mem, heads[k], book.lists[k], k, book.tiles))
    && (forall a | a in book.live :: a in mem && mem[a] == book.live[a])
  }

  /** A word inside a payload shares no byte with the header or link of any block. */
  lemma ApartFromHeaders(book: Book, lo: int, hi: int, a: int, x: int, b: Block)
    requires BookOk(book, lo, hi) && a in book.live && a + WORD <= x && x + WORD <= a + book.live[a] && b in book.tiles
    ensures b.addr + WORD <= x || x + WORD <= b.addr
  {
    TilesApart(book.tiles, lo, hi, Block(a, book.live[a]), b);
    assert BlockOk(b);
  }

  /** Every block starts at a word. */
  lemma {:induction false} TilesAligned(tiles: seq<Block>, lo: int, hi: int, b: Block)
    requires Tiling(tiles, lo, hi) && b in tiles && lo % WORD == 0
    ensures b.addr % WORD == 0
  {
    if b != tiles[0] {
      EightIsTwoWords(lo, tiles[0].size);
      TilesAligned(tiles[1..], lo + tiles[0].size, hi, b);
    }
  }

  lemma LiveAligned(book: Book, lo: int, hi: int, memory: int)
    requires BookOk(book, lo, hi) && memory - WORD in book.live
    ensures memory % WORD == 0
  {
    var a := memory - WORD;
    TilesAligned(book.tiles, lo, hi, Block(a, book.live[a]));
    assert memory == WORD * (a / WORD + 1);
  }

  lemma EightIsTwoWords(lo: int, size: int)
    requires lo % WORD == 0 && size % BLOCK_SIZE_STEP == 0
    ensures (lo + size) % WORD == 0
  {
    assert lo == WORD * (lo / WORD) && size == BLOCK_SIZE_STEP * (size / BLOCK_SIZE_STEP);
    assert lo + size == WORD * (lo / WORD + 2 * (size / BLOCK_SIZE_STEP));
  }

  /** An address starts a block of one size at most. */
  lemma OneSize(book: Book, lo: int, hi: int, b: Block, c: Block)
    requires BookOk(book, lo, hi) && b in book.tiles && c in book.tiles && b.addr <= c.addr < b.addr + b.size
    ensures b == c
  {
    TilesApart(book.tiles, lo, hi, b, c);
    assert BlockOk(c);
  }

  lemma SizeClass(k: nat)
    requires 0 < k < NUM_SIZES
    ensures BlockOk(Block(0, BLOCK_SIZE_STEP * k)) && BLOCK_SIZE_STEP * k / BLOCK_SIZE_STEP == k
  {
  }

  /** The live and the free blocks partition the carved heap: every address is in exactly one block,
      and that block is either live or free. */
  lemma EveryAddressHasOneOwner(book: Book, lo: int, hi: int, x: int) returns (b: Block)
    requires BookOk(book, lo, hi) && lo <= x < hi
    ensures b in book.tiles && BlockOk(b) && b.addr <= x < b.addr + b.size
    ensures IsLive(book, b) != IsFree(book, b)
    ensures forall c | c in book.tiles && c.addr <= x < c.addr + c.size :: c == b
  {
    b := TilesCover(book.tiles, lo, hi, x);
    forall c | c in book.tiles && c.addr <= x < c.addr + c.size ensures c == b {
      TilesApart(book.tiles, lo, hi, b, c);
    }
  }

  // ---- Taking the first block of a list, and giving a block back ----

  function Unlinked(book: Book, k: nat): Book
    requires k < |book.lists| && book.lists[k] != []
  {
    var list := book.lists[k];
    book.(live := book.live[list[0] := BLOCK_SIZE_STEP * k], lists := book.lists[k := list[1..]])
  }

  function Released(book: Book, a: int): Book
    requires a in book.live && 0 <= book.live[a] / BLOCK_SIZE_STEP < |book.lists|
  {
    var k := book.live[a] / BLOCK_SIZE_STEP;
    book.(live := book.live - {a}, lists := book.lists[k := [a] + book.lists[k]])
  }

  /** Another list does not hold the first block of this one, and no live block is on it. */
  lemma FirstIsElsewhere(mem: Words, heads: seq<int>, book: Book, lo: int, hi: int, k: nat, a: int, j: nat)
    requires BookOk(book, lo, hi) && MemOk(mem, heads, book) && k < NUM_SIZES && j < NUM_SIZES
    requires Block(a, BLOCK_SIZE_STEP * k) in book.tiles && a in book.lists[j]
    ensures j == k && a !in book.live
  {
    var b, c := Block(a, BLOCK_SIZE_STEP * k), Block(a, BLOCK_SIZE_STEP * j);
    assert ListOk(mem, heads[j], book.lists[j], j, book.tiles);
    assert c in book.tiles && BlockOk(b) && BlockOk(c);
    OneSize(book, lo, hi, b, c);
    assert IsFree(book, b);
    if a in book.live {
      OneSize(book, lo, hi, b, Block(a, book.live[a]));
    }
  }

  /** Dropping the first block of a list keeps it a list; the others are not touched. */
  lemma UnlinkLists(mem: Words, heads: seq<int>, book: Book, lo: int, hi: int, k: nat, v: int)
    requires BookOk(book, lo, hi) && MemOk(mem, heads, book) && k < NUM_SIZES && book.lists[k] != []
    ensures heads[k] == book.lists[k][0] && heads[k] in mem
    ensures var book', heads' := Unlinked(book, k), heads[k := mem[heads[k]]];
      forall j | 0 <= j < NUM_SIZES :: ListOk(mem[heads[k] := v], heads'[j], book'.lists[j], j, book.tiles)
  {
    var a, list := heads[k], book.lists[k];
    assert ListOk(mem, heads[k], list, k, book.tiles);
    var heads', lists' := heads[k := mem[a]], Unlinked(book, k).lists;
    forall j | 0 <= j < NUM_SIZES ensures ListOk(mem[a := v], heads'[j], lists'[j], j, book.tiles) {
      assert ListOk(mem, heads[j], book.lists[j], j, book.tiles);
      if j == k {
        assert a !in list[1..];
        ChainFrame(mem, mem[a], list[1..], a, v);
      } else {
        if a in book.lists[j] {
          FirstIsElsewhere(mem, heads, book, lo, hi, k, a, j);
        }
        ChainFrame(mem, heads[j], book.lists[j], a, v);
      }
    }
  }

  lemma UnlinkBook(mem: Words, heads: seq<int>, book: Book, lo: int, hi: int, k: nat)
    requires BookOk(book, lo, hi) && MemOk(mem, heads, book) && k < NUM_SIZES && book.lists[k] != []
    ensures BookOk(Unlinked(book, k), lo, hi)
    ensures book.lists[k][0] !in book.live && Block(book.lists[k][0], BLOCK_SIZE_STEP * k) in book.tiles
  {
    var a, list, book' := book.lists[k][0], book.lists[k], Unlinked(book, k);
    assert ListOk(mem, heads[k], list, k, book.tiles);
    var first := Block(a, BLOCK_SIZE_STEP * k);
    assert a in list && first in book.tiles;
    FirstIsElsewhere(mem, heads, book, lo, hi, k, a, k);
    forall b | b in book.tiles ensures IsLive(book', b) <==> !IsFree(book', b) {
      if b.addr == a {
        OneSize(book, lo, hi, first, b);
        assert a !in list[1..];
      } else {
        var j := b.size / BLOCK_SIZE_STEP;
        assert BlockOk(b) && (IsLive(book, b) <==> !IsFree(book, b));
        if j == k {
          assert list == [a] + list[1..];
        }
      }
    }
  }

  /** Putting a live block on its list. */
  lemma ReleaseLists(mem: Words, heads: seq<int>, book: Book, lo: int, hi: int, a: int)
    requires BookOk(book, lo, hi) && MemOk(mem, heads, book) && a in book.live
    ensures 0 <= book.live[a] / BLOCK_SIZE_STEP < NUM_SIZES
    ensures var k := book.live[a] / BLOCK_SIZE_STEP;
      var mem', heads', book' := mem[a := heads[k]], heads[k := a], Released(book, a);
      forall j | 0 <= j < NUM_SIZES :: ListOk(mem', heads'[j], book'.lists[j], j, book.tiles)
  {
    var b := Block(a, book.live[a]);
    assert b in book.tiles && BlockOk(b);
    TileInside(book.tiles, lo, hi, b);
    var k := book.live[a] / BLOCK_SIZE_STEP;
    assert BLOCK_SIZE_STEP * k == book.live[a];
    var mem', heads', lists' := mem[a := heads[k]], heads[k := a], Released(book, a).lists;
    forall j | 0 <= j < NUM_SIZES ensures ListOk(mem', heads'[j], lists'[j], j, book.tiles) {
      assert ListOk(mem, heads[j], book.lists[j], j, book.tiles);
      if a in book.lists[j] {
        FirstIsElsewhere(mem, heads, book, lo, hi, k, a, j);
      }
      ChainFrame(mem, heads[j], book.lists[j], a, heads[k]);
      if j == k {
        assert ([a] + book.lists[k])[1..] == book.lists[k];
      }
    }
  }

  lemma ReleaseBook(book: Book, lo: int, hi: int, a: int)
    requires BookOk(book, lo, hi) && a in book.live
    ensures 0 <= book.live[a] / BLOCK_SIZE_STEP < NUM_SIZES
    ensures BookOk(Released(book, a), lo, hi)
  {
    var freed := Block(a, book.live[a]);
    assert freed in book.tiles && BlockOk(freed);
    var book', k := Released(book, a), book.live[a] / BLOCK_SIZE_STEP;
    forall b | b in book.tiles ensures IsLive(book', b) <==> !IsFree(book', b) {
      assert BlockOk(b) && (IsLive(book, b) <==> !IsFree(book, b));
      if b.addr == a {
        OneSize(book, lo, hi, freed, b);
      }
    }
  }

  // ---- Carving a chunk ----

  function Addrs(tiles: seq<Block>): (list: seq<int>)
    ensures |list| == |tiles| && forall i | 0 <= i < |list| :: list[i] == tiles[i].addr
  {
    seq(|tiles|, i requires 0 <= i < |tiles| => tiles[i].addr)
  }

  /** New blocks of one size from lo to hi, linked in the order of their addresses. */
  ghost predicate NewRun(mem: Words, head: int, more: seq<Block>, size: int, lo: int, hi: int) {
    && Tiling(more, lo, hi) && (forall b | b in more :: b.size == size)
    && Chain(mem, head, Addrs(more))
  }

  /** The lists of the other sizes and the sizes of the live blocks. */
  ghost predicate OthersOk(mem: Words, heads: seq<int>, book: Book, num: nat)
    requires |book.lists| == NUM_SIZES
  {
    && |heads| == NUM_SIZES
    && (forall k | 0 <= k < NUM_SIZES && k != num :: ListOk(mem, heads[k], book.lists[k], k, book.tiles))
    && (forall a | a in book.live :: a in mem && mem[a] == book.live[a])
  }

  lemma NothingNew(mem: Words, head: int, size: int, hi: int)
    requires head == 0
    ensures NewRun(mem, head, [], size, hi, hi)
  {
  }

  lemma AddrsCons(b: Block, more: seq<Block>)
    ensures Addrs([b] + more) == [b.addr] + Addrs(more) && Addrs([b] + more)[1..] == Addrs(more) && ([b] + more)[1..] == more
  {
  }

  lemma NewRunStep(mem: Words, head: int, more: seq<Block>, size: int, x: int, lo: int, hi: int)
    requires NewRun(mem, head, more, size, lo, hi) && x + size == lo && BlockOk(Block(x, size)) && x != 0
    ensures NewRun(mem[x := head], x, [Block(x, size)] + more, size, x, hi)
  {
    hide Addrs;
    var more' := [Block(x, size)] + more;
    AddrsCons(Block(x, size), more);
    forall a | a in Addrs(more) ensures a != x {
      var i :| 0 <= i < |more| && more[i].addr == a;
      TileInside(more, lo, hi, more[i]);
    }
    ChainFrame(mem, head, Addrs(more), x, head);
  }

  lemma OthersStep(mem: Words, heads: seq<int>, book: Book, lo: int, hi: int, num: nat, x: int, v: int)
    requires BookOk(book, lo, hi) && OthersOk(mem, heads, book, num) && num < NUM_SIZES && hi <= x
    ensures OthersOk(mem[x := v], heads[num := x], book, num)
  {
    forall b | b in book.tiles ensures b.addr != x {
      TileInside(book.tiles, lo, hi, b);
    }
    forall k | 0 <= k < NUM_SIZES && k != num
      ensures ListOk(mem[x := v], heads[num := x][k], book.lists[k], k, book.tiles)
    {
      assert ListOk(mem, heads[k], book.lists[k], k, book.tiles);
      assert Block(x, BLOCK_SIZE_STEP * k) !in book.tiles;
      ChainFrame(mem, heads[k], book.lists[k], x, v);
    }
    forall a | a in book.live ensures a != x {
      assert Block(a, book.live[a]) in book.tiles;
    }
  }

  lemma {:induction false} AddrsAscend(tiles: seq<Block>, lo: int, hi: int, i: nat, j: nat)
    requires Tiling(tiles, lo, hi) && i < j < |tiles|
    ensures tiles[i].addr < tiles[j].addr
  {
    if i == 0 {
      TileInside(tiles[1..], lo + tiles[0].size, hi, tiles[1..][j - 1]);
    } else {
      AddrsAscend(tiles[1..], lo + tiles[0].size, hi, i - 1, j - 1);
    }
  }

  lemma CarveStart(mem: Words, heads: seq<int>, book: Book, lo: int, hi: int, num: nat, size: int)
    requires BookOk(book, lo, hi) && MemOk(mem, heads, book) && 0 < num < NUM_SIZES && heads[num] == 0
    requires size == BLOCK_SIZE_STEP * num
    ensures |book.lists| == NUM_SIZES && OthersOk(mem, heads, book, num) && 0 < hi
    ensures BlockOk(Block(0, size)) && forall end :: NewRun(mem, heads[num], [], size, end, end)
  {
    TilingBounds(book.tiles, lo, hi);
    SizeClass(num);
  }

  function Carved(book: Book, num: nat, more: seq<Block>): Book
    requires num < |book.lists|
  {
    book.(tiles := book.tiles + more, lists := book.lists[num := Addrs(more)])
  }

  lemma CarveBook(mem: Words, head: int, book: Book, lo: int, mid: int, hi: int, num: nat, more: seq<Block>)
    requires BookOk(book, lo, mid) && 0 < num < NUM_SIZES && book.lists[num] == []
    requires NewRun(mem, head, more, BLOCK_SIZE_STEP * num, mid, hi)
    ensures BookOk(Carved(book, num, more), lo, hi)
  {
    var book' := Carved(book, num, more);
    TilingConcat(book.tiles, more, lo, mid, hi);
    SizeClass(num);
    forall b | b in book'.tiles ensures BlockOk(b) {
      if b in more {
        TileInside(more, mid, hi, b);
      }
    }
    forall b | b in book'.tiles ensures IsLive(book', b) <==> !IsFree(book', b) {
      if b in more {
        var i :| 0 <= i < |more| && more[i] == b;
        assert Addrs(more)[i] == b.addr;
        TileInside(more, mid, hi, b);
        if b.addr in book.live {
          TileInside(book.tiles, lo, mid, Block(b.addr, book.live[b.addr]));
        }
      } else {
        TileInside(book.tiles, lo, mid, b);
        assert IsLive(book, b) <==> !IsFree(book, b);
        if b.addr in Addrs(more) {
          var i :| 0 <= i < |more| && more[i].addr == b.addr;
          TileInside(more, mid, hi, more[i]);
        }
      }
    }
  }

  lemma CarveMem(mem: Words, heads: seq<int>, book: Book, mid: int, hi: int, num: nat, more: seq<Block>)
    requires |book.lists| == NUM_SIZES && OthersOk(mem, heads, book, num) && num < NUM_SIZES
    requires NewRun(mem, heads[num], more, BLOCK_SIZE_STEP * num, mid, hi)
    ensures MemOk(mem, heads, Carved(book, num, more))
  {
    var book' := Carved(book, num, more);
    forall k | 0 <= k < NUM_SIZES ensures ListOk(mem, heads[k], book'.lists[k], k, book'.tiles) {
      if k == num {
        forall i, j | 0 <= i < j < |more| ensures Addrs(more)[i] != Addrs(more)[j] {
          AddrsAscend(more, mid, hi, i, j);
        }
        forall a | a in Addrs(more) ensures Block(a, BLOCK_SIZE_STEP * k) in book'.tiles {
          var i :| 0 <= i < |more| && more[i].addr == a;
          assert more[i] in more && more[i] in book'.tiles;
        }
      } else {
        assert ListOk(mem, heads[k], book.lists[k], k, book.tiles);
      }
    }
  }

  // ---- The allocator ----

  /** The size of a block that has room for so many bytes: with the header word, and rounded up. */
  function BlockSize(size: nat): nat {
    var total := size + 4;
    if total % BLOCK_SIZE_STEP == 0 then total else total - total % BLOCK_SIZE_STEP + BLOCK_SIZE_STEP
  }

  /** The room a block takes is the least multiple of 8 that holds the payload and the header. */
  lemma BlockSizeIsLeast(size: nat, k: nat)
    ensures BlockSize(size) % 8 == 0 && size + 4 <= BlockSize(size)
    ensures k % 8 == 0 && size + 4 <= k ==> BlockSize(size) <= k
  {
    var total := size + 4;
    var q, r := total / 8, total % 8;
    assert total == 8 * q + r;
    assert BlockSize(size) == (if r == 0 then 8 * q else 8 * (q + 1));
    assert k % 8 == 0 ==> k == 8 * (k / 8);
  }

  /** The sizes that are small enough. */
  lemma SmallSizes(size: nat)
    ensures BlockSize(size) / BLOCK_SIZE_STEP < NUM_SIZES <==> size <= 4084
  {
    BlockSizeIsLeast(size, 4088);
    BlockSizeIsLeast(size, 4096);
    assert BlockSize(size) == 8 * (BlockSize(size) / 8);
  }

  /** n times size, by repeated addition. */
  ghost function Times(n: nat, size: nat): nat {
    if n == 0 then 0 else size + Times(n - 1, size)
  }

  lemma TimesStep(n: nat, size: nat)
    ensures if n == 0 then Times(n, size) == 0 else Times(n, size) == size + Times(n - 1, size)
  {
  }

  lemma {:induction false} TimesIsProduct(n: nat, size: nat)
    ensures Times(n, size) == n * size
  {
    if n > 0 {
      TimesIsProduct(n - 1, size);
    }
  }

  /** How much to carve at once: ten blocks, or as many as fit the minimum. */
  method ChunkBytes(size: nat) returns (allocation: nat, ghost n: nat)
    requires 0 < size
    ensures 0 < n && allocation == Times(n, size)
    ensures n == if size < 10 then 100 / size else 10
    ensures size == 8 ==> allocation == 96
    ensures size >= 10 ==> allocation == 10 * size
  {
    allocation, n := size * 10, 10;
    if allocation < MIN_ALLOCATION {
      var numChunks := MIN_ALLOCATION / size;
      allocation, n := numChunks * size, numChunks;
    }
    TimesIsProduct(n, size);
  }

  datatype Op = Alloc(size: int) | Free(n: nat) | Put(n: nat, offset: int, v: int)

  /** The payload pointers that a client holds are those of the live blocks, each once. */
  ghost predicate Handles(blocks: seq<int>, live: map<int, int>) {
    NoDup(blocks) && forall m :: m in blocks <==> m - 4 in live
  }

  lemma HandleAdded(blocks: seq<int>, live: map<int, int>, m: int, size: int)
    requires Handles(blocks, live) && m - 4 !in live
    ensures Handles(blocks + [m], live[m - 4 := size])
  {
    assert m !in blocks;
    forall x ensures x in blocks + [m] <==> x - 4 in live[m - 4 := size] {
      assert x in blocks + [m] <==> x in blocks || x == m;
    }
  }

  lemma HandleDropped(blocks: seq<int>, live: map<int, int>, n: nat)
    requires Handles(blocks, live) && n < |blocks|
    ensures blocks[n] - 4 in live && Handles(blocks[..n] + blocks[n + 1..], live - {blocks[n] - 4})
  {
    var rest := blocks[..n] + blocks[n + 1..];
    Without(blocks, n);
    assert blocks[n] in blocks;
    forall x ensures x in rest <==> x - 4 in live - {blocks[n] - 4} {
      assert x in rest <==> x in blocks && x != blocks[n];
    }
  }

  /** A list without its n-th element. */
  lemma Without(blocks: seq<int>, n: nat)
    requires NoDup(blocks) && n < |blocks|
    ensures var rest := blocks[..n] + blocks[n + 1..];
      NoDup(rest) && forall x :: x in rest <==> x in blocks && x != blocks[n]
  {
    var rest := blocks[..n] + blocks[n + 1..];
    assert forall i | 0 <= i < |rest| :: rest[i] == blocks[if i < n then i else i + 1];
    forall x | x in rest ensures x in blocks && x != blocks[n] {
      var i :| 0 <= i < |rest| && rest[i] == x;
    }
    forall x | x in blocks && x != blocks[n] ensures x in rest {
      var i :| 0 <= i < |blocks| && blocks[i] == x;
      assert rest[if i < n then i else i - 1] == x;
    }
  }

  predicate WordOf(live: map<int, int>, a: int, x: int) {
    a in live && a <= x < a + live[a]
  }

  /** No word of a live block has changed. */
  ghost predicate SameLive(live: map<int, int>, mem: Words, mem': Words) {
    forall a, x | WordOf(live, a, x) && x in mem :: x in mem' && mem'[x] == mem[x]
  }

  class Heap {
    var mem: Words
    var headers: array<int>
    var freeSpace: int
    var initialized: bool
    ghost var start: int
    ghost var book: Book

    /** Between calls. Before the first call the headers mean nothing. */
    ghost predicate Valid()
      reads this, headers
    {
      && headers.Length == NUM_SIZES && BookOk(book, start, freeSpace)
      && (if initialized then MemOk(mem, headers[..], book)
          else book == Book([], map[], seq(NUM_SIZES, _ => [])))
    }

    /** init_heap. */
    constructor (heapStart: int, junk: array<int>)
      requires 0 < heapStart && heapStart % WORD == 0 && junk.Length == NUM_SIZES
      ensures Valid() && book.live == map[] && book.tiles == [] && start == heapStart && headers == junk
    {
      initialized := false;
      freeSpace, headers, mem := heapStart, junk, map[];
      start, book := heapStart, Book([], map[], seq(NUM_SIZES, _ => []));
    }

    /** The first call clears the headers. */
    method Initialize()
      requires Valid()
      modifies this`initialized, headers
      ensures Valid() && initialized
    {
      if !initialized {
        initialized := true;
        for j := 0 to NUM_SIZES
          invariant headers.Length == NUM_SIZES && forall i | 0 <= i < j :: headers[i] == 0
          invariant initialized
        {
          headers[j] := 0;
        }
        assert forall k | 0 <= k < NUM_SIZES :: ListOk(mem, headers[k], book.lists[k], k, book.tiles);
      }
    }

    /** Put one block of a new chunk in front of its list. */
    method Link(num: nat, size: int, at: int, ghost more: seq<Block>, ghost chunk: int)
      requires headers.Length == NUM_SIZES && num < NUM_SIZES && BookOk(book, start, chunk) && chunk <= at
      requires 0 < size && size == BLOCK_SIZE_STEP * num
      requires NewRun(mem, headers[num], more, size, at + size, freeSpace) && OthersOk(mem, headers[..], book, num)
      modifies this`mem, headers
      ensures mem == old(mem)[at := old(headers[num])]
      ensures NewRun(mem, headers[num], [Block(at, size)] + more, size, at, freeSpace)
      ensures OthersOk(mem, headers[..], book, num)
    {
      TilingBounds(book.tiles, start, chunk);
      NewRunStep(mem, headers[num], more, size, at, at + size, freeSpace);
      OthersStep(mem, headers[..], book, start, chunk, num, at, headers[num]);
      hide BookOk, NewRun, OthersOk;
      ghost var heads := headers[..];
      mem := mem[at := headers[num]];
      headers[num] := at;
      assert headers[..] == heads[num := at];
    }

    /** The loop over a new chunk of n blocks, from its end. */
    method Split(num: nat, size: int, chunk: int, allocation: nat, ghost n: nat) returns (ghost more: seq<Block>)
      requires headers.Length == NUM_SIZES && 0 < num < NUM_SIZES && size == BLOCK_SIZE_STEP * num
      requires BookOk(book, start, chunk) && OthersOk(mem, headers[..], book, num)
      requires freeSpace == chunk + allocation && allocation == Times(n, size)
      requires NewRun(mem, headers[num], [], size, freeSpace, freeSpace)
      modifies this`mem, headers
      ensures |more| == n && NewRun(mem, headers[num], more, size, chunk, freeSpace)
      ensures OthersOk(mem, headers[..], book, num)
      ensures forall x | x in old(mem) && x < chunk :: x in mem && mem[x] == old(mem[x])
    {
      assert |book.lists| == NUM_SIZES;
      hide BookOk, MemOk, NewRun, OthersOk, Addrs, Times;
      ghost var left := n;
      var endChunk := chunk + allocation - size;
      more := [];
      TimesStep(left, size);
      while endChunk >= chunk
        invariant endChunk + size - chunk == Times(left, size) && |more| + left == n && |book.lists| == NUM_SIZES
        invariant NewRun(mem, headers[num], more, size, endChunk + size, freeSpace)
        invariant OthersOk(mem, headers[..], book, num)
        invariant forall x | x in old(mem) && x < chunk :: x in mem && mem[x] == old(mem[x])
        decreases left
      {
        TimesStep(left, size);
        Link(num, size, endChunk, more, chunk);
        more := [Block(endChunk, size)] + more;
        left := left - 1;
        endChunk := endChunk - size;
      }
      TimesStep(left, size);
    }

    /** Split a new chunk into blocks and link them. */
    method Carve(num: nat, size: int)
      requires Valid() && initialized && 0 < num < NUM_SIZES && size == BLOCK_SIZE_STEP * num
      requires headers[num] == 0 && book.lists[num] == []
      modifies this`mem, this`freeSpace, this`book, headers
      ensures Valid() && book.live == old(book.live) && old(book.tiles) <= book.tiles
      ensures |book.lists[num]| == (if num == 1 then 12 else 10)
      ensures forall x | x in old(mem) && x < old(freeSpace) :: x in mem && mem[x] == old(mem[x])
    {
      CarveStart(mem, headers[..], book, start, freeSpace, num, size);
      var allocation, n := ChunkBytes(size);
      NothingNew(mem, headers[num], size, freeSpace + allocation);
      hide BookOk, MemOk, NewRun, OthersOk, Addrs, Times;
      assert |book.lists| == NUM_SIZES && n == (if num == 1 then 12 else 10);
      var chunk := freeSpace;
      freeSpace := chunk + allocation;
      ghost var more := Split(num, size, chunk, allocation, n);
      CarveBook(mem, headers[num], book, start, chunk, freeSpace, num, more);
      CarveMem(mem, headers[..], book, chunk, freeSpace, num, more);
      book := Carved(book, num, more);
      assert |Addrs(more)| == |more|;
    }

    /** Take the first block of a list and write its size into its header word. */
    method Unlink(num: nat, size: int) returns (memory: int)
      requires Valid() && initialized && 0 < num < NUM_SIZES && size == BLOCK_SIZE_STEP * num && book.lists[num] != []
      modifies this`mem, this`book, headers
      ensures Valid() && book == Unlinked(old(book), num)
      ensures memory - 4 == old(book.lists[num][0]) && memory - 4 !in old(book.live)
      ensures memory > 4 && mem == old(mem)[memory - 4 := size] && Block(memory - 4, size) in book.tiles
    {
      UnlinkLists(mem, headers[..], book, start, freeSpace, num, size);
      UnlinkBook(mem, headers[..], book, start, freeSpace, num);
      var block := headers[num];
      TileInside(book.tiles, start, freeSpace, Block(block, size));
      ghost var heads := headers[..];
      hide BookOk, ListOk;
      headers[num] := mem[block];
      assert headers[..] == heads[num := mem[block]];
      mem := mem[block := size];
      book := Unlinked(book, num);
      memory := block + 4;
    }

    /** Where a free block starts, or beyond the carved heap, there is no word of a live block. */
    lemma LiveWord(a: int, x: int)
      requires Valid() && WordOf(book.live, a, x)
      ensures x < freeSpace && forall b | b in book.tiles && b.addr == x :: x == a
    {
      var l := Block(a, book.live[a]);
      TileInside(book.tiles, start, freeSpace, l);
      forall b | b in book.tiles && b.addr == x ensures x == a {
        OneSize(book, start, freeSpace, l, b);
      }
    }

    lemma EmptyList(num: nat)
      requires Valid() && initialized && num < NUM_SIZES
      ensures |book.lists| == NUM_SIZES && (headers[num] == 0 <==> book.lists[num] == [])
    {
      assert ListOk(mem, headers[num], book.lists[num], num, book.tiles);
    }

    lemma LiveBelow()
      requires Valid() && initialized
      ensures forall a, x | WordOf(book.live, a, x) :: x < freeSpace
    {
      forall a, x | WordOf(book.live, a, x) ensures x < freeSpace {
        LiveWord(a, x);
      }
    }

    lemma FirstIsNotInside(num: nat)
      requires Valid() && initialized && num < NUM_SIZES && |book.lists| == NUM_SIZES && book.lists[num] != []
      ensures forall a, x | WordOf(book.live, a, x) && x == book.lists[num][0] :: x in book.live
    {
      forall a, x | WordOf(book.live, a, x) && x == book.lists[num][0] ensures x in book.live {
        LiveWord(a, x);
        assert ListOk(mem, headers[num], book.lists[num], num, book.tiles);
        assert Block(x, BLOCK_SIZE_STEP * num) in book.tiles;
      }
    }

    /** Take a block of one size, carving a chunk first when the list is empty. */
    method TakeBlock(num: nat, size: int) returns (memory: int)
      requires Valid() && initialized && 0 < num < NUM_SIZES && size == BLOCK_SIZE_STEP * num
      modifies this`mem, this`freeSpace, this`book, headers
      ensures Valid() && memory > 4 && memory - 4 !in old(book.live)
      ensures book.live == old(book.live)[memory - 4 := size]
      ensures old(book.lists)[num] != [] ==> memory == old(book.lists)[num][0] + 4
      ensures SameLive(old(book.live), old(mem), mem)
    {
      ghost var live, words := book.live, mem;
      EmptyList(num);
      LiveBelow();
      hide BookOk, MemOk;
      if headers[num] == 0 {
        Carve(num, size);
      }
      assert SameLive(live, words, mem);
      FirstIsNotInside(num);
      memory := Unlink(num, size);
    }

    /** Allocate a block with room for so many bytes. NULL is returned exactly when the size is not
        positive or too large; any other result is a block that was not live, with room enough, and
        no word of a live block changes. */
    method Allocate(size: int) returns (memory: int)
      requires Valid()
      modifies this, headers
      ensures Valid() && start == old(start) && headers == old(headers)
      ensures memory != 0 <==> 1 <= size <= 4084
      ensures memory == 0 ==> book.live == old(book.live)
      ensures memory != 0 ==>
        && memory - 4 !in old(book.live) && book.live == old(book.live)[memory - 4 := BlockSize(size)]
        && size <= BlockSize(size) - 4 && memory % WORD == 0
      ensures SameLive(old(book.live), old(mem), mem)
      ensures memory != 0 && old(initialized) && old(book.lists)[BlockSize(size) / BLOCK_SIZE_STEP] != [] ==>
        memory == old(book.lists)[BlockSize(size) / BLOCK_SIZE_STEP][0] + 4
    {
      Initialize();
      if size < 1 {
        return 0;
      }
      SmallSizes(size);
      var total := size + 4;
      var offset := total % BLOCK_SIZE_STEP;
      if offset != 0 {
        total := total - offset + BLOCK_SIZE_STEP;
      }
      var numSize := total / BLOCK_SIZE_STEP;
      if numSize >= NUM_SIZES {
        return 0;
      }
      memory := TakeBlock(numSize, total);
      LiveAligned(book, start, freeSpace, memory);
    }

    /** Give a live block back. */
    method Release(memory: int)
      requires Valid() && memory - 4 in book.live
      modifies this`mem, this`book, headers
      ensures Valid() && start == old(start) && headers == old(headers)
      ensures 0 <= old(book.live)[memory - 4] / BLOCK_SIZE_STEP < NUM_SIZES && book == Released(old(book), memory - 4)
      ensures forall x | x in old(mem) && x != memory - 4 :: x in mem && mem[x] == old(mem[x])
    {
      var chunk := memory - 4;
      ReleaseLists(mem, headers[..], book, start, freeSpace, chunk);
      ReleaseBook(book, start, freeSpace, chunk);
      hide BookOk, ListOk;
      var size := mem[chunk];
      var numSize := size / BLOCK_SIZE_STEP;
      ghost var heads := headers[..];
      mem := mem[chunk := headers[numSize]];
      headers[numSize] := chunk;
      assert headers[..] == heads[numSize := chunk];
      book := Released(book, chunk);
    }

    /** A client writes a word of the payload of a live block. */
    method Write(a: int, x: int, v: int)
      requires Valid() && a in book.live && x % WORD == 0 && a + WORD <= x && x + WORD <= a + book.live[a]
      modifies this`mem
      ensures Valid() && mem == old(mem)[x := v]
      ensures forall b | b in book.tiles :: b.addr + WORD <= x || x + WORD <= b.addr
    {
      forall b | b in book.tiles ensures b.addr + WORD <= x || x + WORD <= b.addr {
        ApartFromHeaders(book, start, freeSpace, a, x, b);
      }
      assert WordOf(book.live, a, x);
      LiveWord(a, x);
      forall k | 0 <= k < NUM_SIZES ensures ListOk(mem[x := v], headers[k], book.lists[k], k, book.tiles) {
        assert ListOk(mem, headers[k], book.lists[k], k, book.tiles);
        assert Block(x, BLOCK_SIZE_STEP * k) !in book.tiles;
        ChainFrame(mem, headers[k], book.lists[k], x, v);
      }
      forall c | c in book.live ensures c != x {
        assert Block(c, book.live[c]) in book.tiles;
      }
      mem := mem[x := v];
    }

    /** Any client: allocate, give back the i-th of the blocks it has, or write into one of them. */
    method Run(ops: seq<Op>) returns (blocks: seq<int>)
      requires Valid() && book.live == map[]
      modifies this, headers
      ensures Valid() && Handles(blocks, book.live)
    {
      hide BookOk;
      blocks := [];
      for i := 0 to |ops|
        invariant Valid() && headers == old(headers)
        invariant Handles(blocks, book.live)
      {
        match ops[i] {
          case Alloc(size) =>
            ghost var live := book.live;
            var m := Allocate(size);
            if m != 0 {
              HandleAdded(blocks, live, m, BlockSize(size));
              blocks := blocks + [m];
            }
          case Free(n) =>
            if n < |blocks| {
              HandleDropped(blocks, book.live, n);
              Release(blocks[n]);
              blocks := blocks[..n] + blocks[n + 1..];
            }
          case Put(n, offset, v) =>
            if n < |blocks| {
              assert blocks[n] in blocks;
              assert blocks[n] - 4 in mem && mem[blocks[n] - 4] == book.live[blocks[n] - 4];
              if offset >= 0 && (blocks[n] + offset) % WORD == 0 && offset + WORD <= mem[blocks[n] - 4] - 4 {
                Write(blocks[n] - 4, blocks[n] + offset, v);
              }
            }
        }
      }
    }

    /** A block that is given back is the next one handed out for its size. */
    method ReleaseThenAllocate(memory: int, size: int) returns (again: int)
      requires Valid() && memory - 4 in book.live && 1 <= size && book.live[memory - 4] == BlockSize(size)
      modifies this, headers
      ensures Valid() && again == memory && book.live == old(book.live)
    {
      Release(memory);
      again := Allocate(size);
    }
  }
}

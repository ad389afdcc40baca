/** Sending a file as numbered, hashed blocks, and putting it together again. The hash function is a
    parameter; the connection is a sequence of bytes that short writes and reads move piecewise. */
module BlockTransfer {
  import opened Bits

  type Byte = b: int | 0 <= b < 256

  type Hash = seq<Byte> -> seq<Byte>

  const HASH_SIZE := 32
  const REPLY_HEADER_LEN := 80
  const MAX_MSG_LEN := 8196
  const BLOCK_DATA := 8116
  const STATUS_OK := 1
  const TWO32: nat := 0x1_0000_0000

  ghost predicate IsHash(hash: Hash) {
    forall s: seq<Byte> :: |hash(s)| == HASH_SIZE
  }

  // ---- The reply header ----

  /** htobe32 */
  function Big32(n: nat): (s: seq<Byte>)
    requires n < TWO32
    ensures |s| == 4
  {
    [n / 0x100 / 0x100 / 0x100, n / 0x100 / 0x100 % 0x100, n / 0x100 % 0x100, n % 0x100]
  }

  /** be32toh */
  function FromBig32(s: seq<Byte>): (n: nat)
    requires |s| == 4
    ensures n < TWO32
  {
    var (a: int, b: int, c: int, d: int) := (s[0], s[1], s[2], s[3]);
    ((a * 0x100 + b) * 0x100 + c) * 0x100 + d
  }

  lemma Big32RoundTrip(n: nat)
    requires n < TWO32
    ensures FromBig32(Big32(n)) == n
  {
  }

  datatype Header = Header(length: nat, status: nat, block: nat, count: nat, blockHash: seq<Byte>, totalHash: seq<Byte>)

  predicate HeaderOk(h: Header) {
    && h.length < TWO32 && h.status < TWO32 && h.block < TWO32 && h.count < TWO32
    && |h.blockHash| == HASH_SIZE && |h.totalHash| == HASH_SIZE
  }

  /** add_response_header */
  function EncodeHeader(h: Header): (s: seq<Byte>)
    requires HeaderOk(h)
    ensures |s| == REPLY_HEADER_LEN
  {
    Big32(h.length) + Big32(h.status) + Big32(h.block) + Big32(h.count) + h.blockHash + h.totalHash
  }

  function DecodeHeader(s: seq<Byte>): (h: Header)
    requires |s| == REPLY_HEADER_LEN
    ensures HeaderOk(h)
  {
    Header(FromBig32(s[0..4]), FromBig32(s[4..8]), FromBig32(s[8..12]), FromBig32(s[12..16]), s[16..48], s[48..80])
  }

  /** Where the fields lie. */
  lemma HeaderFields(a: seq<Byte>, b: seq<Byte>, c: seq<Byte>, d: seq<Byte>, e: seq<Byte>, f: seq<Byte>)
    requires |a| == |b| == |c| == |d| == 4 && |e| == |f| == HASH_SIZE
    ensures var s := a + b + c + d + e + f;
      && |s| == REPLY_HEADER_LEN && s[0..4] == a && s[4..8] == b && s[8..12] == c && s[12..16] == d
      && s[16..48] == e && s[48..80] == f
  {
    var s := a + b + c + d + e + f;
    assert s == (a + b + c + d) + (e + f);
  }

  /** The layout in bytes: four numbers, each with its most significant byte first, then the hash of the block
      and the hash of the file. */
  lemma HeaderLayout(h: Header, k: nat)
    requires HeaderOk(h) && k < 4
    ensures
      var s, p := EncodeHeader(h), PowerOf256(3 - k);
      && s[k] == h.length / p % 256 && s[4 + k] == h.status / p % 256
      && s[8 + k] == h.block / p % 256 && s[12 + k] == h.count / p % 256
      && s[16..48] == h.blockHash && s[48..80] == h.totalHash
  {
    hide Big32;
    var (a, b, c, d) := (Big32(h.length), Big32(h.status), Big32(h.block), Big32(h.count));
    HeaderFields(a, b, c, d, h.blockHash, h.totalHash);
    var s := EncodeHeader(h);
    assert s[k] == s[0..4][k] && s[4 + k] == s[4..8][k] && s[8 + k] == s[8..12][k] && s[12 + k] == s[12..16][k];
    BigByte(h.length, k);
    BigByte(h.status, k);
    BigByte(h.block, k);
    BigByte(h.count, k);
  }

  function PowerOf256(k: nat): (p: nat)
    ensures p > 0
  {
    if k == 0 then 1 else 256 * PowerOf256(k - 1)
  }

  lemma BigByte(n: nat, k: nat)
    requires n < TWO32 && k < 4
    ensures Big32(n)[k] == n / PowerOf256(3 - k) % 256
  {
    assert PowerOf256(1) == 256 && PowerOf256(2) == 0x1_0000 && PowerOf256(3) == 0x100_0000;
    DivideTwice(n, 256, 256);
    DivideTwice(n, 0x1_0000, 256);
  }

  lemma HeaderRoundTrip(h: Header)
    requires HeaderOk(h)
    ensures DecodeHeader(EncodeHeader(h)) == h
  {
    hide Big32, FromBig32;
    var (a, b, c, d) := (Big32(h.length), Big32(h.status), Big32(h.block), Big32(h.count));
    HeaderFields(a, b, c, d, h.blockHash, h.totalHash);
    Big32RoundTrip(h.length);
    Big32RoundTrip(h.status);
    Big32RoundTrip(h.block);
    Big32RoundTrip(h.count);
  }

  // ---- The sender ----

  /** The number of blocks: the length divided by the size of a message, rounded up. */
  function Blocks(n: nat): nat {
    (n + MAX_MSG_LEN - 1) / MAX_MSG_LEN
  }

  // ---- The number of blocks in single precision ----

  const TWO24: int := 0x100_0000

  /** What is used of rounding to a 24-bit significand. */
  ghost predicate RoundsToSingle(round: real -> real) {
    && (forall x, y | x <= y :: round(x) <= round(y))
    && (forall x: real | 0.0 <= x <= 16777216.0 && x == x.Floor as real :: round(x) == x)
    && (forall x: real | 1.0 / 8196.0 <= x :: x - x / 16777216.0 <= round(x))
  }

  function Ceil(x: real): int {
    -(-x).Floor
  }

  /** Below 2^24 bytes, dividing and rounding in single precision gives the exact ceiling. */
  lemma SinglePrecisionBlocks(round: real -> real, n: nat)
    requires RoundsToSingle(round) && 0 < n < TWO24
    ensures Ceil(round(round(n as real) / round(MAX_MSG_LEN as real))) == Blocks(n)
  {
    var k := Blocks(n);
    BlocksBounds(n);
    assert round(n as real) == n as real && round(MAX_MSG_LEN as real) == 8196.0 && round(k as real) == k as real;
    var q := n as real / 8196.0;
    QuotientBounds(n, k, q);
    assert round(q) <= round(k as real);
    CeilIs(round(q), k);
  }

  lemma BlocksBounds(n: nat)
    requires 0 < n < TWO24
    ensures MAX_MSG_LEN * (Blocks(n) - 1) < n <= MAX_MSG_LEN * Blocks(n) && Blocks(n) <= TWO24
  {
  }

  lemma QuotientBounds(n: nat, k: nat, q: real)
    requires q == n as real / 8196.0 && 0 < n < TWO24 && MAX_MSG_LEN * (k - 1) < n <= MAX_MSG_LEN * k
    ensures 1.0 / 8196.0 <= q <= k as real && q - q / 16777216.0 > (k - 1) as real
  {
    assert (MAX_MSG_LEN * (k - 1) + 1) as real <= n as real <= (MAX_MSG_LEN * k) as real;
  }

  lemma CeilIs(x: real, k: int)
    requires (k - 1) as real < x <= k as real
    ensures Ceil(x) == k
  {
  }

  /** Block i carries the next 8116 bytes, the last block all that is left. */
  function BlockLength(n: nat, i: nat): (k: nat)
    requires i < Blocks(n)
    ensures BLOCK_DATA * i + k <= n && (i < Blocks(n) - 1 ==> k == BLOCK_DATA)
    ensures i == Blocks(n) - 1 ==> BLOCK_DATA * i + k == n && k > 0
  {
    if i == Blocks(n) - 1 then n - BLOCK_DATA * i else BLOCK_DATA
  }

  function Zeros(): (s: seq<Byte>)
    ensures |s| == HASH_SIZE
  {
    seq(HASH_SIZE, _ => 0)
  }

  function Payload(data: seq<Byte>, i: nat): seq<Byte>
    requires i < Blocks(|data|)
  {
    data[BLOCK_DATA * i..BLOCK_DATA * i + BlockLength(|data|, i)]
  }

  function BlockHeader(hash: Hash, data: seq<Byte>, status: nat, i: nat): Header
    requires i < Blocks(|data|)
  {
    Header(BlockLength(|data|, i), status, i, Blocks(|data|), hash(Payload(data, i)), hash(data))
  }

  ghost predicate Sendable(hash: Hash, data: seq<Byte>, status: nat) {
    IsHash(hash) && |data| < TWO32 && status < TWO32
  }

  lemma BlockHeaderOk(hash: Hash, data: seq<Byte>, status: nat, i: nat)
    requires Sendable(hash, data, status) && i < Blocks(|data|)
    ensures HeaderOk(BlockHeader(hash, data, status, i))
  {
  }

  /** Blocks i and onwards as they go over the connection. */
  ghost function WireFrom(hash: Hash, data: seq<Byte>, status: nat, i: nat): seq<Byte>
    requires Sendable(hash, data, status) && i <= Blocks(|data|)
    decreases Blocks(|data|) - i
  {
    if i == Blocks(|data|) then []
    else
      BlockHeaderOk(hash, data, status, i);
      EncodeHeader(BlockHeader(hash, data, status, i)) + Payload(data, i) + WireFrom(hash, data, status, i + 1)
  }

  /** All that respond sends: the blocks, or for no data one header whose hashes are zero. */
  ghost function Wire(hash: Hash, data: seq<Byte>, status: nat): seq<Byte>
    requires Sendable(hash, data, status)
  {
    if data == [] then EncodeHeader(Header(0, status, 0, 1, Zeros(), Zeros()))
    else WireFrom(hash, data, status, 0)
  }

  // ---- The receiver ----

  datatype Reason = ReadFailed | Truncated | BadStatus(status: nat) | OutOfOrder | Overrun | BlockCorrupt | FileCorrupt

  datatype Result<T> = Ok(value: T) | Err(reason: Reason)

  /** The bytes of the last header, the file buffer with the offset it is filled to, and the bytes
      still to come. Memory the program has not written holds unspecified bytes. */
  datatype Receiver = Receiver(reply: seq<Byte>, file: seq<Byte>, offset: nat, wire: seq<Byte>) {
    predicate Valid() {
      |reply| == REPLY_HEADER_LEN && offset <= |file|
    }
  }

  function Least(a: nat, b: nat): nat {
    if a <= b then a else b
  }

  /** `s` written over `memory` at `at`. */
  function Overwrite(memory: seq<Byte>, at: nat, s: seq<Byte>): (r: seq<Byte>)
    requires at + |s| <= |memory|
    ensures |r| == |memory| && r[at..at + |s|] == s
    ensures forall i :: 0 <= i < at || at + |s| <= i < |memory| ==> r[i] == memory[i]
  {
    memory[..at] + s + memory[at + |s|..]
  }

  lemma OverwriteNothing(memory: seq<Byte>, at: nat)
    requires at <= |memory|
    ensures Overwrite(memory, at, []) == memory
  {
  }

  lemma OverwriteGrows(memory: seq<Byte>, at: nat, a: seq<Byte>, b: seq<Byte>)
    requires at + |a + b| <= |memory|
    ensures Overwrite(Overwrite(memory, at, a), at + |a|, b) == Overwrite(memory, at, a + b)
  {
  }

  /** A header is read over the previous one; an early end of the stream leaves the rest of it. */
  function ReadHeader(s: Receiver): (r: Result<Receiver>)
    requires s.Valid()
    ensures r.Ok? ==> r.value.Valid()
  {
    if |s.wire| == 0 then Err(Truncated)
    else
      var k := Least(REPLY_HEADER_LEN, |s.wire|);
      Ok(s.(reply := Overwrite(s.reply, 0, s.wire[..k]), wire := s.wire[k..]))
  }

  /** The checks on status and number, then the payload and its hash. */
  function ReadBlock(hash: Hash, s: Receiver, b: nat): (r: Result<Receiver>)
    requires s.Valid()
    ensures r.Ok? ==> r.value.Valid() && r.value.reply == s.reply && |r.value.file| == |s.file|
    ensures r.Ok? ==> r.value.file[..s.offset] == s.file[..s.offset]
  {
    var h := DecodeHeader(s.reply);
    if h.status != STATUS_OK then Err(BadStatus(h.status))
    else if h.block != b then Err(OutOfOrder)
    else if s.offset + h.length > |s.file| then Err(Overrun)
    else if h.length > 0 && |s.wire| == 0 then Err(Truncated)
    else
      var k := Least(h.length, |s.wire|);
      var file := Overwrite(s.file, s.offset, s.wire[..k]);
      if hash(file[s.offset..s.offset + h.length]) != h.blockHash then Err(BlockCorrupt)
      else Ok(s.(file := file, offset := s.offset + h.length, wire := s.wire[k..]))
  }

  function ReadRest(hash: Hash, s: Receiver, b: nat, count: nat): (r: Result<Receiver>)
    requires s.Valid()
    ensures r.Ok? ==> r.value.Valid()
    decreases count - b
  {
    if b >= count then Ok(s)
    else
      var header := ReadHeader(s);
      if header.Err? then header
      else
        var block := ReadBlock(hash, header.value, b);
        if block.Err? then block else ReadRest(hash, block.value, b + 1, count)
  }

  function Finish(hash: Hash, s: Receiver, total: seq<Byte>): Result<seq<Byte>>
    requires s.Valid()
  {
    if hash(s.file[..s.offset]) != total then Err(FileCorrupt) else Ok(s.file[..s.offset])
  }

  /** After block 0: the remaining blocks and the hash of the whole. */
  function Complete(hash: Hash, block: Result<Receiver>, h: Header): Result<seq<Byte>>
    requires block.Ok? ==> block.value.Valid()
  {
    if block.Err? then Err(block.reason)
    else
      var rest := ReadRest(hash, block.value, 1, h.count);
      if rest.Err? then Err(rest.reason) else Finish(hash, rest.value, h.totalHash)
  }

  function Unwritten(garbage: nat -> Byte, n: nat): (s: seq<Byte>)
    ensures |s| == n
  {
    seq(n, i requires 0 <= i => garbage(i))
  }

  /** The first header read, before there is a file buffer. */
  function FirstHeader(wire: seq<Byte>, garbage: nat -> Byte): (r: Result<Receiver>)
    ensures r.Ok? ==> r.value.Valid() && r.value.offset == 0
  {
    ReadHeader(Receiver(Unwritten(garbage, REPLY_HEADER_LEN), [], 0, wire))
  }

  /** The room of the file buffer, in 32 bits. */
  function Room(count: nat): nat {
    count * BLOCK_DATA % TWO32
  }

  /** receive_file_blocks: what is saved, or why nothing is. */
  function Receive(hash: Hash, wire: seq<Byte>, garbage: nat -> Byte): Result<seq<Byte>> {
    var first := FirstHeader(wire, garbage);
    if first.Err? then Err(first.reason)
    else
      var h := DecodeHeader(first.value.reply);
      Complete(hash, ReadBlock(hash, first.value.(file := Unwritten(garbage, Room(h.count))), 0), h)
  }

  // ---- What the sender sends, the receiver rebuilds ----

  /** The receiver is about to read block i, with all before it in place. */
  ghost predicate Ready(hash: Hash, data: seq<Byte>, status: nat, s: Receiver, i: nat)
    requires Sendable(hash, data, status) && i <= Blocks(|data|)
  {
    && s.Valid()
    && s.wire == WireFrom(hash, data, status, i)
    && s.offset <= |data| && s.file[..s.offset] == data[..s.offset]
    && s.offset == (if i == Blocks(|data|) then |data| else BLOCK_DATA * i)
  }

  lemma HeaderArrives(hash: Hash, data: seq<Byte>, status: nat, s: Receiver, i: nat)
    requires Sendable(hash, data, status) && i < Blocks(|data|)
    requires s.Valid() && s.wire == WireFrom(hash, data, status, i)
    ensures ReadHeader(s).Ok?
    ensures DecodeHeader(ReadHeader(s).value.reply) == BlockHeader(hash, data, status, i)
    ensures ReadHeader(s).value.wire == Payload(data, i) + WireFrom(hash, data, status, i + 1)
  {
    hide EncodeHeader, DecodeHeader, BlockHeader, Payload;
    BlockHeaderOk(hash, data, status, i);
    var h := BlockHeader(hash, data, status, i);
    var code, rest := EncodeHeader(h), Payload(data, i) + WireFrom(hash, data, status, i + 1);
    assert s.wire == code + rest;
    assert s.wire[..REPLY_HEADER_LEN] == code && s.wire[REPLY_HEADER_LEN..] == rest;
    assert Overwrite(s.reply, 0, code) == code;
    HeaderRoundTrip(h);
  }

  lemma BlockArrives(hash: Hash, data: seq<Byte>, s: Receiver, i: nat)
    requires Sendable(hash, data, STATUS_OK) && i < Blocks(|data|)
    requires s.Valid() && DecodeHeader(s.reply) == BlockHeader(hash, data, STATUS_OK, i)
    requires s.wire == Payload(data, i) + WireFrom(hash, data, STATUS_OK, i + 1)
    requires s.offset == BLOCK_DATA * i && s.file[..s.offset] == data[..s.offset]
    ensures
      var block := ReadBlock(hash, s, i);
      if s.offset + BlockLength(|data|, i) > |s.file| then block == Err(Overrun)
      else block.Ok? && Ready(hash, data, STATUS_OK, block.value, i + 1)
  {
    hide DecodeHeader, WireFrom;
    var k := BlockLength(|data|, i);
    if s.offset + k <= |s.file| {
      var p := Payload(data, i);
      assert s.wire[..k] == p && s.wire[k..] == WireFrom(hash, data, STATUS_OK, i + 1);
      var file := Overwrite(s.file, s.offset, p);
      assert file[s.offset..s.offset + k] == p;
      assert file[..s.offset] == s.file[..s.offset];
      assert file[..s.offset + k] == file[..s.offset] + p;
      assert data[..s.offset + k] == data[..s.offset] + p;
    }
  }

  lemma {:induction false} RestArrives(hash: Hash, data: seq<Byte>, s: Receiver, i: nat)
    requires Sendable(hash, data, STATUS_OK) && i <= Blocks(|data|)
    requires Ready(hash, data, STATUS_OK, s, i)
    requires |s.file| == BLOCK_DATA * Blocks(|data|)
    ensures
      var rest := ReadRest(hash, s, i, Blocks(|data|));
      if |data| > |s.file| && i < Blocks(|data|) then rest == Err(Overrun)
      else rest.Ok? && rest.value.offset == |data| && rest.value.file[..|data|] == data
    decreases Blocks(|data|) - i
  {
    hide DecodeHeader, WireFrom, ReadBlock, ReadHeader, BlockHeader, Payload, Blocks;
    if i < Blocks(|data|) {
      HeaderArrives(hash, data, STATUS_OK, s, i);
      var header := ReadHeader(s).value;
      HeaderKeeps(s);
      BlockArrives(hash, data, header, i);
      var block := ReadBlock(hash, header, i);
      if block.Ok? {
        RestArrives(hash, data, block.value, i + 1);
      }
    }
  }

  lemma HeaderKeeps(s: Receiver)
    requires s.Valid() && ReadHeader(s).Ok?
    ensures ReadHeader(s).value.file == s.file && ReadHeader(s).value.offset == s.offset
  {
  }

  /** What the receiver makes of a reply: the file comes through exactly when it fits the buffer,
      which is sized by a smaller block than the one that counts the blocks. */
  ghost function Expected(hash: Hash, data: seq<Byte>, status: nat): Result<seq<Byte>> {
    if status != STATUS_OK then Err(BadStatus(status))
    else if data == [] then if hash([]) == Zeros() then Ok([]) else Err(BlockCorrupt)
    else if |data| <= BLOCK_DATA * Blocks(|data|) then Ok(data)
    else Err(Overrun)
  }

  lemma EmptyReplyArrives(hash: Hash, status: nat, garbage: nat -> Byte)
    requires Sendable(hash, [], status)
    ensures Receive(hash, Wire(hash, [], status), garbage) == Expected(hash, [], status)
  {
    hide EncodeHeader, DecodeHeader;
    var h := Header(0, status, 0, 1, Zeros(), Zeros());
    var wire := EncodeHeader(h);
    HeaderRoundTrip(h);
    var first := FirstHeader(wire, garbage).value;
    assert wire[..REPLY_HEADER_LEN] == wire;
    assert first.reply == wire;
    var s := first.(file := Unwritten(garbage, Room(1)));
    assert s.file[0..0] == [];
    var file := Overwrite(s.file, 0, []);
    assert file[0..0] == [];
    if status == STATUS_OK && hash([]) == Zeros() {
      var block := ReadBlock(hash, s, 0);
      assert block.Ok? && block.value.offset == 0;
      assert block.value.file[..0] == [];
    }
  }

  /** Over the whole exchange: every payload and status, whatever the unwritten memory holds. */
  lemma TransferIsExact(hash: Hash, data: seq<Byte>, status: nat, garbage: nat -> Byte)
    requires Sendable(hash, data, status)
    ensures Receive(hash, Wire(hash, data, status), garbage) == Expected(hash, data, status)
  {
    if data == [] {
      EmptyReplyArrives(hash, status, garbage);
    } else {
      BlocksArrive(hash, data, status, garbage);
    }
  }

  lemma BlocksArrive(hash: Hash, data: seq<Byte>, status: nat, garbage: nat -> Byte)
    requires Sendable(hash, data, status) && data != []
    ensures Receive(hash, Wire(hash, data, status), garbage) == Expected(hash, data, status)
  {
    hide EncodeHeader, DecodeHeader, WireFrom, Payload, ReadBlock, ReadHeader, Complete, Unwritten, Blocks, Room, Expected, BlockHeader;
    BlocksFitRoom(|data|);
    var start := Receiver(Unwritten(garbage, REPLY_HEADER_LEN), [], 0, Wire(hash, data, status));
    HeaderArrives(hash, data, status, start, 0);
    HeaderKeeps(start);
    CountInHeader(hash, data, status);
    var first := FirstHeader(start.wire, garbage).value;
    FromFirstHeader(hash, data, status, first, Unwritten(garbage, Room(Blocks(|data|))));
  }

  lemma CountInHeader(hash: Hash, data: seq<Byte>, status: nat)
    requires 0 < Blocks(|data|)
    ensures BlockHeader(hash, data, status, 0).count == Blocks(|data|)
  {
  }

  lemma BlocksFitRoom(n: nat)
    requires 0 < n < TWO32
    ensures 0 < Blocks(n) && Room(Blocks(n)) == BLOCK_DATA * Blocks(n)
  {
  }

  /** All blocks but the last fit. */
  lemma OnlyTheLastOverruns(n: nat, i: nat)
    requires i < Blocks(n) && BLOCK_DATA * i + BlockLength(n, i) > BLOCK_DATA * Blocks(n)
    ensures i == Blocks(n) - 1 && n > BLOCK_DATA * Blocks(n)
  {
  }

  lemma FromFirstHeader(hash: Hash, data: seq<Byte>, status: nat, first: Receiver, file: seq<Byte>)
    requires Sendable(hash, data, status) && data != []
    requires 0 < Blocks(|data|) && |file| == BLOCK_DATA * Blocks(|data|)
    requires first.Valid() && first.offset == 0
    requires DecodeHeader(first.reply) == BlockHeader(hash, data, status, 0)
    requires first.wire == Payload(data, 0) + WireFrom(hash, data, status, 1)
    ensures
      var block := ReadBlock(hash, first.(file := file), 0);
      Complete(hash, block, BlockHeader(hash, data, status, 0)) == Expected(hash, data, status)
  {
    hide DecodeHeader, WireFrom, Payload, ReadBlock, ReadRest, Blocks;
    var s := first.(file := file);
    if status != STATUS_OK {
      WrongStatus(hash, s, 0);
    } else {
      BlockArrives(hash, data, s, 0);
      var block := ReadBlock(hash, s, 0);
      if block.Ok? {
        assert |data| > |file| ==> 1 < Blocks(|data|);
        RestArrives(hash, data, block.value, 1);
      } else {
        OnlyTheLastOverruns(|data|, 0);
      }
    }
  }

  lemma WrongStatus(hash: Hash, s: Receiver, b: nat)
    requires s.Valid() && DecodeHeader(s.reply).status != STATUS_OK
    ensures ReadBlock(hash, s, b) == Err(BadStatus(DecodeHeader(s.reply).status))
  {
  }

  /** The same in numbers: a reply of status 1 with up to 8116 bytes always comes through, any other status
      never does. */
  lemma TransferInNumbers(hash: Hash, data: seq<Byte>, status: nat, garbage: nat -> Byte)
    requires Sendable(hash, data, status)
    ensures status == 1 && 0 < |data| <= 8116 ==> Receive(hash, Wire(hash, data, status), garbage) == Ok(data)
    ensures status == 1 && |data| > 835_992 ==> Receive(hash, Wire(hash, data, status), garbage) == Err(Overrun)
    ensures status != 1 ==> Receive(hash, Wire(hash, data, status), garbage) == Err(BadStatus(status))
  {
    hide Receive, Wire;
    TransferIsExact(hash, data, status, garbage);
    if data != [] {
      FitsExactlyWhen(|data|);
    }
  }

  /** Which files fit the receive buffer: those whose last message is short enough, 80 bytes shorter
      for every full message before it. From 103 messages on there are none. */
  lemma FitsExactlyWhen(n: nat)
    requires n > 0
    ensures n <= BLOCK_DATA * Blocks(n) <==> (n - 1) % 8196 < 8116 - 80 * ((n - 1) / 8196)
    ensures n <= 8116 ==> n <= BLOCK_DATA * Blocks(n)
    ensures n > 835_992 ==> n > BLOCK_DATA * Blocks(n)
  {
    var q := (n - 1) / MAX_MSG_LEN;
    assert n - 1 == MAX_MSG_LEN * q + (n - 1) % MAX_MSG_LEN;
    assert Blocks(n) == q + 1;
  }

  /** Whatever follows the first header of a reply, and wherever the stream ends, only a file with the
      announced hash is saved. */
  lemma OnlyTheAnnouncedFile(hash: Hash, data: seq<Byte>, status: nat, wire: seq<Byte>, garbage: nat -> Byte)
    requires Sendable(hash, data, status) && data != [] && |wire| >= REPLY_HEADER_LEN
    requires wire[..REPLY_HEADER_LEN] <= Wire(hash, data, status)
    ensures
      var r := Receive(hash, wire, garbage);
      r.Ok? ==> hash(r.value) == hash(data)
    ensures
      var r := Receive(hash, wire, garbage);
      r.Ok? && (forall s: seq<Byte> :: hash(s) == hash(data) ==> s == data) ==> r == Ok(data)
  {
    hide DecodeHeader, EncodeHeader, ReadBlock, ReadRest, WireFrom;
    var start := Receiver(Unwritten(garbage, REPLY_HEADER_LEN), [], 0, Wire(hash, data, status));
    HeaderArrives(hash, data, status, start, 0);
    var head := wire[..REPLY_HEADER_LEN];
    assert start.wire[..REPLY_HEADER_LEN] == head;
    assert FirstHeader(wire, garbage).value.reply == ReadHeader(start).value.reply;
  }

  // ---- The connection ----

  /** What one system call does: move so many bytes (fewer when there are fewer, one at least), or be
      interrupted by a signal, or fail. */
  datatype Event = Moves(most: nat) | Interrupted | Failed

  /** An open socket: bytes that will arrive, bytes sent, and what the coming calls will do; calls
      after those move all that is asked. */
  class Connection {
    var incoming: seq<Byte>
    var outgoing: seq<Byte>
    var events: seq<Event>

    constructor (incoming: seq<Byte>, events: seq<Event>)
      ensures this.incoming == incoming && this.events == events && outgoing == []
    {
      this.incoming, this.events, outgoing := incoming, events, [];
    }

    ghost predicate Reliable()
      reads this
    {
      Failed !in events
    }

    /** The next call, asked to move `want` bytes of which `ready` can be moved. */
    method Call(want: nat, ready: nat) returns (moved: Option<nat>, again: bool)
      requires 0 < want
      modifies this`events
      ensures old(events) == [] ==> events == []
      ensures old(events) != [] ==> events == old(events)[1..]
      ensures moved.None? ==> old(events) != [] && (if again then old(events)[0].Interrupted? else old(events)[0].Failed?)
      ensures moved.Some? ==> moved.value <= want && moved.value <= ready && (ready > 0 ==> moved.value > 0)
    {
      again := false;
      if |events| == 0 {
        return Some(Least(want, ready)), false;
      }
      var e := events[0];
      events := events[1..];
      match e
      case Moves(most) => moved := Some(Least(Least(if most == 0 then 1 else most, want), ready));
      case Interrupted => moved, again := None, true;
      case Failed => moved := None;
    }

    /** k more bytes come after the first `done` of `src`. */
    method Arrive(memory: array<Byte>, ghost was: seq<Byte>, at: nat, ghost src: seq<Byte>, done: nat, k: nat)
      requires |was| == memory.Length && at + done + k <= |was| && done + k <= |src|
      requires incoming == src[done..] && memory[..] == Overwrite(was, at, src[..done])
      modifies this`incoming, memory
      ensures incoming == src[done + k..] && memory[..] == Overwrite(was, at, src[..done + k])
    {
      hide Overwrite;
      Deposit(memory, at + done, incoming[..k]);
      assert src[..done + k] == src[..done] + incoming[..k];
      OverwriteGrows(was, at, src[..done], incoming[..k]);
      incoming := incoming[k..];
    }

    /** compsys_helper_readn into `memory` at `at`: how many bytes came, or -1. */
    method ReadN(memory: array<Byte>, at: nat, n: nat) returns (r: int)
      requires at + n <= memory.Length
      modifies this`incoming, this`events, memory
      ensures r == -1 || r == Least(n, |old(incoming)|)
      ensures r != -1 ==> incoming == old(incoming)[r..] && memory[..] == Overwrite(old(memory[..]), at, old(incoming)[..r])
      ensures old(Reliable()) ==> r != -1 && Reliable()
    {
      ghost var src, was := incoming, memory[..];
      OverwriteNothing(was, at);
      var left := n;
      hide Overwrite;
      assert src[..0] == [];
      while left > 0
        invariant 0 <= left <= n && n - left <= |src| && incoming == src[n - left..]
        invariant memory[..] == Overwrite(was, at, src[..n - left])
        invariant old(Reliable()) ==> Reliable()
        decreases left + |events|
      {
        var moved, again := Call(left, |incoming|);
        if moved.None? {
          if !again { return -1; }
        } else {
          var k := moved.value;
          if k == 0 { break; }
          Arrive(memory, was, at, src, n - left, k);
          left := left - k;
        }
      }
      assert left == 0 || incoming == [];
      return n - left;
    }

    /** compsys_helper_writen: true when all of `s` is sent. */
    method WriteN(s: seq<Byte>) returns (ok: bool)
      modifies this`outgoing, this`events
      ensures ok ==> outgoing == old(outgoing) + s
      ensures !ok ==> exists k :: 0 <= k < |s| && outgoing == old(outgoing) + s[..k]
      ensures old(Reliable()) ==> ok && Reliable()
    {
      var left := |s|;
      while left > 0
        invariant 0 <= left <= |s| && outgoing == old(outgoing) + s[..|s| - left]
        invariant old(Reliable()) ==> Reliable()
        decreases left + |events|
      {
        var moved, again := Call(left, left);
        if moved.None? {
          if !again { return false; }
        } else {
          var done, k := |s| - left, moved.value;
          assert s[..done + k] == s[..done] + s[done..done + k];
          outgoing := outgoing + s[done..done + k];
          left := left - k;
        }
      }
      assert s[..|s|] == s;
      return true;
    }
  }

  datatype Option<T> = None | Some(value: T)

  method Deposit(memory: array<Byte>, at: nat, s: seq<Byte>)
    requires at + |s| <= memory.Length
    modifies memory
    ensures memory[..] == Overwrite(old(memory[..]), at, s)
  {
    for i := 0 to |s|
      invariant memory[..] == Overwrite(old(memory[..]), at, s[..i])
    {
      memory[at + i] := s[i];
    }
    assert s[..|s|] == s;
  }

  /** respond */
  method Respond(c: Connection, hash: Hash, status: nat, data: seq<Byte>) returns (ok: bool)
    requires Sendable(hash, data, status)
    modifies c`outgoing, c`events
    ensures ok ==> c.outgoing == old(c.outgoing) + Wire(hash, data, status)
    ensures !ok ==> exists k :: 0 <= k < |Wire(hash, data, status)| && c.outgoing == old(c.outgoing) + Wire(hash, data, status)[..k]
    ensures old(c.Reliable()) ==> ok && c.Reliable()
  {
    hide EncodeHeader, WireFrom;
    var blocks := Blocks(|data|);
    var totalHash := hash(data);
    if |data| == 0 {
      var message := EncodeHeader(Header(0, status, 0, 1, Zeros(), Zeros()));
      assert message == Wire(hash, data, status);
      ok := c.WriteN(message);
      return;
    }
    var bytesSent, i := 0, 0;
    ghost var before := [];
    while i < blocks
      invariant 0 <= i <= blocks && (i < blocks ==> bytesSent == BLOCK_DATA * i)
      invariant c.outgoing == old(c.outgoing) + before
      invariant before + WireFrom(hash, data, status, i) == WireFrom(hash, data, status, 0)
      invariant old(c.Reliable()) ==> c.Reliable()
    {
      var thisLength := BLOCK_DATA;
      if i == blocks - 1 {
        thisLength := |data| - bytesSent;
      }
      assert thisLength == BlockLength(|data|, i);
      var payload := data[bytesSent..bytesSent + thisLength];
      assert payload == Payload(data, i);
      BlockHeaderOk(hash, data, status, i);
      WireStep(hash, data, status, i);
      var message := EncodeHeader(Header(thisLength, status, i, blocks, hash(payload), totalHash)) + payload;
      var sent := c.WriteN(message);
      ghost var rest := WireFrom(hash, data, status, i + 1);
      if !sent {
        assert Wire(hash, data, status) == before + (message + rest);
        PrefixOfWire(before, message, rest, old(c.outgoing), c.outgoing);
        return false;
      }
      assert before + (message + rest) == (before + message) + rest;
      before := before + message;
      bytesSent := bytesSent + thisLength;
      i := i + 1;
    }
    WireEnds(hash, data, status);
    return true;
  }

  lemma WireStep(hash: Hash, data: seq<Byte>, status: nat, i: nat)
    requires Sendable(hash, data, status) && i < Blocks(|data|)
    ensures HeaderOk(BlockHeader(hash, data, status, i))
    ensures WireFrom(hash, data, status, i)
         == (EncodeHeader(BlockHeader(hash, data, status, i)) + Payload(data, i)) + WireFrom(hash, data, status, i + 1)
  {
  }

  lemma WireEnds(hash: Hash, data: seq<Byte>, status: nat)
    requires Sendable(hash, data, status)
    ensures WireFrom(hash, data, status, Blocks(|data|)) == []
  {
  }

  lemma PrefixOfWire(before: seq<Byte>, message: seq<Byte>, rest: seq<Byte>, was: seq<Byte>, now: seq<Byte>)
    requires exists k :: 0 <= k < |message| && now == was + before + message[..k]
    ensures exists k :: 0 <= k < |before + (message + rest)| && now == was + (before + (message + rest))[..k]
  {
    var k :| 0 <= k < |message| && now == was + before + message[..k];
    var all := before + (message + rest);
    assert all[..|before| + k] == before + message[..k];
    assert now == was + all[..|before| + k];
  }

  /** The status and number checks, the payload and its hash, in place. */
  method ReadBlockInto(c: Connection, hash: Hash, reply: array<Byte>, file: array<Byte>, offset: nat, b: nat) returns (r: Result<nat>)
    requires reply.Length == REPLY_HEADER_LEN && offset <= file.Length && reply != file
    modifies c`incoming, c`events, file
    ensures old(c.Reliable()) ==> c.Reliable() && r != Err(ReadFailed)
    ensures r.Ok? ==> r.value <= file.Length
    ensures
      var block := ReadBlock(hash, Receiver(reply[..], old(file[..]), offset, old(c.incoming)), b);
      match r
      case Ok(end) => block == Ok(Receiver(reply[..], file[..], end, c.incoming))
      case Err(reason) => reason == ReadFailed || block == Err(reason)
  {
    hide DecodeHeader, Overwrite;
    var h := DecodeHeader(reply[..]);
    if h.status != STATUS_OK {
      return Err(BadStatus(h.status));
    }
    if h.block != b {
      return Err(OutOfOrder);
    }
    if offset + h.length > file.Length {
      return Err(Overrun);
    }
    OverwriteNothing(file[..], offset);
    if h.length > 0 {
      var n := c.ReadN(file, offset, h.length);
      if n <= 0 {
        return Err(if n < 0 then ReadFailed else Truncated);
      }
    }
    assert file[..][offset..offset + h.length] == file[offset..offset + h.length];
    if hash(file[offset..offset + h.length]) != h.blockHash {
      return Err(BlockCorrupt);
    }
    return Ok(offset + h.length);
  }

  method ReadHeaderInto(c: Connection, reply: array<Byte>, ghost file: seq<Byte>, ghost offset: nat) returns (failure: Option<Reason>)
    requires reply.Length == REPLY_HEADER_LEN && offset <= |file|
    modifies c`incoming, c`events, reply
    ensures old(c.Reliable()) ==> c.Reliable() && failure != Some(ReadFailed)
    ensures
      var header := ReadHeader(Receiver(old(reply[..]), file, offset, old(c.incoming)));
      match failure
      case None => header == Ok(Receiver(reply[..], file, offset, c.incoming))
      case Some(reason) => reason == ReadFailed || header == Err(reason)
  {
    var n := c.ReadN(reply, 0, REPLY_HEADER_LEN);
    return if n < 0 then Some(ReadFailed) else if n == 0 then Some(Truncated) else None;
  }

  /** receive_file_blocks, up to the saving of the file. */
  method ReceiveFile(c: Connection, hash: Hash, garbage: nat -> Byte) returns (r: Result<seq<Byte>>)
    modifies c`incoming, c`events
    ensures r == Err(ReadFailed) || r == Receive(hash, old(c.incoming), garbage)
    ensures old(c.Reliable()) ==> r == Receive(hash, old(c.incoming), garbage) && r != Err(ReadFailed)
  {
    hide DecodeHeader, ReadBlock, ReadHeader;
    var reply := new Byte[REPLY_HEADER_LEN](i requires 0 <= i => garbage(i));
    assert reply[..] == Unwritten(garbage, REPLY_HEADER_LEN);
    var failure := ReadHeaderInto(c, reply, [], 0);
    if failure.Some? {
      return Err(failure.value);
    }
    var h := DecodeHeader(reply[..]);
    var file := new Byte[Room(h.count)](i requires 0 <= i => garbage(i));
    assert file[..] == Unwritten(garbage, Room(h.count));
    var block := ReadBlockInto(c, hash, reply, file, 0, 0);
    if block.Err? {
      return Err(block.reason);
    }
    var offset, b := block.value, 1;
    ghost var rest := ReadRest(hash, Receiver(reply[..], file[..], offset, c.incoming), 1, h.count);
    while b < h.count
      invariant 0 <= offset <= file.Length
      invariant rest == ReadRest(hash, Receiver(reply[..], file[..], offset, c.incoming), b, h.count)
      invariant old(c.Reliable()) ==> c.Reliable()
    {
      failure := ReadHeaderInto(c, reply, file[..], offset);
      if failure.Some? {
        return Err(failure.value);
      }
      block := ReadBlockInto(c, hash, reply, file, offset, b);
      if block.Err? {
        return Err(block.reason);
      }
      offset, b := block.value, b + 1;
    }
    assert file[..][..offset] == file[..offset];
    if hash(file[..offset]) != h.totalHash {
      return Err(FileCorrupt);
    }
    return Ok(file[..offset]);
  }

  /** A reply sent under one schedule of short writes and read under one of short reads. */
  method Exchange(hash: Hash, status: nat, data: seq<Byte>, shortWrites: seq<Event>, shortReads: seq<Event>, garbage: nat -> Byte)
    returns (r: Result<seq<Byte>>)
    requires Sendable(hash, data, status)
    requires Failed !in shortWrites && Failed !in shortReads
    ensures r == Expected(hash, data, status)
  {
    hide Receive, Wire, Expected;
    var sender := new Connection([], shortWrites);
    var sent := Respond(sender, hash, status, data);
    assert sender.outgoing == Wire(hash, data, status);
    var receiver := new Connection(sender.outgoing, shortReads);
    r := ReceiveFile(receiver, hash, garbage);
    TransferIsExact(hash, data, status, garbage);
  }
}

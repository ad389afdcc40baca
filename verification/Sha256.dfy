/** The streaming implementation of SHA-256: a context with a buffer of 64 bytes that update fills and
    flushes, proved against the one-shot definition of module Sha256Spec. The machine is little-endian. */
module Sha256 {
  import opened Sha256Spec

  // ---- The macros ----

  function MacroCh(x: Word, y: Word, z: Word): Word { z ^ (x & (y ^ z)) }

  function MacroMaj(x: Word, y: Word, z: Word): Word { (x & (y | z)) | (y & z) }

  function ByteSwap(x: Word): Word {
    (((x >> 8) | (x << 24)) & 0xff00ff00) | (((x << 8) | (x >> 24)) & 0x00ff00ff)
  }

  function ByteSwap64(x: bv64): bv64 {
    var a := (x >> 32) as bv32;
    var b := (x & 0xffff_ffff) as bv32;
    ((ByteSwap(b) as bv64) << 32) | (ByteSwap(a) as bv64)
  }

  /** Four bytes of memory read as a word. */
  function LittleEndian(b0: Byte, b1: Byte, b2: Byte, b3: Byte): Word {
    BigEndian(b3, b2, b1, b0)
  }

  /** A word in memory. */
  function StoredBytes(w: Word): seq<Byte> {
    [(w & 0xff) as bv8, ((w >> 8) & 0xff) as bv8, ((w >> 16) & 0xff) as bv8, ((w >> 24) & 0xff) as bv8]
  }

  /** A 64-bit number in memory. */
  function LittleEndian64(x: bv64): (s: seq<Byte>)
    ensures |s| == 8
  {
    [Byte0(x), Byte1(x), Byte2(x), Byte3(x), Byte4(x), Byte5(x), Byte6(x), Byte7(x)]
  }

  lemma SameWord(a: Word, b: Word)
    requires a ^ b == 0
    ensures a == b
  {
  }

  lemma MacroChBits(x: Word, y: Word, z: Word)
    ensures MacroCh(x, y, z) ^ Ch(x, y, z) == 0
  {
  }

  lemma MacroMajBits(x: Word, y: Word, z: Word)
    ensures MacroMaj(x, y, z) ^ Maj(x, y, z) == 0
  {
  }

  lemma ByteSwapBits(b0: Byte, b1: Byte, b2: Byte, b3: Byte)
    ensures ByteSwap(LittleEndian(b0, b1, b2, b3)) ^ BigEndian(b0, b1, b2, b3) == 0
  {
  }

  /** The shorter forms of Ch and Maj are the standard's. */
  lemma MacroChIsCh(x: Word, y: Word, z: Word)
    ensures MacroCh(x, y, z) == Ch(x, y, z)
  {
    hide *;
    MacroChBits(x, y, z);
    SameWord(MacroCh(x, y, z), Ch(x, y, z));
  }

  lemma MacroMajIsMaj(x: Word, y: Word, z: Word)
    ensures MacroMaj(x, y, z) == Maj(x, y, z)
  {
    hide *;
    MacroMajBits(x, y, z);
    SameWord(MacroMaj(x, y, z), Maj(x, y, z));
  }

  /** Swapping what a little-endian machine reads gives the big-endian word. */
  lemma ByteSwapReads(b0: Byte, b1: Byte, b2: Byte, b3: Byte)
    ensures ByteSwap(LittleEndian(b0, b1, b2, b3)) == BigEndian(b0, b1, b2, b3)
  {
    hide *;
    ByteSwapBits(b0, b1, b2, b3);
    SameWord(ByteSwap(LittleEndian(b0, b1, b2, b3)), BigEndian(b0, b1, b2, b3));
  }

  predicate SameBits(a: Byte, b: Byte) { a ^ b == 0 }

  lemma SameByte(a: Byte, b: Byte)
    requires SameBits(a, b)
    ensures a == b
  {
  }

  lemma SwappedLow(x: bv64)
    ensures var y := ByteSwap64(x);
      SameBits(Byte0(y), Byte7(x)) && SameBits(Byte1(y), Byte6(x)) && SameBits(Byte2(y), Byte5(x)) && SameBits(Byte3(y), Byte4(x))
  {
  }

  lemma SwappedHigh(x: bv64)
    ensures var y := ByteSwap64(x);
      SameBits(Byte4(y), Byte3(x)) && SameBits(Byte5(y), Byte2(x)) && SameBits(Byte6(y), Byte1(x)) && SameBits(Byte7(y), Byte0(x))
  {
  }

  lemma SwappedBytes(x: bv64)
    ensures var y := ByteSwap64(x);
      && Byte0(y) == Byte7(x) && Byte1(y) == Byte6(x) && Byte2(y) == Byte5(x) && Byte3(y) == Byte4(x)
      && Byte4(y) == Byte3(x) && Byte5(y) == Byte2(x) && Byte6(y) == Byte1(x) && Byte7(y) == Byte0(x)
  {
    hide *;
    SwappedLow(x);
    SwappedHigh(x);
    var y := ByteSwap64(x);
    SameByte(Byte0(y), Byte7(x));
    SameByte(Byte1(y), Byte6(x));
    SameByte(Byte2(y), Byte5(x));
    SameByte(Byte3(y), Byte4(x));
    SameByte(Byte4(y), Byte3(x));
    SameByte(Byte5(y), Byte2(x));
    SameByte(Byte6(y), Byte1(x));
    SameByte(Byte7(y), Byte0(x));
  }

  /** Storing the swapped length writes its most significant byte first. */
  lemma ByteSwap64Stores(x: bv64)
    ensures LittleEndian64(ByteSwap64(x)) == BigEndian64(x)
  {
    hide ByteSwap64, Byte0, Byte1, Byte2, Byte3, Byte4, Byte5, Byte6, Byte7;
    SwappedBytes(x);
  }

  // ---- SHA256Guts ----

  lemma SwappedWordStores(w: Word)
    ensures StoredBytes(ByteSwap(w)) == WordBytes(w)
  {
  }

  /** DO_ROUND. */
  method DoRound(v: Words8, k: Word, w: Word) returns (r: Words8)
    ensures r == Round(v, k, w)
  {
    hide BigSigma0, BigSigma1, Ch, Maj, MacroCh, MacroMaj, Plus;
    var Words8(a, b, c, d, e, f, g, h) := v;
    MacroChIsCh(e, f, g);
    MacroMajIsMaj(a, b, c);
    var t1 := Plus(Plus(Plus(Plus(h, BigSigma1(e)), MacroCh(e, f, g)), k), w);
    var t2 := Plus(BigSigma0(a), MacroMaj(a, b, c));
    h := g;
    g := f;
    f := e;
    e := Plus(d, t1);
    d := c;
    c := b;
    b := a;
    a := Plus(t1, t2);
    r := Words8(a, b, c, d, e, f, g, h);
  }

  lemma ScheduleHead(block: seq<Byte>, t: nat)
    requires |block| == 64 && t < 16
    ensures Schedule(block, t) == MessageWord(block, t)
  {
  }

  lemma ScheduleTail(block: seq<Byte>, t: nat)
    requires |block| == 64 && 16 <= t
    ensures Schedule(block, t)
         == Extend(Schedule(block, t - 2), Schedule(block, t - 7), Schedule(block, t - 15), Schedule(block, t - 16))
  {
    hide Extend, MessageWord;
  }

  /** The message schedule, in an array of 64 words. */
  method FillSchedule(cbuf: seq<Byte>) returns (buf: array<Word>)
    requires |cbuf| == 64
    ensures fresh(buf) && buf.Length == 64 && forall t | 0 <= t < 64 :: buf[t] == Schedule(cbuf, t)
  {
    hide SmallSigma0, SmallSigma1, Plus, BigEndian, LittleEndian, ByteSwap, Schedule;
    buf := new Word[64];
    for i := 0 to 16
      invariant forall t | 0 <= t < i :: buf[t] == Schedule(cbuf, t)
    {
      ScheduleHead(cbuf, i);
      ByteSwapReads(cbuf[4 * i], cbuf[4 * i + 1], cbuf[4 * i + 2], cbuf[4 * i + 3]);
      buf[i] := ByteSwap(LittleEndian(cbuf[4 * i], cbuf[4 * i + 1], cbuf[4 * i + 2], cbuf[4 * i + 3]));
    }
    for i := 16 to 64
      invariant forall t | 0 <= t < i :: buf[t] == Schedule(cbuf, t)
    {
      ScheduleTail(cbuf, i);
      buf[i] := Plus(Plus(Plus(SmallSigma1(buf[i - 2]), buf[i - 7]), SmallSigma0(buf[i - 15])), buf[i - 16]);
    }
  }

  /** The 64 rounds, four at a time. */
  method DoRounds(v: Words8, cbuf: seq<Byte>) returns (r: Words8)
    requires |cbuf| == 64
    ensures r == Rounds(v, cbuf, 64)
  {
    hide Round, Schedule;
    var buf := FillSchedule(cbuf);
    r := v;
    for i := 0 to 16
      invariant r == Rounds(v, cbuf, 4 * i)
      invariant forall t | 0 <= t < 64 :: buf[t] == Schedule(cbuf, t)
    {
      r := DoRound(r, K[4 * i], buf[4 * i]);
      assert r == Rounds(v, cbuf, 4 * i + 1);
      r := DoRound(r, K[4 * i + 1], buf[4 * i + 1]);
      assert r == Rounds(v, cbuf, 4 * i + 2);
      r := DoRound(r, K[4 * i + 2], buf[4 * i + 2]);
      assert r == Rounds(v, cbuf, 4 * i + 3);
      r := DoRound(r, K[4 * i + 3], buf[4 * i + 3]);
    }
  }

  // ---- The context ----

  /** The length in bits as the context keeps it, in 64 bits. */
  function LengthBits(n: nat): nat {
    8 * n % TWO64
  }

  /** What a context stands for: all bytes of the message so far. Whole blocks have been absorbed, the
      rest is in the buffer, and the length in bits is kept modulo 2^64. */
  ghost predicate Represents(hash: Words8, total: nat, pending: seq<Byte>, message: seq<Byte>) {
    && |pending| == |message| % 64
    && pending == message[|message| - |pending|..]
    && total == LengthBits(|message|)
    && |message[..|message| - |pending|]| % 64 == 0
    && hash == Absorb(IV, message[..|message| - |pending|])
  }

  /** The message determines the hash words, the length and the live part of the buffer. */
  lemma RepresentationIsUnique(h1: Words8, t1: nat, p1: seq<Byte>, h2: Words8, t2: nat, p2: seq<Byte>, message: seq<Byte>)
    requires Represents(h1, t1, p1, message) && Represents(h2, t2, p2, message)
    ensures h1 == h2 && t1 == t2 && p1 == p2
  {
    hide Absorb;
  }

  lemma Remainder(n: nat, k: nat)
    requires n % 64 + k < 64
    ensures (n + k) % 64 == n % 64 + k
  {
  }

  lemma AddLength(n: nat, k: nat)
    ensures (LengthBits(n) + 8 * k) % TWO64 == LengthBits(n + k)
  {
  }

  /** Bytes that do not fill the buffer only wait. */
  lemma PendingGrows(hash: Words8, total: nat, pending: seq<Byte>, message: seq<Byte>, data: seq<Byte>)
    requires Represents(hash, total, pending, message) && |pending| + |data| < 64
    ensures Represents(hash, (total + 8 * |data|) % TWO64, pending + data, message + data)
  {
    hide Absorb, LengthBits;
    AddLength(|message|, |data|);
    var m := message + data;
    Remainder(|message|, |data|);
    assert m[..|m| - |pending + data|] == message[..|message| - |pending|];
    assert m[|m| - |pending + data|..] == pending + data;
  }

  /** Bytes that fill the buffer are absorbed with it. */
  lemma BlockFlushes(hash: Words8, total: nat, pending: seq<Byte>, message: seq<Byte>, data: seq<Byte>)
    requires Represents(hash, total, pending, message) && |pending| + |data| == 64
    ensures Represents(Compress(hash, pending + data), (total + 8 * |data|) % TWO64, [], message + data)
  {
    hide Absorb, Compress, LengthBits;
    AddLength(|message|, |data|);
    var m, done := message + data, message[..|message| - |pending|];
    assert message == done + pending;
    assert m == done + (pending + data) && m[..|m|] == m;
    AbsorbBlock(IV, done, pending + data);
  }

  class Context {
    var totalLength: nat
    const hash: array<Word>
    var bufferLength: nat
    const buffer: array<Byte>
    ghost var message: seq<Byte>

    ghost function HashWords(): Words8
      requires hash.Length == 8
      reads hash
    {
      Words8(hash[0], hash[1], hash[2], hash[3], hash[4], hash[5], hash[6], hash[7])
    }

    ghost predicate Valid()
      reads this, hash, buffer
    {
      && hash.Length == 8 && buffer.Length == 64 && bufferLength < 64
      && Represents(HashWords(), totalLength, buffer[..bufferLength], message)
    }

    /** sha256_init. */
    constructor ()
      ensures Valid() && message == [] && fresh(hash) && fresh(buffer)
    {
      hash := new Word[8] [0x6a09e667, 0xbb67ae85, 0x3c6ef372, 0xa54ff53a, 0x510e527f, 0x9b05688c, 0x1f83d9ab, 0x5be0cd19];
      buffer := new Byte[64];
      totalLength, bufferLength, message := 0, 0, [];
    }

    method Guts(cbuf: seq<Byte>)
      requires hash.Length == 8 && |cbuf| == 64
      modifies hash
      ensures HashWords() == Compress(old(HashWords()), cbuf)
    {
      hide Plus, Rounds;
      var v := DoRounds(Words8(hash[0], hash[1], hash[2], hash[3], hash[4], hash[5], hash[6], hash[7]), cbuf);
      hash[0] := Plus(hash[0], v.a);
      hash[1] := Plus(hash[1], v.b);
      hash[2] := Plus(hash[2], v.c);
      hash[3] := Plus(hash[3], v.d);
      hash[4] := Plus(hash[4], v.e);
      hash[5] := Plus(hash[5], v.f);
      hash[6] := Plus(hash[6], v.g);
      hash[7] := Plus(hash[7], v.h);
    }

    /** memcpy to the end of the live part of the buffer. */
    method Copy(data: seq<Byte>)
      requires buffer.Length == 64 && bufferLength + |data| <= 64
      modifies this`bufferLength, buffer
      ensures bufferLength == old(bufferLength) + |data|
      ensures buffer[..bufferLength] == old(buffer[..bufferLength]) + data
    {
      for i := 0 to |data|
        invariant forall j | 0 <= j < old(bufferLength) :: buffer[j] == old(buffer[j])
        invariant forall j | 0 <= j < i :: buffer[old(bufferLength) + j] == data[j]
        invariant bufferLength == old(bufferLength)
      {
        buffer[bufferLength + i] := data[i];
      }
      bufferLength := bufferLength + |data|;
      assert forall j | 0 <= j < bufferLength ::
        buffer[j] == if j < old(bufferLength) then old(buffer[j]) else data[j - old(bufferLength)];
    }

    /** One round of the plain loop: fill the buffer as far as the data goes, and flush it when full. */
    method Absorb1(data: seq<Byte>) returns (used: nat)
      requires Valid()
      modifies this`totalLength, this`bufferLength, this`message, hash, buffer
      ensures Valid() && used <= |data| && message == old(message) + data[..used]
      ensures data != [] ==> 0 < used
      ensures used < |data| ==> bufferLength == 0
    {
      hide Represents, Compress;
      var left := 64 - bufferLength;
      used := if left > |data| then |data| else left;
      ghost var h, t, p := HashWords(), totalLength, buffer[..bufferLength];
      if bufferLength + used < 64 {
        PendingGrows(h, t, p, message, data[..used]);
      } else {
        BlockFlushes(h, t, p, message, data[..used]);
      }
      Copy(data[..used]);
      totalLength := (totalLength + 8 * used) % TWO64;
      message := message + data[..used];
      if bufferLength == 64 {
        Guts(buffer[..]);
        assert buffer[..] == p + data[..used];
        bufferLength := 0;
        assert buffer[..bufferLength] == [];
      }
    }

    /** sha256_update without SHA256_FAST_COPY. */
    method Update(data: seq<Byte>)
      requires Valid()
      modifies this`totalLength, this`bufferLength, this`message, hash, buffer
      ensures Valid() && message == old(message) + data
    {
      hide Represents;
      var done := 0;
      while done < |data|
        invariant 0 <= done <= |data| && Valid() && message == old(message) + data[..done]
      {
        var used := Absorb1(data[done..]);
        assert data[..done] + data[done..][..used] == data[..done + used];
        done := done + used;
      }
      assert data[..done] == data;
    }

    /** sha256_update with SHA256_FAST_COPY: whole blocks are taken straight from the data. */
    method UpdateFast(data: seq<Byte>)
      requires Valid()
      modifies this`totalLength, this`bufferLength, this`message, hash, buffer
      ensures Valid() && message == old(message) + data
    {
      hide Represents;
      var done := 0;
      assert data[..done] == [];
      if bufferLength != 0 {
        done := Absorb1(data);
      }
      while |data| - done > 63
        invariant 0 <= done <= |data| && Valid() && message == old(message) + data[..done]
        invariant done < |data| ==> bufferLength == 0
      {
        AbsorbWholeBlock(data[done..done + 64]);
        assert data[..done] + data[done..done + 64] == data[..done + 64];
        done := done + 64;
      }
      assert data[..done] + data[done..] == data;
      if done < |data| {
        Keep(data[done..]);
      }
    }

    /** What does not fill the empty buffer is kept in it. */
    method Keep(rest: seq<Byte>)
      requires Valid() && bufferLength == 0 && |rest| < 64
      modifies this`totalLength, this`bufferLength, this`message, buffer
      ensures Valid() && message == old(message) + rest
    {
      hide Represents;
      assert buffer[..bufferLength] == [];
      PendingGrows(HashWords(), totalLength, [], message, rest);
      Copy(rest);
      totalLength := (totalLength + 8 * |rest|) % TWO64;
      message := message + rest;
      assert buffer[..bufferLength] == [] + rest;
    }

    method AbsorbWholeBlock(block: seq<Byte>)
      requires Valid() && bufferLength == 0 && |block| == 64
      modifies this`totalLength, this`message, hash
      ensures Valid() && message == old(message) + block
    {
      hide Represents, Compress;
      assert buffer[..bufferLength] == [] && [] + block == block;
      BlockFlushes(HashWords(), totalLength, [], message, block);
      totalLength := (totalLength + 512) % TWO64;
      Guts(block);
      message := message + block;
    }

    /** sha256_final: pad, append the length, and write out the hash words. */
    method Final(fast: bool) returns (out: seq<Byte>)
      requires Valid()
      modifies this`totalLength, this`bufferLength, this`message, hash, buffer
      ensures out == DigestBytes(old(message))
    {
      hide Represents, Digest, Absorb, BigEndian64, LittleEndian64, ByteSwap64, WordBytes, BitLength;
      ghost var m := message;
      BufferIsRemainder();
      var bytesToPad := 120 - bufferLength;
      if bytesToPad > 64 {
        bytesToPad := bytesToPad - 64;
      }
      var lengthPad := ByteSwap64(totalLength as bv64);
      ByteSwap64Stores(totalLength as bv64);
      var padding: seq<Byte> := [0x80] + Zeros(63);
      assert padding[..bytesToPad] == [0x80] + Zeros(ZeroCount(|m|));
      if fast {
        UpdateFast(padding[..bytesToPad]);
        UpdateFast(LittleEndian64(lengthPad));
      } else {
        Update(padding[..bytesToPad]);
        Update(LittleEndian64(lengthPad));
      }
      assert message == m + Padding(|m|);
      FinalWords(m);
      if fast {
        out := WriteSwappedWords();
      } else {
        out := WriteWords();
      }
    }

    /** The fast variant: the swapped word is stored at once. */
    method WriteSwappedWords() returns (out: seq<Byte>)
      requires hash.Length == 8
      ensures out == HashBytes(8)
    {
      hide WordBytes, ByteSwap, StoredBytes;
      out := [];
      for i := 0 to 8
        invariant out == HashBytes(i)
      {
        SwappedWordStores(hash[i]);
        out := out + StoredBytes(ByteSwap(hash[i]));
      }
    }

    method WriteWords() returns (out: seq<Byte>)
      requires hash.Length == 8
      ensures out == HashBytes(8)
    {
      hide WordBytes;
      out := [];
      for i := 0 to 8
        invariant out == HashBytes(i)
      {
        out := out + WordBytes(hash[i]);
      }
    }

    /** The bytes of the first n hash words. */
    ghost function HashBytes(n: nat): seq<Byte>
      requires hash.Length == 8 && n <= 8
      reads hash
    {
      if n == 0 then [] else HashBytes(n - 1) + WordBytes(hash[n - 1])
    }

    lemma BufferIsRemainder()
      requires Valid()
      ensures bufferLength == |message| % 64 && totalLength < TWO64 && totalLength as bv64 == BitLength(|message|)
    {
      assert |buffer[..bufferLength]| == bufferLength;
    }

    lemma FinalWords(m: seq<Byte>)
      requires Valid() && message == m + Padding(|m|)
      ensures HashWords() == Digest(m) && HashBytes(8) == DigestBytes(m)
    {
      hide Absorb, WordBytes;
      assert |message| % 64 == 0 && message[..|message|] == message;
      assert HashWords() == Digest(m);
      var h := HashWords();
      assert HashBytes(1) == WordBytes(h.a);
      assert HashBytes(2) == WordBytes(h.a) + WordBytes(h.b);
      assert HashBytes(4) == HashBytes(2) + WordBytes(h.c) + WordBytes(h.d);
      assert HashBytes(6) == HashBytes(4) + WordBytes(h.e) + WordBytes(h.f);
    }
  }

  function Concat(pieces: seq<seq<Byte>>): seq<Byte> {
    if pieces == [] then [] else Concat(pieces[..|pieces| - 1]) + pieces[|pieces| - 1]
  }

  lemma ConcatGrows(pieces: seq<seq<Byte>>, i: nat)
    requires i <= |pieces|
    ensures Concat(pieces[..0]) == []
    ensures i < |pieces| ==> Concat(pieces[..i + 1]) == Concat(pieces[..i]) + pieces[i]
  {
    if i < |pieces| {
      assert pieces[..i + 1][..i] == pieces[..i];
    }
  }

  /** One context updated by the plain path and one by the fast path: from the same message they come to
      the same hash words, total length, buffer length and live part of the buffer. */
  method UpdateBoth(a: Context, b: Context, data: seq<Byte>)
    requires a.Valid() && b.Valid() && a.message == b.message
    requires a != b && a.hash != b.hash && a.buffer != b.buffer
    modifies a`totalLength, a`bufferLength, a`message, a.hash, a.buffer
    modifies b`totalLength, b`bufferLength, b`message, b.hash, b.buffer
    ensures a.Valid() && b.Valid() && a.message == b.message == old(a.message) + data
    ensures a.HashWords() == b.HashWords() && a.totalLength == b.totalLength && a.bufferLength == b.bufferLength
    ensures a.buffer[..a.bufferLength] == b.buffer[..b.bufferLength]
  {
    hide Represents;
    a.Update(data);
    b.UpdateFast(data);
    RepresentationIsUnique(a.HashWords(), a.totalLength, a.buffer[..a.bufferLength],
                           b.HashWords(), b.totalLength, b.buffer[..b.bufferLength], a.message);
    assert |a.buffer[..a.bufferLength]| == |b.buffer[..b.bufferLength]|;
  }

  /** However a message is cut into calls of update, and whichever compile variant makes each call, the
      digest is that of the whole message. */
  method HashPieces(pieces: seq<seq<Byte>>, fast: nat -> bool, fastFinal: bool) returns (out: seq<Byte>)
    ensures out == DigestBytes(Concat(pieces))
  {
    hide *;
    var ctx := new Context();
    ConcatGrows(pieces, 0);
    for i := 0 to |pieces|
      invariant ctx.Valid() && fresh(ctx) && fresh(ctx.hash) && fresh(ctx.buffer)
      invariant ctx.message == Concat(pieces[..i])
    {
      ConcatGrows(pieces, i);
      if fast(i) {
        ctx.UpdateFast(pieces[i]);
      } else {
        ctx.Update(pieces[i]);
      }
    }
    assert pieces[..|pieces|] == pieces;
    out := ctx.Final(fastFinal);
  }
}

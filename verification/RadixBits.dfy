/** The bit masks of the radix tree. A bit position is a one-hot word. The predicates keep the
    arithmetic on words out of the proofs about trees. */
module RadixBits {

  /** A 32-bit word. */
  datatype Word = Word(bits: bv32)

  const ONE := Word(1)
  const TOP := Word(0x4000_0000)

  function LowerBits(pos: Word): bv32 { pos.bits - 1 }

  function HigherBits(pos: Word): bv32 { 0 - pos.bits - pos.bits }

  function NotHigherBits(pos: Word): bv32 { !HigherBits(pos) }

  /** The bits up to and including the high position and above the low one. */
  function BitRange(high: Word, low: Word): bv32 { HigherBits(low) & NotHigherBits(high) }

  /** Where two numbers differ in a range of bits. */
  function Diff(a: Word, b: Word, high: Word, low: Word): Word { Word(BitRange(high, low) & (a.bits ^ b.bits)) }

  function Half(pos: Word): Word { Word(pos.bits >> 1) }

  /** number & ~1 */
  function Even(n: Word): Word { Word(ClearLowest(n.bits)) }

  function ClearLowest(x: bv32): bv32 { x & 0xFFFF_FFFE }

  /** number | 1 */
  function Odd(n: Word): Word { Word(SetLowest(n.bits)) }

  function SetLowest(x: bv32): bv32 { x | 1 }

  predicate IsZero(n: Word) { n.bits == 0 }

  /** One of the 31 positions of a non-negative int. */
  predicate OneHot(pos: Word) {
    pos.bits != 0 && pos.bits & LowerBits(pos) == 0 && pos.bits <= 0x4000_0000
  }

  /** A non-negative int. */
  predicate NonNegative(n: Word) { n.bits < 0x8000_0000 }

  predicate Less(a: Word, b: Word) { a.bits < b.bits }

  predicate AtMost(a: Word, b: Word) { a.bits <= b.bits }

  predicate HasBit(n: Word, pos: Word) { n.bits & pos.bits != 0 }

  /** The numbers have the same bits above a position. */
  predicate Agree(a: Word, b: Word, pos: Word) {
    (a.bits ^ b.bits) & HigherBits(pos) == 0
  }

  /** A difference that has no bit above the high position and none at or below the low one. */
  predicate Within(diff: Word, high: Word, low: Word) {
    diff.bits & HigherBits(high) == 0 && diff.bits & NotHigherBits(low) == 0
  }

  /** Starting from a position, the first at or below it whose bit is set in diff. */
  function TopBit(pos: Word, diff: Word): Word
    decreases pos.bits
  {
    if IsZero(pos) || HasBit(diff, pos) then pos else TopBit(Half(pos), diff)
  }

  /** How often a position can be halved. */
  ghost function Rank(pos: Word): nat
    decreases pos.bits
  {
    if IsZero(pos) then 0 else 1 + Rank(Half(pos))
  }

  // ---- Words ----

  lemma Chain(a: Word, b: Word, c: Word)
    requires OneHot(a) && OneHot(b) && OneHot(c) && AtMost(a, b) && AtMost(b, c)
    ensures AtMost(a, c)
    ensures Less(a, b) || Less(b, c) ==> Less(a, c)
  {
  }

  lemma PositionNotZero(pos: Word)
    requires OneHot(pos)
    ensures !IsZero(pos)
  {
  }

  lemma Smaller(a: Word, b: Word)
    requires Less(a, b)
    ensures a.bits < b.bits
  {
  }

  lemma Compare(a: Word, b: Word)
    requires OneHot(a) && OneHot(b)
    ensures Less(a, b) <==> AtMost(a, b) && a != b
    ensures AtMost(a, b) <==> !Less(b, a)
    ensures AtMost(ONE, a) && OneHot(ONE)
  {
  }

  lemma AgreeWidens(a: Word, b: Word, low: Word, high: Word)
    requires OneHot(low) && OneHot(high) && AtMost(low, high) && Agree(a, b, low)
    ensures Agree(a, b, high)
  {
  }

  lemma AgreeSelf(a: Word, pos: Word)
    ensures Agree(a, a, pos)
  {
  }

  lemma AgreeSym(a: Word, b: Word, pos: Word)
    requires Agree(a, b, pos)
    ensures Agree(b, a, pos)
  {
  }

  lemma OneLess(pos: Word)
    requires OneHot(pos) && pos != ONE
    ensures OneHot(ONE) && Less(ONE, pos)
  {
  }

  lemma AgreeTrans(a: Word, b: Word, c: Word, pos: Word)
    requires Agree(a, b, pos) && Agree(b, c, pos)
    ensures Agree(a, c, pos)
  {
  }

  lemma AgreeOnBit(a: Word, b: Word, low: Word, pos: Word)
    requires OneHot(low) && OneHot(pos) && Less(low, pos) && Agree(a, b, low)
    ensures HasBit(a, pos) == HasBit(b, pos)
  {
  }

  /** No difference in a range carries agreement down through it. */
  lemma AgreeNarrows(a: Word, b: Word, high: Word, low: Word)
    requires OneHot(low) && OneHot(high) && Less(low, high) && Agree(a, b, high)
    requires IsZero(Diff(a, b, high, low))
    ensures Agree(a, b, low)
  {
  }

  lemma AgreeHalf(a: Word, b: Word, pos: Word)
    requires OneHot(pos) && pos != ONE && Agree(a, b, pos) && HasBit(a, pos) == HasBit(b, pos)
    ensures Agree(a, b, Half(pos))
  {
  }

  lemma HalfIsNext(pos: Word, low: Word)
    requires OneHot(pos) && OneHot(low) && Less(low, pos)
    ensures OneHot(Half(pos)) && AtMost(low, Half(pos)) && Less(Half(pos), pos)
  {
  }

  lemma HalfBelow(b: Word, pos: Word)
    requires OneHot(b) && OneHot(pos) && AtMost(b, pos)
    ensures Less(Half(b), pos)
    ensures IsZero(Half(b)) <==> b == ONE
    ensures b != ONE ==> OneHot(Half(b))
  {
  }

  /** Two numbers that agree above a bit are ordered by that bit. */
  lemma {:induction false} BitOrders(a: Word, b: Word, pos: Word)
    requires OneHot(pos) && Agree(a, b, pos) && !HasBit(a, pos) && HasBit(b, pos)
    ensures Less(a, b)
    decreases pos.bits
  {
    hide OneHot, Agree, HasBit, Less, Half;
    if pos == ONE {
      LowestOrders(a, b);
    } else {
      HalfPosition(pos);
      HalvesAgree(a, b, pos);
      HalvesHaveBit(a, pos);
      HalvesHaveBit(b, pos);
      BitOrders(Half(a), Half(b), Half(pos));
      HalvesOrder(a, b);
    }
  }

  lemma LowestOrders(a: Word, b: Word)
    requires Agree(a, b, ONE) && !HasBit(a, ONE) && HasBit(b, ONE)
    ensures Less(a, b)
  {
  }

  lemma HalfPosition(pos: Word)
    requires OneHot(pos) && pos != ONE
    ensures OneHot(Half(pos)) && Half(pos).bits < pos.bits
  {
  }

  lemma HalvesAgree(a: Word, b: Word, pos: Word)
    requires OneHot(pos) && pos != ONE && Agree(a, b, pos)
    ensures Agree(Half(a), Half(b), Half(pos))
  {
  }

  lemma HalvesHaveBit(a: Word, pos: Word)
    requires OneHot(pos) && pos != ONE
    ensures HasBit(Half(a), Half(pos)) == HasBit(a, pos)
  {
  }

  lemma HalvesOrder(a: Word, b: Word)
    requires Less(Half(a), Half(b))
    ensures Less(a, b)
  {
  }

  lemma LeafNumbers(n: Word)
    ensures Agree(Even(n), n, ONE) && Agree(Odd(n), n, ONE)
  {
  }

  lemma OddNumber(n: Word)
    requires HasBit(n, ONE)
    ensures Odd(n) == n
  {
  }

  lemma EvenNumber(n: Word)
    requires !HasBit(n, ONE)
    ensures Even(n) == n
  {
  }

  lemma LeafOrder(n: Word)
    ensures Less(Even(n), Odd(n))
  {
  }

  lemma SameCleared(x: bv32, y: bv32)
    requires (x ^ y) & 0xFFFF_FFFE == 0
    ensures ClearLowest(x) == ClearLowest(y)
  {
  }

  lemma SameSet(x: bv32, y: bv32)
    requires (x ^ y) & 0xFFFF_FFFE == 0
    ensures SetLowest(x) == SetLowest(y)
  {
  }

  lemma AboveOne(a: Word, b: Word)
    requires Agree(a, b, ONE)
    ensures (a.bits ^ b.bits) & 0xFFFF_FFFE == 0
  {
  }

  lemma SameEven(a: Word, b: Word)
    requires Agree(a, b, ONE)
    ensures Even(a) == Even(b)
  {
    hide Agree, ClearLowest;
    AboveOne(a, b);
    SameCleared(a.bits, b.bits);
  }

  lemma SameOdd(a: Word, b: Word)
    requires Agree(a, b, ONE)
    ensures Odd(a) == Odd(b)
  {
    hide Agree, SetLowest;
    AboveOne(a, b);
    SameSet(a.bits, b.bits);
  }

  lemma DiffWithin(a: Word, b: Word, high: Word, low: Word)
    requires OneHot(high) && OneHot(low)
    ensures Within(Diff(a, b, high, low), high, low)
  {
  }

  lemma WithinHalf(pos: Word, low: Word, diff: Word)
    requires OneHot(pos) && !HasBit(diff, pos) && Within(diff, pos, low)
    ensures Within(diff, Half(pos), low)
  {
  }

  lemma WithinNothing(pos: Word, low: Word, diff: Word)
    requires OneHot(pos) && OneHot(low) && AtMost(pos, low) && Within(diff, pos, low)
    ensures IsZero(diff)
  {
  }

  lemma SplitAt(a: Word, b: Word, high: Word, low: Word, pos: Word)
    requires OneHot(high) && OneHot(low) && OneHot(pos) && Less(low, pos) && AtMost(pos, high) && Agree(a, b, high)
    requires var diff := Diff(a, b, high, low); HasBit(diff, pos) && Within(diff, pos, low)
    ensures Agree(a, b, pos) && HasBit(a, pos) != HasBit(b, pos)
  {
  }

  // ---- The most significant differing bit ----

  /** It exists, lies in the range, and nothing differs above it. */
  lemma {:induction false} TopBitFound(pos: Word, low: Word, diff: Word)
    requires OneHot(pos) && OneHot(low) && !IsZero(diff) && Within(diff, pos, low)
    ensures var b := TopBit(pos, diff);
      OneHot(b) && Less(low, b) && AtMost(b, pos) && HasBit(diff, b) && Within(diff, b, low)
    decreases pos.bits
  {
    hide OneHot, AtMost, Within, HasBit, Half, IsZero, Less;
    PositionNotZero(pos);
    Compare(pos, low);
    Compare(low, pos);
    if AtMost(pos, low) {
      WithinNothing(pos, low, diff);
    } else if HasBit(diff, pos) {
      Compare(pos, pos);
    } else {
      WithinHalf(pos, low, diff);
      HalfIsNext(pos, low);
      Smaller(Half(pos), pos);
      TopBitFound(Half(pos), low, diff);
      Compare(Half(pos), pos);
      Chain(TopBit(Half(pos), diff), Half(pos), pos);
    }
  }

  /** The top differing bit tells the numbers apart, and they agree above it. */
  lemma DifferAt(a: Word, b: Word, high: Word, low: Word)
    requires OneHot(high) && OneHot(low) && Agree(a, b, high) && !IsZero(Diff(a, b, high, low))
    ensures var pos := TopBit(high, Diff(a, b, high, low));
      OneHot(pos) && Less(low, pos) && AtMost(pos, high) && Agree(a, b, pos) && HasBit(a, pos) != HasBit(b, pos)
  {
    hide *;
    var diff := Diff(a, b, high, low);
    DiffWithin(a, b, high, low);
    TopBitFound(high, low, diff);
    SplitAt(a, b, high, low, TopBit(high, diff));
  }

  // ---- The order on non-negative numbers ----

  lemma NonNegativeAgree(a: Word, b: Word)
    requires NonNegative(a) && NonNegative(b)
    ensures Agree(a, b, TOP) && OneHot(TOP) && TOP != ONE
  {
  }

  lemma SameBits(a: Word, b: Word)
    requires Agree(a, b, ONE) && HasBit(a, ONE) == HasBit(b, ONE)
    ensures a == b
  {
  }

  /** The bit that tells two different numbers apart. */
  lemma Witness(a: Word, b: Word) returns (pos: Word)
    requires NonNegative(a) && NonNegative(b) && a != b
    ensures OneHot(pos) && Agree(a, b, pos) && Agree(b, a, pos) && HasBit(a, pos) != HasBit(b, pos)
    ensures if HasBit(b, pos) then Less(a, b) else Less(b, a)
  {
    hide *;
    OneIsOneHot();
    NonNegativeAgree(a, b);
    if !IsZero(Diff(a, b, TOP, ONE)) {
      DifferAt(a, b, TOP, ONE);
      pos := TopBit(TOP, Diff(a, b, TOP, ONE));
    } else {
      OneLess(TOP);
      AgreeNarrows(a, b, TOP, ONE);
      if HasBit(a, ONE) == HasBit(b, ONE) {
        SameBits(a, b);
      }
      pos := ONE;
    }
    AgreeSym(a, b, pos);
    if HasBit(b, pos) {
      BitOrders(a, b, pos);
    } else {
      BitOrders(b, a, pos);
    }
  }

  lemma OneIsOneHot()
    ensures OneHot(ONE)
  {
  }

  lemma LessNot(a: Word, b: Word)
    ensures Less(a, b) <==> !AtMost(b, a)
    ensures Less(a, b) ==> AtMost(a, b)
  {
  }

  lemma Antisymmetric(a: Word, b: Word)
    requires NonNegative(a) && NonNegative(b) && AtMost(a, b) && AtMost(b, a)
    ensures a == b
  {
    hide *;
    if a != b {
      LessNot(a, b);
      LessNot(b, a);
      var pos := Witness(a, b);
    }
  }

  /** What Witness says of numbers in order. */
  lemma LessWitness(a: Word, b: Word) returns (pos: Word)
    requires NonNegative(a) && NonNegative(b) && a != b && AtMost(a, b)
    ensures OneHot(pos) && Agree(a, b, pos) && !HasBit(a, pos) && HasBit(b, pos)
  {
    hide *;
    pos := Witness(a, b);
    LessNot(b, a);
  }

  lemma StrictlyTransitive(a: Word, b: Word, c: Word, p: Word, q: Word)
    requires OneHot(p) && Agree(a, b, p) && !HasBit(a, p) && HasBit(b, p)
    requires OneHot(q) && Agree(b, c, q) && !HasBit(b, q) && HasBit(c, q)
    ensures Less(a, c)
  {
    hide *;
    Compare(p, q);
    Compare(q, p);
    if Less(q, p) {
      AgreeOnBit(b, c, q, p);
      AgreeWidens(b, c, q, p);
      AgreeTrans(a, b, c, p);
      BitOrders(a, c, p);
    } else {
      AgreeOnBit(a, b, p, q);
      AgreeWidens(a, b, p, q);
      AgreeTrans(a, b, c, q);
      BitOrders(a, c, q);
    }
  }

  lemma Transitive(a: Word, b: Word, c: Word)
    requires NonNegative(a) && NonNegative(b) && NonNegative(c) && AtMost(a, b) && AtMost(b, c)
    ensures AtMost(a, c)
  {
    hide *;
    if a != b && b != c {
      var p := LessWitness(a, b);
      var q := LessWitness(b, c);
      StrictlyTransitive(a, b, c, p, q);
      LessNot(a, c);
    }
  }
}

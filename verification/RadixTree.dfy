/** The compressed radix tree as a sorted multiset: trees as values, and what insertion and
    extraction do to them. */
module RadixTree {
  import opened RadixBits

  /** A leaf counts its two numbers, which differ in the lowest bit only. An interior node branches
      on one bit; a child may be missing after its numbers have been taken out. */
  datatype Tree =
    | Nil
    | Leaf(number: Word, zeros: nat, ones: nat)
    | Interior(bit: Word, number: Word, zero: Tree, one: Tree)

  function BitPos(t: Tree): Word
    requires !t.Nil?
  {
    if t.Leaf? then ONE else t.bit
  }

  /** A child below a branching bit: its own bit is lower, and its number agrees with the parent's
      above the bit and lies on the right side of it. */
  ghost predicate ChildOk(c: Tree, bit: Word, number: Word, side: bool) {
    c.Nil? || (OneHot(BitPos(c)) && Less(BitPos(c), bit) && Agree(c.number, number, bit) && HasBit(c.number, bit) == side)
  }

  /** The shape every operation keeps. In particular no leaf is empty and no interior is childless. */
  ghost predicate Shape(t: Tree) {
    match t
    case Nil => true
    case Leaf(n, zeros, ones) => NonNegative(n) && zeros + ones > 0
    case Interior(bit, number, zero, one) =>
      && OneHot(bit) && bit != ONE && NonNegative(number)
      && !(zero.Nil? && one.Nil?)
      && Shape(zero) && Shape(one)
      && ChildOk(zero, bit, number, false) && ChildOk(one, bit, number, true)
  }

  function Copies(n: Word, k: nat): (s: seq<Word>)
    ensures |s| == k && forall i | 0 <= i < k :: s[i] == n
  {
    seq(k, _ => n)
  }

  /** The members in the order of the tree, the zero side first. */
  function Listing(t: Tree): seq<Word> {
    match t
    case Nil => []
    case Leaf(n, zeros, ones) => Copies(Even(n), zeros) + Copies(Odd(n), ones)
    case Interior(_, _, zero, one) => Listing(zero) + Listing(one)
  }

  function Members(t: Tree): multiset<Word> {
    multiset(Listing(t))
  }

  ghost predicate Sorted(s: seq<Word>) {
    forall i, j | 0 <= i < j < |s| :: AtMost(s[i], s[j])
  }

  // ---- The listing of a well-shaped tree ----

  lemma {:induction false} MemberAgrees(t: Tree, m: Word)
    requires Shape(t) && m in Listing(t)
    ensures !t.Nil? && Agree(m, t.number, BitPos(t))
  {
    match t
    case Leaf(n, zeros, ones) =>
      hide Agree, Even, Odd;
      LeafNumbers(n);
    case Interior(bit, number, zero, one) =>
      hide Agree, OneHot, Less, HasBit, Even, Odd;
      if m in Listing(zero) {
        MemberAgrees(zero, m);
        ChildMember(m, zero.number, BitPos(zero), bit, number);
      } else {
        MemberAgrees(one, m);
        ChildMember(m, one.number, BitPos(one), bit, number);
      }
  }

  lemma ChildMember(m: Word, c: Word, low: Word, bit: Word, number: Word)
    requires OneHot(low) && OneHot(bit) && Less(low, bit) && Agree(m, c, low) && Agree(c, number, bit)
    ensures Agree(m, number, bit) && HasBit(m, bit) == HasBit(c, bit)
  {
    hide *;
    Compare(low, bit);
    AgreeWidens(m, c, low, bit);
    AgreeTrans(m, c, number, bit);
    AgreeOnBit(m, c, low, bit);
  }

  lemma SortedConcat(a: seq<Word>, b: seq<Word>)
    requires Sorted(a) && Sorted(b)
    requires forall x, y | x in a && y in b :: AtMost(x, y)
    ensures Sorted(a + b)
  {
    hide AtMost;
    forall i, j | 0 <= i < j < |a + b| ensures AtMost((a + b)[i], (a + b)[j]) {
      if i < |a| <= j {
        assert (a + b)[i] in a && (a + b)[j] in b;
      }
    }
  }

  lemma Reflexive(n: Word)
    ensures AtMost(n, n)
  {
  }

  lemma LessAtMost(a: Word, b: Word)
    requires Less(a, b)
    ensures AtMost(a, b)
  {
  }

  lemma CopiesSorted(n: Word, k: nat)
    ensures Sorted(Copies(n, k))
  {
    hide AtMost;
    Reflexive(n);
  }

  /** The listing of a well-shaped tree is in ascending order. */
  lemma {:induction false} ListingSorted(t: Tree)
    requires Shape(t)
    ensures Sorted(Listing(t))
  {
    hide Agree, OneHot, Less, HasBit, Even, Odd, AtMost;
    match t
    case Nil =>
    case Leaf(n, zeros, ones) =>
      CopiesSorted(Even(n), zeros);
      CopiesSorted(Odd(n), ones);
      LeafOrder(n);
      LessAtMost(Even(n), Odd(n));
      SortedConcat(Copies(Even(n), zeros), Copies(Odd(n), ones));
    case Interior(bit, number, zero, one) =>
      ListingSorted(zero);
      ListingSorted(one);
      forall x, y | x in Listing(zero) && y in Listing(one) ensures AtMost(x, y) {
        SidesOrdered(t, x, y);
      }
      SortedConcat(Listing(zero), Listing(one));
  }

  lemma SidesOrdered(t: Tree, x: Word, y: Word)
    requires Shape(t) && t.Interior? && x in Listing(t.zero) && y in Listing(t.one)
    ensures AtMost(x, y)
  {
    hide Agree, OneHot, Less, HasBit, Even, Odd, AtMost;
    MemberAgrees(t.zero, x);
    MemberAgrees(t.one, y);
    ChildMember(x, t.zero.number, BitPos(t.zero), t.bit, t.number);
    ChildMember(y, t.one.number, BitPos(t.one), t.bit, t.number);
    AgreeSym(y, t.number, t.bit);
    AgreeTrans(x, t.number, y, t.bit);
    BitOrders(x, y, t.bit);
    LessAtMost(x, y);
  }

  // ---- Insertion ----

  function NewLeaf(n: Word): Tree {
    if HasBit(n, ONE) then Leaf(n, 0, 1) else Leaf(n, 1, 0)
  }

  /** A new interior node above a subtree, branching where the number differs from it. */
  function Inject(t: Tree, bit: Word, n: Word): Tree {
    if HasBit(n, bit) then Interior(bit, n, t, NewLeaf(n)) else Interior(bit, n, NewLeaf(n), t)
  }

  /** Insert a number into a subtree at a bit position, as the loop of add_number does it. */
  function Insert(t: Tree, pos: Word, n: Word): Tree
    decreases t
  {
    if t.Nil? then
      NewLeaf(n)
    else if Less(BitPos(t), pos) && !IsZero(Diff(n, t.number, pos, BitPos(t))) then
      Inject(t, TopBit(pos, Diff(n, t.number, pos, BitPos(t))), n)
    else if t.Leaf? then
      if HasBit(n, ONE) then t.(ones := t.ones + 1) else t.(zeros := t.zeros + 1)
    else if HasBit(n, t.bit) then
      t.(one := Insert(t.one, Half(t.bit), n))
    else
      t.(zero := Insert(t.zero, Half(t.bit), n))
  }

  /** The subtree may be reached at this position when looking for the number. */
  ghost predicate Fits(t: Tree, pos: Word, n: Word) {
    && OneHot(pos) && Shape(t)
    && (!t.Nil? ==> OneHot(BitPos(t)) && AtMost(BitPos(t), pos) && Agree(n, t.number, pos))
  }

  lemma NewLeafFits(pos: Word, n: Word)
    requires OneHot(pos) && NonNegative(n)
    ensures Fits(NewLeaf(n), pos, n) && Listing(NewLeaf(n)) == [n]
  {
    hide Agree, OneHot, Less, HasBit, Even, Odd, AtMost, NonNegative;
    Compare(pos, pos);
    AgreeSelf(n, pos);
    if HasBit(n, ONE) {
      OddNumber(n);
      assert Listing(NewLeaf(n)) == [n];
    } else {
      EvenNumber(n);
      assert Listing(NewLeaf(n)) == [n];
    }
  }

  /** Descending from a node leads to a child that the number still fits. */
  lemma DescendFits(t: Tree, pos: Word, n: Word)
    requires Fits(t, pos, n) && t.Interior?
    requires Less(t.bit, pos) ==> IsZero(Diff(n, t.number, pos, t.bit))
    ensures Agree(n, t.number, t.bit)
    ensures Fits(if HasBit(n, t.bit) then t.one else t.zero, Half(t.bit), n)
  {
    hide Agree, OneHot, Less, HasBit, AtMost, Half, Diff, Even, Odd;
    Compare(t.bit, pos);
    if t.bit != pos {
      AgreeNarrows(n, t.number, pos, t.bit);
    }
    OneLess(t.bit);
    HalfIsNext(t.bit, ONE);
    var c := if HasBit(n, t.bit) then t.one else t.zero;
    if !c.Nil? {
      HalfIsNext(t.bit, BitPos(c));
      AgreeSym(c.number, t.number, t.bit);
      AgreeTrans(n, t.number, c.number, t.bit);
      AgreeHalf(n, c.number, t.bit);
    }
  }

  /** What insertion leaves is a child that fits where the old one did. */
  lemma ReplacedChildOk(t: Tree, c: Tree, n: Word)
    requires Shape(t) && t.Interior? && Agree(n, t.number, t.bit)
    requires Fits(c, Half(t.bit), n) && !c.Nil?
    ensures ChildOk(c, t.bit, t.number, HasBit(n, t.bit))
  {
    hide Agree, OneHot, Less, HasBit, AtMost, Half, Even, Odd;
    OneLess(t.bit);
    HalfIsNext(t.bit, ONE);
    Compare(Half(t.bit), t.bit);
    Chain(BitPos(c), Half(t.bit), t.bit);
    AgreeOnBit(n, c.number, Half(t.bit), t.bit);
    AgreeWidens(n, c.number, Half(t.bit), t.bit);
    AgreeSym(n, c.number, t.bit);
    AgreeTrans(c.number, n, t.number, t.bit);
  }

  lemma InjectFits(t: Tree, pos: Word, n: Word)
    requires NonNegative(n)
    requires Fits(t, pos, n) && !t.Nil? && Less(BitPos(t), pos) && !IsZero(Diff(n, t.number, pos, BitPos(t)))
    ensures var r := Inject(t, TopBit(pos, Diff(n, t.number, pos, BitPos(t))), n);
      Fits(r, pos, n) && r.Interior?
  {
    hide Agree, OneHot, Less, HasBit, AtMost, Diff, TopBit, Even, Odd, NonNegative;
    DifferAt(n, t.number, pos, BitPos(t));
    var bit := TopBit(pos, Diff(n, t.number, pos, BitPos(t)));
    Compare(BitPos(t), bit);
    AgreeSelf(n, pos);
    AgreeSelf(n, bit);
    AgreeSym(n, t.number, bit);
    NewLeafFits(pos, n);
    Compare(ONE, bit);
    OneBelow(bit, BitPos(t));
    assert Shape(Inject(t, bit, n));
  }

  lemma OneBelow(bit: Word, low: Word)
    requires OneHot(bit) && OneHot(low) && Less(low, bit)
    ensures Less(ONE, bit) && bit != ONE
  {
  }

  lemma OneMoreCopy(n: Word, k: nat)
    ensures multiset(Copies(n, k + 1)) == multiset(Copies(n, k)) + multiset{n}
  {
    assert Copies(n, k + 1) == Copies(n, k) + [n];
  }

  lemma LeafInsert(t: Tree, pos: Word, n: Word)
    requires Fits(t, pos, n) && t.Leaf? && NonNegative(n)
    requires Less(ONE, pos) ==> IsZero(Diff(n, t.number, pos, ONE))
    ensures var r := if HasBit(n, ONE) then t.(ones := t.ones + 1) else t.(zeros := t.zeros + 1);
      Fits(r, pos, n) && Members(r) == Members(t) + multiset{n}
  {
    hide Agree, OneHot, Less, HasBit, AtMost, Diff, Even, Odd, NonNegative, Copies, IsZero, Members, Listing;
    Compare(ONE, pos);
    if pos != ONE {
      AgreeNarrows(n, t.number, pos, ONE);
    }
    LeafCounts(t, n);
  }

  lemma LeafCounts(t: Tree, n: Word)
    requires t.Leaf? && Agree(n, t.number, ONE)
    ensures var r := if HasBit(n, ONE) then t.(ones := t.ones + 1) else t.(zeros := t.zeros + 1);
      Members(r) == Members(t) + multiset{n}
  {
    hide Agree, HasBit, Even, Odd, Copies;
    if HasBit(n, ONE) {
      SameOdd(n, t.number);
      OddNumber(n);
      OneMoreCopy(Odd(t.number), t.ones);
    } else {
      SameEven(n, t.number);
      EvenNumber(n);
      OneMoreCopy(Even(t.number), t.zeros);
    }
  }

  /** r has one copy of the number more than t, and is as good a subtree. */
  ghost predicate Adds(t: Tree, r: Tree, pos: Word, n: Word) {
    Fits(r, pos, n) && !r.Nil? && Members(r) == Members(t) + multiset{n}
  }

  lemma InjectAdds(t: Tree, pos: Word, n: Word)
    requires NonNegative(n)
    requires Fits(t, pos, n) && !t.Nil? && Less(BitPos(t), pos) && !IsZero(Diff(n, t.number, pos, BitPos(t)))
    ensures Insert(t, pos, n).Interior? && Adds(t, Insert(t, pos, n), pos, n)
  {
    hide Agree, OneHot, Less, HasBit, AtMost, Diff, TopBit, Even, Odd, NonNegative, IsZero, Shape, Fits, NewLeaf;
    InjectFits(t, pos, n);
    FitsAt(t, pos, n);
    NewLeafFits(pos, n);
  }

  lemma FitsAt(t: Tree, pos: Word, n: Word)
    requires Fits(t, pos, n)
    ensures OneHot(pos)
  {
  }

  /** A child with one number more makes a tree with one number more. */
  lemma ReplacedAdds(t: Tree, c: Tree, pos: Word, n: Word)
    requires Fits(t, pos, n) && t.Interior? && Agree(n, t.number, t.bit)
    requires Adds(if HasBit(n, t.bit) then t.one else t.zero, c, Half(t.bit), n)
    ensures Adds(t, if HasBit(n, t.bit) then t.(one := c) else t.(zero := c), pos, n)
  {
    hide Agree, OneHot, Less, HasBit, AtMost, Half, Even, Odd, NonNegative, Copies, ChildOk;
    ReplacedChildOk(t, c, n);
  }

  /** Insertion keeps the shape and adds exactly one copy of the number. */
  lemma {:induction false} InsertAdds(t: Tree, pos: Word, n: Word)
    requires Fits(t, pos, n) && NonNegative(n)
    ensures var r := Insert(t, pos, n);
      Fits(r, pos, n) && !r.Nil? && Members(r) == Members(t) + multiset{n}
    decreases t
  {
    hide Agree, OneHot, Less, HasBit, AtMost, Diff, TopBit, Half, Even, Odd, NonNegative, IsZero, Shape, Fits, Members;
    if t.Nil? {
      FitsAt(t, pos, n);
      NewLeafAdds(pos, n);
    } else if Less(BitPos(t), pos) && !IsZero(Diff(n, t.number, pos, BitPos(t))) {
      InjectAdds(t, pos, n);
    } else if t.Leaf? {
      LeafInsert(t, pos, n);
    } else {
      DescendFits(t, pos, n);
      var c := if HasBit(n, t.bit) then t.one else t.zero;
      InsertAdds(c, Half(t.bit), n);
      ReplacedAdds(t, Insert(c, Half(t.bit), n), pos, n);
    }
  }

  lemma NewLeafAdds(pos: Word, n: Word)
    requires OneHot(pos) && NonNegative(n)
    ensures Adds(Nil, NewLeaf(n), pos, n)
  {
    hide OneHot, NonNegative, Shape, Fits, HasBit;
    NewLeafFits(pos, n);
  }

  /** add_number on the whole tree. */
  function AddNumber(t: Tree, n: Word): Tree {
    Insert(t, TOP, n)
  }

  lemma RootFits(t: Tree, n: Word)
    requires Shape(t) && NonNegative(n)
    ensures Fits(t, TOP, n)
  {
    hide Agree, OneHot, AtMost, NonNegative, Less, HasBit;
    NonNegativeAgree(n, n);
    if !t.Nil? {
      Compare(TOP, TOP);
      NonNegativeAgree(n, t.number);
      TopIsTop(BitPos(t));
    }
  }

  lemma TopIsTop(pos: Word)
    requires OneHot(pos)
    ensures AtMost(pos, TOP)
  {
  }

  // ---- Extraction ----

  function Min(a: nat, b: nat): nat { if a < b then a else b }

  /** Take up to k numbers out of a subtree: what is left and what comes out. */
  function Take(t: Tree, k: nat): (r: (Tree, seq<Word>))
    ensures |r.1| <= k
  {
    if k == 0 then (t, []) else
    match t
    case Nil => (Nil, [])
    case Leaf(n, zeros, ones) =>
      var z := Min(k, zeros);
      var o := Min(k - z, ones);
      (if zeros == z && ones == o then Nil else Leaf(n, zeros - z, ones - o),
       Copies(Even(n), z) + Copies(Odd(n), o))
    case Interior(bit, number, zero, one) =>
      var (zero', first) := Take(zero, k);
      var (one', second) := Take(one, k - |first|);
      (if zero'.Nil? && one'.Nil? then Nil else Interior(bit, number, zero', one'), first + second)
  }

  /** Taking k numbers out of a list gives its first ones and leaves the others. */
  ghost predicate Splits(s: seq<Word>, k: nat, out: seq<Word>, rest: seq<Word>) {
    out == s[..Min(k, |s|)] && rest == s[Min(k, |s|)..]
  }

  /** Extraction takes the first k of the listing and leaves exactly the rest, in a well-shaped tree
      whose root, if any, is the old one. */
  lemma {:induction false} TakeSplits(t: Tree, k: nat)
    requires Shape(t)
    ensures var (rest, out) := Take(t, k);
      && Splits(Listing(t), k, out, Listing(rest))
      && Shape(rest)
      && (!rest.Nil? ==> !t.Nil? && BitPos(rest) == BitPos(t) && rest.number == t.number)
    decreases t
  {
    hide Take, Shape, Listing, Splits;
    match t
    case Nil =>
      TakeNothing(t, k);
    case Leaf(_, _, _) =>
      TakeLeafSplits(t, k);
    case Interior(_, _, zero, one) =>
      if k == 0 {
        TakeNothing(t, k);
      } else {
        var (zero', first) := Take(zero, k);
        var (one', second) := Take(one, k - |first|);
        ShapeBelow(t);
        TakeSplits(zero, k);
        TakeSplits(one, k - |first|);
        TakeOfInterior(t, k);
        SplitConcat(Listing(zero), Listing(one), k, first, Listing(zero'), second, Listing(one'));
        InteriorLeft(t, zero', one');
      }
  }

  lemma TakeNothing(t: Tree, k: nat)
    requires t.Nil? || k == 0
    ensures Take(t, k) == (t, []) && Splits(Listing(t), k, [], Listing(t))
  {
  }

  lemma TakeLeafSplits(t: Tree, k: nat)
    requires t.Leaf? && Shape(t)
    ensures var (rest, out) := Take(t, k);
      && Splits(Listing(t), k, out, Listing(rest))
      && Shape(rest)
      && (!rest.Nil? ==> BitPos(rest) == BitPos(t) && rest.number == t.number)
  {
    hide Even, Odd, NonNegative;
  }

  lemma ShapeBelow(t: Tree)
    requires t.Interior? && Shape(t)
    ensures Shape(t.zero) && Shape(t.one) && Listing(t) == Listing(t.zero) + Listing(t.one)
  {
  }

  /** An interior node over what is left of its subtrees. */
  lemma InteriorLeft(t: Tree, zero: Tree, one: Tree)
    requires t.Interior? && Shape(t) && Shape(zero) && Shape(one)
    requires !zero.Nil? ==> !t.zero.Nil? && BitPos(zero) == BitPos(t.zero) && zero.number == t.zero.number
    requires !one.Nil? ==> !t.one.Nil? && BitPos(one) == BitPos(t.one) && one.number == t.one.number
    ensures var rest := if zero.Nil? && one.Nil? then Nil else Interior(t.bit, t.number, zero, one);
      Shape(rest) && Listing(rest) == Listing(zero) + Listing(one)
  {
    hide Agree, OneHot, Less, HasBit, NonNegative;
  }

  lemma TakeOfInterior(t: Tree, k: nat)
    requires t.Interior? && k > 0
    ensures var (z, first) := Take(t.zero, k); var (o, second) := Take(t.one, k - |first|);
      Take(t, k) == (if z.Nil? && o.Nil? then Nil else Interior(t.bit, t.number, z, o), first + second)
  {
  }

  lemma SplitConcat(a: seq<Word>, b: seq<Word>, k: nat, first: seq<Word>, a': seq<Word>, second: seq<Word>, b': seq<Word>)
    requires |first| <= k && Splits(a, k, first, a') && Splits(b, k - |first|, second, b')
    ensures Splits(a + b, k, first + second, a' + b')
  {
  }

  /** Taking j and then the rest of k is taking k. */
  lemma SplitTwice(s: seq<Word>, j: nat, k: nat, out: seq<Word>, rest: seq<Word>, out': seq<Word>, rest': seq<Word>)
    requires Splits(s, j, out, rest) && j <= k && |out| <= k && Splits(rest, k - |out|, out', rest')
    ensures Splits(s, k, out + out', rest')
  {
  }

  lemma SplitMore(s: seq<Word>, a: nat, b: nat, out: seq<Word>, rest: seq<Word>, out': seq<Word>, rest': seq<Word>)
    requires Splits(s, a, out, rest) && Splits(rest, b, out', rest')
    ensures Splits(s, a + b, out + out', rest')
  {
  }

  /** Two ways of asking for more than is left. */
  lemma SplitShort(s: seq<Word>, j: nat, k: nat, out: seq<Word>, rest: seq<Word>)
    requires Splits(s, j, out, rest) && |out| < j <= k
    ensures Splits(s, k, out, rest) && rest == []
  {
  }

  lemma SplitUnique(s: seq<Word>, k: nat, out: seq<Word>, rest: seq<Word>, out': seq<Word>, rest': seq<Word>)
    requires Splits(s, k, out, rest) && Splits(s, k, out', rest')
    ensures out == out' && rest == rest'
  {
  }

  /** Taking in two rounds is taking once. */
  lemma TakeTwice(t: Tree, a: nat, b: nat)
    requires Shape(t)
    ensures Take(t, a).1 + Take(Take(t, a).0, b).1 == Take(t, a + b).1
    ensures Listing(Take(Take(t, a).0, b).0) == Listing(Take(t, a + b).0)
  {
    hide Take, Shape, Listing, Splits;
    var first := Take(t, a);
    var second, whole := Take(first.0, b), Take(t, a + b);
    TakeSplits(t, a);
    TakeSplits(first.0, b);
    TakeSplits(t, a + b);
    var s, rest := Listing(t), Listing(second.0);
    SplitMore(s, a, b, first.1, Listing(first.0), second.1, rest);
    SplitUnique(s, a + b, first.1 + second.1, rest, whole.1, Listing(whole.0));
  }

  /** main's loop: take at most 1000 at a time until the limit is met or nothing comes out. */
  function TakeInChunks(t: Tree, limit: nat): (Tree, seq<Word>)
    decreases limit
  {
    if limit == 0 then (t, []) else
    var (rest, out) := Take(t, Min(limit, 1000));
    if out == [] then (rest, []) else
    var (rest', out') := TakeInChunks(rest, limit - |out|);
    (rest', out + out')
  }

  lemma {:induction false} ChunksSplit(t: Tree, limit: nat)
    requires Shape(t)
    ensures var (rest, out) := TakeInChunks(t, limit);
      Splits(Listing(t), limit, out, Listing(rest)) && Shape(rest)
    decreases limit
  {
    hide Take, Shape, Listing, TakeInChunks, Splits;
    ChunkStep(t, limit);
    var k := Min(limit, 1000);
    var (rest, out) := Take(t, k);
    TakeSplits(t, k);
    if limit == 0 {
      TakeNothing(t, 0);
    } else if out == [] {
      SplitShort(Listing(t), k, limit, out, Listing(rest));
    } else {
      ChunksSplit(rest, limit - |out|);
      var (rest', out') := TakeInChunks(rest, limit - |out|);
      SplitTwice(Listing(t), k, limit, out, Listing(rest), out', Listing(rest'));
    }
  }

  lemma ChunkStep(t: Tree, limit: nat)
    ensures limit == 0 ==> TakeInChunks(t, limit) == (t, [])
    ensures
      var (rest, out) := Take(t, Min(limit, 1000));
      limit > 0 && out == [] ==> TakeInChunks(t, limit) == (rest, [])
    ensures
      var (rest, out) := Take(t, Min(limit, 1000));
      limit > 0 && out != [] ==>
        |out| <= limit &&
        TakeInChunks(t, limit) == (TakeInChunks(rest, limit - |out|).0, out + TakeInChunks(rest, limit - |out|).1)
  {
  }

  /** Taking in chunks is taking once. */
  lemma ChunksAreOneTake(t: Tree, limit: nat)
    requires Shape(t)
    ensures TakeInChunks(t, limit).1 == Take(t, limit).1
    ensures Listing(TakeInChunks(t, limit).0) == Listing(Take(t, limit).0)
    ensures Shape(TakeInChunks(t, limit).0)
  {
    hide Take, Shape, Listing, TakeInChunks, Splits;
    TakeSplits(t, limit);
    ChunksSplit(t, limit);
    var (rest, out) := Take(t, limit);
    var (rest', out') := TakeInChunks(t, limit);
    SplitUnique(Listing(t), limit, out, Listing(rest), out', Listing(rest'));
  }

  // ---- A sorted list as the reference ----

  function InsertSorted(s: seq<Word>, n: Word): seq<Word> {
    if s == [] || AtMost(n, s[0]) then [n] + s else [s[0]] + InsertSorted(s[1..], n)
  }

  ghost predicate Numbers(s: seq<Word>) {
    forall i | 0 <= i < |s| :: NonNegative(s[i])
  }

  lemma {:induction false} InsertSortedOk(s: seq<Word>, n: Word)
    requires Sorted(s) && Numbers(s) && NonNegative(n)
    ensures Sorted(InsertSorted(s, n)) && multiset(InsertSorted(s, n)) == multiset(s) + multiset{n}
  {
    hide AtMost, NonNegative;
    if s == [] {
    } else if AtMost(n, s[0]) {
      forall i | 0 <= i < |s| ensures AtMost(n, s[i]) {
        if i > 0 {
          Transitive(n, s[0], s[i]);
        }
      }
    } else {
      LessNot(s[0], n);
      InsertSortedOk(s[1..], n);
      var r := InsertSorted(s[1..], n);
      assert s == [s[0]] + s[1..];
      forall x | x in r ensures AtMost(s[0], x) {
        assert x in multiset(r);
        if x != n {
          assert x in multiset(s[1..]);
        }
      }
    }
  }

  /** There is only one way to list a multiset in ascending order. */
  lemma WithoutFirst(a: seq<Word>)
    requires a != []
    ensures multiset(a[1..]) == multiset(a) - multiset{a[0]} && a == [a[0]] + a[1..]
  {
    assert a == [a[0]] + a[1..];
  }

  lemma {:induction false} SortedUnique(a: seq<Word>, b: seq<Word>)
    requires Sorted(a) && Sorted(b) && Numbers(a) && Numbers(b) && multiset(a) == multiset(b)
    ensures a == b
  {
    hide AtMost, NonNegative;
    assert |a| == |multiset(a)| == |multiset(b)| == |b|;
    if a != [] {
      assert a[0] in multiset(b) && b[0] in multiset(b) && b[0] in multiset(a);
      SmallestFirst(a, b[0]);
      SmallestFirst(b, a[0]);
      Antisymmetric(a[0], b[0]);
      WithoutFirst(a);
      WithoutFirst(b);
      SortedUnique(a[1..], b[1..]);
    }
  }

  lemma SmallestFirst(s: seq<Word>, x: Word)
    requires Sorted(s) && x in multiset(s)
    ensures AtMost(s[0], x)
  {
    hide AtMost;
    Reflexive(x);
    assert x in s;
  }

  lemma {:induction false} ListingNumbers(t: Tree)
    requires Shape(t)
    ensures Numbers(Listing(t))
  {
    hide Agree, OneHot, Less, HasBit, AtMost, Even, Odd, NonNegative;
    match t
    case Nil =>
    case Leaf(n, _, _) => LeafNonNegative(n);
    case Interior(_, _, zero, one) =>
      ListingNumbers(zero);
      ListingNumbers(one);
  }

  lemma LeafNonNegative(n: Word)
    requires NonNegative(n)
    ensures NonNegative(Even(n)) && NonNegative(Odd(n))
  {
  }

  /** The tree after add_number lists what a sorted list gets by insertion. */
  lemma AddNumberSorts(t: Tree, n: Word)
    requires Shape(t) && NonNegative(n)
    ensures Shape(AddNumber(t, n)) && Listing(AddNumber(t, n)) == InsertSorted(Listing(t), n)
  {
    hide NonNegative, Shape, Sorted, Numbers, Listing, InsertSorted, Insert;
    RootFits(t, n);
    InsertAdds(t, TOP, n);
    var r := AddNumber(t, n);
    ListingSorted(t);
    ListingSorted(r);
    ListingNumbers(t);
    ListingNumbers(r);
    InsertSortedOk(Listing(t), n);
    InsertedNumbers(Listing(t), n);
    SortedUnique(Listing(r), InsertSorted(Listing(t), n));
  }

  lemma {:induction false} InsertedNumbers(s: seq<Word>, n: Word)
    requires Numbers(s) && NonNegative(n)
    ensures Numbers(InsertSorted(s, n))
  {
    hide AtMost, NonNegative;
    if s != [] && !AtMost(n, s[0]) {
      InsertedNumbers(s[1..], n);
    }
  }

  // ---- Whole runs of main ----

  /** A number in the input: add it, or, when it is negative, take out that many. */
  datatype Command = Add(n: Word) | TakeOut(limit: nat)

  function RunTree(t: Tree, input: seq<Command>): seq<Word>
    decreases |input|
  {
    if input == [] then [] else
    match input[0]
    case Add(n) => RunTree(AddNumber(t, n), input[1..])
    case TakeOut(limit) =>
      var (rest, out) := TakeInChunks(t, limit);
      out + RunTree(rest, input[1..])
  }

  function RunSorted(s: seq<Word>, input: seq<Command>): seq<Word>
    decreases |input|
  {
    if input == [] then [] else
    match input[0]
    case Add(n) => RunSorted(InsertSorted(s, n), input[1..])
    case TakeOut(limit) =>
      s[..Min(limit, |s|)] + RunSorted(s[Min(limit, |s|)..], input[1..])
  }

  ghost predicate InputOk(input: seq<Command>) {
    forall i | 0 <= i < |input| :: input[i].Add? ==> NonNegative(input[i].n)
  }

  /** On every input the program writes what a sorted list would deliver. */
  lemma {:induction false} RunsAgree(t: Tree, input: seq<Command>)
    requires Shape(t) && InputOk(input)
    ensures RunTree(t, input) == RunSorted(Listing(t), input)
    decreases |input|
  {
    hide NonNegative, Shape, Listing, AddNumber, InsertSorted, TakeInChunks, Take;
    if input != [] {
      match input[0]
      case Add(n) =>
        AddNumberSorts(t, n);
        RunsAgree(AddNumber(t, n), input[1..]);
      case TakeOut(limit) =>
        ChunksAreOneTake(t, limit);
        TakeSplits(t, limit);
        RunsAgree(TakeInChunks(t, limit).0, input[1..]);
    }
  }
}

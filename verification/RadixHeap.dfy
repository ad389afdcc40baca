/** The radix tree in memory: nodes that add_number and take_numbers_2 change in place, proved
    against the trees of module RadixTree. */
module RadixHeap {
  import opened RadixBits
  import opened RadixTree

  /** A place that holds a pointer to a node, such as `tree` or the `zero` field of a node. */
  class Cell {
    var ptr: Node?

    constructor ()
      ensures ptr == null
    {
      ptr := null;
    }
  }

  class Node {
    var bitPos: Word
    var number: Word
    var countZero: nat
    var countOne: nat
    const zero: Cell
    const one: Cell

    constructor (bitPos: Word, number: Word)
      ensures this.bitPos == bitPos && this.number == number && countZero == 0 && countOne == 0
      ensures fresh(zero) && fresh(one) && zero != one && zero.ptr == null && one.ptr == null
    {
      this.bitPos, this.number, countZero, countOne := bitPos, number, 0, 0;
      zero := new Cell();
      one := new Cell();
    }
  }

  /** Which node is where. */
  datatype Layout = Empty | At(node: Node, zero: Layout, one: Layout)

  function Top(l: Layout): Node? {
    if l.Empty? then null else l.node
  }

  function Own(n: Node): set<object> {
    {n, n.zero, n.one}
  }

  function Foot(l: Layout): set<object> {
    if l.Empty? then {} else Own(l.node) + Foot(l.zero) + Foot(l.one)
  }

  /** The memory has this layout: pointers lead to the children and no two nodes share a place. */
  ghost predicate Holds(l: Layout)
    reads Foot(l)
  {
    match l
    case Empty => true
    case At(n, z, o) =>
      && n.zero != n.one && Own(n) !! Foot(z) && Own(n) !! Foot(o) && Foot(z) !! Foot(o)
      && if n.bitPos == ONE then z.Empty? && o.Empty?
         else n.zero.ptr == Top(z) && n.one.ptr == Top(o) && Holds(z) && Holds(o)
  }

  /** The tree that the nodes represent. */
  ghost function Abs(l: Layout): Tree
    reads Foot(l)
  {
    match l
    case Empty => Nil
    case At(n, z, o) =>
      if n.bitPos == ONE then Leaf(n.number, n.countZero, n.countOne)
      else Interior(n.bitPos, n.number, Abs(z), Abs(o))
  }

  // ---- take_numbers_2 ----

  /** The two loops over a leaf: copy numbers into the buffer while there is room and count them off. */
  method TakeLeaf(n: Node, buffer: array<Word>, start: nat, end: nat) returns (at: nat)
    requires start <= end <= buffer.Length
    modifies n`countZero, n`countOne, buffer
    ensures var z := Min(end - start, old(n.countZero)); var o := Min(end - start - z, old(n.countOne));
      && at == start + z + o
      && n.countZero == old(n.countZero) - z && n.countOne == old(n.countOne) - o
      && buffer[start..at] == Copies(Even(n.number), z) + Copies(Odd(n.number), o)
    ensures forall i | 0 <= i < buffer.Length && !(start <= i < at) :: buffer[i] == old(buffer[i])
  {
    hide Even, Odd;
    at := start;
    while at < end && n.countZero != 0
      invariant start <= at <= end && at - start + n.countZero == old(n.countZero)
      invariant n.countOne == old(n.countOne)
      invariant forall i | start <= i < at :: buffer[i] == Even(n.number)
      invariant forall i | 0 <= i < buffer.Length && !(start <= i < at) :: buffer[i] == old(buffer[i])
      decreases end - at
    {
      buffer[at] := Even(n.number);
      at := at + 1;
      n.countZero := n.countZero - 1;
    }
    var mid := at;
    while at < end && n.countOne != 0
      invariant mid <= at <= end && at - mid + n.countOne == old(n.countOne)
      invariant n.countZero == old(n.countZero) - (mid - start)
      invariant forall i | start <= i < mid :: buffer[i] == Even(n.number)
      invariant forall i | mid <= i < at :: buffer[i] == Odd(n.number)
      invariant forall i | 0 <= i < buffer.Length && !(start <= i < at) :: buffer[i] == old(buffer[i])
      decreases end - at
    {
      buffer[at] := Odd(n.number);
      at := at + 1;
      n.countOne := n.countOne - 1;
    }
    assert buffer[start..mid] == Copies(Even(n.number), mid - start);
    assert buffer[mid..at] == Copies(Odd(n.number), at - mid);
    assert buffer[start..at] == buffer[start..mid] + buffer[mid..at];
  }

  /** Take numbers out of the subtree below a cell until the buffer is full, and prune. */
  method TakeNumbers2(parent: Cell, ghost l: Layout, buffer: array<Word>, start: nat, end: nat)
    returns (at: nat, ghost l': Layout)
    requires parent.ptr == Top(l) && Holds(l) && parent !in Foot(l) && buffer !in Foot(l)
    requires start <= end <= buffer.Length
    modifies Foot(l), parent, buffer
    ensures parent.ptr == Top(l') && Holds(l') && Foot(l') <= Foot(l)
    ensures start <= at <= end && (Abs(l'), buffer[start..at]) == Take(old(Abs(l)), end - start)
    ensures forall i | 0 <= i < buffer.Length && !(start <= i < at) :: buffer[i] == old(buffer[i])
    decreases l, 1
  {
    hide Even, Odd;
    at, l' := start, l;
    if start >= end {
      assert buffer[start..at] == [];
      return;
    }
    var nptr := parent.ptr;
    if nptr == null {
      assert buffer[start..at] == [];
      return;
    }
    if nptr.bitPos == ONE {
      at := TakeLeaf(nptr, buffer, start, end);
      if nptr.countZero == 0 && nptr.countOne == 0 {
        parent.ptr := null;
        l' := Empty;
      }
    } else {
      ghost var z, o;
      at, z, o := TakeInterior(nptr, l, buffer, start, end);
      if nptr.zero.ptr == null && nptr.one.ptr == null {
        parent.ptr := null;
        l' := Empty;
      } else {
        l' := At(nptr, z, o);
      }
    }
  }

  /** Take numbers from the two subtrees of an interior node. */
  method TakeInterior(nptr: Node, ghost l: Layout, buffer: array<Word>, start: nat, end: nat)
    returns (at: nat, ghost z: Layout, ghost o: Layout)
    requires Top(l) == nptr && nptr.bitPos != ONE && Holds(l) && buffer !in Foot(l)
    requires start < end <= buffer.Length
    modifies Foot(l.zero), Foot(l.one), nptr.zero, nptr.one, buffer
    ensures Holds(At(nptr, z, o)) && Foot(z) <= Foot(l.zero) && Foot(o) <= Foot(l.one)
    ensures var (rest, out) := Take(old(Abs(l)), end - start);
      && start <= at <= end && buffer[start..at] == out
      && rest == if z.Empty? && o.Empty? then Nil else Abs(At(nptr, z, o))
    ensures forall i | 0 <= i < buffer.Length && !(start <= i < at) :: buffer[i] == old(buffer[i])
    decreases l, 0
  {
    hide Even, Odd, Take, Copies, Min, Shape, Holds, Foot, Abs;
    var mid: nat;
    ghost var t := Abs(l);
    HoldsBelow(l);
    assert Own(nptr) !! Foot(l.zero) + Foot(l.one) + {buffer};
    mid, z := TakeSide(nptr.zero, l.zero, l.one, buffer, start, end);
    ghost var filled := buffer[..];
    at, o := TakeSide(nptr.one, l.one, z, buffer, mid, end);
    Stitch(filled, buffer[..], start, mid, at);
    TakeOfInterior(t, end - start);
    HoldsAbove(nptr, z, o);
  }

  lemma HoldsBelow(l: Layout)
    requires l.At? && Holds(l) && l.node.bitPos != ONE
    ensures var n := l.node;
      && n.zero != n.one && Own(n) !! Foot(l.zero) && Own(n) !! Foot(l.one) && Foot(l.zero) !! Foot(l.one)
      && n.zero.ptr == Top(l.zero) && n.one.ptr == Top(l.one) && Holds(l.zero) && Holds(l.one)
      && Foot(l) == Own(n) + Foot(l.zero) + Foot(l.one)
      && Abs(l) == Interior(n.bitPos, n.number, Abs(l.zero), Abs(l.one))
  {
  }

  lemma HoldsAbove(n: Node, z: Layout, o: Layout)
    requires n.zero != n.one && Own(n) !! Foot(z) && Own(n) !! Foot(o) && Foot(z) !! Foot(o) && n.bitPos != ONE
    requires n.zero.ptr == Top(z) && n.one.ptr == Top(o) && Holds(z) && Holds(o)
    ensures Holds(At(n, z, o)) && Abs(At(n, z, o)) == Interior(n.bitPos, n.number, Abs(z), Abs(o))
    ensures (Abs(z).Nil? <==> z.Empty?) && (Abs(o).Nil? <==> o.Empty?)
  {
  }

  lemma Stitch(a: seq<Word>, b: seq<Word>, start: nat, mid: nat, at: nat)
    requires start <= mid <= at <= |a| == |b| && forall i | start <= i < mid :: b[i] == a[i]
    ensures b[start..at] == a[start..mid] + b[mid..at]
  {
  }

  /** Take numbers below one cell of a node, which leaves what is below the other cell alone. */
  method TakeSide(cell: Cell, ghost l: Layout, ghost other: Layout, buffer: array<Word>, start: nat, end: nat)
    returns (at: nat, ghost l': Layout)
    requires cell.ptr == Top(l) && Holds(l) && cell !in Foot(l) && buffer !in Foot(l)
    requires Holds(other) && Foot(other) !! Foot(l) + {cell, buffer}
    requires start <= end <= buffer.Length
    modifies Foot(l), cell, buffer
    ensures cell.ptr == Top(l') && Holds(l') && Foot(l') <= Foot(l)
    ensures start <= at <= end && (Abs(l'), buffer[start..at]) == Take(old(Abs(l)), end - start)
    ensures forall i | 0 <= i < buffer.Length && !(start <= i < at) :: buffer[i] == old(buffer[i])
    ensures Holds(other) && Abs(other) == old(Abs(other))
    decreases l, 2
  {
    hide Take, Foot;
    assert allocated(Foot(other));
    at, l' := TakeNumbers2(cell, l, buffer, start, end);
  }

  // ---- add_number ----

  /** One step on the way down: a node, which of its cells was followed, and what is below the other. */
  datatype Frame = Frame(node: Node, right: bool, sibling: Layout)

  function Followed(f: Frame): Cell { if f.right then f.node.one else f.node.zero }

  function Passed(f: Frame): Cell { if f.right then f.node.zero else f.node.one }

  function Last(path: seq<Frame>): Frame
    requires path != []
  {
    path[|path| - 1]
  }

  function Outer(path: seq<Frame>): seq<Frame>
    requires path != []
  {
    path[..|path| - 1]
  }

  /** The cell at the end of a path. */
  function Hole(root: Cell, path: seq<Frame>): Cell {
    if path == [] then root else Followed(Last(path))
  }

  /** Everything on and beside a path, but not the cell at its end. */
  function PathFoot(root: Cell, path: seq<Frame>): set<object> {
    if path == [] then {} else
    var f := Last(path);
    PathFoot(root, Outer(path)) + {Hole(root, Outer(path)), f.node, Passed(f)} + Foot(f.sibling)
  }

  ghost predicate PathHolds(root: Cell, path: seq<Frame>)
    reads PathFoot(root, path)
  {
    path == [] ||
    var f, out := Last(path), Outer(path);
    var upper := PathFoot(root, out) + {Hole(root, out)};
    && PathHolds(root, out) && Hole(root, out) !in PathFoot(root, out)
    && f.node.zero != f.node.one && Own(f.node) !! upper && Foot(f.sibling) !! upper && Foot(f.sibling) !! Own(f.node)
    && Hole(root, out).ptr == f.node && f.node.bitPos != ONE
    && Passed(f).ptr == Top(f.sibling) && Holds(f.sibling)
  }

  /** The whole layout, and the whole tree, with something put at the end of the path. */
  function Plug(path: seq<Frame>, l: Layout): Layout {
    if path == [] then l else
    var f := Last(path);
    Plug(Outer(path), if f.right then At(f.node, f.sibling, l) else At(f.node, l, f.sibling))
  }

  ghost function PlugTree(root: Cell, path: seq<Frame>, t: Tree): Tree
    reads PathFoot(root, path)
  {
    if path == [] then t else
    var f := Last(path);
    PlugTree(root, Outer(path),
             if f.right then Interior(f.node.bitPos, f.node.number, Abs(f.sibling), t)
             else Interior(f.node.bitPos, f.node.number, t, Abs(f.sibling)))
  }

  /** A path with a subtree at its end is a layout. */
  lemma {:induction false} PlugHolds(root: Cell, path: seq<Frame>, l: Layout)
    requires PathHolds(root, path) && Holds(l) && Hole(root, path).ptr == Top(l)
    requires Hole(root, path) !in PathFoot(root, path)
    requires Foot(l) !! PathFoot(root, path) && Hole(root, path) !in Foot(l)
    ensures Holds(Plug(path, l)) && root.ptr == Top(Plug(path, l)) && root !in Foot(Plug(path, l))
    ensures Abs(Plug(path, l)) == PlugTree(root, path, Abs(l))
    ensures Foot(Plug(path, l)) <= PathFoot(root, path) + {Hole(root, path)} + Foot(l)
    decreases |path|
  {
    if path != [] {
      var f := Last(path);
      var l' := if f.right then At(f.node, f.sibling, l) else At(f.node, l, f.sibling);
      assert Followed(f) in Own(f.node) && Passed(f) in Own(f.node);
      PlugHolds(root, Outer(path), l');
    }
  }

  /** Everything there is. */
  function Footing(root: Cell, path: seq<Frame>, sub: Layout): set<object> {
    PathFoot(root, path) + {Hole(root, path)} + Foot(sub)
  }

  /** On the way down: what is left to do is to insert n into what is below the end of the path. */
  ghost predicate Walking(root: Cell, path: seq<Frame>, sub: Layout, n: Word, pos: Word, goal: Tree)
    reads PathFoot(root, path), Hole(root, path), Foot(sub)
  {
    && PathHolds(root, path) && Hole(root, path) !in PathFoot(root, path)
    && Hole(root, path).ptr == Top(sub) && Holds(sub)
    && Foot(sub) !! PathFoot(root, path) && Hole(root, path) !in Foot(sub)
    && Fits(Abs(sub), pos, n) && NonNegative(n)
    && goal == PlugTree(root, path, Insert(Abs(sub), pos, n))
  }

  /** The whole of a memory. */
  ghost predicate Rooted(root: Cell, l: Layout, t: Tree)
    reads root, Foot(l)
  {
    root.ptr == Top(l) && Holds(l) && root !in Foot(l) && Abs(l) == t
  }

  lemma Arrive(root: Cell, path: seq<Frame>, sub: Layout, t: Tree, goal: Tree)
    requires PathHolds(root, path) && Hole(root, path) !in PathFoot(root, path)
    requires Hole(root, path).ptr == Top(sub) && Holds(sub)
    requires Foot(sub) !! PathFoot(root, path) && Hole(root, path) !in Foot(sub)
    requires Abs(sub) == t && goal == PlugTree(root, path, t)
    ensures Rooted(root, Plug(path, sub), goal) && Foot(Plug(path, sub)) <= Footing(root, path, sub)
  {
    PlugHolds(root, path, sub);
  }

  lemma InsertDescends(t: Tree, pos: Word, n: Word)
    requires t.Interior? && (Less(t.bit, pos) ==> IsZero(Diff(n, t.number, pos, t.bit)))
    ensures Insert(t, pos, n) ==
      if HasBit(n, t.bit) then Interior(t.bit, t.number, t.zero, Insert(t.one, Half(t.bit), n))
      else Interior(t.bit, t.number, Insert(t.zero, Half(t.bit), n), t.one)
  {
  }

  /** A path that goes on through a node of the layout at its end. */
  lemma PathGrows(root: Cell, path: seq<Frame>, f: Frame, below: Layout)
    requires PathHolds(root, path) && Hole(root, path) !in PathFoot(root, path)
    requires var sub := if f.right then At(f.node, f.sibling, below) else At(f.node, below, f.sibling);
      && f.node.bitPos != ONE && Hole(root, path).ptr == f.node && Holds(sub)
      && Foot(sub) !! PathFoot(root, path) && Hole(root, path) !in Foot(sub)
    ensures PathHolds(root, path + [f]) && Hole(root, path + [f]) !in PathFoot(root, path + [f])
    ensures Hole(root, path + [f]).ptr == Top(below) && Holds(below) && Hole(root, path + [f]) == Followed(f)
    ensures Foot(below) !! PathFoot(root, path + [f]) && Hole(root, path + [f]) !in Foot(below)
    ensures var sub := if f.right then At(f.node, f.sibling, below) else At(f.node, below, f.sibling);
      Footing(root, path + [f], below) <= Footing(root, path, sub)
  {
    hide Holds, PathHolds, Foot, PathFoot, Abs;
    PathStep(root, path, f);
    if f.right {
      HoldsBelow(At(f.node, f.sibling, below));
    } else {
      HoldsBelow(At(f.node, below, f.sibling));
    }
  }

  /** What a path with one more frame is. */
  lemma PathStep(root: Cell, path: seq<Frame>, f: Frame)
    ensures Hole(root, path + [f]) == Followed(f)
    ensures PathFoot(root, path + [f])
         == PathFoot(root, path) + {Hole(root, path), f.node, Passed(f)} + Foot(f.sibling)
    ensures var upper := PathFoot(root, path) + {Hole(root, path)};
      PathHolds(root, path + [f]) <==> (
        && PathHolds(root, path) && Hole(root, path) !in PathFoot(root, path)
        && f.node.zero != f.node.one && Own(f.node) !! upper && Foot(f.sibling) !! upper && Foot(f.sibling) !! Own(f.node)
        && Hole(root, path).ptr == f.node && f.node.bitPos != ONE
        && Passed(f).ptr == Top(f.sibling) && Holds(f.sibling))
  {
    hide Holds, Foot;
    assert Last(path + [f]) == f && Outer(path + [f]) == path;
  }

  lemma PlugGrows(root: Cell, path: seq<Frame>, f: Frame, t: Tree)
    ensures PlugTree(root, path + [f], t) == PlugTree(root, path,
              if f.right then Interior(f.node.bitPos, f.node.number, Abs(f.sibling), t)
              else Interior(f.node.bitPos, f.node.number, t, Abs(f.sibling)))
  {
    assert Last(path + [f]) == f && Outer(path + [f]) == path;
  }

  lemma WalkDown(root: Cell, path: seq<Frame>, sub: Layout, n: Word, pos: Word, goal: Tree) returns (f: Frame, below: Layout)
    requires Walking(root, path, sub, n, pos, goal) && sub.At? && sub.node.bitPos != ONE
    requires Less(sub.node.bitPos, pos) ==> IsZero(Diff(n, sub.node.number, pos, sub.node.bitPos))
    ensures f.node == sub.node && f.right == HasBit(n, sub.node.bitPos)
    ensures Walking(root, path + [f], below, n, Half(sub.node.bitPos), goal)
    ensures Footing(root, path + [f], below) <= Footing(root, path, sub)
    ensures Hole(root, path + [f]) == if f.right then sub.node.one else sub.node.zero
  {
    hide OneHot, Agree, HasBit, Less, AtMost, Diff, IsZero, Half, NonNegative, Shape, TopBit, Insert, Fits;
    hide PathHolds, PathFoot, PlugTree, Footing;
    var bit := sub.node.bitPos;
    InsertDescends(Abs(sub), pos, n);
    if HasBit(n, bit) {
      f, below := Frame(sub.node, true, sub.zero), sub.one;
    } else {
      f, below := Frame(sub.node, false, sub.one), sub.zero;
    }
    DescendFits(Abs(sub), pos, n);
    PathGrows(root, path, f, below);
    PlugGrows(root, path, f, Insert(Abs(below), Half(bit), n));
  }

  lemma InsertIntoNil(pos: Word, n: Word)
    ensures Insert(Nil, pos, n) == NewLeaf(n)
  {
  }

  lemma NoFoot()
    ensures Foot(Empty) == {} && Abs(Empty) == Nil
  {
  }

  lemma LeafHolds(nptr: Node)
    requires nptr.bitPos == ONE && nptr.zero != nptr.one
    ensures var leaf := At(nptr, Empty, Empty);
      Holds(leaf) && Foot(leaf) == Own(nptr) && Abs(leaf) == Leaf(nptr.number, nptr.countZero, nptr.countOne)
  {
  }

  /** An empty cell gets a new leaf. */
  method StoreLeaf(root: Cell, ghost path: seq<Frame>, parent: Cell, n: Word, ghost pos: Word, ghost goal: Tree)
    returns (ghost l: Layout)
    requires Walking(root, path, Empty, n, pos, goal) && parent == Hole(root, path)
    modifies parent
    ensures Rooted(root, l, goal) && fresh(Foot(l) - Footing(root, path, Empty))
  {
    hide OneHot, Agree, Less, AtMost, NonNegative, Shape, Fits, HasBit, PathHolds, Holds, Foot, PathFoot, PlugTree, Plug, Abs;
    assert allocated(PathFoot(root, path));
    InsertIntoNil(pos, n);
    NoFoot();
    var nptr := new Node(ONE, n);
    parent.ptr := nptr;
    if HasBit(n, ONE) {
      nptr.countOne := 1;
    } else {
      nptr.countZero := 1;
    }
    ghost var leaf := At(nptr, Empty, Empty);
    LeafHolds(nptr);
    Arrive(root, path, leaf, NewLeaf(n), goal);
    l := Plug(path, leaf);
  }

  lemma NilFits(pos: Word, n: Word)
    requires OneHot(pos)
    ensures Fits(Nil, pos, n)
  {
  }

  /** A new interior node on top of the subtree, with the path going on into its empty cell. */
  lemma Injected(root: Cell, path: seq<Frame>, f: Frame, n: Word, pos: Word, t: Tree, goal: Tree)
    requires PathHolds(root, path) && Hole(root, path) !in PathFoot(root, path) && Hole(root, path).ptr == f.node
    requires var upper := PathFoot(root, path) + {Hole(root, path)};
      Own(f.node) !! upper && Foot(f.sibling) !! upper && Foot(f.sibling) !! Own(f.node)
    requires f.node.zero != f.node.one && f.node.bitPos != ONE && f.node.number == n && f.right == HasBit(n, f.node.bitPos)
    requires Holds(f.sibling) && Abs(f.sibling) == t && Passed(f).ptr == Top(f.sibling) && Followed(f).ptr == null
    requires OneHot(Half(f.node.bitPos)) && NonNegative(n)
    requires goal == PlugTree(root, path, Inject(t, f.node.bitPos, n))
    ensures Walking(root, path + [f], Empty, n, Half(f.node.bitPos), goal)
  {
    hide OneHot, Agree, Less, AtMost, NonNegative, Half, Shape, Fits, HasBit;
    NilFits(Half(f.node.bitPos), n);
    assert Last(path + [f]) == f && Outer(path + [f]) == path;
  }

  /** A cell gets a new interior node above the subtree it held. */
  method InjectNode(root: Cell, ghost path: seq<Frame>, ghost sub: Layout, parent: Cell, n: Word, ghost pos: Word,
                    bit: Word, ghost goal: Tree)
    returns (hole: Cell, ghost f: Frame)
    requires Walking(root, path, sub, n, pos, goal) && parent == Hole(root, path) && sub.At?
    requires Less(sub.node.bitPos, pos) && !IsZero(Diff(n, sub.node.number, pos, sub.node.bitPos))
    requires bit == TopBit(pos, Diff(n, sub.node.number, pos, sub.node.bitPos)) && bit != ONE && OneHot(Half(bit))
    modifies parent
    ensures hole == Hole(root, path + [f]) && Walking(root, path + [f], Empty, n, Half(bit), goal)
    ensures Footing(root, path + [f], Empty) <= Footing(root, path, sub) + Own(f.node) && fresh(Own(f.node))
  {
    hide OneHot, Agree, Less, AtMost, NonNegative, Half, IsZero, Diff, TopBit, Shape, Fits, HasBit, PathHolds, Holds, Inject;
    hide PathFoot, Foot, PlugTree, Insert, Footing;
    assert allocated(PathFoot(root, path)) && allocated(Foot(sub));
    ghost var t := Abs(sub);
    InsertInjects(t, pos, n);
    var nptr := parent.ptr;
    var nptr2 := new Node(bit, n);
    parent.ptr := nptr2;
    if !HasBit(n, bit) {
      nptr2.one.ptr := nptr;
      nptr2.zero.ptr := null;
      hole := nptr2.zero;
      f := Frame(nptr2, false, sub);
    } else {
      nptr2.zero.ptr := nptr;
      nptr2.one.ptr := null;
      hole := nptr2.one;
      f := Frame(nptr2, true, sub);
    }
    assert Last(path + [f]) == f;
    Injected(root, path, f, n, pos, t, goal);
    FootingGrows(root, path, f);
  }

  lemma InsertInjects(t: Tree, pos: Word, n: Word)
    requires !t.Nil? && Less(BitPos(t), pos) && !IsZero(Diff(n, t.number, pos, BitPos(t)))
    ensures Insert(t, pos, n) == Inject(t, TopBit(pos, Diff(n, t.number, pos, BitPos(t))), n)
  {
    hide Less, IsZero, Diff, TopBit, HasBit;
  }

  lemma FootingGrows(root: Cell, path: seq<Frame>, f: Frame)
    ensures Footing(root, path + [f], Empty) <= Footing(root, path, f.sibling) + Own(f.node)
  {
    assert Last(path + [f]) == f && Outer(path + [f]) == path;
  }

  /** A leaf that the number belongs to counts it. */
  method CountNumber(root: Cell, ghost path: seq<Frame>, ghost sub: Layout, n: Word, nptr: Node, ghost pos: Word, ghost goal: Tree)
    returns (ghost l: Layout)
    requires Walking(root, path, sub, n, pos, goal) && sub.At? && sub.node == nptr && nptr.bitPos == ONE
    requires Less(ONE, pos) ==> IsZero(Diff(n, nptr.number, pos, ONE))
    modifies nptr
    ensures Rooted(root, l, goal) && Foot(l) <= Footing(root, path, sub)
  {
    hide OneHot, Agree, Less, AtMost, NonNegative, Shape, IsZero, Diff, TopBit, Fits;
    assert allocated(PathFoot(root, path));
    ghost var t := Insert(Abs(sub), pos, n);
    if HasBit(n, ONE) {
      nptr.countOne := nptr.countOne + 1;
    } else {
      nptr.countZero := nptr.countZero + 1;
    }
    assert PathHolds(root, path);
    Arrive(root, path, sub, t, goal);
    l := Plug(path, sub);
  }

  lemma {:induction false} OnlyNodesAndCells(l: Layout, m: Memory)
    ensures m !in Foot(l)
  {
    if l.At? {
      OnlyNodesAndCells(l.zero, m);
      OnlyNodesAndCells(l.one, m);
    }
  }

  lemma WalkStart(root: Cell, l: Layout, n: Word)
    requires Rooted(root, l, Abs(l)) && Shape(Abs(l)) && NonNegative(n)
    ensures Walking(root, [], l, n, TOP, RadixTree.AddNumber(Abs(l), n))
    ensures Shape(RadixTree.AddNumber(Abs(l), n)) && !IsZero(TOP)
  {
    hide OneHot, Agree, Less, AtMost, NonNegative, Shape, Insert;
    RootFits(Abs(l), n);
    AddNumberSorts(Abs(l), n);
  }

  /** The bit at which to branch. */
  method TopDiffering(start: Word, diff: Word, ghost low: Word) returns (pos: Word)
    requires OneHot(start) && OneHot(low) && !IsZero(diff) && Within(diff, start, low)
    ensures pos == TopBit(start, diff)
  {
    hide OneHot, Within, IsZero, Less, AtMost, HasBit, Half;
    pos := start;
    PositionNotZero(pos);
    while !HasBit(diff, pos)
      invariant OneHot(pos) && Within(diff, pos, low) && !IsZero(pos) && TopBit(pos, diff) == TopBit(start, diff)
      decreases Rank(pos)
    {
      Compare(pos, low);
      Compare(low, pos);
      if !Less(low, pos) {
        WithinNothing(pos, low, diff);
      }
      WithinHalf(pos, low, diff);
      HalfIsNext(pos, low);
      pos := Half(pos);
      PositionNotZero(pos);
    }
  }

  /** The tree in memory. */
  class Memory {
    const tree: Cell
    ghost var layout: Layout

    ghost predicate Valid()
      reads this, tree, Foot(layout)
    {
      Rooted(tree, layout, Abs(layout)) && Shape(Abs(layout))
    }

    ghost function Value(): Tree
      reads this, Foot(layout)
    {
      Abs(layout)
    }

    constructor ()
      ensures Valid() && Value() == Nil && fresh(tree)
    {
      tree := new Cell();
      layout := Empty;
    }

    method AddNumber(number: Word)
      requires Valid() && NonNegative(number)
      modifies this, tree, Foot(layout)
      ensures Valid() && Value() == RadixTree.AddNumber(old(Value()), number)
      ensures fresh(Foot(layout) - old(Foot(layout)))
    {
      hide NonNegative, Shape, Insert, Holds, Walking, RadixTree.AddNumber;
      WalkStart(tree, layout, number);
      ghost var goal := RadixTree.AddNumber(Value(), number);
      ghost var l, own := Descend(number, goal, {tree} + Foot(layout));
      OnlyNodesAndCells(l, this);
      layout := l;
    }

    /** take_numbers. */
    method TakeNumbers(buffer: array<Word>, maxNums: nat) returns (taken: nat)
      requires Valid() && buffer !in Foot(layout) && maxNums <= buffer.Length
      modifies this, tree, Foot(layout), buffer
      ensures Valid() && Foot(layout) <= old(Foot(layout)) && taken <= maxNums
      ensures (Value(), buffer[..taken]) == Take(old(Value()), maxNums)
    {
      hide Take, Shape, Holds, Splits;
      TakeSplits(Value(), maxNums);
      ghost var l;
      taken, l := TakeNumbers2(tree, layout, buffer, 0, maxNums);
      OnlyNodesAndCells(l, this);
      layout := l;
    }

    /** main, on a negative number: at most 1000 numbers at a time. */
    method TakeOut(count: nat) returns (out: seq<Word>)
      requires Valid()
      modifies this, tree, Foot(layout)
      ensures Valid() && (Value(), out) == TakeInChunks(old(Value()), count)
      ensures Foot(layout) <= old(Foot(layout))
    {
      hide Take, Shape, Rooted, TakeInChunks, Foot;
      assert allocated(Foot(layout));
      var outNumbers := new Word[1000](_ => ONE);
      var limit := count;
      out := [];
      ghost var t := Value();
      ChunkUnfold(t, 0);
      while limit > 0
        invariant 0 <= limit <= count && Valid() && Foot(layout) <= old(Foot(layout)) && outNumbers !in Foot(layout)
        invariant TakeInChunks(t, count).0 == TakeInChunks(Value(), limit).0
        invariant TakeInChunks(t, count).1 == out + TakeInChunks(Value(), limit).1
      {
        ChunkUnfold(Value(), limit);
        var takeMax := if limit < 1000 then limit else 1000;
        var taken := TakeNumbers(outNumbers, takeMax);
        out := out + outNumbers[..taken];
        limit := limit - taken;
        if taken == 0 {
          assert outNumbers[..taken] == [] && out + [] == out;
          return;
        }
      }
      ChunkUnfold(Value(), 0);
      assert out + [] == out;
    }

    /** main: every number is added, or taken out when it is negative. */
    method Process(input: seq<Command>) returns (out: seq<Word>)
      requires Valid() && InputOk(input)
      modifies this, tree, Foot(layout)
      ensures Valid() && out == RunSorted(Listing(old(Value())), input)
    {
      RunsAgree(Value(), input);
      hide Shape, Rooted, TakeInChunks, RadixTree.AddNumber, RunSorted, Listing;
      out := [];
      ghost var t, own := Value(), Foot(layout);
      for i := 0 to |input|
        invariant Valid() && Foot(layout) <= own && fresh(own - old(Foot(layout)))
        invariant out + RunTree(Value(), input[i..]) == RunTree(t, input)
      {
        assert input[i..][0] == input[i] && input[i..][1..] == input[i + 1..];
        ghost var before := Foot(layout);
        match input[i] {
          case Add(n) => AddNumber(n);
          case TakeOut(limit) =>
            var some := TakeOut(limit);
            out := out + some;
        }
        assert allocated(Foot(layout));
        own := own + (Foot(layout) - before);
      }
    }

    /** The loop of add_number. */
    method Descend(number: Word, ghost goal: Tree, ghost mine: set<object>)
      returns (ghost l: Layout, ghost own: set<object>)
      requires Walking(tree, [], layout, number, TOP, goal) && !IsZero(TOP) && mine == {tree} + Foot(layout)
      modifies mine
      ensures Rooted(tree, l, goal) && Foot(l) <= own && fresh(own - mine)
    {
      hide Walking, Rooted, IsZero, Less;
      var parent, bitPos := tree, TOP;
      ghost var path: seq<Frame>, sub := [], layout;
      l, own := layout, mine;
      while !IsZero(bitPos)
        invariant !IsZero(bitPos) ==> Walking(tree, path, sub, number, bitPos, goal) && parent == Hole(tree, path)
        invariant !IsZero(bitPos) ==> Footing(tree, path, sub) <= own
        invariant fresh(own - mine)
        invariant IsZero(bitPos) ==> Rooted(tree, l, goal) && Foot(l) <= own
        decreases bitPos.bits
      {
        hide PathFoot, Foot, Own, Footing, Hole;
        if parent.ptr == null {
          StoreLeafFacts(tree, path, sub, number, bitPos, goal);
          ghost var before := Footing(tree, path, Empty);
          l := StoreLeaf(tree, path, parent, number, bitPos, goal);
          assert allocated(Foot(l));
          own := own + (Foot(l) - before);
          return;
        }
        ghost var before, pos := Footing(tree, path, sub), bitPos;
        parent, bitPos, path, sub, l := Visit(tree, path, sub, parent, number, bitPos, goal);
        Smaller(bitPos, pos);
        ghost var made := Footing(tree, path, sub) - before;
        assert fresh(made);
        assert (own + made) - mine <= (own - mine) + made;
        own := own + made;
      }
    }
  }

  lemma ChunkUnfold(t: Tree, limit: nat)
    ensures limit == 0 ==> TakeInChunks(t, limit) == (t, [])
    ensures limit > 0 ==>
      var (rest, out) := Take(t, Min(limit, 1000));
      var (rest', out') := TakeInChunks(rest, limit - |out|);
      TakeInChunks(t, limit) == if out == [] then (rest, []) else (rest', out + out')
  {
  }

  lemma StoreLeafFacts(root: Cell, path: seq<Frame>, sub: Layout, n: Word, pos: Word, goal: Tree)
    requires Walking(root, path, sub, n, pos, goal) && Hole(root, path).ptr == null
    ensures sub == Empty && Hole(root, path) in Footing(root, path, sub)
  {
    WalkFacts(root, path, sub, n, pos, goal);
  }

  /** One round of the loop of add_number at a cell that holds a node. */
  method Visit(root: Cell, ghost path: seq<Frame>, ghost sub: Layout, parent: Cell, number: Word, pos: Word, ghost goal: Tree)
    returns (parent': Cell, bitPos: Word, ghost path': seq<Frame>, ghost sub': Layout, ghost l: Layout)
    requires Walking(root, path, sub, number, pos, goal) && parent == Hole(root, path) && parent.ptr != null
    modifies Footing(root, path, sub)
    ensures Less(bitPos, pos)
    ensures if IsZero(bitPos) then Rooted(root, l, goal) && Foot(l) <= Footing(root, path, sub)
            else Walking(root, path', sub', number, bitPos, goal) && parent' == Hole(root, path')
    ensures fresh(Footing(root, path', sub') - Footing(root, path, sub))
  {
    hide OneHot, Agree, AtMost, NonNegative, Shape, Diff, TopBit, Fits, Insert, Half, HasBit, IsZero, Less, Walking, Rooted;
    hide PathFoot, Foot, Own, Footing, Hole, Abs;
    WalkFacts(root, path, sub, number, pos, goal);
    PositionFacts(Abs(sub), pos, number);
    parent', path', sub', l := parent, path, sub, sub;
    var nptr := parent.ptr;
    bitPos := pos;
    if Less(nptr.bitPos, bitPos) {
      if !IsZero(Diff(number, nptr.number, bitPos, nptr.bitPos)) {
        parent', bitPos, path' := Branch(root, path, sub, parent, number, pos, goal);
        sub' := Empty;
        return;
      }
      bitPos := nptr.bitPos;
    }
    if bitPos != ONE {
      ghost var f, below := WalkDown(root, path, sub, number, pos, goal);
      if HasBit(number, bitPos) {
        parent' := nptr.one;
      } else {
        parent' := nptr.zero;
      }
      path', sub' := path + [f], below;
    } else {
      l := CountNumber(root, path, sub, number, nptr, pos, goal);
    }
    bitPos := Half(bitPos);
  }

  /** The number differs from the subtree: branch at the most significant difference. */
  method Branch(root: Cell, ghost path: seq<Frame>, ghost sub: Layout, parent: Cell, number: Word, pos: Word, ghost goal: Tree)
    returns (parent': Cell, bitPos: Word, ghost path': seq<Frame>)
    requires Walking(root, path, sub, number, pos, goal) && parent == Hole(root, path) && sub.At? && parent.ptr == sub.node
    requires Less(sub.node.bitPos, pos) && !IsZero(Diff(number, sub.node.number, pos, sub.node.bitPos))
    modifies parent
    ensures !IsZero(bitPos) && Less(bitPos, pos)
    ensures Walking(root, path', Empty, number, bitPos, goal) && parent' == Hole(root, path')
    ensures fresh(Footing(root, path', Empty) - Footing(root, path, sub))
  {
    hide OneHot, Agree, AtMost, NonNegative, Shape, Diff, TopBit, Fits, Insert, Half, HasBit, IsZero, Less, Walking;
    hide PathFoot, Foot, Own, Footing, Hole, Abs;
    WalkFacts(root, path, sub, number, pos, goal);
    PositionFacts(Abs(sub), pos, number);
    assert allocated(PathFoot(root, path)) && allocated(Foot(sub));
    var nptr := parent.ptr;
    var bit := TopDiffering(pos, Diff(number, nptr.number, pos, nptr.bitPos), nptr.bitPos);
    ghost var f;
    parent', f := InjectNode(root, path, sub, parent, number, pos, bit, goal);
    path', bitPos := path + [f], Half(bit);
  }

  lemma WalkFacts(root: Cell, path: seq<Frame>, sub: Layout, n: Word, pos: Word, goal: Tree)
    requires Walking(root, path, sub, n, pos, goal)
    ensures Hole(root, path).ptr == Top(sub) && Fits(Abs(sub), pos, n)
    ensures Hole(root, path) in Footing(root, path, sub)
    ensures sub.At? ==>
      && sub.node in Footing(root, path, sub) && !Abs(sub).Nil?
      && BitPos(Abs(sub)) == sub.node.bitPos && Abs(sub).number == sub.node.number
  {
    hide OneHot, Agree, AtMost, NonNegative, Shape, Fits, Insert;
  }

  /** What the loop needs to know about positions. */
  lemma PositionFacts(t: Tree, pos: Word, n: Word)
    requires Fits(t, pos, n) && !t.Nil?
    ensures OneHot(pos) && OneHot(BitPos(t)) && (Less(BitPos(t), pos) || BitPos(t) == pos)
    ensures Less(Half(BitPos(t)), pos) && (IsZero(Half(BitPos(t))) <==> BitPos(t) == ONE)
    ensures var diff := Diff(n, t.number, pos, BitPos(t)); var bit := TopBit(pos, diff);
      Less(BitPos(t), pos) && !IsZero(diff) ==>
        Within(diff, pos, BitPos(t)) && bit != ONE && OneHot(Half(bit)) && !IsZero(Half(bit)) && Less(Half(bit), pos)
  {
    hide OneHot, Agree, AtMost, NonNegative, Shape, Diff, TopBit, Half, HasBit, IsZero, Less, Within;
    var low := BitPos(t);
    Compare(low, pos);
    HalfBelow(low, pos);
    if Less(low, pos) && !IsZero(Diff(n, t.number, pos, low)) {
      DiffWithin(n, t.number, pos, low);
      DifferAt(n, t.number, pos, low);
      var bit := TopBit(pos, Diff(n, t.number, pos, low));
      OneBelow(bit, low);
      HalfBelow(bit, pos);
      PositionNotZero(Half(bit));
    }
  }
}

/** The k-d tree index: building it, the search as the program writes it, and the search with the
    query's own side first. Coordinates are reals. */
module KdTree {

  datatype Record = Record(place: nat, lon: real, lat: real)

  datatype Point = Point(x: real, y: real)

  datatype Tree = Nil | Node(rec: Record, left: Tree, right: Tree)

  // ---- Distances ----

  function Square(a: real): (r: real)
    ensures r >= 0.0
  {
    a * a
  }

  /** distanceSquared */
  function Dist(r: Record, q: Point): (d: real)
    ensures d >= 0.0
  {
    Square(r.lon - q.x) + Square(r.lat - q.y)
  }

  function Coord(r: Record, axis: nat): real {
    if axis == 0 then r.lon else r.lat
  }

  function Offset(r: Record, q: Point, axis: nat): real {
    if axis == 0 then r.lon - q.x else r.lat - q.y
  }

  lemma SquareGrows(d: real, e: real)
    requires 0.0 <= d <= e || e <= d <= 0.0
    ensures Square(d) <= Square(e)
  {
    SameSign(e - d, e + d);
    assert (e - d) * (e + d) == e * e - d * d;
  }

  lemma SameSign(a: real, b: real)
    requires (0.0 <= a && 0.0 <= b) || (a <= 0.0 && b <= 0.0)
    ensures a * b >= 0.0
  {
  }

  /** A record on the far side of a splitting line is at least as far as the line. */
  lemma BeyondTheLine(node: Record, r: Record, q: Point, axis: nat)
    requires axis < 2
    requires var d, e := Offset(node, q, axis), Offset(r, q, axis); 0.0 <= d <= e || e <= d <= 0.0
    ensures Square(Offset(node, q, axis)) <= Dist(r, q)
  {
    hide Square;
    SquareGrows(Offset(node, q, axis), Offset(r, q, axis));
  }

  // ---- Building ----

  ghost predicate SortedBy(s: seq<Record>, axis: nat) {
    forall i, j | 0 <= i < j < |s| :: Coord(s[i], axis) <= Coord(s[j], axis)
  }

  type Sorter = (seq<Record>, nat) -> seq<Record>

  /** What is asked of qsort with compareX or compareY. */
  ghost predicate Sorts(qsort: Sorter) {
    forall s: seq<Record>, axis: nat ::
      SortedBy(qsort(s, axis), axis) && multiset(qsort(s, axis)) == multiset(s) && |qsort(s, axis)| == |s|
  }

  /** The tree of a list of records: the median along the axis, and the two halves below it. */
  ghost function Build(recs: seq<Record>, depth: nat, qsort: Sorter): Tree
    requires Sorts(qsort)
    decreases |recs|
  {
    if recs == [] then Nil else
    var s := qsort(recs, depth % 2);
    var m := |s| / 2;
    Node(s[m], Build(s[..m], depth + 1, qsort), Build(s[m + 1..], depth + 1, qsort))
  }

  lemma SortFacts(qsort: Sorter, s: seq<Record>, axis: nat)
    requires Sorts(qsort)
    ensures var t := qsort(s, axis); SortedBy(t, axis) && multiset(t) == multiset(s) && |t| == |s|
  {
  }

  lemma BuildStep(recs: seq<Record>, depth: nat, qsort: Sorter)
    requires Sorts(qsort)
    ensures recs == [] ==> Build(recs, depth, qsort) == Nil
    ensures var s := qsort(recs, depth % 2); var m := |s| / 2;
      |s| == |recs| && (recs != [] ==> Build(recs, depth, qsort) == Node(s[m], Build(s[..m], depth + 1, qsort), Build(s[m + 1..], depth + 1, qsort)))
  {
  }

  /** qsort on a part of the array of pointers. */
  method SortRange(recs: array<Record>, lo: nat, n: nat, axis: nat, qsort: Sorter)
    requires Sorts(qsort) && lo + n <= recs.Length
    modifies recs
    ensures recs[lo..lo + n] == qsort(old(recs[lo..lo + n]), axis)
    ensures forall i | 0 <= i < recs.Length && !(lo <= i < lo + n) :: recs[i] == old(recs[i])
  {
    var s := qsort(recs[lo..lo + n], axis);
    for i := 0 to n
      invariant |s| == n && s == qsort(old(recs[lo..lo + n]), axis)
      invariant forall j | 0 <= j < i :: recs[lo + j] == s[j]
      invariant forall j | 0 <= j < recs.Length && !(lo <= j < lo + i) :: recs[j] == old(recs[j])
    {
      recs[lo + i] := s[i];
    }
  }

  /** buildKDTree. */
  method BuildKDTree(recs: array<Record>, lo: nat, n: nat, depth: nat, qsort: Sorter) returns (t: Tree)
    requires Sorts(qsort) && lo + n <= recs.Length
    modifies recs
    ensures t == Build(old(recs[lo..lo + n]), depth, qsort)
    ensures forall i | 0 <= i < recs.Length && !(lo <= i < lo + n) :: recs[i] == old(recs[i])
    decreases n
  {
    hide Build, Sorts;
    BuildStep(recs[lo..lo + n], depth, qsort);
    if n == 0 {
      return Nil;
    }
    SortRange(recs, lo, n, depth % 2, qsort);
    var median := n / 2;
    ghost var s, whole := recs[lo..lo + n], recs[..];
    var rec := recs[lo + median];
    Slices(whole, whole, lo, n, median);
    var left := BuildKDTree(recs, lo, median, depth + 1, qsort);
    Slices(whole, recs[..], lo, n, median);
    var right := BuildKDTree(recs, lo + median + 1, n - median - 1, depth + 1, qsort);
    t := Node(rec, left, right);
  }

  /** The parts of a range before and after its middle, the first of which may have been rearranged. */
  lemma Slices(a: seq<Record>, b: seq<Record>, lo: nat, n: nat, m: nat)
    requires lo + n <= |a| == |b| && m < n
    requires forall i | 0 <= i < |a| && !(lo <= i < lo + m) :: b[i] == a[i]
    ensures a[lo..lo + m] == a[lo..lo + n][..m] && a[lo + m] == a[lo..lo + n][m]
    ensures b[lo + m + 1..lo + n] == a[lo..lo + n][m + 1..]
  {
  }

  function Members(t: Tree): multiset<Record> {
    if t.Nil? then multiset{} else Members(t.left) + multiset{t.rec} + Members(t.right)
  }

  /** The records of the left subtree are not beyond the node along its axis, those of the right one
      not before it. */
  ghost predicate Shape(t: Tree, depth: nat) {
    t.Nil? || (
      && (forall r | r in Members(t.left) :: Coord(r, depth % 2) <= Coord(t.rec, depth % 2))
      && (forall r | r in Members(t.right) :: Coord(t.rec, depth % 2) <= Coord(r, depth % 2))
      && Shape(t.left, depth + 1) && Shape(t.right, depth + 1))
  }

  function Height(t: Tree): nat {
    if t.Nil? then 0 else 1 + (if Height(t.left) > Height(t.right) then Height(t.left) else Height(t.right))
  }

  function Pow2(n: nat): nat {
    if n == 0 then 1 else 2 * Pow2(n - 1)
  }

  lemma {:induction false} Pow2Grows(a: nat, b: nat)
    requires a <= b
    ensures Pow2(a) <= Pow2(b)
  {
    if a < b {
      Pow2Grows(a, b - 1);
    }
  }

  /** The tree holds exactly the records. */
  lemma {:induction false} BuildMembers(recs: seq<Record>, depth: nat, qsort: Sorter)
    requires Sorts(qsort)
    ensures Members(Build(recs, depth, qsort)) == multiset(recs)
    decreases |recs|
  {
    hide Build, Sorts, SortedBy;
    BuildStep(recs, depth, qsort);
    if recs != [] {
      var s := qsort(recs, depth % 2);
      var m := |s| / 2;
      SortFacts(qsort, recs, depth % 2);
      BuildMembers(s[..m], depth + 1, qsort);
      BuildMembers(s[m + 1..], depth + 1, qsort);
      SplitMembers(s, m);
    }
  }

  lemma SplitMembers(s: seq<Record>, m: nat)
    requires m < |s|
    ensures multiset(s) == multiset(s[..m]) + multiset{s[m]} + multiset(s[m + 1..])
  {
    assert s == s[..m] + [s[m]] + s[m + 1..];
  }

  /** The tree is ordered along the axes. */
  lemma {:induction false} BuildShape(recs: seq<Record>, depth: nat, qsort: Sorter)
    requires Sorts(qsort)
    ensures Shape(Build(recs, depth, qsort), depth)
    decreases |recs|
  {
    hide Build, Sorts, SortedBy;
    BuildStep(recs, depth, qsort);
    if recs != [] {
      var s := qsort(recs, depth % 2);
      var m := |s| / 2;
      SortFacts(qsort, recs, depth % 2);
      BuildShape(s[..m], depth + 1, qsort);
      BuildShape(s[m + 1..], depth + 1, qsort);
      BuildMembers(s[..m], depth + 1, qsort);
      BuildMembers(s[m + 1..], depth + 1, qsort);
      MedianSplits(s, m, depth % 2);
    }
  }

  lemma MedianSplits(s: seq<Record>, m: nat, axis: nat)
    requires SortedBy(s, axis) && m < |s|
    ensures forall r | r in multiset(s[..m]) :: Coord(r, axis) <= Coord(s[m], axis)
    ensures forall r | r in multiset(s[m + 1..]) :: Coord(s[m], axis) <= Coord(r, axis)
  {
    hide Coord;
    forall r | r in multiset(s[..m]) ensures Coord(r, axis) <= Coord(s[m], axis) {
      var i :| 0 <= i < m && s[i] == r;
    }
    forall r | r in multiset(s[m + 1..]) ensures Coord(s[m], axis) <= Coord(r, axis) {
      var i :| 0 <= i < |s[m + 1..]| && s[m + 1..][i] == r;
      assert s[m + 1 + i] == r;
    }
  }

  /** The height is that of a perfectly balanced tree. */
  lemma {:induction false} BuildHeight(recs: seq<Record>, depth: nat, qsort: Sorter)
    requires Sorts(qsort)
    ensures var h := Height(Build(recs, depth, qsort));
      |recs| < Pow2(h) && (if recs == [] then h == 0 else h > 0 && Pow2(h - 1) <= |recs|)
    decreases |recs|
  {
    hide Build, Sorts;
    BuildStep(recs, depth, qsort);
    if recs != [] {
      var s := qsort(recs, depth % 2);
      var m := |s| / 2;
      BuildHeight(s[..m], depth + 1, qsort);
      BuildHeight(s[m + 1..], depth + 1, qsort);
      var l, r := Height(Build(s[..m], depth + 1, qsort)), Height(Build(s[m + 1..], depth + 1, qsort));
      if r > l {
        Pow2Grows(l, r - 1);
        assert false;
      }
      assert Height(Build(recs, depth, qsort)) == l + 1;
      assert Pow2(l + 1) == 2 * Pow2(l) && (l > 0 ==> Pow2(l) == 2 * Pow2(l - 1));
    }
  }

  /** The distance treats both axes alike, and along one axis it is the square. */
  lemma DistIsSymmetric(id: nat, lon: real, lat: real, x: real, y: real)
    ensures Dist(Record(id, lat, lon), Point(y, x)) == Dist(Record(id, lon, lat), Point(x, y))
    ensures lat == y ==> Dist(Record(id, lon, lat), Point(x, y)) == (lon - x) * (lon - x)
    ensures Dist(Record(id, lon, lat), Point(x, y)) == Dist(Record(id, lon, y), Point(x, y)) + Dist(Record(id, x, lat), Point(x, y))
  {
  }

  // ---- Searching ----

  function Nearer(a: Record, b: Record, q: Point): Record {
    if Dist(a, q) < Dist(b, q) then a else b
  }

  /** Whether the query lies strictly beyond the node along its axis. */
  predicate QueryBeyond(node: Record, q: Point, depth: nat) {
    Offset(node, q, depth % 2) < 0.0
  }

  /** The test that lets the second subtree be searched, with the distance on entry. */
  predicate MayCross(node: Record, q: Point, depth: nat, closest: Record) {
    Square(Offset(node, q, depth % 2)) < Dist(closest, q)
  }

  /** lookup_tree as written: the side away from the query first, and the query's own side only if the
      splitting line is near enough. */
  function LookupTree(q: Point, t: Tree, depth: nat, closest: Record): Record {
    if t.Nil? then closest else
    var c1 := Nearer(t.rec, closest, q);
    var first, second := if QueryBeyond(t.rec, q, depth) then t.left else t.right,
                         if QueryBeyond(t.rec, q, depth) then t.right else t.left;
    var c2 := LookupTree(q, first, depth + 1, c1);
    if MayCross(t.rec, q, depth, closest) then LookupTree(q, second, depth + 1, c2) else c2
  }

  /** The same search with the query's own side first. */
  function LookupOwnSideFirst(q: Point, t: Tree, depth: nat, closest: Record): Record {
    if t.Nil? then closest else
    var c1 := Nearer(t.rec, closest, q);
    var first, second := if QueryBeyond(t.rec, q, depth) then t.right else t.left,
                         if QueryBeyond(t.rec, q, depth) then t.left else t.right;
    var c2 := LookupOwnSideFirst(q, first, depth + 1, c1);
    if MayCross(t.rec, q, depth, closest) then LookupOwnSideFirst(q, second, depth + 1, c2) else c2
  }

  /** No record is nearer to the query. */
  ghost predicate Nearest(r: Record, q: Point, records: multiset<Record>) {
    forall m | m in records :: Dist(r, q) <= Dist(m, q)
  }

  /** With the own side first the search is exact on every tree that is ordered along its axes. */
  lemma {:induction false} OwnSideFirstIsExact(q: Point, t: Tree, depth: nat, closest: Record)
    requires Shape(t, depth)
    ensures var r := LookupOwnSideFirst(q, t, depth, closest);
      (r == closest || r in Members(t)) && Dist(r, q) <= Dist(closest, q) && Nearest(r, q, Members(t))
    decreases t
  {
    hide Dist, QueryBeyond, MayCross, Shape, Nearest;
    if t.Nil? {
      NearestNone(closest, q);
    } else {
      var c1 := Nearer(t.rec, closest, q);
      var beyond := QueryBeyond(t.rec, q, depth);
      var first, second := if beyond then t.right else t.left, if beyond then t.left else t.right;
      ShapeBelow(t, depth);
      OwnSideFirstIsExact(q, first, depth + 1, c1);
      var c2 := LookupOwnSideFirst(q, first, depth + 1, c1);
      OwnSideFirstIsExact(q, second, depth + 1, c2);
      var r := LookupOwnSideFirst(q, t, depth, closest);
      NearestWeakens(r, c2, q, Members(first));
      if !MayCross(t.rec, q, depth, closest) {
        OtherSideIsFar(q, t, depth, closest, r);
      }
      NearestJoins(r, q, Members(t.left), t.rec, Members(t.right));
    }
  }

  lemma ShapeBelow(t: Tree, depth: nat)
    requires !t.Nil? && Shape(t, depth)
    ensures Shape(t.left, depth + 1) && Shape(t.right, depth + 1)
  {
  }

  lemma NearestWeakens(r: Record, s: Record, q: Point, records: multiset<Record>)
    requires Nearest(s, q, records) && Dist(r, q) <= Dist(s, q)
    ensures Nearest(r, q, records)
  {
    hide Dist;
  }

  lemma NearestJoins(r: Record, q: Point, left: multiset<Record>, rec: Record, right: multiset<Record>)
    requires Nearest(r, q, left) && Dist(r, q) <= Dist(rec, q) && Nearest(r, q, right)
    ensures Nearest(r, q, left + multiset{rec} + right)
  {
    hide Dist;
  }

  /** If the line is not nearer than the best so far, nothing on the other side of it is. */
  lemma OtherSideIsFar(q: Point, t: Tree, depth: nat, closest: Record, r: Record)
    requires !t.Nil? && Shape(t, depth) && !MayCross(t.rec, q, depth, closest) && Dist(r, q) <= Dist(closest, q)
    ensures Nearest(r, q, Members(if QueryBeyond(t.rec, q, depth) then t.left else t.right))
  {
    hide Square, Dist;
    var far := if QueryBeyond(t.rec, q, depth) then t.left else t.right;
    forall m | m in Members(far) ensures Dist(r, q) <= Dist(m, q) {
      BeyondTheLine(t.rec, m, q, depth % 2);
    }
  }

  // ---- What the search as written promises ----

  /** The records that the search as written looks at, and those in the subtrees that it passes over. */
  function Visited(q: Point, t: Tree, depth: nat, closest: Record): multiset<Record> {
    if t.Nil? then multiset{} else
    var c1 := Nearer(t.rec, closest, q);
    var first, second := if QueryBeyond(t.rec, q, depth) then t.left else t.right,
                         if QueryBeyond(t.rec, q, depth) then t.right else t.left;
    var c2 := LookupTree(q, first, depth + 1, c1);
    multiset{t.rec} + Visited(q, first, depth + 1, c1) +
    (if MayCross(t.rec, q, depth, closest) then Visited(q, second, depth + 1, c2) else multiset{})
  }

  function Skipped(q: Point, t: Tree, depth: nat, closest: Record): multiset<Record> {
    if t.Nil? then multiset{} else
    var c1 := Nearer(t.rec, closest, q);
    var first, second := if QueryBeyond(t.rec, q, depth) then t.left else t.right,
                         if QueryBeyond(t.rec, q, depth) then t.right else t.left;
    var c2 := LookupTree(q, first, depth + 1, c1);
    Skipped(q, first, depth + 1, c1) +
    (if MayCross(t.rec, q, depth, closest) then Skipped(q, second, depth + 1, c2) else Members(second))
  }

  /** Every record is looked at or passed over. */
  lemma {:induction false} VisitedOrSkipped(q: Point, t: Tree, depth: nat, closest: Record)
    ensures Members(t) == Visited(q, t, depth, closest) + Skipped(q, t, depth, closest)
    decreases t
  {
    hide Dist, Square, Offset, Nearer, QueryBeyond, MayCross, LookupTree;
    if !t.Nil? {
      var c1 := Nearer(t.rec, closest, q);
      var beyond := QueryBeyond(t.rec, q, depth);
      var first, second := if beyond then t.left else t.right, if beyond then t.right else t.left;
      var c2 := LookupTree(q, first, depth + 1, c1);
      VisitedOrSkipped(q, first, depth + 1, c1);
      VisitedOrSkipped(q, second, depth + 1, c2);
      var v1, s1 := Visited(q, first, depth + 1, c1), Skipped(q, first, depth + 1, c1);
      var crosses := MayCross(t.rec, q, depth, closest);
      var v2 := if crosses then Visited(q, second, depth + 1, c2) else multiset{};
      var s2 := if crosses then Skipped(q, second, depth + 1, c2) else Members(second);
      VisitedStep(q, t, depth, closest, v1, v2);
      SkippedStep(q, t, depth, closest, s1, s2);
      Regrouped(Members(t.left), t.rec, Members(t.right), v1, s1, v2, s2);
    }
  }

  lemma VisitedStep(q: Point, t: Tree, depth: nat, closest: Record, v1: multiset<Record>, v2: multiset<Record>)
    requires !t.Nil?
    requires
      var c1, beyond := Nearer(t.rec, closest, q), QueryBeyond(t.rec, q, depth);
      var first, second := if beyond then t.left else t.right, if beyond then t.right else t.left;
      && v1 == Visited(q, first, depth + 1, c1)
      && v2 == (if MayCross(t.rec, q, depth, closest) then Visited(q, second, depth + 1, LookupTree(q, first, depth + 1, c1)) else multiset{})
    ensures Visited(q, t, depth, closest) == multiset{t.rec} + v1 + v2
  {
    hide Nearer, QueryBeyond, MayCross, LookupTree;
  }

  lemma SkippedStep(q: Point, t: Tree, depth: nat, closest: Record, s1: multiset<Record>, s2: multiset<Record>)
    requires !t.Nil?
    requires
      var c1, beyond := Nearer(t.rec, closest, q), QueryBeyond(t.rec, q, depth);
      var first, second := if beyond then t.left else t.right, if beyond then t.right else t.left;
      && s1 == Skipped(q, first, depth + 1, c1)
      && s2 == (if MayCross(t.rec, q, depth, closest) then Skipped(q, second, depth + 1, LookupTree(q, first, depth + 1, c1)) else Members(second))
    ensures Skipped(q, t, depth, closest) == s1 + s2
  {
    hide Nearer, QueryBeyond, MayCross, LookupTree;
  }

  lemma Regrouped(left: multiset<Record>, rec: Record, right: multiset<Record>,
                  v1: multiset<Record>, s1: multiset<Record>, v2: multiset<Record>, s2: multiset<Record>)
    requires (left == v1 + s1 && right == v2 + s2) || (right == v1 + s1 && left == v2 + s2)
    ensures left + multiset{rec} + right == (multiset{rec} + v1 + v2) + (s1 + s2)
  {
  }

  lemma NearestJoin(r: Record, s: Record, q: Point, a: multiset<Record>, b: multiset<Record>)
    requires Nearest(s, q, a) && Dist(r, q) <= Dist(s, q) && Nearest(r, q, b)
    ensures Nearest(r, q, a + b)
  {
    hide Dist;
  }

  /** On every tree the search as written returns a record that is no farther than any it looked at. */
  lemma {:induction false} AsWrittenIsNearestVisited(q: Point, t: Tree, depth: nat, closest: Record)
    ensures var r := LookupTree(q, t, depth, closest);
      && (r == closest || r in Visited(q, t, depth, closest)) && Dist(r, q) <= Dist(closest, q)
      && Nearest(r, q, Visited(q, t, depth, closest))
    decreases t
  {
    hide Dist, Square, Offset, QueryBeyond, MayCross, Nearest;
    if t.Nil? {
      NearestNone(closest, q);
    } else {
      var c1 := Nearer(t.rec, closest, q);
      var beyond := QueryBeyond(t.rec, q, depth);
      var first, second := if beyond then t.left else t.right, if beyond then t.right else t.left;
      var c2 := LookupTree(q, first, depth + 1, c1);
      var c3 := LookupTree(q, second, depth + 1, c2);
      var v1, v2 := Visited(q, first, depth + 1, c1), Visited(q, second, depth + 1, c2);
      AsWrittenIsNearestVisited(q, first, depth + 1, c1);
      AsWrittenIsNearestVisited(q, second, depth + 1, c2);
      NearestOne(t.rec, q);
      NearestNone(c2, q);
      NearestJoin(c2, t.rec, q, multiset{t.rec}, v1);
      NearestJoin(c3, c2, q, multiset{t.rec} + v1, v2);
      NearestJoin(c2, c2, q, multiset{t.rec} + v1, multiset{});
      AsWrittenStep(q, t, depth, closest);
    }
  }

  lemma AsWrittenStep(q: Point, t: Tree, depth: nat, closest: Record)
    requires !t.Nil?
    ensures var c1 := Nearer(t.rec, closest, q); var beyond := QueryBeyond(t.rec, q, depth);
      var first, second := if beyond then t.left else t.right, if beyond then t.right else t.left;
      var c2 := LookupTree(q, first, depth + 1, c1);
      var cross := MayCross(t.rec, q, depth, closest);
      && LookupTree(q, t, depth, closest) == (if cross then LookupTree(q, second, depth + 1, c2) else c2)
      && Visited(q, t, depth, closest) == multiset{t.rec} + Visited(q, first, depth + 1, c1) +
                                          (if cross then Visited(q, second, depth + 1, c2) else multiset{})
  {
    hide Dist, Square, Offset, QueryBeyond, MayCross, Nearer;
  }

  lemma NearestNone(r: Record, q: Point)
    ensures Nearest(r, q, multiset{})
  {
  }

  lemma NearestOne(r: Record, q: Point)
    ensures Nearest(r, q, multiset{r})
  {
  }

  /** lookup. */
  function Lookup(t: Tree, q: Point): Record
    requires !t.Nil?
  {
    LookupTree(q, t, 0, t.rec)
  }

  /** For a query level with the root the answer is exact only when the root is already nearest. */
  lemma LevelQueryExactIff(t: Tree, q: Point)
    requires !t.Nil? && Shape(t, 0) && q.y == t.rec.lat
    ensures Nearest(Lookup(t, q), q, Members(t)) <==> Nearest(t.rec, q, Members(t))
  {
    hide Dist, LookupTree, Visited, Shape;
    RootPrunes(t, q);
    AsWrittenIsNearestVisited(q, t, 0, t.rec);
    assert t.rec in Members(t);
  }

  // ---- When the search as written is exact, by coordinates alone ----

  function Lesser(a: real, b: real): real {
    if a <= b then a else b
  }

  /** The least of a bound and the distances in a tree. */
  function Least(q: Point, t: Tree, bound: real): real {
    if t.Nil? then bound else Lesser(Dist(t.rec, q), Least(q, t.left, Least(q, t.right, bound)))
  }

  function AwaySide(q: Point, t: Tree, depth: nat): Tree
    requires !t.Nil?
  {
    if QueryBeyond(t.rec, q, depth) then t.left else t.right
  }

  function OwnSide(q: Point, t: Tree, depth: nat): Tree
    requires !t.Nil?
  {
    if QueryBeyond(t.rec, q, depth) then t.right else t.left
  }

  function LineDist(q: Point, t: Tree, depth: nat): real
    requires !t.Nil?
  {
    Square(Offset(t.rec, q, depth % 2))
  }

  /** m has a place in the tree such that, wherever it lies on the query's own side of a node, the line
      is nearer than every record on the way to the node and every record that is searched before it. */
  predicate Surely(q: Point, t: Tree, depth: nat, m: Record, low: real)
    decreases t
  {
    && !t.Nil?
    && var low' := Lesser(low, Dist(t.rec, q));
       || t.rec == m
       || Surely(q, AwaySide(q, t, depth), depth + 1, m, low')
       || (LineDist(q, t, depth) < low && Surely(q, OwnSide(q, t, depth), depth + 1, m, Least(q, AwaySide(q, t, depth), low')))
  }

  /** The same with the records on the way only. */
  predicate Possibly(q: Point, t: Tree, depth: nat, m: Record, high: real)
    decreases t
  {
    && !t.Nil?
    && var high' := Lesser(high, Dist(t.rec, q));
       || t.rec == m
       || Possibly(q, AwaySide(q, t, depth), depth + 1, m, high')
       || (LineDist(q, t, depth) < high && Possibly(q, OwnSide(q, t, depth), depth + 1, m, high'))
  }

  lemma {:induction false} LeastIsLeast(q: Point, t: Tree, bound: real)
    ensures Least(q, t, bound) <= bound
    ensures forall m | m in Members(t) :: Least(q, t, bound) <= Dist(m, q)
  {
    hide Dist;
    if !t.Nil? {
      LeastIsLeast(q, t.right, bound);
      LeastIsLeast(q, t.left, Least(q, t.right, bound));
    }
  }

  /** What the two halves of the search enter with. */
  lemma Entries(q: Point, t: Tree, depth: nat, closest: Record)
    requires !t.Nil?
    ensures
      var away, own, c1 := AwaySide(q, t, depth), OwnSide(q, t, depth), Nearer(t.rec, closest, q);
      var c2 := LookupTree(q, away, depth + 1, c1);
      && Dist(c1, q) == Lesser(Dist(closest, q), Dist(t.rec, q))
      && Least(q, away, Dist(c1, q)) <= Dist(c2, q) <= Dist(c1, q)
      && Visited(q, t, depth, closest) == multiset{t.rec} + Visited(q, away, depth + 1, c1) +
           (if LineDist(q, t, depth) < Dist(closest, q) then Visited(q, own, depth + 1, c2) else multiset{})
  {
    hide Dist, Square, Offset;
    var away, c1 := AwaySide(q, t, depth), Nearer(t.rec, closest, q);
    AsWrittenIsNearestVisited(q, away, depth + 1, c1);
    VisitedOrSkipped(q, away, depth + 1, c1);
    LeastIsLeast(q, away, Dist(c1, q));
  }

  lemma {:induction false} LeastGrows(q: Point, t: Tree, a: real, b: real)
    requires a <= b
    ensures Least(q, t, a) <= Least(q, t, b)
  {
    hide Dist;
    if !t.Nil? {
      LeastGrows(q, t.right, a, b);
      LeastGrows(q, t.left, Least(q, t.right, a), Least(q, t.right, b));
    }
  }

  lemma {:induction false} SurelyVisited(q: Point, t: Tree, depth: nat, m: Record, low: real, closest: Record)
    requires Surely(q, t, depth, m, low) && low <= Dist(closest, q)
    ensures m in Visited(q, t, depth, closest)
    decreases t
  {
    hide Dist, LineDist, Nearer, LookupTree, Visited, AwaySide, OwnSide;
    var away, own, c1 := AwaySide(q, t, depth), OwnSide(q, t, depth), Nearer(t.rec, closest, q);
    var c2 := LookupTree(q, away, depth + 1, c1);
    var low' := Lesser(low, Dist(t.rec, q));
    Entries(q, t, depth, closest);
    SidesBelow(q, t, depth);
    if t.rec != m {
      if Surely(q, away, depth + 1, m, low') {
        SurelyVisited(q, away, depth + 1, m, low', c1);
      } else {
        LeastGrows(q, away, low', Dist(c1, q));
        SurelyVisited(q, own, depth + 1, m, Least(q, away, low'), c2);
      }
    }
  }

  lemma SidesBelow(q: Point, t: Tree, depth: nat)
    requires !t.Nil?
    ensures AwaySide(q, t, depth) < t && OwnSide(q, t, depth) < t
  {
  }

  lemma {:induction false} VisitedPossibly(q: Point, t: Tree, depth: nat, m: Record, high: real, closest: Record)
    requires m in Visited(q, t, depth, closest) && Dist(closest, q) <= high
    ensures Possibly(q, t, depth, m, high)
    decreases t
  {
    hide Dist, LineDist, Nearer, LookupTree, Visited, AwaySide, OwnSide;
    NilVisitsNone(q, t, depth, closest);
    var away, own, c1 := AwaySide(q, t, depth), OwnSide(q, t, depth), Nearer(t.rec, closest, q);
    var c2 := LookupTree(q, away, depth + 1, c1);
    var high' := Lesser(high, Dist(t.rec, q));
    Entries(q, t, depth, closest);
    SidesBelow(q, t, depth);
    if t.rec != m {
      if m in Visited(q, away, depth + 1, c1) {
        VisitedPossibly(q, away, depth + 1, m, high', c1);
      } else {
        VisitedPossibly(q, own, depth + 1, m, high', c2);
      }
    }
  }

  lemma NilVisitsNone(q: Point, t: Tree, depth: nat, closest: Record)
    requires Visited(q, t, depth, closest) != multiset{}
    ensures !t.Nil?
  {
  }

  /** m is a nearest record of the tree. */
  ghost predicate IsNearest(m: Record, q: Point, t: Tree) {
    m in Members(t) && Nearest(m, q, Members(t))
  }

  /** A nearest record that is surely reached makes the answer exact. */
  lemma SurelyExact(t: Tree, q: Point, m: Record)
    requires !t.Nil? && IsNearest(m, q, t) && Surely(q, t, 0, m, Dist(t.rec, q))
    ensures IsNearest(Lookup(t, q), q, t)
  {
    hide Dist, Surely, Visited, LookupTree;
    SurelyVisited(q, t, 0, m, Dist(t.rec, q), t.rec);
    AsWrittenIsNearestVisited(q, t, 0, t.rec);
    AsWrittenInTree(t, q);
  }

  lemma AsWrittenInTree(t: Tree, q: Point)
    requires !t.Nil?
    ensures Lookup(t, q) in Members(t) && Lookup(t, q) in Visited(q, t, 0, t.rec)
  {
    hide Dist, LookupTree, Skipped;
    AsWrittenIsNearestVisited(q, t, 0, t.rec);
    VisitedOrSkipped(q, t, 0, t.rec);
  }

  /** An exact answer is a nearest record that can possibly be reached. So if no nearest record can, the
      answer is wrong. */
  lemma ExactOnlyIfPossible(t: Tree, q: Point)
    requires !t.Nil? && IsNearest(Lookup(t, q), q, t)
    ensures exists m :: IsNearest(m, q, t) && Possibly(q, t, 0, m, Dist(t.rec, q))
  {
    hide Dist, Possibly, Visited, LookupTree;
    AsWrittenInTree(t, q);
    VisitedPossibly(q, t, 0, Lookup(t, q), Dist(t.rec, q), t.rec);
  }

  /** What the two conditions leave open: a nearest record behind a line that is nearer than the records on
      the way to it, but not nearer than some record that may be searched before. */
  ghost predicate Open(t: Tree, q: Point, m: Record)
    requires !t.Nil?
  {
    IsNearest(m, q, t) && Possibly(q, t, 0, m, Dist(t.rec, q)) && !Surely(q, t, 0, m, Dist(t.rec, q))
  }

  /** Where nothing is open the answer is exact if and only if a nearest record can be reached. */
  lemma ExactIffReachable(t: Tree, q: Point)
    requires !t.Nil? && forall m | m in Members(t) :: !Open(t, q, m)
    ensures IsNearest(Lookup(t, q), q, t) <==> exists m :: IsNearest(m, q, t) && Possibly(q, t, 0, m, Dist(t.rec, q))
  {
    hide Dist, Possibly, Surely, LookupTree;
    if IsNearest(Lookup(t, q), q, t) {
      ExactOnlyIfPossible(t, q);
    } else if m :| IsNearest(m, q, t) && Possibly(q, t, 0, m, Dist(t.rec, q)) {
      SurelyExact(t, q, m);
    }
  }

  /** With at most three records nothing is open, for any query. */
  lemma SmallTreesDecided(t: Tree, q: Point, m: Record)
    requires !t.Nil? && Height(t) <= 2
    ensures !Open(t, q, m)
  {
    hide Dist, LineDist, QueryBeyond, Possibly, Surely, IsNearest;
    LowTree(t);
    var d := Dist(t.rec, q);
    var away, own := AwaySide(q, t, 0), OwnSide(q, t, 0);
    LeafReached(q, away, 1, m, d, d);
    LeafReached(q, own, 1, m, d, Least(q, away, d));
    ReachStep(q, t, 0, m, d);
  }

  lemma ReachStep(q: Point, t: Tree, depth: nat, m: Record, d: real)
    requires !t.Nil? && d == Dist(t.rec, q)
    ensures var away, own := AwaySide(q, t, depth), OwnSide(q, t, depth);
      var near := LineDist(q, t, depth) < d;
      && (Possibly(q, t, depth, m, d)
          <==> (t.rec == m || Possibly(q, away, depth + 1, m, d) || (near && Possibly(q, own, depth + 1, m, d))))
      && (Surely(q, t, depth, m, d)
          <==> (t.rec == m || Surely(q, away, depth + 1, m, d) || (near && Surely(q, own, depth + 1, m, Least(q, away, d)))))
  {
    hide Dist, LineDist;
  }

  lemma LeafReached(q: Point, t: Tree, depth: nat, m: Record, high: real, low: real)
    requires t.Nil? || (t.left.Nil? && t.right.Nil?)
    ensures Possibly(q, t, depth, m, high) <==> Surely(q, t, depth, m, low)
  {
    hide Dist, LineDist;
  }

  lemma LowTree(t: Tree)
    requires !t.Nil? && Height(t) <= 2
    ensures !t.left.Nil? ==> t.left.left.Nil? && t.left.right.Nil?
    ensures !t.right.Nil? ==> t.right.left.Nil? && t.right.right.Nil?
  {
    HeightBelow(t);
    if !t.left.Nil? {
      HeightBelow(t.left);
    }
    if !t.right.Nil? {
      HeightBelow(t.right);
    }
  }

  lemma HeightBelow(t: Tree)
    requires !t.Nil?
    ensures Height(t.left) < Height(t) && Height(t.right) < Height(t)
    ensures (Height(t.left) == 0 ==> t.left.Nil?) && (Height(t.right) == 0 ==> t.right.Nil?)
  {
  }

  /** Every line with the record on the query's own side is nearer than the record. */
  predicate Clear(q: Point, t: Tree, depth: nat, m: Record)
    decreases t
  {
    && !t.Nil?
    && (|| t.rec == m
        || Clear(q, AwaySide(q, t, depth), depth + 1, m)
        || (LineDist(q, t, depth) < Dist(m, q) && Clear(q, OwnSide(q, t, depth), depth + 1, m)))
  }

  /** That is enough for a nearest record. */
  lemma {:induction false} ClearIsSure(q: Point, t: Tree, depth: nat, m: Record, low: real)
    requires Clear(q, t, depth, m) && Nearest(m, q, Members(t)) && Dist(m, q) <= low
    ensures Surely(q, t, depth, m, low)
    decreases t
  {
    hide Dist, LineDist, AwaySide, OwnSide, Nearest, Least;
    var away, own := AwaySide(q, t, depth), OwnSide(q, t, depth);
    var low' := Lesser(low, Dist(t.rec, q));
    NearestBelow(q, t, depth, m);
    SidesBelow(q, t, depth);
    if t.rec != m {
      if Clear(q, away, depth + 1, m) {
        ClearIsSure(q, away, depth + 1, m, low');
      } else {
        LeastAtLeast(q, away, low', m);
        ClearIsSure(q, own, depth + 1, m, Least(q, away, low'));
      }
    }
  }

  lemma NearestBelow(q: Point, t: Tree, depth: nat, m: Record)
    requires !t.Nil? && Nearest(m, q, Members(t))
    ensures Dist(m, q) <= Dist(t.rec, q)
    ensures Nearest(m, q, Members(AwaySide(q, t, depth))) && Nearest(m, q, Members(OwnSide(q, t, depth)))
  {
    hide Dist, QueryBeyond, Nearest;
    NearestParts(m, q, Members(t.left) + multiset{t.rec}, Members(t.right));
    NearestParts(m, q, Members(t.left), multiset{t.rec});
    NearestSingle(m, q, t.rec);
  }

  lemma NearestSingle(m: Record, q: Point, r: Record)
    requires Nearest(m, q, multiset{r})
    ensures Dist(m, q) <= Dist(r, q)
  {
    hide Dist;
    assert r in multiset{r};
  }

  lemma NearestParts(m: Record, q: Point, a: multiset<Record>, b: multiset<Record>)
    requires Nearest(m, q, a + b)
    ensures Nearest(m, q, a) && Nearest(m, q, b)
  {
    hide Dist;
    forall r | r in a ensures Dist(m, q) <= Dist(r, q) {
      assert r in a + b;
    }
    forall r | r in b ensures Dist(m, q) <= Dist(r, q) {
      assert r in a + b;
    }
  }

  lemma {:induction false} LeastAtLeast(q: Point, t: Tree, bound: real, m: Record)
    requires Dist(m, q) <= bound && Nearest(m, q, Members(t))
    ensures Dist(m, q) <= Least(q, t, bound)
  {
    hide Dist;
    if !t.Nil? {
      assert t.rec in Members(t);
      LeastAtLeast(q, t.right, bound, m);
      LeastAtLeast(q, t.left, Least(q, t.right, bound), m);
    }
  }

  /** A query level with the root: its own side is passed over, and everything that is searched is at
      least as far as the root. */
  lemma RootPrunes(t: Tree, q: Point)
    requires !t.Nil? && Shape(t, 0) && q.y == t.rec.lat
    ensures Dist(t.rec, q) <= Dist(Lookup(t, q), q)
  {
    assert Dist(t.rec, q) == Square(t.rec.lon - q.x);
    var side := if QueryBeyond(t.rec, q, 0) then t.left else t.right;
    AsWrittenIsNearestVisited(q, side, 1, t.rec);
    VisitedOrSkipped(q, side, 1, t.rec);
    var r := LookupTree(q, side, 1, t.rec);
    assert Lookup(t, q) == r by {
      assert Nearer(t.rec, t.rec, q) == t.rec;
      assert !MayCross(t.rec, q, 0, t.rec);
    }
    if r != t.rec {
      assert r in Members(side);
      BeyondTheLine(t.rec, r, q, 0);
    }
  }

  /** For two records at different longitudes there is a query, level with the first, that is nearer to
      the second. */
  lemma NearerQuery(root: Record, r: Record) returns (q: Point)
    requires r.lon != root.lon
    ensures q.y == root.lat && Dist(r, q) < Dist(root, q)
  {
    var d, e := root.lon - r.lon, Square(r.lat - root.lat);
    var s := e / (2.0 * d);
    q := Point(r.lon - s, root.lat);
    assert 2.0 * d * s == e;
    assert Square(s + d) == s * s + 2.0 * d * s + d * d;
    assert Square(r.lon - q.x) == s * s && Square(root.lon - q.x) == Square(s + d);
    assert Square(root.lat - q.y) == 0.0;
    assert Dist(root, q) - Dist(r, q) == Square(d);
    NonZeroSquare(d);
  }

  lemma Positive(c: real)
    requires c > 0.0
    ensures Square(c) > 0.0
  {
    PositiveProduct(c, c, Square(c));
  }

  lemma PositiveProduct(a: real, b: real, p: real)
    requires a > 0.0 && b > 0.0 && p == a * b
    ensures p > 0.0
  {
  }

  lemma Negated(d: real)
    ensures Square(-d) == Square(d)
  {
  }

  lemma NonZeroSquare(d: real)
    requires d != 0.0
    ensures Square(d) > 0.0
  {
    hide Square;
    if d > 0.0 {
      Positive(d);
    } else {
      Positive(-d);
      Negated(d);
    }
  }

  /** The failing family: as soon as one record has another longitude than the root, there is a query for
      which the program's answer is not a nearest record. So the program is exact on every query only if
      all records have the root's longitude. */
  lemma AsWrittenFailsSomewhere(t: Tree, r: Record) returns (q: Point)
    requires !t.Nil? && Shape(t, 0) && r in Members(t) && r.lon != t.rec.lon
    ensures !Nearest(Lookup(t, q), q, Members(t))
  {
    q := NearerQuery(t.rec, r);
    RootPrunes(t, q);
  }

  /** So for any records with two longitudes the program gives a wrong answer to some query. */
  lemma TwoLongitudesFail(records: seq<Record>, qsort: Sorter, a: Record, b: Record) returns (q: Point)
    requires Sorts(qsort) && a in records && b in records && a.lon != b.lon
    ensures var t := Build(records, 0, qsort); !t.Nil? && !Nearest(Lookup(t, q), q, multiset(records))
  {
    hide Build, Sorts, Nearest, LookupTree, Shape;
    var t := Build(records, 0, qsort);
    BuildStep(records, 0, qsort);
    BuildShape(records, 0, qsort);
    BuildMembers(records, 0, qsort);
    assert a in multiset(records) && b in multiset(records);
    q := AsWrittenFailsSomewhere(t, if a.lon != t.rec.lon then a else b);
  }

  /** Two records at the same latitude are enough: in the tree built of them the query at the one is
      answered with the other. */
  lemma TwoRecordsAreEnough(qsort: Sorter)
    requires Sorts(qsort)
    ensures var a, b := Record(0, 0.0, 0.0), Record(1, 10.0, 0.0);
      var t, q := Build([a, b], 0, qsort), Point(0.0, 0.0);
      !t.Nil? && Lookup(t, q) == b && Dist(a, q) == 0.0 && Dist(b, q) == 100.0
  {
    hide Sorts, Build;
    var a, b := Record(0, 0.0, 0.0), Record(1, 10.0, 0.0);
    var q := Point(0.0, 0.0);
    TwoSorted(qsort, a, b);
    BuildStep([a, b], 0, qsort);
    assert [a, b][..1] == [a] && [a, b][2..] == [];
    OneSorted(qsort, a);
    BuildStep([a], 1, qsort);
    assert [a][..0] == [] && [a][1..] == [];
    BuildStep([], 1, qsort);
    BuildStep([], 2, qsort);
    var t := Build([a, b], 0, qsort);
    assert t == Node(b, Node(a, Nil, Nil), Nil);
    assert Dist(b, q) == 100.0 && Square(Offset(b, q, 0)) == 100.0;
    assert !MayCross(b, q, 0, b);
  }

  lemma TwoSorted(qsort: Sorter, a: Record, b: Record)
    requires Sorts(qsort) && a.lon < b.lon
    ensures qsort([a, b], 0) == [a, b]
  {
    var s := qsort([a, b], 0);
    SortFacts(qsort, [a, b], 0);
    hide Sorts;
    assert s == [s[0], s[1]];
    assert multiset(s) == multiset{s[0], s[1]} && multiset([a, b]) == multiset{a, b};
    assert s[0] in multiset(s) && s[1] in multiset(s);
    assert s[0] in multiset{a, b} && s[1] in multiset{a, b};
    assert Coord(s[0], 0) <= Coord(s[1], 0);
  }

  lemma OneSorted(qsort: Sorter, a: Record)
    requires Sorts(qsort)
    ensures qsort([a], 1) == [a]
  {
    var s := qsort([a], 1);
    SortFacts(qsort, [a], 1);
    hide Sorts;
    assert s == [s[0]] && s[0] in multiset(s);
    assert multiset([a]) == multiset{a};
  }

  // ---- The index as a whole ----

  datatype Option<T> = None | Some(value: T)

  /** What is promised of an answer: none only for no records, and otherwise a nearest one. */
  ghost predicate NearestOf(r: Option<Record>, q: Point, records: seq<Record>) {
    if records == [] then r == None
    else r.Some? && r.value in records && Nearest(r.value, q, multiset(records))
  }

  /** The linear scan. */
  method LookupNaive(records: seq<Record>, q: Point) returns (r: Option<Record>)
    ensures NearestOf(r, q, records)
  {
    hide Dist;
    if records == [] {
      return None;
    }
    var closest := records[0];
    var best := Dist(closest, q);
    for i := 1 to |records|
      invariant closest in records && best == Dist(closest, q)
      invariant forall j | 0 <= j < i :: best <= Dist(records[j], q)
    {
      var d := Dist(records[i], q);
      if d < best {
        best, closest := d, records[i];
      }
    }
    return Some(closest);
  }

  /** mk: the tree of all records, built on a copy of them. */
  method Mk(records: seq<Record>, qsort: Sorter) returns (root: Tree)
    requires Sorts(qsort)
    ensures root == Build(records, 0, qsort)
  {
    hide Build, Sorts;
    var recs := new Record[|records|](i requires 0 <= i < |records| => records[i]);
    assert recs[0..0 + |records|] == records;
    root := BuildKDTree(recs, 0, |records|, 0, qsort);
  }

  /** A search with the own side first comes as near as the linear scan. */
  method QueryOwnSideFirst(records: seq<Record>, qsort: Sorter, q: Point) returns (r: Option<Record>)
    requires Sorts(qsort)
    ensures NearestOf(r, q, records)
  {
    hide Build, Sorts, Nearest, LookupOwnSideFirst, Shape, Dist;
    var root := Mk(records, qsort);
    BuildStep(records, 0, qsort);
    if root.Nil? {
      return None;
    }
    BuildShape(records, 0, qsort);
    BuildMembers(records, 0, qsort);
    OwnSideFirstIsExact(q, root, 0, root.rec);
    var found := LookupOwnSideFirst(q, root, 0, root.rec);
    assert found in Members(root);
    assert found in multiset(records);
    return Some(found);
  }

  /** The program as it is: a record of the input, and a nearest one exactly when no harm is done. */
  method QueryAsWritten(records: seq<Record>, qsort: Sorter, q: Point) returns (r: Option<Record>)
    requires Sorts(qsort)
    ensures r == None <==> records == []
    ensures r.Some? ==> r.value in records
    ensures
      var t := Build(records, 0, qsort);
      (exists m :: m in records && Nearest(m, q, multiset(records)) && !t.Nil? && Surely(q, t, 0, m, Dist(t.rec, q)))
      ==> NearestOf(r, q, records)
    ensures
      var t := Build(records, 0, qsort);
      records != [] && NearestOf(r, q, records) ==>
      exists m :: m in records && Nearest(m, q, multiset(records)) && !t.Nil? && Possibly(q, t, 0, m, Dist(t.rec, q))
    ensures |records| <= 3 && records != [] ==>
      var t := Build(records, 0, qsort);
      !t.Nil? && (NearestOf(r, q, records) <==> exists m :: m in records && Nearest(m, q, multiset(records)) && Possibly(q, t, 0, m, Dist(t.rec, q)))
  {
    hide Build, Sorts, Nearest, LookupTree, Shape, Dist, Surely, Possibly;
    var root := Mk(records, qsort);
    BuildStep(records, 0, qsort);
    if root.Nil? {
      return None;
    }
    BuildMembers(records, 0, qsort);
    var found := Lookup(root, q);
    AsWrittenInTree(root, q);
    assert found in multiset(records);
    QueryFacts(records, root, q);
    if |records| <= 3 {
      BuildHeight(records, 0, qsort);
      ThreeAreLow(|records|, Height(root));
      SmallExactIff(root, q);
    }
    return Some(found);
  }

  /** The two conditions, for the records that the tree holds. */
  lemma QueryFacts(records: seq<Record>, t: Tree, q: Point)
    requires !t.Nil? && Members(t) == multiset(records)
    ensures (exists m :: m in records && Nearest(m, q, multiset(records)) && Surely(q, t, 0, m, Dist(t.rec, q)))
        ==> Nearest(Lookup(t, q), q, multiset(records))
    ensures Nearest(Lookup(t, q), q, multiset(records))
        ==> exists m :: m in records && Nearest(m, q, multiset(records)) && Possibly(q, t, 0, m, Dist(t.rec, q))
  {
    hide Nearest, LookupTree, Dist, Surely, Possibly;
    if m :| m in records && Nearest(m, q, multiset(records)) && Surely(q, t, 0, m, Dist(t.rec, q)) {
      assert m in multiset(records);
      SurelyExact(t, q, m);
    }
    if Nearest(Lookup(t, q), q, multiset(records)) {
      AsWrittenInTree(t, q);
      ExactOnlyIfPossible(t, q);
      var m :| IsNearest(m, q, t) && Possibly(q, t, 0, m, Dist(t.rec, q));
      assert m in multiset(records);
    }
  }

  lemma ThreeAreLow(n: nat, h: nat)
    requires n <= 3 && h > 0 && Pow2(h - 1) <= n
    ensures h <= 2
  {
    if h > 2 {
      Pow2Grows(2, h - 1);
    }
  }

  lemma SmallExactIff(t: Tree, q: Point)
    requires !t.Nil? && Height(t) <= 2
    ensures IsNearest(Lookup(t, q), q, t) <==> exists m :: IsNearest(m, q, t) && Possibly(q, t, 0, m, Dist(t.rec, q))
  {
    forall m | m in Members(t) ensures !Open(t, q, m) {
      SmallTreesDecided(t, q, m);
    }
    ExactIffReachable(t, q);
  }
}

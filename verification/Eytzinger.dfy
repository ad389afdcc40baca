/** The Eytzinger layout: a sorted array stored as an implicit search tree whose node k has the children
    2k and 2k + 1, and the lookup that walks down it. */
module Eytzinger {

  /** A record is known by its place in the input and by its id. */
  datatype Record = Record(place: nat, osmId: int)

  datatype Option<+T> = None | Some(value: T)

  /** A key with the record it came from. */
  datatype IndexRecord = IndexRecord(key: int, rec: Record)

  // ---- The shape of the implicit tree ----

  /** The nodes of the subtree at k, in order. */
  function InOrder(k: nat, n: nat): (s: seq<nat>)
    requires k >= 1
    decreases n + 1 - k
  {
    if k > n then [] else InOrder(2 * k, n) + [k] + InOrder(2 * k + 1, n)
  }

  /** Whether j is in the subtree at k. */
  predicate Below(k: nat, j: nat)
    requires k >= 1
    decreases j
  {
    j == k || (j > k && Below(k, j / 2))
  }

  lemma {:induction false} BelowStep(k: nat, j: nat)
    requires k >= 1
    ensures Below(k, j) <==> j == k || Below(2 * k, j) || Below(2 * k + 1, j)
    decreases j
  {
    if j > k {
      BelowStep(k, j / 2);
    }
  }

  lemma {:induction false} BelowIsLarger(k: nat, j: nat)
    requires k >= 1 && Below(k, j)
    ensures k <= j
  {
  }

  /** The two subtrees and the node itself are apart. */
  lemma {:induction false} ChildrenApart(k: nat, j: nat)
    requires k >= 1
    ensures !(Below(2 * k, j) && Below(2 * k + 1, j)) && !Below(2 * k, k) && !Below(2 * k + 1, k)
    decreases j
  {
    if j > 2 * k + 1 {
      ChildrenApart(k, j / 2);
    }
  }

  lemma {:induction false} EveryNodeBelowRoot(j: nat)
    requires j >= 1
    ensures Below(1, j)
  {
    if j > 1 {
      EveryNodeBelowRoot(j / 2);
    }
  }

  lemma CountParts(left: seq<nat>, k: nat, right: seq<nat>, j: nat)
    ensures multiset(left + [k] + right)[j] == multiset(left)[j] + (if j == k then 1 else 0) + multiset(right)[j]
  {
  }

  /** The traversal visits exactly the nodes up to n of the subtree, each once. */
  lemma {:induction false} InOrderVisits(k: nat, n: nat, j: nat)
    requires k >= 1
    ensures multiset(InOrder(k, n))[j] == if j <= n && Below(k, j) then 1 else 0
    decreases n + 1 - k
  {
    hide InOrder, Below;
    InOrderStep(k, n);
    if k > n {
      if Below(k, j) {
        BelowIsLarger(k, j);
      }
    } else {
      InOrderVisits(2 * k, n, j);
      InOrderVisits(2 * k + 1, n, j);
      BelowStep(k, j);
      ChildrenApart(k, j);
      CountParts(InOrder(2 * k, n), k, InOrder(2 * k + 1, n), j);
    }
  }

  lemma InOrderStep(k: nat, n: nat)
    requires k >= 1
    ensures InOrder(k, n) == if k > n then [] else InOrder(2 * k, n) + [k] + InOrder(2 * k + 1, n)
  {
  }

  function Size(k: nat, n: nat): nat
    requires k >= 1
  {
    |InOrder(k, n)|
  }

  /** The numbers from 1 to n. */
  function UpTo(n: nat): seq<nat> {
    seq(n, i => i + 1)
  }

  lemma {:induction false} UpToCounts(n: nat, j: nat)
    ensures multiset(UpTo(n))[j] == if 1 <= j <= n then 1 else 0
  {
    if n > 0 {
      assert UpTo(n) == UpTo(n - 1) + [n];
      UpToCounts(n - 1, j);
    }
  }

  /** From the root the traversal visits every slot from 1 to n exactly once, n slots in all. */
  lemma WholeTree(n: nat)
    ensures multiset(InOrder(1, n)) == multiset(UpTo(n)) && |InOrder(1, n)| == n
  {
    forall j: nat ensures multiset(InOrder(1, n))[j] == multiset(UpTo(n))[j] {
      InOrderVisits(1, n, j);
      UpToCounts(n, j);
      if j >= 1 {
        EveryNodeBelowRoot(j);
      }
    }
    assert multiset(InOrder(1, n)) == multiset(UpTo(n));
    assert |multiset(InOrder(1, n))| == |InOrder(1, n)| && |multiset(UpTo(n))| == |UpTo(n)|;
  }

  // ---- Building ----

  /** The entries of the subtree at k, in order. */
  function Entries(ey: seq<IndexRecord>, k: nat, n: nat): (s: seq<IndexRecord>)
    requires k >= 1 && n < |ey|
    ensures |s| == Size(k, n)
    decreases n + 1 - k
  {
    if k > n then [] else Entries(ey, 2 * k, n) + [ey[k]] + Entries(ey, 2 * k + 1, n)
  }

  lemma {:induction false} EntriesFrame(a: seq<IndexRecord>, b: seq<IndexRecord>, k: nat, n: nat)
    requires k >= 1 && n < |a| == |b|
    requires forall j: nat | j <= n && Below(k, j) :: a[j] == b[j]
    ensures Entries(a, k, n) == Entries(b, k, n)
    decreases n + 1 - k
  {
    if k <= n {
      forall j: nat ensures Below(k, j) <==> j == k || Below(2 * k, j) || Below(2 * k + 1, j) {
        BelowStep(k, j);
      }
      EntriesFrame(a, b, 2 * k, n);
      EntriesFrame(a, b, 2 * k + 1, n);
    }
  }

  /** build_eytzinger: fill the subtree at k with the next entries of the sorted array. */
  method BuildEytzinger(sorted: seq<IndexRecord>, ey: array<IndexRecord>, k: nat, i: nat, n: nat) returns (i': nat)
    requires k >= 1 && n < ey.Length && i + Size(k, n) <= |sorted|
    modifies ey
    ensures i' == i + Size(k, n) && Entries(ey[..], k, n) == sorted[i..i']
    ensures forall j: nat | j < ey.Length && !(j <= n && Below(k, j)) :: ey[j] == old(ey[j])
    decreases n + 1 - k
  {
    hide Below;
    i' := i;
    if k <= n {
      forall j: nat ensures Below(k, j) <==> j == k || Below(2 * k, j) || Below(2 * k + 1, j) {
        BelowStep(k, j);
      }
      forall j: nat ensures !(Below(2 * k, j) && Below(2 * k + 1, j)) && !Below(2 * k, k) && !Below(2 * k + 1, k) {
        ChildrenApart(k, j);
      }
      i' := BuildEytzinger(sorted, ey, 2 * k, i', n);
      ghost var mid, left := i', ey[..];
      ey[k] := sorted[i'];
      i' := i' + 1;
      i' := BuildEytzinger(sorted, ey, 2 * k + 1, i', n);
      EntriesFrame(left, ey[..], 2 * k, n);
      assert sorted[i..i'] == sorted[i..mid] + [sorted[mid]] + sorted[mid + 1..i'];
    }
  }

  // ---- Looking up ----

  ghost predicate Ascending(s: seq<IndexRecord>) {
    forall i, j | 0 <= i < j < |s| :: s[i].key <= s[j].key
  }

  /** The position of the first entry whose key is at least x, or the length if there is none. */
  ghost predicate IsLowerBound(s: seq<IndexRecord>, x: int, p: nat) {
    && p <= |s|
    && (forall i | 0 <= i < p :: s[i].key < x)
    && (forall i | p <= i < |s| :: s[i].key >= x)
  }

  /** The position of the first entry whose key is not below x. */
  ghost function LowerBound(s: seq<IndexRecord>, x: int): (p: nat)
    ensures p <= |s|
  {
    if s == [] || s[0].key >= x then 0 else 1 + LowerBound(s[1..], x)
  }

  /** There is one lower bound. */
  lemma {:induction false} LowerBoundIs(s: seq<IndexRecord>, x: int, p: nat)
    requires IsLowerBound(s, x, p)
    ensures LowerBound(s, x) == p
  {
    if s != [] && s[0].key < x {
      assert forall i | 0 <= i < |s[1..]| :: s[1..][i] == s[i + 1];
      LowerBoundIs(s[1..], x, p - 1);
    }
  }

  lemma {:induction false} LowerBoundExists(s: seq<IndexRecord>, x: int)
    requires Ascending(s)
    ensures IsLowerBound(s, x, LowerBound(s, x))
  {
    if s != [] && s[0].key < x {
      LowerBoundExists(s[1..], x);
      assert forall i | 0 < i < |s| :: s[i] == s[1..][i - 1];
    }
  }

  /** A built index. Slot 0 is not used. */
  datatype EytzData = EytzData(n: nat, ey: seq<IndexRecord>)

  /** eytzinger_lookup. The loop ends with `last` at the first entry in order with key >= x, so the
      result is that entry's record if the key is x, and nothing otherwise. */
  method Lookup(data: EytzData, x: int) returns (r: Option<Record>)
    requires |data.ey| == data.n + 1 && Ascending(Entries(data.ey, 1, data.n))
    ensures var s := Entries(data.ey, 1, data.n); var p := LowerBound(s, x);
      r == if p < |s| && s[p].key == x then Some(s[p].rec) else None
  {
    hide Ascending, Entries;
    var k, last := 1, 0;
    ghost var s := Entries(data.ey, 1, data.n);
    assert s == [] + s + [];
    ghost var before: seq<IndexRecord>, after: seq<IndexRecord> := [], [];
    while k <= data.n
      invariant k >= 1 && s == before + Entries(data.ey, k, data.n) + after
      invariant forall e | e in before :: e.key < x
      invariant forall e | e in after :: e.key >= x
      invariant 0 <= last <= data.n && (last == 0 <==> after == [])
      invariant after != [] ==> data.ey[last] == after[0]
      decreases data.n + 1 - k
    {
      var left, right := Entries(data.ey, 2 * k, data.n), Entries(data.ey, 2 * k + 1, data.n);
      var cond := data.ey[k].key >= x;
      EntriesStep(data.ey, k, data.n);
      Sides(s, before, left, data.ey[k], right, after, x);
      last := if cond then k else last;
      if cond {
        after := [data.ey[k]] + right + after;
        k := 2 * k;
      } else {
        before := before + left + [data.ey[k]];
        k := 2 * k + 1;
      }
    }
    EntriesStep(data.ey, k, data.n);
    assert s == before + after;
    SplitIsLowerBound(before, after, x);
    LowerBoundIs(s, x, |before|);
    if last == 0 {
      r := None;
    } else if data.ey[last].key != x {
      r := None;
    } else {
      r := Some(data.ey[last].rec);
    }
  }

  lemma EntriesStep(ey: seq<IndexRecord>, k: nat, n: nat)
    requires k >= 1 && n < |ey|
    ensures Entries(ey, k, n) == if k > n then [] else Entries(ey, 2 * k, n) + [ey[k]] + Entries(ey, 2 * k + 1, n)
  {
  }

  lemma SplitIsLowerBound(before: seq<IndexRecord>, after: seq<IndexRecord>, x: int)
    requires forall e | e in before :: e.key < x
    requires forall e | e in after :: e.key >= x
    ensures IsLowerBound(before + after, x, |before|)
  {
  }

  /** In an ascending sequence everything before a small entry is small and everything after a large
      one is large. */
  lemma Sides(s: seq<IndexRecord>, before: seq<IndexRecord>, left: seq<IndexRecord>, e: IndexRecord,
              right: seq<IndexRecord>, after: seq<IndexRecord>, x: int)
    requires Ascending(s) && s == before + (left + [e] + right) + after
    ensures e.key >= x ==> s == before + left + ([e] + right + after) && forall y | y in right :: y.key >= x
    ensures e.key < x ==> s == (before + left + [e]) + right + after && forall y | y in left :: y.key < x
  {
    var m := |before| + |left|;
    assert s[m] == e;
    forall y | y in right ensures y.key >= e.key {
      var i :| 0 <= i < |right| && right[i] == y;
      assert s[m + 1 + i] == y;
    }
    forall y | y in left ensures y.key <= e.key {
      var i :| 0 <= i < |left| && left[i] == y;
      assert s[|before| + i] == y;
    }
  }

  // ---- The index as a whole ----

  /** What the index is built from: a key and the record for each record. */
  function Indexed(records: seq<Record>): (s: seq<IndexRecord>)
    ensures |s| == |records|
  {
    seq(|records|, i requires 0 <= i < |records| => IndexRecord(records[i].osmId, records[i]))
  }

  /** mk_eytzinger. qsort is any function that returns its argument in ascending order. */
  method MkEytzinger(records: seq<Record>, qsort: seq<IndexRecord> -> seq<IndexRecord>) returns (data: EytzData)
    requires var sorted := qsort(Indexed(records)); Ascending(sorted) && multiset(sorted) == multiset(Indexed(records))
    ensures data.n == |records| && |data.ey| == data.n + 1
    ensures Entries(data.ey, 1, data.n) == qsort(Indexed(records))
  {
    var n := |records|;
    var sorted := qsort(Indexed(records));
    assert |multiset(sorted)| == |sorted| && |multiset(Indexed(records))| == n;
    WholeTree(n);
    var ey := new IndexRecord[n + 1](_ => IndexRecord(0, Record(0, 0)));
    var i := BuildEytzinger(sorted, ey, 1, 0, n);
    assert sorted[0..n] == sorted;
    data := EytzData(n, ey[..]);
  }

  /** The linear scan: the first record with the id. */
  method LookupNaive(records: seq<Record>, needle: int) returns (r: Option<Record>)
    ensures r == Scan(records, needle)
  {
    for i := 0 to |records|
      invariant Scan(records, needle) == Scan(records[i..], needle)
    {
      if records[i].osmId == needle {
        return Some(records[i]);
      }
    }
    return None;
  }

  function Scan(records: seq<Record>, needle: int): Option<Record> {
    if records == [] then None
    else if records[0].osmId == needle then Some(records[0])
    else Scan(records[1..], needle)
  }

  lemma {:induction false} ScanFinds(records: seq<Record>, needle: int)
    ensures Scan(records, needle).Some? <==> exists i :: 0 <= i < |records| && records[i].osmId == needle
    ensures Scan(records, needle).Some? ==> Scan(records, needle).value in records && Scan(records, needle).value.osmId == needle
  {
    if records != [] {
      ScanFinds(records[1..], needle);
      if exists i :: 0 <= i < |records| && records[i].osmId == needle {
        var i :| 0 <= i < |records| && records[i].osmId == needle;
        if i > 0 {
          assert records[1..][i - 1].osmId == needle;
        }
      }
      if Scan(records[1..], needle).Some? {
        var i :| 0 <= i < |records[1..]| && records[1..][i].osmId == needle;
        assert records[i + 1].osmId == needle;
      }
    }
  }

  ghost predicate UniqueIds(records: seq<Record>) {
    forall i, j | 0 <= i < j < |records| :: records[i].osmId != records[j].osmId
  }

  /** And it finds the first one. */
  lemma {:induction false} ScanIsFirst(records: seq<Record>, needle: int) returns (i: nat)
    requires Scan(records, needle).Some?
    ensures i < |records| && Scan(records, needle) == Some(records[i]) && records[i].osmId == needle
    ensures forall j | 0 <= j < i :: records[j].osmId != needle
  {
    i := 0;
    if records[0].osmId != needle {
      var k := ScanIsFirst(records[1..], needle);
      assert forall j | 0 < j <= k :: records[j] == records[1..][j - 1];
      i := k + 1;
    }
  }

  /** A lower bound in the sorted entries answers what the scan answers: it finds a record exactly when
      the scan does, with the same id, and the same record when ids are unique. */
  lemma LowerBoundAgreesWithScan(records: seq<Record>, s: seq<IndexRecord>, x: int, p: nat)
    requires Ascending(s) && multiset(s) == multiset(Indexed(records)) && IsLowerBound(s, x, p)
    ensures (p < |s| && s[p].key == x) <==> Scan(records, x).Some?
    ensures p < |s| && s[p].key == x ==> s[p].rec in records && s[p].rec.osmId == x
    ensures p < |s| && s[p].key == x && UniqueIds(records) ==> Scan(records, x) == Some(s[p].rec)
  {
    ScanFinds(records, x);
    if p < |s| && s[p].key == x {
      assert s[p] in multiset(s) && s[p] in Indexed(records);
      var i :| 0 <= i < |records| && Indexed(records)[i] == s[p];
      assert records[i].osmId == x && records[i] == s[p].rec;
      var found := Scan(records, x).value;
      var j :| 0 <= j < |records| && records[j] == found;
    } else if Scan(records, x).Some? {
      var i :| 0 <= i < |records| && records[i].osmId == x;
      assert Indexed(records)[i] in multiset(Indexed(records)) && Indexed(records)[i] in multiset(s);
      var q :| 0 <= q < |s| && s[q] == Indexed(records)[i];
    }
  }

  /** The whole index against the whole scan. */
  method Query(records: seq<Record>, qsort: seq<IndexRecord> -> seq<IndexRecord>, x: int) returns (r: Option<Record>)
    requires var sorted := qsort(Indexed(records)); Ascending(sorted) && multiset(sorted) == multiset(Indexed(records))
    ensures r.Some? <==> Scan(records, x).Some?
    ensures r.Some? ==> r.value in records && r.value.osmId == x
    ensures UniqueIds(records) ==> r == Scan(records, x)
  {
    var data := MkEytzinger(records, qsort);
    r := Lookup(data, x);
    ghost var s := qsort(Indexed(records));
    LowerBoundExists(s, x);
    LowerBoundAgreesWithScan(records, s, x, LowerBound(s, x));
  }
}

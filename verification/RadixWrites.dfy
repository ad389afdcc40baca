/** What reaches the output file when a write call accepts fewer numbers than it is given: main's inner
    loop goes on for the numbers that are left, but starts again at the beginning of the buffer. */
module RadixWrites {
  import opened RadixBits
  import opened RadixTree

  /** How many numbers the calls accept: at least one each, until none is left. */
  predicate Accepts(left: nat, counts: seq<nat>)
    decreases counts
  {
    if counts == [] then left == 0 else 0 < counts[0] <= left && Accepts(left - counts[0], counts[1..])
  }

  function Written(chunk: seq<Word>, left: nat, counts: seq<nat>): seq<Word>
    requires left <= |chunk| && Accepts(left, counts)
    decreases counts
  {
    if counts == [] then [] else chunk[..counts[0]] + Written(chunk, left - counts[0], counts[1..])
  }

  /** The inner loop: each call is handed the beginning of the buffer. */
  method WriteChunk(chunk: seq<Word>, counts: seq<nat>) returns (file: seq<Word>)
    requires Accepts(|chunk|, counts)
    ensures file == Written(chunk, |chunk|, counts)
  {
    var toWrite, i := |chunk|, 0;
    file := [];
    while toWrite > 0
      invariant 0 <= i <= |counts| && 0 <= toWrite <= |chunk| && Accepts(toWrite, counts[i..])
      invariant file + Written(chunk, toWrite, counts[i..]) == Written(chunk, |chunk|, counts)
      decreases toWrite
    {
      var written := counts[i..][0];
      assert counts[i..][1..] == counts[i + 1..];
      file := file + chunk[..written];
      toWrite := toWrite - written;
      i := i + 1;
    }
  }

  /** Every number written stands, in the buffer, no later than its place in the output. */
  ghost predicate FromEarlier(chunk: seq<Word>, w: seq<Word>) {
    forall i | 0 <= i < |w| :: Stands(chunk, w[i], i)
  }

  ghost predicate Stands(chunk: seq<Word>, n: Word, i: int) {
    exists j :: 0 <= j <= i && j < |chunk| && chunk[j] == n
  }

  lemma {:induction false} WrittenFromEarlier(chunk: seq<Word>, left: nat, counts: seq<nat>)
    requires left <= |chunk| && Accepts(left, counts)
    ensures |Written(chunk, left, counts)| == left && FromEarlier(chunk, Written(chunk, left, counts))
    decreases counts
  {
    hide FromEarlier;
    if counts == [] {
      NothingEarlier(chunk);
    } else {
      var k := counts[0];
      WrittenFromEarlier(chunk, left - k, counts[1..]);
      EarlierAppend(chunk, k, Written(chunk, left - k, counts[1..]));
    }
  }

  lemma NothingEarlier(chunk: seq<Word>)
    ensures FromEarlier(chunk, [])
  {
  }

  lemma EarlierAppend(chunk: seq<Word>, k: nat, rest: seq<Word>)
    requires k <= |chunk| && FromEarlier(chunk, rest)
    ensures FromEarlier(chunk, chunk[..k] + rest)
  {
    var w := chunk[..k] + rest;
    forall i | 0 <= i < |w| ensures Stands(chunk, w[i], i) {
      if i < k {
        assert w[i] == chunk[i];
      } else {
        assert w[i] == rest[i - k] && Stands(chunk, rest[i - k], i - k);
      }
    }
  }

  predicate Constant(s: seq<Word>) {
    forall i | 0 <= i < |s| :: s[i] == s[0]
  }

  /** A first short call and an output that is right: then all numbers are the same. */
  lemma {:induction false} ShortMeansConstant(chunk: seq<Word>, k: nat, rest: seq<Word>, p: nat)
    requires Sorted(chunk) && Numbers(chunk) && 0 < k < |chunk| && p < |chunk|
    requires |rest| == |chunk| - k && chunk == chunk[..k] + rest
    requires FromEarlier(chunk, rest)
    ensures chunk[p] == chunk[0]
    decreases p
  {
    hide AtMost, NonNegative;
    assert chunk[k] == rest[0] && Stands(chunk, rest[0], 0);
    assert chunk[k] == chunk[0];
    if p >= k {
      assert chunk[p] == rest[p - k] && Stands(chunk, rest[p - k], p - k);
      var j :| 0 <= j <= p - k && j < |chunk| && chunk[j] == rest[p - k];
      ShortMeansConstant(chunk, k, rest, j);
    } else if p > 0 {
      assert AtMost(chunk[0], chunk[p]) && AtMost(chunk[p], chunk[k]);
      Antisymmetric(chunk[0], chunk[p]);
    }
  }

  lemma {:induction false} ConstantWritten(chunk: seq<Word>, left: nat, counts: seq<nat>)
    requires left <= |chunk| && Accepts(left, counts) && Constant(chunk)
    ensures Written(chunk, left, counts) == chunk[..left]
    decreases counts
  {
    if counts != [] {
      ConstantWritten(chunk, left - counts[0], counts[1..]);
    }
  }

  /** A chunk of numbers in ascending order reaches the file as it is exactly when one call accepts all of
      it, or all its numbers are the same. */
  lemma ShortWritesExactIff(chunk: seq<Word>, counts: seq<nat>)
    requires Sorted(chunk) && Numbers(chunk) && Accepts(|chunk|, counts)
    ensures Written(chunk, |chunk|, counts) == chunk <==> |counts| <= 1 || Constant(chunk)
  {
    hide Sorted, Numbers, Constant;
    assert chunk[..|chunk|] == chunk;
    if Constant(chunk) {
      ConstantWritten(chunk, |chunk|, counts);
    } else if |counts| <= 1 {
      assert Written(chunk, |chunk|, counts) == chunk[..|chunk|];
    } else if Written(chunk, |chunk|, counts) == chunk {
      ShortRight(chunk, counts);
    }
  }

  lemma ShortRight(chunk: seq<Word>, counts: seq<nat>)
    requires Sorted(chunk) && Numbers(chunk) && Accepts(|chunk|, counts)
    requires |counts| >= 2 && Written(chunk, |chunk|, counts) == chunk
    ensures Constant(chunk)
  {
    hide Sorted, Numbers, FromEarlier;
    var k, rest := counts[0], Written(chunk, |chunk| - counts[0], counts[1..]);
    WrittenFromEarlier(chunk, |chunk| - k, counts[1..]);
    assert counts[1..] != [];
    forall p | 0 <= p < |chunk| ensures chunk[p] == chunk[0] {
      ShortMeansConstant(chunk, k, rest, p);
    }
  }

  /** The chunks that main hands to the write call are in ascending order. */
  lemma ChunksAscend(t: Tree, k: nat)
    requires Shape(t)
    ensures Sorted(Take(t, k).1) && Numbers(Take(t, k).1)
  {
    hide Take, Shape, Listing, AtMost, NonNegative;
    ListingSorted(t);
    ListingNumbers(t);
    TakeSplits(t, k);
  }
}

/** The threaded bit histogram: thread 0 pushes the files and destroys the queue, every other thread
    pops a file, counts its bits into a local histogram and merges that into the global one. The
    queue steps are those of module JobQueue, so the whole program is one transition system. */
module Histogram {
  import Q = JobQueue

  type Byte = bv8

  /** What fopen finds: the bytes of a file, or nothing when the file cannot be opened. */
  datatype File = Missing | File(bytes: seq<Byte>)

  type Disk = Q.Job -> File

  // ---- The sequential meaning ----

  function BitSet(b: Byte, i: nat): bool
    requires i < 8
  {
    (b & ((1 as bv8) << i)) != 0
  }

  function Bit(b: Byte, i: nat): nat
    requires i < 8
  {
    if BitSet(b, i) then 1 else 0
  }

  function CountBits(bytes: seq<Byte>, i: nat): nat
    requires i < 8
  {
    if bytes == [] then 0 else Bit(bytes[0], i) + CountBits(bytes[1..], i)
  }

  function FileBits(disk: Disk, job: Q.Job, i: nat): nat
    requires i < 8
  {
    match disk(job)
    case Missing => 0
    case File(bytes) => CountBits(bytes, i)
  }

  /** Bin i of the histogram of a list of files. */
  function JobBits(disk: Disk, jobs: seq<Q.Job>, i: nat): nat
    requires i < 8
  {
    if jobs == [] then 0 else FileBits(disk, jobs[0], i) + JobBits(disk, jobs[1..], i)
  }

  // ---- What the bins mean ----

  /** The number that eight bins stand for when bin i counts 2^i. */
  function Weigh(bin: nat -> nat): nat {
    bin(0) + 2 * bin(1) + 4 * bin(2) + 8 * bin(3) + 16 * bin(4) + 32 * bin(5) + 64 * bin(6) + 128 * bin(7)
  }

  /** The bits of a byte are its binary digits, bin 0 the lowest. */
  lemma ByteIsItsBits(b: Byte)
    ensures Weigh(i => if i < 8 then Bit(b, i) else 0) == b as int
  {
    assert Bit(b, 0) + 2 * Bit(b, 1) + 4 * Bit(b, 2) + 8 * Bit(b, 3)
         + 16 * Bit(b, 4) + 32 * Bit(b, 5) + 64 * Bit(b, 6) + 128 * Bit(b, 7) == b as int;
  }

  function SumBytes(bytes: seq<Byte>): nat {
    if bytes == [] then 0 else bytes[0] as int + SumBytes(bytes[1..])
  }

  /** The weighted bins of a file are the sum of its bytes. */
  lemma {:induction false} FileIsItsBits(bytes: seq<Byte>)
    ensures Weigh(i => if i < 8 then CountBits(bytes, i) else 0) == SumBytes(bytes)
  {
    if bytes != [] {
      hide Bit;
      FileIsItsBits(bytes[1..]);
      ByteIsItsBits(bytes[0]);
    }
  }

  /** The sum of the bytes of all files that open. */
  function SumFiles(disk: Disk, jobs: seq<Q.Job>): nat {
    if jobs == [] then 0
    else (match disk(jobs[0]) case Missing => 0 case File(bytes) => SumBytes(bytes)) + SumFiles(disk, jobs[1..])
  }

  /** The weighted bins of a list of files are the sum of all their bytes. */
  lemma {:induction false} HistogramIsSum(disk: Disk, jobs: seq<Q.Job>)
    ensures Weigh(i => if i < 8 then JobBits(disk, jobs, i) else 0) == SumFiles(disk, jobs)
  {
    if jobs != [] {
      HistogramIsSum(disk, jobs[1..]);
      match disk(jobs[0])
      case Missing =>
      case File(bytes) => FileIsItsBits(bytes);
    }
  }

  // ---- histogram.h, in place ----

  /** Move the first histogram into the second. */
  method MergeHistogram(from: array<int>, to: array<int>)
    requires from.Length == 8 && to.Length == 8 && from != to
    modifies from, to
    ensures forall i | 0 <= i < 8 :: to[i] == old(to[i]) + old(from[i]) && from[i] == 0
  {
    for i := 0 to 8
      invariant forall j | 0 <= j < i :: to[j] == old(to[j]) + old(from[j]) && from[j] == 0
      invariant forall j | i <= j < 8 :: to[j] == old(to[j]) && from[j] == old(from[j])
    {
      to[i] := to[i] + from[i];
      from[i] := 0;
    }
  }

  method UpdateHistogram(histogram: array<int>, b: Byte)
    requires histogram.Length == 8
    modifies histogram
    ensures forall i | 0 <= i < 8 :: histogram[i] == old(histogram[i]) + Bit(b, i)
  {
    for i := 0 to 8
      invariant forall j | 0 <= j < i :: histogram[j] == old(histogram[j]) + Bit(b, j)
      invariant forall j | i <= j < 8 :: histogram[j] == old(histogram[j])
    {
      if BitSet(b, i) {
        histogram[i] := histogram[i] + 1;
      }
    }
  }

  /** The sequential program on one file that opens: local counts are merged after every 100000
      bytes and once at the end. */
  method SequentialFile(bytes: seq<Byte>, global: array<int>)
    requires global.Length == 8
    modifies global
    ensures forall i | 0 <= i < 8 :: global[i] == old(global[i]) + CountBits(bytes, i)
  {
    var local := new int[8](_ => 0);
    var n := 0;
    while n < |bytes|
      invariant n <= |bytes|
      invariant local != global && fresh(local) && local.Length == 8
      invariant forall i | 0 <= i < 8 :: global[i] + local[i] + CountBits(bytes[n..], i) == old(global[i]) + CountBits(bytes, i)
    {
      assert bytes[n..][0] == bytes[n] && bytes[n..][1..] == bytes[n + 1..];
      UpdateHistogram(local, bytes[n]);
      n := n + 1;
      if n % 100000 == 0 {
        MergeHistogram(local, global);
      }
    }
    MergeHistogram(local, global);
  }

  /** The sequential program: the specification of the threaded one. */
  method Sequential(disk: Disk, files: seq<Q.Job>) returns (global: array<int>)
    ensures fresh(global) && global.Length == 8
    ensures forall i | 0 <= i < 8 :: global[i] == JobBits(disk, files, i)
  {
    global := new int[8](_ => 0);
    var k := 0;
    while k < |files|
      invariant k <= |files|
      invariant forall i | 0 <= i < 8 :: global[i] + JobBits(disk, files[k..], i) == JobBits(disk, files, i)
    {
      assert files[k..][0] == files[k] && files[k..][1..] == files[k + 1..];
      match disk(files[k]) {
        case Missing =>
        case File(bytes) => SequentialFile(bytes, global);
      }
      k := k + 1;
    }
  }

  // ---- The threaded program ----

  /** A worker: its line in fhistogram-mt.c and its local variables. Line 36 is the head of its loop,
      38 the call of pop, 58 the wait for the global lock, 59 the merge and 61 the release; the final
      merge (68 to 71) is the same with `last` set. Line 76 is the exit. In the merge, `phase` tells
      loading a global bin, storing the sum and clearing the local bin apart. */
  datatype Worker = Worker(
    line: int, rest: seq<Byte>, hist: seq<int>, n: nat, last: bool, cell: nat, phase: int, tmp: int)

  datatype Sys = Sys(s: Q.State, workers: seq<Worker>, global: seq<int>, lock: Q.Lock, todo: seq<Q.Job>)

  function Zeros(): seq<int> {
    [0, 0, 0, 0, 0, 0, 0, 0]
  }

  function Updated(hist: seq<int>, b: Byte): (h: seq<int>)
    requires |hist| == 8
    ensures |h| == 8 && forall i | 0 <= i < 8 :: h[i] == hist[i] + Bit(b, i)
  {
    seq(8, i requires 0 <= i < 8 => hist[i] + Bit(b, i))
  }

  /** A step of a worker between two calls of pop; `job` is the job it popped. */
  ghost predicate WorkStep(disk: Disk, t: nat, job: Q.Job, g: seq<int>, lock: Q.Lock, w: Worker,
                           g': seq<int>, lock': Q.Lock, w': Worker)
    requires |g| == |w.hist| == 8 && w.cell < 8
  {
    match w.line
    case 44 =>
      && g' == g && lock' == lock
      && w' == (match disk(job)
                case Missing => w.(line := 36)
                case File(bytes) => w.(line := 53, rest := bytes, hist := Zeros(), n := 0))
    case 53 =>
      && g' == g && lock' == lock
      && w' == if w.rest == [] then w.(line := 58, last := true)
               else w.(line := if (w.n + 1) % 100000 == 0 then 58 else 53, last := false,
                       hist := Updated(w.hist, w.rest[0]), rest := w.rest[1..], n := w.n + 1)
    case 58 =>
      && lock == Q.Free && lock' == Q.Held(t) && g' == g
      && w' == w.(line := 59, cell := 0, phase := 0)
    case 59 =>
      && lock' == lock
      && if w.phase == 0 then
           g' == g && w' == w.(tmp := g[w.cell], phase := 1)
         else if w.phase == 1 then
           g' == g[w.cell := w.tmp + w.hist[w.cell]] && w' == w.(phase := 2)
         else
           && g' == g
           && w' == if w.cell < 7 then w.(hist := w.hist[w.cell := 0], cell := w.cell + 1, phase := 0)
                    else w.(hist := w.hist[w.cell := 0], line := 61)
    case 61 =>
      lock' == Q.Free && g' == g && w' == w.(line := if w.last then 36 else 53)
    case _ => false
  }

  /** Thread 0: push every file, then destroy. */
  ghost predicate MainStep(x: Sys, x': Sys)
    requires 0 < |x.s.threads|
  {
    && Q.Step(x.s, 0, x'.s)
    && x'.workers == x.workers && x'.global == x.global && x'.lock == x.lock
    && var th, th' := x.s.threads[0], x'.s.threads[0];
       if !Q.Outside(th.at) then x'.todo == x.todo
       else if x.todo != [] then th'.at == 44 && th'.job == x.todo[0] && x'.todo == x.todo[1..]
       else th.at != 141 && th'.at == 120 && x'.todo == x.todo
  }

  /** A worker calls pop (36), is in pop (38), or comes back from it with a job or with -1. */
  ghost predicate PopCallStep(x: Sys, t: nat, x': Sys)
    requires t < |x.s.threads| == |x.workers|
  {
    var th, w := x.s.threads[t], x.workers[t];
    && x'.global == x.global && x'.lock == x.lock && x'.todo == x.todo
    && if w.line == 36 then
         && Q.Step(x.s, t, x'.s) && x'.s.threads[t].at == 85
         && x'.workers == x.workers[t := w.(line := 38)]
       else if w.line == 38 && !Q.Outside(th.at) then
         Q.Step(x.s, t, x'.s) && x'.workers == x.workers
       else
         && w.line == 38 && x'.s == x.s
         && x'.workers == x.workers[t := w.(line := if th.at == 112 then 44 else 76)]
  }

  ghost predicate LocalStep(disk: Disk, x: Sys, t: nat, x': Sys)
    requires t < |x.s.threads| == |x.workers|
  {
    && x'.s == x.s && x'.todo == x.todo
    && |x'.workers| == |x.workers| && x'.workers == x.workers[t := x'.workers[t]]
    && |x.global| == |x.workers[t].hist| == 8 && x.workers[t].cell < 8
    && WorkStep(disk, t, x.s.threads[t].job, x.global, x.lock, x.workers[t], x'.global, x'.lock, x'.workers[t])
  }

  ghost predicate SysStep(disk: Disk, x: Sys, t: nat, x': Sys) {
    && t < |x.s.threads| == |x.workers|
    && if t == 0 then MainStep(x, x') else PopCallStep(x, t, x') || LocalStep(disk, x, t, x')
  }

  ghost predicate SysInit(files: seq<Q.Job>, x: Sys) {
    && Q.Init(x.s) && 2 <= |x.s.threads| == |x.workers|
    && x.global == Zeros() && x.lock == Q.Free && x.todo == files
    && forall t | 0 <= t < |x.workers| ::
         x.workers[t].line == 36 && |x.workers[t].hist| == 8 && x.workers[t].cell < 8
  }

  ghost predicate SysNext(disk: Disk, x: Sys, x': Sys) {
    exists t: nat :: SysStep(disk, x, t, x')
  }

  ghost predicate SysStepAt(disk: Disk, run: seq<Sys>, i: nat)
    requires i + 1 < |run|
  {
    SysNext(disk, run[i], run[i + 1])
  }

  ghost predicate SysRun(disk: Disk, files: seq<Q.Job>, run: seq<Sys>) {
    && run != [] && SysInit(files, run[0])
    && forall i | 0 <= i < |run| - 1 :: SysStepAt(disk, run, i)
  }

  // ---- The ledger ----

  /** Bits of bin i that thread 0 has taken from its list and not yet stored in the queue. */
  function MainOwes(disk: Disk, th: Q.Thread, i: nat): nat
    requires i < 8
  {
    if 44 <= th.at <= 62 then FileBits(disk, th.job, i) else 0
  }

  /** Bits of bin i that a worker has taken from the queue and not yet added to the global bin. */
  function WorkerOwes(disk: Disk, th: Q.Thread, w: Worker, i: nat): int
    requires i < 8 && |w.hist| == 8
  {
    if w.line == 36 || w.line == 76 then 0
    else if w.line == 38 then (if 104 <= th.at <= 112 then FileBits(disk, th.job, i) else 0)
    else if w.line == 44 then FileBits(disk, th.job, i)
    else CountBits(w.rest, i) + (if w.line == 59 && w.phase == 2 && w.cell == i then 0 else w.hist[i])
  }

  predicate HistsOk(x: Sys) {
    && |x.s.threads| == |x.workers| && |x.global| == 8
    && forall t | 0 <= t < |x.workers| :: |x.workers[t].hist| == 8 && x.workers[t].cell < 8
  }

  function Owes(disk: Disk, x: Sys, t: nat, i: nat): int
    requires HistsOk(x) && t < |x.workers| && i < 8
  {
    if t == 0 then MainOwes(disk, x.s.threads[0], i) else WorkerOwes(disk, x.s.threads[t], x.workers[t], i)
  }

  function SumOwes(disk: Disk, x: Sys, n: nat, i: nat): int
    requires HistsOk(x) && n <= |x.workers| && i < 8
  {
    if n == 0 then 0 else SumOwes(disk, x, n - 1, i) + Owes(disk, x, n - 1, i)
  }

  /** Jobs in the queue. */
  function Waiting(r: Q.Ring): seq<Q.Job>
    requires |r.popped| <= |r.pushed|
  {
    r.pushed[|r.popped|..]
  }

  /** Everything that bin i has got or will get. */
  function Ledger(disk: Disk, x: Sys, i: nat): int
    requires HistsOk(x) && |x.s.q.ring.popped| <= |x.s.q.ring.pushed| && i < 8
  {
    x.global[i] + SumOwes(disk, x, |x.workers|, i) + JobBits(disk, Waiting(x.s.q.ring), i) + JobBits(disk, x.todo, i)
  }

  lemma {:induction false} SumOwesChange(disk: Disk, x: Sys, x': Sys, t: nat, n: nat, i: nat)
    requires HistsOk(x) && HistsOk(x') && |x'.workers| == |x.workers| && i < 8
    requires t < |x.workers| && n <= |x.workers|
    requires forall u | 0 <= u < |x.workers| && u != t ::
               x'.s.threads[u] == x.s.threads[u] && x'.workers[u] == x.workers[u]
    ensures SumOwes(disk, x', n, i) - SumOwes(disk, x, n, i)
         == if t < n then Owes(disk, x', t, i) - Owes(disk, x, t, i) else 0
  {
    if n > 0 {
      SumOwesChange(disk, x, x', t, n - 1, i);
    }
  }

  lemma {:induction false} JobBitsAppend(disk: Disk, jobs: seq<Q.Job>, j: Q.Job, i: nat)
    requires i < 8
    ensures JobBits(disk, jobs + [j], i) == JobBits(disk, jobs, i) + FileBits(disk, j, i)
  {
    if jobs == [] {
      assert [] + [j] == [j] && [j][1..] == [];
    } else {
      assert (jobs + [j])[0] == jobs[0] && (jobs + [j])[1..] == jobs[1..] + [j];
      JobBitsAppend(disk, jobs[1..], j, i);
    }
  }

  // ---- The invariant ----

  predicate HoldsGlobal(line: int) {
    line == 59 || line == 61
  }

  ghost predicate WorkerOk(q: Q.Queue, g: seq<int>, lock: Q.Lock, t: nat, th: Q.Thread, w: Worker) {
    && |g| == |w.hist| == 8 && w.cell < 8
    && (HoldsGlobal(w.line) <==> lock == Q.Held(t))
    && PopOk(q, th, w)
    && (w.line == 59 ==> 0 <= w.phase <= 2 && (w.phase == 1 ==> w.tmp == g[w.cell])
                         && forall c | 0 <= c < w.cell :: w.hist[c] == 0)
    && (w.line == 61 ==> w.hist == Zeros())
    && (58 <= w.line <= 61 && w.last ==> w.rest == [])
  }

  /** Where the worker is in the queue; a pop that comes back with -1 has seen the queue drained. */
  ghost predicate PopOk(q: Q.Queue, th: Q.Thread, w: Worker) {
    && w.line in {36, 38, 44, 53, 58, 59, 61, 76}
    && (w.line == 36 ==> th.at == 0 || th.at == 112)
    && (w.line == 38 ==> 85 <= th.at <= 112)
    && (44 <= w.line <= 61 ==> th.at == 112)
    && (w.line == 76 ==> th.at == 95)
    && (90 <= th.at <= 91 && th.blocked ==> q.ring.count == 0)
    && (th.at == 95 || (91 <= th.at <= 93 && th.dead && th.blocked) ==> Q.Drained(q))
  }

  ghost predicate MainOk(q: Q.Queue, th: Q.Thread, todo: seq<Q.Job>) {
    && (th.at == 0 || Q.OwnerLine(th.at))
    && (th.at <= 71 ==> !q.destroyed && (51 <= th.at <= 53 ==> !th.dead) && th.at != 55)
    && (120 <= th.at ==> todo == [])
    && (q.destroyed ==> 120 <= th.at) && (124 <= th.at ==> q.destroyed)
  }

  // ---- Local steps of a worker ----

  lemma WorkStepKeeps(disk: Disk, t: nat, q: Q.Queue, th: Q.Thread, g: seq<int>, lock: Q.Lock, w: Worker,
                      g': seq<int>, lock': Q.Lock, w': Worker)
    requires WorkerOk(q, g, lock, t, th, w) && WorkStep(disk, t, th.job, g, lock, w, g', lock', w')
    ensures WorkerOk(q, g', lock', t, th, w')
    ensures Q.LockRule(t, lock, lock') && (lock != Q.Held(t) ==> g' == g)
  {
  }

  /** A local step moves bits between the worker and the global histogram, and loses none. */
  lemma WorkStepConserves(disk: Disk, t: nat, q: Q.Queue, th: Q.Thread, g: seq<int>, lock: Q.Lock, w: Worker,
                          g': seq<int>, lock': Q.Lock, w': Worker, i: nat)
    requires WorkerOk(q, g, lock, t, th, w) && WorkStep(disk, t, th.job, g, lock, w, g', lock', w') && i < 8
    requires |g'| == |w'.hist| == 8
    ensures g'[i] + WorkerOwes(disk, th, w', i) == g[i] + WorkerOwes(disk, th, w, i)
  {
  }

  // ---- Queue steps ----

  lemma PopCallKeepsOwn(t: nat, q: Q.Queue, th: Q.Thread, q': Q.Queue, th': Q.Thread, w: Worker)
    requires Q.QueueOk(q) && Q.ThreadOk(q, t, th) && PopOk(q, th, w) && w.line == 38
    requires Q.PopWaitStep(t, q, th, q', th') || Q.PopLoadStep(t, q, th, q', th')
    requires Q.Drained(q) ==> Q.Drained(q')
    ensures PopOk(q', th', w)
  {
  }

  lemma PopOkSurvives(t: nat, q: Q.Queue, q': Q.Queue, u: nat, other: Q.Thread, w: Worker)
    requires u != t && Q.ThreadOk(q, u, other) && PopOk(q, other, w) && Q.Grants(t, q, q')
    requires Q.Drained(q) ==> Q.Drained(q')
    ensures PopOk(q', other, w)
  {
  }

  lemma MainKeepsOwn(q: Q.Queue, th: Q.Thread, q': Q.Queue, th': Q.Thread, todo: seq<Q.Job>, todo': seq<Q.Job>)
    requires Q.QueueOk(q) && Q.ThreadOk(q, 0, th) && Q.ThreadStep(0, q, th, q', th') && MainOk(q, th, todo)
    requires if !Q.Outside(th.at) then todo' == todo
             else if todo != [] then th'.at == 44 && th'.job == todo[0] && todo' == todo[1..]
             else th.at != 141 && th'.at == 120 && todo' == todo
    ensures MainOk(q', th', todo')
  {
    hide Q.PushSide, Q.PopSide, Q.RingOk, Q.QueueOk;
  }

  /** What a queue step of a thread adds to the jobs in the queue. */
  lemma WaitingChange(disk: Disk, q: Q.Queue, th: Q.Thread, q': Q.Queue, th': Q.Thread, i: nat)
    requires Q.QueueOk(q) && Q.Traced(q, th, q', th') && i < 8
    ensures |q'.ring.popped| <= |q'.ring.pushed|
    ensures JobBits(disk, Waiting(q'.ring), i) - JobBits(disk, Waiting(q.ring), i)
         == if th.at == 62 then FileBits(disk, th.job, i)
            else if th.at == 103 then 0 - FileBits(disk, th'.job, i) else 0
  {
    var r, r' := q.ring, q'.ring;
    if th.at == 62 {
      assert Waiting(r') == Waiting(r) + [th.job];
      JobBitsAppend(disk, Waiting(r), th.job, i);
    } else if th.at == 103 {
      assert Waiting(r)[0] == th'.job && Waiting(r)[1..] == Waiting(r');
    }
  }

  lemma MainConserves(disk: Disk, x: Sys, x': Sys, i: nat)
    requires Q.OwnerInv(0, x.s) && HistsOk(x) && MainOk(x.s.q, x.s.threads[0], x.todo) && i < 8
    requires MainStep(x, x')
    ensures HistsOk(x') && |x'.s.q.ring.popped| <= |x'.s.q.ring.pushed|
    ensures Ledger(disk, x', i) == Ledger(disk, x, i)
  {
    var q, th, q', th' := x.s.q, x.s.threads[0], x'.s.q, x'.s.threads[0];
    assert Q.ThreadOk(q, 0, th);
    Q.StepTraced(0, q, th, q', th');
    WaitingChange(disk, q, th, q', th', i);
    SumOwesChange(disk, x, x', 0, |x.workers|, i);
    MainOwesChange(disk, q, th, q', th', x.todo, x'.todo, i);
  }

  lemma MainOwesChange(disk: Disk, q: Q.Queue, th: Q.Thread, q': Q.Queue, th': Q.Thread,
                       todo: seq<Q.Job>, todo': seq<Q.Job>, i: nat)
    requires Q.ThreadStep(0, q, th, q', th') && MainOk(q, th, todo) && Q.Traced(q, th, q', th') && i < 8
    requires if !Q.Outside(th.at) then todo' == todo
             else if todo != [] then th'.at == 44 && th'.job == todo[0] && todo' == todo[1..]
             else th.at != 141 && th'.at == 120 && todo' == todo
    ensures MainOwes(disk, th', i) + JobBits(disk, todo', i) - MainOwes(disk, th, i) - JobBits(disk, todo, i)
         == if th.at == 62 then 0 - FileBits(disk, th.job, i) else 0
    ensures th.at != 103
  {
  }

  /** Every clause of the invariant but the ledger. */
  ghost predicate ControlInv(x: Sys) {
    && Q.OwnerInv(0, x.s) && 2 <= |x.workers| && HistsOk(x)
    && MainOk(x.s.q, x.s.threads[0], x.todo)
    && (forall t | 1 <= t < |x.workers| :: WorkerOk(x.s.q, x.global, x.lock, t, x.s.threads[t], x.workers[t]))
    && (x.lock.Held? ==> 1 <= x.lock.tid < |x.workers|)
  }

  lemma MainKeepsControl(x: Sys, x': Sys)
    requires ControlInv(x) && MainStep(x, x')
    ensures ControlInv(x')
  {
    assert Q.OwnerStep(0, x.s, 0, x'.s);
    Q.OwnerStepKeepsInv(0, x.s, 0, x'.s);
    Q.StepKeepsInv(x.s, 0, x'.s);
    assert Q.ThreadOk(x.s.q, 0, x.s.threads[0]);
    MainKeepsOwn(x.s.q, x.s.threads[0], x'.s.q, x'.s.threads[0], x.todo, x'.todo);
    forall u | 1 <= u < |x.workers|
      ensures WorkerOk(x'.s.q, x'.global, x'.lock, u, x'.s.threads[u], x'.workers[u])
    {
      assert Q.ThreadOk(x.s.q, u, x.s.threads[u]);
      assert WorkerOk(x.s.q, x.global, x.lock, u, x.s.threads[u], x.workers[u]);
      PopOkSurvives(0, x.s.q, x'.s.q, u, x.s.threads[u], x.workers[u]);
    }
  }

  /** The line at which a worker calls pop, and the lines at which it is inside. */
  lemma PopCallIsPop(x: Sys, t: nat, x': Sys)
    requires ControlInv(x) && 1 <= t < |x.workers| && PopCallStep(x, t, x') && x'.s != x.s
    ensures Q.OwnerStep(0, x.s, t, x'.s)
    ensures var q, th, q', th' := x.s.q, x.s.threads[t], x'.s.q, x'.s.threads[t];
      if x.workers[t].line == 36 then q' == q && th' == th.(at := 85)
      else x.workers[t].line == 38 && (Q.PopWaitStep(t, q, th, q', th') || Q.PopLoadStep(t, q, th, q', th'))
  {
    assert WorkerOk(x.s.q, x.global, x.lock, t, x.s.threads[t], x.workers[t]);
  }

  lemma PopCallKeepsControl(x: Sys, t: nat, x': Sys)
    requires ControlInv(x) && 1 <= t < |x.workers| && PopCallStep(x, t, x') && x'.s != x.s
    ensures ControlInv(x')
  {
    var q, th, q', th' := x.s.q, x.s.threads[t], x'.s.q, x'.s.threads[t];
    PopCallIsPop(x, t, x');
    Q.OwnerStepKeepsInv(0, x.s, t, x'.s);
    Q.StepKeepsInv(x.s, t, x'.s);
    WorkerLeavesFlags(t, x.s, x'.s);
    assert Q.ThreadOk(q, t, th) && WorkerOk(q, x.global, x.lock, t, th, x.workers[t]);
    if x.workers[t].line == 38 {
      PopCallKeepsOwn(t, q, th, q', th', x.workers[t]);
    }
    OthersSurvivePopCall(x, t, x');
  }

  lemma OthersSurvivePopCall(x: Sys, t: nat, x': Sys)
    requires ControlInv(x) && 1 <= t < |x.workers| && PopCallStep(x, t, x')
    requires Q.Step(x.s, t, x'.s) && Q.Grants(t, x.s.q, x'.s.q)
    requires Q.Drained(x.s.q) ==> Q.Drained(x'.s.q)
    ensures forall u | 1 <= u < |x.workers| && u != t ::
      WorkerOk(x'.s.q, x'.global, x'.lock, u, x'.s.threads[u], x'.workers[u])
  {
    forall u | 1 <= u < |x.workers| && u != t
      ensures WorkerOk(x'.s.q, x'.global, x'.lock, u, x'.s.threads[u], x'.workers[u])
    {
      assert Q.ThreadOk(x.s.q, u, x.s.threads[u]);
      assert WorkerOk(x.s.q, x.global, x.lock, u, x.s.threads[u], x.workers[u]);
      PopOkSurvives(t, x.s.q, x'.s.q, u, x.s.threads[u], x.workers[u]);
    }
  }

  lemma PopReturnKeepsControl(x: Sys, t: nat, x': Sys)
    requires ControlInv(x) && 1 <= t < |x.workers| && PopCallStep(x, t, x') && x'.s == x.s
    ensures ControlInv(x')
  {
    assert WorkerOk(x.s.q, x.global, x.lock, t, x.s.threads[t], x.workers[t]);
  }

  lemma WorkerLeavesFlags(t: nat, s: Q.State, s': Q.State)
    requires Q.OwnerInv(0, s) && Q.OwnerStep(0, s, t, s') && t != 0
    ensures s'.q.destroyed == s.q.destroyed && s'.threads[0] == s.threads[0]
  {
    Q.StepKeepsInv(s, t, s');
    assert Q.ThreadOk(s.q, t, s.threads[t]);
    Q.WorkerPops(t, s.q, s.threads[t], s'.q, s'.threads[t]);
    Q.WorkerStep(t, s.q, s.threads[t], s'.q, s'.threads[t]);
  }

  lemma LocalKeepsControl(disk: Disk, x: Sys, t: nat, x': Sys)
    requires ControlInv(x) && 1 <= t < |x.workers| && LocalStep(disk, x, t, x')
    ensures ControlInv(x')
  {
    assert WorkerOk(x.s.q, x.global, x.lock, t, x.s.threads[t], x.workers[t]);
    WorkStepKeeps(disk, t, x.s.q, x.s.threads[t], x.global, x.lock, x.workers[t], x'.global, x'.lock, x'.workers[t]);
    forall u | 1 <= u < |x.workers| && u != t
      ensures WorkerOk(x'.s.q, x'.global, x'.lock, u, x'.s.threads[u], x'.workers[u])
    {
      assert WorkerOk(x.s.q, x.global, x.lock, u, x.s.threads[u], x.workers[u]);
    }
  }

  lemma PopCallConserves(disk: Disk, x: Sys, t: nat, x': Sys, i: nat)
    requires ControlInv(x) && 1 <= t < |x.workers| && PopCallStep(x, t, x') && x'.s != x.s && i < 8
    ensures HistsOk(x') && |x'.s.q.ring.popped| <= |x'.s.q.ring.pushed|
    ensures Ledger(disk, x', i) == Ledger(disk, x, i)
  {
    var q, th, q', th' := x.s.q, x.s.threads[t], x'.s.q, x'.s.threads[t];
    PopCallIsPop(x, t, x');
    assert Q.ThreadOk(q, t, th) && WorkerOk(q, x.global, x.lock, t, th, x.workers[t]);
    SumOwesChange(disk, x, x', t, |x.workers|, i);
    Q.StepTraced(t, q, th, q', th');
    WaitingChange(disk, q, th, q', th', i);
    if x.workers[t].line == 38 {
      PopOwesChange(disk, t, q, th, q', th', x.workers[t], i);
    }
  }

  lemma PopReturnConserves(disk: Disk, x: Sys, t: nat, x': Sys, i: nat)
    requires ControlInv(x) && 1 <= t < |x.workers| && PopCallStep(x, t, x') && x'.s == x.s && i < 8
    ensures HistsOk(x') && Ledger(disk, x', i) == Ledger(disk, x, i)
  {
    assert WorkerOk(x.s.q, x.global, x.lock, t, x.s.threads[t], x.workers[t]);
    SumOwesChange(disk, x, x', t, |x.workers|, i);
  }

  lemma PopOwesChange(disk: Disk, t: nat, q: Q.Queue, th: Q.Thread, q': Q.Queue, th': Q.Thread, w: Worker, i: nat)
    requires Q.PopWaitStep(t, q, th, q', th') || Q.PopLoadStep(t, q, th, q', th')
    requires Q.Traced(q, th, q', th') && |w.hist| == 8 && w.line == 38 && i < 8
    ensures WorkerOwes(disk, th', w, i) - WorkerOwes(disk, th, w, i)
         == if th.at == 103 then FileBits(disk, th'.job, i) else 0
    ensures th.at != 62
  {
  }

  lemma LocalConserves(disk: Disk, x: Sys, t: nat, x': Sys, i: nat)
    requires ControlInv(x) && 1 <= t < |x.workers| && LocalStep(disk, x, t, x') && i < 8
    ensures HistsOk(x') && Ledger(disk, x', i) == Ledger(disk, x, i)
  {
    var th, w, w' := x.s.threads[t], x.workers[t], x'.workers[t];
    assert WorkerOk(x.s.q, x.global, x.lock, t, th, w);
    WorkStepKeeps(disk, t, x.s.q, th, x.global, x.lock, w, x'.global, x'.lock, w');
    WorkStepConserves(disk, t, x.s.q, th, x.global, x.lock, w, x'.global, x'.lock, w', i);
    SumOwesChange(disk, x, x', t, |x.workers|, i);
  }

  /** Every step of every thread keeps the control invariant and every bin of the ledger. */
  lemma SysStepKeeps(disk: Disk, x: Sys, t: nat, x': Sys, i: nat)
    requires ControlInv(x) && SysStep(disk, x, t, x') && i < 8
    ensures ControlInv(x') && Ledger(disk, x', i) == Ledger(disk, x, i)
  {
    if t == 0 {
      MainKeepsControl(x, x');
      MainConserves(disk, x, x', i);
    } else if PopCallStep(x, t, x') && x'.s != x.s {
      PopCallKeepsControl(x, t, x');
      PopCallConserves(disk, x, t, x', i);
    } else if PopCallStep(x, t, x') {
      PopReturnKeepsControl(x, t, x');
      PopReturnConserves(disk, x, t, x', i);
    } else {
      LocalKeepsControl(disk, x, t, x');
      LocalConserves(disk, x, t, x', i);
    }
  }

  lemma SysInitOk(disk: Disk, files: seq<Q.Job>, x: Sys, i: nat)
    requires SysInit(files, x) && i < 8
    ensures ControlInv(x) && Ledger(disk, x, i) == JobBits(disk, files, i)
  {
    Q.InitInv(x.s);
    assert ControlInv(x);
    NothingOwed(disk, x, |x.workers|, i);
  }

  lemma {:induction false} NothingOwed(disk: Disk, x: Sys, n: nat, i: nat)
    requires HistsOk(x) && n <= |x.workers| && i < 8
    requires forall t | 0 <= t < |x.workers| :: Owes(disk, x, t, i) == 0
    ensures SumOwes(disk, x, n, i) == 0
  {
    if n > 0 {
      NothingOwed(disk, x, n - 1, i);
    }
  }

  lemma {:induction false} SysRunKeeps(disk: Disk, files: seq<Q.Job>, run: seq<Sys>, k: nat, i: nat)
    requires SysRun(disk, files, run) && k < |run| && i < 8
    ensures ControlInv(run[k]) && Ledger(disk, run[k], i) == JobBits(disk, files, i)
  {
    hide SysInit, SysStep, JobBits, Ledger, ControlInv;
    if k == 0 {
      SysInitOk(disk, files, run[0], i);
    } else {
      SysRunKeeps(disk, files, run, k - 1, i);
      assert SysStepAt(disk, run, k - 1);
      var t: nat :| SysStep(disk, run[k - 1], t, run[k]);
      SysStepKeeps(disk, run[k - 1], t, run[k], i);
    }
  }

  /** Once every worker has exited the queue is drained and nobody owes anything. */
  lemma AllExitedMeansSettled(disk: Disk, x: Sys, i: nat)
    requires ControlInv(x) && i < 8
    requires forall t | 1 <= t < |x.workers| :: x.workers[t].line == 76
    ensures x.todo == [] && Waiting(x.s.q.ring) == [] && SumOwes(disk, x, |x.workers|, i) == 0
  {
    assert WorkerOk(x.s.q, x.global, x.lock, 1, x.s.threads[1], x.workers[1]);
    Q.DrainedIsDelivered(0, x.s);
    NothingOwed(disk, x, |x.workers|, i);
  }

  /** In every run in which all workers have exited, the global histogram is the one the sequential
      program computes, for any number of workers, any interleaving and any split into merges. */
  lemma ThreadedEqualsSequential(disk: Disk, files: seq<Q.Job>, run: seq<Sys>, k: nat, i: nat)
    requires SysRun(disk, files, run) && k < |run| && i < 8
    requires forall t | 1 <= t < |run[k].workers| :: run[k].workers[t].line == 76
    ensures |run[k].global| == 8 && run[k].global[i] == JobBits(disk, files, i)
  {
    SysRunKeeps(disk, files, run, k, i);
    AllExitedMeansSettled(disk, run[k], i);
  }
}

/** Teardown in the histogram program, whose main thread destroys the queue before it joins the workers. */
module HistogramTeardown {
  import Q = JobQueue
  import T = Teardown
  import opened Histogram

  /** Within n steps of the program some thread operates a lock of the queue. */
  ghost predicate LockWithin(disk: Disk, x: Sys, n: nat)
    decreases n
  {
    || (exists t :: 0 <= t < |x.s.threads| && T.OperatesLock(x.s.threads[t]))
    || (n > 0 && exists x' :: SysNext(disk, x, x') && LockWithin(disk, x', n - 1))
  }

  /** The worker has been told that the queue is closed. */
  predicate Leaving(th: Q.Thread, w: Worker) {
    w.line == 76 || (w.line == 38 && th.at == 95)
  }

  ghost predicate Good(x: Sys) {
    ControlInv(x) && T.LinesOk(x.s)
  }

  lemma StepKeepsGood(disk: Disk, x: Sys, t: nat, x': Sys)
    requires Good(x) && SysStep(disk, x, t, x')
    ensures Good(x')
  {
    hide ControlInv, T.LinesOk;
    SysStepKeeps(disk, x, t, x', 0);
    if x'.s != x.s {
      T.StepKeepsLines(x.s, t, x'.s);
    }
  }

  lemma {:induction false} RunKeepsGood(disk: Disk, files: seq<Q.Job>, run: seq<Sys>, k: nat)
    requires SysRun(disk, files, run) && k < |run|
    ensures Good(run[k])
  {
    hide SysInit, SysStep, Good;
    if k == 0 {
      InitGood(disk, files, run[0]);
    } else {
      RunKeepsGood(disk, files, run, k - 1);
      assert SysStepAt(disk, run, k - 1);
      var t: nat :| SysStep(disk, run[k - 1], t, run[k]);
      StepKeepsGood(disk, run[k - 1], t, run[k]);
    }
  }

  lemma InitGood(disk: Disk, files: seq<Q.Job>, x: Sys)
    requires SysInit(files, x)
    ensures Good(x)
  {
    hide ControlInv;
    SysInitOk(disk, files, x, 0);
  }

  // ---- When all workers are leaving ----

  ghost predicate AllLeaving(x: Sys) {
    && Good(x) && x.s.threads[0].at == 141
    && forall t | 1 <= t < |x.workers| :: Leaving(x.s.threads[t], x.workers[t])
  }

  lemma LeavingStays(disk: Disk, x: Sys, t: nat, x': Sys)
    requires AllLeaving(x) && SysStep(disk, x, t, x')
    ensures AllLeaving(x')
  {
    StepKeepsGood(disk, x, t, x');
    if t > 0 {
      assert WorkerOk(x.s.q, x.global, x.lock, t, x.s.threads[t], x.workers[t]);
      assert Leaving(x.s.threads[t], x.workers[t]);
    }
  }

  lemma LeavingIsQuiet(x: Sys)
    requires AllLeaving(x)
    ensures forall t | 0 <= t < |x.s.threads| :: !T.OperatesLock(x.s.threads[t])
  {
    forall t | 1 <= t < |x.s.threads| ensures !T.OperatesLock(x.s.threads[t]) {
      assert WorkerOk(x.s.q, x.global, x.lock, t, x.s.threads[t], x.workers[t]);
      assert Leaving(x.s.threads[t], x.workers[t]);
    }
  }

  lemma {:induction false} NoLockAfter(disk: Disk, x: Sys, n: nat)
    requires AllLeaving(x)
    ensures !LockWithin(disk, x, n)
    decreases n
  {
    hide AllLeaving, SysStep, T.OperatesLock;
    LeavingIsQuiet(x);
    if n > 0 {
      forall x' | SysNext(disk, x, x') ensures !LockWithin(disk, x', n - 1) {
        var t: nat :| SysStep(disk, x, t, x');
        LeavingStays(disk, x, t, x');
        NoLockAfter(disk, x', n - 1);
      }
    }
  }

  // ---- When some worker is not ----

  lemma StepBack(disk: Disk, x: Sys, t: nat, x': Sys, n: nat)
    requires SysStep(disk, x, t, x') && LockWithin(disk, x', n)
    ensures LockWithin(disk, x, n + 1)
  {
    assert SysNext(disk, x, x');
  }

  lemma LockNow(disk: Disk, x: Sys, t: nat)
    requires t < |x.s.threads| && T.OperatesLock(x.s.threads[t])
    ensures LockWithin(disk, x, 0)
  {
  }

  /** At the head of its loop the worker calls pop. */
  lemma HeadCalls(disk: Disk, x: Sys, t: nat) returns (n: nat)
    requires Good(x) && 1 <= t < |x.workers| && x.workers[t].line == 36
    ensures LockWithin(disk, x, n)
  {
    hide LockWithin;
    assert WorkerOk(x.s.q, x.global, x.lock, t, x.s.threads[t], x.workers[t]);
    var s' := Q.Advance(x.s, t, x.s.q, x.s.threads[t].(at := 85));
    assert Q.Step(x.s, t, s');
    var x' := x.(s := s', workers := x.workers[t := x.workers[t].(line := 38)]);
    assert PopCallStep(x, t, x');
    LockNow(disk, x', t);
    StepBack(disk, x, t, x', 0);
    n := 1;
  }

  /** Inside pop it comes to a lock. */
  lemma {:induction false} PopOperates(disk: Disk, x: Sys, t: nat) returns (n: nat)
    requires Good(x) && 1 <= t < |x.workers| && x.workers[t].line == 38 && T.CallLine(x.s.threads[t].at)
    ensures LockWithin(disk, x, n)
    decreases T.StepsToLock(x.s.threads[t].at)
  {
    hide LockWithin, Good, Q.Step, Q.Inv, T.OperatesLock, T.Onward, T.CallLine, T.StepsToLock;
    ThreadsMatch(x);
    if T.OperatesLock(x.s.threads[t]) {
      LockNow(disk, x, t);
      n := 0;
    } else {
      var x' := x.(s := T.Onward(x.s, t));
      OnwardInPop(x.s, t);
      StepKeepsGood(disk, x, t, x');
      n := PopOperates(disk, x', t);
      StepBack(disk, x, t, x', n);
      n := n + 1;
    }
  }

  lemma OnwardInPop(s: Q.State, t: nat)
    requires Q.Inv(s) && t < |s.threads| && T.CallLine(s.threads[t].at) && !T.OperatesLock(s.threads[t])
    ensures var s' := T.Onward(s, t);
      && Q.Step(s, t, s') && t < |s'.threads| && T.CallLine(s'.threads[t].at) && !Q.Outside(s.threads[t].at)
      && T.StepsToLock(s'.threads[t].at) < T.StepsToLock(s.threads[t].at)
  {
    hide Q.Inv, Q.Step;
    T.OnwardStep(s, t);
  }

  lemma ThreadsMatch(x: Sys)
    requires Good(x)
    ensures Q.Inv(x.s) && |x.s.threads| == |x.workers|
  {
  }

  /** What a worker does next between two pops, when it need not wait for the global lock. */
  function WorkNext(disk: Disk, t: nat, job: Q.Job, g: seq<int>, lock: Q.Lock, w: Worker): (seq<int>, Q.Lock, Worker)
    requires |g| == |w.hist| == 8 && w.cell < 8
  {
    if w.line == 44 then
      (g, lock, match disk(job)
                case Missing => w.(line := 36)
                case File(bytes) => w.(line := 53, rest := bytes, hist := Zeros(), n := 0))
    else if w.line == 53 then
      (g, lock, if w.rest == [] then w.(line := 58, last := true)
                else w.(line := if (w.n + 1) % 100000 == 0 then 58 else 53, last := false,
                        hist := Updated(w.hist, w.rest[0]), rest := w.rest[1..], n := w.n + 1))
    else if w.line == 58 then
      (g, Q.Held(t), w.(line := 59, cell := 0, phase := 0))
    else if w.line == 59 then
      if w.phase == 0 then (g, lock, w.(tmp := g[w.cell], phase := 1))
      else if w.phase == 1 then (g[w.cell := w.tmp + w.hist[w.cell]], lock, w.(phase := 2))
      else if w.cell < 7 then (g, lock, w.(hist := w.hist[w.cell := 0], cell := w.cell + 1, phase := 0))
      else (g, lock, w.(hist := w.hist[w.cell := 0], line := 61))
    else
      (g, Q.Free, w.(line := if w.last then 36 else 53))
  }

  /** Passes over the rest of the file, the last merge counted as one more. */
  function Passes(w: Worker): nat {
    2 * |w.rest| + if 58 <= w.line <= 61 && w.last then 0 else 1
  }

  function Stage(w: Worker): nat {
    if w.line == 58 then 3 else if w.line == 59 then 2 else if w.line == 61 then 1 else 0
  }

  /** What is left of a merge. */
  function Merging(w: Worker): int {
    if w.line == 59 then 3 * (8 - w.cell) + 3 - w.phase else 0
  }

  lemma WorkNextStep(disk: Disk, t: nat, q: Q.Queue, th: Q.Thread, g: seq<int>, lock: Q.Lock, w: Worker)
    requires WorkerOk(q, g, lock, t, th, w) && w.line in {44, 53, 58, 59, 61} && (lock == Q.Free || lock == Q.Held(t))
    ensures var (g', lock', w') := WorkNext(disk, t, th.job, g, lock, w);
      && WorkStep(disk, t, th.job, g, lock, w, g', lock', w')
      && (lock' == Q.Free || lock' == Q.Held(t)) && w'.line in {36, 53, 58, 59, 61}
  {
  }

  lemma WorkNextLess(disk: Disk, t: nat, q: Q.Queue, th: Q.Thread, g: seq<int>, lock: Q.Lock, w: Worker)
    requires WorkerOk(q, g, lock, t, th, w) && w.line in {53, 58, 59, 61}
    ensures var w' := WorkNext(disk, t, th.job, g, lock, w).2;
      || Passes(w') < Passes(w)
      || (Passes(w') == Passes(w) && Stage(w') < Stage(w))
      || (Passes(w') == Passes(w) && Stage(w') == Stage(w) && 0 <= Merging(w') < Merging(w))
      || w'.line == 36
    ensures 0 <= Merging(w)
  {
  }

  function LocalNext(disk: Disk, x: Sys, u: nat): Sys
    requires HistsOk(x) && u < |x.workers|
  {
    var (g, lock, w) := WorkNext(disk, u, x.s.threads[u].job, x.global, x.lock, x.workers[u]);
    Sys(x.s, x.workers[u := w], g, lock, x.todo)
  }

  lemma LocalNextStep(disk: Disk, x: Sys, u: nat)
    requires Good(x) && 1 <= u < |x.workers| && x.workers[u].line in {44, 53, 58, 59, 61}
    requires x.lock == Q.Free || x.lock == Q.Held(u)
    ensures HistsOk(x) && SysStep(disk, x, u, LocalNext(disk, x, u)) && Good(LocalNext(disk, x, u))
    ensures var x' := LocalNext(disk, x, u);
      && |x'.workers| == |x.workers| && x'.workers[u].line in {36, 53, 58, 59, 61}
      && (x'.lock == Q.Free || x'.lock == Q.Held(u))
      && x'.workers[u] == WorkNext(disk, u, x.s.threads[u].job, x.global, x.lock, x.workers[u]).2
  {
    hide WorkStep, WorkNext, T.LinesOk;
    assert WorkerOk(x.s.q, x.global, x.lock, u, x.s.threads[u], x.workers[u]);
    WorkNextStep(disk, u, x.s.q, x.s.threads[u], x.global, x.lock, x.workers[u]);
    StepKeepsGood(disk, x, u, LocalNext(disk, x, u));
  }

  /** Between two pops, with the global lock free or its own, the worker comes back to its loop head. */
  lemma {:induction false} WorkReturns(disk: Disk, x: Sys, u: nat) returns (n: nat)
    requires Good(x) && 1 <= u < |x.workers| && x.workers[u].line in {36, 53, 58, 59, 61}
    requires x.lock == Q.Free || x.lock == Q.Held(u)
    ensures LockWithin(disk, x, n)
    decreases x.workers[u].line != 36, Passes(x.workers[u]), Stage(x.workers[u]), Merging(x.workers[u])
  {
    hide LockWithin, Good, SysStep, WorkNext, Passes, Stage, Merging, LocalNext;
    if x.workers[u].line == 36 {
      n := HeadCalls(disk, x, u);
    } else {
      LocalNextStep(disk, x, u);
      WorkerKnown(x, u);
      var x' := LocalNext(disk, x, u);
      WorkNextLess(disk, u, x.s.q, x.s.threads[u], x.global, x.lock, x.workers[u]);
      n := WorkReturns(disk, x', u);
      StepBack(disk, x, u, x', n);
      n := n + 1;
    }
  }

  lemma WorkerKnown(x: Sys, u: nat)
    requires Good(x) && 1 <= u < |x.workers|
    ensures HistsOk(x) && WorkerOk(x.s.q, x.global, x.lock, u, x.s.threads[u], x.workers[u])
  {
  }

  /** A worker with a file goes on; if another has the global lock, that one does. */
  lemma BusyOperates(disk: Disk, x: Sys, t: nat) returns (n: nat)
    requires Good(x) && 1 <= t < |x.workers| && x.workers[t].line in {44, 53, 58, 59, 61}
    ensures LockWithin(disk, x, n)
  {
    hide LockWithin, SysStep, LocalNext;
    WorkerKnown(x, t);
    if x.lock.Held? && x.lock.tid != t {
      WorkerKnown(x, x.lock.tid);
      n := WorkReturns(disk, x, x.lock.tid);
    } else if x.workers[t].line == 44 {
      LocalNextStep(disk, x, t);
      n := WorkReturns(disk, LocalNext(disk, x, t), t);
      StepBack(disk, x, t, LocalNext(disk, x, t), n);
      n := n + 1;
    } else {
      n := WorkReturns(disk, x, t);
    }
  }

  lemma WorkerOperates(disk: Disk, x: Sys, t: nat) returns (n: nat)
    requires Good(x) && 1 <= t < |x.workers| && !Leaving(x.s.threads[t], x.workers[t])
    ensures LockWithin(disk, x, n)
  {
    hide LockWithin;
    WorkerKnown(x, t);
    var w := x.workers[t];
    if w.line == 36 {
      n := HeadCalls(disk, x, t);
    } else if w.line == 38 && !Q.Outside(x.s.threads[t].at) {
      n := PopOperates(disk, x, t);
    } else if w.line == 38 {
      var x' := x.(workers := x.workers[t := w.(line := 44)]);
      assert PopCallStep(x, t, x');
      StepKeepsGood(disk, x, t, x');
      n := BusyOperates(disk, x', t);
      StepBack(disk, x, t, x', n);
      n := n + 1;
    } else {
      n := BusyOperates(disk, x, t);
    }
  }

  /** When destroy has returned in the program, no lock of the queue is operated any more, whatever the
      threads go on to do, exactly when every worker has already been told that the queue is closed. */
  lemma TeardownSafeIff(disk: Disk, files: seq<Q.Job>, run: seq<Sys>, k: nat)
    requires SysRun(disk, files, run) && k < |run|
    requires |run[k].s.threads| == |run[k].workers| > 0 && run[k].s.threads[0].at == 141
    ensures (forall n: nat :: !LockWithin(disk, run[k], n))
       <==> forall t | 1 <= t < |run[k].workers| :: Leaving(run[k].s.threads[t], run[k].workers[t])
  {
    hide LockWithin, SysRun, Good;
    RunKeepsGood(disk, files, run, k);
    var x := run[k];
    if t :| 1 <= t < |x.workers| && !Leaving(x.s.threads[t], x.workers[t]) {
      var n := WorkerOperates(disk, x, t);
      assert LockWithin(disk, run[k], n);
    } else {
      forall n: nat ensures !LockWithin(disk, x, n) {
        NoLockAfter(disk, x, n);
      }
    }
  }

  // ---- The program does destroy locks that are still needed ----

  function Beside(s: Q.State, w: Worker): Sys {
    Sys(s, [w, w], Zeros(), Q.Free, [])
  }

  /** With no files and one worker that has not yet started, main destroys the queue and returns; the
      worker then calls pop. */
  lemma TeardownTooEarly(disk: Disk) returns (run: seq<Sys>, n: nat)
    ensures SysRun(disk, [], run)
    ensures var last := run[|run| - 1]; last.s.q.freed && LockWithin(disk, last, n)
  {
    hide LockWithin;
    var w := Worker(36, [], Zeros(), 0, false, 0, 0, 0);
    var s := Q.TwoThreads();
    var states := Q.DestroyRun(s, 0);
    run := seq(9, i requires 0 <= i < 9 => Beside(states[i], w));
    forall i | 0 <= i < |run| - 1 ensures SysStepAt(disk, run, i) {
      assert Q.Step(states[i], 0, states[i + 1]);
      assert MainStep(run[i], run[i + 1]);
      assert SysStep(disk, run[i], 0, run[i + 1]);
    }
    RunKeepsGood(disk, [], run, 8);
    n := HeadCalls(disk, run[8], 1);
  }
}

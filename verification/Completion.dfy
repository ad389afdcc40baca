/** Every run of the threaded histogram can be continued to one in which all workers have exited. This says that
    the program never paints itself into a corner; that a scheduler lets it finish is not claimed. */
module Completion {
  import Q = JobQueue
  import T = Teardown
  import opened Histogram
  import H = HistogramTeardown

  // ---- The next step of a thread inside a call ----

  function Act(t: nat, q: Q.Queue, th: Q.Thread): (Q.Queue, Q.Thread) {
    match th.at
    case 44 => (q.(pushLock := Q.Held(t)), th.(at := 48))
    case 48 => (q.(countLock := Q.Held(t)), th.(at := 49))
    case 49 => (q, th.(at := 50, blocked := q.ring.count == q.ring.capacity))
    case 50 => (q, th.(at := 51, dead := q.destroyed))
    case 51 => (q.(countLock := Q.Free), th.(at := 53))
    case 53 =>
      if th.dead then (q.(pushLock := Q.Free), th.(at := 55))
      else if !th.blocked then (q, th.(at := 62)) else (q.(pushLock := Q.Free), th.(at := 59))
    case 59 => (q.(pushLock := Q.Held(t)), th.(at := 48))
    case 62 => (if 0 <= q.ring.rear < |q.ring.buffer| then q.(ring := Q.Store(q.ring, th.job)) else q, th.(at := 63))
    case 63 => (if q.ring.capacity > 0 then q.(ring := Q.AdvanceRear(q.ring)) else q, th.(at := 65))
    case 65 => (q.(countLock := Q.Held(t)), th.(at := 66))
    case 66 => (q.(ring := Q.Bump(q.ring)), th.(at := 68))
    case 68 => (q.(countLock := Q.Free), th.(at := 70))
    case 70 => (q.(pushLock := Q.Free), th.(at := 71))
    case 85 => (q.(popLock := Q.Held(t)), th.(at := 88))
    case 88 => (q.(countLock := Q.Held(t)), th.(at := 89))
    case 89 => (q, th.(at := 90, blocked := q.ring.count == 0))
    case 90 => (q, th.(at := 91, dead := q.destroyed))
    case 91 => (q.(countLock := Q.Free), th.(at := 93))
    case 93 =>
      if th.dead && th.blocked then (q.(popLock := Q.Free), th.(at := 95))
      else if !th.blocked then (q, th.(at := 103)) else (q.(popLock := Q.Free), th.(at := 99))
    case 99 => (q.(popLock := Q.Held(t)), th.(at := 88))
    case 103 =>
      if 0 <= q.ring.front < |q.ring.buffer| then
        (q.(ring := Q.Load(q.ring)), th.(at := 104, job := q.ring.buffer[q.ring.front]))
      else (q, th)
    case 104 => (if q.ring.capacity > 0 then q.(ring := Q.AdvanceFront(q.ring)) else q, th.(at := 106))
    case 106 => (q.(countLock := Q.Held(t)), th.(at := 107))
    case 107 => (q.(ring := Q.Drop(q.ring)), th.(at := 109))
    case 109 => (q.(countLock := Q.Free), th.(at := 111))
    case 111 => (q.(popLock := Q.Free), th.(at := 112))
    case 120 => (q.(countLock := Q.Held(t)), th.(at := 121))
    case 121 => (q.(destroyed := true), th.(at := 124))
    case 124 => (q.(countLock := Q.Free), th.(at := 127))
    case 127 => (q.(countLock := Q.Held(t)), th.(at := 128))
    case 128 => (q, th.(at := 129, remaining := q.ring.count))
    case 129 => (q.(countLock := Q.Free), th.(at := 131))
    case _ => (q, th)
  }

  /** The lock that the step takes is free. */
  predicate Enabled(q: Q.Queue, at: int) {
    && (at in {44, 59} ==> q.pushLock == Q.Free)
    && (at in {85, 99} ==> q.popLock == Q.Free)
    && (at in {48, 65, 88, 106, 120, 127} ==> q.countLock == Q.Free)
  }

  lemma PushActs(t: nat, q: Q.Queue, th: Q.Thread)
    requires Q.QueueOk(q) && Q.ThreadOk(q, t, th) && T.CallLine(th.at) && th.at < 80 && Enabled(q, th.at)
    ensures var (q', th') := Act(t, q, th); Q.PushWaitStep(t, q, th, q', th') || Q.PushStoreStep(t, q, th, q', th')
  {
  }

  lemma PopActs(t: nat, q: Q.Queue, th: Q.Thread)
    requires Q.QueueOk(q) && Q.ThreadOk(q, t, th) && T.CallLine(th.at) && 80 < th.at < 115 && Enabled(q, th.at)
    ensures var (q', th') := Act(t, q, th); Q.PopWaitStep(t, q, th, q', th') || Q.PopLoadStep(t, q, th, q', th')
  {
  }

  lemma DestroyActs(t: nat, q: Q.Queue, th: Q.Thread)
    requires T.CallLine(th.at) && 115 < th.at && th.at != 131 && Enabled(q, th.at)
    ensures var (q', th') := Act(t, q, th); Q.DestroyStep(t, q, th, q', th')
  {
  }

  lemma ActIsStep(t: nat, q: Q.Queue, th: Q.Thread)
    requires Q.QueueOk(q) && Q.ThreadOk(q, t, th) && T.CallLine(th.at) && th.at != 131 && Enabled(q, th.at)
    ensures var (q', th') := Act(t, q, th); Q.ThreadStep(t, q, th, q', th')
  {
    hide Act, Q.QueueOk, Q.ThreadOk, Q.PushWaitStep, Q.PushStoreStep, Q.PopWaitStep, Q.PopLoadStep, Q.DestroyStep, Q.CallStep;
    if th.at < 80 {
      PushActs(t, q, th);
    } else if th.at < 115 {
      PopActs(t, q, th);
    } else {
      DestroyActs(t, q, th);
    }
  }

  // ---- The measure ----

  /** Files that are not yet in the queue, and a stored one that is not yet counted. */
  function Unpushed(th: Q.Thread, todo: seq<Q.Job>): nat {
    2 * |todo| + (if 44 <= th.at <= 62 then 2 else if 63 <= th.at <= 66 then 1 else 0)
  }

  /** Jobs in the queue, and jobs still counted. */
  function Unpopped(r: Q.Ring): int { |r.pushed| - |r.popped| + r.count }

  predicate Open(q: Q.Queue) { q.ring.count > 0 || q.destroyed }

  /** How far the main thread is from its next push, or from destroying the queue. */
  function MainRank(q: Q.Queue, th: Q.Thread): nat {
    var room := q.ring.count < q.ring.capacity;
    var stale := th.blocked && room;
    if th.at == 44 then 38 else if th.at == 48 then 30 else if th.at == 49 then 29
    else if th.at == 50 then (if stale then 36 else 28)
    else if th.at == 51 then (if stale then 35 else 27)
    else if th.at == 53 then (if stale then 34 else 26)
    else if th.at == 59 then (if room then 33 else 20)
    else if th.at == 62 then 25
    else if th.at == 63 then 60 else if th.at == 65 then 59 else if th.at == 66 then 58
    else if th.at == 68 then 57 else if th.at == 70 then 56
    else if th.at == 120 then 39 else if th.at == 121 then 38 else if th.at == 124 then 10 else if th.at == 127 then 9
    else if th.at == 128 then 12 else if th.at == 129 then 11 else if th.at == 131 then 8 else if th.at == 141 then 0
    else 40
  }

  /** How far a worker inside pop is from taking a job, from hearing that there will be none, or from a wait. */
  function PopRank(q: Q.Queue, th: Q.Thread): nat {
    var stale := th.blocked && (q.ring.count > 0 || (q.destroyed && !th.dead));
    if th.at == 85 then 13
    else if th.at == 99 then (if Open(q) then 12 else 5)
    else if th.at == 88 then 11 else if th.at == 89 then 10
    else if th.at == 90 then (if th.blocked && q.ring.count > 0 then 17 else 9)
    else if th.at == 91 then (if stale then 16 else 8)
    else if th.at == 93 then (if stale then 15 else 7)
    else if th.at == 103 then 6
    else if th.at == 95 then 3
    else 0
  }

  /** The work in a file. */
  function JobWork(disk: Disk, job: Q.Job): nat {
    match disk(job)
    case Missing => 160
    case File(bytes) => 100 * (2 * |bytes| + 1) + 60
  }

  function Returning(at: int): nat {
    if at == 104 then 9 else if at == 106 then 8 else if at == 107 then 7 else if at == 109 then 6 else if at == 111 then 5 else 4
  }

  function WorkerRank(disk: Disk, q: Q.Queue, th: Q.Thread, w: Worker): nat {
    if w.line == 76 then 0
    else if w.line == 36 then 14
    else if w.line == 38 then (if 104 <= th.at <= 112 then JobWork(disk, th.job) + Returning(th.at) else PopRank(q, th))
    else if w.line == 44 then JobWork(disk, th.job) + 3
    else 20 + 100 * H.Passes(w) + 30 * H.Stage(w) + (if H.Merging(w) > 0 then H.Merging(w) else 0)
  }

  /** Nothing that the ranks of other threads depend on has changed. */
  predicate Quiet(q: Q.Queue, q': Q.Queue) {
    && q'.ring.count == q.ring.count && q'.ring.capacity == q.ring.capacity && q'.destroyed == q.destroyed
    && q'.ring.pushed == q.ring.pushed && q'.ring.popped == q.ring.popped
  }

  lemma MainActs(q: Q.Queue, th: Q.Thread, todo: seq<Q.Job>)
    requires Q.QueueOk(q) && Q.ThreadOk(q, 0, th) && MainOk(q, th, todo) && T.CallLine(th.at)
    requires th.at !in {127, 131} && (th.at in {44, 59, 120} ==> !Open(q))
    ensures var (q', th') := Act(0, q, th);
      || Unpushed(th', todo) < Unpushed(th, todo)
      || (Unpushed(th', todo) == Unpushed(th, todo) && Quiet(q.(destroyed := true), q') && !q.destroyed)
      || (Unpushed(th', todo) == Unpushed(th, todo) && Quiet(q, q') && MainRank(q', th') < MainRank(q, th))
  {
    hide Q.PushSide, Q.PopSide;
  }

  lemma WorkerActs(t: nat, q: Q.Queue, th: Q.Thread, w: Worker)
    requires Q.QueueOk(q) && Q.ThreadOk(q, t, th) && PopOk(q, th, w) && w.line == 38 && T.CallLine(th.at)
    requires th.at in {85, 99} ==> Open(q)
    ensures var (q', th') := Act(t, q, th);
      || (Unpopped(q'.ring) < Unpopped(q.ring) && q'.ring.pushed == q.ring.pushed)
      || (Quiet(q, q') && if 104 <= th.at <= 112 then 104 <= th'.at <= 112 && th'.job == th.job && Returning(th'.at) < Returning(th.at)
                          else !(104 <= th'.at <= 112) && PopRank(q', th') < PopRank(q, th))
  {
    hide Q.PushSide;
    if th.at == 103 {
      Q.LoadOk(q.ring);
    }
  }

  function SumRank(disk: Disk, x: Sys, n: nat): nat
    requires |x.s.threads| == |x.workers| && n <= |x.workers|
  {
    if n <= 1 then 0 else SumRank(disk, x, n - 1) + WorkerRank(disk, x.s.q, x.s.threads[n - 1], x.workers[n - 1])
  }

  /** One worker has come closer and nothing else has changed. */
  lemma {:induction false} SumRankLess(disk: Disk, x: Sys, x': Sys, t: nat, n: nat)
    requires |x.s.threads| == |x.workers| == |x'.s.threads| == |x'.workers| && n <= |x.workers| && 1 <= t < |x.workers|
    requires Quiet(x.s.q, x'.s.q)
    requires forall u | 0 <= u < |x.workers| && u != t :: x'.s.threads[u] == x.s.threads[u] && x'.workers[u] == x.workers[u]
    requires WorkerRank(disk, x'.s.q, x'.s.threads[t], x'.workers[t]) < WorkerRank(disk, x.s.q, x.s.threads[t], x.workers[t])
    ensures if t < n then SumRank(disk, x', n) < SumRank(disk, x, n) else SumRank(disk, x', n) == SumRank(disk, x, n)
  {
    hide WorkerRank, Quiet;
    if n > 1 {
      SumRankLess(disk, x, x', t, n - 1);
      if n - 1 != t {
        RankSame(disk, x.s.q, x'.s.q, x.s.threads[n - 1], x.workers[n - 1]);
      }
    }
  }

  lemma RankSame(disk: Disk, q: Q.Queue, q': Q.Queue, th: Q.Thread, w: Worker)
    requires Quiet(q, q')
    ensures WorkerRank(disk, q', th, w) == WorkerRank(disk, q, th, w)
  {
    hide JobWork, H.Passes, H.Stage, H.Merging;
  }

  lemma {:induction false} SumRankSame(disk: Disk, x: Sys, x': Sys, n: nat)
    requires |x.s.threads| == |x.workers| == |x'.s.threads| == |x'.workers| && n <= |x.workers|
    requires Quiet(x.s.q, x'.s.q)
    requires forall u | 1 <= u < |x.workers| :: x'.s.threads[u] == x.s.threads[u] && x'.workers[u] == x.workers[u]
    ensures SumRank(disk, x', n) == SumRank(disk, x, n)
  {
    hide WorkerRank, Quiet;
    if n > 1 {
      SumRankSame(disk, x, x', n - 1);
      RankSame(disk, x.s.q, x'.s.q, x.s.threads[n - 1], x.workers[n - 1]);
    }
  }

  predicate Sized(x: Sys) { 0 < |x.s.threads| == |x.workers| }

  function Rank(disk: Disk, x: Sys): nat
    requires Sized(x)
  {
    MainRank(x.s.q, x.s.threads[0]) + SumRank(disk, x, |x.workers|)
  }

  function Alive(q: Q.Queue): nat { if q.destroyed then 0 else 1 }

  /** x' is closer to the end than x. */
  predicate Closer(disk: Disk, x': Sys, x: Sys)
    requires Sized(x) && Sized(x')
  {
    var (a, a', b, b') := (Unpushed(x.s.threads[0], x.todo), Unpushed(x'.s.threads[0], x'.todo), Unpopped(x.s.q.ring), Unpopped(x'.s.q.ring));
    var (d, d') := (Alive(x.s.q), Alive(x'.s.q));
    || a' < a
    || (a' == a && b' < b)
    || (a' == a && b' == b && d' < d)
    || (a' == a && b' == b && d' == d && Rank(disk, x') < Rank(disk, x))
  }

  // ---- Steps that bring the end closer ----

  function Acted(s: Q.State, t: nat): Q.State
    requires t < |s.threads|
  {
    var (q, th) := Act(t, s.q, s.threads[t]);
    Q.Advance(s, t, q, th)
  }

  lemma ActedStep(s: Q.State, t: nat)
    requires Q.Inv(s) && t < |s.threads| && T.CallLine(s.threads[t].at) && s.threads[t].at != 131 && Enabled(s.q, s.threads[t].at)
    ensures Q.Step(s, t, Acted(s, t))
  {
    hide Act;
    assert Q.ThreadOk(s.q, t, s.threads[t]);
    ActIsStep(t, s.q, s.threads[t]);
  }

  lemma WorkerCloser(disk: Disk, x: Sys, t: nat)
    requires H.Good(x) && 1 <= t < |x.workers| && x.workers[t].line == 38 && T.CallLine(x.s.threads[t].at)
    requires Enabled(x.s.q, x.s.threads[t].at) && (x.s.threads[t].at in {85, 99} ==> Open(x.s.q))
    ensures var x' := x.(s := Acted(x.s, t)); Sized(x) && Sized(x') && SysStep(disk, x, t, x') && Closer(disk, x', x)
  {
    var x' := x.(s := Acted(x.s, t));
    var q, th := x.s.q, x.s.threads[t];
    var (q', th') := Act(t, q, th);
    H.WorkerKnown(x, t);
    assert Q.ThreadOk(q, t, th);
    ActedStep(x.s, t);
    WorkerActs(t, q, th, x.workers[t]);
    hide Act, Q.ThreadOk, Q.QueueOk, PopOk, WorkerRank, Quiet, Unpopped, PopRank, JobWork, Returning, MainRank;
    assert PopCallStep(x, t, x');
    if Quiet(q, q') {
      PopRankDown(disk, q, q', th, th', x.workers[t]);
      SumRankLess(disk, x, x', t, |x.workers|);
      QuietMeans(q, q', x.s.threads[0]);
    }
  }

  lemma QuietMeans(q: Q.Queue, q': Q.Queue, th: Q.Thread)
    requires Quiet(q, q')
    ensures MainRank(q', th) == MainRank(q, th) && Unpopped(q'.ring) == Unpopped(q.ring) && Alive(q') == Alive(q)
  {
  }

  lemma PopRankDown(disk: Disk, q: Q.Queue, q': Q.Queue, th: Q.Thread, th': Q.Thread, w: Worker)
    requires w.line == 38
    requires if 104 <= th.at <= 112 then 104 <= th'.at <= 112 && th'.job == th.job && Returning(th'.at) < Returning(th.at)
             else !(104 <= th'.at <= 112) && PopRank(q', th') < PopRank(q, th)
    ensures WorkerRank(disk, q', th', w) < WorkerRank(disk, q, th, w)
  {
    hide PopRank, Returning, JobWork;
  }

  lemma MainCloser(disk: Disk, x: Sys)
    requires H.Good(x) && T.CallLine(x.s.threads[0].at) && x.s.threads[0].at !in {127, 131}
    requires Enabled(x.s.q, x.s.threads[0].at) && (x.s.threads[0].at in {44, 59, 120} ==> !Open(x.s.q))
    ensures var x' := x.(s := Acted(x.s, 0)); Sized(x) && Sized(x') && SysStep(disk, x, 0, x') && Closer(disk, x', x)
  {
    var x' := x.(s := Acted(x.s, 0));
    var q, th := x.s.q, x.s.threads[0];
    var (q', th') := Act(0, q, th);
    assert Q.ThreadOk(q, 0, th);
    ActedStep(x.s, 0);
    MainActs(q, th, x.todo);
    hide Act, Q.ThreadOk, Q.QueueOk, MainOk, Quiet, Unpopped, Unpushed, MainRank, Alive;
    assert MainStep(x, x');
    if Unpushed(th', x.todo) < Unpushed(th, x.todo) {
    } else if Quiet(q, q') {
      SumRankSame(disk, x, x', |x.workers|);
      QuietMeans(q, q', th);
    } else {
      DestroyedMeans(q, q');
    }
  }

  lemma DestroyedMeans(q: Q.Queue, q': Q.Queue)
    requires Quiet(q.(destroyed := true), q') && !q.destroyed
    ensures Unpopped(q'.ring) == Unpopped(q.ring) && Alive(q') < Alive(q)
  {
  }

  lemma StageBounds(w: Worker)
    requires w.line == 59 ==> 0 <= w.phase <= 2 && w.cell < 8
    ensures 0 <= 30 * H.Stage(w) + H.Merging(w) <= 90 && 0 <= H.Merging(w) <= 27
  {
  }

  /** Work on a file, step by step. */
  lemma LocalRankDown(disk: Disk, t: nat, q: Q.Queue, th: Q.Thread, g: seq<int>, lock: Q.Lock, w: Worker)
    requires WorkerOk(q, g, lock, t, th, w) && w.line in {53, 58, 59, 61}
    ensures WorkerRank(disk, q, th, H.WorkNext(disk, t, th.job, g, lock, w).2) < WorkerRank(disk, q, th, w)
  {
    var w' := H.WorkNext(disk, t, th.job, g, lock, w).2;
    H.WorkNextLess(disk, t, q, th, g, lock, w);
    WorkNextShape(disk, t, q, th, g, lock, w);
    hide H.WorkNext, WorkerOk, H.Passes, H.Stage, H.Merging, JobWork, PopRank;
    StageBounds(w);
    StageBounds(w');
  }

  lemma WorkNextShape(disk: Disk, t: nat, q: Q.Queue, th: Q.Thread, g: seq<int>, lock: Q.Lock, w: Worker)
    requires WorkerOk(q, g, lock, t, th, w) && w.line in {53, 58, 59, 61}
    ensures var w' := H.WorkNext(disk, t, th.job, g, lock, w).2;
      w'.line in {36, 53, 58, 59, 61} && (w'.line == 59 ==> 0 <= w'.phase <= 2 && w'.cell < 8)
    ensures w.line == 59 ==> 0 <= w.phase <= 2 && w.cell < 8
  {
  }

  /** A file is opened, or not. */
  lemma OpenRankDown(disk: Disk, t: nat, q: Q.Queue, th: Q.Thread, g: seq<int>, lock: Q.Lock, w: Worker)
    requires |g| == |w.hist| == 8 && w.cell < 8 && w.line == 44
    ensures WorkerRank(disk, q, th, H.WorkNext(disk, t, th.job, g, lock, w).2) < WorkerRank(disk, q, th, w)
  {
  }

  lemma LocalCloser(disk: Disk, x: Sys, t: nat)
    requires H.Good(x) && 1 <= t < |x.workers| && x.workers[t].line in {44, 53, 58, 59, 61}
    requires x.lock == Q.Free || x.lock == Q.Held(t)
    ensures HistsOk(x) && Sized(x) && Sized(H.LocalNext(disk, x, t))
    ensures SysStep(disk, x, t, H.LocalNext(disk, x, t)) && Closer(disk, H.LocalNext(disk, x, t), x)
  {
    hide WorkerOk, H.WorkNext, WorkerRank, MainRank, SysStep;
    H.WorkerKnown(x, t);
    H.LocalNextStep(disk, x, t);
    WorkerSizes(x, t);
    var x' := H.LocalNext(disk, x, t);
    if x.workers[t].line == 44 {
      OpenRankDown(disk, t, x.s.q, x.s.threads[t], x.global, x.lock, x.workers[t]);
    } else {
      LocalRankDown(disk, t, x.s.q, x.s.threads[t], x.global, x.lock, x.workers[t]);
    }
    SumRankLess(disk, x, x', t, |x.workers|);
  }

  lemma WorkerSizes(x: Sys, t: nat)
    requires H.Good(x) && 1 <= t < |x.workers|
    ensures |x.global| == |x.workers[t].hist| == 8 && x.workers[t].cell < 8
  {
    H.WorkerKnown(x, t);
  }

  /** A worker calls pop, or comes back from it. */
  function Turned(x: Sys, t: nat): Sys
    requires t < |x.workers| == |x.s.threads|
  {
    var th, w := x.s.threads[t], x.workers[t];
    if w.line == 36 then
      x.(s := Q.Advance(x.s, t, x.s.q, th.(at := 85)), workers := x.workers[t := w.(line := 38)])
    else
      x.(workers := x.workers[t := w.(line := if th.at == 112 then 44 else 76)])
  }

  lemma TurnCloser(disk: Disk, x: Sys, t: nat)
    requires H.Good(x) && 1 <= t < |x.workers|
    requires x.workers[t].line == 36 || (x.workers[t].line == 38 && Q.Outside(x.s.threads[t].at))
    ensures |x.workers| == |x.s.threads| && Sized(x) && Sized(Turned(x, t))
    ensures SysStep(disk, x, t, Turned(x, t)) && Closer(disk, Turned(x, t), x)
  {
    hide MainRank, JobWork;
    H.WorkerKnown(x, t);
    var x' := Turned(x, t);
    if x.workers[t].line == 36 {
      assert Q.Step(x.s, t, x'.s);
    }
    assert PopCallStep(x, t, x');
    SumRankLess(disk, x, x', t, |x.workers|);
  }

  /** The main thread calls push or destroy. */
  function Called(x: Sys): Sys
    requires 0 < |x.s.threads|
  {
    var th := x.s.threads[0];
    if x.todo != [] then x.(s := Q.Advance(x.s, 0, x.s.q, th.(at := 44, job := x.todo[0])), todo := x.todo[1..])
    else x.(s := Q.Advance(x.s, 0, x.s.q, th.(at := 120)))
  }

  lemma CallCloser(disk: Disk, x: Sys)
    requires H.Good(x) && Q.Outside(x.s.threads[0].at) && x.s.threads[0].at != 141
    ensures Sized(x) && Sized(Called(x)) && SysStep(disk, x, 0, Called(x)) && Closer(disk, Called(x), x)
  {
    var x' := Called(x);
    assert Q.Step(x.s, 0, x'.s);
    assert MainStep(x, x');
    SumRankSame(disk, x, x', |x.workers|);
  }

  // ---- There is always such a step ----

  /** A worker that holds a lock of the queue is inside pop. */
  lemma HolderPops(x: Sys, u: nat)
    requires H.Good(x) && 1 <= u < |x.workers| && (Q.HoldsCount(x.s.threads[u].at) || Q.HoldsPop(x.s.threads[u].at))
    ensures x.workers[u].line == 38 && T.CallLine(x.s.threads[u].at) && x.s.threads[u].at !in {85, 99}
  {
    H.WorkerKnown(x, u);
  }

  /** Where the main thread is. */
  lemma MainPlace(x: Sys)
    requires H.Good(x)
    ensures Sized(x) && Q.Inv(x.s)
    ensures Q.Outside(x.s.threads[0].at) || T.CallLine(x.s.threads[0].at)
    ensures !(80 <= x.s.threads[0].at <= 115) && x.s.threads[0].at != 55
    ensures x.s.threads[0].at in {124, 127, 128, 129, 131, 141} ==> x.s.q.destroyed
    ensures Q.HoldsPush(x.s.threads[0].at) <==> x.s.q.pushLock == Q.Held(0)
    ensures Q.HoldsCount(x.s.threads[0].at) <==> x.s.q.countLock == Q.Held(0)
  {
    assert Q.ThreadOk(x.s.q, 0, x.s.threads[0]);
  }

  lemma CountHolderCloser(disk: Disk, x: Sys) returns (t: nat, x': Sys)
    requires H.Good(x) && x.s.q.countLock != Q.Free
    ensures Sized(x) && Sized(x') && SysStep(disk, x, t, x') && Closer(disk, x', x)
  {
    hide H.Good, SysStep, Closer, Acted, T.CallLine, Q.Inv;
    MainPlace(x);
    t := T.HolderKnown(x.s);
    x' := x.(s := Acted(x.s, t));
    if t == 0 {
      MainHolds(x.s.threads[0].at);
      MainCloser(disk, x);
    } else {
      HolderPops(x, t);
      WorkerCloser(disk, x, t);
    }
  }

  lemma MainHolds(at: int)
    requires Q.HoldsCount(at) || Q.HoldsPush(at)
    ensures at !in {127, 131, 44, 59, 120, 85, 99} && !Q.Outside(at)
    ensures Q.HoldsCount(at) ==> at !in {48, 65, 88, 106}
  {
  }

  lemma PopHolderCloser(disk: Disk, x: Sys) returns (t: nat, x': Sys)
    requires H.Good(x) && x.s.q.countLock == Q.Free && x.s.q.popLock != Q.Free
    ensures Sized(x) && Sized(x') && SysStep(disk, x, t, x') && Closer(disk, x', x)
  {
    hide H.Good, SysStep, Closer, Acted, T.CallLine;
    MainPlace(x);
    t := T.PopperKnown(x.s);
    assert Q.ThreadOk(x.s.q, t, x.s.threads[t]);
    x' := x.(s := Acted(x.s, t));
    HolderPops(x, t);
    WorkerCloser(disk, x, t);
  }

  lemma PushHolderIsMain(x: Sys)
    requires H.Good(x) && x.s.q.pushLock != Q.Free
    ensures x.s.q.pushLock == Q.Held(0)
  {
    var u := x.s.q.pushLock.tid;
    assert Q.ThreadOk(x.s.q, u, x.s.threads[u]);
    if u > 0 {
      H.WorkerKnown(x, u);
    }
  }

  lemma PushHolderCloser(disk: Disk, x: Sys) returns (t: nat, x': Sys)
    requires H.Good(x) && x.s.q.countLock == Q.Free && x.s.q.pushLock != Q.Free
    ensures Sized(x) && Sized(x') && SysStep(disk, x, t, x') && Closer(disk, x', x)
  {
    hide H.Good, SysStep, Closer, Acted, T.CallLine;
    MainPlace(x);
    PushHolderIsMain(x);
    t, x' := 0, x.(s := Acted(x.s, 0));
    MainHolds(x.s.threads[0].at);
    MainCloser(disk, x);
  }

  /** A worker that holds no lock. */
  lemma WorkerPlace(x: Sys, t: nat)
    requires H.Good(x) && 1 <= t < |x.workers| && x.lock == Q.Free
    requires x.s.q.countLock == Q.Free && x.s.q.popLock == Q.Free && x.s.q.pushLock == Q.Free
    ensures
      var line, at := x.workers[t].line, x.s.threads[t].at;
      line in {36, 44, 53, 58, 76} || (line == 38 && (Q.Outside(at) || (at in {85, 99} && T.CallLine(at))))
  {
    H.WorkerKnown(x, t);
    assert Q.ThreadOk(x.s.q, t, x.s.threads[t]);
  }

  lemma IdleWorkerCloser(disk: Disk, x: Sys, t: nat) returns (x': Sys)
    requires H.Good(x) && 1 <= t < |x.workers| && x.lock == Q.Free && x.workers[t].line != 76
    requires x.s.q.countLock == Q.Free && x.s.q.popLock == Q.Free && x.s.q.pushLock == Q.Free
    requires Open(x.s.q) || (x.workers[t].line != 36 && !(x.workers[t].line == 38 && !Q.Outside(x.s.threads[t].at)))
    ensures Sized(x) && Sized(x') && SysStep(disk, x, t, x') && Closer(disk, x', x)
  {
    hide H.Good, SysStep, Closer, Acted, T.CallLine, H.LocalNext, Turned, Open;
    MainPlace(x);
    WorkerPlace(x, t);
    if x.workers[t].line in {44, 53, 58} {
      LocalCloser(disk, x, t);
      x' := H.LocalNext(disk, x, t);
    } else if x.workers[t].line == 38 && !Q.Outside(x.s.threads[t].at) {
      WorkerCloser(disk, x, t);
      x' := x.(s := Acted(x.s, t));
    } else {
      TurnCloser(disk, x, t);
      x' := Turned(x, t);
    }
  }

  lemma IdleMainCloser(disk: Disk, x: Sys) returns (x': Sys)
    requires H.Good(x) && !Open(x.s.q)
    requires x.s.q.countLock == Q.Free && x.s.q.popLock == Q.Free && x.s.q.pushLock == Q.Free
    ensures Sized(x) && Sized(x') && SysStep(disk, x, 0, x') && Closer(disk, x', x)
  {
    hide H.Good, SysStep, Closer, Acted, Called;
    MainPlace(x);
    if Q.Outside(x.s.threads[0].at) {
      CallCloser(disk, x);
      x' := Called(x);
    } else {
      MainCloser(disk, x);
      x' := x.(s := Acted(x.s, 0));
    }
  }

  lemma GlobalHolderCloser(disk: Disk, x: Sys) returns (t: nat, x': Sys)
    requires H.Good(x) && x.lock != Q.Free
    ensures Sized(x) && Sized(x') && SysStep(disk, x, t, x') && Closer(disk, x', x)
  {
    t := x.lock.tid;
    H.WorkerKnown(x, t);
    hide H.Good, SysStep, Closer, H.LocalNext;
    LocalCloser(disk, x, t);
    x' := H.LocalNext(disk, x, t);
  }

  /** Unless all workers have exited, some thread can bring the end closer. */
  lemma SomeStepCloser(disk: Disk, x: Sys, t: nat) returns (u: nat, x': Sys)
    requires H.Good(x) && 1 <= t < |x.workers| && x.workers[t].line != 76
    ensures Sized(x) && Sized(x') && SysStep(disk, x, u, x') && Closer(disk, x', x)
  {
    hide H.Good, SysStep, Closer, Open;
    var q := x.s.q;
    if q.countLock != Q.Free {
      u, x' := CountHolderCloser(disk, x);
    } else if x.lock != Q.Free {
      u, x' := GlobalHolderCloser(disk, x);
    } else if q.popLock != Q.Free {
      u, x' := PopHolderCloser(disk, x);
    } else if q.pushLock != Q.Free {
      u, x' := PushHolderCloser(disk, x);
    } else if Open(q) {
      u := t;
      x' := IdleWorkerCloser(disk, x, t);
    } else {
      u := 0;
      x' := IdleMainCloser(disk, x);
    }
  }

  // ---- Every run can be completed ----

  predicate AllExited(x: Sys) {
    forall t | 1 <= t < |x.workers| :: x.workers[t].line == 76
  }

  lemma Extended(disk: Disk, files: seq<Q.Job>, run: seq<Sys>, u: nat, x': Sys)
    requires SysRun(disk, files, run) && SysStep(disk, run[|run| - 1], u, x')
    ensures SysRun(disk, files, run + [x'])
  {
    hide SysStep, SysInit;
    var longer := run + [x'];
    assert SysNext(disk, run[|run| - 1], x');
    forall i | 0 <= i < |longer| - 1 ensures SysStepAt(disk, longer, i) {
      if i < |run| - 1 {
        assert SysStepAt(disk, run, i);
      }
    }
  }

  lemma UnpoppedBound(x: Sys)
    requires H.Good(x)
    ensures Sized(x) && Unpopped(x.s.q.ring) >= 0
  {
  }

  /** Whatever has happened so far, the program can still come to an end: every run is the beginning of one in
      which all workers have exited. */
  lemma {:induction false} CanComplete(disk: Disk, files: seq<Q.Job>, run: seq<Sys>) returns (longer: seq<Sys>)
    requires SysRun(disk, files, run)
    ensures SysRun(disk, files, longer) && run <= longer && AllExited(longer[|longer| - 1])
    decreases if run != [] && Sized(run[|run| - 1]) then Unpushed(run[|run| - 1].s.threads[0], run[|run| - 1].todo) else 0,
              if run != [] then Unpopped(run[|run| - 1].s.q.ring) else 0,
              if run != [] then Alive(run[|run| - 1].s.q) else 0,
              if run != [] && Sized(run[|run| - 1]) then Rank(disk, run[|run| - 1]) else 0
  {
    hide SysStep, H.Good, Rank, Unpushed, Unpopped, Alive;
    var x := run[|run| - 1];
    if AllExited(x) {
      longer := run;
    } else {
      H.RunKeepsGood(disk, files, run, |run| - 1);
      var t :| 1 <= t < |x.workers| && x.workers[t].line != 76;
      var u, x' := SomeStepCloser(disk, x, t);
      UnpoppedBound(x);
      Extended(disk, files, run, u, x');
      longer := CanComplete(disk, files, run + [x']);
    }
  }

  /** So for every list of files, every disk and every number of workers there is a run that ends with all
      workers gone and the sequential histogram in the global bins. */
  lemma SomeRunCompletes(disk: Disk, files: seq<Q.Job>, start: Sys) returns (run: seq<Sys>)
    requires SysInit(files, start)
    ensures SysRun(disk, files, run) && run[0] == start
    ensures
      var last := run[|run| - 1];
      AllExited(last) && |last.global| == 8 && forall i: nat | i < 8 :: last.global[i] == JobBits(disk, files, i)
  {
    hide SysInit, JobBits;
    assert SysRun(disk, files, [start]);
    run := CanComplete(disk, files, [start]);
    var k := |run| - 1;
    forall i: nat | i < 8 ensures |run[k].global| == 8 && run[k].global[i] == JobBits(disk, files, i) {
      ThreadedEqualsSequential(disk, files, run, k, i);
    }
    assert 0 < 8;
    ThreadedEqualsSequential(disk, files, run, k, 0);
  }

  /** A start with any number of workers. */
  lemma StartExists(files: seq<Q.Job>, workers: nat, capacity: nat) returns (start: Sys)
    requires workers > 0 && capacity > 0
    ensures SysInit(files, start) && |start.workers| == workers + 1 && start.s.q.ring.capacity == capacity
  {
    var th := Q.Thread(0, 0, false, false, 0);
    var w := Worker(36, [], Zeros(), 0, false, 0, 0, 0);
    var ring := Q.Ring(capacity, seq(capacity, _ => 0), 0, 0, 0, [], [], 0, 0);
    start := Sys(Q.State(Q.Queue(ring, false, false, Q.Free, Q.Free, Q.Free), seq(workers + 1, _ => th)),
                 seq(workers + 1, _ => w), Zeros(), Q.Free, files);
  }
}

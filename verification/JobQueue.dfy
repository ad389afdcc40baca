/** The bounded job queue shared by any number of threads, as a transition system.

    Every mutex operation, every read and every write of a shared field is one step, so that the
    push lock, the pop lock and the count lock are held exactly where the program holds them.
    A wait on a condition variable gives up its lock and may end at any time (a spurious wake-up is
    always allowed), so signals need no model of their own. */
module JobQueue {
  import opened Arith

  /** A job is an opaque pointer. */
  type Job = int

  datatype Lock = Free | Held(tid: nat)

  /** A thread: the line of the step that it takes next (job_queue.c), and its local variables.
      Lines 55, 71, 95, 112 and 141 are the returns; 0 is a thread that has made no call yet.
      Lines 59 and 99 are the waits, with the lock given up. */
  datatype Thread = Thread(at: int, job: Job, blocked: bool, dead: bool, remaining: int)

  /** The ring buffer. The last four fields are history: the jobs in the order in which their slots
      were written (`pushed`) and read (`popped`), and how often count went up and down. */
  datatype Ring = Ring(
    capacity: nat, buffer: seq<Job>, count: int, front: int, rear: int,
    pushed: seq<Job>, popped: seq<Job>, ins: nat, outs: nat)

  datatype Queue = Queue(
    ring: Ring, destroyed: bool, freed: bool, pushLock: Lock, popLock: Lock, countLock: Lock)

  datatype State = State(q: Queue, threads: seq<Thread>)

  /** job_queue_init. */
  ghost predicate Init(s: State) {
    var r := s.q.ring;
    && r.capacity > 0 && |r.buffer| == r.capacity
    && r == Ring(r.capacity, r.buffer, 0, 0, 0, [], [], 0, 0)
    && s.q == Queue(r, false, false, Free, Free, Free)
    && forall t | 0 <= t < |s.threads| :: s.threads[t].at == 0
  }

  // ---- What the steps do to the ring ----

  function Store(r: Ring, j: Job): Ring
    requires 0 <= r.rear < |r.buffer|
  {
    r.(buffer := r.buffer[r.rear := j], pushed := r.pushed + [j])
  }

  function AdvanceRear(r: Ring): Ring
    requires r.capacity > 0
  {
    r.(rear := (r.rear + 1) % r.capacity)
  }

  function Bump(r: Ring): Ring {
    r.(count := r.count + 1, ins := r.ins + 1)
  }

  function Load(r: Ring): Ring
    requires 0 <= r.front < |r.buffer|
  {
    r.(popped := r.popped + [r.buffer[r.front]])
  }

  function AdvanceFront(r: Ring): Ring
    requires r.capacity > 0
  {
    r.(front := (r.front + 1) % r.capacity)
  }

  function Drop(r: Ring): Ring {
    r.(count := r.count - 1, outs := r.outs + 1)
  }

  // ---- The steps of a thread ----

  /** A thread that is outside the queue may start any call. */
  predicate Outside(at: int) {
    at == 0 || at == 55 || at == 71 || at == 95 || at == 112 || at == 141
  }

  ghost predicate CallStep(q: Queue, th: Thread, q': Queue, th': Thread) {
    && Outside(th.at) && q' == q
    && (th' == th.(at := 44, job := th'.job) || th' == th.(at := 85) || th' == th.(at := 120))
  }

  /** job_queue_push up to the end of its wait loop, taken by thread t. */
  ghost predicate PushWaitStep(t: nat, q: Queue, th: Thread, q': Queue, th': Thread) {
    match th.at
    case 44 => q.pushLock == Free && th' == th.(at := 48) && q' == q.(pushLock := Held(t))
    case 48 => q.countLock == Free && th' == th.(at := 49) && q' == q.(countLock := Held(t))
    case 49 => th' == th.(at := 50, blocked := q.ring.count == q.ring.capacity) && q' == q
    case 50 => th' == th.(at := 51, dead := q.destroyed) && q' == q
    case 51 => th' == th.(at := 53) && q' == q.(countLock := Free)
    case 53 =>
      if th.dead then th' == th.(at := 55) && q' == q.(pushLock := Free)
      else if !th.blocked then th' == th.(at := 62) && q' == q
      else th' == th.(at := 59) && q' == q.(pushLock := Free)
    case 59 => q.pushLock == Free && th' == th.(at := 48) && q' == q.(pushLock := Held(t))
    case _ => false
  }

  /** job_queue_push after its wait loop. */
  ghost predicate PushStoreStep(t: nat, q: Queue, th: Thread, q': Queue, th': Thread) {
    match th.at
    case 62 =>
      && 0 <= q.ring.rear < |q.ring.buffer|
      && th' == th.(at := 63) && q' == q.(ring := Store(q.ring, th.job))
    case 63 => q.ring.capacity > 0 && th' == th.(at := 65) && q' == q.(ring := AdvanceRear(q.ring))
    case 65 => q.countLock == Free && th' == th.(at := 66) && q' == q.(countLock := Held(t))
    case 66 => th' == th.(at := 68) && q' == q.(ring := Bump(q.ring))
    case 68 => th' == th.(at := 70) && q' == q.(countLock := Free)
    case 70 => th' == th.(at := 71) && q' == q.(pushLock := Free)
    case _ => false
  }

  /** job_queue_pop up to the end of its wait loop, taken by thread t. */
  ghost predicate PopWaitStep(t: nat, q: Queue, th: Thread, q': Queue, th': Thread) {
    match th.at
    case 85 => q.popLock == Free && th' == th.(at := 88) && q' == q.(popLock := Held(t))
    case 88 => q.countLock == Free && th' == th.(at := 89) && q' == q.(countLock := Held(t))
    case 89 => th' == th.(at := 90, blocked := q.ring.count == 0) && q' == q
    case 90 => th' == th.(at := 91, dead := q.destroyed) && q' == q
    case 91 => th' == th.(at := 93) && q' == q.(countLock := Free)
    case 93 =>
      if th.dead && th.blocked then th' == th.(at := 95) && q' == q.(popLock := Free)
      else if !th.blocked then th' == th.(at := 103) && q' == q
      else th' == th.(at := 99) && q' == q.(popLock := Free)
    case 99 => q.popLock == Free && th' == th.(at := 88) && q' == q.(popLock := Held(t))
    case _ => false
  }

  /** job_queue_pop after its wait loop. */
  ghost predicate PopLoadStep(t: nat, q: Queue, th: Thread, q': Queue, th': Thread) {
    match th.at
    case 103 =>
      && 0 <= q.ring.front < |q.ring.buffer|
      && th' == th.(at := 104, job := q.ring.buffer[q.ring.front]) && q' == q.(ring := Load(q.ring))
    case 104 => q.ring.capacity > 0 && th' == th.(at := 106) && q' == q.(ring := AdvanceFront(q.ring))
    case 106 => q.countLock == Free && th' == th.(at := 107) && q' == q.(countLock := Held(t))
    case 107 => th' == th.(at := 109) && q' == q.(ring := Drop(q.ring))
    case 109 => th' == th.(at := 111) && q' == q.(countLock := Free)
    case 111 => th' == th.(at := 112) && q' == q.(popLock := Free)
    case _ => false
  }

  /** job_queue_destroy, taken by thread t. */
  ghost predicate DestroyStep(t: nat, q: Queue, th: Thread, q': Queue, th': Thread) {
    match th.at
    case 120 => q.countLock == Free && th' == th.(at := 121) && q' == q.(countLock := Held(t))
    case 121 => th' == th.(at := 124) && q' == q.(destroyed := true)
    case 124 => th' == th.(at := 127) && q' == q.(countLock := Free)
    case 127 => q.countLock == Free && th' == th.(at := 128) && q' == q.(countLock := Held(t))
    case 128 => th' == th.(at := 129, remaining := q.ring.count) && q' == q
    case 129 => th' == th.(at := 131) && q' == q.(countLock := Free)
    case 131 =>
      if th.remaining == 0 then th' == th.(at := 141) && q' == q.(freed := true)
      else th' == th.(at := 127) && q' == q
    case _ => false
  }

  ghost predicate ThreadStep(t: nat, q: Queue, th: Thread, q': Queue, th': Thread) {
    || CallStep(q, th, q', th') || DestroyStep(t, q, th, q', th')
    || PushWaitStep(t, q, th, q', th') || PushStoreStep(t, q, th, q', th')
    || PopWaitStep(t, q, th, q', th') || PopLoadStep(t, q, th, q', th')
  }

  ghost predicate Step(s: State, t: nat, s': State) {
    && t < |s.threads| == |s'.threads|
    && s'.threads == s.threads[t := s'.threads[t]]
    && ThreadStep(t, s.q, s.threads[t], s'.q, s'.threads[t])
  }

  ghost predicate Next(s: State, s': State) {
    exists t: nat :: Step(s, t, s')
  }

  ghost predicate StepAt(run: seq<State>, i: nat)
    requires i + 1 < |run|
  {
    Next(run[i], run[i + 1])
  }

  ghost predicate Run(run: seq<State>) {
    && run != [] && Init(run[0])
    && forall i | 0 <= i < |run| - 1 :: StepAt(run, i)
  }

  // ---- The invariant ----

  predicate HoldsPush(at: int) {
    48 <= at <= 70 && at != 55 && at != 59
  }

  predicate HoldsPop(at: int) {
    88 <= at <= 111 && at != 95 && at != 99
  }

  predicate HoldsCount(at: int) {
    49 <= at <= 51 || 66 <= at <= 68 || 89 <= at <= 91 || 107 <= at <= 109 || 121 <= at <= 124 || 128 <= at <= 129
  }

  /** The thread has seen "not full" and not yet used it up by counting its job. */
  predicate SawRoom(th: Thread) {
    62 <= th.at <= 66 || (50 <= th.at <= 53 && !th.blocked)
  }

  /** The thread has seen "not empty" and not yet used it up by uncounting its job. */
  predicate SawJob(th: Thread) {
    103 <= th.at <= 107 || (90 <= th.at <= 93 && !th.blocked)
  }

  /** 1 while a job is stored and rear has not moved on (63), and while it is not yet counted. */
  function RearLag(at: int): nat { if at == 63 then 1 else 0 }
  function Uncounted(at: int): nat { if 63 <= at <= 66 then 1 else 0 }

  /** 1 while a job is loaded and front has not moved on (104), and while it is still counted. */
  function FrontLag(at: int): nat { if at == 104 then 1 else 0 }
  function Overcounted(at: int): nat { if 104 <= at <= 107 then 1 else 0 }

  /** How rear, count and the stored jobs are related when the last stored job is behind by so much. */
  ghost predicate PushSide(r: Ring, uncounted: nat, lag: nat) {
    && r.capacity > 0 && lag <= uncounted
    && r.ins + uncounted == |r.pushed|
    && r.rear == (|r.pushed| - lag) % r.capacity
  }

  ghost predicate PopSide(r: Ring, overcounted: nat, lag: nat) {
    && r.capacity > 0 && lag <= overcounted
    && r.outs + overcounted == |r.popped|
    && r.front == (|r.popped| - lag) % r.capacity
  }

  /** Every job that has been stored and not yet loaded is in its slot, and jobs come out in the
      order in which they went in. */
  ghost predicate RingOk(r: Ring) {
    && 0 < r.capacity == |r.buffer|
    && r.count == r.ins - r.outs && 0 <= r.count <= r.capacity
    && r.ins <= |r.pushed| && r.outs <= |r.popped|
    && |r.popped| <= |r.pushed| <= |r.popped| + r.capacity
    && r.popped <= r.pushed
    && forall k {:trigger r.pushed[k]} | |r.popped| <= k < |r.pushed| :: r.buffer[k % r.capacity] == r.pushed[k]
  }

  ghost predicate QueueOk(q: Queue) {
    && RingOk(q.ring)
    && (q.pushLock == Free ==> PushSide(q.ring, 0, 0))
    && (q.popLock == Free ==> PopSide(q.ring, 0, 0))
  }

  /** What is true of one thread: it holds the locks that its line says, what it saw is still so,
      and it accounts for the push or pop that it is in the middle of. */
  ghost predicate ThreadOk(q: Queue, t: nat, th: Thread) {
    && (HoldsPush(th.at) <==> q.pushLock == Held(t))
    && (HoldsPop(th.at) <==> q.popLock == Held(t))
    && (HoldsCount(th.at) <==> q.countLock == Held(t))
    && (HoldsPush(th.at) ==> PushSide(q.ring, Uncounted(th.at), RearLag(th.at)))
    && (HoldsPop(th.at) ==> PopSide(q.ring, Overcounted(th.at), FrontLag(th.at)))
    && (SawRoom(th) ==> q.ring.count < q.ring.capacity)
    && (SawJob(th) ==> 0 < q.ring.count)
  }

  predicate Known(lock: Lock, n: nat) {
    lock.Held? ==> lock.tid < n
  }

  ghost predicate Inv(s: State) {
    && QueueOk(s.q)
    && Known(s.q.pushLock, |s.threads|) && Known(s.q.popLock, |s.threads|) && Known(s.q.countLock, |s.threads|)
    && forall t | 0 <= t < |s.threads| :: ThreadOk(s.q, t, s.threads[t])
  }

  // ---- What the ring operations keep ----

  lemma StoreOk(r: Ring, j: Job)
    requires RingOk(r) && PushSide(r, 0, 0) && r.count < r.capacity
    ensures 0 <= r.rear < |r.buffer|
    ensures RingOk(Store(r, j)) && PushSide(Store(r, j), 1, 1)
  {
    var r' := Store(r, j);
    forall k {:trigger r'.pushed[k]} | |r'.popped| <= k < |r'.pushed|
      ensures r'.buffer[k % r.capacity] == r'.pushed[k]
    {
      if k < |r.pushed| {
        ModWindow(k, |r.pushed|, r.capacity);
        assert r'.pushed[k] == r.pushed[k];
      }
    }
  }

  lemma AdvanceRearOk(r: Ring)
    requires RingOk(r) && PushSide(r, 1, 1)
    ensures RingOk(AdvanceRear(r)) && PushSide(AdvanceRear(r), 1, 0)
  {
    ModSucc(|r.pushed| - 1, r.capacity);
  }

  lemma BumpOk(r: Ring)
    requires RingOk(r) && PushSide(r, 1, 0) && r.count < r.capacity
    ensures RingOk(Bump(r)) && PushSide(Bump(r), 0, 0)
  {
  }

  lemma LoadOk(r: Ring)
    requires RingOk(r) && PopSide(r, 0, 0) && 0 < r.count
    ensures 0 <= r.front < |r.buffer| && r.buffer[r.front] == r.pushed[|r.popped|]
    ensures RingOk(Load(r)) && PopSide(Load(r), 1, 1)
  {
    assert r.buffer[r.front] == r.pushed[|r.popped|];
  }

  lemma AdvanceFrontOk(r: Ring)
    requires RingOk(r) && PopSide(r, 1, 1)
    ensures RingOk(AdvanceFront(r)) && PopSide(AdvanceFront(r), 1, 0)
  {
    ModSucc(|r.popped| - 1, r.capacity);
    assert (|r.popped| - 1) + 1 == |r.popped|;
  }

  lemma DropOk(r: Ring)
    requires RingOk(r) && PopSide(r, 1, 0) && 0 < r.count
    ensures RingOk(Drop(r)) && PopSide(Drop(r), 0, 0)
  {
  }

  // ---- Every step keeps the invariant ----

  /** Thread t may take a free lock or give up its own. */
  predicate LockRule(t: nat, l: Lock, l': Lock) {
    l' == l || (l == Free && l' == Held(t)) || (l == Held(t) && l' == Free)
  }

  /** What every step of thread t grants the others: only the holder of the push lock moves rear or
      raises count, and only the holder of the pop lock moves front or lowers count. */
  ghost predicate Grants(t: nat, q: Queue, q': Queue) {
    && LockRule(t, q.pushLock, q'.pushLock)
    && LockRule(t, q.popLock, q'.popLock)
    && LockRule(t, q.countLock, q'.countLock)
    && q'.ring.capacity == q.ring.capacity
    && (q.pushLock != Held(t) ==>
          && q'.ring.rear == q.ring.rear && q'.ring.pushed == q.ring.pushed && q'.ring.ins == q.ring.ins
          && q'.ring.buffer == q.ring.buffer && q'.ring.count <= q.ring.count)
    && (q.popLock != Held(t) ==>
          && q'.ring.front == q.ring.front && q'.ring.popped == q.ring.popped && q'.ring.outs == q.ring.outs
          && q'.ring.count >= q.ring.count)
    && (q.countLock != Held(t) ==> q'.ring.count == q.ring.count && q'.destroyed == q.destroyed)
  }

  /** What a step of thread t must leave behind. */
  ghost predicate Kept(t: nat, q: Queue, q': Queue, th': Thread) {
    QueueOk(q') && ThreadOk(q', t, th') && Grants(t, q, q')
  }

  lemma CallKeeps(t: nat, q: Queue, th: Thread, q': Queue, th': Thread)
    requires QueueOk(q) && ThreadOk(q, t, th) && CallStep(q, th, q', th')
    ensures Kept(t, q, q', th')
  {
  }

  lemma PushWaitKeeps(t: nat, q: Queue, th: Thread, q': Queue, th': Thread)
    requires QueueOk(q) && ThreadOk(q, t, th) && PushWaitStep(t, q, th, q', th')
    ensures Kept(t, q, q', th')
  {
  }

  lemma PushStoreKeeps(t: nat, q: Queue, th: Thread, q': Queue, th': Thread)
    requires QueueOk(q) && ThreadOk(q, t, th) && PushStoreStep(t, q, th, q', th')
    ensures Kept(t, q, q', th')
  {
    if th.at == 62 {
      StoreOk(q.ring, th.job);
    } else if th.at == 63 {
      AdvanceRearOk(q.ring);
    } else if th.at == 66 {
      BumpOk(q.ring);
    }
  }

  lemma PopWaitKeeps(t: nat, q: Queue, th: Thread, q': Queue, th': Thread)
    requires QueueOk(q) && ThreadOk(q, t, th) && PopWaitStep(t, q, th, q', th')
    ensures Kept(t, q, q', th')
  {
  }

  lemma PopLoadKeeps(t: nat, q: Queue, th: Thread, q': Queue, th': Thread)
    requires QueueOk(q) && ThreadOk(q, t, th) && PopLoadStep(t, q, th, q', th')
    ensures Kept(t, q, q', th')
  {
    if th.at == 103 {
      LoadOk(q.ring);
    } else if th.at == 104 {
      AdvanceFrontOk(q.ring);
    } else if th.at == 107 {
      DropOk(q.ring);
    }
  }

  lemma DestroyKeeps(t: nat, q: Queue, th: Thread, q': Queue, th': Thread)
    requires QueueOk(q) && ThreadOk(q, t, th) && DestroyStep(t, q, th, q', th')
    ensures Kept(t, q, q', th')
  {
  }

  lemma ThreadStepKeeps(t: nat, q: Queue, th: Thread, q': Queue, th': Thread)
    requires QueueOk(q) && ThreadOk(q, t, th) && ThreadStep(t, q, th, q', th')
    ensures Kept(t, q, q', th')
  {
    if CallStep(q, th, q', th') {
      CallKeeps(t, q, th, q', th');
    } else if DestroyStep(t, q, th, q', th') {
      DestroyKeeps(t, q, th, q', th');
    } else if PushWaitStep(t, q, th, q', th') {
      PushWaitKeeps(t, q, th, q', th');
    } else if PushStoreStep(t, q, th, q', th') {
      PushStoreKeeps(t, q, th, q', th');
    } else if PopWaitStep(t, q, th, q', th') {
      PopWaitKeeps(t, q, th, q', th');
    } else {
      PopLoadKeeps(t, q, th, q', th');
    }
  }

  /** Which step touches the histories, and what it does to the thread's job. */
  ghost predicate Traced(q: Queue, th: Thread, q': Queue, th': Thread) {
    && q'.ring.pushed == (if th.at == 62 then q.ring.pushed + [th.job] else q.ring.pushed)
    && (if th.at == 103 then
          && |q.ring.popped| < |q.ring.pushed| && th'.job == q.ring.pushed[|q.ring.popped|]
          && q'.ring.popped == q.ring.popped + [th'.job]
        else
          q'.ring.popped == q.ring.popped && (!Outside(th.at) ==> th'.job == th.job))
  }

  lemma PushTraced(t: nat, q: Queue, th: Thread, q': Queue, th': Thread)
    requires PushWaitStep(t, q, th, q', th') || PushStoreStep(t, q, th, q', th')
    ensures Traced(q, th, q', th')
  {
  }

  lemma PopTraced(t: nat, q: Queue, th: Thread, q': Queue, th': Thread)
    requires QueueOk(q) && ThreadOk(q, t, th)
    requires PopWaitStep(t, q, th, q', th') || PopLoadStep(t, q, th, q', th')
    ensures Traced(q, th, q', th')
  {
    if th.at == 103 {
      LoadOk(q.ring);
    }
  }

  lemma StepTraced(t: nat, q: Queue, th: Thread, q': Queue, th': Thread)
    requires QueueOk(q) && ThreadOk(q, t, th) && ThreadStep(t, q, th, q', th')
    ensures Traced(q, th, q', th')
  {
    if PushWaitStep(t, q, th, q', th') || PushStoreStep(t, q, th, q', th') {
      PushTraced(t, q, th, q', th');
    } else if PopWaitStep(t, q, th, q', th') || PopLoadStep(t, q, th, q', th') {
      PopTraced(t, q, th, q', th');
    }
  }

  /** No step of another thread spoils what a thread relies on. */
  lemma OtherThreadKept(t: nat, q: Queue, q': Queue, u: nat, other: Thread)
    requires u != t && ThreadOk(q, u, other) && Grants(t, q, q')
    ensures ThreadOk(q', u, other)
  {
  }

  lemma StepKeepsInv(s: State, t: nat, s': State)
    requires Inv(s) && Step(s, t, s')
    ensures Inv(s') && Grants(t, s.q, s'.q)
  {
    ThreadStepKeeps(t, s.q, s.threads[t], s'.q, s'.threads[t]);
    forall u | 0 <= u < |s'.threads| ensures ThreadOk(s'.q, u, s'.threads[u]) {
      if u != t {
        OtherThreadKept(t, s.q, s'.q, u, s.threads[u]);
      }
    }
  }

  // ---- Runs of any number of threads ----

  lemma InitInv(s: State)
    requires Init(s)
    ensures Inv(s)
  {
  }

  lemma {:induction false} RunKeepsInv(run: seq<State>, i: nat)
    requires Run(run) && i < |run|
    ensures Inv(run[i])
  {
    if i == 0 {
      InitInv(run[0]);
    } else {
      RunKeepsInv(run, i - 1);
      assert StepAt(run, i - 1);
      var t: nat :| Step(run[i - 1], t, run[i]);
      StepKeepsInv(run[i - 1], t, run[i]);
    }
  }

  /** The line at which the holder of a lock is. */
  function HolderAt(s: State, lock: Lock): int {
    if lock.Held? && lock.tid < |s.threads| then s.threads[lock.tid].at else 0
  }

  /** Over every interleaving of any number of threads the jobs come out in the order in which they
      went in, count stays in range, and front, rear and count are those of a ring, corrected for at
      most one half-finished push and at most one half-finished pop. */
  lemma FifoUnderEveryInterleaving(run: seq<State>, i: nat)
    requires Run(run) && i < |run|
    ensures var s := run[i]; var r := s.q.ring;
      var pusher, popper := HolderAt(s, s.q.pushLock), HolderAt(s, s.q.popLock);
      && r.popped <= r.pushed
      && 0 < r.capacity && 0 <= r.count <= r.capacity
      && r.count == |r.pushed| - Uncounted(pusher) - |r.popped| + Overcounted(popper)
      && RearLag(pusher) <= |r.pushed| && r.rear == (|r.pushed| - RearLag(pusher)) % r.capacity
      && FrontLag(popper) <= |r.popped| && r.front == (|r.popped| - FrontLag(popper)) % r.capacity
  {
    RunKeepsInv(run, i);
    var s := run[i];
    if s.q.pushLock.Held? {
      assert ThreadOk(s.q, s.q.pushLock.tid, s.threads[s.q.pushLock.tid]);
    }
    if s.q.popLock.Held? {
      assert ThreadOk(s.q, s.q.popLock.tid, s.threads[s.q.popLock.tid]);
    }
  }

  /** A slot is never written while it, or any other half of the same operation, is in the hands of
      another thread, and the slot being written is never the slot being read. */
  lemma StoreAndLoadAreApart(run: seq<State>, i: nat, a: nat, b: nat)
    requires Run(run) && i < |run| && a < |run[i].threads| && b < |run[i].threads| && a != b
    requires run[i].threads[a].at == 62
    ensures !(62 <= run[i].threads[b].at <= 70)
    ensures run[i].threads[b].at == 103 ==> run[i].q.ring.rear != run[i].q.ring.front
  {
    RunKeepsInv(run, i);
    var q := run[i].q;
    assert ThreadOk(q, a, run[i].threads[a]) && ThreadOk(q, b, run[i].threads[b]);
    if run[i].threads[b].at == 103 {
      ModWindow(|q.ring.popped|, |q.ring.pushed|, q.ring.capacity);
    }
  }

  /** In every state of every run, what a thread saw under the count lock is still so until it changes
      the count itself. */
  lemma ObservationsHold(run: seq<State>, i: nat, t: nat)
    requires Run(run) && i < |run| && t < |run[i].threads|
    ensures SawRoom(run[i].threads[t]) ==> run[i].q.ring.count < run[i].q.ring.capacity
    ensures SawJob(run[i].threads[t]) ==> 0 < run[i].q.ring.count
  {
    RunKeepsInv(run, i);
    assert ThreadOk(run[i].q, t, run[i].threads[t]);
  }

  /** "Not full" and "not empty", once seen by a thread that holds the push or the pop lock, cannot
      be undone by a step of any other thread. */
  lemma ObservationsSurvive(s: State, t: nat, s': State, u: nat)
    requires Inv(s) && Step(s, t, s') && u < |s.threads| && u != t
    ensures s'.threads[u] == s.threads[u]
    ensures HoldsPush(s.threads[u].at) ==> s'.q.ring.count <= s.q.ring.count <= s.q.ring.capacity
    ensures HoldsPop(s.threads[u].at) ==> 0 <= s.q.ring.count <= s'.q.ring.count
  {
    StepKeepsInv(s, t, s');
    assert ThreadOk(s.q, u, s.threads[u]);
  }

  /** Under any client, an observed count of zero means that every stored job has been loaded exactly
      when no thread is between storing its job and counting it. */
  lemma EmptyCountMeansDelivered(run: seq<State>, i: nat)
    requires Run(run) && i < |run| && run[i].q.ring.count == 0
    ensures run[i].q.ring.popped == run[i].q.ring.pushed
       <==> forall t | 0 <= t < |run[i].threads| :: !(63 <= run[i].threads[t].at <= 66)
  {
    FifoUnderEveryInterleaving(run, i);
    RunKeepsInv(run, i);
    var s := run[i];
    if s.q.popLock.Held? {
      assert ThreadOk(s.q, s.q.popLock.tid, s.threads[s.q.popLock.tid]);
    }
    forall t | 0 <= t < |s.threads| && 63 <= s.threads[t].at <= 66 ensures s.q.pushLock == Held(t) {
      assert ThreadOk(s.q, t, s.threads[t]);
    }
    if forall t | 0 <= t < |s.threads| :: !(63 <= s.threads[t].at <= 66) {
      assert Uncounted(HolderAt(s, s.q.pushLock)) == 0;
    }
  }

  // ---- Runs in which one thread pushes and destroys ----

  predicate OwnerLine(at: int) {
    44 <= at <= 71 || 120 <= at <= 141
  }

  /** A step in which no thread but m makes a call of push or destroy. */
  ghost predicate OwnerStep(m: nat, s: State, t: nat, s': State) {
    Step(s, t, s') && (t != m ==> !OwnerLine(s'.threads[t].at))
  }

  ghost predicate OwnerNext(m: nat, s: State, s': State) {
    exists t: nat :: OwnerStep(m, s, t, s')
  }

  ghost predicate OwnerStepAt(m: nat, run: seq<State>, i: nat)
    requires i + 1 < |run|
  {
    OwnerNext(m, run[i], run[i + 1])
  }

  ghost predicate OwnerRun(m: nat, run: seq<State>) {
    && run != [] && Init(run[0]) && m < |run[0].threads|
    && forall i | 0 <= i < |run| - 1 :: OwnerStepAt(m, run, i)
  }

  ghost predicate OwnerOk(q: Queue, th: Thread) {
    && (q.destroyed ==> !(62 <= th.at <= 70) && (51 <= th.at <= 53 ==> th.dead))
    && (124 <= th.at <= 131 ==> q.destroyed)
    && (129 <= th.at <= 131 && th.remaining == 0 ==> q.ring.count == 0)
    && (q.freed ==> Drained(q))
  }

  ghost predicate OwnerInv(m: nat, s: State) {
    && Inv(s) && m < |s.threads|
    && (forall t | 0 <= t < |s.threads| && t != m :: !OwnerLine(s.threads[t].at))
    && OwnerOk(s.q, s.threads[m])
  }

  predicate Drained(q: Queue) {
    q.destroyed && q.ring.count == 0
  }

  /** Lines that read or write a slot, an index or count. */
  predicate TouchesRing(at: int) {
    62 <= at <= 63 || at == 66 || 103 <= at <= 104 || at == 107
  }

  lemma DrainedIsDelivered(m: nat, s: State)
    requires OwnerInv(m, s) && Drained(s.q)
    ensures s.q.ring.pushed == s.q.ring.popped
    ensures forall t | 0 <= t < |s.threads| :: !TouchesRing(s.threads[t].at) && !(103 <= s.threads[t].at <= 107)
  {
    var q := s.q;
    forall t | 0 <= t < |s.threads|
      ensures !TouchesRing(s.threads[t].at) && !(103 <= s.threads[t].at <= 107)
    {
      assert ThreadOk(q, t, s.threads[t]);
      if t != m {
        assert !OwnerLine(s.threads[t].at);
      }
    }
    if q.pushLock.Held? {
      assert ThreadOk(q, q.pushLock.tid, s.threads[q.pushLock.tid]);
      assert q.pushLock.tid == m;
    }
    if q.popLock.Held? {
      assert ThreadOk(q, q.popLock.tid, s.threads[q.popLock.tid]);
    }
  }

  /** What a thread may do once the queue is drained: never touch the ring, and never come back with
      a job unless it had already taken one. */
  ghost predicate Late(th: Thread, th': Thread) {
    Took(th'.at) ==> Took(th.at) && th'.job == th.job
  }

  predicate Took(at: int) {
    at == 109 || at == 111 || at == 112
  }

  lemma OwnPushStep(m: nat, q: Queue, th: Thread, q': Queue, th': Thread)
    requires QueueOk(q) && ThreadOk(q, m, th) && OwnerOk(q, th)
    requires PushWaitStep(m, q, th, q', th') || PushStoreStep(m, q, th, q', th')
    ensures OwnerOk(q', th')
    ensures Drained(q) ==> q'.ring == q.ring && Drained(q') && Late(th, th')
  {
  }

  lemma OwnPopStep(m: nat, q: Queue, th: Thread, q': Queue, th': Thread)
    requires QueueOk(q) && ThreadOk(q, m, th) && OwnerOk(q, th)
    requires PopWaitStep(m, q, th, q', th') || PopLoadStep(m, q, th, q', th')
    ensures OwnerOk(q', th')
    ensures Drained(q) ==> q'.ring == q.ring && Drained(q') && Late(th, th')
  {
  }

  lemma OwnDestroyStep(m: nat, q: Queue, th: Thread, q': Queue, th': Thread)
    requires QueueOk(q) && ThreadOk(q, m, th) && OwnerOk(q, th)
    requires CallStep(q, th, q', th') || DestroyStep(m, q, th, q', th')
    ensures OwnerOk(q', th')
    ensures Drained(q) ==> q'.ring == q.ring && Drained(q') && Late(th, th')
  {
  }

  /** A thread that neither pushes nor destroys is calling pop or inside it. */
  lemma WorkerPops(t: nat, q: Queue, th: Thread, q': Queue, th': Thread)
    requires ThreadStep(t, q, th, q', th') && !OwnerLine(th.at) && !OwnerLine(th'.at)
    ensures CallStep(q, th, q', th') || PopWaitStep(t, q, th, q', th') || PopLoadStep(t, q, th, q', th')
  {
  }

  lemma WorkerStep(t: nat, q: Queue, th: Thread, q': Queue, th': Thread)
    requires QueueOk(q) && ThreadOk(q, t, th) && !OwnerLine(th.at) && QueueOk(q') && Grants(t, q, q')
    requires CallStep(q, th, q', th') || PopWaitStep(t, q, th, q', th') || PopLoadStep(t, q, th, q', th')
    ensures q'.destroyed == q.destroyed && q'.freed == q.freed && 0 <= q'.ring.count <= q.ring.count
    ensures Drained(q) ==> q'.ring == q.ring && Late(th, th')
  {
  }

  lemma OwnerStepKeepsInv(m: nat, s: State, t: nat, s': State)
    requires OwnerInv(m, s) && OwnerStep(m, s, t, s')
    ensures OwnerInv(m, s')
    ensures Drained(s.q) ==> s'.q.ring == s.q.ring && Drained(s'.q)
    ensures Drained(s.q) ==> forall u | 0 <= u < |s.threads| :: Late(s.threads[u], s'.threads[u])
  {
    StepKeepsInv(s, t, s');
    assert ThreadOk(s.q, t, s.threads[t]);
    if t == m {
      var q, th, q', th' := s.q, s.threads[m], s'.q, s'.threads[m];
      if PushWaitStep(m, q, th, q', th') || PushStoreStep(m, q, th, q', th') {
        OwnPushStep(m, q, th, q', th');
      } else if PopWaitStep(m, q, th, q', th') || PopLoadStep(m, q, th, q', th') {
        OwnPopStep(m, q, th, q', th');
      } else {
        OwnDestroyStep(m, q, th, q', th');
      }
    } else {
      WorkerPops(t, s.q, s.threads[t], s'.q, s'.threads[t]);
      WorkerStep(t, s.q, s.threads[t], s'.q, s'.threads[t]);
    }
  }

  lemma {:induction false} OwnerRunKeepsInv(m: nat, run: seq<State>, i: nat)
    requires OwnerRun(m, run) && i < |run|
    ensures OwnerInv(m, run[i]) && |run[i].threads| == |run[0].threads|
  {
    if i == 0 {
      InitInv(run[0]);
    } else {
      OwnerRunKeepsInv(m, run, i - 1);
      assert OwnerStepAt(m, run, i - 1);
      var t: nat :| OwnerStep(m, run[i - 1], t, run[i]);
      OwnerStepKeepsInv(m, run[i - 1], t, run[i]);
    }
  }

  lemma {:induction false} DrainedStays(m: nat, run: seq<State>, i: nat, j: nat, u: nat)
    requires OwnerRun(m, run) && i <= j < |run| && Drained(run[i].q) && u < |run[0].threads|
    ensures Drained(run[j].q) && run[j].q.ring == run[i].q.ring
    ensures |run[i].threads| == |run[j].threads| == |run[0].threads|
    ensures Late(run[i].threads[u], run[j].threads[u])
    decreases j
  {
    OwnerRunKeepsInv(m, run, i);
    if i < j {
      DrainedStays(m, run, i, j - 1, u);
      OwnerRunKeepsInv(m, run, j - 1);
      assert OwnerStepAt(m, run, j - 1);
      var t: nat :| OwnerStep(m, run[j - 1], t, run[j]);
      OwnerStepKeepsInv(m, run[j - 1], t, run[j]);
      assert Late(run[j - 1].threads[u], run[j].threads[u]);
    }
  }

  /** If the thread that pushes is the one that destroys, then from the moment the buffer is freed
      every pushed job has gone to exactly one pop, no thread is at a line that touches the ring, the
      ring never changes again, and a pop comes back with a job only if it had taken it before. */
  lemma NothingHappensAfterDestroy(m: nat, run: seq<State>, i: nat, j: nat, t: nat)
    requires OwnerRun(m, run) && i <= j < |run| && run[i].q.freed && t < |run[0].threads|
    ensures run[j].q.ring == run[i].q.ring
    ensures run[j].q.ring.popped == run[j].q.ring.pushed
    ensures |run[i].threads| == |run[j].threads| == |run[0].threads|
    ensures !TouchesRing(run[j].threads[t].at)
    ensures run[j].threads[t].at == 112 ==>
      && run[j].threads[t].job == run[i].threads[t].job
      && run[i].threads[t].at in {109, 111, 112}
  {
    OwnerRunKeepsInv(m, run, i);
    OwnerRunKeepsInv(m, run, j);
    DrainedStays(m, run, i, j, t);
    DrainedIsDelivered(m, run[j]);
  }

  // ---- What the program does not promise ----

  function Advance(s: State, t: nat, q: Queue, th: Thread): State
    requires t < |s.threads|
  {
    State(q, s.threads[t := th])
  }

  /** Two threads and an empty queue. */
  function TwoThreads(): State {
    var th := Thread(0, 0, false, false, 0);
    State(Queue(Ring(1, [0], 0, 0, 0, [], [], 0, 0), false, false, Free, Free, Free), [th, th])
  }

  /** Thread t runs the whole of job_queue_destroy on an empty queue whose count lock is free. */
  lemma DestroyRun(s: State, t: nat) returns (run: seq<State>)
    requires t < |s.threads| && Outside(s.threads[t].at)
    requires s.q.countLock == Free && s.q.ring.count == 0
    ensures |run| == 9 && run[0] == s
    ensures forall i | 0 <= i < |run| - 1 :: Step(run[i], t, run[i + 1])
    ensures forall i | 1 <= i < 8 :: |run[i].threads| == |s.threads| && 120 <= run[i].threads[t].at <= 131
    ensures |run[1].threads| == |s.threads| && run[1].threads[t].at == 120
    ensures run[8].q == s.q.(destroyed := true, freed := true)
    ensures run[8].threads == s.threads[t := s.threads[t].(at := 141, remaining := 0)]
  {
    var q, th := s.q, s.threads[t];
    var s1 := Advance(s, t, q, th.(at := 120));
    var s2 := Advance(s1, t, q.(countLock := Held(t)), th.(at := 121));
    var s3 := Advance(s2, t, s2.q.(destroyed := true), th.(at := 124));
    var s4 := Advance(s3, t, s3.q.(countLock := Free), th.(at := 127));
    var s5 := Advance(s4, t, s4.q.(countLock := Held(t)), th.(at := 128));
    var s6 := Advance(s5, t, s5.q, th.(at := 129, remaining := 0));
    var s7 := Advance(s6, t, s6.q.(countLock := Free), th.(at := 131, remaining := 0));
    var s8 := Advance(s7, t, s7.q.(freed := true), th.(at := 141, remaining := 0));
    run := [s, s1, s2, s3, s4, s5, s6, s7, s8];
  }

  /** The condition that the pusher is the destroyer is needed: with two threads there is a run in
      which the buffer is freed while the other thread is about to write a slot of it. */
  lemma ForeignDestroyFreesUnderPush() returns (run: seq<State>)
    ensures Run(run)
    ensures var last := run[|run| - 1]; last.q.freed && |last.threads| == 2 && last.threads[0].at == 62
  {
    var s := TwoThreads();
    var q, th := s.q, s.threads[0];
    var s1 := Advance(s, 0, q, th.(at := 44));
    var s2 := Advance(s1, 0, q.(pushLock := Held(0)), th.(at := 48));
    var s3 := Advance(s2, 0, s2.q.(countLock := Held(0)), th.(at := 49));
    var s4 := Advance(s3, 0, s3.q, th.(at := 50));
    var s5 := Advance(s4, 0, s4.q, th.(at := 51));
    var s6 := Advance(s5, 0, s5.q.(countLock := Free), th.(at := 53));
    var s7 := Advance(s6, 0, s6.q, th.(at := 62));
    var first := [s, s1, s2, s3, s4, s5, s6];
    assert forall i | 0 <= i < 6 :: Step(first[i], 0, first[i + 1]);
    assert Step(s6, 0, s7);
    var rest := DestroyRun(s7, 1);
    run := first + rest;
    forall i | 0 <= i < |run| - 1 ensures StepAt(run, i) {
      if i < 7 {
        assert Step(run[i], 0, run[i + 1]);
      } else {
        assert Step(rest[i - 7], 1, rest[i - 7 + 1]);
      }
    }
  }

  /** Even when one thread pushes and destroys, the teardown does not wait for the others to leave:
      there is a run in which the locks are destroyed while another thread holds the pop lock. */
  lemma LocksDestroyedWhileHeld() returns (run: seq<State>)
    ensures OwnerRun(0, run)
    ensures var last := run[|run| - 1]; last.q.freed && last.q.popLock == Held(1)
  {
    var s := TwoThreads();
    var s1 := Advance(s, 1, s.q, s.threads[1].(at := 85));
    var s2 := Advance(s1, 1, s.q.(popLock := Held(1)), s.threads[1].(at := 88));
    assert OwnerStep(0, s, 1, s1) && OwnerStep(0, s1, 1, s2);
    var rest := DestroyRun(s2, 0);
    run := [s, s1] + rest;
    forall i | 0 <= i < |run| - 1 ensures OwnerStepAt(0, run, i) {
      if i < 2 {
        assert OwnerStep(0, run[i], 1, run[i + 1]);
      } else {
        assert Step(rest[i - 2], 0, rest[i - 2 + 1]);
        assert OwnerStep(0, run[i], 0, run[i + 1]);
      }
    }
  }
}

/** What destroy leaves behind: which threads can still reach the locks and the buffer after they are
    gone. A state is judged by its continuations, the runs that the threads may take from it. */
module Teardown {
  import opened JobQueue

  // ---- The locks ----

  /** In every state of every run the three locks are free exactly when no thread is at a line that
      holds one. */
  lemma LocksFreeIff(run: seq<State>, i: nat)
    requires Run(run) && i < |run|
    ensures var s := run[i];
      s.q.pushLock == s.q.popLock == s.q.countLock == Free
      <==> forall t | 0 <= t < |s.threads| ::
             !HoldsPush(s.threads[t].at) && !HoldsPop(s.threads[t].at) && !HoldsCount(s.threads[t].at)
  {
    RunKeepsInv(run, i);
    var s := run[i];
    forall t | 0 <= t < |s.threads| ensures ThreadOk(s.q, t, s.threads[t]) {
    }
    if s.q.pushLock.Held? {
      assert ThreadOk(s.q, s.q.pushLock.tid, s.threads[s.q.pushLock.tid]);
    }
    if s.q.popLock.Held? {
      assert ThreadOk(s.q, s.q.popLock.tid, s.threads[s.q.popLock.tid]);
    }
    if s.q.countLock.Held? {
      assert ThreadOk(s.q, s.q.countLock.tid, s.threads[s.q.countLock.tid]);
    }
  }

  /** The thread's next step locks, unlocks, waits with or destroys a lock. */
  predicate OperatesLock(th: Thread) {
    || th.at == 44 || th.at == 48 || th.at == 51 || (th.at == 53 && (th.dead || th.blocked)) || th.at == 59
    || th.at == 65 || th.at == 68 || th.at == 70
    || th.at == 85 || th.at == 88 || th.at == 91 || (th.at == 93 && th.blocked) || th.at == 99
    || th.at == 106 || th.at == 109 || th.at == 111
    || th.at == 120 || th.at == 124 || th.at == 127 || th.at == 129 || (th.at == 131 && th.remaining == 0)
  }

  /** A step of a thread that is in the middle of a call. */
  ghost predicate InsideStep(s: State, t: nat, s': State) {
    Step(s, t, s') && !Outside(s.threads[t].at)
  }

  ghost predicate InsideNext(s: State, s': State) {
    exists t: nat :: InsideStep(s, t, s')
  }

  /** Within n steps, and without a new call, some thread operates a lock. */
  ghost predicate OperatesWithin(s: State, n: nat)
    decreases n
  {
    || (exists t :: 0 <= t < |s.threads| && OperatesLock(s.threads[t]))
    || (n > 0 && exists s' :: InsideNext(s, s') && OperatesWithin(s', n - 1))
  }

  /** The step of a thread inside a call that does not operate a lock. */
  function Onward(s: State, t: nat): State
    requires t < |s.threads|
  {
    var q, th := s.q, s.threads[t];
    if th.at == 49 then Advance(s, t, q, th.(at := 50, blocked := q.ring.count == q.ring.capacity))
    else if th.at == 50 then Advance(s, t, q, th.(at := 51, dead := q.destroyed))
    else if th.at == 53 then Advance(s, t, q, th.(at := 62))
    else if th.at == 62 && 0 <= q.ring.rear < |q.ring.buffer| then
      Advance(s, t, q.(ring := Store(q.ring, th.job)), th.(at := 63))
    else if th.at == 63 && q.ring.capacity > 0 then Advance(s, t, q.(ring := AdvanceRear(q.ring)), th.(at := 65))
    else if th.at == 66 then Advance(s, t, q.(ring := Bump(q.ring)), th.(at := 68))
    else if th.at == 89 then Advance(s, t, q, th.(at := 90, blocked := q.ring.count == 0))
    else if th.at == 90 then Advance(s, t, q, th.(at := 91, dead := q.destroyed))
    else if th.at == 93 then Advance(s, t, q, th.(at := 103))
    else if th.at == 103 && 0 <= q.ring.front < |q.ring.buffer| then
      Advance(s, t, q.(ring := Load(q.ring)), th.(at := 104, job := q.ring.buffer[q.ring.front]))
    else if th.at == 104 && q.ring.capacity > 0 then Advance(s, t, q.(ring := AdvanceFront(q.ring)), th.(at := 106))
    else if th.at == 107 then Advance(s, t, q.(ring := Drop(q.ring)), th.(at := 109))
    else if th.at == 121 then Advance(s, t, q.(destroyed := true), th.(at := 124))
    else if th.at == 128 then Advance(s, t, q, th.(at := 129, remaining := q.ring.count))
    else Advance(s, t, q, th.(at := 127))
  }

  /** The lines of the calls. */
  predicate CallLine(at: int) {
    || at in {44, 48, 49, 50, 51, 53, 59, 62, 63, 65, 66, 68, 70}
    || at in {85, 88, 89, 90, 91, 93, 99, 103, 104, 106, 107, 109, 111}
    || at in {120, 121, 124, 127, 128, 129, 131}
  }

  lemma OnwardStep(s: State, t: nat)
    requires Inv(s) && t < |s.threads| && CallLine(s.threads[t].at) && !OperatesLock(s.threads[t])
    ensures InsideStep(s, t, Onward(s, t))
  {
    assert ThreadOk(s.q, t, s.threads[t]);
  }

  /** How many such steps are left. */
  function StepsToLock(at: int): nat {
    if at in {53, 93} then 4
    else if at in {62, 103, 49, 89} then 3
    else if at in {63, 104, 50, 90} then 2
    else if at in {66, 107, 121, 128, 131} then 1
    else 0
  }

  lemma {:induction false} InsideOperates(s: State, t: nat) returns (n: nat)
    requires Inv(s) && t < |s.threads| && CallLine(s.threads[t].at)
    ensures OperatesWithin(s, n)
    decreases StepsToLock(s.threads[t].at)
  {
    n := 0;
    if !OperatesLock(s.threads[t]) {
      var s' := Onward(s, t);
      OnwardStep(s, t);
      StepKeepsInv(s, t, s');
      n := InsideOperates(s', t);
      assert InsideNext(s, s');
      n := n + 1;
    }
  }

  /** Every thread is outside or at a line of a call. */
  ghost predicate LinesOk(s: State) {
    forall t | 0 <= t < |s.threads| :: Outside(s.threads[t].at) || CallLine(s.threads[t].at)
  }

  lemma StepKeepsLines(s: State, t: nat, s': State)
    requires LinesOk(s) && Step(s, t, s')
    ensures LinesOk(s')
  {
  }

  /** destroyed is set before anything is freed, and stays. */
  ghost predicate Marked(s: State) {
    && (s.q.freed ==> s.q.destroyed)
    && forall t | 0 <= t < |s.threads| && 124 <= s.threads[t].at <= 131 :: s.q.destroyed
  }

  lemma StepKeepsMarked(s: State, t: nat, s': State)
    requires Marked(s) && Step(s, t, s')
    ensures Marked(s') && (s.q.destroyed ==> s'.q.destroyed) && (s.q.freed ==> s'.q.freed)
  {
  }

  lemma {:induction false} RunKeepsLines(run: seq<State>, i: nat)
    requires Run(run) && i < |run|
    ensures Inv(run[i]) && LinesOk(run[i]) && Marked(run[i])
  {
    hide Inv, LinesOk, Marked, Init, Step;
    if i == 0 {
      InitLines(run[0]);
    } else {
      RunKeepsLines(run, i - 1);
      assert StepAt(run, i - 1);
      var t: nat :| Step(run[i - 1], t, run[i]);
      StepKeepsInv(run[i - 1], t, run[i]);
      StepKeepsLines(run[i - 1], t, run[i]);
      StepKeepsMarked(run[i - 1], t, run[i]);
    }
  }

  lemma InitLines(s: State)
    requires Init(s)
    ensures Inv(s) && LinesOk(s) && Marked(s)
  {
    InitInv(s);
  }

  lemma {:induction false} OutsideIsQuiet(s: State, n: nat)
    requires forall t | 0 <= t < |s.threads| :: Outside(s.threads[t].at)
    ensures !OperatesWithin(s, n)
  {
  }

  /** At any moment of any run, a thread can go on to operate a lock without a new call exactly when
      some thread is inside a call. Once destroy has freed the queue this is an operation on a lock
      that is no more, since nothing brings the locks back. */
  lemma LockOperatedIff(run: seq<State>, i: nat)
    requires Run(run) && i < |run|
    ensures (exists n: nat :: OperatesWithin(run[i], n))
       <==> exists t :: 0 <= t < |run[i].threads| && !Outside(run[i].threads[t].at)
  {
    hide OperatesWithin;
    RunKeepsLines(run, i);
    var s := run[i];
    if t :| 0 <= t < |s.threads| && !Outside(s.threads[t].at) {
      var n := InsideOperates(s, t);
      assert OperatesWithin(run[i], n);
    } else {
      forall n: nat ensures !OperatesWithin(s, n) {
        OutsideIsQuiet(s, n);
      }
    }
  }

  lemma {:induction false} OthersStay(run: seq<State>, m: nat, i: nat, j: nat, t: nat)
    requires i <= j < |run| && t < |run[i].threads| && t != m
    requires forall k | i <= k < j :: Step(run[k], m, run[k + 1])
    ensures |run[j].threads| == |run[i].threads| && run[j].threads[t] == run[i].threads[t]
    decreases j
  {
    if i < j {
      OthersStay(run, m, i, j - 1, t);
      assert Step(run[j - 1], m, run[j - 1 + 1]);
    }
  }

  /** The client's side of it: if every other thread is outside when m calls destroy and makes no call
      before it returns, then all locks are free on return and nobody operates one without a new call. */
  lemma QuietTeardown(run: seq<State>, m: nat, i: nat, j: nat, n: nat)
    requires Run(run) && i <= j < |run| && m < |run[i].threads| && run[i].threads[m].at == 120
    requires forall t | 0 <= t < |run[i].threads| && t != m :: Outside(run[i].threads[t].at)
    requires forall k | i <= k < j :: Step(run[k], m, run[k + 1])
    requires m < |run[j].threads| && run[j].threads[m].at == 141
    ensures run[j].q.pushLock == run[j].q.popLock == run[j].q.countLock == Free
    ensures !OperatesWithin(run[j], n)
  {
    hide OperatesWithin;
    var s := run[j];
    if i < j {
      OthersStayAll(run, m, i, j);
    }
    assert forall t | 0 <= t < |s.threads| :: Outside(s.threads[t].at);
    OutsideIsQuiet(s, n);
    LocksFreeIff(run, j);
  }

  lemma OthersStayAll(run: seq<State>, m: nat, i: nat, j: nat)
    requires i < j < |run| && m < |run[i].threads|
    requires forall k | i <= k < j :: Step(run[k], m, run[k + 1])
    ensures |run[j].threads| == |run[i].threads|
    ensures forall t | 0 <= t < |run[i].threads| && t != m :: run[j].threads[t] == run[i].threads[t]
  {
    ThreadsStay(run, m, i, j);
    forall t | 0 <= t < |run[i].threads| && t != m ensures run[j].threads[t] == run[i].threads[t] {
      OthersStay(run, m, i, j, t);
    }
  }

  lemma {:induction false} ThreadsStay(run: seq<State>, m: nat, i: nat, j: nat)
    requires i <= j < |run|
    requires forall k | i <= k < j :: Step(run[k], m, run[k + 1])
    ensures |run[j].threads| == |run[i].threads|
    decreases j
  {
    if i < j {
      ThreadsStay(run, m, i, j - 1);
      assert Step(run[j - 1], m, run[j - 1 + 1]);
    }
  }

  // ---- The buffer ----

  /** Within n steps, calls included, some thread is at a line that touches the ring. */
  ghost predicate TouchesWithin(s: State, n: nat)
    decreases n
  {
    || (exists t :: 0 <= t < |s.threads| && TouchesRing(s.threads[t].at))
    || (n > 0 && exists s' :: Next(s, s') && TouchesWithin(s', n - 1))
  }

  /** Nobody is about to store: past the store test with a job, or past it with room and no warning. */
  predicate NoStore(th: Thread) {
    !(62 <= th.at <= 66) && (51 <= th.at <= 53 ==> th.blocked || th.dead)
  }

  ghost predicate Settled(s: State) {
    Drained(s.q) && forall t | 0 <= t < |s.threads| :: NoStore(s.threads[t])
  }

  lemma SettledThread(t: nat, q: Queue, th: Thread, q': Queue, th': Thread)
    requires Drained(q) && NoStore(th) && ThreadOk(q, t, th) && ThreadStep(t, q, th, q', th')
    ensures !TouchesRing(th.at) && Drained(q') && NoStore(th') && q'.ring == q.ring
  {
    hide PushSide, PopSide;
    if PushWaitStep(t, q, th, q', th') || PushStoreStep(t, q, th, q', th') {
      SettledPush(t, q, th, q', th');
    } else if PopWaitStep(t, q, th, q', th') || PopLoadStep(t, q, th, q', th') {
      SettledPop(t, q, th, q', th');
    }
  }

  lemma SettledPush(t: nat, q: Queue, th: Thread, q': Queue, th': Thread)
    requires Drained(q) && NoStore(th)
    requires PushWaitStep(t, q, th, q', th') || PushStoreStep(t, q, th, q', th')
    ensures !TouchesRing(th.at) && Drained(q') && NoStore(th') && q'.ring == q.ring
  {
  }

  lemma SettledPop(t: nat, q: Queue, th: Thread, q': Queue, th': Thread)
    requires Drained(q) && ThreadOk(q, t, th)
    requires PopWaitStep(t, q, th, q', th') || PopLoadStep(t, q, th, q', th')
    ensures !TouchesRing(th.at) && Drained(q') && NoStore(th') && q'.ring == q.ring
  {
    hide PushSide, PopSide;
  }

  /** Every step of every thread keeps it and leaves the ring as it is. */
  lemma SettledStays(s: State, t: nat, s': State)
    requires Inv(s) && Settled(s) && Step(s, t, s')
    ensures Inv(s') && Settled(s') && s'.q.ring == s.q.ring
  {
    hide TouchesRing, ThreadStep, NoStore, Drained, ThreadOk;
    StepKeepsInv(s, t, s');
    assert ThreadOk(s.q, t, s.threads[t]);
    SettledThread(t, s.q, s.threads[t], s'.q, s'.threads[t]);
  }

  lemma {:induction false} SettledUntouched(s: State, n: nat)
    requires Inv(s) && Settled(s)
    ensures !TouchesWithin(s, n)
    decreases n
  {
    hide Step, Settled, Inv;
    NobodyTouches(s);
    if n > 0 {
      forall s' | Next(s, s') ensures !TouchesWithin(s', n - 1) {
        var t: nat :| Step(s, t, s');
        SettledStays(s, t, s');
        SettledUntouched(s', n - 1);
      }
    }
  }

  lemma NobodyTouches(s: State)
    requires Inv(s) && Settled(s)
    ensures forall t | 0 <= t < |s.threads| :: !TouchesRing(s.threads[t].at)
  {
    forall t | 0 <= t < |s.threads| ensures !TouchesRing(s.threads[t].at) {
      assert ThreadOk(s.q, t, s.threads[t]);
    }
  }

  // ---- What is not settled touches the ring ----

  /** How many steps the holder of the count lock needs to give it up. */
  function HolderRank(at: int): nat {
    if at in {49, 89} then 3 else if at in {50, 90, 121, 128} then 2 else 1
  }

  function CountRank(s: State): nat {
    if s.q.countLock.Held? && s.q.countLock.tid < |s.threads| then HolderRank(s.threads[s.q.countLock.tid].at) else 0
  }

  /** The holder's next step, when it is not one that touches the ring. */
  function HolderNext(s: State, u: nat): State
    requires u < |s.threads|
  {
    var th, free := s.threads[u], s.q.(countLock := Free);
    if th.at == 51 then Advance(s, u, free, th.(at := 53))
    else if th.at == 68 then Advance(s, u, free, th.(at := 70))
    else if th.at == 91 then Advance(s, u, free, th.(at := 93))
    else if th.at == 109 then Advance(s, u, free, th.(at := 111))
    else if th.at == 124 then Advance(s, u, free, th.(at := 127))
    else if th.at == 129 then Advance(s, u, free, th.(at := 131))
    else Onward(s, u)
  }

  lemma HolderStep(s: State, u: nat)
    requires Inv(s) && LinesOk(s) && u < |s.threads| && s.q.countLock == Held(u) && !TouchesRing(s.threads[u].at)
    ensures var s' := HolderNext(s, u);
      && Step(s, u, s') && CountRank(s') < CountRank(s)
      && s'.q.ring == s.q.ring && s'.q.pushLock == s.q.pushLock && s'.q.popLock == s.q.popLock
      && (s.q.destroyed ==> s'.q.destroyed)
  {
    assert ThreadOk(s.q, u, s.threads[u]);
    var at := s.threads[u].at;
    assert at in {49, 50, 51, 68, 89, 90, 91, 109, 121, 124, 128, 129};
  }

  /** One step back from a state that touches the ring within n steps. */
  lemma StepBack(s: State, t: nat, s': State, n: nat)
    requires Step(s, t, s') && TouchesWithin(s', n)
    ensures TouchesWithin(s, n + 1)
  {
    assert Next(s, s');
  }

  lemma TouchesNow(s: State, t: nat)
    requires t < |s.threads| && TouchesRing(s.threads[t].at)
    ensures TouchesWithin(s, 0)
  {
  }

  /** A thread that has stored its job counts it. */
  lemma {:induction false} CountsJob(s: State, t: nat) returns (n: nat)
    requires Inv(s) && LinesOk(s) && t < |s.threads| && s.threads[t].at == 65
    ensures TouchesWithin(s, n)
    decreases CountRank(s)
  {
    hide TouchesWithin, Inv, LinesOk, HolderRank, CountRank, Step, HolderNext;
    if s.q.countLock == Free {
      var s' := Advance(s, t, s.q.(countLock := Held(t)), s.threads[t].(at := 66));
      TakesCount(s, t);
      TouchesNow(s', t);
      StepBack(s, t, s', 0);
      n := 1;
    } else {
      var u := HolderKnown(s);
      if TouchesRing(s.threads[u].at) {
        TouchesNow(s, u);
        n := 0;
      } else {
        var s' := HolderNext(s, u);
        HolderStep(s, u);
        OtherStays(s, u, s', t);
        assert t != u;
        n := CountsJob(s', t);
        StepBack(s, u, s', n);
        n := n + 1;
      }
    }
  }

  lemma TakesCount(s: State, t: nat)
    requires t < |s.threads| && s.threads[t].at == 65 && s.q.countLock == Free
    ensures Step(s, t, Advance(s, t, s.q.(countLock := Held(t)), s.threads[t].(at := 66)))
  {
  }

  lemma HolderKnown(s: State) returns (u: nat)
    requires Inv(s) && s.q.countLock != Free
    ensures u < |s.threads| && s.q.countLock == Held(u) && HoldsCount(s.threads[u].at)
  {
    u := s.q.countLock.tid;
    assert ThreadOk(s.q, u, s.threads[u]);
  }

  lemma OtherStays(s: State, u: nat, s': State, t: nat)
    requires Inv(s) && LinesOk(s) && Step(s, u, s') && t < |s.threads|
    ensures Inv(s') && LinesOk(s') && |s'.threads| == |s.threads| && (t != u ==> s'.threads[t] == s.threads[t])
  {
    StepKeepsInv(s, u, s');
    StepKeepsLines(s, u, s');
  }

  /** How far the holder of the pop lock is from the ring, by way of giving up the lock if it must. */
  function PopperRank(th: Thread): nat {
    if th.at == 88 then 5
    else if th.at == 89 then 4
    else if th.at == 90 then if th.blocked then 23 else 3
    else if th.at == 91 then if th.blocked then 22 else 2
    else if th.at == 93 then if th.blocked then 21 else 1
    else if th.at == 106 then 1
    else if th.at == 109 then 20
    else if th.at == 111 then 19
    else 0
  }

  function PopRank(s: State, m: nat): nat
    requires m < |s.threads|
  {
    if s.q.popLock.Held? && s.q.popLock.tid < |s.threads| then PopperRank(s.threads[s.q.popLock.tid])
    else if s.threads[m].at == 85 then 6 else 7
  }

  /** m can pop: it is outside or at the start of a pop, or it has the pop lock and has seen no empty
      queue. */
  predicate CanPop(s: State, m: nat) {
    && m < |s.threads|
    && var th := s.threads[m];
       || Outside(th.at) || th.at == 85
       || (s.q.popLock == Held(m) && (th.at in {88, 89, 103} || (th.at in {90, 91, 93} && !th.blocked)))
  }

  /** The next step of the holder of the pop lock when the count lock is free. */
  function PopperNext(s: State, u: nat): State
    requires u < |s.threads|
  {
    var q, th := s.q, s.threads[u];
    if th.at == 88 then Advance(s, u, q.(countLock := Held(u)), th.(at := 89))
    else if th.at == 106 then Advance(s, u, q.(countLock := Held(u)), th.(at := 107))
    else if th.at == 111 then Advance(s, u, q.(popLock := Free), th.(at := 112))
    else if !th.blocked then Advance(s, u, q, th.(at := 103))
    else if th.dead then Advance(s, u, q.(popLock := Free), th.(at := 95))
    else Advance(s, u, q.(popLock := Free), th.(at := 99))
  }

  /** A step towards the ring: it does not touch it and leaves m able to pop. */
  ghost predicate Closer(s: State, s': State, m: nat) {
    && CanPop(s, m) && CanPop(s', m) && s'.q.ring == s.q.ring
    && 4 * PopRank(s', m) + CountRank(s') < 4 * PopRank(s, m) + CountRank(s)
  }

  lemma PopperStep(s: State, u: nat, m: nat)
    requires Inv(s) && LinesOk(s) && u < |s.threads| && s.q.popLock == Held(u) && s.q.countLock == Free
    requires CanPop(s, m) && !TouchesRing(s.threads[u].at)
    ensures Step(s, u, PopperNext(s, u)) && Closer(s, PopperNext(s, u), m)
  {
    assert ThreadOk(s.q, u, s.threads[u]) && ThreadOk(s.q, m, s.threads[m]);
    assert s.threads[u].at in {88, 93, 106, 111};
  }

  /** Nobody has the pop lock: m starts a pop, or takes the lock. */
  function IdleNext(s: State, m: nat): State
    requires m < |s.threads|
  {
    if s.threads[m].at == 85 then Advance(s, m, s.q.(popLock := Held(m)), s.threads[m].(at := 88))
    else Advance(s, m, s.q, s.threads[m].(at := 85))
  }

  lemma IdleStep(s: State, m: nat)
    requires CanPop(s, m) && s.q.popLock == Free && s.q.countLock == Free
    ensures Step(s, m, IdleNext(s, m)) && Closer(s, IdleNext(s, m), m)
  {
  }

  /** The holder of the count lock gives way, or is the popper itself and goes on. */
  lemma GivesWay(s: State, u: nat, m: nat)
    requires Inv(s) && LinesOk(s) && u < |s.threads| && s.q.countLock == Held(u) && !TouchesRing(s.threads[u].at)
    requires CanPop(s, m) && 0 < s.q.ring.count
    ensures Closer(s, HolderNext(s, u), m)
  {
    hide HolderRank, CountRank;
    HolderStep(s, u);
    HolderPopRank(s, u, m);
  }

  lemma HolderPopRank(s: State, u: nat, m: nat)
    requires Inv(s) && LinesOk(s) && u < |s.threads| && s.q.countLock == Held(u) && !TouchesRing(s.threads[u].at)
    requires CanPop(s, m) && 0 < s.q.ring.count
    ensures var s' := HolderNext(s, u); CanPop(s', m) && PopRank(s', m) <= PopRank(s, m)
  {
    hide RingOk, PushSide, PopSide, QueueOk, Known;
    assert ThreadOk(s.q, u, s.threads[u]) && ThreadOk(s.q, m, s.threads[m]);
    assert s.threads[u].at in {49, 50, 51, 68, 89, 90, 91, 109, 121, 124, 128, 129};
  }

  lemma PopperKnown(s: State) returns (u: nat)
    requires Inv(s) && s.q.popLock != Free
    ensures u < |s.threads| && s.q.popLock == Held(u)
  {
    u := s.q.popLock.tid;
  }

  /** The step that brings some thread closer to the ring, and who takes it. */
  lemma CloserStep(s: State, m: nat) returns (u: nat, s': State)
    requires Inv(s) && LinesOk(s) && CanPop(s, m) && 0 < s.q.ring.count
    requires forall t | 0 <= t < |s.threads| :: !TouchesRing(s.threads[t].at)
    ensures Step(s, u, s') && Closer(s, s', m)
  {
    hide Inv, LinesOk, CanPop, Closer, Step, HolderNext, PopperNext, IdleNext, TouchesRing;
    CanPopIsThread(s, m);
    if s.q.countLock != Free {
      u := HolderKnown(s);
      s' := HolderNext(s, u);
      HolderStep(s, u);
      GivesWay(s, u, m);
    } else if s.q.popLock != Free {
      u := PopperKnown(s);
      s' := PopperNext(s, u);
      PopperStep(s, u, m);
    } else {
      u, s' := m, IdleNext(s, m);
      IdleStep(s, m);
    }
  }

  lemma CanPopIsThread(s: State, m: nat)
    requires CanPop(s, m)
    ensures m < |s.threads|
  {
  }

  /** A job that is still counted can be popped. */
  lemma {:induction false} PopsJob(s: State, m: nat) returns (n: nat)
    requires Inv(s) && LinesOk(s) && CanPop(s, m) && 0 < s.q.ring.count
    ensures TouchesWithin(s, n)
    decreases if m < |s.threads| then 4 * PopRank(s, m) + CountRank(s) else 0
  {
    hide TouchesWithin, Inv, LinesOk, CanPop, PopRank, CountRank, Step;
    if t :| 0 <= t < |s.threads| && TouchesRing(s.threads[t].at) {
      TouchesNow(s, t);
      n := 0;
    } else {
      var u, s' := CloserStep(s, m);
      StepWithin(s, u, s');
      CanPopIsThread(s, m);
      CanPopIsThread(s', m);
      n := PopsJob(s', m);
      StepBack(s, u, s', n);
      n := n + 1;
    }
  }

  lemma StepWithin(s: State, u: nat, s': State)
    requires Inv(s) && LinesOk(s) && Step(s, u, s')
    ensures Inv(s') && LinesOk(s')
  {
    StepKeepsInv(s, u, s');
    StepKeepsLines(s, u, s');
  }

  /** A thread that has seen room and no warning stores its job. */
  lemma StoresJob(s: State, t: nat) returns (n: nat)
    requires Inv(s) && LinesOk(s) && t < |s.threads| && !NoStore(s.threads[t])
    ensures TouchesWithin(s, n)
  {
    hide TouchesWithin, Inv;
    var th := s.threads[t];
    if TouchesRing(th.at) {
      TouchesNow(s, t);
      n := 0;
    } else if th.at == 65 {
      n := CountsJob(s, t);
    } else {
      var s1 := if th.at == 51 then Advance(s, t, s.q.(countLock := Free), th.(at := 53)) else s;
      var s2 := Advance(s1, t, s1.q, th.(at := 62));
      assert Step(s1, t, s2);
      TouchesNow(s2, t);
      StepBack(s1, t, s2, 0);
      n := 1;
      if th.at == 51 {
        StepBack(s, t, s1, 1);
        n := 2;
      }
    }
  }

  /** Once destroy has freed the buffer, under any client: no continuation, whatever calls it makes, ever
      comes to a line that touches the ring, exactly when the count is zero and no thread is about to
      store or to count a job. */
  lemma BufferSafeIff(run: seq<State>, i: nat, m: nat)
    requires Run(run) && i < |run| && run[i].q.freed && m < |run[i].threads| && Outside(run[i].threads[m].at)
    ensures (forall n: nat :: !TouchesWithin(run[i], n))
       <==> run[i].q.ring.count == 0 && forall t | 0 <= t < |run[i].threads| :: NoStore(run[i].threads[t])
  {
    hide TouchesWithin, LinesOk, NoStore;
    RunKeepsLines(run, i);
    var s := run[i];
    if t :| 0 <= t < |s.threads| && !NoStore(s.threads[t]) {
      var n := StoresJob(s, t);
      assert TouchesWithin(run[i], n);
    } else if s.q.ring.count != 0 {
      var n := PopsJob(s, m);
      assert TouchesWithin(run[i], n);
    } else {
      forall n: nat ensures !TouchesWithin(s, n) {
        SettledUntouched(s, n);
      }
    }
  }
}

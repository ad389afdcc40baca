/** A thread that makes a call and is left alone: what the steps of push and pop add up to. */
module Alone {
  import opened JobQueue

  /** A run of steps of one thread. */
  ghost predicate AloneRun(run: seq<State>, t: nat) {
    run != [] && forall i | 0 <= i < |run| - 1 :: Step(run[i], t, run[i + 1])
  }

  function Last(run: seq<State>): State
    requires run != []
  {
    run[|run| - 1]
  }

  lemma Joined(a: seq<State>, b: seq<State>, t: nat)
    requires AloneRun(a, t) && AloneRun(b, t) && Last(a) == b[0]
    ensures AloneRun(a + b[1..], t) && (a + b[1..])[0] == a[0] && Last(a + b[1..]) == Last(b)
  {
    hide Step;
    var c := a + b[1..];
    forall i | 0 <= i < |c| - 1 ensures Step(c[i], t, c[i + 1]) {
      if i < |a| - 1 {
        assert c[i] == a[i] && c[i + 1] == a[i + 1];
      } else {
        var j := i - (|a| - 1);
        assert c[i] == b[j] && c[i + 1] == b[j + 1];
      }
    }
  }

  /** Inside a call the next step of a thread is fixed, so a run alone is the only one up to the return. */
  lemma OneWayOn(s: State, t: nat, a: State, b: State)
    requires Step(s, t, a) && Step(s, t, b) && !Outside(s.threads[t].at)
    ensures a == b
  {
    hide ThreadStep;
    ThreadOneWay(t, s.q, s.threads[t], a.q, a.threads[t], b.q, b.threads[t]);
    assert a.threads == s.threads[t := a.threads[t]] && b.threads == s.threads[t := b.threads[t]];
  }

  lemma ThreadOneWay(t: nat, q: Queue, th: Thread, q1: Queue, th1: Thread, q2: Queue, th2: Thread)
    requires ThreadStep(t, q, th, q1, th1) && ThreadStep(t, q, th, q2, th2) && !Outside(th.at)
    ensures q1 == q2 && th1 == th2
  {
    if th.at < 80 {
      PushOneWay(t, q, th, q1, th1, q2, th2);
    } else if th.at < 115 {
      PopOneWay(t, q, th, q1, th1, q2, th2);
    } else {
      DestroyOneWay(t, q, th, q1, th1, q2, th2);
    }
  }

  lemma PushOneWay(t: nat, q: Queue, th: Thread, q1: Queue, th1: Thread, q2: Queue, th2: Thread)
    requires PushWaitStep(t, q, th, q1, th1) || PushStoreStep(t, q, th, q1, th1)
    requires PushWaitStep(t, q, th, q2, th2) || PushStoreStep(t, q, th, q2, th2)
    ensures q1 == q2 && th1 == th2
  {
  }

  lemma PopOneWay(t: nat, q: Queue, th: Thread, q1: Queue, th1: Thread, q2: Queue, th2: Thread)
    requires PopWaitStep(t, q, th, q1, th1) || PopLoadStep(t, q, th, q1, th1)
    requires PopWaitStep(t, q, th, q2, th2) || PopLoadStep(t, q, th, q2, th2)
    ensures q1 == q2 && th1 == th2
  {
  }

  lemma DestroyOneWay(t: nat, q: Queue, th: Thread, q1: Queue, th1: Thread, q2: Queue, th2: Thread)
    requires DestroyStep(t, q, th, q1, th1) && DestroyStep(t, q, th, q2, th2)
    ensures q1 == q2 && th1 == th2
  {
  }

  // ---- pop ----

  /** From the call to the test, with what the thread has seen. */
  lemma PopLooks(s: State, t: nat) returns (run: seq<State>)
    requires t < |s.threads| && Outside(s.threads[t].at) && s.q.popLock == Free && s.q.countLock == Free
    ensures AloneRun(run, t) && run[0] == s
    ensures Last(run) == Advance(s, t, s.q.(popLock := Held(t)),
                                 s.threads[t].(at := 93, blocked := s.q.ring.count == 0, dead := s.q.destroyed))
  {
    var q, th := s.q, s.threads[t];
    hide PushWaitStep, PushStoreStep, PopLoadStep, DestroyStep;
    var p := q.(popLock := Held(t));
    var c := p.(countLock := Held(t));
    var seen := th.(blocked := q.ring.count == 0);
    run := [s, Advance(s, t, q, th.(at := 85)), Advance(s, t, p, th.(at := 88)), Advance(s, t, c, th.(at := 89)),
            Advance(s, t, c, seen.(at := 90)), Advance(s, t, c, seen.(at := 91, dead := q.destroyed)),
            Advance(s, t, p, seen.(at := 93, dead := q.destroyed))];
  }

  /** From the test to the return with a job. */
  lemma PopTakes(s: State, t: nat) returns (run: seq<State>)
    requires t < |s.threads| && s.threads[t].at == 93 && !s.threads[t].blocked && s.q.countLock == Free
    requires s.q.ring.capacity > 0 && 0 <= s.q.ring.front < |s.q.ring.buffer|
    ensures AloneRun(run, t) && run[0] == s
    ensures var r := s.q.ring; Last(run) == Advance(s, t, s.q.(ring := Drop(AdvanceFront(Load(r))), popLock := Free),
                                                    s.threads[t].(at := 112, job := r.buffer[r.front]))
  {
    var q, th := s.q, s.threads[t];
    hide PushWaitStep, PushStoreStep, DestroyStep, CallStep;
    var r1 := Load(q.ring);
    var r2 := AdvanceFront(r1);
    var got := th.(job := q.ring.buffer[q.ring.front]);
    var q1, q2, q3 := q.(ring := r1), q.(ring := r2), q.(ring := Drop(r2));
    run := [s, Advance(s, t, q, th.(at := 103)), Advance(s, t, q1, got.(at := 104)), Advance(s, t, q2, got.(at := 106)),
            Advance(s, t, q2.(countLock := Held(t)), got.(at := 107)), Advance(s, t, q3.(countLock := Held(t)), got.(at := 109)),
            Advance(s, t, q3, got.(at := 111)), Advance(s, t, q3.(popLock := Free), got.(at := 112))];
  }

  /** From the test to the return with -1, or to the wait. */
  lemma PopLeaves(s: State, t: nat) returns (run: seq<State>)
    requires t < |s.threads| && s.threads[t].at == 93 && s.threads[t].blocked
    ensures AloneRun(run, t) && run[0] == s
    ensures Last(run) == Advance(s, t, s.q.(popLock := Free), s.threads[t].(at := if s.threads[t].dead then 95 else 99))
  {
    run := [s, Advance(s, t, s.q.(popLock := Free), s.threads[t].(at := if s.threads[t].dead then 95 else 99))];
  }

  /** A pop that is left alone returns the oldest job if there is one. On an empty queue it returns -1 when the
      queue is destroyed, and waits when it is not. */
  lemma PopAlone(s: State, t: nat) returns (run: seq<State>)
    requires Inv(s) && t < |s.threads| && Outside(s.threads[t].at) && s.q.popLock == Free && s.q.countLock == Free
    ensures AloneRun(run, t) && run[0] == s && |Last(run).threads| == |s.threads|
    ensures forall u | 0 <= u < |s.threads| && u != t :: Last(run).threads[u] == s.threads[u]
    ensures
      var r, q', th' := s.q.ring, Last(run).q, Last(run).threads[t];
      if r.count > 0 then
        && |r.popped| < |r.pushed| && th'.at == 112 && th'.job == r.pushed[|r.popped|]
        && q'.ring.pushed == r.pushed && q'.ring.popped == r.popped + [th'.job] && q'.ring.count == r.count - 1
        && q' == s.q.(ring := q'.ring)
      else
        th'.at == (if s.q.destroyed then 95 else 99) && q' == s.q
  {
    var looks := PopLooks(s, t);
    var m := Last(looks);
    if s.q.ring.count > 0 {
      LoadOk(s.q.ring);
      var takes := PopTakes(m, t);
      Joined(looks, takes, t);
      run := looks + takes[1..];
    } else {
      var leaves := PopLeaves(m, t);
      Joined(looks, leaves, t);
      run := looks + leaves[1..];
    }
  }

  // ---- push ----

  lemma PushLooks(s: State, t: nat, job: Job) returns (run: seq<State>)
    requires t < |s.threads| && Outside(s.threads[t].at) && s.q.pushLock == Free && s.q.countLock == Free
    ensures AloneRun(run, t) && run[0] == s
    ensures Last(run) == Advance(s, t, s.q.(pushLock := Held(t)),
              s.threads[t].(at := 53, job := job, blocked := s.q.ring.count == s.q.ring.capacity, dead := s.q.destroyed))
  {
    var q, th := s.q, s.threads[t].(job := job);
    hide PopWaitStep, PushStoreStep, PopLoadStep, DestroyStep;
    var p := q.(pushLock := Held(t));
    var c := p.(countLock := Held(t));
    var seen := th.(blocked := q.ring.count == q.ring.capacity);
    run := [s, Advance(s, t, q, th.(at := 44)), Advance(s, t, p, th.(at := 48)), Advance(s, t, c, th.(at := 49)),
            Advance(s, t, c, seen.(at := 50)), Advance(s, t, c, seen.(at := 51, dead := q.destroyed)),
            Advance(s, t, p, seen.(at := 53, dead := q.destroyed))];
  }

  lemma PushPuts(s: State, t: nat) returns (run: seq<State>)
    requires t < |s.threads| && s.threads[t].at == 53 && !s.threads[t].blocked && !s.threads[t].dead && s.q.countLock == Free
    requires s.q.ring.capacity > 0 && 0 <= s.q.ring.rear < |s.q.ring.buffer|
    ensures AloneRun(run, t) && run[0] == s
    ensures Last(run) == Advance(s, t, s.q.(ring := Bump(AdvanceRear(Store(s.q.ring, s.threads[t].job))), pushLock := Free),
                                 s.threads[t].(at := 71))
  {
    var q, th := s.q, s.threads[t];
    hide PopWaitStep, PopLoadStep, DestroyStep, CallStep;
    var r1 := Store(q.ring, th.job);
    var r2 := AdvanceRear(r1);
    var q1, q2, q3 := q.(ring := r1), q.(ring := r2), q.(ring := Bump(r2));
    run := [s, Advance(s, t, q, th.(at := 62)), Advance(s, t, q1, th.(at := 63)), Advance(s, t, q2, th.(at := 65)),
            Advance(s, t, q2.(countLock := Held(t)), th.(at := 66)), Advance(s, t, q3.(countLock := Held(t)), th.(at := 68)),
            Advance(s, t, q3, th.(at := 70)), Advance(s, t, q3.(pushLock := Free), th.(at := 71))];
  }

  lemma PushLeaves(s: State, t: nat) returns (run: seq<State>)
    requires t < |s.threads| && s.threads[t].at == 53 && (s.threads[t].blocked || s.threads[t].dead)
    ensures AloneRun(run, t) && run[0] == s
    ensures Last(run) == Advance(s, t, s.q.(pushLock := Free), s.threads[t].(at := if s.threads[t].dead then 55 else 59))
  {
    run := [s, Advance(s, t, s.q.(pushLock := Free), s.threads[t].(at := if s.threads[t].dead then 55 else 59))];
  }

  /** A push that is left alone returns -1 when the queue is destroyed, and otherwise appends its job if there
      is room and waits if there is none. */
  lemma PushAlone(s: State, t: nat, job: Job) returns (run: seq<State>)
    requires Inv(s) && t < |s.threads| && Outside(s.threads[t].at) && s.q.pushLock == Free && s.q.countLock == Free
    ensures AloneRun(run, t) && run[0] == s && |Last(run).threads| == |s.threads|
    ensures forall u | 0 <= u < |s.threads| && u != t :: Last(run).threads[u] == s.threads[u]
    ensures
      var r, q', th' := s.q.ring, Last(run).q, Last(run).threads[t];
      if s.q.destroyed then th'.at == 55 && q' == s.q
      else if r.count == r.capacity then th'.at == 59 && q' == s.q
      else
        && th'.at == 71 && q' == s.q.(ring := q'.ring)
        && q'.ring.pushed == r.pushed + [job] && q'.ring.popped == r.popped && q'.ring.count == r.count + 1
  {
    var looks := PushLooks(s, t, job);
    var m := Last(looks);
    if !s.q.destroyed && s.q.ring.count < s.q.ring.capacity {
      StoreOk(s.q.ring, job);
      var puts := PushPuts(m, t);
      Joined(looks, puts, t);
      run := looks + puts[1..];
    } else {
      var leaves := PushLeaves(m, t);
      Joined(looks, leaves, t);
      run := looks + leaves[1..];
    }
  }
}

/** The queue's fields as the program updates them, one critical section at a time. Each section has
    the effect on the ring that module JobQueue gives its steps, and a whole call is
    a first-in-first-out queue operation, or has to wait. */
module RingBuffer {
  import opened JobQueue

  /** How a call ends when no other thread takes a step: it returns a status, or it has to wait. */
  datatype Result = Returns(status: int) | Waits

  class Fields {
    var buffer: array<Job>
    var capacity: nat
    var count: int
    var front: int
    var rear: int
    var destroyed: bool
    ghost var pushed: seq<Job>
    ghost var popped: seq<Job>
    ghost var ins: nat
    ghost var outs: nat

    /** The ring these fields stand for. */
    ghost function Value(): Ring
      reads this, buffer
    {
      Ring(capacity, buffer[..], count, front, rear, pushed, popped, ins, outs)
    }

    /** Nobody is in the middle of a call. */
    ghost predicate Quiet()
      reads this, buffer
    {
      RingOk(Value()) && PushSide(Value(), 0, 0) && PopSide(Value(), 0, 0)
    }

    /** The jobs in the queue, oldest first. */
    ghost function Jobs(): seq<Job>
      requires |popped| <= |pushed|
      reads this
    {
      pushed[|popped|..]
    }

    /** job_queue_init */
    constructor (capacity: nat)
      requires capacity > 0
      ensures fresh(buffer) && Quiet() && !destroyed && this.capacity == capacity
      ensures Jobs() == []
    {
      buffer := new Job[capacity](_ => 0);
      this.capacity := capacity;
      count, front, rear, destroyed := 0, 0, 0, false;
      pushed, popped, ins, outs := [], [], 0, 0;
    }

    /** Under the push lock: write the slot and move rear. */
    method StoreSlot(data: Job)
      requires RingOk(Value()) && PushSide(Value(), 0, 0) && count < capacity
      modifies this`rear, this`pushed, buffer
      ensures Value() == AdvanceRear(Store(old(Value()), data))
      ensures RingOk(Value()) && PushSide(Value(), 1, 0)
    {
      StoreOk(Value(), data);
      AdvanceRearOk(Store(Value(), data));
      buffer[rear] := data;
      pushed := pushed + [data];
      rear := (rear + 1) % capacity;
    }

    /** Under the count lock: one job more. */
    method CountUp()
      requires RingOk(Value()) && PushSide(Value(), 1, 0) && count < capacity
      modifies this`count, this`ins
      ensures Value() == Bump(old(Value()))
      ensures RingOk(Value()) && PushSide(Value(), 0, 0)
    {
      BumpOk(Value());
      count := count + 1;
      ins := ins + 1;
    }

    /** Under the pop lock: read the slot and move front. */
    method LoadSlot() returns (data: Job)
      requires RingOk(Value()) && PopSide(Value(), 0, 0) && 0 < count
      modifies this`front, this`popped
      ensures Value() == AdvanceFront(Load(old(Value())))
      ensures RingOk(Value()) && PopSide(Value(), 1, 0) && popped == old(popped) + [data]
    {
      LoadOk(Value());
      AdvanceFrontOk(Load(Value()));
      data := buffer[front];
      popped := popped + [data];
      front := (front + 1) % capacity;
    }

    /** Under the count lock: one job less. */
    method CountDown()
      requires RingOk(Value()) && PopSide(Value(), 1, 0) && 0 < count
      modifies this`count, this`outs
      ensures Value() == Drop(old(Value()))
      ensures RingOk(Value()) && PopSide(Value(), 0, 0)
    {
      DropOk(Value());
      count := count - 1;
      outs := outs + 1;
    }

    /** job_queue_push by a thread that nobody else disturbs: it waits on a full queue, and then nothing
        changes. */
    method Push(data: Job) returns (result: Result)
      requires Quiet()
      modifies this`rear, this`count, this`pushed, this`ins, buffer
      ensures Quiet() && count == |Jobs()|
      ensures result == if destroyed then Returns(-1) else if |old(Jobs())| == capacity then Waits else Returns(0)
      ensures Jobs() == if result == Returns(0) then old(Jobs()) + [data] else old(Jobs())
    {
      if destroyed {
        return Returns(-1);
      }
      if count == capacity {
        return Waits;
      }
      StoreSlot(data);
      CountUp();
      return Returns(0);
    }

    /** job_queue_pop by such a thread: it waits on an empty queue, and a destroyed queue still hands out
        what is in it. */
    method Pop() returns (result: Result, data: Job)
      requires Quiet()
      modifies this`front, this`count, this`popped, this`outs
      ensures Quiet() && count == |Jobs()|
      ensures result == if old(Jobs()) != [] then Returns(0) else if destroyed then Returns(-1) else Waits
      ensures if old(Jobs()) == [] then Jobs() == [] else old(Jobs()) == [data] + Jobs()
    {
      if count == 0 {
        return if destroyed then Returns(-1) else Waits, 0;
      }
      data := LoadSlot();
      CountDown();
      return Returns(0), data;
    }
  }
}

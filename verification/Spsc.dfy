/** The single-producer single-consumer ring buffer: the object, and two threads interleaving its atomic
    loads, stores and slot accesses. */
module Spsc {
  import opened Modular
  import opened Options

  // ---------- The object, used by one thread at a time ----------

  class SpscRingBuffer<T(0)> {
    const capacity: nat
    const storage: array<T>
    var head: nat
    var tail: nat

    ghost predicate Valid()
      reads this
    {
      capacity > 0 && storage.Length == capacity + 1 && head < storage.Length && tail < storage.Length
    }

    ghost function Length(): (n: nat)
      requires Valid()
      reads this
      ensures n <= capacity
    {
      if tail <= head then head - tail else head + storage.Length - tail
    }

    // The slot of the i-th element.
    ghost function Slot(i: nat): (k: nat)
      requires Valid() && i <= capacity
      reads this
      ensures k < storage.Length
    {
      if tail + i < storage.Length then tail + i else tail + i - storage.Length
    }

    ghost function Contents(): (s: seq<T>)
      requires Valid()
      reads this, storage
      ensures |s| == Length()
    {
      seq(Length(), i requires Valid() && 0 <= i < Length() reads this, storage => storage[Slot(i)])
    }

    constructor (capacity: nat)
      requires capacity > 0
      ensures Valid() && this.capacity == capacity && Contents() == [] && fresh(storage)
    {
      this.capacity := capacity;
      storage := new T[capacity + 1];
      head, tail := 0, 0;
    }

    function Increment(index: nat): nat
      requires capacity > 0
    {
      (index + 1) % (capacity + 1)
    }

    /** Appends unless the buffer holds capacity elements. */
    method TryPush(value: T) returns (ok: bool)
      requires Valid()
      modifies this`head, storage
      ensures Valid()
      ensures ok == (|old(Contents())| < capacity)
      ensures Contents() == old(Contents()) + if ok then [value] else []
    {
      Wraps(head, storage.Length);
      var next := Increment(head);
      if next == tail {
        return false;
      }
      storage[head] := value;
      head := next;
      assert Length() == old(Length()) + 1;
      forall i | 0 <= i < old(Length()) ensures Contents()[i] == old(Contents())[i] {
        assert Slot(i) == old(Slot(i));
      }
      return true;
    }

    /** Removes and returns the oldest element, if there is one. */
    method TryPop() returns (value: Option<T>)
      requires Valid()
      modifies this`tail
      ensures Valid()
      ensures old(Contents()) == (if value.Some? then [value.value] else []) + Contents()
      ensures value.None? == (old(Contents()) == [])
    {
      if tail == head {
        return None;
      }
      Wraps(tail, storage.Length);
      var oldest := storage[tail];
      tail := Increment(tail);
      forall i | 0 <= i < Length() ensures Contents()[i] == old(Contents())[i + 1] {
        assert Slot(i) == old(Slot(i + 1));
      }
      return Some(oldest);
    }

    predicate Empty()
      requires Valid()
      reads this, storage
      ensures Empty() == (Contents() == [])
    {
      head == tail
    }
  }

  // ---------- Two threads ----------

  // Where the producer is in try_push, with its local copies: head loaded; not full; slot written.
  datatype Producer<T> =
    | ProducerIdle
    | HeadLoaded(value: T, head: nat)
    | Writing(value: T, head: nat)
    | Written(value: T, head: nat)

  // Where the consumer is in try_pop: tail loaded; not empty; slot read.
  datatype Consumer<T> =
    | ConsumerIdle
    | TailLoaded(tail: nat)
    | Reading(tail: nat)
    | Read(value: T, tail: nat)

  /** The shared memory and both threads. History: pushed and popped are the values whose index store is
      done. */
  datatype Ring<T> = Ring(
    storage: seq<T>, head: nat, tail: nat, producer: Producer<T>, consumer: Consumer<T>,
    pushed: seq<T>, popped: seq<T>)

  datatype RingStep<T> =
    | PushStart(value: T)   // load head
    | PushCheck             // load tail: full, or go on
    | PushWrite             // the slot
    | PushPublish           // store head
    | PopStart              // load tail
    | PopCheck              // load head: empty, or go on
    | PopRead               // the slot
    | PopPublish            // store tail

  function Increment(index: nat, slots: nat): nat
    requires slots > 0
  {
    (index + 1) % slots
  }

  predicate RingEnabled<T>(s: Ring<T>, e: RingStep<T>) {
    match e
    case PushStart(_) => s.producer.ProducerIdle?
    case PushCheck => s.producer.HeadLoaded?
    case PushWrite => s.producer.Writing? && s.producer.head < |s.storage|
    case PushPublish => s.producer.Written?
    case PopStart => s.consumer.ConsumerIdle?
    case PopCheck => s.consumer.TailLoaded?
    case PopRead => s.consumer.Reading? && s.consumer.tail < |s.storage|
    case PopPublish => s.consumer.Read?
  }

  // The check of a push found the buffer full, and the check of a pop found it empty.
  predicate SeesFull<T>(s: Ring<T>)
    requires s.producer.HeadLoaded? && |s.storage| > 0
  {
    Increment(s.producer.head, |s.storage|) == s.tail
  }

  predicate SeesEmpty<T>(s: Ring<T>)
    requires s.consumer.TailLoaded?
  {
    s.consumer.tail == s.head
  }

  function RingNext<T>(s: Ring<T>, e: RingStep<T>): Ring<T>
    requires RingEnabled(s, e) && |s.storage| > 0
  {
    match e
    case PushStart(v) => s.(producer := HeadLoaded(v, s.head))
    case PushCheck =>
      if SeesFull(s) then s.(producer := ProducerIdle)
      else s.(producer := Writing(s.producer.value, s.producer.head))
    case PushWrite =>
      s.(storage := s.storage[s.producer.head := s.producer.value],
         producer := Written(s.producer.value, s.producer.head))
    case PushPublish =>
      s.(head := Increment(s.producer.head, |s.storage|), producer := ProducerIdle,
         pushed := s.pushed + [s.producer.value])
    case PopStart => s.(consumer := TailLoaded(s.tail))
    case PopCheck =>
      if SeesEmpty(s) then s.(consumer := ConsumerIdle) else s.(consumer := Reading(s.consumer.tail))
    case PopRead => s.(consumer := Read(s.storage[s.consumer.tail], s.consumer.tail))
    case PopPublish =>
      s.(tail := Increment(s.consumer.tail, |s.storage|), consumer := ConsumerIdle,
         popped := s.popped + [s.consumer.value])
  }

  predicate RingInitial<T>(s: Ring<T>, capacity: nat) {
    && capacity > 0 && |s.storage| == capacity + 1 && s.head == 0 && s.tail == 0
    && s.producer.ProducerIdle? && s.consumer.ConsumerIdle? && s.pushed == [] && s.popped == []
  }

  // The queue the buffer stands for.
  function Queue<T>(s: Ring<T>): seq<T>
    requires |s.popped| <= |s.pushed|
  {
    s.pushed[|s.popped|..]
  }

  // ---------- The invariant ----------

  ghost predicate ProducerSound<T>(s: Ring<T>) {
    match s.producer
    case ProducerIdle => true
    case HeadLoaded(_, head) => head == s.head
    case Writing(_, head) => head == s.head && |s.pushed| - |s.popped| < |s.storage| - 1
    case Written(v, head) =>
      head == s.head && head < |s.storage| && |s.pushed| - |s.popped| < |s.storage| - 1 && s.storage[head] == v
  }

  ghost predicate ConsumerSound<T>(s: Ring<T>) {
    match s.consumer
    case ConsumerIdle => true
    case TailLoaded(tail) => tail == s.tail
    case Reading(tail) => tail == s.tail && |s.popped| < |s.pushed|
    case Read(v, tail) => tail == s.tail && |s.popped| < |s.pushed| && v == s.pushed[|s.popped|]
  }

  ghost predicate Holds<T>(s: Ring<T>, k: nat)
    requires k < |s.pushed| && |s.storage| > 0
  {
    s.storage[k % |s.storage|] == s.pushed[k]
  }

  ghost predicate RingInv<T>(s: Ring<T>) {
    && |s.storage| > 1
    && |s.popped| <= |s.pushed| <= |s.popped| + |s.storage| - 1
    && s.head == |s.pushed| % |s.storage| && s.tail == |s.popped| % |s.storage|
    && s.popped == s.pushed[..|s.popped|]
    && (forall k: nat :: |s.popped| <= k < |s.pushed| ==> Holds(s, k))
    && ProducerSound(s) && ConsumerSound(s)
  }

  lemma RingInitialInv<T>(s: Ring<T>, capacity: nat)
    requires RingInitial(s, capacity)
    ensures RingInv(s)
  {}

  lemma CheckSees<T>(s: Ring<T>)
    requires RingInv(s)
    ensures s.producer.HeadLoaded? ==> SeesFull(s) == (|s.pushed| - |s.popped| == |s.storage| - 1)
    ensures s.consumer.TailLoaded? ==> SeesEmpty(s) == (|s.popped| == |s.pushed|)
  {
    FullOrEmpty(|s.popped|, |s.pushed|, |s.storage|);
  }

  lemma SlotsExist<T>(s: Ring<T>)
    requires RingInv(s)
    ensures s.producer.Writing? ==> s.producer.head < |s.storage|
    ensures s.consumer.Reading? ==> s.consumer.tail < |s.storage|
  {}

  lemma WriteKeepsInv<T>(s: Ring<T>)
    requires RingInv(s) && s.producer.Writing?
    ensures RingEnabled(s, PushWrite) && RingInv(RingNext(s, PushWrite))
  {
    var t := RingNext(s, PushWrite);
    forall k: nat | |s.popped| <= k < |s.pushed| ensures Holds(t, k) {
      assert Holds(s, k);
      ModDiffers(k, |s.pushed|, |s.storage|);
    }
  }

  lemma PushPublishKeepsInv<T>(s: Ring<T>)
    requires RingInv(s) && s.producer.Written?
    ensures RingInv(RingNext(s, PushPublish))
  {
    var t := RingNext(s, PushPublish);
    ModNext(|s.pushed|, |s.storage|);
    forall k: nat | |s.popped| <= k < |t.pushed| ensures Holds(t, k) {
      if k < |s.pushed| { assert Holds(s, k); }
    }
    assert t.pushed[..|s.popped|] == s.pushed[..|s.popped|];
  }

  lemma ReadKeepsInv<T>(s: Ring<T>)
    requires RingInv(s) && s.consumer.Reading?
    ensures RingEnabled(s, PopRead) && RingInv(RingNext(s, PopRead))
  {
    assert Holds(s, |s.popped|);
    var t := RingNext(s, PopRead);
    forall k: nat | |t.popped| <= k < |t.pushed| ensures Holds(t, k) { assert Holds(s, k); }
  }

  lemma PopPublishKeepsInv<T>(s: Ring<T>)
    requires RingInv(s) && s.consumer.Read?
    ensures RingInv(RingNext(s, PopPublish))
  {
    var t := RingNext(s, PopPublish);
    ModNext(|s.popped|, |s.storage|);
    forall k: nat | |t.popped| <= k < |t.pushed| ensures Holds(t, k) { assert Holds(s, k); }
    assert t.popped == s.pushed[..|s.popped| + 1];
  }

  // Steps that only load change neither the memory nor the history.
  lemma LoadKeepsInv<T>(s: Ring<T>, e: RingStep<T>)
    requires RingInv(s) && RingEnabled(s, e) && (e.PushStart? || e.PopStart? || e.PushCheck? || e.PopCheck?)
    ensures RingInv(RingNext(s, e))
  {
    var t := RingNext(s, e);
    CheckSees(s);
    forall k: nat | |t.popped| <= k < |t.pushed| ensures Holds(t, k) { assert Holds(s, k); }
  }

  lemma RingNextKeepsInv<T>(s: Ring<T>, e: RingStep<T>)
    requires RingInv(s) && RingEnabled(s, e)
    ensures RingInv(RingNext(s, e))
  {
    match e
    case PushStart(_) => LoadKeepsInv(s, e);
    case PushCheck => LoadKeepsInv(s, e);
    case PushWrite => WriteKeepsInv(s);
    case PushPublish => PushPublishKeepsInv(s);
    case PopStart => LoadKeepsInv(s, e);
    case PopCheck => LoadKeepsInv(s, e);
    case PopRead => ReadKeepsInv(s);
    case PopPublish => PopPublishKeepsInv(s);
  }

  // ---------- What the steps mean ----------

  // What a step does to a bounded first-in first-out queue.
  ghost predicate QueueStep<T>(s: Ring<T>, e: RingStep<T>, before: seq<T>, after: seq<T>, capacity: nat) {
    match e
    case PushPublish => s.producer.Written? && |before| < capacity && after == before + [s.producer.value]
    case PopPublish => s.consumer.Read? && before == [s.consumer.value] + after
    case _ => after == before
  }

  /** Every atomic step is a step of a bounded queue, and a failed push found it full, a failed pop found
      it empty, at the moment of its load. */
  lemma RingRefinesQueue<T>(s: Ring<T>, e: RingStep<T>)
    requires RingInv(s) && RingEnabled(s, e)
    ensures RingInv(RingNext(s, e))
    ensures QueueStep(s, e, Queue(s), Queue(RingNext(s, e)), |s.storage| - 1)
    ensures e.PushCheck? ==> RingNext(s, e).producer.ProducerIdle? == (|Queue(s)| == |s.storage| - 1)
    ensures e.PopCheck? ==> RingNext(s, e).consumer.ConsumerIdle? == (Queue(s) == [])
  {
    RingNextKeepsInv(s, e);
    CheckSees(s);
  }

  /** The producer's write and the consumer's read never concern the same slot. */
  lemma NoSharedSlot<T>(s: Ring<T>)
    requires RingInv(s) && (s.producer.Writing? || s.producer.Written?) && (s.consumer.Reading? || s.consumer.Read?)
    ensures s.producer.head != s.consumer.tail
  {
    ModDiffers(|s.popped|, |s.pushed|, |s.storage|);
  }

  // ---------- Whole runs ----------

  predicate RingPossible<T>(s: Ring<T>, steps: seq<RingStep<T>>)
    requires |s.storage| > 0
    decreases |steps|
  {
    steps == [] || (RingEnabled(s, steps[0]) && RingPossible(RingNext(s, steps[0]), steps[1..]))
  }

  function RingAfter<T>(s: Ring<T>, steps: seq<RingStep<T>>): Ring<T>
    requires |s.storage| > 0 && RingPossible(s, steps)
    decreases |steps|
  {
    if steps == [] then s else RingAfter(RingNext(s, steps[0]), steps[1..])
  }

  lemma {:induction false} RingRunKeepsInv<T>(s: Ring<T>, steps: seq<RingStep<T>>)
    requires RingInv(s) && RingPossible(s, steps)
    ensures RingInv(RingAfter(s, steps)) && |RingAfter(s, steps).storage| == |s.storage|
    decreases |steps|
  {
    if steps != [] {
      RingNextKeepsInv(s, steps[0]);
      RingRunKeepsInv(RingNext(s, steps[0]), steps[1..]);
    }
  }

  /** Under every interleaving the values popped are the values pushed, in order, from the first on; at
      most capacity are in between; and no slot is written while it is read. */
  lemma FirstInFirstOut<T>(s: Ring<T>, capacity: nat, steps: seq<RingStep<T>>)
    requires RingInitial(s, capacity) && RingPossible(s, steps)
    ensures var t := RingAfter(s, steps);
      && t.popped <= t.pushed && |t.pushed| - |t.popped| <= capacity
      && (t.producer.Writing? && t.consumer.Reading? ==> t.producer.head != t.consumer.tail)
  {
    RingInitialInv(s, capacity);
    RingRunKeepsInv(s, steps);
    var t := RingAfter(s, steps);
    if t.producer.Writing? && t.consumer.Reading? { NoSharedSlot(t); }
  }
}

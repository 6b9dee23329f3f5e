/** The server's bounded history. */
module CircularBuffer {
  import opened Modular
  import opened Options

  // The last n elements, or all of them.
  function LastOf<T>(s: seq<T>, n: nat): (last: seq<T>)
    ensures |last| == if |s| <= n then |s| else n
  {
    if |s| <= n then s else s[|s| - n..]
  }

  /** Cutting off early does not matter. */
  lemma LastOfLast<T>(s: seq<T>, t: seq<T>, n: nat)
    ensures LastOf(LastOf(s, n) + t, n) == LastOf(s + t, n)
  {}

  class CircularBuffer<T> {
    const capacity: nat
    const items: array<Option<T>>
    var start: nat
    var length: nat

    ghost predicate Valid()
      reads this, items
    {
      && 0 < capacity == items.Length && start < capacity && length <= capacity
      && forall i: nat :: i < length ==> items[Slot(i)].Some?
    }

    // (start + i) % capacity
    ghost function Slot(i: nat): (k: nat)
      requires start < capacity && i <= capacity
      reads this
      ensures k < capacity
    {
      if start + i < capacity then start + i else start + i - capacity
    }

    ghost function Contents(): (s: seq<T>)
      requires Valid()
      reads this, items
      ensures |s| == length
    {
      seq(length, i requires Valid() && 0 <= i < length reads this, items => items[Slot(i)].value)
    }

    // Callers have checked the capacity.
    constructor (capacity: nat)
      requires capacity > 0
      ensures Valid() && this.capacity == capacity && Contents() == [] && fresh(items)
    {
      this.capacity := capacity;
      items := new Option<T>[capacity](_ => None);
      start, length := 0, 0;
    }

    /** The constructor's range check: only positive capacities give a buffer. */
    static method Create(capacity: int) returns (buffer: Option<CircularBuffer<T>>)
      ensures buffer.Some? == (capacity > 0)
      ensures buffer.Some? ==> var b := buffer.value;
        fresh(b) && fresh(b.items) && b.Valid() && b.capacity == capacity && b.Contents() == []
    {
      if capacity <= 0 { return None; }
      var b := new CircularBuffer<T>(capacity);
      return Some(b);
    }

    method Clear()
      requires Valid()
      modifies this`start, this`length, items
      ensures Valid() && Contents() == []
    {
      forall i | 0 <= i < items.Length { items[i] := None; }
      start := 0;
      length := 0;
    }

    lemma Index(i: nat)
      requires start < capacity && i <= capacity
      ensures (start + i) % capacity == Slot(i)
    {
      if start + i < capacity { QuotientIs(start + i, capacity, 0, start + i); }
      else { QuotientIs(start + i, capacity, 1, start + i - capacity); }
    }

    /** Appends, at the expense of the oldest element when full: the history is the last capacity of
        everything pushed since the last clear. */
    method Push(value: T)
      requires Valid()
      modifies this`start, this`length, items
      ensures Valid() && Contents() == LastOf(old(Contents()) + [value], capacity)
    {
      ghost var before := Contents();
      Index(length);
      var index := (start + length) % capacity;
      items[index] := Some(value);
      if length < capacity {
        length := length + 1;
        forall i: nat | i < length ensures items[Slot(i)] == Some((before + [value])[i]) {}
      } else {
        Wraps(start, capacity);
        start := (start + 1) % capacity;
        forall i: nat | i < length ensures items[Slot(i)] == Some((before + [value])[i + 1]) {
          if i + 1 < length { assert Slot(i) == old(Slot(i + 1)); }
        }
      }
    }

    method ToArray() returns (samples: seq<T>)
      requires Valid()
      ensures samples == Contents()
    {
      samples := [];
      for i := 0 to length
        invariant samples == Contents()[..i]
      {
        Index(i);
        samples := samples + [items[(start + i) % capacity].value];
      }
    }
  }
}

/** The byte ring behind pipes and terminals (`kernel/data-structs/ring_buffer.c`). */
module RingBuffers {
  import opened Common

  /** `head` and `tail` are indices of the first and the last byte, `NULL` when the ring is empty. */
  class RingBuffer {
    const capacity: nat
    const data: array<Byte>
    var head: int
    var tail: int
    var size: nat

    static const NULL: int := -1

    ghost predicate Valid()
      reads this, data
    {
      && data.Length == capacity && size <= capacity
      && (size == 0 ==> head == NULL && tail == NULL)
      && (size > 0 ==> 0 <= head < capacity && 0 <= tail < capacity
                       && tail == if head + size - 1 < capacity then head + size - 1 else head + size - 1 - capacity)
    }

    /** The bytes in order, going round from the head. */
    ghost function Contents(): (s: seq<Byte>)
      requires Valid()
      reads this, data
      ensures |s| == size
    {
      if size == 0 then []
      else if head + size <= capacity then data[head..head + size]
      else data[head..] + data[..head + size - capacity]
    }

    /** `create_ring_buffer`. */
    constructor (capacity: nat)
      ensures Valid() && fresh(data) && this.capacity == capacity && Contents() == []
    {
      this.capacity := capacity;
      data := new Byte[capacity];
      head, tail, size := NULL, NULL, 0;
    }

    /** `consume_ring_buffer`. */
    method Consume() returns (ok: bool, next: Byte)
      requires Valid()
      modifies this
      ensures Valid() && ok == (old(Contents()) != [])
      ensures ok ==> next == old(Contents())[0] && Contents() == old(Contents())[1..]
      ensures !ok ==> Contents() == old(Contents())
    {
      next := 0;
      if size == 0 {
        return false, next;
      }
      ghost var all := Contents();
      next := data[head];
      size := size - 1;
      if head == capacity - 1 {
        head := 0;
      } else {
        head := head + 1;
      }
      if size == 0 {
        tail := NULL;
        head := NULL;
      }
      ok := true;
      assert |Contents()| == |all| - 1 && forall i :: 0 <= i < size ==> Contents()[i] == all[i + 1];
    }

    /** `produce_ring_buffer`. */
    method Produce(next: Byte) returns (ok: bool)
      requires Valid()
      modifies this, data
      ensures Valid() && ok == (|old(Contents())| < capacity)
      ensures Contents() == if ok then old(Contents()) + [next] else old(Contents())
    {
      if size == capacity {
        return false;
      }
      ghost var before := Contents();
      if size == 0 {
        tail := 0;
        head := 0;
      } else if tail == capacity - 1 {
        tail := 0;
      } else {
        tail := tail + 1;
      }
      data[tail] := next;
      size := size + 1;
      ok := true;
      assert Contents()[..size - 1] == before;
      assert Contents() == Contents()[..size - 1] + [Contents()[size - 1]];
    }

    /** `remove_back_ring_buffer`. */
    method RemoveBack() returns (ok: bool)
      requires Valid()
      modifies this
      ensures Valid() && ok == (old(Contents()) != [])
      ensures Contents() == if ok then old(Contents())[..|old(Contents())| - 1] else old(Contents())
    {
      if size == 0 {
        return false;
      }
      size := size - 1;
      if tail == 0 {
        tail := capacity - 1;
      } else {
        tail := tail - 1;
      }
      if size == 0 {
        tail := NULL;
        head := NULL;
      }
      ok := true;
    }
  }
}

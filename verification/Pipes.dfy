/** Pipes (`kernel/pipe/pipe.c`): reads and writes of many threads, one critical section at a time, over the ring buffer
and the two wait queues. */
module Pipes {
  import opened Common
  import opened PipeState
  import opened RingBuffers

  class Pipe {
    const ring: RingBuffer
    var rx: seq<nat>
    var tx: seq<nat>
    var writers: nat
    var calls: Calls
    ghost var put: seq<Byte>     // all bytes that entered the buffer
    ghost var taken: seq<Byte>   // all bytes that left it
    ghost var given: seq<Byte>   // the bytes that reads delivered
    ghost var clean: bool    // no write was asked to send `EOT`, and the last writer did not close under a write

    ghost predicate Valid()
      reads this, ring, ring.data
    {
      && ring.Valid() && 0 < ring.capacity
      && CallsOk(calls, rx, tx, ring.Contents(), ring.capacity, writers, clean)
      && put == taken + ring.Contents() && given == Data(taken)
    }

    /** `pipe`: one writer, an empty buffer. */
    constructor (capacity: nat)
      requires 0 < capacity
      ensures Valid() && fresh(ring) && fresh(ring.data) && ring.capacity == capacity && ring.Contents() == []
      ensures calls == map[] && rx == [] && tx == [] && writers == 1 && put == [] && clean && NoneLost(calls, rx, tx)
    {
      ring := new RingBuffer(capacity);
      rx, tx, writers, calls := [], [], 1, map[];
      put, taken, given, clean := [], [], [], true;
    }

    /** `pipe_wake_up_readers`. */
    method WakeReaders()
      requires forall i :: 0 <= i < |rx| ==> rx[i] in calls && ReadWaits(calls[rx[i]])
      modifies this`rx, this`calls
      ensures rx == [] && Wakes(old(calls), old(rx), calls)
      ensures forall i :: 0 <= i < |old(rx)| ==> var c := old(calls)[old(rx)[i]]; calls[old(rx)[i]] == if c.ReadAsleep? then Reading(c.need) else c
      ensures forall t :: t in old(calls) && t !in old(rx) ==> calls[t] == old(calls)[t]
    {
      while rx != []
        invariant |rx| <= |old(rx)| && rx == old(rx)[..|rx|] && calls.Keys == old(calls).Keys
        invariant forall t :: t in calls ==> calls[t] == if t in old(rx)[|rx|..] then Woken(old(calls)[t]) else old(calls)[t]
        decreases |rx|
      {
        var t := rx[|rx| - 1];
        rx := rx[..|rx| - 1];
        assert old(rx)[|rx|..] == [t] + old(rx)[|rx| + 1..];
        calls := calls[t := Woken(calls[t])];
      }
      assert old(rx)[0..] == old(rx);
    }

    /** `pipe_wake_up_writers`. */
    method WakeWriters()
      requires forall i :: 0 <= i < |tx| ==> tx[i] in calls && WriteWaits(calls[tx[i]])
      modifies this`tx, this`calls
      ensures tx == [] && Wakes(old(calls), old(tx), calls)
      ensures forall i :: 0 <= i < |old(tx)| ==> var c := old(calls)[old(tx)[i]]; calls[old(tx)[i]] == if c.WriteAsleep? then Writing(c.todo) else c
      ensures forall t :: t in old(calls) && t !in old(tx) ==> calls[t] == old(calls)[t]
    {
      while tx != []
        invariant |tx| <= |old(tx)| && tx == old(tx)[..|tx|] && calls.Keys == old(calls).Keys
        invariant forall t :: t in calls ==> calls[t] == if t in old(tx)[|tx|..] then Woken(old(calls)[t]) else old(calls)[t]
        decreases |tx|
      {
        var t := tx[|tx| - 1];
        tx := tx[..|tx| - 1];
        assert old(tx)[|tx|..] == [t] + old(tx)[|tx| + 1..];
        calls := calls[t := Woken(calls[t])];
      }
      assert old(tx)[0..] == old(tx);
    }

    // -------------------------------------------------------------------------
    // Reading
    // -------------------------------------------------------------------------

    /** A thread calls `pipe_read` for `n` bytes. */
    method StartRead(t: nat, n: nat)
      requires Valid() && t !in calls
      modifies this`calls
      ensures Valid() && calls == old(calls)[t := Reading(n)]
    {
      hide RingBuffer.Contents, RingBuffer.Valid, Data;
      NotQueued(calls, rx, tx, t);
      MoveOk(calls, rx, tx, ring.Contents(), ring.capacity, writers, clean, t, Reading(n));
      calls := calls[t := Reading(n)];
    }

    /** One round of the loop of `pipe_read`, up to the release of the lock. */
    method ReadStep(t: nat)
      requires Valid() && t in calls && calls[t].Reading? && 0 < calls[t].need
      modifies this`calls, this`rx, this`tx, this`taken, this`given, ring
      ensures Valid()
      ensures if old(ring.Contents()) != [] then TookByte(old(ring.Contents())[0], t, old(taken), old(calls), old(rx), old(tx))
              else if writers == 0 then taken == old(taken) && calls == old(calls) - {t} && rx == old(rx) && tx == old(tx)
              else taken == old(taken) && QueuedReader(t, old(calls), old(rx), old(tx))
    {
      hide CallsOk, Wakes, RingBuffer.Contents, RingBuffer.Valid, TookByte, QueuedReader, Data;
      ghost var buf := ring.Contents();
      var ok, b := ring.Consume();
      if ok {
        assert taken + [b] + ring.Contents() == taken + buf;
        TookOne(t, b, buf);
      } else if writers == 0 {
        ReadStop(t);
      } else {
        ReadQueue(t);
      }
    }

    /** After a round that found byte `b`. */
    ghost predicate TookByte(b: Byte, t: nat, taken0: seq<Byte>, calls0: Calls, rx0: seq<nat>, tx0: seq<nat>)
      reads this
    {
      && taken == taken0 + [b] && rx == rx0 && tx == tx0
      && t in calls0 && calls0[t].Reading? && 0 < calls0[t].need
      && calls == if b == EOT then calls0 - {t} else calls0[t := Reading(calls0[t].need - 1)]
    }

    /** After a round that found nothing and left the reader on its way to sleep. */
    ghost predicate QueuedReader(t: nat, calls0: Calls, rx0: seq<nat>, tx0: seq<nat>)
      reads this
    {
      && rx == rx0 + [t] && tx == []
      && t in calls0 && calls0[t].Reading? && Wakes(calls0[t := ReadParking(calls0[t].need)], tx0, calls)
    }

    method TookOne(t: nat, b: Byte, ghost buf: seq<Byte>)
      requires ring.Valid() && 0 < ring.capacity && buf != [] && b == buf[0] && ring.Contents() == buf[1..]
      requires CallsOk(calls, rx, tx, buf, ring.capacity, writers, clean) && t in calls && calls[t].Reading? && 0 < calls[t].need
      requires put == taken + [b] + ring.Contents() && given == Data(taken)
      modifies this`calls, this`taken, this`given
      ensures Valid() && TookByte(b, t, old(taken), old(calls), rx, tx)
    {
      hide CallsOk, RingBuffer.Contents, RingBuffer.Valid, Data;
      QueueMembers(calls, rx, tx, buf, ring.capacity, writers, clean);
      DataSnoc(taken, b);
      taken := taken + [b];
      TakeOk(calls, rx, tx, buf, ring.capacity, writers, clean, t);
      if b == EOT {
        ReturnMark(calls, rx, tx, ring.Contents(), t);
        calls := calls - {t};
      } else {
        MoveOk(calls, rx, tx, ring.Contents(), ring.capacity, writers, clean, t, Reading(calls[t].need - 1));
        given := given + [b];
        calls := calls[t := Reading(calls[t].need - 1)];
      }
    }

    method ReadStop(t: nat)
      requires Valid() && t in calls && calls[t].Reading? && writers == 0
      modifies this`calls
      ensures Valid() && calls == old(calls) - {t}
    {
      hide RingBuffer.Contents, RingBuffer.Valid, Data, CallsOk;
      QueueMembers(calls, rx, tx, ring.Contents(), ring.capacity, writers, clean);
      NoWriterQueued(calls, rx, tx, ring.Contents(), ring.capacity, clean);
      ReturnOk(calls, rx, tx, ring.Contents(), ring.capacity, writers, clean, t);
      calls := calls - {t};
    }

    method ReadQueue(t: nat)
      requires Valid() && t in calls && calls[t].Reading? && ring.Contents() == []
      modifies this`calls, this`rx, this`tx
      ensures Valid() && QueuedReader(t, old(calls), old(rx), old(tx))
    {
      hide RingBuffer.Contents, RingBuffer.Valid, Data, CallsOk, Wakes;
      QueueMembers(calls, rx, tx, ring.Contents(), ring.capacity, writers, clean);
      var need := calls[t].need;
      WakeWriters();
      WakeOk(old(calls), rx, old(tx), ring.Contents(), ring.capacity, writers, clean, old(tx), calls);
      WakesOther(old(calls), old(tx), calls, t, ReadParking(need));
      QueueReaderOk(calls, rx, ring.Contents(), ring.capacity, writers, clean, t);
      rx := rx + [t];
      calls := calls[t := ReadParking(need)];
    }

    /** A reader that consumed the mark leaves without waking the writers. */
    lemma ReturnMark(calls: Calls, rx: seq<nat>, tx: seq<nat>, buf: seq<Byte>, t: nat)
      requires CallsOk(calls, rx, tx, buf, ring.capacity, writers, clean) && t in calls && calls[t].Reading? && t !in rx && t !in tx
      requires clean ==> tx == []
      ensures CallsOk(calls - {t}, rx, tx, buf, ring.capacity, writers, clean)
    {
      ReturnOk(calls, rx, tx, buf, ring.capacity, writers, clean, t);
    }

    /** The end of `pipe_read`: the writers wake. */
    method ReadEnd(t: nat)
      requires Valid() && t in calls && calls[t] == Reading(0)
      modifies this`calls, this`tx
      ensures Valid() && tx == [] && Wakes(old(calls) - {t}, old(tx), calls)
    {
      hide RingBuffer.Contents, RingBuffer.Valid, Data;
      NotQueued(calls, rx, tx, t);
      QueueMembers(calls, rx, tx, ring.Contents(), ring.capacity, writers, clean);
      WakeWriters();
      WakeOk(old(calls), rx, old(tx), ring.Contents(), ring.capacity, writers, clean, old(tx), calls);
      WakesKeep(old(calls), old(tx), calls, t);
      ReturnOk(calls, rx, tx, ring.Contents(), ring.capacity, writers, clean, t);
      calls := calls - {t};
    }

    // -------------------------------------------------------------------------
    // Writing
    // -------------------------------------------------------------------------

    /** A thread calls `pipe_write` on an open write end. */
    method StartWrite(t: nat, data: seq<Byte>)
      requires Valid() && t !in calls && 0 < writers
      modifies this`calls, this`clean
      ensures Valid() && calls == old(calls)[t := Writing(data)] && clean == (old(clean) && EOT !in data)
    {
      hide RingBuffer.Contents, RingBuffer.Valid, Data;
      NotQueued(calls, rx, tx, t);
      LessClean(calls, rx, tx, ring.Contents(), ring.capacity, writers, clean, clean && EOT !in data);
      clean := clean && EOT !in data;
      MoveOk(calls, rx, tx, ring.Contents(), ring.capacity, writers, clean, t, Writing(data));
      calls := calls[t := Writing(data)];
    }

    /** One round of the loop of `pipe_write`, up to the release of the lock. */
    method WriteStep(t: nat)
      requires Valid() && t in calls && calls[t].Writing? && calls[t].todo != []
      modifies this`calls, this`rx, this`tx, this`put, ring, ring.data
      ensures Valid()
      ensures if |old(ring.Contents())| < ring.capacity then
                ring.Contents() == old(ring.Contents()) + [old(calls)[t].todo[0]] && GaveByte(t, old(put), old(calls)) && rx == old(rx) && tx == old(tx)
              else
                ring.Contents() == old(ring.Contents()) && put == old(put) && QueuedWriter(t, old(calls), old(rx), old(tx))
    {
      hide CallsOk, Wakes, RingBuffer.Contents, RingBuffer.Valid, GaveByte, QueuedWriter, Data;
      ghost var buf := ring.Contents();
      var ok := ring.Produce(calls[t].todo[0]);
      if ok {
        GaveOne(t, buf);
      } else {
        WriteQueue(t);
      }
    }

    /** After a round that added a byte. */
    ghost predicate GaveByte(t: nat, put0: seq<Byte>, calls0: Calls)
      reads this
    {
      && t in calls0 && calls0[t].Writing? && calls0[t].todo != []
      && put == put0 + [calls0[t].todo[0]] && calls == calls0[t := Writing(calls0[t].todo[1..])]
    }

    /** After a round that found no room and left the writer on its way to sleep. */
    ghost predicate QueuedWriter(t: nat, calls0: Calls, rx0: seq<nat>, tx0: seq<nat>)
      reads this
    {
      && tx == tx0 + [t] && rx == []
      && t in calls0 && calls0[t].Writing? && Wakes(calls0[t := WriteParking(calls0[t].todo)], rx0, calls)
    }

    method GaveOne(t: nat, ghost buf: seq<Byte>)
      requires ring.Valid() && 0 < ring.capacity && |buf| < ring.capacity
      requires CallsOk(calls, rx, tx, buf, ring.capacity, writers, clean) && t in calls && calls[t].Writing? && calls[t].todo != []
      requires put == taken + buf && given == Data(taken) && ring.Contents() == buf + [calls[t].todo[0]]
      modifies this`calls, this`put
      ensures Valid() && GaveByte(t, old(put), old(calls))
    {
      hide RingBuffer.Contents, RingBuffer.Valid, Data, CallsOk;
      QueueMembers(calls, rx, tx, buf, ring.capacity, writers, clean);
      WriterOpen(calls, rx, tx, buf, ring.capacity, writers, clean, t);
      var todo := calls[t].todo;
      put := put + [todo[0]];
      GiveOk(calls, rx, tx, buf, ring.capacity, writers, clean, t);
      assert put == taken + ring.Contents();
      MoveOk(calls, rx, tx, ring.Contents(), ring.capacity, writers, clean, t, Writing(todo[1..]));
      calls := calls[t := Writing(todo[1..])];
    }

    method WriteQueue(t: nat)
      requires Valid() && t in calls && calls[t].Writing? && |ring.Contents()| == ring.capacity
      modifies this`calls, this`rx, this`tx
      ensures Valid() && QueuedWriter(t, old(calls), old(rx), old(tx))
    {
      hide RingBuffer.Contents, RingBuffer.Valid, Data, CallsOk, Wakes;
      QueueMembers(calls, rx, tx, ring.Contents(), ring.capacity, writers, clean);
      var todo := calls[t].todo;
      WakeReaders();
      WakeOk(old(calls), old(rx), tx, ring.Contents(), ring.capacity, writers, clean, old(rx), calls);
      WakesOther(old(calls), old(rx), calls, t, WriteParking(todo));
      QueueWriterOk(calls, tx, ring.Contents(), ring.capacity, writers, clean, t);
      tx := tx + [t];
      calls := calls[t := WriteParking(todo)];
    }

    /** The end of `pipe_write`: the readers wake. */
    method WriteEnd(t: nat)
      requires Valid() && t in calls && calls[t] == Writing([])
      modifies this`calls, this`rx
      ensures Valid() && rx == [] && Wakes(old(calls) - {t}, old(rx), calls)
    {
      hide RingBuffer.Contents, RingBuffer.Valid, Data;
      NotQueued(calls, rx, tx, t);
      QueueMembers(calls, rx, tx, ring.Contents(), ring.capacity, writers, clean);
      WakeReaders();
      WakeOk(old(calls), old(rx), tx, ring.Contents(), ring.capacity, writers, clean, old(rx), calls);
      WakesKeep(old(calls), old(rx), calls, t);
      ReturnOk(calls, rx, tx, ring.Contents(), ring.capacity, writers, clean, t);
      calls := calls - {t};
    }

    // -------------------------------------------------------------------------
    // Sleeping and closing
    // -------------------------------------------------------------------------

    /** `block_thread`, after the lock was released. */
    method Park(t: nat)
      requires Valid() && t in calls && (calls[t].ReadParking? || calls[t].WriteParking?)
      modifies this`calls
      ensures Valid()
      ensures calls == old(calls)[t := if old(calls)[t].ReadParking? then ReadAsleep(old(calls)[t].need) else WriteAsleep(old(calls)[t].todo)]
    {
      hide RingBuffer.Contents, RingBuffer.Valid, Data, CallsOk;
      ParkOk(calls, rx, tx, ring.Contents(), ring.capacity, writers, clean, t);
      calls := calls[t := if calls[t].ReadParking? then ReadAsleep(calls[t].need) else WriteAsleep(calls[t].todo)];
    }

    /** `pipe_close` of a write end: the last one leaves the mark, unless the buffer is full. */
    method CloseWriter() returns (ok: bool)
      requires Valid() && 0 < writers
      modifies this`writers, this`calls, this`rx, this`put, this`clean, ring, ring.data
      ensures Valid() && writers == old(writers) - 1 && clean == (old(clean) && (writers == 0 ==> Idle(old(calls))))
      ensures ok <==> 0 < writers || |old(ring.Contents())| < ring.capacity
      ensures ok && writers == 0 ==> put == old(put) + [4] && rx == [] && Wakes(old(calls), old(rx), calls)
      ensures !ok || 0 < writers ==> put == old(put) && calls == old(calls) && rx == old(rx)
    {
      hide RingBuffer.Contents, RingBuffer.Valid, Data, CallsOk, Wakes;
      ghost var buf := ring.Contents();
      if writers > 1 {
        MoreWriters(calls, rx, tx, buf, ring.capacity, writers, writers - 1, clean);
        writers := writers - 1;
        return true;
      }
      LastWriterOk(calls, rx, tx, buf, ring.capacity, writers, clean);
      clean := clean && Idle(calls);
      QueueMembers(calls, rx, tx, ring.Contents(), ring.capacity, writers, clean);
      writers := 0;
      ok := ring.Produce(EOT);
      if !ok {
        return;
      }
      put := put + [EOT];
      assert put == taken + ring.Contents();
      WakeReaders();
      WakeOk(old(calls), old(rx), tx, buf, ring.capacity, 0, clean, old(rx), calls);
      MarkOk(calls, tx, buf, ring.capacity, clean);
    }
  }

  lemma NotQueued(calls: Calls, rx: seq<nat>, tx: seq<nat>, t: nat)
    requires Queued(calls, rx, tx) && (t in calls ==> calls[t].Reading? || calls[t].Writing?)
    ensures t !in rx && t !in tx
  {
  }

  lemma QueueMembers(calls: Calls, rx: seq<nat>, tx: seq<nat>, buf: seq<Byte>, capacity: nat, writers: nat, clean: bool)
    requires CallsOk(calls, rx, tx, buf, capacity, writers, clean)
    ensures forall i :: 0 <= i < |rx| ==> rx[i] in calls && ReadWaits(calls[rx[i]])
    ensures forall i :: 0 <= i < |tx| ==> tx[i] in calls && WriteWaits(calls[tx[i]])
    ensures rx == [] || tx == []
  {
  }

  lemma NoWriterQueued(calls: Calls, rx: seq<nat>, tx: seq<nat>, buf: seq<Byte>, capacity: nat, clean: bool)
    requires CallsOk(calls, rx, tx, buf, capacity, 0, clean)
    ensures clean ==> tx == []
  {
    if tx != [] {
      assert InWrite(calls[tx[0]]);
    }
  }

  lemma WriterOpen(calls: Calls, rx: seq<nat>, tx: seq<nat>, buf: seq<Byte>, capacity: nat, writers: nat, clean: bool, t: nat)
    requires CallsOk(calls, rx, tx, buf, capacity, writers, clean) && t in calls && calls[t].Writing?
    ensures clean ==> 0 < writers && EOT !in calls[t].todo
  {
  }

  lemma LessClean(calls: Calls, rx: seq<nat>, tx: seq<nat>, buf: seq<Byte>, capacity: nat, writers: nat, clean: bool, clean': bool)
    requires CallsOk(calls, rx, tx, buf, capacity, writers, clean) && (clean' ==> clean)
    ensures CallsOk(calls, rx, tx, buf, capacity, writers, clean')
  {
  }

  lemma MoreWriters(calls: Calls, rx: seq<nat>, tx: seq<nat>, buf: seq<Byte>, capacity: nat, writers: nat, writers': nat, clean: bool)
    requires CallsOk(calls, rx, tx, buf, capacity, writers, clean) && 0 < writers && 0 < writers'
    ensures CallsOk(calls, rx, tx, buf, capacity, writers', clean)
  {
  }

  lemma ParkOk(calls: Calls, rx: seq<nat>, tx: seq<nat>, buf: seq<Byte>, capacity: nat, writers: nat, clean: bool, t: nat)
    requires CallsOk(calls, rx, tx, buf, capacity, writers, clean) && t in calls && (calls[t].ReadParking? || calls[t].WriteParking?)
    ensures CallsOk(calls[t := if calls[t].ReadParking? then ReadAsleep(calls[t].need) else WriteAsleep(calls[t].todo)], rx, tx, buf, capacity, writers, clean)
  {
    var calls' := calls[t := if calls[t].ReadParking? then ReadAsleep(calls[t].need) else WriteAsleep(calls[t].todo)];
    if SomeWriting(calls) {
      var u :| u in calls && calls[u].Writing?;
      assert u in calls' && calls'[u].Writing?;
    }
    if SomeReading(calls) {
      var u :| u in calls && calls[u].Reading?;
      assert u in calls' && calls'[u].Reading?;
    }
  }

  /** A thread outside the queue is not touched by the waking. */
  lemma WakesOther(calls: Calls, q: seq<nat>, calls': Calls, t: nat, c: Phase)
    requires Wakes(calls, q, calls') && t in calls && t !in q
    ensures calls'[t] == calls[t] && Wakes(calls[t := c], q, calls'[t := c])
  {
  }

  lemma WakesKeep(calls: Calls, q: seq<nat>, calls': Calls, t: nat)
    requires Wakes(calls, q, calls') && t in calls && t !in q
    ensures calls'[t] == calls[t] && Wakes(calls - {t}, q, calls' - {t})
  {
  }
}

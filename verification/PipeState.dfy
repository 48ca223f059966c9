/** The wait queues of a pipe and the threads inside its calls, as values (`kernel/pipe/pipe.c`). */
module PipeState {
  import opened Common

  /** What `pipe_close` appends when the last writer is gone, and where `pipe_read` stops. */
  const EOT: Byte := 4

  /** Where a thread is.  It queues itself under the lock and blocks after releasing it: in between it is `Parking`. */
  datatype Phase =
    | Reading(need: nat) | ReadParking(need: nat) | ReadAsleep(need: nat)
    | Writing(todo: seq<Byte>) | WriteParking(todo: seq<Byte>) | WriteAsleep(todo: seq<Byte>)

  /** The threads inside a call. */
  type Calls = map<nat, Phase>

  ghost predicate ReadWaits(c: Phase) { c.ReadParking? || c.ReadAsleep? }

  ghost predicate WriteWaits(c: Phase) { c.WriteParking? || c.WriteAsleep? }

  ghost predicate InWrite(c: Phase) { c.Writing? || WriteWaits(c) }

  /** No write is in progress. */
  ghost predicate Idle(calls: Calls) { forall t :: t in calls ==> !InWrite(calls[t]) }

  ghost predicate SomeWriting(calls: Calls) { exists t :: t in calls && calls[t].Writing? }

  ghost predicate SomeReading(calls: Calls) { exists t :: t in calls && calls[t].Reading? }

  /** `unblock_thread`: only a thread that is already asleep wakes. */
  function Woken(c: Phase): Phase {
    match c
    case ReadAsleep(n) => Reading(n)
    case WriteAsleep(d) => Writing(d)
    case _ => c
  }

  /** The queues hold waiting threads of their kind, each once, and not both hold some. */
  ghost predicate Queued(calls: Calls, rx: seq<nat>, tx: seq<nat>) {
    && (rx == [] || tx == []) && NoDup(rx) && NoDup(tx)
    && (forall i :: 0 <= i < |rx| ==> rx[i] in calls && ReadWaits(calls[rx[i]]))
    && (forall i :: 0 <= i < |tx| ==> tx[i] in calls && WriteWaits(calls[tx[i]]))
  }

  /** Queued readers with data to read have a writer at work that will wake them.  Queued writers with room to write
      have such a reader, unless a data byte was taken for the end of the stream. */
  ghost predicate Attended(calls: Calls, rx: seq<nat>, tx: seq<nat>, size: nat, capacity: nat, clean: bool) {
    && (rx != [] && 0 < size ==> SomeWriting(calls))
    && (tx != [] && size < capacity && clean ==> SomeReading(calls))
  }

  /** While the stream is clean, the mark is in the buffer only when no writer is left, and no write is in progress then. */
  ghost predicate MarkedLast(calls: Calls, buf: seq<Byte>, writers: nat, clean: bool) {
    && (clean && EOT in buf ==> writers == 0)
    && (clean && writers == 0 ==> forall t :: t in calls ==> !InWrite(calls[t]))
    && (clean ==> forall t :: t in calls && InWrite(calls[t]) ==> EOT !in calls[t].todo)
  }

  /** Waking all of `q`: each queued thread that is asleep goes on. */
  ghost predicate Wakes(calls: Calls, q: seq<nat>, calls': Calls) {
    && calls'.Keys == calls.Keys
    && forall t :: t in calls ==> calls'[t] == if t in q then Woken(calls[t]) else calls[t]
  }

  /** Waking, as a function. */
  ghost function AllWoken(calls: Calls, q: seq<nat>): Calls {
    map t | t in calls :: if t in q then Woken(calls[t]) else calls[t]
  }

  lemma WakesAll(calls: Calls, q: seq<nat>, calls': Calls)
    requires Wakes(calls, q, calls')
    ensures calls' == AllWoken(calls, q)
  {
  }

  /** No thread waits without being queued, as one does that was woken between queueing and blocking. */
  ghost predicate NoneLost(calls: Calls, rx: seq<nat>, tx: seq<nat>) {
    forall t :: t in calls ==> (ReadWaits(calls[t]) ==> t in rx) && (WriteWaits(calls[t]) ==> t in tx)
  }

  /** The data among `bytes`. */
  ghost function Data(bytes: seq<Byte>): seq<Byte> {
    if bytes == [] then [] else Data(bytes[..|bytes| - 1]) + (if bytes[|bytes| - 1] == EOT then [] else [bytes[|bytes| - 1]])
  }

  lemma DataSnoc(bytes: seq<Byte>, b: Byte)
    ensures Data(bytes + [b]) == Data(bytes) + (if b == EOT then [] else [b])
  {
    assert (bytes + [b])[..|bytes|] == bytes;
  }

  lemma {:induction false} DataAppend(a: seq<Byte>, b: seq<Byte>)
    ensures Data(a + b) == Data(a) + Data(b)
  {
    if b == [] {
      assert a + b == a;
    } else {
      var b0, x := b[..|b| - 1], b[|b| - 1];
      assert a + b == (a + b0) + [x] && b == b0 + [x];
      DataAppend(a, b0);
      DataSnoc(a + b0, x);
      DataSnoc(b0, x);
    }
  }

  /** Nobody in `q` is still on the way to sleep. */
  ghost predicate Settled(calls: Calls, q: seq<nat>) {
    forall i :: 0 <= i < |q| && q[i] in calls ==> !calls[q[i]].ReadParking? && !calls[q[i]].WriteParking?
  }

  /** The parts of the invariant that speak of the calls and the queues. */
  ghost predicate CallsOk(calls: Calls, rx: seq<nat>, tx: seq<nat>, buf: seq<Byte>, capacity: nat, writers: nat, clean: bool) {
    Queued(calls, rx, tx) && Attended(calls, rx, tx, |buf|, capacity, clean) && MarkedLast(calls, buf, writers, clean)
  }

  /** A thread that is not queued goes from one place to another; the buffer is as it was. */
  lemma MoveOk(calls: Calls, rx: seq<nat>, tx: seq<nat>, buf: seq<Byte>, capacity: nat, writers: nat, clean: bool, t: nat, c: Phase)
    requires CallsOk(calls, rx, tx, buf, capacity, writers, clean) && t !in rx && t !in tx
    requires InWrite(c) && clean ==> 0 < writers && EOT !in c.todo
    requires t in calls && calls[t].Writing? ==> c.Writing? || rx == []
    requires t in calls && calls[t].Reading? ==> c.Reading? || tx == []
    ensures CallsOk(calls[t := c], rx, tx, buf, capacity, writers, clean)
  {
    if rx != [] && 0 < |buf| {
      var u :| u in calls && calls[u].Writing?;
      assert u in calls[t := c] && calls[t := c][u].Writing?;
    }
    if tx != [] && |buf| < capacity && clean {
      var u :| u in calls && calls[u].Reading?;
      assert u in calls[t := c] && calls[t := c][u].Reading?;
    }
  }

  /** A thread leaves its call. */
  lemma ReturnOk(calls: Calls, rx: seq<nat>, tx: seq<nat>, buf: seq<Byte>, capacity: nat, writers: nat, clean: bool, t: nat)
    requires CallsOk(calls, rx, tx, buf, capacity, writers, clean) && t !in rx && t !in tx && t in calls
    requires calls[t].Writing? ==> rx == []
    requires calls[t].Reading? ==> tx == [] || (rx == [] && !clean)
    ensures CallsOk(calls - {t}, rx, tx, buf, capacity, writers, clean)
  {
    if rx != [] && 0 < |buf| {
      var u :| u in calls && calls[u].Writing?;
      assert u in calls - {t} && (calls - {t})[u].Writing?;
    }
    if tx != [] && |buf| < capacity && clean {
      var u :| u in calls && calls[u].Reading?;
      assert u in calls - {t} && (calls - {t})[u].Reading?;
    }
  }

  /** Waking a queue empties it and keeps the rest. */
  lemma WakeOk(calls: Calls, rx: seq<nat>, tx: seq<nat>, buf: seq<Byte>, capacity: nat, writers: nat, clean: bool, q: seq<nat>, calls': Calls)
    requires CallsOk(calls, rx, tx, buf, capacity, writers, clean) && (q == rx || q == tx) && Wakes(calls, q, calls')
    ensures q == rx ==> CallsOk(calls', [], tx, buf, capacity, writers, clean)
    ensures q == tx ==> CallsOk(calls', rx, [], buf, capacity, writers, clean)
  {
    if SomeWriting(calls) {
      var u :| u in calls && calls[u].Writing?;
      assert u in calls' && calls'[u].Writing?;
    }
    if SomeReading(calls) {
      var u :| u in calls && calls[u].Reading?;
      assert u in calls' && calls'[u].Reading?;
    }
  }

  /** A thread that just found the buffer empty queues itself behind the other readers. */
  lemma QueueReaderOk(calls: Calls, rx: seq<nat>, buf: seq<Byte>, capacity: nat, writers: nat, clean: bool, t: nat)
    requires CallsOk(calls, rx, [], buf, capacity, writers, clean) && t in calls && calls[t].Reading? && buf == []
    ensures CallsOk(calls[t := ReadParking(calls[t].need)], rx + [t], [], buf, capacity, writers, clean)
  {
  }

  /** Likewise a writer that found it full. */
  lemma QueueWriterOk(calls: Calls, tx: seq<nat>, buf: seq<Byte>, capacity: nat, writers: nat, clean: bool, t: nat)
    requires CallsOk(calls, [], tx, buf, capacity, writers, clean) && t in calls && calls[t].Writing? && |buf| == capacity
    ensures CallsOk(calls[t := WriteParking(calls[t].todo)], [], tx + [t], buf, capacity, writers, clean)
  {
  }

  /** A reader at work takes a byte. */
  lemma TakeOk(calls: Calls, rx: seq<nat>, tx: seq<nat>, buf: seq<Byte>, capacity: nat, writers: nat, clean: bool, t: nat)
    requires CallsOk(calls, rx, tx, buf, capacity, writers, clean) && t in calls && calls[t].Reading? && buf != []
    ensures CallsOk(calls, rx, tx, buf[1..], capacity, writers, clean)
    ensures clean && buf[0] == EOT ==> tx == []
  {
    if tx != [] {
      assert InWrite(calls[tx[0]]);
    }
  }

  /** A writer at work adds a byte. */
  lemma GiveOk(calls: Calls, rx: seq<nat>, tx: seq<nat>, buf: seq<Byte>, capacity: nat, writers: nat, clean: bool, t: nat)
    requires CallsOk(calls, rx, tx, buf, capacity, writers, clean) && t in calls && calls[t].Writing? && calls[t].todo != []
    requires |buf| < capacity
    ensures CallsOk(calls, rx, tx, buf + [calls[t].todo[0]], capacity, writers, clean)
  {
  }

  /** The last writer is gone and the readers are awake: the mark goes in. */
  lemma MarkOk(calls: Calls, tx: seq<nat>, buf: seq<Byte>, capacity: nat, clean: bool)
    requires CallsOk(calls, [], tx, buf, capacity, 0, clean)
    ensures CallsOk(calls, [], tx, buf + [EOT], capacity, 0, clean)
  {
    if tx != [] {
      assert InWrite(calls[tx[0]]);
    }
  }

  lemma LastWriterOk(calls: Calls, rx: seq<nat>, tx: seq<nat>, buf: seq<Byte>, capacity: nat, writers: nat, clean: bool)
    requires CallsOk(calls, rx, tx, buf, capacity, writers, clean)
    ensures CallsOk(calls, rx, tx, buf, capacity, 0, clean && Idle(calls))
  {
  }
}

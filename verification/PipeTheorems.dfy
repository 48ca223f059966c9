/** What pipes guarantee over runs: bytes arrive in order and none is lost; and exactly when
a waiting thread is forgotten, with the three ways in which that comes about. */
module PipeTheorems {
  import opened Common
  import opened PipeState
  import opened RingBuffers
  import opened Pipes

  datatype Op =
    | BeginRead(t: nat, n: nat) | StepRead(t: nat)
    | BeginWrite(t: nat, data: seq<nat>) | StepWrite(t: nat)
    | Block(t: nat) | Close

  /** The whole state: the buffer, the queues, the calls, and the bytes that came, went and were delivered. */
  datatype Snap = Snap(buf: seq<Byte>, rx: seq<nat>, tx: seq<nat>, writers: nat, calls: Calls,
                       put: seq<Byte>, taken: seq<Byte>, given: seq<Byte>, clean: bool)

  ghost function Now(p: Pipe): Snap
    requires p.ring.Valid()
    reads p, p.ring, p.ring.data
  {
    Snap(p.ring.Contents(), p.rx, p.tx, p.writers, p.calls, p.put, p.taken, p.given, p.clean)
  }

  ghost predicate Sound(cap: nat, s: Snap) {
    && 0 < cap && |s.buf| <= cap && CallsOk(s.calls, s.rx, s.tx, s.buf, cap, s.writers, s.clean)
    && s.put == s.taken + s.buf && s.given == Data(s.taken)
  }

  // ---------------------------------------------------------------------------
  // Runs
  // ---------------------------------------------------------------------------

  /** One locked round of `pipe_read` by thread `t`. */
  ghost function AfterRead(s: Snap, t: nat): Snap
    requires t in s.calls && s.calls[t].Reading?
  {
    var need := s.calls[t].need;
    if need == 0 then s.(calls := AllWoken(s.calls - {t}, s.tx), tx := [])
    else if s.buf != [] then
      var b := s.buf[0];
      s.(buf := s.buf[1..], taken := s.taken + [b], given := if b == EOT then s.given else s.given + [b],
         calls := if b == EOT then s.calls - {t} else s.calls[t := Reading(need - 1)])
    else if s.writers == 0 then s.(calls := s.calls - {t})
    else s.(rx := s.rx + [t], tx := [], calls := AllWoken(s.calls[t := ReadParking(need)], s.tx))
  }

  /** One locked round of `pipe_write` by thread `t`. */
  ghost function AfterWrite(cap: nat, s: Snap, t: nat): Snap
    requires t in s.calls && s.calls[t].Writing?
  {
    var todo := s.calls[t].todo;
    if todo == [] then s.(calls := AllWoken(s.calls - {t}, s.rx), rx := [])
    else if |s.buf| < cap then s.(buf := s.buf + [todo[0]], put := s.put + [todo[0]], calls := s.calls[t := Writing(todo[1..])])
    else s.(tx := s.tx + [t], rx := [], calls := AllWoken(s.calls[t := WriteParking(todo)], s.rx))
  }

  /** The close of a write end. */
  ghost function AfterClose(cap: nat, s: Snap): Snap
    requires 0 < s.writers
  {
    if s.writers > 1 then s.(writers := s.writers - 1)
    else if |s.buf| < cap then
      s.(writers := 0, clean := s.clean && Idle(s.calls), buf := s.buf + [EOT], put := s.put + [EOT], rx := [], calls := AllWoken(s.calls, s.rx))
    else s.(writers := 0, clean := s.clean && Idle(s.calls))
  }

  /** Exactly what one critical section does; where it does not apply, nothing. */
  ghost function After(cap: nat, s: Snap, op: Op): Snap {
    match op
    case BeginRead(t, n) => if t !in s.calls then s.(calls := s.calls[t := Reading(n)]) else s
    case BeginWrite(t, data) =>
      if t !in s.calls && 0 < s.writers then s.(calls := s.calls[t := Writing(data)], clean := s.clean && EOT !in data) else s
    case Block(t) =>
      if t in s.calls && s.calls[t].ReadParking? then s.(calls := s.calls[t := ReadAsleep(s.calls[t].need)])
      else if t in s.calls && s.calls[t].WriteParking? then s.(calls := s.calls[t := WriteAsleep(s.calls[t].todo)])
      else s
    case StepRead(t) => if t in s.calls && s.calls[t].Reading? then AfterRead(s, t) else s
    case StepWrite(t) => if t in s.calls && s.calls[t].Writing? then AfterWrite(cap, s, t) else s
    case Close => if 0 < s.writers then AfterClose(cap, s) else s
  }

  /** One critical section, where it applies. */
  method Perform(p: Pipe, op: Op)
    requires p.Valid()
    modifies p`calls, p`rx, p`tx, p`writers, p`put, p`taken, p`given, p`clean, p.ring, p.ring.data
    ensures p.Valid() && Now(p) == After(p.ring.capacity, old(Now(p)), op)
  {
    hide RingBuffer.Contents, RingBuffer.Valid, Data, CallsOk, Wakes;
    BufferIs(p);
    if op.BeginRead? {
      if op.t !in p.calls { p.StartRead(op.t, op.n); }
    } else if op.BeginWrite? {
      if op.t !in p.calls && 0 < p.writers { p.StartWrite(op.t, op.data); }
    } else if op.Block? {
      if op.t in p.calls && (p.calls[op.t].ReadParking? || p.calls[op.t].WriteParking?) { p.Park(op.t); }
    } else if op.StepRead? {
      if op.t in p.calls && p.calls[op.t].Reading? { PerformRead(p, op.t); }
    } else if op.StepWrite? {
      if op.t in p.calls && p.calls[op.t].Writing? { PerformWrite(p, op.t); }
    } else if 0 < p.writers {
      PerformClose(p);
    }
    BufferIs(p);
  }

  /** What is in the buffer, by what went in and out. */
  lemma BufferIs(p: Pipe)
    requires p.Valid()
    ensures |p.taken| <= |p.put| && p.ring.Contents() == p.put[|p.taken|..] && p.given == Data(p.taken)
  {
    hide RingBuffer.Contents, RingBuffer.Valid, Data, CallsOk;
  }

  method PerformRead(p: Pipe, t: nat)
    requires p.Valid() && t in p.calls && p.calls[t].Reading?
    modifies p`calls, p`rx, p`tx, p`taken, p`given, p.ring
    ensures p.Valid() && Now(p) == AfterRead(old(Now(p)), t)
  {
    hide RingBuffer.Contents, RingBuffer.Valid, Data, CallsOk, Wakes, AllWoken;
    BufferIs(p);
    ghost var calls: Calls, tx, buf, taken := p.calls, p.tx, p.ring.Contents(), p.taken;
    if p.calls[t].need == 0 {
      p.ReadEnd(t);
      WakesAll(calls - {t}, tx, p.calls);
    } else {
      p.ReadStep(t);
      if buf != [] {
        DataSnoc(taken, buf[0]);
      } else if p.writers != 0 {
        WakesAll(calls[t := ReadParking(calls[t].need)], tx, p.calls);
      }
    }
    BufferIs(p);
  }

  method PerformWrite(p: Pipe, t: nat)
    requires p.Valid() && t in p.calls && p.calls[t].Writing?
    modifies p`calls, p`rx, p`tx, p`put, p.ring, p.ring.data
    ensures p.Valid() && Now(p) == AfterWrite(p.ring.capacity, old(Now(p)), t)
  {
    hide RingBuffer.Contents, RingBuffer.Valid, Data, CallsOk, Wakes, AllWoken;
    BufferIs(p);
    ghost var calls: Calls, rx, buf := p.calls, p.rx, p.ring.Contents();
    if p.calls[t].todo == [] {
      p.WriteEnd(t);
      WakesAll(calls - {t}, rx, p.calls);
    } else {
      p.WriteStep(t);
      if |buf| >= p.ring.capacity {
        WakesAll(calls[t := WriteParking(calls[t].todo)], rx, p.calls);
      }
    }
    BufferIs(p);
  }

  method PerformClose(p: Pipe)
    requires p.Valid() && 0 < p.writers
    modifies p`calls, p`rx, p`writers, p`put, p`clean, p.ring, p.ring.data
    ensures p.Valid() && Now(p) == AfterClose(p.ring.capacity, old(Now(p)))
  {
    hide RingBuffer.Contents, RingBuffer.Valid, Data, CallsOk, Wakes, AllWoken, Idle;
    BufferIs(p);
    ghost var calls, rx := p.calls, p.rx;
    var ok := p.CloseWriter();
    if ok && p.writers == 0 {
      WakesAll(calls, rx, p.calls);
    }
    BufferIs(p);
  }

  /** A run, by its states: every one is sound, and each is what its operation makes of the one before. */
  ghost predicate Trace(cap: nat, states: seq<Snap>, ops: seq<Op>) {
    && |states| == |ops| + 1
    && (forall i :: 0 <= i <= |ops| ==> Sound(cap, states[i]))
    && (forall i :: 0 <= i < |ops| ==> states[i + 1] == After(cap, states[i], ops[i]))
  }

  /** Every sequence of critical sections is a run. */
  method RunAll(p: Pipe, ops: seq<Op>) returns (ghost states: seq<Snap>)
    requires p.Valid()
    modifies p`calls, p`rx, p`tx, p`writers, p`put, p`taken, p`given, p`clean, p.ring, p.ring.data
    ensures p.Valid() && Trace(p.ring.capacity, states, ops) && states[0] == old(Now(p)) && states[|ops|] == Now(p)
    ensures AsAsked(states, ops)
  {
    hide RingBuffer.Contents, RingBuffer.Valid, Data, CallsOk, After, AsAsked;
    BufferFits(p);
    states := [Now(p)];
    for i := 0 to |ops|
      invariant p.Valid() && Trace(p.ring.capacity, states, ops[..i]) && states[0] == old(Now(p)) && states[i] == Now(p)
    {
      Perform(p, ops[i]);
      BufferFits(p);
      states := states + [Now(p)];
    }
    assert ops[..|ops|] == ops;
    AllAsAsked(p.ring.capacity, states, ops);
  }

  lemma BufferFits(p: Pipe)
    requires p.Valid()
    ensures Sound(p.ring.capacity, Now(p))
  {
    hide Data, CallsOk;
  }

  // ---------------------------------------------------------------------------
  // What every run keeps
  // ---------------------------------------------------------------------------

  /** What reads delivered, followed by the data still in the buffer, is the data that was put in. */
  lemma DeliveredInOrder(cap: nat, s: Snap)
    requires Sound(cap, s)
    ensures s.given + Data(s.buf) == Data(s.put)
    ensures s.rx == [] || s.tx == []
  {
    DataAppend(s.taken, s.buf);
  }

  // ---------------------------------------------------------------------------
  // What each call does
  // ---------------------------------------------------------------------------

  /** The bytes that steps `i` to `n` of thread `t` put into the pipe. */
  ghost function PutBy(states: seq<Snap>, ops: seq<Op>, i: nat, n: nat, t: nat): seq<Byte>
    requires n <= |ops| < |states|
    decreases n
  {
    if n <= i then []
    else PutBy(states, ops, i, n - 1, t) + (if ops[n - 1] == StepWrite(t) then Added(states[n - 1].put, states[n].put) else [])
  }

  /** The bytes that steps `i` to `n` of thread `t` delivered to it. */
  ghost function GivenTo(states: seq<Snap>, ops: seq<Op>, i: nat, n: nat, t: nat): seq<Byte>
    requires n <= |ops| < |states|
    decreases n
  {
    if n <= i then []
    else GivenTo(states, ops, i, n - 1, t) + (if ops[n - 1] == StepRead(t) then Added(states[n - 1].given, states[n].given) else [])
  }

  /** What `b` has behind `a`. */
  ghost function Added(a: seq<Byte>, b: seq<Byte>): seq<Byte> {
    if |a| <= |b| then b[|a|..] else []
  }

  /** Thread `t` entered a call with operation `i` and is in it up to state `n`. */
  ghost predicate Inside(states: seq<Snap>, i: nat, n: nat, t: nat)
    requires n < |states|
  {
    i < n && t !in states[i].calls && forall k :: i < k <= n ==> t in states[k].calls
  }

  /** A step of another thread leaves a call where it is with its work. */
  lemma OtherStep(cap: nat, s: Snap, op: Op, t: nat)
    requires t in s.calls && op != StepWrite(t) && op != StepRead(t)
    ensures var s' := After(cap, s, op);
            t in s'.calls && (InWrite(s'.calls[t]) <==> InWrite(s.calls[t]))
            && if InWrite(s.calls[t]) then s'.calls[t].todo == s.calls[t].todo else s'.calls[t].need == s.calls[t].need
  {
    hide Idle;
  }

  /** One operation, for a thread inside a write: what it puts and what it has left are what it had left before, and it
      returns only when nothing is left. */
  lemma WriteOne(cap: nat, s: Snap, op: Op, t: nat)
    requires t in s.calls && InWrite(s.calls[t])
    ensures var s' := After(cap, s, op);
            if t in s'.calls then
              InWrite(s'.calls[t]) && (if op == StepWrite(t) then Added(s.put, s'.put) else []) + s'.calls[t].todo == s.calls[t].todo
            else
              op == StepWrite(t) && s.calls[t].todo == []
  {
    hide Idle;
    if op != StepWrite(t) && op != StepRead(t) {
      hide After;
      OtherStep(cap, s, op, t);
    }
  }

  /** One operation, for a thread inside a read: it returns with all it asked for, at the mark, or at the end. */
  lemma ReadOne(cap: nat, s: Snap, op: Op, t: nat)
    requires t in s.calls && !InWrite(s.calls[t])
    ensures var s' := After(cap, s, op);
            if t in s'.calls then
              !InWrite(s'.calls[t]) && (if op == StepRead(t) then |Added(s.given, s'.given)| else 0) + s'.calls[t].need == s.calls[t].need
            else
              op == StepRead(t) && (s.calls[t].need == 0 || (if s.buf != [] then s.buf[0] == 4 else s.writers == 0))
  {
    hide Idle;
    if op != StepWrite(t) && op != StepRead(t) {
      hide After;
      OtherStep(cap, s, op, t);
    }
  }

  /** A thread inside a write: the bytes that it has put since it entered, followed by those it has left, are the bytes
      that it was asked to write. */
  lemma {:induction false} WriteSoFar(cap: nat, states: seq<Snap>, ops: seq<Op>, i: nat, n: nat, t: nat)
    requires Trace(cap, states, ops) && n <= |ops| && Inside(states, i, n, t) && ops[i].BeginWrite? && ops[i].t == t
    ensures InWrite(states[n].calls[t]) && PutBy(states, ops, i + 1, n, t) + states[n].calls[t].todo == ops[i].data
  {
    hide Sound, After;
    assert states[n] == After(cap, states[n - 1], ops[n - 1]);
    if n == i + 1 {
      Entered(cap, states[i], ops[i], t);
    } else {
      WriteSoFar(cap, states, ops, i, n - 1, t);
      WriteOne(cap, states[n - 1], ops[n - 1], t);
    }
  }

  /** A thread inside a read: the bytes given to it since it entered and those it still needs are as many as it asked for. */
  lemma {:induction false} ReadSoFar(cap: nat, states: seq<Snap>, ops: seq<Op>, i: nat, n: nat, t: nat)
    requires Trace(cap, states, ops) && n <= |ops| && Inside(states, i, n, t) && ops[i].BeginRead? && ops[i].t == t
    ensures !InWrite(states[n].calls[t]) && |GivenTo(states, ops, i + 1, n, t)| + states[n].calls[t].need == ops[i].n
  {
    hide Sound, After;
    assert states[n] == After(cap, states[n - 1], ops[n - 1]);
    if n == i + 1 {
      Entered(cap, states[i], ops[i], t);
    } else {
      ReadSoFar(cap, states, ops, i, n - 1, t);
      ReadOne(cap, states[n - 1], ops[n - 1], t);
    }
  }

  lemma Entered(cap: nat, s: Snap, op: Op, t: nat)
    requires t !in s.calls && t in After(cap, s, op).calls
    ensures op.BeginWrite? && op.t == t ==> After(cap, s, op).calls[t] == Writing(op.data)
    ensures op.BeginRead? && op.t == t ==> After(cap, s, op).calls[t] == Reading(op.n)
  {
  }

  /** A write that returns has put every byte that it was asked to write, in order. */
  lemma WriteReturns(cap: nat, states: seq<Snap>, ops: seq<Op>, i: nat, n: nat, t: nat)
    requires Trace(cap, states, ops) && n < |ops| && Inside(states, i, n, t) && ops[i].BeginWrite? && ops[i].t == t && t !in states[n + 1].calls
    ensures PutBy(states, ops, i + 1, n, t) == ops[i].data
  {
    hide Sound, After;
    WriteSoFar(cap, states, ops, i, n, t);
    WriteOne(cap, states[n], ops[n], t);
  }

  /** A read that returns was given as many bytes as it asked for, or it came upon a byte 4, or upon an empty buffer with
      no writer left. */
  lemma ReadReturns(cap: nat, states: seq<Snap>, ops: seq<Op>, i: nat, n: nat, t: nat)
    requires Trace(cap, states, ops) && n < |ops| && Inside(states, i, n, t) && ops[i].BeginRead? && ops[i].t == t && t !in states[n + 1].calls
    ensures |GivenTo(states, ops, i + 1, n, t)| <= ops[i].n
    ensures |GivenTo(states, ops, i + 1, n, t)| == ops[i].n || (if states[n].buf != [] then states[n].buf[0] == 4 else states[n].writers == 0)
  {
    hide Sound, After;
    ReadSoFar(cap, states, ops, i, n, t);
    ReadOne(cap, states[n], ops[n], t);
  }

  /** Every call of the run, entered with operation `i` and not yet left at state `n`. */
  ghost predicate AsAsked(states: seq<Snap>, ops: seq<Op>)
    requires |states| == |ops| + 1
  {
    forall i, n :: 0 <= i < n <= |ops| && (ops[i].BeginWrite? || ops[i].BeginRead?) && Inside(states, i, n, ops[i].t) ==> Owes(states, ops, i, n)
  }

  /** What the call did and what it has left to do make up what it was asked. */
  ghost predicate Owes(states: seq<Snap>, ops: seq<Op>, i: nat, n: nat)
    requires i < n <= |ops| < |states| && (ops[i].BeginWrite? || ops[i].BeginRead?) && Inside(states, i, n, ops[i].t)
  {
    var t := ops[i].t;
    if ops[i].BeginWrite? then
      InWrite(states[n].calls[t]) && PutBy(states, ops, i + 1, n, t) + states[n].calls[t].todo == ops[i].data
    else
      !InWrite(states[n].calls[t]) && |GivenTo(states, ops, i + 1, n, t)| + states[n].calls[t].need == ops[i].n
  }

  lemma AllAsAsked(cap: nat, states: seq<Snap>, ops: seq<Op>)
    requires Trace(cap, states, ops)
    ensures AsAsked(states, ops)
  {
    hide Sound, After, Inside, PutBy, GivenTo;
    forall i, n | 0 <= i < n <= |ops| && (ops[i].BeginWrite? || ops[i].BeginRead?) && Inside(states, i, n, ops[i].t)
      ensures Owes(states, ops, i, n)
    {
      if ops[i].BeginWrite? {
        WriteSoFar(cap, states, ops, i, n, ops[i].t);
      } else {
        ReadSoFar(cap, states, ops, i, n, ops[i].t);
      }
    }
  }

  // ---------------------------------------------------------------------------
  // Who is remembered
  // ---------------------------------------------------------------------------

  /** A reader asleep with data to read has a writer at work to wake it, and a writer asleep with room to write has a
      reader at work. */
  ghost predicate NobodyForgotten(cap: nat, s: Snap) {
    && ((exists t :: t in s.calls && s.calls[t].ReadAsleep?) && s.buf != [] ==> SomeWriting(s.calls))
    && ((exists t :: t in s.calls && s.calls[t].WriteAsleep?) && |s.buf| < cap ==> SomeReading(s.calls))
  }

  /** The queue that the operation wakes. */
  ghost function Waking(cap: nat, s: Snap, op: Op): seq<nat> {
    match op
    case StepRead(t) =>
      if t in s.calls && s.calls[t].Reading? && (s.calls[t].need == 0 || (s.buf == [] && s.writers != 0)) then s.tx else []
    case StepWrite(t) =>
      if t in s.calls && s.calls[t].Writing? && (s.calls[t].todo == [] || cap <= |s.buf|) then s.rx else []
    case Close => if s.writers == 1 && |s.buf| < cap then s.rx else []
    case _ => []
  }

  /** The operation is a read that ends without waking the writers that are queued, at a byte 4 or at an empty buffer
      with no writer left, and no other reader is at work. */
  ghost predicate Slips(s: Snap, op: Op) {
    && op.StepRead? && op.t in s.calls && s.calls[op.t].Reading? && 0 < s.calls[op.t].need && s.tx != []
    && (if s.buf != [] then s.buf[0] == EOT else s.writers == 0)
    && !SomeReading(s.calls - {op.t})
  }

  /** No thread waits outside its queue. */
  ghost predicate Kept(s: Snap) {
    NoneLost(s.calls, s.rx, s.tx)
  }

  /** Queued readers with data to read have a writer at work, and queued writers with room to write a reader. */
  ghost predicate Tended(cap: nat, s: Snap) {
    && (s.rx != [] && s.buf != [] ==> SomeWriting(s.calls))
    && (s.tx != [] && |s.buf| < cap ==> SomeReading(s.calls))
  }

  /** Waking a queue, for a thread in it and for one that is not. */
  lemma WakeLoses(calls: Calls, rx: seq<nat>, tx: seq<nat>, q: seq<nat>)
    requires Queued(calls, rx, tx) && NoneLost(calls, rx, tx)
    ensures q == rx ==> (NoneLost(AllWoken(calls, q), [], tx) <==> Settled(calls, q))
    ensures q == tx ==> (NoneLost(AllWoken(calls, q), rx, []) <==> Settled(calls, q))
  {
    if !Settled(calls, q) && (q == rx || q == tx) {
      var i :| 0 <= i < |q| && q[i] in calls && (calls[q[i]].ReadParking? || calls[q[i]].WriteParking?);
      var woken := AllWoken(calls, q);
      assert q[i] in woken && woken[q[i]] == calls[q[i]];
    }
  }

  lemma ReadLoses(cap: nat, s: Snap, t: nat)
    requires Queued(s.calls, s.rx, s.tx) && t in s.calls && s.calls[t].Reading? && Kept(s)
    ensures Kept(AfterRead(s, t)) <==> Settled(s.calls, Waking(cap, s, StepRead(t)))
  {
    hide AllWoken;
    assert t !in s.rx && t !in s.tx;
    if s.calls[t].need == 0 {
      WakeLoses(s.calls - {t}, s.rx, s.tx, s.tx);
    } else if s.buf == [] && s.writers != 0 {
      ParkLoses(s, t);
    }
  }

  /** A reader queues itself and wakes the writers. */
  lemma ParkLoses(s: Snap, t: nat)
    requires Queued(s.calls, s.rx, s.tx) && t in s.calls && s.calls[t].Reading? && Kept(s)
    ensures NoneLost(AllWoken(s.calls[t := ReadParking(s.calls[t].need)], s.tx), s.rx + [t], []) <==> Settled(s.calls, s.tx)
  {
    var calls := s.calls[t := ReadParking(s.calls[t].need)];
    var woken := AllWoken(calls, s.tx);
    if !Settled(s.calls, s.tx) {
      var i :| 0 <= i < |s.tx| && s.tx[i] in s.calls && (s.calls[s.tx[i]].ReadParking? || s.calls[s.tx[i]].WriteParking?);
      assert s.tx[i] in woken && woken[s.tx[i]] == s.calls[s.tx[i]];
    }
  }

  lemma WriteLoses(cap: nat, s: Snap, t: nat)
    requires Queued(s.calls, s.rx, s.tx) && t in s.calls && s.calls[t].Writing? && Kept(s)
    ensures Kept(AfterWrite(cap, s, t)) <==> Settled(s.calls, Waking(cap, s, StepWrite(t)))
  {
    hide AllWoken;
    assert t !in s.rx && t !in s.tx;
    if s.calls[t].todo == [] {
      WakeLoses(s.calls - {t}, s.rx, s.tx, s.rx);
    } else if cap <= |s.buf| {
      QueueLoses(s, t);
    }
  }

  /** A writer queues itself and wakes the readers. */
  lemma QueueLoses(s: Snap, t: nat)
    requires Queued(s.calls, s.rx, s.tx) && t in s.calls && s.calls[t].Writing? && Kept(s)
    ensures NoneLost(AllWoken(s.calls[t := WriteParking(s.calls[t].todo)], s.rx), [], s.tx + [t]) <==> Settled(s.calls, s.rx)
  {
    var calls := s.calls[t := WriteParking(s.calls[t].todo)];
    var woken := AllWoken(calls, s.rx);
    if !Settled(s.calls, s.rx) {
      var i :| 0 <= i < |s.rx| && s.rx[i] in s.calls && (s.calls[s.rx[i]].ReadParking? || s.calls[s.rx[i]].WriteParking?);
      assert s.rx[i] in woken && woken[s.rx[i]] == s.calls[s.rx[i]];
    }
  }

  /** An operation loses a thread if and only if it wakes a queue with a thread in it that is still on its way to sleep. */
  lemma LosesIff(cap: nat, s: Snap, op: Op)
    requires Sound(cap, s) && Kept(s)
    ensures Kept(After(cap, s, op)) <==> Settled(s.calls, Waking(cap, s, op))
  {
    hide Data, AllWoken, Settled, AfterRead, AfterWrite, Attended, MarkedLast, Idle, NoneLost;
    EmptySettled(s.calls);
    if op.StepRead? {
      if op.t in s.calls && s.calls[op.t].Reading? { ReadLoses(cap, s, op.t); }
    } else if op.StepWrite? {
      if op.t in s.calls && s.calls[op.t].Writing? { WriteLoses(cap, s, op.t); }
    } else if op.Close? {
      WakeLoses(s.calls, s.rx, s.tx, s.rx);
    } else {
      MoveKept(cap, s, op);
    }
  }

  lemma EmptySettled(calls: Calls)
    ensures Settled(calls, [])
  {
  }

  /** The operations that wake nobody. */
  lemma MoveKept(cap: nat, s: Snap, op: Op)
    requires Kept(s) && (op.BeginRead? || op.BeginWrite? || op.Block?)
    ensures Kept(After(cap, s, op))
  {
  }

  /** A lost thread stays lost, whatever happens. */
  lemma LostForGood(cap: nat, s: Snap, op: Op, t: nat)
    requires Sound(cap, s) && t in s.calls && ((ReadWaits(s.calls[t]) && t !in s.rx) || (WriteWaits(s.calls[t]) && t !in s.tx))
    ensures var s' := After(cap, s, op); t in s'.calls && ((ReadWaits(s'.calls[t]) && t !in s'.rx) || (WriteWaits(s'.calls[t]) && t !in s'.tx))
  {
    hide Data, Attended, MarkedLast, Idle;
  }

  /** Queued threads stay tended exactly if the operation does not slip. */
  lemma TendedIff(cap: nat, s: Snap, op: Op)
    requires Sound(cap, s) && Sound(cap, After(cap, s, op)) && Tended(cap, s)
    ensures Tended(cap, After(cap, s, op)) <==> !Slips(s, op)
  {
    hide Data, MarkedLast, Idle, SomeReading, Queued;
    var s' := After(cap, s, op);
    if op.StepRead? && op.t in s.calls && s.calls[op.t].Reading? {
      if op.t in s'.calls {
        ReadsOn(s', op.t);
      }
    } else if SomeReading(s.calls) {
      StillReading(cap, s, op);
    }
  }

  lemma ReadsOn(s: Snap, t: nat)
    requires t in s.calls
    ensures s.calls[t].Reading? ==> SomeReading(s.calls)
  {
  }

  /** Only its own step ends a read. */
  lemma StillReading(cap: nat, s: Snap, op: Op)
    requires SomeReading(s.calls) && !(op.StepRead? && op.t in s.calls && s.calls[op.t].Reading?)
    ensures SomeReading(After(cap, s, op).calls)
  {
    hide Idle;
    var u :| u in s.calls && s.calls[u].Reading?;
    assert u in After(cap, s, op).calls && After(cap, s, op).calls[u].Reading?;
  }

  /** Over a run, no thread is lost if and only if no operation wakes a queue with a thread in it that is still on its way
      to sleep. */
  lemma {:induction false} KeptExactly(cap: nat, states: seq<Snap>, ops: seq<Op>, n: nat)
    requires Trace(cap, states, ops) && n <= |ops| && Kept(states[0])
    ensures Kept(states[n]) <==> forall i :: 0 <= i < n ==> Settled(states[i].calls, Waking(cap, states[i], ops[i]))
  {
    hide Sound, Settled, After, Waking;
    if n != 0 {
      KeptExactly(cap, states, ops, n - 1);
      var s, op := states[n - 1], ops[n - 1];
      assert states[n] == After(cap, s, op);
      if Kept(s) {
        LosesIff(cap, s, op);
      } else {
        var t :| t in s.calls && ((ReadWaits(s.calls[t]) && t !in s.rx) || (WriteWaits(s.calls[t]) && t !in s.tx));
        LostForGood(cap, s, op, t);
      }
    }
  }

  /** What has to be minded: nobody is woken on the way to sleep, and no read slips away. */
  ghost predicate Minds(cap: nat, s: Snap, op: Op) {
    Settled(s.calls, Waking(cap, s, op)) && !Slips(s, op)
  }

  /** Over a run, every thread is kept and tended in all states up to `n` if and only if all operations before minded
      that; and in such states nobody is forgotten. */
  lemma {:induction false} Remembered(cap: nat, states: seq<Snap>, ops: seq<Op>, n: nat)
    requires Trace(cap, states, ops) && n <= |ops| && Kept(states[0]) && Tended(cap, states[0])
    ensures (forall i :: 0 <= i <= n ==> Kept(states[i]) && Tended(cap, states[i])) <==> (forall i :: 0 <= i < n ==> Minds(cap, states[i], ops[i]))
    ensures (forall i :: 0 <= i < n ==> Minds(cap, states[i], ops[i])) ==> NobodyForgotten(cap, states[n])
  {
    hide Data, NoneLost, Settled, After, CallsOk, Slips, Tended, NobodyForgotten, Waking;
    if n != 0 {
      Remembered(cap, states, ops, n - 1);
      var s, op := states[n - 1], ops[n - 1];
      assert states[n] == After(cap, s, op);
      if Kept(s) && Tended(cap, s) {
        LosesIff(cap, s, op);
        TendedIff(cap, s, op);
      }
    }
    if Kept(states[n]) && Tended(cap, states[n]) {
      TendedRemember(cap, states[n]);
    }
  }

  lemma TendedRemember(cap: nat, s: Snap)
    requires Kept(s) && Tended(cap, s)
    ensures NobodyForgotten(cap, s)
  {
  }

  /** The operation sends no byte 4 and does not close the last write end under a write. */
  ghost predicate Plain(s: Snap, op: Op) {
    (op.BeginWrite? ==> EOT !in op.data) && (op.Close? && s.writers == 1 ==> Idle(s.calls))
  }

  /** While the operations are plain, no read slips. */
  lemma CleanNeverSlips(cap: nat, s: Snap, op: Op)
    requires Sound(cap, s) && s.clean
    ensures !Slips(s, op) && (Plain(s, op) ==> After(cap, s, op).clean)
  {
    hide Data, Attended;
    if s.tx != [] {
      assert InWrite(s.calls[s.tx[0]]);
    }
  }

  /** So in a run of plain operations it is enough that nobody is woken on the way to sleep. */
  lemma {:induction false} PlainRun(cap: nat, states: seq<Snap>, ops: seq<Op>, n: nat)
    requires Trace(cap, states, ops) && n <= |ops| && states[0].clean
    requires forall i :: 0 <= i < n ==> Plain(states[i], ops[i])
    ensures states[n].clean && forall i :: 0 <= i < n ==> !Slips(states[i], ops[i])
  {
    hide Sound, After, Slips, Plain;
    if n != 0 {
      PlainRun(cap, states, ops, n - 1);
      CleanNeverSlips(cap, states[n - 1], ops[n - 1]);
    }
  }

  // ---------------------------------------------------------------------------
  // How a thread is forgotten
  // ---------------------------------------------------------------------------

  /** A reader of a new pipe of capacity 1, between queueing itself and blocking. */
  method ParkingReader() returns (p: Pipe)
    ensures p.Valid() && fresh(p) && fresh(p.ring) && fresh(p.ring.data) && p.clean && p.writers == 1 && p.ring.capacity == 1
    ensures p.calls == map[1 := ReadParking(1)] && p.rx == [1] && p.tx == [] && p.ring.Contents() == []
  {
    hide CallsOk, RingBuffer.Contents, RingBuffer.Valid, Data, NoneLost;
    p := new Pipe(1);
    p.StartRead(1, 1);
    p.ReadStep(1);
    assert p.put == p.taken + p.ring.Contents();
  }

  /** A reader that is woken after it queued itself and before it blocks sleeps on with a byte in the buffer, and no
      thread left to wake it. */
  method WokenTooSoon() returns (p: Pipe)
    ensures p.Valid() && p.clean && p.ring.capacity == 1 && p.calls == map[1 := ReadAsleep(1)] && p.ring.Contents() == [7] && !NobodyForgotten(1, Now(p))
  {
    hide CallsOk, RingBuffer.Contents, RingBuffer.Valid, Data, NoneLost, NobodyForgotten;
    p := ParkingReader();
    p.StartWrite(2, [7]);
    p.WriteStep(2);
    assert [7][1..] == [];
    assert p.calls[2] == Writing([]);
    p.WriteEnd(2);
    p.Park(1);
    assert p.calls == map[1 := ReadAsleep(1)];
    ReaderForgotten(p);
  }

  lemma ReaderForgotten(p: Pipe)
    requires p.Valid() && p.calls == map[1 := ReadAsleep(1)] && p.ring.Contents() != []
    ensures !NobodyForgotten(1, Now(p))
  {
    hide CallsOk, RingBuffer.Contents, RingBuffer.Valid, Data;
    assert 1 in p.calls && p.calls[1].ReadAsleep?;
  }

  /** A writer that sent byte `x` sleeps until there is room for a second byte. */
  method SleepingWriter(x: Byte) returns (p: Pipe)
    ensures p.Valid() && fresh(p) && fresh(p.ring) && fresh(p.ring.data) && p.ring.capacity == 1 && p.writers == 1 && p.clean == (x != EOT)
    ensures p.calls == map[1 := WriteAsleep([7])] && p.tx == [1] && p.rx == [] && p.ring.Contents() == [x]
  {
    hide CallsOk, RingBuffer.Contents, RingBuffer.Valid, Data, NoneLost;
    p := FullPipe(x);
    p.WriteStep(1);
    assert p.calls[1] == WriteParking([7]);
    p.Park(1);
  }

  method FullPipe(x: Byte) returns (p: Pipe)
    ensures p.Valid() && fresh(p) && fresh(p.ring) && fresh(p.ring.data) && p.ring.capacity == 1 && p.writers == 1 && p.clean == (x != EOT)
    ensures p.calls == map[1 := Writing([7])] && p.tx == [] && p.rx == [] && p.ring.Contents() == [x]
  {
    hide CallsOk, RingBuffer.Contents, RingBuffer.Valid, Data, NoneLost;
    p := new Pipe(1);
    p.StartWrite(1, [x, 7]);
    assert p.calls[1].todo[1..] == [7];
    p.WriteStep(1);
  }

  /** The last write end is closed under a write, and refused as the buffer is full.  The next read takes what there is
      and leaves without waking the writer, which sleeps on with room in the buffer. */
  method ClosedUnderWrite() returns (p: Pipe)
    ensures p.Valid() && NoneLost(p.calls, p.rx, p.tx) && p.calls == map[1 := WriteAsleep([7])] && p.ring.Contents() == []
    ensures !NobodyForgotten(1, Now(p))
  {
    hide CallsOk, RingBuffer.Contents, RingBuffer.Valid, Data, NobodyForgotten;
    p := ReadToTheEnd();
    p.ReadStep(2);
    assert p.calls == map[1 := WriteAsleep([7])];
    assert p.put == p.taken + p.ring.Contents();
    WriterForgotten(p);
  }

  method ReadToTheEnd() returns (p: Pipe)
    ensures p.Valid() && fresh(p) && fresh(p.ring) && fresh(p.ring.data) && p.ring.capacity == 1 && p.writers == 0
    ensures p.calls == map[1 := WriteAsleep([7]), 2 := Reading(1)] && p.tx == [1] && p.rx == [] && p.ring.Contents() == []
  {
    hide CallsOk, RingBuffer.Contents, RingBuffer.Valid, Data, NoneLost;
    p := SleepingWriter(9);
    var ok := p.CloseWriter();
    BufferIs(p);
    p.StartRead(2, 2);
    assert p.calls == map[1 := WriteAsleep([7]), 2 := Reading(2)];
    ghost var put, taken := p.put, p.taken;
    assert put == taken + [9];
    p.ReadStep(2);
    assert p.calls == map[1 := WriteAsleep([7]), 2 := Reading(2)][2 := Reading(1)];
    assert p.put == (taken + [9]) + p.ring.Contents();
  }

  /** A data byte 4 ends a read that does not wake the writers: one sleeps on with room in the buffer. */
  method TakenForTheEnd() returns (p: Pipe)
    ensures p.Valid() && NoneLost(p.calls, p.rx, p.tx) && p.calls == map[1 := WriteAsleep([7])] && p.ring.Contents() == []
    ensures !NobodyForgotten(1, Now(p))
  {
    hide CallsOk, RingBuffer.Contents, RingBuffer.Valid, Data, NobodyForgotten;
    p := SleepingWriter(EOT);
    p.StartRead(2, 1);
    ghost var put, taken, buf := p.put, p.taken, p.ring.Contents();
    p.ReadStep(2);
    assert p.calls == map[1 := WriteAsleep([7])];
    assert p.put == (taken + [EOT]) + p.ring.Contents() && put == taken + [EOT];
    WriterForgotten(p);
  }

  lemma WriterForgotten(p: Pipe)
    requires p.Valid() && p.calls == map[1 := WriteAsleep([7])] && p.ring.Contents() == []
    ensures !NobodyForgotten(1, Now(p))
  {
    hide CallsOk, RingBuffer.Contents, RingBuffer.Valid, Data;
    assert 1 in p.calls && p.calls[1].WriteAsleep?;
  }
}

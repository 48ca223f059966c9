/** What the scheduler guarantees over runs: a bound on waiting, one place per thread, and safe reaping. */
module SchedulerTheorems {
  import opened Common
  import opened ReadyQueues
  import opened ThreadTable
  import opened Scheduler

  datatype Op =
    | TickOn(cpu: nat) | BlockSelf(cpu: nat, waiting: bool) | StopSelf(cpu: nat) | ExitSelf(cpu: nat)
    | StopIt(t: nat) | TerminateIt(t: nat) | UnblockIt(t: nat) | ContinueIt(t: nat)
    | NewProc(pid: nat) | Spawn(pid: nat, t: nat) | AddIt(t: nat) | CleanupIt(t: nat) | SetPriority(t: nat, priority: nat)

  /** The operation is aimed at thread `t` by another. */
  ghost predicate Names(op: Op, t: nat) {
    (op.StopIt? || op.TerminateIt? || op.CleanupIt?) && op.t == t
  }

  // ---------------------------------------------------------------------------
  // Runs
  // ---------------------------------------------------------------------------

  /** The whole state. */
  datatype Snap = Snap(queues: Queues, threads: Threads, procs: Procs, current: seq<Option<nat>>, on: map<nat, nat>, handed: set<nat>)

  ghost function Now(k: Kernel): Snap
    reads k
  {
    Snap(k.queues, k.threads, k.procs, k.current, k.on, k.handed)
  }

  ghost predicate Sound(s: Snap) {
    Placed(s.queues, s.threads, s.current, s.on, s.handed) && Counted(s.threads, s.procs)
  }

  /** The operations that end in a pick, where they apply. */
  ghost predicate Yields(s: Snap, op: Op) {
    && (op.TickOn? || op.BlockSelf? || op.StopSelf? || op.ExitSelf?)
    && op.cpu < |s.current| && (op.TickOn? || s.current[op.cpu].Some?)
    && (op.StopSelf? ==> s.current[op.cpu].value in s.threads && s.threads[s.current[op.cpu].value].state != Stopped)
  }

  /** Thread `t` is current on some processor. */
  predicate OnSome(current: seq<Option<nat>>, t: nat) {
    exists c :: 0 <= c < |current| && current[c] == Some(t)
  }

  /** The operations that do not wait for a processor to let go of a thread: continuing one that was stopped from
      elsewhere, or cleaning up one that was terminated from elsewhere, while it is still current. */
  predicate Daring(threads: Threads, current: seq<Option<nat>>, op: Op) {
    && (op.ContinueIt? || op.CleanupIt?) && op.t in threads && OnSome(current, op.t)
    && (op.ContinueIt? ==> threads[op.t].state == Stopped && !Lingers(Resumed(threads[op.t]).state))
    && (op.CleanupIt? ==> threads[op.t].state == Zombie)
  }

  /** Thread `t` enters the queue of its priority, unless it is in one. */
  ghost function HandedIn(s: Snap, t: nat): Queues {
    if t in s.threads && s.threads[t].priority < PRIORITIES && WellFormed(s.queues) then Admitted(s.queues, t, s.threads[t].priority) else s.queues
  }

  /** Thread `t` becomes `th`, its process is told, and it is queued if it is ready now. */
  ghost function Altered(s: Snap, t: nat, th: Thread): Snap {
    var now := s.threads[t := th];
    s.(threads := now, procs := Told(s.procs, s.threads, t, now), queues := if th.state == Ready then HandedIn(s, t) else s.queues)
  }

  /** The state in which the pick is made: what becomes of the thread that ran. */
  ghost function Yielded(s: Snap, op: Op): Snap
    requires Yields(s, op)
  {
    if s.current[op.cpu].None? || s.current[op.cpu].value !in s.threads then s
    else
      var t := s.current[op.cpu].value;
      var th := s.threads[t];
      match op
      case TickOn(_) => if th.state == Running then s.(queues := HandedIn(s, t), threads := s.threads[t := th.(state := Ready)]) else s
      case BlockSelf(_, waiting) => Altered(s, t, th.(state := Blocked, waiting := waiting))
      case StopSelf(_) => Altered(s, t, th.(state := Stopped, stoppedState := th.state))
      case _ => Altered(s, t, th.(state := Zombie))
  }

  /** The operations on a thread `t` of the table. */
  ghost function Treated(s: Snap, op: Op, t: nat): Snap
    requires t in s.threads
  {
    var th := s.threads[t];
    match op
    case UnblockIt(_) => if th.state == Blocked then Altered(s, t, th.(state := Ready, waiting := false)) else s
    case ContinueIt(_) => if th.state == Stopped then Altered(s, t, Resumed(th)) else s
    case AddIt(_) => if th.state == Ready then s.(queues := HandedIn(s, t)) else s
    case StopIt(_) => if th.state != Stopped then Altered(s, t, th.(state := Stopped, stoppedState := th.state)) else s
    case TerminateIt(_) => if th.state != Zombie then Altered(s, t, th.(state := Zombie)) else s
    case CleanupIt(_) =>
      if th.state == Zombie && WellFormed(s.queues) then
        s.(queues := ReadyQueues.Left(s.queues, t), threads := s.threads - {t}, procs := Told(s.procs, s.threads, t, s.threads - {t}))
      else s
    case SetPriority(_, priority) => if priority < PRIORITIES then s.(threads := s.threads[t := th.(priority := priority)]) else s
    case _ => s
  }

  /** What an operation that does not pick makes of the state; where it does not apply, nothing. */
  ghost function Settled(s: Snap, op: Op): Snap {
    match op
    case NewProc(pid) => if pid !in s.procs then s.(procs := s.procs[pid := Proc(0, 0, 0, 0, ProcRunning)]) else s
    case Spawn(pid, t) =>
      if pid in s.procs && t !in s.threads then
        var now := s.threads[t := Thread(Ready, Ready, pid, 1, false)];
        s.(threads := now, procs := Told(s.procs, s.threads, t, now))
      else s
    case TickOn(_) => s
    case BlockSelf(_, _) => s
    case StopSelf(_) => s
    case ExitSelf(_) => s
    case _ => if op.t in s.threads then Treated(s, op, op.t) else s
  }

  ghost predicate Same(s: Snap, s': Snap) {
    s'.queues == s.queues && s'.threads == s.threads && s'.procs == s.procs && s'.current == s.current
  }

  /** Exactly what operation `op` does: those that pick hand the processor to the thread picked among all that are
      ready, and say so in `out`. */
  ghost predicate Step(s: Snap, op: Op, out: Option<Option<nat>>, s': Snap) {
    && (out.Some? <==> Yields(s, op))
    && (out.None? ==> Same(Settled(s, op), s'))
    && (out.Some? ==>
          var m, r := Yielded(s, op), out.value;
          && WellFormed(m.queues) && Picks(m.queues, ReadySet(m.threads), s'.queues, r)
          && s'.threads == Switched(m.threads, r) && s'.procs == m.procs && s'.current == s.current[op.cpu := r])
  }

  /** Any operation, where it applies.  It leaves the threads in their places unless it is a daring one. */
  method Perform(k: Kernel, op: Op) returns (out: Option<Option<nat>>)
    requires k.Valid()
    modifies k`queues, k`threads, k`procs, k`current, k`on, k`handed
    ensures Step(old(Now(k)), op, out, Now(k)) && (k.Valid() <==> !Daring(old(k.threads), old(k.current), op))
  {
    hide Placed, Counted, WellFormed, Picks, Told, ReadySet, Switched, Admitted;
    KnownEntries(k.queues, k.threads, k.current, k.on, k.handed);
    out := None;
    if op.TickOn? || op.BlockSelf? || op.StopSelf? || op.ExitSelf? {
      if op.cpu < |k.current| && (op.TickOn? || k.current[op.cpu].Some?) {
        out := PerformPick(k, op);
      }
    } else {
      PerformQuiet(k, op);
    }
  }

  method PerformPick(k: Kernel, op: Op) returns (out: Option<Option<nat>>)
    requires k.Valid() && (op.TickOn? || op.BlockSelf? || op.StopSelf? || op.ExitSelf?)
    requires op.cpu < |k.current| && (op.TickOn? || k.current[op.cpu].Some?)
    modifies k`queues, k`threads, k`procs, k`current, k`on, k`handed
    ensures k.Valid() && Step(old(Now(k)), op, out, Now(k))
  {
    hide Placed, Counted, WellFormed, Picks, Told, ReadySet, Switched, ReadyStay, Joins, Admitted;
    KnownEntries(k.queues, k.threads, k.current, k.on, k.handed);
    if k.current[op.cpu].Some? {
      CurrentRuns(k.queues, k.threads, k.current, k.on, k.handed, op.cpu);
      PriorityOk(k.queues, k.threads, k.current, k.on, k.handed, k.current[op.cpu].value);
      ReadyNow(k.threads, k.current[op.cpu].value);
    }
    ghost var q1, ready;
    var r;
    if op.TickOn? {
      r, q1, ready := k.Tick(op.cpu);
      out := Some(r);
    } else if op.BlockSelf? {
      r, ready := k.SelfBlock(op.cpu, op.waiting);
      out := Some(r);
    } else if op.StopSelf? {
      out, ready := k.SelfStop(op.cpu);
    } else {
      r, ready := k.SelfExit(op.cpu);
      out := Some(r);
    }
  }

  lemma ReadyNow(threads: Threads, t: nat)
    requires t in threads
    ensures ReadySet(threads[t := threads[t].(state := Ready)]) == ReadySet(threads) + {t}
  {
  }

  method PerformQuiet(k: Kernel, op: Op)
    requires k.Valid() && !(op.TickOn? || op.BlockSelf? || op.StopSelf? || op.ExitSelf?)
    modifies k`queues, k`threads, k`procs, k`handed
    ensures Same(Settled(old(Now(k)), op), Now(k)) && (k.Valid() <==> !Daring(old(k.threads), old(k.current), op))
  {
    hide Placed, Counted, WellFormed, Joins, Told, Admitted;
    if op.NewProc? {
      if op.pid !in k.procs { k.NewProcess(op.pid); }
    } else if op.Spawn? {
      if op.pid in k.procs && op.t !in k.threads { k.Create(op.pid, op.t); }
    } else if op.t in k.threads {
      PerformOn(k, op);
    }
  }

  /** The operations on a thread of the table. */
  method PerformOn(k: Kernel, op: Op)
    requires k.Valid() && (op.UnblockIt? || op.ContinueIt? || op.AddIt? || op.StopIt? || op.TerminateIt? || op.CleanupIt? || op.SetPriority?)
    requires op.t in k.threads
    modifies k`queues, k`threads, k`procs, k`handed
    ensures Same(Treated(old(Now(k)), op, op.t), Now(k)) && (k.Valid() <==> !Daring(old(k.threads), old(k.current), op))
  {
    hide Placed, Counted, WellFormed, Joins, Told, Admitted, OnSome;
    KnownEntries(k.queues, k.threads, k.current, k.on, k.handed);
    PriorityOk(k.queues, k.threads, k.current, k.on, k.handed, op.t);
    CurrentIs(k, op.t);
    if op.UnblockIt? {
      k.Unblock(op.t);
    } else if op.ContinueIt? {
      k.Continue(op.t);
    } else if op.AddIt? {
      k.Add(op.t);
    } else if op.SetPriority? {
      k.ChangePriority(op.t, op.priority);
    } else if op.StopIt? {
      k.Stop(op.t);
    } else if op.TerminateIt? {
      k.Terminate(op.t);
      assert old(k.threads)[op.t].state == Zombie ==> k.threads == old(k.threads);
    } else if k.threads[op.t].state == Zombie {
      k.Cleanup(op.t);
    }
  }

  lemma CurrentIs(k: Kernel, t: nat)
    requires k.Valid()
    ensures OnSome(k.current, t) <==> t in k.on
  {
    hide QueuedOk, HandedOk, Counted;
    if t in k.on {
      assert k.current[k.on[t]] == Some(t);
    }
  }

  /** A run without daring operations, by its states: every one is sound, and each follows from the one before by its
      operation. */
  ghost predicate Trace(states: seq<Snap>, ops: seq<Op>, outs: seq<Option<Option<nat>>>) {
    && |states| == |ops| + 1 && |outs| == |ops|
    && (forall i :: 0 <= i <= |ops| ==> Sound(states[i]))
    && (forall i :: 0 <= i < |ops| ==> Step(states[i], ops[i], outs[i], states[i + 1]) && !Daring(states[i].threads, states[i].current, ops[i]))
  }

  /** Every sequence of operations is a run, up to the first daring one. */
  method RunAll(k: Kernel, ops: seq<Op>) returns (outs: seq<Option<Option<nat>>>, ghost states: seq<Snap>)
    requires k.Valid()
    modifies k`queues, k`threads, k`procs, k`current, k`on, k`handed
    ensures k.Valid() && |outs| <= |ops| && Trace(states, ops[..|outs|], outs) && states[0] == old(Now(k)) && states[|outs|] == Now(k)
    ensures |outs| < |ops| ==> Daring(k.threads, k.current, ops[|outs|])
  {
    hide Placed, Counted, Step, Daring;
    outs, states := [], [Now(k)];
    while |outs| < |ops| && !Daring(k.threads, k.current, ops[|outs|])
      invariant k.Valid() && |outs| <= |ops| && Trace(states, ops[..|outs|], outs) && states[0] == old(Now(k)) && states[|outs|] == Now(k)
      decreases |ops| - |outs|
    {
      var out := Perform(k, ops[|outs|]);
      outs, states := outs + [out], states + [Now(k)];
    }
  }

  // ---------------------------------------------------------------------------
  // Daring operations
  // ---------------------------------------------------------------------------

  /** A thread that runs on processor 0 is stopped and continued by another.  It is still current there, and the next
      pick, for whatever processor, returns it. */
  method TwoAtOnce() returns (k: Kernel, r: Option<nat>)
    ensures |k.current| == 2 && k.current[0] == Some(7) && r == Some(7)
  {
    hide Placed, Counted, Told, ReadyStay, Joins, Admitted, Entries, ReadySet, Picks, WellFormed;
    k := RunsOnZero();
    k.Stop(7);
    KnownEntries(k.queues, k.threads, k.current, k.on, k.handed);
    ghost var q := k.queues;
    k.Continue(7);
    AdmittedEntries(q, 7, k.threads[7].priority);
    OnlyReady(k.threads, 7);
    ghost var q1 := k.queues;
    r := k.NextLocked();
    OnlyPick(q1, 7, k.queues, r);
  }

  /** A thread that runs on processor 0 is terminated and cleaned up by another.  It is in no table, and still current. */
  method CleanedTooSoon() returns (k: Kernel)
    ensures |k.current| == 2 && k.current[0] == Some(7) && k.threads == map[]
  {
    hide Placed, Counted, Told, ReadyStay, Joins, Admitted, Entries, ReadySet, Picks, WellFormed;
    k := RunsOnZero();
    k.Terminate(7);
    k.Cleanup(7);
  }

  method RunsOnZero() returns (k: Kernel)
    ensures fresh(k) && k.Valid() && |k.current| == 2 && k.current[0] == Some(7) && k.threads == map[7 := Thread(Running, Ready, 1, 1, false)]
  {
    hide Placed, Counted, Told, ReadyStay, Joins, Admitted, Entries, ReadySet, Picks, WellFormed;
    k := new Kernel(2);
    k.NewProcess(1);
    k.Create(1, 7);
    KnownEntries(k.queues, k.threads, k.current, k.on, k.handed);
    ghost var q := k.queues;
    k.Add(7);
    AdmittedEntries(q, 7, 1);
    OnlyReady(k.threads, 7);
    Unfilled(k, 0);
    ghost var q1, ready;
    var r;
    r, q1, ready := k.Tick(0);
    OnlyPick(q1, 7, k.queues, r);
  }

  /** The one thread is ready, so that it is not current. */
  lemma Unfilled(k: Kernel, c: nat)
    requires k.Valid() && c < |k.current| && forall t :: t in k.threads ==> k.threads[t].state == Ready
    ensures k.current[c] == None
  {
    hide Counted;
  }

  lemma OnlyReady(threads: Threads, t: nat)
    requires threads.Keys == {t} && threads[t].state == Ready
    ensures ReadySet(threads) == {t}
  {
  }

  lemma OnlyPick(q: Queues, t: nat, q': Queues, r: Option<nat>)
    requires WellFormed(q) && Picks(q, {t}, q', r) && 0 < Entries(q, t)
    ensures r == Some(t)
  {
    if r.None? {
      StaleEntries(q.qs[0], {t});
      StaleEntries(q.qs[1], {t});
      StaleEntries(q.qs[2], {t});
    }
  }

  // ---------------------------------------------------------------------------
  // Waiting is bounded
  // ---------------------------------------------------------------------------

  /** An operation that does not pick: the queues at most gain an entry at a front, or lose those of a thread. */
  ghost predicate Quiet(op: Op, q: Queues, threads: Threads, q': Queues, threads': Threads) {
    && WellFormed(q)
    && (Joins(q, q') || (op.CleanupIt? && q' == ReadyQueues.Left(q, op.t)))
    && forall t :: t in threads && threads[t].state == Ready && !Names(op, t) ==> t in threads' && threads'[t].state == Ready
  }

  /** An operation that picks, after at most one thread entered. */
  ghost predicate Picking(q: Queues, threads: Threads, q1: Queues, ready: set<nat>, r: Option<nat>, q': Queues, threads': Threads) {
    && WellFormed(q) && Joins(q, q1) && WellFormed(q1)
    && Picks(q1, ready, q', r) && ReadyStay(threads, threads', ready, r)
  }

  lemma StepQuiet(s: Snap, op: Op, s': Snap)
    requires Sound(s) && Step(s, op, None, s')
    ensures Quiet(op, s.queues, s.threads, s'.queues, s'.threads)
  {
    hide Placed, Counted, WellFormed, Told, Picks, ReadySet, Switched, Joins, Admitted, Treated;
    KnownEntries(s.queues, s.threads, s.current, s.on, s.handed);
    JoinsSelf(s.queues);
    if !(op.TickOn? || op.BlockSelf? || op.StopSelf? || op.ExitSelf? || op.NewProc? || op.Spawn?) && op.t in s.threads {
      PriorityOk(s.queues, s.threads, s.current, s.on, s.handed, op.t);
      TreatedQuiet(s, op, op.t);
    }
  }

  lemma TreatedQuiet(s: Snap, op: Op, t: nat)
    requires t in s.threads && s.threads[t].priority < PRIORITIES && WellFormed(s.queues)
    requires !(op.TickOn? || op.BlockSelf? || op.StopSelf? || op.ExitSelf? || op.NewProc? || op.Spawn?) && op.t == t
    ensures var s' := Treated(s, op, t); Quiet(op, s.queues, s.threads, s'.queues, s'.threads)
  {
    hide WellFormed, Told, Joins, Admitted;
    JoinsSelf(s.queues);
    AdmittedJoins(s.queues, t, s.threads[t].priority);
  }

  lemma StepPicking(s: Snap, op: Op, r: Option<nat>, s': Snap)
    requires Sound(s) && Step(s, op, Some(r), s')
    ensures var m := Yielded(s, op); Picking(s.queues, s.threads, m.queues, ReadySet(m.threads), r, s'.queues, s'.threads)
  {
    hide Placed, Counted, WellFormed, Told, Picks, Joins, Admitted, Entries;
    KnownEntries(s.queues, s.threads, s.current, s.on, s.handed);
    JoinsSelf(s.queues);
    if s.current[op.cpu].Some? {
      var t := s.current[op.cpu].value;
      CurrentRuns(s.queues, s.threads, s.current, s.on, s.handed, op.cpu);
      PriorityOk(s.queues, s.threads, s.current, s.on, s.handed, t);
      AdmittedJoins(s.queues, t, s.threads[t].priority);
    }
  }

  lemma QuietKeeps(op: Op, q: Queues, threads: Threads, q': Queues, threads': Threads, t: nat, p: nat, k: nat) returns (k': nat)
    requires Quiet(op, q, threads, q', threads') && Waits(q, t, p, k) && !Names(op, t)
    ensures Waits(q', t, p, k') && Patience(q', p, k') <= Patience(q, p, k)
  {
    if Joins(q, q') {
      k' := k;
      JoinsKeeps(q, q', t, p, k);
    } else {
      k' := LeftCloser(q, op.t, t, p, k);
      NoFurther(q, q', p, k, k');
    }
  }

  lemma JoinsKeeps(q: Queues, q': Queues, t: nat, p: nat, k: nat)
    requires WellFormed(q) && Joins(q, q') && Waits(q, t, p, k)
    ensures Waits(q', t, p, k) && Patience(q', p, k) <= Patience(q, p, k)
  {
    if q' != q {
      var u: nat, j: nat :| j < PRIORITIES && q' == Entered(q, u, j);
      EnteredEntries(q, u, j);
      NoFurther(q, q', p, k, k);
    }
  }

  lemma PickingCloser(q: Queues, threads: Threads, q1: Queues, ready: set<nat>, r: Option<nat>, q': Queues, threads': Threads,
                      t: nat, p: nat, k: nat) returns (k': nat)
    requires Picking(q, threads, q1, ready, r, q', threads') && Waits(q, t, p, k)
    requires t in threads && threads[t].state == Ready && r != Some(t)
    ensures Waits(q', t, p, k') && Patience(q', p, k') < Patience(q, p, k)
    ensures t in threads' && threads'[t].state == Ready
  {
    hide Patience, Waits, Picks, WellFormed;
    JoinsKeeps(q, q1, t, p, k);
    k' := PickCloser(q1, ready, q', r, t, p, k);
  }

  /** How many of the operations picked. */
  ghost function Picked(outs: seq<Option<Option<nat>>>): nat {
    if outs == [] then 0 else (if outs[0].Some? then 1 else 0) + Picked(outs[1..])
  }

  /** Thread `t` is dispatched by operation `j`, which is among the first `bound` that pick. */
  ghost predicate DispatchedAt(outs: seq<Option<Option<nat>>>, t: nat, j: nat, bound: nat) {
    j < |outs| && outs[j] == Some(Some(t)) && Picked(outs[..j + 1]) <= bound
  }

  /** Thread `t` is ready, with `k` entries ahead of it in queue `p`. */
  ghost predicate Waiting(s: Snap, t: nat, p: nat, k: nat) {
    p < PRIORITIES && Waits(s.queues, t, p, k) && t in s.threads && s.threads[t].state == Ready
  }

  /** Nobody stops, terminates or cleans up thread `t`. */
  ghost predicate Unhindered(ops: seq<Op>, t: nat) {
    forall i :: 0 <= i < |ops| ==> !Names(ops[i], t)
  }

  /** A run from its second state on. */
  lemma TraceTail(states: seq<Snap>, ops: seq<Op>, outs: seq<Option<Option<nat>>>)
    requires Trace(states, ops, outs) && ops != []
    ensures Trace(states[1..], ops[1..], outs[1..])
  {
    hide Sound, Step;
  }

  lemma OutSays(s: Snap, op: Op, out: Option<Option<nat>>, s': Snap)
    requires Step(s, op, out, s')
    ensures out.Some? <==> Yields(s, op)
  {
  }

  lemma {:induction false} Dispatched(states: seq<Snap>, ops: seq<Op>, outs: seq<Option<Option<nat>>>, t: nat, p: nat, k: nat) returns (j: nat)
    requires Trace(states, ops, outs) && Waiting(states[0], t, p, k) && Unhindered(ops, t)
    requires Patience(states[0].queues, p, k) < Picked(outs)
    ensures DispatchedAt(outs, t, j, Patience(states[0].queues, p, k) + 1)
    decreases |ops|
  {
    hide Placed, Counted, Step, Patience, Waits, Quiet, Picking, WellFormed;
    var s, s', op := states[0], states[1], ops[0];
    assert Step(s, op, outs[0], s');
    OutSays(s, op, outs[0], s');
    if outs[0] == Some(Some(t)) {
      assert outs[..1][1..] == [] && Picked(outs[..1]) == 1;
      return 0;
    }
    var k';
    if outs[0].None? {
      StepQuiet(s, op, s');
      StillReady(op, s.queues, s.threads, s'.queues, s'.threads, t);
      k' := QuietKeeps(op, s.queues, s.threads, s'.queues, s'.threads, t, p, k);
    } else {
      StepPicking(s, op, outs[0].value, s');
      var m := Yielded(s, op);
      k' := PickingCloser(s.queues, s.threads, m.queues, ReadySet(m.threads), outs[0].value, s'.queues, s'.threads, t, p, k);
    }
    TraceTail(states, ops, outs);
    j := Dispatched(states[1..], ops[1..], outs[1..], t, p, k');
    assert outs[..j + 2][1..] == outs[1..][..j + 1] && outs[..j + 2][0] == outs[0];
    j := j + 1;
  }

  /** A ready thread with `k` entries ahead of it in queue 0, 1 or 2 is dispatched within 13, 16 or 18 times `k + 1` picks,
      in every run that has so many picks and in which nobody stops it, whatever else happens. */
  lemma WaitsNoLonger(states: seq<Snap>, ops: seq<Op>, outs: seq<Option<Option<nat>>>, t: nat, p: nat, k: nat) returns (j: nat)
    requires Trace(states, ops, outs) && Waiting(states[0], t, p, k) && Unhindered(ops, t)
    requires (k + 1) * (if p == 0 then 13 else if p == 1 then 16 else 18) <= Picked(outs)
    ensures DispatchedAt(outs, t, j, (k + 1) * (if p == 0 then 13 else if p == 1 then 16 else 18))
  {
    PatienceBound(states[0].queues, p, k);
    j := Dispatched(states, ops, outs, t, p, k);
  }

  // ---------------------------------------------------------------------------
  // Turns
  // ---------------------------------------------------------------------------

  /** Queue `p` holds a ready thread when operation `op` picks. */
  ghost predicate Offers(s: Snap, op: Op, p: nat)
    requires Yields(s, op)
  {
    var m := Yielded(s, op);
    p < |m.queues.qs| && exists t :: t in m.queues.qs[p] && t in m.threads && m.threads[t].state == Ready
  }

  /** The pick is of a thread of queue `p`. */
  ghost predicate From(s: Snap, op: Op, r: Option<nat>, p: nat)
    requires Yields(s, op)
  {
    var m := Yielded(s, op);
    p < |m.queues.qs| && r.Some? && r.value in m.queues.qs[p]
  }

  /** The pick is from the first of the queues `p`, `p + 1` and `p + 2`, going round, that holds a ready thread. */
  ghost predicate InTurn(s: Snap, op: Op, r: Option<nat>, p: nat)
    requires Yields(s, op)
  {
    if Offers(s, op, p % 3) then From(s, op, r, p % 3)
    else if Offers(s, op, (p + 1) % 3) then From(s, op, r, (p + 1) % 3)
    else if Offers(s, op, (p + 2) % 3) then From(s, op, r, (p + 2) % 3)
    else r == None
  }

  /** A pick takes from the queue that has the turn, or from the next that holds a ready thread. */
  lemma PickInTurn(s: Snap, op: Op, r: Option<nat>, s': Snap)
    requires Sound(s) && Step(s, op, Some(r), s')
    ensures InTurn(s, op, r, s.queues.pri)
  {
    hide Placed, Counted, Told, Joins, Admitted, Entries, Taken, Yielded, Step;
    StepPicks(s, op, r, s');
    var m := Yielded(s, op);
    OffersIff(s, op, 0);
    OffersIff(s, op, 1);
    OffersIff(s, op, 2);
  }

  lemma OffersIff(s: Snap, op: Op, p: nat)
    requires Yields(s, op) && WellFormed(Yielded(s, op).queues) && p < PRIORITIES
    ensures var m := Yielded(s, op); Offers(s, op, p) <==> !NoneReady(m.queues.qs[p], ReadySet(m.threads))
  {
    hide Yielded;
    var m := Yielded(s, op);
    if !NoneReady(m.queues.qs[p], ReadySet(m.threads)) {
      var i :| 0 <= i < |m.queues.qs[p]| && m.queues.qs[p][i] in ReadySet(m.threads);
      assert m.queues.qs[p][i] in m.queues.qs[p];
    }
  }

  /** Entering leaves the turns as they are, and what is picked is ready. */
  lemma StepPicks(s: Snap, op: Op, r: Option<nat>, s': Snap)
    requires Sound(s) && Step(s, op, Some(r), s')
    ensures var m := Yielded(s, op);
            && Yields(s, op) && WellFormed(m.queues) && m.queues.pri == s.queues.pri && m.queues.counters == s.queues.counters
            && Picks(m.queues, ReadySet(m.threads), s'.queues, r)
  {
    hide Placed, Counted, WellFormed, Told, Picks, Entries;
    KnownEntries(s.queues, s.threads, s.current, s.on, s.handed);
  }

  /** An operation that does not pick leaves the turns as they are. */
  lemma StepNoTurn(s: Snap, op: Op, s': Snap)
    requires Sound(s) && Step(s, op, None, s')
    ensures s'.queues.pri == s.queues.pri && s'.queues.counters == s.queues.counters
  {
    hide Placed, Counted, WellFormed, Told, Picks, Entries;
  }

  /** A pick from the queue that has the turn counts. */
  lemma PickCounts(s: Snap, op: Op, r: Option<nat>, s': Snap, p: nat)
    requires Sound(s) && Step(s, op, Some(r), s') && s.queues.pri == p && Offers(s, op, p)
    ensures p < PRIORITIES && p < |s.queues.counters| && p < |s'.queues.counters| && From(s, op, r, p)
    ensures var c := s.queues.counters[p];
            if c + 1 < (if p == 0 then 10 else if p == 1 then 7 else 5) then s'.queues.pri == p && s'.queues.counters[p] == c + 1
            else s'.queues.pri == (p + 1) % 3
  {
    hide Placed, Counted, Told, Joins, Admitted, Entries, Taken, Yielded, Step;
    StepPicks(s, op, r, s');
    OffersIff(s, op, p);
  }

  lemma PickedMore(outs: seq<Option<Option<nat>>>, i: nat)
    requires i < |outs|
    ensures Picked(outs[..i + 1]) == Picked(outs[..i]) + (if outs[i].Some? then 1 else 0)
    decreases i
  {
    if i != 0 {
      assert outs[..i + 1][1..] == outs[1..][..i] && outs[..i][1..] == outs[1..][..i - 1];
      PickedMore(outs[1..], i - 1);
    } else {
      assert outs[..1][1..] == [];
    }
  }

  /** The picks left of the turn that queue `p` has. */
  ghost function Turnful(s: Snap, p: nat): int {
    var quota: int := if p == 0 then 10 else if p == 1 then 7 else 5;
    if p < |s.queues.counters| then quota - s.queues.counters[p] else quota
  }

  /** While queue `p` has the turn and holds a ready thread at every pick, the turn is where its picks have brought it. */
  lemma {:induction false} TurnAt(states: seq<Snap>, ops: seq<Op>, outs: seq<Option<Option<nat>>>, p: nat, i: nat)
    requires Trace(states, ops, outs) && i <= |ops| && states[0].queues.pri == p && (i != 0 ==> Picked(outs[..i]) <= Turnful(states[0], p))
    requires forall j :: 0 <= j < i && outs[j].Some? ==> Yields(states[j], ops[j]) && Offers(states[j], ops[j], p)
    ensures p < PRIORITIES && Turnful(states[0], p) > 0
    ensures if Picked(outs[..i]) < Turnful(states[0], p) then states[i].queues.pri == p && Turnful(states[i], p) == Turnful(states[0], p) - Picked(outs[..i])
            else states[i].queues.pri == (p + 1) % 3
  {
    hide Placed, Counted, Step, Offers, From, Daring;
    if i == 0 {
      assert Sound(states[0]);
      KnownEntries(states[0].queues, states[0].threads, states[0].current, states[0].on, states[0].handed);
    } else {
      PickedMore(outs, i - 1);
      TurnAt(states, ops, outs, p, i - 1);
      var s, op, s' := states[i - 1], ops[i - 1], states[i];
      assert Sound(s) && Step(s, op, outs[i - 1], s');
      if outs[i - 1].None? {
        StepNoTurn(s, op, s');
      } else {
        PickCounts(s, op, outs[i - 1].value, s', p);
      }
    }
  }

  /** While queue 0, 1 or 2 has the turn and holds a ready thread, exactly its next 10, 7 or 5 picks, less those that it has
      had of the turn, come from it.  The one after comes from the next queue that holds a ready thread. */
  lemma TurnLasts(states: seq<Snap>, ops: seq<Op>, outs: seq<Option<Option<nat>>>, p: nat, i: nat)
    requires Trace(states, ops, outs) && i < |ops| && outs[i].Some? && states[0].queues.pri == p && |states[0].queues.counters| == 3
    requires forall j :: 0 <= j < i && outs[j].Some? ==> Yields(states[j], ops[j]) && Offers(states[j], ops[j], p)
    ensures p < 3 && Yields(states[i], ops[i])
    ensures var left := (if p == 0 then 10 else if p == 1 then 7 else 5) - states[0].queues.counters[p];
            && 0 < left
            && (Picked(outs[..i]) < left && Offers(states[i], ops[i], p) ==> From(states[i], ops[i], outs[i].value, p))
            && (Picked(outs[..i]) == left ==> InTurn(states[i], ops[i], outs[i].value, p + 1))
  {
    hide Placed, Counted, Step, Offers, From, Daring, InTurn;
    TurnAt(states, ops, outs, p, 0);
    OutSays(states[i], ops[i], outs[i], states[i + 1]);
    if Picked(outs[..i]) <= Turnful(states[0], p) {
      TurnAt(states, ops, outs, p, i);
      PickInTurn(states[i], ops[i], outs[i].value, states[i + 1]);
      if Picked(outs[..i]) < Turnful(states[0], p) && Offers(states[i], ops[i], p) {
        PickCounts(states[i], ops[i], outs[i].value, states[i + 1], p);
      } else {
        TurnRound(states[i], ops[i], outs[i].value, p);
      }
    }
  }

  lemma TurnRound(s: Snap, op: Op, r: Option<nat>, p: nat)
    requires Yields(s, op) && p < 3
    ensures InTurn(s, op, r, (p + 1) % 3) ==> InTurn(s, op, r, p + 1)
  {
    hide Offers, From, Yields;
  }

  /** The thread that was dispatched runs on a processor. */
  lemma DispatchedRuns(states: seq<Snap>, ops: seq<Op>, outs: seq<Option<Option<nat>>>, t: nat, j: nat)
    requires Trace(states, ops, outs) && j < |ops| && outs[j] == Some(Some(t))
    ensures t in states[j + 1].threads && states[j + 1].threads[t].state == Running
    ensures Yields(states[j], ops[j]) && states[j + 1].current == states[j].current[ops[j].cpu := Some(t)]
  {
    hide Counted, Placed, Picks, WellFormed;
    var s, s' := states[j], states[j + 1];
    assert Step(s, ops[j], outs[j], s');
    var m := Yielded(s, ops[j]);
    PickKeeps(m.queues, m.threads, s'.queues, t);
  }

  lemma StillReady(op: Op, q: Queues, threads: Threads, q': Queues, threads': Threads, t: nat)
    requires Quiet(op, q, threads, q', threads') && t in threads && threads[t].state == Ready && !Names(op, t)
    ensures t in threads' && threads'[t].state == Ready
  {
  }

  // ---------------------------------------------------------------------------
  // Safety
  // ---------------------------------------------------------------------------

  /** A thread is in at most one slot of one queue, or current on at most one processor, and never both; and a ready
      thread that was handed in is queued. */
  lemma OnePlace(s: Snap, t: nat)
    requires Sound(s)
    ensures Entries(s.queues, t) <= 1
    ensures forall c, d :: 0 <= c < |s.current| && 0 <= d < |s.current| && s.current[c] == Some(t) && s.current[d] == Some(t) ==> c == d
    ensures forall c :: 0 <= c < |s.current| && s.current[c] == Some(t) ==> Entries(s.queues, t) == 0
    ensures t in s.handed && t in s.threads && s.threads[t].state == Ready ==> Entries(s.queues, t) == 1
  {
  }

  /** Process `pid` has a thread in one of the states. */
  ghost predicate HasIn(s: Snap, pid: nat, states: set<ThreadState>) {
    exists t :: t in s.threads && s.threads[t].pid == pid && s.threads[t].state in states
  }

  /** What the state of a process says of its threads. */
  ghost predicate SaysOf(s: Snap, pid: nat)
    requires pid in s.procs
  {
    var st := s.procs[pid].state;
    && (st == ProcRunning <==> HasIn(s, pid, {Ready, Running}))
    && (st == ProcBlocked <==> !HasIn(s, pid, {Ready, Running}) && HasIn(s, pid, {Blocked}))
    && (st == ProcStopped <==> !HasIn(s, pid, {Ready, Running, Blocked}) && HasIn(s, pid, {Stopped}))
    && (st == ProcZombie <==> !HasIn(s, pid, {Ready, Running, Blocked, Stopped}))
  }

  lemma HasInClass(s: Snap, pid: nat, c: Class, states: set<ThreadState>)
    requires Sound(s) && pid in s.procs
    requires match c case CRunning => states == {Ready, Running} case CBlocked => states == {Blocked} case CStopped => states == {Stopped} case CZombie => states == {Zombie}
    ensures HasIn(s, pid, states) <==> 0 < Num(s.procs[pid], c)
  {
    hide Placed;
    var them := Members(s.threads, pid, c);
    assert Num(s.procs[pid], c) == |them|;
    if HasIn(s, pid, states) {
      var t :| t in s.threads && s.threads[t].pid == pid && s.threads[t].state in states;
      assert t in them;
    }
    if them != {} {
      var t :| t in them;
      assert s.threads[t].state in states;
    }
  }

  /** The state of a process that is not new is that of its liveliest thread: running if one is ready or running, else
      blocked if one is blocked, else stopped if one is stopped, else zombie. */
  lemma StateSays(s: Snap, pid: nat)
    requires Sound(s) && pid in s.procs && s.procs[pid] != Proc(0, 0, 0, 0, ProcRunning)
    ensures SaysOf(s, pid)
  {
    hide Placed, Members, HasIn;
    HasInClass(s, pid, CRunning, {Ready, Running});
    HasInClass(s, pid, CBlocked, {Blocked});
    HasInClass(s, pid, CStopped, {Stopped});
    HasEither(s, pid, {Ready, Running}, {Blocked});
    HasEither(s, pid, {Ready, Running} + {Blocked}, {Stopped});
    assert {Ready, Running} + {Blocked} == {Ready, Running, Blocked};
    assert {Ready, Running, Blocked} + {Stopped} == {Ready, Running, Blocked, Stopped};
  }

  lemma HasEither(s: Snap, pid: nat, a: set<ThreadState>, b: set<ThreadState>)
    ensures HasIn(s, pid, a + b) <==> HasIn(s, pid, a) || HasIn(s, pid, b)
  {
    if HasIn(s, pid, a) {
      var t :| t in s.threads && s.threads[t].pid == pid && s.threads[t].state in a;
      assert s.threads[t].state in a + b;
    } else if HasIn(s, pid, b) {
      var t :| t in s.threads && s.threads[t].pid == pid && s.threads[t].state in b;
      assert s.threads[t].state in a + b;
    }
  }

  /** A process that has a thread is not new. */
  lemma NotNew(s: Snap, t: nat)
    requires Sound(s) && t in s.threads
    ensures s.threads[t].pid in s.procs && s.procs[s.threads[t].pid] != Proc(0, 0, 0, 0, ProcRunning)
  {
    hide Placed, Counted;
    CountedPositive(s.threads, s.procs, t);
  }

  /** And it does not become so again. */
  lemma StaysOld(s: Snap, op: Op, out: Option<Option<nat>>, s': Snap, pid: nat)
    requires Step(s, op, out, s') && pid in s.procs && s.procs[pid] != Proc(0, 0, 0, 0, ProcRunning)
    ensures pid in s'.procs && s'.procs[pid] != Proc(0, 0, 0, 0, ProcRunning)
  {
    hide Picks, WellFormed, ReadySet, Switched, Admitted, ReadyQueues.Left, Resumed, Bump;
  }

  /** Over a run: from the first state on in which a process has a thread, its state says exactly what its threads are. */
  lemma {:induction false} ProcessSays(states: seq<Snap>, ops: seq<Op>, outs: seq<Option<Option<nat>>>, t: nat, i: nat, n: nat)
    requires Trace(states, ops, outs) && i <= n <= |ops| && t in states[i].threads
    ensures var pid := states[i].threads[t].pid; pid in states[n].procs && SaysOf(states[n], pid)
    ensures var pid := states[i].threads[t].pid; states[n].procs[pid] != Proc(0, 0, 0, 0, ProcRunning)
  {
    hide Sound, Step, Daring, SaysOf;
    if n == i {
      NotNew(states[i], t);
    } else {
      ProcessSays(states, ops, outs, t, i, n - 1);
      StaysOld(states[n - 1], ops[n - 1], outs[n - 1], states[n], states[i].threads[t].pid);
    }
    StateSays(states[n], states[i].threads[t].pid);
  }

  /** A process is a zombie only if all its threads are, so reaping it loses no live thread; and once it has had a
      thread, it is a zombie as soon as all of them are. */
  lemma ReapedIsDead(s: Snap, pid: nat)
    requires Sound(s) && pid in s.procs
    ensures s.procs[pid].state == ProcZombie ==> forall t :: t in s.threads && s.threads[t].pid == pid ==> s.threads[t].state == Zombie
    ensures (forall t :: t in s.threads && s.threads[t].pid == pid ==> s.threads[t].state == Zombie) ==>
              s.procs[pid].state == ProcZombie || forall t :: t in s.threads ==> s.threads[t].pid != pid
  {
    hide Placed;
    var pr := s.procs[pid];
    forall t | t in s.threads && s.threads[t].pid == pid
      ensures 0 < Num(pr, ClassOf(s.threads[t].state))
    {
      CountedPositive(s.threads, s.procs, t);
    }
    if forall t :: t in s.threads && s.threads[t].pid == pid ==> s.threads[t].state == Zombie {
      assert Members(s.threads, pid, CRunning) == {} && Members(s.threads, pid, CBlocked) == {} && Members(s.threads, pid, CStopped) == {};
      assert Num(pr, CRunning) == 0 && Num(pr, CBlocked) == 0 && Num(pr, CStopped) == 0;
    }
  }
}

/** Threads, the processors that run them and the thread counters of their processes, as values
(`kernel/threading/thread.c`, `kernel/scheduler/process.c`). */
module ThreadTable {
  import opened Common
  import opened ReadyQueues

  datatype ThreadState = Ready | Running | Blocked | Stopped | Zombie

  /** `waiting` says whether `blocked_until` names an event. */
  datatype Thread = Thread(state: ThreadState, stoppedState: ThreadState, pid: nat, priority: nat, waiting: bool)

  type Threads = map<nat, Thread>

  datatype ProcState = ProcRunning | ProcBlocked | ProcStopped | ProcZombie

  /** The thread counters of a process. */
  datatype Proc = Proc(running: nat, blocked: nat, stopped: nat, zombie: nat, state: ProcState)

  type Procs = map<nat, Proc>

  /** The thread states that share a counter. */
  datatype Class = CRunning | CBlocked | CStopped | CZombie

  function ClassOf(st: ThreadState): Class {
    match st
    case Ready => CRunning
    case Running => CRunning
    case Blocked => CBlocked
    case Stopped => CStopped
    case Zombie => CZombie
  }

  ghost function Num(pr: Proc, c: Class): nat {
    match c
    case CRunning => pr.running
    case CBlocked => pr.blocked
    case CStopped => pr.stopped
    case CZombie => pr.zombie
  }

  // ---------------------------------------------------------------------------
  // Counters
  // ---------------------------------------------------------------------------

  ghost function Members(threads: Threads, pid: nat, c: Class): set<nat> {
    set t | t in threads && threads[t].pid == pid && ClassOf(threads[t].state) == c
  }

  /** The state that the counters call for. */
  ghost function StateOf(pr: Proc): ProcState {
    if pr.running > 0 then ProcRunning
    else if pr.blocked > 0 then ProcBlocked
    else if pr.stopped > 0 then ProcStopped
    else ProcZombie
  }

  /** Each counter is the number of threads in its class.  The state follows from the counters, except that a process
      that has had no thread yet counts as running. */
  ghost predicate Counted(threads: Threads, procs: Procs) {
    && (forall t :: t in threads ==> threads[t].pid in procs)
    && (forall pid, c {:trigger Members(threads, pid, c)} :: pid in procs ==> Num(procs[pid], c) == |Members(threads, pid, c)|)
    && (forall pid :: pid in procs ==> procs[pid].state == StateOf(procs[pid]) || procs[pid] == Proc(0, 0, 0, 0, ProcRunning))
  }

  ghost function Bump(pr: Proc, c: Class, up: bool): Proc
    requires up || 0 < Num(pr, c)
  {
    match c
    case CRunning => pr.(running := if up then pr.running + 1 else pr.running - 1)
    case CBlocked => pr.(blocked := if up then pr.blocked + 1 else pr.blocked - 1)
    case CStopped => pr.(stopped := if up then pr.stopped + 1 else pr.stopped - 1)
    case CZombie => pr.(zombie := if up then pr.zombie + 1 else pr.zombie - 1)
  }

  /** `pcb_thread_change_state`; an unused thread has no class. */
  ghost function Changed(pr: Proc, before: Option<Class>, after: Option<Class>): Proc
    requires before.Some? ==> 0 < Num(pr, before.value)
  {
    var pr1 := if before.Some? then Bump(pr, before.value, false) else pr;
    var pr2 := if after.Some? then Bump(pr1, after.value, true) else pr1;
    pr2.(state := StateOf(pr2))
  }

  ghost function ClassAt(threads: Threads, t: nat): Option<Class> {
    if t in threads then Some(ClassOf(threads[t].state)) else None
  }

  /** The counters after the process of thread `t` was told how `t` changed. */
  ghost function Told(procs: Procs, threads: Threads, t: nat, threads': Threads): Procs {
    var before, after := ClassAt(threads, t), ClassAt(threads', t);
    var pid := if t in threads then threads[t].pid else if t in threads' then threads'[t].pid else 0;
    if pid in procs && (before.Some? ==> 0 < Num(procs[pid], before.value)) then procs[pid := Changed(procs[pid], before, after)] else procs
  }

  lemma CountedPositive(threads: Threads, procs: Procs, t: nat)
    requires Counted(threads, procs) && t in threads
    ensures threads[t].pid in procs && 0 < Num(procs[threads[t].pid], ClassOf(threads[t].state))
  {
    assert t in Members(threads, threads[t].pid, ClassOf(threads[t].state));
  }

  /** Only thread `t` of process `pid` is different, and its process has been told. */
  lemma CountedChange(threads: Threads, procs: Procs, t: nat, pid: nat, threads': Threads, procs': Procs)
    requires Counted(threads, procs) && pid in procs
    requires forall u :: u != t ==> (u in threads' <==> u in threads) && (u in threads ==> threads'[u] == threads[u])
    requires t in threads ==> threads[t].pid == pid
    requires t in threads' ==> threads'[t].pid == pid
    requires t in threads ==> 0 < Num(procs[pid], ClassOf(threads[t].state))
    requires procs' == procs[pid := Changed(procs[pid], ClassAt(threads, t), ClassAt(threads', t))]
    ensures Counted(threads', procs')
  {
    hide Members, Changed, Num;
    forall q, c | q in procs'
      ensures Num(procs'[q], c) == |Members(threads', q, c)|
    {
      MembersChange(threads, t, pid, threads', q, c);
      ChangedNum(procs[pid], ClassAt(threads, t), ClassAt(threads', t), c);
    }
    ChangedNum(procs[pid], ClassAt(threads, t), ClassAt(threads', t), CRunning);
  }

  lemma ChangedNum(pr: Proc, before: Option<Class>, after: Option<Class>, c: Class)
    requires before.Some? ==> 0 < Num(pr, before.value)
    ensures Num(Changed(pr, before, after), c) == Num(pr, c) - (if before == Some(c) then 1 else 0) + (if after == Some(c) then 1 else 0)
    ensures Changed(pr, before, after).state == StateOf(Changed(pr, before, after))
  {
  }

  lemma MembersChange(threads: Threads, t: nat, pid: nat, threads': Threads, q: nat, c: Class)
    requires forall u :: u != t ==> (u in threads' <==> u in threads) && (u in threads ==> threads'[u] == threads[u])
    requires t in threads ==> threads[t].pid == pid
    requires t in threads' ==> threads'[t].pid == pid
    ensures |Members(threads', q, c)| == |Members(threads, q, c)|
              - (if q == pid && ClassAt(threads, t) == Some(c) then 1 else 0)
              + (if q == pid && ClassAt(threads', t) == Some(c) then 1 else 0)
  {
    var a, b := Members(threads, q, c), Members(threads', q, c);
    assert a - {t} == b - {t};
    assert (t in a <==> q == pid && ClassAt(threads, t) == Some(c)) && (t in b <==> q == pid && ClassAt(threads', t) == Some(c));
    assert |a| == |a - {t}| + (if t in a then 1 else 0);
    assert |b| == |b - {t}| + (if t in b then 1 else 0);
  }

  /** A change within a class needs no news. */
  lemma CountedSame(threads: Threads, procs: Procs, t: nat, threads': Threads)
    requires Counted(threads, procs) && t in threads && t in threads'
    requires threads' == threads[t := threads'[t]] && threads'[t].pid == threads[t].pid
    requires ClassOf(threads'[t].state) == ClassOf(threads[t].state)
    ensures Counted(threads', procs)
  {
    forall q, c | q in procs
      ensures Num(procs[q], c) == |Members(threads', q, c)|
    {
      MembersChange(threads, t, threads[t].pid, threads', q, c);
    }
  }

  // ---------------------------------------------------------------------------
  // Places
  // ---------------------------------------------------------------------------

  /** No thread has two queue entries, and none that has one is current. */
  ghost predicate QueuedOk(q: Queues, threads: Threads, on: map<nat, nat>) {
    && WellFormed(q)
    && (forall t :: Entries(q, t) <= 1)
    && (forall t :: 0 < Entries(q, t) ==> t in threads && t !in on)
  }

  /** The states of a current thread: one that was stopped or terminated from another processor is current until its
      own processor next switches. */
  predicate Lingers(st: ThreadState) {
    st == Running || st == Stopped || st == Zombie
  }

  /** A thread is current on one processor at most, and a running thread is. */
  ghost predicate CurrentOk(threads: Threads, current: seq<Option<nat>>, on: map<nat, nat>) {
    && (forall c :: 0 <= c < |current| && current[c].Some? ==>
          var t := current[c].value;
          t in threads && Lingers(threads[t].state) && t in on && on[t] == c)
    && (forall t :: t in on ==> t in threads && on[t] < |current| && current[on[t]] == Some(t))
    && (forall t :: t in threads && threads[t].state == Running ==> t in on)
  }

  /** Every ready thread that was handed to the scheduler is queued. */
  ghost predicate HandedOk(q: Queues, threads: Threads, handed: set<nat>) {
    && WellFormed(q)
    && (forall t :: t in handed && t in threads && threads[t].state == Ready ==> 0 < Entries(q, t))
    && (forall t :: t in threads ==> threads[t].priority < PRIORITIES)
  }

  /** Each thread is in at most one place: one slot of one queue, or current on one processor. */
  ghost predicate Placed(q: Queues, threads: Threads, current: seq<Option<nat>>, on: map<nat, nat>, handed: set<nat>) {
    QueuedOk(q, threads, on) && CurrentOk(threads, current, on) && HandedOk(q, threads, handed)
  }

  /** A thread leaves processor `c` for a state in which nobody looks for it. */
  lemma Vacate(q: Queues, threads: Threads, current: seq<Option<nat>>, on: map<nat, nat>, handed: set<nat>, c: nat, t: nat, th: Thread)
    requires Placed(q, threads, current, on, handed) && c < |current| && current[c] == Some(t)
    requires th.state != Running && th.priority < PRIORITIES && (th.state == Ready ==> t !in handed)
    ensures Placed(q, threads[t := th], current[c := None], on - {t}, handed)
  {
    hide WellFormed, Entries;
  }

  /** A thread changes where it is, without becoming ready or running there. */
  lemma Sideline(q: Queues, threads: Threads, current: seq<Option<nat>>, on: map<nat, nat>, handed: set<nat>, t: nat, th: Thread)
    requires Placed(q, threads, current, on, handed) && t in threads && (t in on ==> Lingers(th.state))
    requires th.state != Running && th.priority < PRIORITIES && (th.state == Ready ==> t !in handed || 0 < Entries(q, t))
    ensures Placed(q, threads[t := th], current, on, handed)
  {
    hide WellFormed, Entries;
  }

  /** A ready thread is handed to the scheduler and enters a queue, unless it is in one. */
  lemma HandIn(q: Queues, threads: Threads, current: seq<Option<nat>>, on: map<nat, nat>, handed: set<nat>, t: nat, q': Queues)
    requires Placed(q, threads, current, on, handed) && t in threads && threads[t].state == Ready
    requires q' == if 0 < Entries(q, t) then q else Entered(q, t, threads[t].priority)
    ensures Placed(q', threads, current, on, handed + {t})
  {
    hide WellFormed, Entries, Entered;
    if Entries(q, t) == 0 {
      EnteredEntries(q, t, threads[t].priority);
    }
  }

  ghost function ReadySet(threads: Threads): set<nat> {
    set t | t in threads && threads[t].state == Ready
  }

  /** An idle processor takes the thread that a pick returns. */
  lemma Dispatch(q: Queues, threads: Threads, current: seq<Option<nat>>, on: map<nat, nat>, handed: set<nat>, c: nat, q': Queues, t: nat)
    requires Placed(q, threads, current, on, handed) && c < |current| && current[c] == None
    requires Picks(q, ReadySet(threads), q', Some(t))
    ensures t in threads && threads[t].state == Ready
    ensures Placed(q', threads[t := threads[t].(state := Running)], current[c := Some(t)], on[t := c], handed)
  {
    hide WellFormed, Entries, Picks;
    PickKeeps(q, threads, q', t);
    DispatchQueued(q, threads, on, handed, q', c, t);
    DispatchCurrent(q, threads, current, on, c, t);
  }

  /** What a pick does to the entries, in terms of the thread table. */
  lemma PickKeeps(q: Queues, threads: Threads, q': Queues, t: nat)
    requires WellFormed(q) && Picks(q, ReadySet(threads), q', Some(t))
    ensures WellFormed(q') && t in threads && threads[t].state == Ready && 0 < Entries(q, t) && Entries(q', t) == Entries(q, t) - 1
    ensures forall x :: Entries(q', x) <= Entries(q, x)
    ensures forall x :: x in threads && threads[x].state == Ready && x != t ==> Entries(q', x) == Entries(q, x)
  {
    hide WellFormed, Entries, Picks;
    PickEntries(q, ReadySet(threads), q', Some(t));
    assert forall x :: x in threads && threads[x].state == Ready ==> x in ReadySet(threads);
  }

  lemma DispatchQueued(q: Queues, threads: Threads, on: map<nat, nat>, handed: set<nat>, q': Queues, c: nat, t: nat)
    requires QueuedOk(q, threads, on) && HandedOk(q, threads, handed) && WellFormed(q')
    requires t in threads && 0 < Entries(q, t) && Entries(q', t) == Entries(q, t) - 1
    requires forall x :: Entries(q', x) <= Entries(q, x)
    requires forall x :: x in threads && threads[x].state == Ready && x != t ==> Entries(q', x) == Entries(q, x)
    ensures QueuedOk(q', threads[t := threads[t].(state := Running)], on[t := c])
    ensures HandedOk(q', threads[t := threads[t].(state := Running)], handed)
  {
    hide WellFormed, Entries;
  }

  lemma DispatchCurrent(q: Queues, threads: Threads, current: seq<Option<nat>>, on: map<nat, nat>, c: nat, t: nat)
    requires CurrentOk(threads, current, on) && c < |current| && current[c] == None && t in threads && t !in on
    ensures CurrentOk(threads[t := threads[t].(state := Running)], current[c := Some(t)], on[t := c])
  {
  }

  lemma StayIdle(q: Queues, threads: Threads, current: seq<Option<nat>>, on: map<nat, nat>, handed: set<nat>, q': Queues)
    requires Placed(q, threads, current, on, handed) && Picks(q, ReadySet(threads), q', None)
    ensures Placed(q', threads, current, on, handed)
  {
    hide WellFormed, Entries, Picks;
    PickEntries(q, ReadySet(threads), q', None);
  }

  /** A new thread, which nobody knows yet. */
  lemma Arrive(q: Queues, threads: Threads, current: seq<Option<nat>>, on: map<nat, nat>, handed: set<nat>, t: nat, th: Thread)
    requires Placed(q, threads, current, on, handed) && t !in threads && th.state == Ready && th.priority < PRIORITIES
    ensures Placed(q, threads[t := th], current, on, handed - {t})
  {
    hide WellFormed, Entries;
  }

  /** A thread that is on no processor is removed from the queues and from the table. */
  lemma Depart(q: Queues, threads: Threads, current: seq<Option<nat>>, on: map<nat, nat>, handed: set<nat>, t: nat)
    requires Placed(q, threads, current, on, handed) && t in threads && t !in on
    ensures Placed(Left(q, t), threads - {t}, current, on, handed)
  {
    hide WellFormed, Entries, Left, CurrentOk, QueuedOk, HandedOk;
    QueuedLess(q, threads, on, handed, t);
    CurrentLess(threads, current, on, t);
  }

  lemma QueuedLess(q: Queues, threads: Threads, on: map<nat, nat>, handed: set<nat>, t: nat)
    requires QueuedOk(q, threads, on) && HandedOk(q, threads, handed) && t in threads
    ensures QueuedOk(Left(q, t), threads - {t}, on) && HandedOk(Left(q, t), threads - {t}, handed)
  {
    hide WellFormed, Entries, Left;
    LeftEntries(q, t);
  }

  lemma CurrentLess(threads: Threads, current: seq<Option<nat>>, on: map<nat, nat>, t: nat)
    requires CurrentOk(threads, current, on) && t in threads && t !in on
    ensures CurrentOk(threads - {t}, current, on)
  {
  }
}

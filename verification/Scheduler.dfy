/** The scheduler and the life of threads (`kernel/scheduler/scheduler.c`, `kernel/threading/thread.c`): ticks on several
processors, blocking, stopping, ending and cleaning up, over the queues, the thread table and the process counters.
A thread that blocks, stops or ends itself does so together with its yield. */
module Scheduler {
  import opened Common
  import opened ReadyQueues
  import opened ThreadTable

  class Kernel {
    var queues: Queues
    var threads: Threads
    var procs: Procs
    var current: seq<Option<nat>>
    ghost var on: map<nat, nat>
    ghost var handed: set<nat>

    ghost predicate Valid()
      reads this
    {
      Placed(queues, threads, current, on, handed) && Counted(threads, procs)
    }

    /** `scheduler_init`. */
    constructor (cpus: nat)
      ensures Valid() && |current| == cpus && threads == map[] && procs == map[]
    {
      queues := Queues([[], [], []], [0, 0, 0], 0);
      threads, procs := map[], map[];
      current := seq(cpus, _ => None);
      on, handed := map[], {};
    }

    // -------------------------------------------------------------------------
    // The queues
    // -------------------------------------------------------------------------

    /** `add_thread_to_scheduler_locked`: a ready thread enters the front of its queue unless it is in some queue. */
    method AddLocked(t: nat)
      requires WellFormed(queues) && t in threads && threads[t].priority < PRIORITIES
      modifies this`queues
      ensures queues == if threads[t].state == Ready then Admitted(old(queues), t, threads[t].priority) else old(queues)
    {
      if threads[t].state != Ready {
        return;
      }
      for p := 0 to PRIORITIES
        invariant forall j :: 0 <= j < p ==> t !in queues.qs[j]
      {
        for i := 0 to |queues.qs[p]|
          invariant t !in queues.qs[p][..i]
        {
          if queues.qs[p][i] == t {
            assert t in multiset(queues.qs[p]);
            return;
          }
          assert queues.qs[p][..i + 1] == queues.qs[p][..i] + [queues.qs[p][i]];
        }
        assert queues.qs[p][..|queues.qs[p]|] == queues.qs[p];
      }
      var p := threads[t].priority;
      queues := queues.(qs := queues.qs[p := [t] + queues.qs[p]]);
    }

    /** `remove_thread_from_scheduler`: every entry of the thread goes. */
    method RemoveThread(t: nat)
      requires WellFormed(queues)
      modifies this`queues
      ensures queues == ReadyQueues.Left(old(queues), t)
    {
      for p := 0 to PRIORITIES
        invariant WellFormed(queues) && queues == old(queues).(qs := queues.qs)
        invariant forall j :: 0 <= j < p ==> queues.qs[j] == Without(old(queues).qs[j], t)
        invariant forall j :: p <= j < PRIORITIES ==> queues.qs[j] == old(queues).qs[j]
      {
        var q := Strip(queues.qs[p], t);
        queues := queues.(qs := queues.qs[p := q]);
      }
    }

    /** The erasing loop over one queue. */
    static method Strip(q: seq<nat>, t: nat) returns (r: seq<nat>)
      ensures r == Without(q, t)
    {
      r := q;
      var i := 0;
      ghost var done := 0;
      while i < |r|
        invariant i <= |r| && done <= |q| && r[..i] == Without(q[..done], t) && r[i..] == q[done..]
        decreases |r| - i
      {
        assert q[..done + 1][..done] == q[..done] && r[i] == r[i..][0] == q[done..][0];
        assert r[i + 1..] == r[i..][1..] && q[done + 1..] == q[done..][1..];
        if r[i] == t {
          ghost var r0 := r;
          r := r[..i] + r[i + 1..];
          assert r[..i] == r0[..i] && r[i..] == r0[i + 1..];
        } else {
          assert r[..i + 1] == r[..i] + [r[i]];
          i := i + 1;
        }
        done := done + 1;
      }
      assert r[..i] == r && q[..done] == q;
    }

    /** The popping loop over one queue: the ready thread nearest the back, and the stale entries behind it. */
    method PopReady(p: nat) returns (r: Option<nat>)
      requires WellFormed(queues) && p < PRIORITIES && forall i :: 0 <= i < |queues.qs[p]| ==> queues.qs[p][i] in threads
      modifies this`queues
      ensures |queues.qs| == PRIORITIES && queues == old(queues).(qs := old(queues).qs[p := queues.qs[p]])
      ensures r.Some? ==>
                && LastReady(old(queues).qs[p], ReadySet(threads), |queues.qs[p]|)
                && queues.qs[p] == old(queues).qs[p][..|queues.qs[p]|] && r.value == old(queues).qs[p][|queues.qs[p]|]
      ensures r.None? ==> NoneReady(old(queues).qs[p], ReadySet(threads)) && queues.qs[p] == []
    {
      ghost var q0 := queues.qs[p];
      var q := queues.qs[p];
      while q != []
        invariant |q| <= |q0| && q == q0[..|q|]
        invariant forall j :: |q| <= j < |q0| ==> q0[j] !in ReadySet(threads)
        decreases |q|
      {
        var t := q[|q| - 1];
        q := q[..|q| - 1];
        if threads[t].state == Ready {
          queues := queues.(qs := queues.qs[p := q]);
          return Some(t);
        }
      }
      queues := queues.(qs := queues.qs[p := q]);
      r := None;
    }

    /** `get_next_thread_locked`. */
    method NextLocked() returns (r: Option<nat>)
      requires WellFormed(queues) && forall t :: 0 < Entries(queues, t) ==> t in threads
      modifies this`queues
      ensures Picks(old(queues), ReadySet(threads), queues, r)
    {
      hide ReadySet, LastReady, NoneReady, Entries;
      ghost var q0, ready := queues, ReadySet(threads);
      AllKnown(q0, threads);
      for checked := 0 to PRIORITIES
        invariant Swept(q0, ready, checked, queues)
      {
        var p := queues.pri;
        ghost var q1 := queues;
        r := PopReady(p);
        if r.Some? {
          ghost var q2 := queues;
          var n := queues.counters[p] + 1;
          if n > MaxCounter(p) {
            queues := queues.(counters := queues.counters[p := 0], pri := Next(p));
          } else {
            queues := queues.(counters := queues.counters[p := n]);
          }
          PickHere(q0, ready, checked, q1, queues, r.value);
          return;
        }
        queues := queues.(pri := Next(p));
      }
      r := None;
      SweptAll(q0, ready, queues);
    }

    // -------------------------------------------------------------------------
    // Ticks
    // -------------------------------------------------------------------------

    /** The second half of `scheduler_tick`: processor `c` takes the next thread, or idles. */
    method Resched(c: nat) returns (r: Option<nat>)
      requires c < |current| && Placed(queues, threads, current[c := None], on, handed) && Counted(threads, procs)
      modifies this`queues, this`threads, this`current, this`on
      ensures Valid() && current == old(current)[c := r] && Picks(old(queues), ReadySet(old(threads)), queues, r)
      ensures r.Some? ==> r.value in old(threads) && old(threads)[r.value].state == Ready
                          && threads == old(threads)[r.value := old(threads)[r.value].(state := Running)]
      ensures r.None? ==> threads == old(threads)
    {
      hide Placed, Counted, Entries, ReadySet, Picks, WellFormed;
      ghost var idle := current[c := None];
      KnownEntries(queues, threads, idle, on, handed);
      r := NextLocked();
      if r.Some? {
        ghost var threads0 := threads;
        Dispatch(old(queues), threads, idle, on, handed, c, queues, r.value);
        threads := threads[r.value := threads[r.value].(state := Running)];
        on := on[r.value := c];
        CountedSame(threads0, procs, r.value, threads);
        assert idle[c := r] == current[c := r];
      } else {
        StayIdle(old(queues), threads, idle, on, handed, queues);
      }
      current := current[c := r];
    }

    /** `scheduler_tick`: the current thread, if it still runs, goes to the back of its queue. */
    method Tick(c: nat) returns (r: Option<nat>, ghost q1: Queues, ghost ready: set<nat>)
      requires c < |current| && Valid()
      modifies this`queues, this`threads, this`current, this`on, this`handed
      ensures Valid() && current == old(current)[c := r]
      ensures WellFormed(old(queues)) && WellFormed(q1) && Joins(old(queues), q1) && Picks(q1, ready, queues, r)
      ensures !StillRuns(old(threads), old(current)[c]) ==>
                q1 == old(queues) && ready == ReadySet(old(threads)) && threads == Switched(old(threads), r)
      ensures StillRuns(old(threads), old(current)[c]) ==>
                var t := old(current)[c].value;
                && old(threads)[t].priority < PRIORITIES
                && q1 == Admitted(old(queues), t, old(threads)[t].priority) && ready == ReadySet(old(threads)) + {t}
                && threads == Switched(old(threads)[t := old(threads)[t].(state := Ready)], r)
      ensures ReadyStay(old(threads), threads, ready, r)
    {
      hide Placed, Counted, Picks, Entries, Joins, WellFormed, ReadyStay, ReadySet;
      KnownEntries(queues, threads, current, on, handed);
      JoinsSelf(queues);
      if current[c].None? {
        assert current[c := None] == current;
      } else {
        CurrentRuns(queues, threads, current, on, handed, c);
        var t := current[c].value;
        if threads[t].state == Running {
          Requeue(c);
          AdmittedJoins(old(queues), t, threads[t].priority);
          ReadyToo(old(threads), t, threads);
        } else {
          PriorityOk(queues, threads, current, on, handed, t);
          Vacate(queues, threads, current, on, handed, c, t, threads[t]);
          assert threads[t := threads[t]] == threads;
          on := on - {t};
        }
      }
      q1, ready := queues, ReadySet(threads);
      ghost var threads1 := threads;
      r := Resched(c);
      StaysReady(old(threads), old(current)[c], threads1, threads, r);
    }

    /** The first half of `scheduler_tick`, if the current thread still runs. */
    method Requeue(c: nat)
      requires c < |current| && Valid() && StillRuns(threads, current[c])
      modifies this`queues, this`threads, this`on, this`handed
      ensures Placed(queues, threads, current[c := None], on, handed) && Counted(threads, procs)
      ensures threads == old(threads)[current[c].value := old(threads)[current[c].value].(state := Ready)]
      ensures WellFormed(old(queues)) && WellFormed(queues) && threads[current[c].value].priority < PRIORITIES
      ensures queues == Admitted(old(queues), current[c].value, threads[current[c].value].priority)
    {
      hide Placed, Counted, WellFormed, Entries;
      CurrentRuns(queues, threads, current, on, handed, c);
      KnownEntries(queues, threads, current, on, handed);
      var t := current[c].value;
      var th := threads[t].(state := Ready);
      Fewer(queues, threads, current, on, handed, t);
      PriorityOk(queues, threads, current, on, handed, t);
      Vacate(queues, threads, current, on, handed - {t}, c, t, th);
      CountedSame(threads, procs, t, threads[t := th]);
      threads := threads[t := th];
      on := on - {t};
      handed := handed - {t};
      AddLocked(t);
      HandIn(old(queues), threads, current[c := None], on, handed, t, queues);
      handed := handed + {t};
      KnownEntries(queues, threads, current[c := None], on, handed);
    }

    // -------------------------------------------------------------------------
    // What threads do and have done to them
    // -------------------------------------------------------------------------

    /** `pcb_thread_change_state`. */
    method ChangeCounters(pid: nat, before: Option<Class>, after: Option<Class>)
      requires pid in procs && (before.Some? ==> 0 < Num(procs[pid], before.value))
      modifies this`procs
      ensures procs == old(procs)[pid := Changed(old(procs)[pid], before, after)]
      ensures var pr := procs[pid];
              && (pr.state == ProcRunning <==> 0 < pr.running)
              && (pr.state == ProcBlocked <==> pr.running == 0 < pr.blocked)
              && (pr.state == ProcStopped <==> pr.running == pr.blocked == 0 < pr.stopped)
    {
      var pr := procs[pid];
      if before.Some? {
        match before.value {
          case CRunning => pr := pr.(running := pr.running - 1);
          case CStopped => pr := pr.(stopped := pr.stopped - 1);
          case CZombie => pr := pr.(zombie := pr.zombie - 1);
          case CBlocked => pr := pr.(blocked := pr.blocked - 1);
        }
      }
      if after.Some? {
        match after.value {
          case CRunning => pr := pr.(running := pr.running + 1);
          case CStopped => pr := pr.(stopped := pr.stopped + 1);
          case CZombie => pr := pr.(zombie := pr.zombie + 1);
          case CBlocked => pr := pr.(blocked := pr.blocked + 1);
        }
      }
      if pr.running > 0 {
        pr := pr.(state := ProcRunning);
      } else if pr.blocked > 0 {
        pr := pr.(state := ProcBlocked);
      } else if pr.stopped > 0 {
        pr := pr.(state := ProcStopped);
      } else {
        pr := pr.(state := ProcZombie);
      }
      procs := procs[pid := pr];
    }

    /** The current thread of processor `c` becomes `th`, which does not run, and yields. */
    method Leave(c: nat, th: Thread) returns (r: Option<nat>, ghost ready: set<nat>)
      requires Valid() && c < |current| && current[c].Some? && current[c].value in threads
      requires th.state != Running && th.state != Ready && th.pid == threads[current[c].value].pid && th.priority < PRIORITIES
      modifies this`queues, this`threads, this`procs, this`current, this`on
      ensures Valid() && current == old(current)[c := r]
      ensures WellFormed(old(queues)) && Picks(old(queues), ready, queues, r) && ReadyStay(old(threads), threads, ready, r)
      ensures var t := old(current)[c].value; t in threads && threads[t] == th && threads == Switched(old(threads)[t := th], r)
      ensures var t := old(current)[c].value; procs == Told(old(procs), old(threads), t, old(threads)[t := th]) && ready == ReadySet(old(threads)[t := th])
    {
      hide Placed, Counted, Picks, Entries, WellFormed, ReadyStay, ReadySet, Changed;
      var t := current[c].value;
      CountedPositive(threads, procs, t);
      KnownEntries(queues, threads, current, on, handed);
      CurrentRuns(queues, threads, current, on, handed, c);
      ChangeCounters(th.pid, Some(ClassOf(threads[t].state)), Some(ClassOf(th.state)));
      CountedChange(threads, old(procs), t, th.pid, threads[t := th], procs);
      Vacate(queues, threads, current, on, handed, c, t, th);
      threads := threads[t := th];
      on := on - {t};
      ready := ReadySet(threads);
      ghost var threads1 := threads;
      r := Resched(c);
      StaysAway(old(threads), t, th, threads1, threads, r);
    }

    /** `block_thread` on oneself. */
    method SelfBlock(c: nat, waiting: bool) returns (r: Option<nat>, ghost ready: set<nat>)
      requires Valid() && c < |current| && current[c].Some? && current[c].value in threads
      modifies this`queues, this`threads, this`procs, this`current, this`on
      ensures Valid() && current == old(current)[c := r]
      ensures WellFormed(old(queues)) && Picks(old(queues), ready, queues, r) && ReadyStay(old(threads), threads, ready, r)
      ensures var t := old(current)[c].value; var now := old(threads)[t := old(threads)[t].(state := Blocked, waiting := waiting)];
              threads == Switched(now, r) && procs == Told(old(procs), old(threads), t, now) && ready == ReadySet(now)
    {
      hide Placed, Counted, Picks, WellFormed, ReadyStay;
      KnownThread(c);
      r, ready := Leave(c, threads[current[c].value].(state := Blocked, waiting := waiting));
    }

    /** `stop_thread` on oneself: the thread remembers what it was, and yields.  One that was stopped meanwhile goes on. */
    method SelfStop(c: nat) returns (out: Option<Option<nat>>, ghost ready: set<nat>)
      requires Valid() && c < |current| && current[c].Some? && current[c].value in threads
      modifies this`queues, this`threads, this`procs, this`current, this`on
      ensures Valid() && (out.None? <==> old(threads)[old(current)[c].value].state == Stopped)
      ensures out.None? ==> queues == old(queues) && threads == old(threads) && procs == old(procs) && current == old(current)
      ensures out.Some? ==>
                && current == old(current)[c := out.value]
                && WellFormed(old(queues)) && Picks(old(queues), ready, queues, out.value) && ReadyStay(old(threads), threads, ready, out.value)
      ensures out.Some? ==>
                var t := old(current)[c].value;
                var now := old(threads)[t := old(threads)[t].(state := Stopped, stoppedState := old(threads)[t].state)];
                threads == Switched(now, out.value) && procs == Told(old(procs), old(threads), t, now) && ready == ReadySet(now)
    {
      hide Placed, Counted, Picks, WellFormed, ReadyStay, ReadySet, Switched, Told;
      KnownThread(c);
      var t := current[c].value;
      if threads[t].state == Stopped {
        ready := {};
        return None, ready;
      }
      var r;
      r, ready := Leave(c, threads[t].(state := Stopped, stoppedState := threads[t].state));
      out := Some(r);
    }

    /** `thread_exit`, and `terminate_thread` on oneself unless one is a zombie already. */
    method SelfExit(c: nat) returns (r: Option<nat>, ghost ready: set<nat>)
      requires Valid() && c < |current| && current[c].Some? && current[c].value in threads
      modifies this`queues, this`threads, this`procs, this`current, this`on
      ensures Valid() && current == old(current)[c := r]
      ensures WellFormed(old(queues)) && Picks(old(queues), ready, queues, r) && ReadyStay(old(threads), threads, ready, r)
      ensures var t := old(current)[c].value; var now := old(threads)[t := old(threads)[t].(state := Zombie)];
              threads == Switched(now, r) && procs == Told(old(procs), old(threads), t, now) && ready == ReadySet(now)
    {
      hide Placed, Counted, Picks, WellFormed, ReadyStay;
      KnownThread(c);
      r, ready := Leave(c, threads[current[c].value].(state := Zombie));
    }

    lemma KnownThread(c: nat)
      requires Valid() && c < |current| && current[c].Some? && current[c].value in threads
      ensures threads[current[c].value].priority < PRIORITIES
    {
    }

    /** Thread `t` gets state `th`, which is not a running one.  Its place is kept unless it is current and gets a state
        that no current thread may have. */
    method Alter(t: nat, th: Thread)
      requires Valid() && t in threads && th.state != Running
      requires th.pid == threads[t].pid && th.priority == threads[t].priority
      modifies this`queues, this`threads, this`procs, this`handed
      ensures Valid() <==> (t in on ==> Lingers(th.state))
      ensures threads == old(threads)[t := th] && WellFormed(old(queues)) && Joins(old(queues), queues) && th.priority < PRIORITIES
      ensures queues == if th.state == Ready then Admitted(old(queues), t, th.priority) else old(queues)
      ensures procs == Told(old(procs), old(threads), t, threads)
    {
      hide Placed, Counted, WellFormed, Entries, Changed, Joins;
      CountedPositive(threads, procs, t);
      KnownEntries(queues, threads, current, on, handed);
      PriorityOk(queues, threads, current, on, handed, t);
      Fewer(queues, threads, current, on, handed, t);
      AlteredPlace(queues, threads, current, on, handed - {t}, t, th);
      ChangeCounters(th.pid, Some(ClassOf(threads[t].state)), Some(ClassOf(th.state)));
      CountedChange(threads, old(procs), t, th.pid, threads[t := th], procs);
      threads := threads[t := th];
      handed := handed - {t};
      if th.state == Ready {
        AddLocked(t);
        AdmittedJoins(old(queues), t, th.priority);
        if t !in on {
          HandIn(old(queues), threads, current, on, handed, t, queues);
        } else {
          Misplaced(queues, threads, current, on, handed + {t}, t);
        }
        handed := handed + {t};
      } else {
        JoinsSelf(queues);
      }
    }

    /** `stop_thread` on another thread. */
    method Stop(t: nat)
      requires Valid() && t in threads
      modifies this`queues, this`threads, this`procs, this`handed
      ensures Valid() && WellFormed(old(queues)) && Joins(old(queues), queues)
      ensures threads == if old(threads)[t].state == Stopped then old(threads)
                         else old(threads)[t := old(threads)[t].(state := Stopped, stoppedState := old(threads)[t].state)]
      ensures queues == old(queues) && procs == if old(threads)[t].state == Stopped then old(procs) else Told(old(procs), old(threads), t, threads)
    {
      hide Placed, Counted, WellFormed, Joins;
      KnownEntries(queues, threads, current, on, handed);
      JoinsSelf(queues);
      if threads[t].state == Stopped {
        return;
      }
      Alter(t, threads[t].(state := Stopped, stoppedState := threads[t].state));
    }

    /** `terminate_thread` on another thread. */
    method Terminate(t: nat)
      requires Valid() && t in threads
      modifies this`queues, this`threads, this`procs, this`handed
      ensures Valid() && WellFormed(old(queues)) && Joins(old(queues), queues)
      ensures threads == old(threads)[t := old(threads)[t].(state := Zombie)]
      ensures queues == old(queues) && procs == if old(threads)[t].state == Zombie then old(procs) else Told(old(procs), old(threads), t, threads)
    {
      hide Placed, Counted, WellFormed, Joins;
      KnownEntries(queues, threads, current, on, handed);
      JoinsSelf(queues);
      if threads[t].state == Zombie {
        return;
      }
      Alter(t, threads[t].(state := Zombie));
    }

    /** `unblock_thread`: a blocked thread becomes ready and is queued. */
    method Unblock(t: nat)
      requires Valid() && t in threads
      modifies this`queues, this`threads, this`procs, this`handed
      ensures Valid() && WellFormed(old(queues)) && Joins(old(queues), queues)
      ensures threads == if old(threads)[t].state == Blocked then old(threads)[t := old(threads)[t].(state := Ready, waiting := false)] else old(threads)
      ensures old(threads)[t].priority < PRIORITIES
      ensures queues == if old(threads)[t].state == Blocked then Admitted(old(queues), t, old(threads)[t].priority) else old(queues)
      ensures procs == if old(threads)[t].state == Blocked then Told(old(procs), old(threads), t, threads) else old(procs)
    {
      hide Placed, Counted, WellFormed, Joins, Entries;
      KnownEntries(queues, threads, current, on, handed);
      PriorityOk(queues, threads, current, on, handed, t);
      JoinsSelf(queues);
      if threads[t].state != Blocked {
        return;
      }
      CurrentLingers(queues, threads, current, on, handed, t);
      Alter(t, threads[t].(state := Ready, waiting := false));
    }

    /** `continue_thread`: a stopped thread goes back to what it was; one that ran, or waits for nothing, is ready.  If it
        was stopped from elsewhere and its processor has not switched yet, it is queued and current at once. */
    method Continue(t: nat)
      requires Valid() && t in threads
      modifies this`queues, this`threads, this`procs, this`handed
      ensures Valid() <==> !(old(threads)[t].state == Stopped && t in on && !Lingers(Resumed(old(threads)[t]).state))
      ensures WellFormed(old(queues)) && Joins(old(queues), queues)
      ensures threads == if old(threads)[t].state == Stopped then old(threads)[t := Resumed(old(threads)[t])] else old(threads)
      ensures old(threads)[t].priority < PRIORITIES
      ensures queues == if old(threads)[t].state == Stopped && Resumed(old(threads)[t]).state == Ready then Admitted(old(queues), t, old(threads)[t].priority)
                        else old(queues)
      ensures procs == if old(threads)[t].state == Stopped then Told(old(procs), old(threads), t, threads) else old(procs)
      ensures var th := old(threads)[t];
              && (th.state == Stopped && th.stoppedState == Blocked && th.waiting ==> threads[t].state == Blocked && queues == old(queues))
              && (th.state == Stopped && (th.stoppedState in {Ready, Running} || (th.stoppedState == Blocked && !th.waiting)) ==>
                    threads[t].state == Ready && 0 < Entries(queues, t))
    {
      hide Placed, Counted, WellFormed, Joins, Entries;
      KnownEntries(queues, threads, current, on, handed);
      PriorityOk(queues, threads, current, on, handed, t);
      JoinsSelf(queues);
      if threads[t].state != Stopped {
        return;
      }
      var next := threads[t].stoppedState;
      if next == Running {
        next := Ready;
      }
      if next == Blocked && !threads[t].waiting {
        next := Ready;
      }
      AdmittedEntries(queues, t, threads[t].priority);
      Alter(t, threads[t].(state := next, stoppedState := Ready));
    }

    /** `proc_create`, for the counters: a process without threads counts as running. */
    method NewProcess(pid: nat)
      requires Valid() && pid !in procs
      modifies this`procs
      ensures Valid() && procs == old(procs)[pid := Proc(0, 0, 0, 0, ProcRunning)]
    {
      procs := procs[pid := Proc(0, 0, 0, 0, ProcRunning)];
      forall c
        ensures |Members(threads, pid, c)| == 0
      {
        assert Members(threads, pid, c) == {};
      }
      hide Placed, Members;
    }

    /** `thread_create`: a ready thread of priority 1 that the scheduler does not know yet. */
    method Create(pid: nat, t: nat)
      requires Valid() && pid in procs && t !in threads
      modifies this`threads, this`procs, this`handed
      ensures Valid() && threads == old(threads)[t := Thread(Ready, Ready, pid, 1, false)]
      ensures procs == Told(old(procs), old(threads), t, threads)
    {
      hide Placed, Counted, Changed;
      var th := Thread(Ready, Ready, pid, 1, false);
      ChangeCounters(pid, None, Some(CRunning));
      CountedChange(threads, old(procs), t, pid, threads[t := th], procs);
      Arrive(queues, threads, current, on, handed, t, th);
      threads := threads[t := th];
      handed := handed - {t};
    }

    /** `add_thread_to_scheduler`. */
    method Add(t: nat)
      requires Valid() && t in threads
      modifies this`queues, this`handed
      ensures Valid() && WellFormed(old(queues)) && Joins(old(queues), queues) && threads[t].priority < PRIORITIES
      ensures queues == if threads[t].state == Ready then Admitted(old(queues), t, threads[t].priority) else old(queues)
    {
      KnownEntries(queues, threads, current, on, handed);
      assert threads[t].priority < PRIORITIES;
      AddLocked(t);
      if threads[t].state == Ready {
        HandIn(old(queues), threads, current, on, handed, t, queues);
        handed := handed + {t};
        Queued(queues, threads, current, on, handed, t);
      }
    }

    /** `thread_cleanup` of a zombie.  If it was terminated from elsewhere and its processor has not switched yet, that
        processor has a current thread that is in no table. */
    method Cleanup(t: nat)
      requires Valid() && t in threads && threads[t].state == Zombie
      modifies this`queues, this`threads, this`procs
      ensures Valid() <==> t !in on
      ensures threads == old(threads) - {t} && WellFormed(old(queues)) && queues == ReadyQueues.Left(old(queues), t)
      ensures procs == Told(old(procs), old(threads), t, threads)
    {
      hide Placed, Counted, WellFormed, Changed;
      CountedPositive(threads, procs, t);
      KnownEntries(queues, threads, current, on, handed);
      if t !in on {
        Depart(queues, threads, current, on, handed, t);
      } else {
        Unknown(ReadyQueues.Left(queues, t), threads - {t}, current, on, handed, t);
      }
      RemoveThread(t);
      ChangeCounters(threads[t].pid, Some(CZombie), None);
      CountedChange(threads, old(procs), t, threads[t].pid, threads - {t}, procs);
      threads := threads - {t};
    }

    /** `thread_change_priority`: an entry already queued stays where it is. */
    method ChangePriority(t: nat, priority: nat)
      requires Valid()
      modifies this`threads
      ensures Valid()
      ensures threads == if t in old(threads) && priority < PRIORITIES then old(threads)[t := old(threads)[t].(priority := priority)] else old(threads)
    {
      hide Placed, Counted;
      if t !in threads || priority >= PRIORITIES {
        return;
      }
      Reprioritize(queues, threads, current, on, handed, t, priority);
      CountedSame(threads, procs, t, threads[t := threads[t].(priority := priority)]);
      threads := threads[t := threads[t].(priority := priority)];
    }
  }

  function Resumed(th: Thread): Thread {
    th.(state := if th.stoppedState == Running || (th.stoppedState == Blocked && !th.waiting) then Ready else th.stoppedState,
        stoppedState := Ready)
  }

  lemma Reprioritize(q: Queues, threads: Threads, current: seq<Option<nat>>, on: map<nat, nat>, handed: set<nat>, t: nat, priority: nat)
    requires Placed(q, threads, current, on, handed) && t in threads && priority < PRIORITIES
    ensures Placed(q, threads[t := threads[t].(priority := priority)], current, on, handed)
  {
    hide WellFormed, Entries;
  }

  lemma Queued(q: Queues, threads: Threads, current: seq<Option<nat>>, on: map<nat, nat>, handed: set<nat>, t: nat)
    requires Placed(q, threads, current, on, handed) && t in threads && threads[t].state == Ready && t in handed
    ensures 0 < Entries(q, t)
  {
  }

  lemma PriorityOk(q: Queues, threads: Threads, current: seq<Option<nat>>, on: map<nat, nat>, handed: set<nat>, t: nat)
    requires Placed(q, threads, current, on, handed) && t in threads
    ensures threads[t].priority < PRIORITIES
  {
  }

  lemma CurrentRuns(q: Queues, threads: Threads, current: seq<Option<nat>>, on: map<nat, nat>, handed: set<nat>, c: nat)
    requires Placed(q, threads, current, on, handed) && c < |current| && current[c].Some?
    ensures current[c].value in threads && Lingers(threads[current[c].value].state) && current[c].value in on
  {
  }

  lemma CurrentLingers(q: Queues, threads: Threads, current: seq<Option<nat>>, on: map<nat, nat>, handed: set<nat>, t: nat)
    requires Placed(q, threads, current, on, handed) && t in threads
    ensures t in on ==> Lingers(threads[t].state)
  {
  }

  /** A thread changes where it is. */
  lemma AlteredPlace(q: Queues, threads: Threads, current: seq<Option<nat>>, on: map<nat, nat>, handed: set<nat>, t: nat, th: Thread)
    requires Placed(q, threads, current, on, handed) && t in threads && t !in handed
    requires th.state != Running && th.priority < PRIORITIES
    ensures Placed(q, threads[t := th], current, on, handed) <==> (t in on ==> Lingers(th.state))
  {
    hide QueuedOk, HandedOk, WellFormed;
    if t in on && !Lingers(th.state) {
      assert current[on[t]] == Some(t);
    } else {
      Sideline(q, threads, current, on, handed, t, th);
    }
  }

  /** A ready thread that is current is out of place. */
  lemma Misplaced(q: Queues, threads: Threads, current: seq<Option<nat>>, on: map<nat, nat>, handed: set<nat>, t: nat)
    requires t in threads && t in on && !Lingers(threads[t].state)
    ensures !Placed(q, threads, current, on, handed)
  {
    hide QueuedOk, HandedOk;
    if t in on && on[t] < |current| {
      assert current[on[t]] == Some(t) ==> current[on[t]].Some?;
    }
  }

  lemma Unknown(q: Queues, threads: Threads, current: seq<Option<nat>>, on: map<nat, nat>, handed: set<nat>, t: nat)
    requires t !in threads && t in on
    ensures !Placed(q, threads, current, on, handed)
  {
    hide QueuedOk, HandedOk;
  }

  /** The current thread was not stopped or terminated from elsewhere. */
  ghost predicate StillRuns(threads: Threads, was: Option<nat>) {
    was.Some? && was.value in threads && threads[was.value].state == Running
  }

  lemma StaysAway(threads: Threads, t: nat, th: Thread, threads1: Threads, threads2: Threads, r: Option<nat>)
    requires t in threads && threads[t].state != Ready && th.state != Running && th.state != Ready && threads1 == threads[t := th]
    requires r.None? ==> threads2 == threads1
    requires r.Some? ==> r.value in threads1 && threads1[r.value].state == Ready && threads2 == threads1[r.value := threads1[r.value].(state := Running)]
    ensures ReadyStay(threads, threads2, ReadySet(threads1), r) && t in threads2 && threads2[t] == th
  {
  }

  /** The picked thread runs. */
  ghost function Switched(threads: Threads, r: Option<nat>): Threads {
    if r.Some? && r.value in threads then threads[r.value := threads[r.value].(state := Running)] else threads
  }

  /** The ready threads were ready for the pick, and all but the one that it returned are as they were. */
  ghost predicate ReadyStay(threads: Threads, threads': Threads, ready: set<nat>, r: Option<nat>) {
    forall t :: t in threads && threads[t].state == Ready ==>
      && t in ready && t in threads'
      && threads'[t] == if r == Some(t) then threads[t].(state := Running) else threads[t]
  }

  lemma StaysReady(threads: Threads, was: Option<nat>, threads1: Threads, threads2: Threads, r: Option<nat>)
    requires threads1 == if StillRuns(threads, was) then threads[was.value := threads[was.value].(state := Ready)] else threads
    requires r.None? ==> threads2 == threads1
    requires r.Some? ==> r.value in threads1 && threads2 == threads1[r.value := threads1[r.value].(state := Running)]
    ensures ReadyStay(threads, threads2, ReadySet(threads1), r)
  {
  }

  lemma AdmittedJoins(q: Queues, t: nat, p: nat)
    requires WellFormed(q) && p < PRIORITIES
    ensures Joins(q, Admitted(q, t, p))
  {
  }

  lemma ReadyToo(threads: Threads, t: nat, threads': Threads)
    requires t in threads && threads' == threads[t := threads[t].(state := Ready)]
    ensures ReadySet(threads') == ReadySet(threads) + {t}
  {
  }

  lemma JoinsSelf(q: Queues)
    requires WellFormed(q)
    ensures Joins(q, q)
  {
  }

  /** Handing in fewer threads asks for less. */
  lemma Fewer(q: Queues, threads: Threads, current: seq<Option<nat>>, on: map<nat, nat>, handed: set<nat>, t: nat)
    requires Placed(q, threads, current, on, handed)
    ensures Placed(q, threads, current, on, handed - {t})
  {
  }

  lemma KnownEntries(q: Queues, threads: Threads, current: seq<Option<nat>>, on: map<nat, nat>, handed: set<nat>)
    requires Placed(q, threads, current, on, handed)
    ensures WellFormed(q) && forall t :: 0 < Entries(q, t) ==> t in threads
  {
  }

  /** The priority `n` turns on. */
  ghost function Ahead(pri: nat, n: nat): (r: nat)
    requires pri < PRIORITIES && n <= PRIORITIES
    ensures r < PRIORITIES
  {
    if n == 0 || n == 3 then pri else if n == 1 then Next(pri) else Next(Next(pri))
  }

  /** How many turns before priority `j` comes up. */
  ghost function Turns(pri: nat, j: nat): (n: nat)
    requires pri < PRIORITIES && j < PRIORITIES
    ensures n < PRIORITIES && Ahead(pri, n) == j
  {
    if j == pri then 0 else if j == Next(pri) then 1 else 2
  }

  /** `q` is `q0` after the first `checked` queues were found to have no ready thread. */
  ghost predicate Swept(q0: Queues, ready: set<nat>, checked: nat, q: Queues) {
    && WellFormed(q0) && WellFormed(q) && checked <= PRIORITIES
    && q.counters == q0.counters && q.pri == Ahead(q0.pri, checked)
    && (forall j :: 0 <= j < PRIORITIES ==>
          if Turns(q0.pri, j) < checked then q.qs[j] == [] && NoneReady(q0.qs[j], ready) else q.qs[j] == q0.qs[j])
  }

  lemma SweptAll(q0: Queues, ready: set<nat>, q: Queues)
    requires Swept(q0, ready, PRIORITIES, q)
    ensures PicksNone(q0, ready, q)
  {
    hide NoneReady;
  }

  lemma PickHere(q0: Queues, ready: set<nat>, checked: nat, q1: Queues, q: Queues, t: nat)
    requires Swept(q0, ready, checked, q1) && checked < PRIORITIES && |q.qs| == PRIORITIES
    requires var p := q1.pri;
             && LastReady(q1.qs[p], ready, |q.qs[p]|) && t == q1.qs[p][|q.qs[p]|]
             && q.qs == q1.qs[p := q.qs[p]] && q.qs[p] == q1.qs[p][..|q.qs[p]|]
             && (if q1.counters[p] + 1 == Quota(p) then q.counters == q1.counters[p := 0] && q.pri == Next(p)
                 else q.counters == q1.counters[p := q1.counters[p] + 1] && q.pri == p)
    ensures PicksThread(q0, ready, q, t)
  {
    var p, k := q1.pri, |q.qs[q1.pri]|;
    assert Turns(q0.pri, p) == checked;
    assert q1.qs[p] == q0.qs[p] && LastReady(q0.qs[p], ready, k) && !NoneReady(q0.qs[p], ready);
    assert Turn(q0, ready) == p;
    forall j | 0 <= j < PRIORITIES
      ensures q.qs[j] == Taken(q0, p, k)[j]
    {
      assert Passed(q0.pri, p, j) <==> Turns(q0.pri, j) < checked;
    }
    assert q.qs == Taken(q0, p, k);
  }

  lemma AllKnown(s: Queues, threads: Threads)
    requires WellFormed(s) && forall t :: 0 < Entries(s, t) ==> t in threads
    ensures forall p, k :: 0 <= p < PRIORITIES && 0 <= k < |s.qs[p]| ==> s.qs[p][k] in threads
  {
    forall p, k | 0 <= p < PRIORITIES && 0 <= k < |s.qs[p]|
      ensures s.qs[p][k] in threads
    {
      assert s.qs[p][k] in multiset(s.qs[p]);
      assert 0 < Entries(s, s.qs[p][k]);
    }
  }
}

/** The open-file table and the descriptors of processes (`kernel/fs/oft.c`, `kernel/fs/cmds.c`, `kernel/fs/kapi.c`,
`kernel/scheduler/process.c`): open, pipe, close, dup2, fork, exit, and the pins of calls in progress. */
module OpenFiles {
  import opened Common
  import opened OpenFileState

  datatype Err = Success | InvalidArgs | NoSuchFd | Again

  class FileTable {
    var table: Table
    var fds: Fds
    var pipes: PipeMap
    var pins: multiset<int>            // the calls in progress, by entry
    ghost var stuck: multiset<int>     // the references that refused closes left behind

    /** Counts are exact, with a reference to `held` in flight if it is not -1. */
    ghost predicate Holding(held: int)
      reads this
    {
      Inv(fds, table, pipes, pins, stuck, held)
    }

    ghost predicate Valid()
      reads this
    {
      Holding(-1)
    }

    /** `initialize_oft`. */
    constructor ()
      ensures Valid() && fds == map[] && table == [] && pipes == map[] && pins == multiset{} && stuck == multiset{}
    {
      table, fds, pipes, pins, stuck := [], map[], map[], multiset{}, multiset{};
    }

    // -------------------------------------------------------------------------
    // The table
    // -------------------------------------------------------------------------

    /** `oft_open_file`, with the counts that `pipe` starts a pipe with: the caller holds the only reference.  `found`
        says whether the inode can be had; if not, the result is -1. */
    method OftOpen(e: End, found: bool) returns (k: int)
      requires Valid() && (e.Plain? || (e.pipe in pipes && !pipes[e.pipe].freed))
      modifies this`table, this`pipes
      ensures Holding(k) && pipes.Keys == old(pipes).Keys && (k == -1 <==> !found)
      ensures if found then Adds(old(table), table, k, Entry(1, e)) && pipes == Adjusted(table, old(pipes), k, true)
              else table == old(table) && pipes == old(pipes)
    {
      hide Inv;
      if !found {
        return -1;
      }
      var j := 0;
      while j < |table| && table[j].Some?
        invariant 0 <= j <= |table| && forall i :: 0 <= i < j ==> table[i].Some?
      {
        j := j + 1;
      }
      if j == |table| {
        table := table + [Some(Entry(1, e))];
      } else {
        table := table[j := Some(Entry(1, e))];
      }
      k := j;
      OpenInv(fds, old(table), pipes, pins, stuck, k, e, table);
      pipes := Adjusted(table, pipes, k, true);
    }

    /** `oft_close_file`: one reference less; the entry goes with the last, and so does the tail of the table. */
    method OftClose(k: int)
      requires Exists(table, k) && 0 < table[k].value.refCount
      modifies this`table
      ensures if old(table)[k].value.refCount == 1 then Removes(old(table), table, k)
              else Recounts(old(table), table, k, old(table)[k].value.refCount - 1)
      ensures SameEnds(old(table), table)
      ensures |table| == if old(table)[k].value.refCount == 1 && |old(table)| == k + 1 then k else |old(table)|
    {
      var x := table[k].value;
      if x.refCount - 1 == 0 {
        if |table| == k + 1 {
          table := table[..k];
        } else {
          table := table[k := None];
        }
      } else {
        table := table[k := Some(x.(refCount := x.refCount - 1))];
      }
    }

    /** The last writer of a pipe, with no room for the end mark. */
    ghost predicate LastWriterFull(k: int)
      reads this
    {
      && Exists(table, k) && table[k].value.end.WriteEnd?
      && var q := table[k].value.end.pipe; q in pipes && pipes[q].writers == 1 && pipes[q].size >= 4096
    }

    /** `pipe_close`: an end is gone; the last writer leaves the mark, and the last end frees the pipe. */
    method PipeClose(k: int) returns (ok: bool)
      requires Exists(table, k) && !table[k].value.end.Plain? && table[k].value.end.pipe in pipes
      requires table[k].value.end.ReadEnd? ==> 0 < pipes[table[k].value.end.pipe].readers
      requires table[k].value.end.WriteEnd? ==> 0 < pipes[table[k].value.end.pipe].writers
      modifies this`pipes
      ensures ok == !old(LastWriterFull(k))
      ensures var q, before := table[k].value.end.pipe, Adjusted(table, old(pipes), k, false);
              && q in before && pipes.Keys == before.Keys && Tweaks(before, pipes, q)
              && (pipes[q].freed ==> before[q].freed || (ok && before[q].readers == 0 && before[q].writers == 0))
              && (ok && before[q].readers == 0 && before[q].writers == 0 ==> pipes[q].freed)
              && pipes[q].size == if ok && table[k].value.end.WriteEnd? && before[q].writers == 0 then before[q].size + 1 else before[q].size
    {
      var e := table[k].value.end;
      var q := e.pipe;
      if e.ReadEnd? {
        pipes := pipes[q := pipes[q].(readers := pipes[q].readers - 1)];
      } else {
        pipes := pipes[q := pipes[q].(writers := pipes[q].writers - 1)];
        if pipes[q].writers == 0 {
          if pipes[q].size >= PIPE_CAPACITY {
            return false;
          }
          pipes := pipes[q := pipes[q].(size := pipes[q].size + 1)];
        }
      }
      if pipes[q].readers == 0 && pipes[q].writers == 0 {
        pipes := pipes[q := pipes[q].(freed := true)];
      }
      ok := true;
    }

    /** `k_close` on the reference in hand.  If the pipe refuses, the reference is never given up. */
    method KClose(k: int, ghost slots: Fds) returns (ok: bool)
      requires Inv(slots, table, pipes, pins, stuck, k) && k != -1
      modifies this`table, this`pipes, this`stuck
      ensures Inv(slots, table, pipes, pins, stuck, -1) && ok == !old(LastWriterFull(k))
      ensures stuck == if ok then old(stuck) else old(stuck) + multiset{k}
      ensures SameEnds(old(table), table) && Falls(old(pipes), pipes)
      ensures Drops(old(table), old(pipes), old(stuck), pipes, stuck) && (ok <==> Refused(old(pipes), pipes) == {})
      ensures !ok ==> forall q :: q in pipes ==> pipes[q].freed == old(pipes)[q].freed
    {
      hide Inv;
      HeldFacts(slots, table, pipes, pins, stuck, k);
      ok := true;
      ghost var after := Adjusted(table, pipes, k, false);
      if !table[k].value.end.Plain? {
        ok := PipeClose(k);
      }
      PipeFalls(table, old(pipes), stuck, k, ok, pipes);
      if !ok {
        StickInv(slots, table, old(pipes), pins, stuck, k);
        stuck := stuck + multiset{k};
        TweakInv(slots, table, after, pins, stuck, -1, table[k].value.end.pipe, pipes);
        return;
      }
      ghost var e := table[k].value.end;
      OftClose(k);
      if old(table)[k].value.refCount == 1 {
        DropLastInv(slots, old(table), old(pipes), pins, stuck, k, table);
      } else {
        DropInv(slots, old(table), old(pipes), pins, stuck, k, table);
      }
      if !e.Plain? {
        TweakInv(slots, table, after, pins, stuck, -1, e.pipe, pipes);
      }
    }

    // -------------------------------------------------------------------------
    // Descriptors
    // -------------------------------------------------------------------------

    /** `k_file_add_reference`. */
    method AddReference(k: int)
      requires Valid() && Exists(table, k) && !OnFreed(table, pipes, k)
      modifies this`table, this`pipes
      ensures Holding(k) && Recounts(old(table), table, k, old(table)[k].value.refCount + 1) && pipes == Adjusted(old(table), old(pipes), k, true)
    {
      hide Inv;
      var x := table[k].value;
      table := table[k := Some(x.(refCount := x.refCount + 1))];
      HoldInv(fds, old(table), pipes, pins, stuck, k, table);
      if !x.end.Plain? && x.end.pipe in pipes {
        var ends := pipes[x.end.pipe];
        if x.end.ReadEnd? {
          pipes := pipes[x.end.pipe := ends.(readers := ends.readers + 1)];
        } else {
          pipes := pipes[x.end.pipe := ends.(writers := ends.writers + 1)];
        }
      }
    }

    /** `install_process_fd`: the reference in hand goes to the lowest free slot, or a new one. */
    method Install(p: nat, k: int) returns (fd: nat)
      requires Holding(k) && k != -1 && p in fds
      modifies this`fds
      ensures Valid() && fds.Keys == old(fds).Keys && At(old(fds), p, fd) == -1 && Replaces(old(fds), fds, p, fd, k) && fd < |fds[p]|
      ensures forall i :: 0 <= i < fd ==> At(old(fds), p, i) != -1
    {
      hide Inv;
      fd := 0;
      while fd < |fds[p]| && fds[p][fd] != -1
        invariant 0 <= fd <= |fds[p]| && forall i :: 0 <= i < fd ==> fds[p][i] != -1
      {
        fd := fd + 1;
      }
      if fd == |fds[p]| {
        fds := fds[p := fds[p] + [k]];
      } else {
        fds := fds[p := fds[p][fd := k]];
      }
      SettleInv(old(fds), table, pipes, pins, stuck, k, p, fd, fds);
    }

    /** `open` of anything but a pipe. */
    method Open(p: nat, found: bool) returns (fd: Option<nat>)
      requires Valid() && p in fds
      modifies this`table, this`fds, this`pipes
      ensures Valid() && fd.Some? == found && pipes == old(pipes)
      ensures fd == None ==> table == old(table) && fds == old(fds)
      ensures fd.Some? ==> GetsSlot(old(fds), fds, p, fd.value) && Adds(old(table), table, At(fds, p, fd.value), Entry(1, Plain))
    {
      hide Inv;
      var k := OftOpen(Plain, found);
      if k == -1 {
        return None;
      }
      var i := Install(p, k);
      fd := Some(i);
    }

    /** `pipe`: a new pipe `q` with one reader and one writer.  `made` says whether there was memory for it and an inode;
        if not, nothing is different. */
    method MakePipe(p: nat, q: nat, made: bool) returns (ok: bool, rfd: nat, wfd: nat)
      requires Valid() && p in fds && q !in pipes
      modifies this`table, this`fds, this`pipes
      ensures Valid() && fds.Keys == old(fds).Keys && ok == made
      ensures !ok ==> table == old(table) && fds == old(fds) && pipes == old(pipes)
      ensures ok ==> GetsPipe(old(fds), old(table), fds, table, p, q, rfd, wfd) && pipes == old(pipes)[q := Ends(1, 1, 0, false)]
    {
      hide Inv;
      if !made {
        return false, 0, 0;
      }
      NewPipeInv(fds, table, pipes, pins, stuck, q);
      pipes := pipes[q := Ends(0, 0, 0, false)];
      var r := OftOpen(ReadEnd(q), true);
      rfd := Install(p, r);
      var w := OftOpen(WriteEnd(q), true);
      ghost var fds1 := fds;
      wfd := Install(p, w);
      assert At(fds1, p, rfd) == r && wfd != rfd;
      assert At(fds1, p, wfd) == At(old(fds), p, wfd);
      assert forall i :: 0 <= i < wfd && i != rfd ==> At(fds1, p, i) == At(old(fds), p, i);
      ok := true;
    }

    /** `close`: the slot is cleared first. */
    method Close(p: nat, fd: int) returns (err: Err)
      requires Valid() && p in fds
      modifies this`table, this`fds, this`pipes, this`stuck
      ensures Valid() && fds.Keys == old(fds).Keys && |fds[p]| == |old(fds)[p]|
      ensures err == InvalidArgs <==> fd < 0 || fd >= |old(fds)[p]|
      ensures err == NoSuchFd <==> 0 <= fd < |old(fds)[p]| && old(fds)[p][fd] == -1
      ensures err == Again <==> 0 <= fd < |old(fds)[p]| && old(LastWriterFull(fds[p][fd]))
      ensures err == InvalidArgs || err == NoSuchFd ==> fds == old(fds) && table == old(table) && pipes == old(pipes)
      ensures err == Success || err == Again ==> fds == old(fds)[p := old(fds)[p][fd := -1]]
      ensures stuck == if err == Again then old(stuck) + multiset{old(fds)[p][fd]} else old(stuck)
      ensures SameEnds(old(table), table) && Drops(old(table), old(pipes), old(stuck), pipes, stuck)
      ensures err == Again <==> Refused(old(pipes), pipes) != {}
      ensures err == Again ==> forall q :: q in pipes ==> pipes[q].freed == old(pipes)[q].freed
    {
      hide Inv, Drops;
      DropsNone(table, pipes, stuck);
      if fd < 0 || fd >= |fds[p]| {
        return InvalidArgs;
      }
      var k := fds[p][fd];
      SlotFacts(p, fd);
      if k < 0 {
        return NoSuchFd;
      }
      fds := fds[p := fds[p][fd := -1]];
      LiftInv(old(fds), table, pipes, pins, stuck, p, fd, fds);
      var ok := KClose(k, fds);
      err := if ok then Success else Again;
    }

    /** What is known of a slot. */
    lemma SlotFacts(p: nat, i: nat)
      requires Valid() && p in fds && i < |fds[p]|
      ensures fds[p][i] == -1 || (Exists(table, fds[p][i]) && !OnFreed(table, pipes, fds[p][i]))
    {
      var k := fds[p][i];
      assert At(fds, p, i) == k;
      if k != -1 {
        var e := table[k].value.end;
        assert k in On(table, e) && (p, i) in SlotsIn(fds, On(table, e));
        assert 0 < |SlotsIn(fds, On(table, e))|;
      }
    }

    /** `dup2`: a new reference first, then the close of `newfd`, whose result is ignored. */
    method Dup2(p: nat, oldfd: int, newfd: int) returns (ok: bool)
      requires Valid() && p in fds
      modifies this`table, this`fds, this`pipes, this`stuck
      ensures Valid() && fds.Keys == old(fds).Keys
      ensures ok <==> 0 <= oldfd < |old(fds)[p]| && 0 <= newfd && old(fds)[p][oldfd] >= 0
      ensures ok ==> newfd < |fds[p]| && fds[p][newfd] == old(fds)[p][oldfd]
      ensures ok ==> Replaces(old(fds), fds, p, newfd, old(fds)[p][oldfd])
      ensures !ok ==> fds == old(fds) && table == old(table) && pipes == old(pipes) && stuck == old(stuck)
      ensures SameEnds(old(table), table) && (ok ==> Exists(old(table), old(fds)[p][oldfd]))
      ensures ok ==>
                var mid := Adjusted(old(table), old(pipes), old(fds)[p][oldfd], true);
                Drops(old(table), mid, old(stuck), pipes, stuck) && DropsOne(mid, old(stuck), At(old(fds), p, newfd), pipes, stuck)
    {
      hide Inv;
      if oldfd < 0 || newfd < 0 || oldfd >= |fds[p]| {
        return false;
      }
      var k := fds[p][oldfd];
      SlotFacts(p, oldfd);
      if k < 0 {
        return false;
      }
      AddReference(k);
      CloseHolding(p, newfd, k);
      Place(p, newfd, k);
      ok := true;
    }

    /** The close in the middle of `dup2`, with a reference to `k` in hand. */
    method CloseHolding(p: nat, fd: nat, k: int)
      requires Holding(k) && k != -1 && p in fds
      modifies this`table, this`fds, this`pipes, this`stuck
      ensures Holding(k) && fds.Keys == old(fds).Keys && At(fds, p, fd) == -1 && Replaces(old(fds), fds, p, fd, -1)
      ensures SameEnds(old(table), table) && Drops(old(table), old(pipes), old(stuck), pipes, stuck)
      ensures DropsOne(old(pipes), old(stuck), At(old(fds), p, fd), pipes, stuck)
    {
      hide Inv, SlotsIn, On, Drops;
      if fd >= |fds[p]| || fds[p][fd] < 0 {
        FreeSlot(fds, table, pipes, pins, stuck, k, p, fd);
        DropsNone(table, pipes, stuck);
        return;
      }
      var j := fds[p][fd];
      // for the proof, the reference in hand waits in the slot while that of the slot is closed
      ghost var slots := fds[p := fds[p][fd := k]];
      PutReplaces(fds, p, fd, k);
      SwapInv(fds, table, pipes, pins, stuck, k, p, fd, slots);
      PutReplaces(fds, p, fd, -1);
      fds := fds[p := fds[p][fd := -1]];
      var ok := KClose(j, slots);
      PutReplaces(slots, p, fd, -1);
      assert slots[p][fd := -1] == fds[p];
      assert slots[p := slots[p][fd := -1]] == fds;
      LiftInv(slots, table, pipes, pins, stuck, p, fd, fds);
    }

    /** The end of `dup2`: the slot, with those before it. */
    method Place(p: nat, fd: nat, k: int)
      requires Holding(k) && k != -1 && p in fds && At(fds, p, fd) == -1
      modifies this`fds
      ensures Valid() && fds.Keys == old(fds).Keys && Replaces(old(fds), fds, p, fd, k) && fd < |fds[p]| && fds[p][fd] == k
    {
      hide Inv;
      ghost var fds0 := fds;
      while fd >= |fds[p]|
        invariant p in fds && fds.Keys == fds0.Keys && |fds0[p]| <= |fds[p]|
        invariant forall q: nat, i: nat {:trigger At(fds, q, i)} :: At(fds, q, i) == At(fds0, q, i)
        decreases fd - |fds[p]|
      {
        Padded(fds, p);
        fds := fds[p := fds[p] + [-1]];
      }
      PutReplaces(fds, p, fd, k);
      fds := fds[p := fds[p][fd := k]];
      SettleInv(fds0, table, pipes, pins, stuck, k, p, fd, fds);
    }

    // -------------------------------------------------------------------------
    // Processes and calls in progress
    // -------------------------------------------------------------------------

    /** `proc_create`: a process with no descriptors. */
    method NewProcess(p: nat)
      requires Valid() && p !in fds
      modifies this`fds
      ensures Valid() && fds == old(fds)[p := []]
    {
      hide Inv;
      SameSlots(fds, fds[p := []], table, pipes, pins, stuck);
      fds := fds[p := []];
    }

    /** The end of `fork`: the child gets every descriptor of the parent, with a reference each. */
    method Fork(p: nat, child: nat)
      requires Valid() && p in fds && child !in fds
      modifies this`table, this`fds, this`pipes
      ensures Valid() && fds == old(fds)[child := old(fds)[p]] && SameEnds(old(table), table) && Rises(old(pipes), pipes)
    {
      hide Inv;
      NewProcess(child);
      for i := 0 to |fds[p]|
        invariant Valid() && fds == old(fds)[child := old(fds)[p][..i]] && SameEnds(old(table), table) && Rises(old(pipes), pipes)
      {
        Inherit(p, child, i);
        assert old(fds)[p][..i + 1] == old(fds)[p][..i] + [old(fds)[p][i]];
      }
      assert old(fds)[p][..|old(fds)[p]|] == old(fds)[p];
    }

    method Inherit(p: nat, child: nat, i: nat)
      requires Valid() && p in fds && child in fds && p != child && i < |fds[p]|
      modifies this`table, this`fds, this`pipes
      ensures Valid() && fds == old(fds)[child := old(fds)[child] + [old(fds)[p][i]]]
      ensures SameEnds(old(table), table) && Rises(old(pipes), pipes)
    {
      hide Inv;
      var k := fds[p][i];
      SlotFacts(p, i);
      var fd := |fds[child]|;
      if k >= 0 {
        AddReference(k);
        Appended(fds, child, k);
        fds := fds[child := fds[child] + [k]];
        SettleInv(old(fds), table, pipes, pins, stuck, k, child, fd, fds);
      } else {
        Padded(fds, child);
        SameSlots(fds, fds[child := fds[child] + [-1]], table, pipes, pins, stuck);
        fds := fds[child := fds[child] + [k]];
      }
    }

    /** `proc_destroy`, for the descriptors: all are cleared, then each is closed; refusals are ignored. */
    method Exit(p: nat)
      requires Valid() && p in fds
      modifies this`table, this`fds, this`pipes, this`stuck
      ensures Valid() && fds == old(fds) - {p} && SameEnds(old(table), table) && Drops(old(table), old(pipes), old(stuck), pipes, stuck)
    {
      hide Inv, SlotsIn, Drops;
      var list := fds[p];
      assert Cleared(list, 0) == list;
      for i := 0 to |list|
        invariant fds == old(fds)[p := Cleared(list, i)]
        modifies this`fds
      {
        assert Cleared(list, i)[i := -1] == Cleared(list, i + 1);
        fds := fds[p := fds[p][i := -1]];
      }
      // for the proof, a reference stays in its slot until it is closed
      ghost var slots := old(fds);
      DropsNone(table, pipes, stuck);
      for i := 0 to |list|
        invariant slots == old(fds)[p := Cleared(list, i)] && Inv(slots, table, pipes, pins, stuck, -1)
        invariant SameEnds(old(table), table) && Drops(old(table), old(pipes), old(stuck), pipes, stuck)
        modifies this`table, this`pipes, this`stuck
      {
        ghost var table1, pipes1, stuck1 := table, pipes, stuck;
        CloseCopied(p, i, slots, list[i]);
        DropsOn(old(table), old(pipes), old(stuck), table1, pipes1, stuck1, pipes, stuck);
        slots := slots[p := slots[p][i := -1]];
        assert slots[p] == Cleared(list, i + 1);
      }
      fds := fds - {p};
      assert forall q: nat, i: nat {:trigger At(fds, q, i)} :: At(fds, q, i) == At(slots, q, i);
      SameSlots(slots, fds, table, pipes, pins, stuck);
    }

    /** One of those closes, while the reference is still in slot `i` of `slots`. */
    method CloseCopied(p: nat, i: nat, ghost slots: Fds, k: int)
      requires Inv(slots, table, pipes, pins, stuck, -1) && p in slots && i < |slots[p]| && slots[p][i] == k
      modifies this`table, this`pipes, this`stuck
      ensures Inv(slots[p := slots[p][i := -1]], table, pipes, pins, stuck, -1)
      ensures SameEnds(old(table), table) && Drops(old(table), old(pipes), old(stuck), pipes, stuck)
    {
      hide Inv, SlotsIn, Drops;
      DropsNone(table, pipes, stuck);
      ghost var slots' := slots[p := slots[p][i := -1]];
      PutReplaces(slots, p, i, -1);
      assert At(slots, p, i) == k;
      if k >= 0 {
        LiftInv(slots, table, pipes, pins, stuck, p, i, slots');
        var ok := KClose(k, slots');
      } else {
        FreeSlot(slots, table, pipes, pins, stuck, -1, p, i);
        SameSlots(slots, slots', table, pipes, pins, stuck);
      }
    }

    /** `pin_process_fd`: a call in progress keeps the entry alive. */
    method Pin(p: nat, fd: int) returns (err: Err, k: int)
      requires Valid() && p in fds
      modifies this`table, this`pins
      ensures Valid()
      ensures err == InvalidArgs <==> fd < 0 || fd >= |fds[p]|
      ensures err == NoSuchFd <==> 0 <= fd < |fds[p]| && fds[p][fd] == -1
      ensures err == Success <==> 0 <= fd < |fds[p]| && fds[p][fd] != -1
      ensures if err == Success then k == fds[p][fd] && pins == old(pins) + multiset{k} else pins == old(pins) && table == old(table)
      ensures SameEnds(old(table), table)
    {
      hide Inv;
      if fd < 0 || fd >= |fds[p]| {
        return InvalidArgs, -1;
      }
      k := fds[p][fd];
      SlotFacts(p, fd);
      if k < 0 {
        return NoSuchFd, -1;
      }
      var x := table[k].value;
      table := table[k := Some(x.(refCount := x.refCount + 1))];
      PinInv(fds, old(table), pipes, pins, stuck, k, table);
      pins := pins + multiset{k};
      err := Success;
    }

    /** The `oft_close_file` at the end of a call. */
    method Unpin(k: int)
      requires Valid() && k in pins
      modifies this`table, this`pins
      ensures Valid() && pins == old(pins) - multiset{k} && SameEnds(old(table), table)
    {
      hide Inv;
      PinFacts(fds, table, pipes, pins, stuck, k);
      OftClose(k);
      if old(table)[k].value.refCount == 1 {
        UnpinLastInv(fds, old(table), pipes, pins, stuck, k, table);
      } else {
        UnpinInv(fds, old(table), pipes, pins, stuck, k, table);
      }
      pins := pins - multiset{k};
    }

    /** Reads and writes change how much a pipe holds. */
    method Traffic(q: nat, size: nat)
      requires Valid() && q in pipes && size <= 4096
      modifies this`pipes
      ensures Valid() && pipes == old(pipes)[q := old(pipes)[q].(size := size)]
    {
      hide Inv;
      TweakInv(fds, table, pipes, pins, stuck, -1, q, pipes[q := pipes[q].(size := size)]);
      pipes := pipes[q := pipes[q].(size := size)];
    }
  }

  /** Slot `fd` of `p` was the lowest free one, or a new one, and is the only one that is different. */
  ghost predicate GetsSlot(fds: Fds, fds': Fds, p: nat, fd: nat) {
    && fds'.Keys == fds.Keys && At(fds, p, fd) == -1 && (forall i :: 0 <= i < fd ==> At(fds, p, i) != -1)
    && Replaces(fds, fds', p, fd, At(fds', p, fd))
  }

  /** The two lowest free slots of `p` name two new entries, for the two ends of `q`; nothing else is different. */
  ghost predicate GetsPipe(fds: Fds, table: Table, fds': Fds, table': Table, p: nat, q: nat, rfd: nat, wfd: nat) {
    var r, w := At(fds', p, rfd), At(fds', p, wfd);
    && rfd < wfd && At(fds, p, rfd) == -1 && At(fds, p, wfd) == -1
    && (forall i :: 0 <= i < wfd && i != rfd ==> At(fds, p, i) != -1)
    && (forall o: nat, i: nat {:trigger At(fds', o, i)} :: (o != p || (i != rfd && i != wfd)) ==> At(fds', o, i) == At(fds, o, i))
    && r != w && !Exists(table, r) && !Exists(table, w)
    && Exists(table', r) && table'[r].value == Entry(1, ReadEnd(q)) && Exists(table', w) && table'[w].value == Entry(1, WriteEnd(q))
    && (forall k :: k != r && k != w ==> (Exists(table', k) <==> Exists(table, k)))
    && (forall k :: Exists(table, k) ==> Exists(table', k) && table'[k] == table[k])
  }

  /** Ends are closed; every refusal leaves a reference behind, on a write end of the pipe that refused, and nothing else
      does. */
  ghost predicate Drops(table: Table, pipes: PipeMap, stuck: multiset<int>, pipes': PipeMap, stuck': multiset<int>) {
    && Falls(pipes, pipes') && stuck <= stuck' && |stuck'| == |stuck| + |Refused(pipes, pipes')|
    && (forall k :: stuck[k] < stuck'[k] ==>
          Exists(table, k) && table[k].value.end.WriteEnd? && table[k].value.end.pipe in Refused(pipes, pipes'))
  }

  /** One close: the reference left behind, if any, is that to `k`. */
  ghost predicate DropsOne(pipes: PipeMap, stuck: multiset<int>, k: int, pipes': PipeMap, stuck': multiset<int>) {
    stuck' == if Refused(pipes, pipes') == {} then stuck else stuck + multiset{k}
  }

  lemma DropsNone(table: Table, pipes: PipeMap, stuck: multiset<int>)
    ensures Drops(table, pipes, stuck, pipes, stuck) && Refused(pipes, pipes) == {}
  {
    FallsStill(pipes);
  }

  lemma DropsOn(table: Table, pipes: PipeMap, stuck: multiset<int>, table1: Table, pipes1: PipeMap, stuck1: multiset<int>,
                pipes2: PipeMap, stuck2: multiset<int>)
    requires Drops(table, pipes, stuck, pipes1, stuck1) && Drops(table1, pipes1, stuck1, pipes2, stuck2) && SameEnds(table, table1)
    ensures Drops(table, pipes, stuck, pipes2, stuck2)
  {
    FallsOn(pipes, pipes1, pipes2);
    RefusedOn(pipes, pipes1, pipes2);
    hide Falls, Refused;
    forall k | stuck[k] < stuck2[k]
      ensures Exists(table, k) && table[k].value.end.WriteEnd? && table[k].value.end.pipe in Refused(pipes, pipes2)
    {
      assert stuck[k] < stuck1[k] || stuck1[k] < stuck2[k];
    }
  }

  lemma RefusedOn(pipes: PipeMap, pipes1: PipeMap, pipes2: PipeMap)
    requires Falls(pipes, pipes1) && Falls(pipes1, pipes2)
    ensures Refused(pipes, pipes1) <= Refused(pipes, pipes2) && Refused(pipes1, pipes2) <= Refused(pipes, pipes2)
  {
    forall q | q in Refused(pipes, pipes1) + Refused(pipes1, pipes2)
      ensures q in Refused(pipes, pipes2)
    {
      assert Closes(pipes[q], pipes1[q]) && Closes(pipes1[q], pipes2[q]);
    }
  }

  ghost function Cleared(list: seq<int>, i: nat): (r: seq<int>)
    requires i <= |list|
    ensures |r| == |list|
  {
    seq(i, _ => -1) + list[i..]
  }

  /** `pipe_close` is a close of the end of entry `k`. */
  lemma PipeFalls(table: Table, pipes: PipeMap, stuck: multiset<int>, k: int, ok: bool, pipes': PipeMap)
    requires Exists(table, k)
    requires var e := table[k].value.end;
             if e.Plain? then ok && pipes' == pipes
             else
               var q, before := e.pipe, Adjusted(table, pipes, k, false);
               && q in pipes && 0 < (if e.ReadEnd? then pipes[q].readers else pipes[q].writers) && !pipes[q].freed
               && ok == !(e.WriteEnd? && pipes[q].writers == 1 && 4096 <= pipes[q].size)
               && pipes'.Keys == before.Keys && Tweaks(before, pipes', q)
               && (pipes'[q].freed <==> ok && Shut(before[q]))
               && pipes'[q].size == if ok && e.WriteEnd? && before[q].writers == 0 then before[q].size + 1 else before[q].size
    ensures Drops(table, pipes, stuck, pipes', if ok then stuck else stuck + multiset{k}) && (ok <==> Refused(pipes, pipes') == {})
    ensures !ok ==> forall q :: q in pipes' ==> q in pipes && pipes'[q].freed == pipes[q].freed
  {
    var e := table[k].value.end;
    if e.Plain? {
      FallsStill(pipes);
    } else {
      forall o | o in pipes && o in pipes'
        ensures Closes(pipes[o], pipes'[o]) && (o in Refused(pipes, pipes') <==> o == e.pipe && !ok)
      {
        assert o != e.pipe ==> pipes'[o] == pipes[o];
      }
      assert Refused(pipes, pipes') == if ok then {} else {e.pipe};
    }
  }

  lemma PinFacts(fds: Fds, table: Table, pipes: PipeMap, pins: multiset<int>, stuck: multiset<int>, k: int)
    requires Inv(fds, table, pipes, pins, stuck, -1) && k in pins
    ensures Exists(table, k) && 0 < table[k].value.refCount
  {
  }

  lemma Appended(fds: Fds, p: nat, v: int)
    requires p in fds
    ensures Replaces(fds, fds[p := fds[p] + [v]], p, |fds[p]|, v) && At(fds, p, |fds[p]|) == -1
  {
  }

  /** Processes come and go with nothing open. */
  lemma SameSlots(fds: Fds, fds': Fds, table: Table, pipes: PipeMap, pins: multiset<int>, stuck: multiset<int>)
    requires Inv(fds, table, pipes, pins, stuck, -1)
    requires forall q: nat, i: nat {:trigger At(fds', q, i)} :: At(fds', q, i) == At(fds, q, i)
    ensures Inv(fds', table, pipes, pins, stuck, -1)
  {
    forall ks: set<int> | -1 !in ks
      ensures SlotsIn(fds', ks) == SlotsIn(fds, ks)
    {
      forall u: (nat, nat)
        ensures u in SlotsIn(fds', ks) <==> u in SlotsIn(fds, ks)
      {
        SlotsInAt(fds, ks, u);
        SlotsInAt(fds', ks, u);
      }
    }
    assert forall e :: -1 !in On(table, e);
  }

  lemma PutReplaces(fds: Fds, p: nat, i: nat, v: int)
    requires p in fds && i < |fds[p]|
    ensures Replaces(fds, fds[p := fds[p][i := v]], p, i, v)
  {
  }

  lemma Padded(fds: Fds, p: nat)
    requires p in fds
    ensures forall q: nat, i: nat {:trigger At(fds[p := fds[p] + [-1]], q, i)} :: At(fds[p := fds[p] + [-1]], q, i) == At(fds, q, i)
  {
  }

  lemma FreeSlot(fds: Fds, table: Table, pipes: PipeMap, pins: multiset<int>, stuck: multiset<int>, held: int, p: nat, i: nat)
    requires Inv(fds, table, pipes, pins, stuck, held) && At(fds, p, i) < 0
    ensures At(fds, p, i) == -1
  {
  }

  /** Trading the reference in hand for that of a slot. */
  lemma SwapInv(fds: Fds, table: Table, pipes: PipeMap, pins: multiset<int>, stuck: multiset<int>, held: int, p: nat, i: nat, fds': Fds)
    requires Inv(fds, table, pipes, pins, stuck, held) && held != -1 && 0 <= At(fds, p, i) && Replaces(fds, fds', p, i, held)
    ensures Inv(fds', table, pipes, pins, stuck, At(fds, p, i))
  {
    hide SlotsIn, On, At;
    MoveCounts(fds, table, held, p, i, fds', At(fds, p, i));
  }

  /** What is known of the reference in hand. */
  lemma HeldFacts(fds: Fds, table: Table, pipes: PipeMap, pins: multiset<int>, stuck: multiset<int>, k: int)
    requires Inv(fds, table, pipes, pins, stuck, k) && k != -1
    ensures Exists(table, k) && 0 < table[k].value.refCount
    ensures var e := table[k].value.end; !e.Plain? ==>
              && e.pipe in pipes && !pipes[e.pipe].freed
              && (e.ReadEnd? ==> 0 < pipes[e.pipe].readers) && (e.WriteEnd? ==> 0 < pipes[e.pipe].writers)
  {
    hide SlotsIn;
    var e := table[k].value.end;
    assert k in On(table, e);
  }

  /** Only the buffer and the freed mark of pipe `q` differ. */
  ghost predicate Tweaks(pipes: PipeMap, pipes': PipeMap, q: nat) {
    && q in pipes && q in pipes' && pipes' == pipes[q := pipes'[q]]
    && pipes'[q].readers == pipes[q].readers && pipes'[q].writers == pipes[q].writers
  }

  lemma TweakInv(fds: Fds, table: Table, pipes: PipeMap, pins: multiset<int>, stuck: multiset<int>, held: int, q: nat, pipes': PipeMap)
    requires Inv(fds, table, pipes, pins, stuck, held) && Tweaks(pipes, pipes', q)
    requires pipes'[q].freed ==> pipes[q].freed || (pipes[q].readers == 0 && pipes[q].writers == 0)
    ensures Inv(fds, table, pipes', pins, stuck, held)
  {
    hide Opened, Named, RefsOk;
  }
}

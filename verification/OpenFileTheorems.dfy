/** The open-file counts over runs, in the terms of a user of the table. */
module OpenFileTheorems {
  import opened Common
  import opened OpenFileState
  import opened OpenFiles

  /** `found` and `made` say whether inodes and memory can be had. */
  datatype Op =
    | NewProc(p: nat) | Open(p: nat, found: bool) | Pipe(p: nat, q: nat, made: bool) | Close(p: nat, fd: int)
    | Dup(p: nat, oldfd: int, newfd: int) | Fork(p: nat, child: nat) | Exit(p: nat)
    | BeginCall(p: nat, fd: int) | EndCall(k: int) | Bytes(q: nat, size: nat)

  datatype Snap = Snap(fds: Fds, table: Table, pipes: PipeMap, pins: multiset<int>, stuck: multiset<int>)

  ghost function Now(f: FileTable): Snap
    reads f
  {
    Snap(f.fds, f.table, f.pipes, f.pins, f.stuck)
  }

  ghost predicate Sound(s: Snap) {
    Inv(s.fds, s.table, s.pipes, s.pins, s.stuck, -1)
  }

  // ---------------------------------------------------------------------------
  // What every state is like
  // ---------------------------------------------------------------------------

  /** The slots that name entry `k`. */
  ghost function Naming(s: Snap, k: int): set<(nat, nat)> {
    set p, i | p in s.fds && 0 <= i < |s.fds[p]| && s.fds[p][i] == k :: (p, i)
  }

  /** The slots open on `e`. */
  ghost function OpenOn(s: Snap, e: End): set<(nat, nat)> {
    set p, i | p in s.fds && 0 <= i < |s.fds[p]| && Exists(s.table, s.fds[p][i]) && s.table[s.fds[p][i]].value.end == e :: (p, i)
  }

  /** The reference count of an entry is the number of slots that name it, plus the calls in progress on it, plus the
      closes of it that were refused. */
  lemma CountsExact(s: Snap, k: int)
    requires Sound(s) && Exists(s.table, k)
    ensures s.table[k].value.refCount == |Naming(s, k)| + s.pins[k] + s.stuck[k]
  {
    assert Naming(s, k) == SlotsIn(s.fds, {k});
  }

  /** A slot names an entry or is free; and an entry that nothing refers to is gone. */
  lemma NothingDangles(s: Snap)
    requires Sound(s)
    ensures forall p, i :: p in s.fds && 0 <= i < |s.fds[p]| ==> s.fds[p][i] == -1 || Exists(s.table, s.fds[p][i])
    ensures s.fds == map[] && s.pins == multiset{} && s.stuck == multiset{} ==> forall k :: !Exists(s.table, k)
  {
    forall p, i | p in s.fds && 0 <= i < |s.fds[p]|
      ensures s.fds[p][i] == -1 || Exists(s.table, s.fds[p][i])
    {
      assert At(s.fds, p, i) == s.fds[p][i];
    }
    forall k | Exists(s.table, k)
      ensures 0 < |SlotsIn(s.fds, {k})| + s.pins[k] + s.stuck[k]
    {
    }
    assert s.fds == map[] ==> forall k :: SlotsIn(s.fds, {k}) == {};
  }

  /** The reader and writer counts of a pipe are the slots open on its ends, and a freed pipe has none. */
  lemma PipeEndsExact(s: Snap, q: nat)
    requires Sound(s) && q in s.pipes
    ensures s.pipes[q].readers == |OpenOn(s, ReadEnd(q))| && s.pipes[q].writers == |OpenOn(s, WriteEnd(q))|
    ensures s.pipes[q].freed ==> OpenOn(s, ReadEnd(q)) == {} && OpenOn(s, WriteEnd(q)) == {}
  {
    assert OpenOn(s, ReadEnd(q)) == SlotsIn(s.fds, On(s.table, ReadEnd(q)));
    assert OpenOn(s, WriteEnd(q)) == SlotsIn(s.fds, On(s.table, WriteEnd(q)));
    assert -1 !in On(s.table, ReadEnd(q)) && -1 !in On(s.table, WriteEnd(q));
  }

  // ---------------------------------------------------------------------------
  // Runs
  // ---------------------------------------------------------------------------

  /** Slot `fd` of process `p` names an entry. */
  ghost predicate Names(s: Snap, p: nat, fd: int) {
    p in s.fds && 0 <= fd < |s.fds[p]| && 0 <= s.fds[p][fd]
  }

  /** From `pipes` on, ends are closed. */
  ghost predicate Dropped(s: Snap, pipes: PipeMap, t: Snap) {
    SameEnds(s.table, t.table) && Drops(s.table, pipes, s.stuck, t.pipes, t.stuck) && t.pins == s.pins
  }

  /** What an operation does; where it does not apply, nothing.  The counts follow, since both states are sound. */
  ghost predicate Step(s: Snap, op: Op, t: Snap) {
    match op
    case NewProc(p) => t == if p in s.fds then s else s.(fds := s.fds[p := []])
    case Open(p, found) =>
      if p in s.fds && found then
        && (exists fd: nat :: GetsSlot(s.fds, t.fds, p, fd) && Adds(s.table, t.table, At(t.fds, p, fd), Entry(1, Plain)))
        && t == s.(fds := t.fds, table := t.table)
      else t == s
    case Pipe(p, q, made) =>
      if p in s.fds && q !in s.pipes && made then
        && (exists rfd: nat, wfd: nat :: GetsPipe(s.fds, s.table, t.fds, t.table, p, q, rfd, wfd))
        && t == Snap(t.fds, t.table, s.pipes[q := Ends(1, 1, 0, false)], s.pins, s.stuck)
      else t == s
    case Close(p, fd) =>
      if Names(s, p, fd) then
        && t.fds == s.fds[p := s.fds[p][fd := -1]] && Dropped(s, s.pipes, t) && DropsOne(s.pipes, s.stuck, s.fds[p][fd], t.pipes, t.stuck)
        && (Refused(s.pipes, t.pipes) != {} ==> forall q :: q in s.pipes && q in t.pipes ==> t.pipes[q].freed == s.pipes[q].freed)
      else t == s
    case Dup(p, oldfd, newfd) =>
      if Names(s, p, oldfd) && 0 <= newfd then
        && t.fds.Keys == s.fds.Keys && Replaces(s.fds, t.fds, p, newfd, s.fds[p][oldfd])
        && Exists(s.table, s.fds[p][oldfd])
        && var mid := Adjusted(s.table, s.pipes, s.fds[p][oldfd], true);
           Dropped(s, mid, t) && DropsOne(mid, s.stuck, At(s.fds, p, newfd), t.pipes, t.stuck)
      else t == s
    case Fork(p, child) =>
      if p in s.fds && child !in s.fds then
        && t.fds == s.fds[child := s.fds[p]] && SameEnds(s.table, t.table) && Rises(s.pipes, t.pipes)
        && t == s.(fds := t.fds, table := t.table, pipes := t.pipes)
      else t == s
    case Exit(p) =>
      if p in s.fds then t.fds == s.fds - {p} && Dropped(s, s.pipes, t) else t == s
    case BeginCall(p, fd) =>
      if Names(s, p, fd) then
        SameEnds(s.table, t.table) && t == s.(table := t.table, pins := s.pins + multiset{s.fds[p][fd]})
      else t == s
    case EndCall(k) =>
      if k in s.pins then SameEnds(s.table, t.table) && t == s.(table := t.table, pins := s.pins - multiset{k}) else t == s
    case Bytes(q, size) =>
      t == if q in s.pipes && size <= 4096 then s.(pipes := s.pipes[q := s.pipes[q].(size := size)]) else s
  }

  ghost predicate Trace(states: seq<Snap>, ops: seq<Op>) {
    && |states| == |ops| + 1
    && (forall i :: 0 <= i <= |ops| ==> Sound(states[i]))
    && (forall i :: 0 <= i < |ops| ==> Step(states[i], ops[i], states[i + 1]))
  }

  /** Any operation, where it applies. */
  method Perform(f: FileTable, op: Op)
    requires f.Valid()
    modifies f
    ensures f.Valid() && Step(old(Now(f)), op, Now(f))
  {
    hide Inv, Drops, GetsPipe, GetsSlot, Adds, SameEnds, Rises, Falls, Refused;
    match op
    case NewProc(p) =>
      if p !in f.fds { f.NewProcess(p); }
    case Open(p, found) =>
      if p in f.fds { var fd := f.Open(p, found); }
    case Pipe(p, q, made) =>
      if p in f.fds && q !in f.pipes { var ok, r, w := f.MakePipe(p, q, made); }
    case Close(p, fd) =>
      if p in f.fds { PerformClose(f, p, fd); }
    case Dup(p, oldfd, newfd) =>
      if p in f.fds { var ok := f.Dup2(p, oldfd, newfd); }
    case Fork(p, child) =>
      if p in f.fds && child !in f.fds { f.Fork(p, child); }
    case Exit(p) =>
      if p in f.fds { f.Exit(p); }
    case BeginCall(p, fd) =>
      if p in f.fds { PerformPin(f, p, fd); }
    case EndCall(k) =>
      if k in f.pins { f.Unpin(k); }
    case Bytes(q, size) =>
      if q in f.pipes && size <= 4096 { f.Traffic(q, size); }
  }

  method PerformClose(f: FileTable, p: nat, fd: int)
    requires f.Valid() && p in f.fds
    modifies f
    ensures f.Valid() && Step(old(Now(f)), Close(p, fd), Now(f))
  {
    hide Inv, SameEnds, Falls, Refused;
    if 0 <= fd < |f.fds[p]| {
      f.SlotFacts(p, fd);
    }
    var err := f.Close(p, fd);
  }

  method PerformPin(f: FileTable, p: nat, fd: int)
    requires f.Valid() && p in f.fds
    modifies f
    ensures f.Valid() && Step(old(Now(f)), BeginCall(p, fd), Now(f))
  {
    hide Inv, SameEnds;
    if 0 <= fd < |f.fds[p]| {
      f.SlotFacts(p, fd);
    }
    var err, k := f.Pin(p, fd);
  }

  /** Every state of every run is sound, and follows from the one before by its operation. */
  method RunAll(f: FileTable, ops: seq<Op>) returns (ghost states: seq<Snap>)
    requires f.Valid()
    modifies f
    ensures f.Valid() && Trace(states, ops) && states[0] == old(Now(f)) && states[|ops|] == Now(f)
  {
    hide Inv, Step;
    states := [Now(f)];
    for k := 0 to |ops|
      invariant f.Valid() && Trace(states, ops[..k]) && states[0] == old(Now(f)) && states[k] == Now(f)
    {
      Perform(f, ops[k]);
      states := states + [Now(f)];
    }
    assert ops[..|ops|] == ops;
  }

  // ---------------------------------------------------------------------------
  // What is left behind
  // ---------------------------------------------------------------------------

  /** The pipes that refuse the close of their last writer in this step. */
  ghost function Refusals(s: Snap, op: Op, t: Snap): set<nat> {
    match op
    case Close(p, fd) => Refused(s.pipes, t.pipes)
    case Exit(p) => Refused(s.pipes, t.pipes)
    case Dup(p, oldfd, newfd) =>
      if Names(s, p, oldfd) && 0 <= newfd && Exists(s.table, s.fds[p][oldfd]) then Refused(Adjusted(s.table, s.pipes, s.fds[p][oldfd], true), t.pipes) else {}
    case _ => {}
  }

  ghost function AllRefusals(states: seq<Snap>, ops: seq<Op>, n: nat): nat
    requires n <= |ops| < |states|
  {
    if n == 0 then 0 else AllRefusals(states, ops, n - 1) + |Refusals(states[n - 1], ops[n - 1], states[n])|
  }

  lemma StepLeaves(s: Snap, op: Op, t: Snap)
    requires Step(s, op, t)
    ensures |t.stuck| == |s.stuck| + |Refusals(s, op, t)|
  {
    hide SameEnds, Falls, GetsPipe, GetsSlot, Adds, Rises;
    FallsStill(s.pipes);
  }

  /** Over any run, the references left behind are as many as the refusals. */
  lemma {:induction false} LeftBehind(states: seq<Snap>, ops: seq<Op>, n: nat)
    requires Trace(states, ops) && n <= |ops|
    ensures |states[n].stuck| == |states[0].stuck| + AllRefusals(states, ops, n)
  {
    hide Step, Sound;
    if n > 0 {
      LeftBehind(states, ops, n - 1);
      StepLeaves(states[n - 1], ops[n - 1], states[n]);
    }
  }

  lemma Member(m: multiset<int>) returns (k: int)
    requires m != multiset{}
    ensures k in m
  {
    Hollow(m);
    k :| k in m;
  }

  lemma Hollow(m: multiset<int>)
    ensures (forall k :: k !in m) ==> m == multiset{}
  {
    if forall k :: k !in m {
      assert m == multiset{};
    }
  }

  /** When every process is gone and no call is in progress, the table is empty if and only if no close was refused on
      the way, and then every pipe is shut. */
  lemma AllGone(states: seq<Snap>, ops: seq<Op>)
    requires Trace(states, ops) && states[0].stuck == multiset{}
    requires states[|ops|].fds == map[] && states[|ops|].pins == multiset{}
    ensures (forall k :: !Exists(states[|ops|].table, k)) <==> AllRefusals(states, ops, |ops|) == 0
    ensures forall q :: q in states[|ops|].pipes ==> Shut(states[|ops|].pipes[q])
  {
    hide Step;
    var s := states[|ops|];
    LeftBehind(states, ops, |ops|);
    NothingDangles(s);
    if s.stuck != multiset{} {
      var k := Member(s.stuck);
      assert Exists(s.table, k);
    }
    forall q | q in s.pipes
      ensures Shut(s.pipes[q])
    {
      PipeEndsExact(s, q);
      assert OpenOn(s, ReadEnd(q)) == {} && OpenOn(s, WriteEnd(q)) == {};
    }
  }

  /** A refused close: the writer of a full pipe leaves, then the process.  The entry of the write end stays in the
      table for good, and no slot names it. */
  method WriteEndLost() returns (f: FileTable, k: int)
    ensures f.Valid() && f.fds == map[] && f.pins == multiset{}
    ensures Exists(f.table, k) && f.table[k].value.refCount == 1
  {
    hide Inv, Falls, SameEnds;
    f, k := RefusedClose();
    ghost var s := Now(f);
    f.Exit(1);
    assert f.fds == map[];
    assert Refused(s.pipes, f.pipes) == {};
    NoneAdded(s.stuck, f.stuck);
    StuckStays(Now(f), k);
  }

  method RefusedClose() returns (f: FileTable, k: int)
    ensures fresh(f) && f.Valid() && f.fds.Keys == {1} && f.pins == multiset{} && f.stuck == multiset{k}
    ensures f.pipes.Keys == {7} && f.pipes[7].writers == 0
  {
    hide Inv;
    f := new FileTable();
    f.NewProcess(1);
    var ok, r, w := f.MakePipe(1, 7, true);
    f.Traffic(7, 4096);
    k := f.fds[1][w];
    ghost var pipes := f.pipes;
    var err := f.Close(1, w);
    ghost var refused := Refused(pipes, f.pipes);
    ghost var q :| q in refused;
  }

  lemma NoneAdded(m: multiset<int>, m': multiset<int>)
    requires m <= m' && |m'| == |m|
    ensures m' == m
  {
    assert m' == m + (m' - m);
    assert |m' - m| == 0;
  }

  lemma StuckStays(s: Snap, k: int)
    requires Sound(s) && s.fds == map[] && s.pins == multiset{} && s.stuck == multiset{k}
    ensures Exists(s.table, k) && s.table[k].value.refCount == 1
  {
    CountsExact(s, k);
    assert Naming(s, k) == {};
  }
}

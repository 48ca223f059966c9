/** Descriptor slots, open-file entries and pipe ends, as values (`kernel/fs/oft.c`). */
module OpenFileState {
  import opened Common

  /** What an entry is open on: an end of a pipe, or anything else. */
  datatype End = Plain | ReadEnd(pipe: nat) | WriteEnd(pipe: nat)

  datatype Entry = Entry(refCount: nat, end: End)

  const PIPE_CAPACITY: nat := 4096

  /** `open_file_table`, and the descriptors of each process; -1 is a free slot. */
  type Table = seq<Option<Entry>>
  type Fds = map<nat, seq<int>>

  /** The ends that are open, the bytes in the buffer, and whether `pipe_free` ran. */
  datatype Ends = Ends(readers: nat, writers: nat, size: nat, freed: bool)
  type PipeMap = map<nat, Ends>

  ghost function At(fds: Fds, p: nat, i: nat): int {
    if p in fds && i < |fds[p]| then fds[p][i] else -1
  }

  predicate Exists(table: Table, k: int) {
    0 <= k < |table| && table[k].Some?
  }

  /** No entry is new or open on something else. */
  ghost predicate SameEnds(table: Table, table': Table) {
    forall k :: Exists(table', k) ==> Exists(table, k) && table'[k].value.end == table[k].value.end
  }

  // ---------------------------------------------------------------------------
  // Counting slots
  // ---------------------------------------------------------------------------

  /** The slots whose entry is in `ks`. */
  ghost function SlotsIn(fds: Fds, ks: set<int>): set<(nat, nat)> {
    set p, i | p in fds && 0 <= i < |fds[p]| && fds[p][i] in ks :: (p, i)
  }

  lemma SlotsInAt(fds: Fds, ks: set<int>, s: (nat, nat))
    requires -1 !in ks
    ensures s in SlotsIn(fds, ks) <==> At(fds, s.0, s.1) in ks
  {
  }

  /** `fds'` has `v` in slot `i` of `p`, and is as `fds` elsewhere. */
  ghost predicate Replaces(fds: Fds, fds': Fds, p: nat, i: nat, v: int) {
    && At(fds', p, i) == v
    && (forall q: nat, j: nat {:trigger At(fds', q, j)} :: !(q == p && j == i) ==> At(fds', q, j) == At(fds, q, j))
  }

  lemma SlotsReplaced(fds: Fds, fds': Fds, p: nat, i: nat, v: int, ks: set<int>)
    requires Replaces(fds, fds', p, i, v) && -1 !in ks
    ensures |SlotsIn(fds', ks)| == |SlotsIn(fds, ks)| - (if At(fds, p, i) in ks then 1 else 0) + (if v in ks then 1 else 0)
  {
    hide SlotsIn, At;
    var s := (p, i);
    SlotsInAt(fds, ks, s);
    SlotsInAt(fds', ks, s);
    forall u: (nat, nat) | u != s
      ensures u in SlotsIn(fds, ks) <==> u in SlotsIn(fds', ks)
    {
      SlotsInAt(fds, ks, u);
      SlotsInAt(fds', ks, u);
    }
    SetDiffer(SlotsIn(fds, ks), SlotsIn(fds', ks), s);
  }

  lemma SetDiffer<T>(a: set<T>, b: set<T>, s: T)
    requires forall u | u in a + b && u != s :: u in a <==> u in b
    ensures |b| == |a| - (if s in a then 1 else 0) + (if s in b then 1 else 0)
  {
    assert a - {s} == b - {s};
    assert |a| == |a - {s}| + (if s in a then 1 else 0);
    assert |b| == |b - {s}| + (if s in b then 1 else 0);
  }

  /** An entry that no slot names makes no difference. */
  lemma SlotsUnnamed(fds: Fds, ks: set<int>, k: int)
    requires forall p: nat, i: nat {:trigger At(fds, p, i)} :: At(fds, p, i) != k
    ensures SlotsIn(fds, ks + {k}) == SlotsIn(fds, ks) && SlotsIn(fds, ks - {k}) == SlotsIn(fds, ks)
  {
    forall p, i | p in fds && 0 <= i < |fds[p]|
      ensures fds[p][i] != k
    {
      assert At(fds, p, i) == fds[p][i];
    }
  }

  /** The entries open on `e`. */
  ghost function On(table: Table, e: End): set<int> {
    set k | 0 <= k < |table| && table[k].Some? && table[k].value.end == e
  }

  // ---------------------------------------------------------------------------
  // Pipes as their ends open and close
  // ---------------------------------------------------------------------------

  ghost predicate Shut(x: Ends) {
    x.readers == 0 && x.writers == 0
  }

  /** The last writer is gone. */
  ghost predicate Ended(x: Ends, y: Ends) {
    0 < x.writers && y.writers == 0
  }

  /** What closing ends does to a pipe: the end mark goes in as the last writer goes, if there is room; and the pipe is
      freed with its last end, unless that was a writer for whose mark there was no room. */
  ghost predicate Closes(x: Ends, y: Ends) {
    && y.readers <= x.readers && y.writers <= x.writers
    && y.size == (if Ended(x, y) && x.size < 4096 then x.size + 1 else x.size)
    && (x.freed ==> y.freed) && (y.freed ==> x.freed || Shut(y))
    && (Shut(y) && !Shut(x) && !(Ended(x, y) && 4096 <= x.size) ==> y.freed)
  }

  ghost predicate Falls(pipes: PipeMap, pipes': PipeMap) {
    pipes'.Keys == pipes.Keys && forall q :: q in pipes && q in pipes' ==> Closes(pipes[q], pipes'[q])
  }

  /** The pipes whose last writer found no room for the mark. */
  ghost function Refused(pipes: PipeMap, pipes': PipeMap): set<nat> {
    set q | q in pipes && q in pipes' && Ended(pipes[q], pipes'[q]) && 4096 <= pipes[q].size
  }

  lemma FallsOn(pipes: PipeMap, pipes1: PipeMap, pipes2: PipeMap)
    requires Falls(pipes, pipes1) && Falls(pipes1, pipes2)
    ensures Falls(pipes, pipes2) && |Refused(pipes, pipes2)| == |Refused(pipes, pipes1)| + |Refused(pipes1, pipes2)|
  {
    forall q | q in pipes && q in pipes2
      ensures Closes(pipes[q], pipes2[q])
      ensures q in Refused(pipes, pipes2) <==> q in Refused(pipes, pipes1) + Refused(pipes1, pipes2)
      ensures !(q in Refused(pipes, pipes1) && q in Refused(pipes1, pipes2))
    {
      assert Closes(pipes[q], pipes1[q]) && Closes(pipes1[q], pipes2[q]);
    }
    assert Refused(pipes, pipes2) == Refused(pipes, pipes1) + Refused(pipes1, pipes2);
    assert Refused(pipes, pipes1) !! Refused(pipes1, pipes2);
  }

  lemma FallsStill(pipes: PipeMap)
    ensures Falls(pipes, pipes) && Refused(pipes, pipes) == {}
  {
  }

  /** More ends are open, and nothing else is different. */
  ghost predicate Rises(pipes: PipeMap, pipes': PipeMap) {
    && pipes'.Keys == pipes.Keys
    && (forall q :: q in pipes && q in pipes' ==>
          && pipes[q].readers <= pipes'[q].readers && pipes[q].writers <= pipes'[q].writers
          && pipes'[q].size == pipes[q].size && pipes'[q].freed == pipes[q].freed)
  }

  // ---------------------------------------------------------------------------
  // The invariant
  // ---------------------------------------------------------------------------

  /** Every slot, pin, stuck reference and the reference in flight names an entry. */
  ghost predicate Named(fds: Fds, table: Table, pins: multiset<int>, stuck: multiset<int>, held: int) {
    && (forall p: nat, i: nat {:trigger At(fds, p, i)} :: At(fds, p, i) == -1 || Exists(table, At(fds, p, i)))
    && (forall k :: k in pins ==> Exists(table, k))
    && (forall k :: k in stuck ==> Exists(table, k))
    && (held == -1 || Exists(table, held))
  }

  /** The reference count of an entry: its slots, its pins, the references that a failed close left behind, and the
      one that a `dup2` is holding. */
  ghost function References(fds: Fds, pins: multiset<int>, stuck: multiset<int>, held: int, k: int): nat {
    |SlotsIn(fds, {k})| + pins[k] + stuck[k] + (if held == k then 1 else 0)
  }

  ghost predicate RefsOk(fds: Fds, table: Table, pins: multiset<int>, stuck: multiset<int>, held: int) {
    forall k :: Exists(table, k) ==> table[k].value.refCount == References(fds, pins, stuck, held, k) && 0 < table[k].value.refCount
  }

  /** The open ends of a pipe: the slots on its entries, and the one in flight. */
  ghost function Opened(fds: Fds, table: Table, held: int, e: End): nat {
    |SlotsIn(fds, On(table, e))| + (if held in On(table, e) then 1 else 0)
  }

  ghost predicate PipesOk(fds: Fds, table: Table, pipes: PipeMap, held: int) {
    && (forall q :: q in pipes ==> pipes[q].readers == Opened(fds, table, held, ReadEnd(q)) && pipes[q].writers == Opened(fds, table, held, WriteEnd(q)))
    && (forall k :: Exists(table, k) && !table[k].value.end.Plain? ==> table[k].value.end.pipe in pipes)
    && (forall q :: q in pipes && pipes[q].freed ==> pipes[q].readers == 0 && pipes[q].writers == 0)
  }

  ghost predicate Inv(fds: Fds, table: Table, pipes: PipeMap, pins: multiset<int>, stuck: multiset<int>, held: int) {
    Named(fds, table, pins, stuck, held) && RefsOk(fds, table, pins, stuck, held) && PipesOk(fds, table, pipes, held)
  }

  // ---------------------------------------------------------------------------
  // The elementary changes keep it
  // ---------------------------------------------------------------------------

  /** Only the count of entry `k` is different. */
  ghost predicate Recounts(table: Table, table': Table, k: int, n: nat) {
    Exists(table, k) && table' == table[k := Some(table[k].value.(refCount := n))]
  }

  lemma RecountOn(table: Table, table': Table, k: int, n: nat, e: End)
    requires Recounts(table, table', k, n)
    ensures On(table', e) == On(table, e)
  {
  }

  /** The pipe of entry `k` with one end more or less open. */
  function Adjusted(table: Table, pipes: PipeMap, k: int, up: bool): PipeMap
    requires Exists(table, k)
  {
    var e := table[k].value.end;
    if e.Plain? || e.pipe !in pipes then pipes
    else if e.ReadEnd? then pipes[e.pipe := pipes[e.pipe].(readers := if up then pipes[e.pipe].readers + 1 else Less(pipes[e.pipe].readers))]
    else pipes[e.pipe := pipes[e.pipe].(writers := if up then pipes[e.pipe].writers + 1 else Less(pipes[e.pipe].writers))]
  }

  function Less(n: nat): nat {
    if n == 0 then 0 else n - 1
  }

  /** One end more or less is open on the pipe of entry `k`. */
  lemma AdjustedOk(fds: Fds, table: Table, pipes: PipeMap, held: int, k: int, up: bool, table': Table, held': int)
    requires PipesOk(fds, table, pipes, held) && Exists(table, k) && (up ==> !OnFreed(table, pipes, k))
    requires forall e {:trigger Opened(fds, table', held', e)} :: e != Plain ==>
               Opened(fds, table', held', e) == Opened(fds, table, held, e) + (if e != table[k].value.end then 0 else if up then 1 else -1)
    requires forall j :: Exists(table', j) ==> Exists(table, j) && table'[j].value.end == table[j].value.end
    ensures PipesOk(fds, table', Adjusted(table, pipes, k, up), held')
  {
    hide Opened;
    var e := table[k].value.end;
    assert !up && e.ReadEnd? ==> Opened(fds, table', held', e) == Opened(fds, table, held, e) - 1;
    assert !up && e.WriteEnd? ==> Opened(fds, table', held', e) == Opened(fds, table, held, e) - 1;
    forall q | q in pipes
      ensures Adjusted(table, pipes, k, up)[q].readers == Opened(fds, table', held', ReadEnd(q))
      ensures Adjusted(table, pipes, k, up)[q].writers == Opened(fds, table', held', WriteEnd(q))
    {
    }
  }

  /** No end opens or closes. */
  lemma PipesSame(fds: Fds, table: Table, pipes: PipeMap, held: int, table': Table, held': int)
    requires PipesOk(fds, table, pipes, held)
    requires forall e {:trigger Opened(fds, table', held', e)} :: e != Plain ==> Opened(fds, table', held', e) == Opened(fds, table, held, e)
    requires forall j :: Exists(table', j) && !table'[j].value.end.Plain? ==> table'[j].value.end.pipe in pipes
    ensures PipesOk(fds, table', pipes, held')
  {
    hide Opened;
  }

  /** `k_file_add_reference`: the caller holds a new reference. */
  lemma HoldInv(fds: Fds, table: Table, pipes: PipeMap, pins: multiset<int>, stuck: multiset<int>, k: int, table': Table)
    requires Inv(fds, table, pipes, pins, stuck, -1) && Exists(table, k) && !OnFreed(table, pipes, k)
    requires Recounts(table, table', k, table[k].value.refCount + 1)
    ensures Inv(fds, table', Adjusted(table, pipes, k, true), pins, stuck, k)
  {
    forall e { RecountOn(table, table', k, table[k].value.refCount + 1, e); }
    assert forall j :: Exists(table', j) <==> Exists(table, j);
    assert forall e :: k in On(table, e) <==> table[k].value.end == e;
    assert Named(fds, table', pins, stuck, k);
    assert RefsOk(fds, table', pins, stuck, k);
    AdjustedOk(fds, table, pipes, -1, k, true, table', k);
  }

  /** The entry is on a pipe that was freed. */
  ghost predicate OnFreed(table: Table, pipes: PipeMap, k: int)
    requires Exists(table, k)
  {
    var e := table[k].value.end;
    !e.Plain? && e.pipe in pipes && pipes[e.pipe].freed
  }

  /** The reference in flight settles in a free slot. */
  lemma SettleInv(fds: Fds, table: Table, pipes: PipeMap, pins: multiset<int>, stuck: multiset<int>, held: int, p: nat, i: nat, fds': Fds)
    requires Inv(fds, table, pipes, pins, stuck, held) && held != -1
    requires At(fds, p, i) == -1 && Replaces(fds, fds', p, i, held)
    ensures Inv(fds', table, pipes, pins, stuck, -1)
  {
    hide SlotsIn, On, At;
    MoveCounts(fds, table, held, p, i, fds', -1);
  }

  /** A slot gives up its reference to whoever cleared it. */
  lemma LiftInv(fds: Fds, table: Table, pipes: PipeMap, pins: multiset<int>, stuck: multiset<int>, p: nat, i: nat, fds': Fds)
    requires Inv(fds, table, pipes, pins, stuck, -1) && At(fds, p, i) != -1 && Replaces(fds, fds', p, i, -1)
    ensures Inv(fds', table, pipes, pins, stuck, At(fds, p, i))
  {
    hide SlotsIn, On, At;
    MoveCounts(fds, table, -1, p, i, fds', At(fds, p, i));
  }

  /** Moving a reference between a slot and a hand changes no count. */
  lemma MoveCounts(fds: Fds, table: Table, held: int, p: nat, i: nat, fds': Fds, held': int)
    requires Replaces(fds, fds', p, i, held) && At(fds, p, i) == held'
    ensures forall pins: multiset<int>, stuck: multiset<int>, k: int {:trigger References(fds', pins, stuck, held', k)} :: k != -1 ==>
              References(fds', pins, stuck, held', k) == References(fds, pins, stuck, held, k)
    ensures forall e {:trigger Opened(fds', table, held', e)} :: Opened(fds', table, held', e) == Opened(fds, table, held, e)
  {
    forall k: int | k != -1
      ensures |SlotsIn(fds', {k})| == |SlotsIn(fds, {k})| - (if held' == k then 1 else 0) + (if held == k then 1 else 0)
    {
      SlotsReplaced(fds, fds', p, i, held, {k});
    }
    forall e
      ensures Opened(fds', table, held', e) == Opened(fds, table, held, e)
    {
      SlotsReplaced(fds, fds', p, i, held, On(table, e));
    }
  }

  /** `oft_close_file` on the reference in hand, while others remain. */
  lemma DropInv(fds: Fds, table: Table, pipes: PipeMap, pins: multiset<int>, stuck: multiset<int>, k: int, table': Table)
    requires Inv(fds, table, pipes, pins, stuck, k) && k != -1 && 1 < table[k].value.refCount
    requires Recounts(table, table', k, table[k].value.refCount - 1)
    ensures Inv(fds, table', Adjusted(table, pipes, k, false), pins, stuck, -1)
  {
    forall e { RecountOn(table, table', k, table[k].value.refCount - 1, e); }
    assert forall j :: Exists(table', j) <==> Exists(table, j);
    assert forall e :: k in On(table, e) <==> table[k].value.end == e;
    assert forall e :: -1 !in On(table, e);
    assert Named(fds, table', pins, stuck, -1);
    assert RefsOk(fds, table', pins, stuck, -1);
    AdjustedOk(fds, table, pipes, k, k, false, table', -1);
  }

  /** Entry `k` is gone, the others are as they were. */
  ghost predicate Removes(table: Table, table': Table, k: int) {
    && (forall j :: Exists(table', j) <==> Exists(table, j) && j != k)
    && (forall j :: Exists(table', j) ==> Exists(table, j) && table'[j] == table[j])
  }

  lemma RemovedOn(table: Table, table': Table, k: int, e: End)
    requires Removes(table, table', k)
    ensures On(table', e) == On(table, e) - {k}
  {
    forall j
      ensures j in On(table', e) <==> j in On(table, e) && j != k
    {
      assert Exists(table', j) <==> Exists(table, j) && j != k;
    }
  }

  /** `oft_close_file` on the last reference. */
  lemma DropLastInv(fds: Fds, table: Table, pipes: PipeMap, pins: multiset<int>, stuck: multiset<int>, k: int, table': Table)
    requires Inv(fds, table, pipes, pins, stuck, k) && k != -1 && table[k].value.refCount == 1 && Removes(table, table', k)
    ensures Inv(fds, table', Adjusted(table, pipes, k, false), pins, stuck, -1)
  {
    assert References(fds, pins, stuck, k, k) == 1;
    Unnamed(fds, k);
    forall e
      ensures On(table', e) == On(table, e) - {k} && SlotsIn(fds, On(table', e)) == SlotsIn(fds, On(table, e))
    {
      RemovedOn(table, table', k, e);
      SlotsUnnamed(fds, On(table, e), k);
    }
    assert forall e :: k in On(table, e) <==> table[k].value.end == e;
    assert forall e :: -1 !in On(table, e);
    assert Named(fds, table', pins, stuck, -1);
    assert RefsOk(fds, table', pins, stuck, -1);
    AdjustedOk(fds, table, pipes, k, k, false, table', -1);
  }

  lemma Unnamed(fds: Fds, k: int)
    requires SlotsIn(fds, {k}) == {} && k != -1
    ensures forall p: nat, i: nat {:trigger At(fds, p, i)} :: At(fds, p, i) != k
  {
    forall p: nat, i: nat
      ensures At(fds, p, i) != k
    {
      SlotsInAt(fds, {k}, (p, i));
    }
  }

  /** A close that failed: the pipe end is gone, the reference stays behind. */
  lemma StickInv(fds: Fds, table: Table, pipes: PipeMap, pins: multiset<int>, stuck: multiset<int>, k: int)
    requires Inv(fds, table, pipes, pins, stuck, k) && k != -1
    ensures Inv(fds, table, Adjusted(table, pipes, k, false), pins, stuck + multiset{k}, -1)
  {
    assert forall e :: k in On(table, e) <==> table[k].value.end == e;
    assert forall e :: -1 !in On(table, e);
    assert Named(fds, table, pins, stuck + multiset{k}, -1);
    assert RefsOk(fds, table, pins, stuck + multiset{k}, -1);
    AdjustedOk(fds, table, pipes, k, k, false, table, -1);
  }

  /** Entry `j` is new, the others are as they were. */
  ghost predicate Adds(table: Table, table': Table, j: int, e: Entry) {
    && !Exists(table, j) && Exists(table', j) && table'[j] == Some(e)
    && (forall i :: i != j ==> (Exists(table', i) <==> Exists(table, i)))
    && (forall i :: i != j && Exists(table, i) ==> Exists(table', i) && table'[i] == table[i])
  }

  lemma AddedOn(table: Table, table': Table, j: int, x: Entry, e: End)
    requires Adds(table, table', j, x)
    ensures On(table', e) == if e == x.end then On(table, e) + {j} else On(table, e)
  {
    forall i
      ensures i in On(table', e) <==> i in On(table, e) || (i == j && e == x.end)
    {
      assert i != j ==> (Exists(table', i) <==> Exists(table, i));
    }
  }

  /** `oft_open_file`: a new entry, whose one reference the caller holds. */
  lemma OpenInv(fds: Fds, table: Table, pipes: PipeMap, pins: multiset<int>, stuck: multiset<int>, j: int, e: End, table': Table)
    requires Inv(fds, table, pipes, pins, stuck, -1) && Adds(table, table', j, Entry(1, e))
    requires e.Plain? || (e.pipe in pipes && !pipes[e.pipe].freed)
    ensures Inv(fds, table', Adjusted(table', pipes, j, true), pins, stuck, j)
  {
    assert forall p: nat, i: nat {:trigger At(fds, p, i)} :: At(fds, p, i) != j;
    forall d
      ensures On(table', d) == if d == e then On(table, d) + {j} else On(table, d)
      ensures SlotsIn(fds, On(table', d)) == SlotsIn(fds, On(table, d))
    {
      AddedOn(table, table', j, Entry(1, e), d);
      SlotsUnnamed(fds, On(table, d), j);
    }
    SlotsUnnamed(fds, {}, j);
    assert SlotsIn(fds, {}) == {} && {} + {j} == {j};
    assert forall d :: -1 !in On(table, d);
    assert Named(fds, table', pins, stuck, j);
    assert RefsOk(fds, table', pins, stuck, j);
    PipesSame(fds, table, pipes, -1, table', -1);
    AdjustedOk(fds, table', pipes, -1, j, true, table', j);
  }

  /** A new pipe, which nothing names yet. */
  lemma NewPipeInv(fds: Fds, table: Table, pipes: PipeMap, pins: multiset<int>, stuck: multiset<int>, q: nat)
    requires Inv(fds, table, pipes, pins, stuck, -1) && q !in pipes
    ensures Inv(fds, table, pipes[q := Ends(0, 0, 0, false)], pins, stuck, -1)
  {
    assert On(table, ReadEnd(q)) == {} by {
      forall k | Exists(table, k) ensures table[k].value.end != ReadEnd(q) {}
    }
    assert On(table, WriteEnd(q)) == {} by {
      forall k | Exists(table, k) ensures table[k].value.end != WriteEnd(q) {}
    }
    assert SlotsIn(fds, {}) == {};
  }

  /** `oft_add_reference` for a call in progress. */
  lemma PinInv(fds: Fds, table: Table, pipes: PipeMap, pins: multiset<int>, stuck: multiset<int>, k: int, table': Table)
    requires Inv(fds, table, pipes, pins, stuck, -1) && Exists(table, k)
    requires Recounts(table, table', k, table[k].value.refCount + 1)
    ensures Inv(fds, table', pipes, pins + multiset{k}, stuck, -1)
  {
    forall e { RecountOn(table, table', k, table[k].value.refCount + 1, e); }
    assert forall j :: Exists(table', j) <==> Exists(table, j);
    assert Named(fds, table', pins + multiset{k}, stuck, -1);
    assert RefsOk(fds, table', pins + multiset{k}, stuck, -1);
    PipesSame(fds, table, pipes, -1, table', -1);
  }

  /** The end of a call, while other references remain. */
  lemma UnpinInv(fds: Fds, table: Table, pipes: PipeMap, pins: multiset<int>, stuck: multiset<int>, k: int, table': Table)
    requires Inv(fds, table, pipes, pins, stuck, -1) && Exists(table, k) && k in pins && 1 < table[k].value.refCount
    requires Recounts(table, table', k, table[k].value.refCount - 1)
    ensures Inv(fds, table', pipes, pins - multiset{k}, stuck, -1)
  {
    forall e { RecountOn(table, table', k, table[k].value.refCount - 1, e); }
    assert forall j :: Exists(table', j) <==> Exists(table, j);
    assert Named(fds, table', pins - multiset{k}, stuck, -1);
    assert RefsOk(fds, table', pins - multiset{k}, stuck, -1);
    PipesSame(fds, table, pipes, -1, table', -1);
  }

  /** The last pin of an entry that was closed meanwhile. */
  lemma UnpinLastInv(fds: Fds, table: Table, pipes: PipeMap, pins: multiset<int>, stuck: multiset<int>, k: int, table': Table)
    requires Inv(fds, table, pipes, pins, stuck, -1) && Exists(table, k) && k in pins && table[k].value.refCount == 1 && Removes(table, table', k)
    ensures Inv(fds, table', pipes, pins - multiset{k}, stuck, -1)
  {
    assert References(fds, pins, stuck, -1, k) == 1;
    Unnamed(fds, k);
    forall e
      ensures SlotsIn(fds, On(table', e)) == SlotsIn(fds, On(table, e))
    {
      RemovedOn(table, table', k, e);
      SlotsUnnamed(fds, On(table, e), k);
    }
    assert forall e :: -1 !in On(table, e) && -1 !in On(table', e);
    assert Named(fds, table', pins - multiset{k}, stuck, -1);
    assert RefsOk(fds, table', pins - multiset{k}, stuck, -1);
    assert PipesOk(fds, table', pipes, -1);
  }
}

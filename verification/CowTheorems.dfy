/** Copy-on-write against copying: over any run every process sees exactly the memory it would see if fork had copied
every page, as far as memory reaches; no count is wrong; and every page is accounted for. */
module CowTheorems {
  import opened Common
  import opened CowState
  import opened CowTables
  import opened Cow

  /** `fork` is a `Spawn`, a `Touch` for each page of the kernel stack, and a `Copy`. */
  datatype Op =
    | Copy(src: nat, dst: nat)
    | Store(p: nat, va: nat, data: seq<nat>)
    | Touch(p: nat, va: nat, user: bool, writable: bool, data: seq<nat>, fromFile: bool)  // a first access maps a page
    | Spawn(p: nat)
    | Quit(p: nat)

  datatype Outcome = Done(copied: nat) | Refused

  /** The whole state. */
  datatype Snap = Snap(per: nat, n: nat, limit: nat, procs: Procs, frames: Frames, pages: Pages, tables: Tables, astray: set<nat>,
                       free: seq<nat>, next: nat)

  ghost function Now(m: Memory): Snap
    reads m
  {
    Snap(m.per, m.n, m.limit, m.procs, m.frames, m.pages, m.tables, m.astray, m.free, m.next)
  }

  ghost predicate Sound(s: Snap) {
    ValidOf(s.per, s.n, s.limit, s.procs, s.frames, s.pages, s.tables, s.astray, s.free, s.next) && Rooted(s.procs.Keys, s.tables)
  }

  ghost function Spaces(s: Snap): View {
    ViewOf(s.n, s.procs, s.pages)
  }

  ghost function FreeIn(s: Snap): int {
    |s.free| + s.limit - s.next
  }

  /** The pages that the end of process `p` frees. */
  ghost function FreedBy(s: Snap, p: nat): nat {
    Sole(s.procs, s.frames, p, s.n) + |TablesOf(s.tables, p)|
  }

  /** A store by `p` to index `va` needs a copy of the page. */
  ghost predicate MustCopy(s: Snap, p: nat, va: nat) {
    var e := At(s.procs, p, va);
    e.Mapped? && e.pa in s.frames && s.frames[e.pa].cow && s.frames[e.pa].refcount > 1
  }

  /** A first access by `p` to index `va`. */
  ghost predicate Fresh(s: Snap, p: nat, va: nat) {
    p in s.procs && va < s.n && At(s.procs, p, va) == Unmapped
  }

  /** The pages that it takes. */
  ghost function TouchCost(s: Snap, p: nat, va: nat): nat {
    if 0 < s.per then 1 + CowTables.Missing(s.per, s.tables, p, va) else 1
  }

  /** Exactly when an operation is done. */
  ghost predicate Can(s: Snap, op: Op) {
    match op
    case Copy(src, dst) => src in s.procs && dst in s.procs && src != dst && 0 < FreeIn(s)
    case Store(p, va, data) => p in s.procs && va < s.n && CanWrite(Get(Spaces(s), p, va)) && (0 < FreeIn(s) || !MustCopy(s, p, va))
    case Touch(p, va, _, _, _, _) => Fresh(s, p, va) && TouchCost(s, p, va) <= FreeIn(s)
    case Spawn(p) => p !in s.procs && 0 < FreeIn(s)
    case Quit(p) => p in s.procs
  }

  /** Exactly when a page is lost: it could be had, but not the tables to map it. */
  ghost predicate Leaks(s: Snap, op: Op) {
    op.Touch? && !op.fromFile && Fresh(s, op.p, op.va) && 0 < FreeIn(s) < TouchCost(s, op.p, op.va)
  }

  /** A copy stops at the first index for which memory does not suffice. */
  ghost predicate CopiesTo(s: Snap, src: nat, dst: nat, k: nat) {
    && 0 < s.per && k <= s.n
    && Cost(s.per, s.procs, s.tables, src, k) <= FreeIn(s) - 1 + FreedBy(s, dst)
    && (k < s.n ==> FreeIn(s) - 1 + FreedBy(s, dst) < Cost(s.per, s.procs, s.tables, src, k + 1))
  }

  /** The same operation where every process has private pages and fork copies them all. */
  ghost predicate Eager(n: nat, v: View, op: Op, out: Outcome, v': View) {
    if out == Refused then v' == v
    else
      match op
      case Copy(src, dst) => src in v && |v[src]| == n && out.copied <= n && v' == v[dst := Prefix(v[src], out.copied, n)]
      case Store(p, va, data) => v' == Set(v, p, va, Held(true, true, data))
      case Touch(p, va, user, writable, data, _) => v' == Set(v, p, va, Held(user, writable, data))
      case Spawn(p) => v' == v[p := seq(n, _ => Nothing)]
      case Quit(p) => v' == v - {p}
  }

  /** What an operation does, to what the processes see and to the pages, and when. */
  ghost predicate Step(s: Snap, op: Op, out: Outcome, s': Snap) {
    && s'.per == s.per && s'.n == s.n && s'.limit == s.limit
    && (out.Done? <==> Can(s, op))
    && Eager(s.n, Spaces(s), op, out, Spaces(s'))
    && (op.Copy? && out.Done? ==> CopiesTo(s, op.src, op.dst, out.copied))
    && s.astray <= s'.astray && |s'.astray| == |s.astray| + Bit(Leaks(s, op))
  }

  method Perform(m: Memory, op: Op) returns (out: Outcome)
    requires m.Valid()
    modifies m`procs, m`frames, m`pages, m`tables, m`astray, m`free, m`next
    ensures m.Valid() && Step(old(Now(m)), op, out, Now(m))
  {
    hide Inv, Tracks, Divided, TablesOk, ViewOf, Set, Get, Sole, Cost, Rooted;
    RootFits(m.per, m.n, m.procs, m.tables);
    m.NonNegative();
    out := Refused;
    match op
    case Copy(src, dst) =>
      if src in m.procs && dst in m.procs && src != dst {
        var ok, k := m.CopySpace(src, dst);
        ViewShape(m.n, old(m.procs), old(m.pages));
        out := if ok then Done(k) else Refused;
      }
    case Store(p, va, data) =>
      if p in m.procs && va < m.n {
        var ok := m.Write(p, va, data);
        out := if ok then Done(0) else Refused;
      }
    case Touch(p, va, user, writable, data, fromFile) =>
      if p in m.procs && va < m.n {
        out := PerformTouch(m, p, va, user, writable, data, fromFile);
      }
    case Spawn(p) =>
      if p !in m.procs {
        var ok := m.Create(p);
        out := if ok then Done(0) else Refused;
      }
    case Quit(p) =>
      if p in m.procs {
        m.Exit(p);
        out := Done(0);
      }
  }

  method PerformTouch(m: Memory, p: nat, va: nat, user: bool, writable: bool, data: seq<nat>, fromFile: bool) returns (out: Outcome)
    requires m.Valid() && 0 < m.per && p in m.procs && va < m.n
    modifies m`procs, m`frames, m`pages, m`tables, m`astray, m`free, m`next
    ensures m.Valid() && Step(old(Now(m)), Touch(p, va, user, writable, data, fromFile), out, Now(m))
  {
    hide Inv, Tracks, Divided, TablesOk, ViewOf, Set, Get, Sole, Cost, Rooted;
    m.NonNegative();
    m.SeenAt(p, va);
    if m.procs[p][va] != Unmapped {
      return Refused;
    }
    var ok;
    if fromFile {
      ok := m.LoadPage(p, va, user, writable, data);
    } else {
      ok := m.MapNew(p, va, user, writable, data);
    }
    out := if ok then Done(0) else Refused;
  }

  /** A run, by its states: every one is sound, and each follows from the one before by its operation. */
  ghost predicate Trace(states: seq<Snap>, ops: seq<Op>, outs: seq<Outcome>) {
    && |states| == |ops| + 1 && |outs| == |ops|
    && (forall i :: 0 <= i <= |ops| ==> Sound(states[i]))
    && (forall i :: 0 <= i < |ops| ==> Step(states[i], ops[i], outs[i], states[i + 1]))
  }

  /** Every run with copy-on-write is a run of the copying system. */
  method RunAll(m: Memory, ops: seq<Op>) returns (outs: seq<Outcome>, ghost states: seq<Snap>)
    requires m.Valid()
    modifies m`procs, m`frames, m`pages, m`tables, m`astray, m`free, m`next
    ensures m.Valid() && Trace(states, ops, outs) && states[0] == old(Now(m)) && states[|ops|] == Now(m)
  {
    hide ValidOf, Rooted, Step;
    outs, states := [], [Now(m)];
    for k := 0 to |ops|
      invariant m.Valid() && Trace(states, ops[..k], outs) && states[0] == old(Now(m)) && states[k] == Now(m)
    {
      var out := Perform(m, ops[k]);
      outs, states := outs + [out], states + [Now(m)];
    }
    assert ops[..|ops|] == ops;
  }

  /** A copy is whole exactly if the tables and kernel pages of the parent fit into what is free, together with what the
      child gives up; and then the child sees what the parent sees. */
  lemma WholeCopy(s: Snap, src: nat, dst: nat, k: nat, s': Snap)
    requires Sound(s) && Step(s, Copy(src, dst), Done(k), s')
    ensures k == s.n <==> |TablesOf(s.tables, src)| + |Kernels(s.procs, src, s.n)| <= FreeIn(s) + FreedBy(s, dst)
    ensures k == s.n ==> src in Spaces(s) && Spaces(s') == Spaces(s)[dst := Spaces(s)[src]]
  {
    hide Inv, Tracks, Divided, ViewOf, Sole, Cost, Hung, Injective, Begin, Cover;
    OneRoot(s.per, s.n, s.procs.Keys, s.tables);
    CostTotal(s.per, s.n, s.procs, s.tables, src);
    if k < s.n {
      CostGrows(s.per, s.procs, s.tables, src, k + 1, s.n);
    } else {
      assert Prefix(Spaces(s)[src], s.n, s.n) == Spaces(s)[src];
    }
  }

  // ---------------------------------------------------------------------------
  // Safety
  // ---------------------------------------------------------------------------

  /** The count of a page is the number of processes that map it, so 16 bits hold it; and a page that two processes
      map is writable in neither. */
  lemma CountsExact(s: Snap, pa: nat)
    requires Sound(s) && pa in s.frames && |s.procs| <= MAX_PROCESS_COUNT
    ensures s.frames[pa].refcount == |set p | p in s.procs && Uses(s.procs[p], pa)|
    ensures 1 <= s.frames[pa].refcount < 0x1_0000
    ensures forall p, q, i, j | p in s.procs && q in s.procs && 0 <= i < s.n && 0 <= j < s.n && p != q
                                && s.procs[p][i].Mapped? && s.procs[q][j].Mapped? && s.procs[p][i].pa == s.procs[q][j].pa ::
              i == j && !s.procs[p][i].writable && !s.procs[q][j].writable
  {
    hide EntriesOk, PagesOk, TablesOk, Divided, Rooted;
    CountBound(s.n, s.procs, s.pages, pa);
    TracksAt(s.frames, s.pages, pa);
    UsersAre(s, pa);
    forall p, q, i, j | p in s.procs && q in s.procs && 0 <= i < s.n && 0 <= j < s.n && p != q
                        && s.procs[p][i].Mapped? && s.procs[q][j].Mapped? && s.procs[p][i].pa == s.procs[q][j].pa
      ensures i == j && !s.procs[p][i].writable && !s.procs[q][j].writable
    {
      NeverBothWritable(s, p, i, q, j);
    }
  }

  /** The processes that map a page are its sharers. */
  lemma UsersAre(s: Snap, pa: nat)
    requires Sound(s) && pa in s.pages
    ensures (set p | p in s.procs && Uses(s.procs[p], pa)) == s.pages[pa].sharers && s.pages[pa].refcount == |s.pages[pa].sharers|
  {
    hide TablesOk, Divided, Rooted, Tracks;
    var g := s.pages[pa];
    assert PageOk(s.procs, pa, g);
    var users := set p | p in s.procs && Uses(s.procs[p], pa);
    forall p | p in g.sharers
      ensures p in users
    {
      assert s.procs[p][g.home].Mapped? && s.procs[p][g.home].pa == pa;
    }
    forall p | p in users
      ensures p in g.sharers
    {
      var i: nat :| i < |s.procs[p]| && s.procs[p][i].Mapped? && s.procs[p][i].pa == pa;
      assert EntryOk(s.pages, p, i, At(s.procs, p, i));
    }
  }

  const MAX_PROCESS_COUNT: nat := 256

  ghost predicate Uses(space: Space, pa: nat) {
    exists i :: 0 <= i < |space| && space[i].Mapped? && space[i].pa == pa
  }

  lemma NeverBothWritable(s: Snap, p: nat, i: nat, q: nat, j: nat)
    requires Sound(s) && p in s.procs && q in s.procs && i < s.n && j < s.n && p != q
    requires s.procs[p][i].Mapped? && s.procs[q][j].Mapped? && s.procs[p][i].pa == s.procs[q][j].pa
    ensures i == j && !s.procs[p][i].writable && !s.procs[q][j].writable
  {
    hide EntriesOk, PagesOk, TablesOk, Divided;
    MappedPage(s.n, s.procs, s.pages, p, i);
    MappedPage(s.n, s.procs, s.pages, q, j);
    assert At(s.procs, p, i) == s.procs[p][i] && At(s.procs, q, j) == s.procs[q][j];
  }

  /** Every page is mapped, a table, lost, or free. */
  lemma PagesConserved(s: Snap)
    requires Sound(s)
    ensures |s.frames| + |s.tables| + |s.astray| + FreeIn(s) == s.limit
    ensures s.procs == map[] ==> s.frames == map[] && s.tables == map[]
  {
    hide EntriesOk, Hung;
    ValuesSize(s.tables);
    var used := s.frames.Keys + s.tables.Values + s.astray;
    assert |used| == |s.frames.Keys| + |s.tables.Values| + |s.astray|;
    PoolSize(used, s.free, s.next, s.limit);
    forall pa | pa in s.pages
      ensures 0 < |s.procs|
    {
      CountBound(s.n, s.procs, s.pages, pa);
    }
    assert s.procs == map[] ==> s.pages == map[];
  }

  lemma PoolSize(used: set<nat>, free: seq<nat>, next: nat, limit: nat)
    requires Pool(used, free, next, limit)
    ensures |used| + |free| == next
  {
    assert used + Elements(free) == Upto(next) && used * Elements(free) == {};
    ElementsSize(free);
  }

  ghost function Upto(k: nat): (r: set<nat>)
    ensures |r| == k && forall x :: x in r <==> 0 <= x < k
  {
    if k == 0 then {} else Upto(k - 1) + {k - 1}
  }

  /** A page is lost for good: with two pages, a process whose first access finds a page but no table leaves only one
      behind when it ends. */
  method PageLost() returns (m: Memory)
    ensures m.Valid() && m.limit == 2 && m.procs == map[] && m.FreeCount() == 1 && |m.astray| == 1
  {
    hide Inv, Tracks, Divided, TablesOk, ViewOf, Set, Get, Cover;
    m := new Memory(2, 2);
    var ok := m.Create(1);
    assert m.per == 2 && m.n == Width(2, 0) == 16;
    ok := m.MapNew(1, 0, true, true, []);
    assert !ok;
    m.Exit(1);
    PagesConserved(Now(m));
  }

  /** A copy cut short: with one page free the child gets a root and nothing below it, though the parent has a page. */
  method CopyCutShort() returns (m: Memory, copied: nat)
    ensures m.Valid() && m.procs.Keys == {1, 2} && m.n == 16 && copied == 0
    ensures Get(m.Spaces(), 1, 0) == Held(true, true, [9]) && Get(m.Spaces(), 2, 0) == Nothing
  {
    hide Inv, Tracks, Divided, TablesOk, ViewOf, Cover, Cost, Sole;
    m := OneFree();
    ghost var s := Now(m);
    ghost var v := m.Spaces();
    NothingToFree(s.procs, s.frames, 2, s.n);
    var started;
    started, copied := m.CopySpace(1, 2);
    TablesNeeded(s, 1);
    if 0 < copied {
      CostGrows(2, s.procs, s.tables, 1, 1, copied);
    }
  }

  /** Seven pages: two processes, the first with a page and its tables. */
  method OneFree() returns (m: Memory)
    ensures fresh(m) && m.Valid() && m.per == 2 && m.n == 16 && m.procs.Keys == {1, 2} && m.FreeCount() == 1
    ensures At(m.procs, 1, 0).Mapped? && m.procs[2] == seq(16, _ => Unmapped) && |TablesOf(m.tables, 2)| == 1
    ensures Get(m.Spaces(), 1, 0) == Held(true, true, [9])
  {
    hide Inv, Tracks, Divided, TablesOk, ViewOf, CowTables.Missing;
    m := TwoFree();
    m.SeenAt(1, 0);
    ghost var v := m.Spaces();
    var ok := m.Create(2);
    assert TablesOf(m.tables, 2) == {Node(2, 0, 0)};
  }

  method TwoFree() returns (m: Memory)
    ensures fresh(m) && m.Valid() && m.per == 2 && m.n == 16 && m.procs.Keys == {1} && m.FreeCount() == 2
    ensures Get(m.Spaces(), 1, 0) == Held(true, true, [9]) && forall nd :: nd in m.tables ==> nd.p == 1
  {
    hide Inv, Tracks, Divided, TablesOk, ViewOf, Cover;
    m := new Memory(2, 7);
    assert m.n == Width(2, 0) == 16;
    var ok := m.Create(1);
    m.SeenAt(1, 0);
    ok := m.MapNew(1, 0, true, true, [9]);
  }

  lemma {:induction false} NothingToFree(procs: Procs, frames: Frames, p: nat, v: nat)
    requires forall va: nat {:trigger At(procs, p, va)} :: !At(procs, p, va).Mapped?
    ensures Sole(procs, frames, p, v) == 0
  {
    if v != 0 {
      NothingToFree(procs, frames, p, v - 1);
    }
  }

  /** The tables above the first entry. */
  lemma TablesNeeded(s: Snap, p: nat)
    requires Sound(s) && s.per == 2 && At(s.procs, p, 0).Mapped?
    ensures 3 <= Cost(2, s.procs, s.tables, p, 1)
  {
    hide Inv, Tracks, Divided, Injective;
    assert Node(p, 3, 0) in s.tables && Node(p, 2, 0) in s.tables && Node(p, 1, 0) in s.tables;
  }
}

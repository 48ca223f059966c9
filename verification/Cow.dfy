/** Copy-on-write memory: page allocation, fork, the write fault and process exit, on the tables and pages that they
update (`kernel/memory/page_table/page_table.c`, `kernel/memory/mmu.c`, `kernel/scheduler/process.c`).

An address space is flat: an entry per page index, in the order in which the four table levels are walked.  The tables
themselves are pages of the same pool. */
module Cow {
  import opened Common
  import opened Arithmetic
  import opened CowState
  import opened CowTables

  /** `struct page`: the count, the mark, and the page itself. */
  datatype Frame = Frame(refcount: nat, cow: bool, data: seq<nat>)

  type Frames = map<nat, Frame>

  /** How a permission fault ends; all but `Handled` are fatal to the process. */
  datatype Fault = Handled | Missing | NotUser | NotCow | NoMemory

  ghost predicate Tracks(frames: Frames, pages: Pages) {
    && frames.Keys == pages.Keys
    && forall pa :: pa in pages ==> frames[pa] == Frame(pages[pa].refcount, pages[pa].cow, pages[pa].data)
  }

  lemma TracksPut(frames: Frames, pages: Pages, pa: nat, f: Frame, g: Page)
    requires Tracks(frames, pages) && f == Frame(g.refcount, g.cow, g.data)
    ensures Tracks(frames[pa := f], pages[pa := g]) && frames[pa := f].Keys == frames.Keys + {pa}
  {
  }

  lemma TracksDrop(frames: Frames, pages: Pages, pa: nat)
    requires Tracks(frames, pages) && pa in pages
    ensures Tracks(frames - {pa}, pages - {pa}) && (frames - {pa}).Keys + {pa} == frames.Keys
  {
  }

  lemma TracksAt(frames: Frames, pages: Pages, pa: nat)
    requires Tracks(frames, pages) && pa in pages
    ensures pa in frames && frames[pa] == Frame(pages[pa].refcount, pages[pa].cow, pages[pa].data) && frames.Keys + {pa} == frames.Keys
  {
  }

  /** Every page below `next` is in use or on the free list once, and not both. */
  ghost predicate Pool(used: set<nat>, free: seq<nat>, next: nat, limit: nat) {
    && next <= limit && NoDup(free)
    && (forall pa :: pa in used <==> 0 <= pa < next && pa !in free)
    && (forall pa :: pa in free ==> 0 <= pa < next)
  }

  lemma PoolPop(used: set<nat>, free: seq<nat>, next: nat, limit: nat)
    requires Pool(used, free, next, limit) && free != []
    ensures free[0] !in used && Pool(used + {free[0]}, free[1..], next, limit)
  {
    assert free == [free[0]] + free[1..];
    assert forall a :: a in free <==> a == free[0] || a in free[1..];
    assert free[0] !in free[1..];
  }

  lemma PoolNext(used: set<nat>, next: nat, limit: nat)
    requires Pool(used, [], next, limit) && next < limit
    ensures next !in used && Pool(used + {next}, [], next + 1, limit)
  {
  }

  lemma PoolPush(used: set<nat>, pa: nat, free: seq<nat>, next: nat, limit: nat)
    requires Pool(used + {pa}, free, next, limit) && pa !in used
    ensures Pool(used, [pa] + free, next, limit)
  {
    assert pa in used + {pa};
    assert forall a :: a in [pa] + free <==> a == pa || a in free;
  }

  /** The pages that are mapped, that are tables, and that are neither: `astray` holds a page while it changes hands,
      and those that nobody will ever give back. */
  ghost predicate Divided(frames: set<nat>, tables: set<nat>, astray: set<nat>, free: seq<nat>, next: nat, limit: nat) {
    frames !! tables !! astray && Pool(frames + tables + astray, free, next, limit)
  }

  lemma ToFrames(frames: set<nat>, tables: set<nat>, astray: set<nat>, free: seq<nat>, next: nat, limit: nat, pa: nat)
    requires Divided(frames, tables, astray, free, next, limit) && pa in astray
    ensures pa !in frames && Divided(frames + {pa}, tables, astray - {pa}, free, next, limit)
  {
    hide Pool;
    assert (frames + {pa}) + tables + (astray - {pa}) == frames + tables + astray;
  }

  lemma ToTables(frames: set<nat>, tables: set<nat>, astray: set<nat>, free: seq<nat>, next: nat, limit: nat, pa: nat)
    requires Divided(frames, tables, astray, free, next, limit) && pa in astray
    ensures pa !in tables && Divided(frames, tables + {pa}, astray - {pa}, free, next, limit)
  {
    hide Pool;
    assert frames + (tables + {pa}) + (astray - {pa}) == frames + tables + astray;
  }

  lemma FromFrames(frames: set<nat>, tables: set<nat>, astray: set<nat>, free: seq<nat>, next: nat, limit: nat, pa: nat)
    requires Divided(frames + {pa}, tables, astray, free, next, limit) && pa !in frames
    ensures pa !in astray && Divided(frames, tables, astray + {pa}, free, next, limit)
  {
    hide Pool;
    assert pa in frames + {pa};
    assert frames + tables + (astray + {pa}) == (frames + {pa}) + tables + astray;
  }

  lemma FromTables(frames: set<nat>, tables: set<nat>, astray: set<nat>, free: seq<nat>, next: nat, limit: nat, pa: nat)
    requires Divided(frames, tables, astray, free, next, limit) && pa in tables
    ensures pa !in astray && Divided(frames, tables - {pa}, astray + {pa}, free, next, limit)
  {
    hide Pool;
    assert frames + (tables - {pa}) + (astray + {pa}) == frames + tables + astray;
  }

  ghost predicate ValidOf(per: nat, n: nat, limit: nat, procs: Procs, frames: Frames, pages: Pages, tables: Tables, astray: set<nat>,
                          free: seq<nat>, next: nat) {
    && Inv(n, procs, pages) && Tracks(frames, pages) && TablesOk(per, n, procs, tables)
    && Divided(frames.Keys, tables.Values, astray, free, next, limit)
  }

  /** The entries of `p` among the first `v` whose page no other process maps. */
  ghost function Sole(procs: Procs, frames: Frames, p: nat, v: nat): nat {
    if v == 0 then 0
    else Sole(procs, frames, p, v - 1) + Bit(At(procs, p, v - 1).Mapped? && At(procs, p, v - 1).pa in frames && frames[At(procs, p, v - 1).pa].refcount == 1)
  }

  class Memory {
    const per: nat
    const n: nat
    const limit: nat
    var procs: Procs
    var frames: Frames
    var tables: Tables
    var free: seq<nat>
    var next: nat
    ghost var pages: Pages
    ghost var astray: set<nat>

    ghost predicate Core()
      reads this
    {
      ValidOf(per, n, limit, procs, frames, pages, tables, astray, free, next)
    }

    ghost predicate Valid()
      reads this
    {
      Core() && Rooted(procs.Keys, tables)
    }

    ghost function Spaces(): View
      reads this
    {
      ViewOf(n, procs, pages)
    }

    /** How many pages `alloc_page` can still give out. */
    ghost function FreeCount(): int
      reads this
    {
      |free| + limit - next
    }

    /** `page_allocator_init`: all of the pool is free. */
    constructor (per: nat, limit: nat)
      requires 0 < per
      ensures this.per == per && this.limit == limit && n == Width(per, 0)
      ensures Valid() && procs == map[] && frames == map[] && tables == map[] && astray == {} && FreeCount() == limit
    {
      this.per, this.limit, this.n := per, limit, Width(per, 0);
      procs, frames, tables, free, next, pages, astray := map[], map[], map[], [], 0, map[], {};
    }

    // -------------------------------------------------------------------------
    // Pages
    // -------------------------------------------------------------------------

    /** `alloc_page`: the head of the free list, or else the next page of the pool. */
    method AllocPage() returns (ok: bool, pa: nat)
      requires Core()
      modifies this`free, this`next, this`astray
      ensures Core() && ok == (0 < old(FreeCount()))
      ensures ok ==> pa !in old(astray) && astray == old(astray) + {pa} && FreeCount() == old(FreeCount()) - 1
      ensures !ok ==> free == old(free) && next == old(next) && astray == old(astray)
    {
      hide Inv, Tracks, TablesOk, Pool;
      BoundedNext(frames.Keys + tables.Values + astray, free, next, limit);
      ghost var used := frames.Keys + tables.Values + astray;
      pa := 0;
      ok := true;
      if free != [] {
        PoolPop(used, free, next, limit);
        pa := free[0];
        free := free[1..];
      } else if next < limit {
        PoolNext(used, next, limit);
        pa := next;
        next := next + 1;
      } else {
        return false, 0;
      }
      astray := astray + {pa};
      assert frames.Keys + tables.Values + astray == used + {pa};
    }

    /** `free_page`, for a page that is nobody's. */
    method FreePage(pa: nat)
      requires Core() && pa in astray
      modifies this`free, this`astray
      ensures Core() && astray == old(astray) - {pa} && FreeCount() == old(FreeCount()) + 1
    {
      hide Inv, Tracks, TablesOk, Pool;
      astray := astray - {pa};
      ghost var used := frames.Keys + tables.Values + astray;
      assert used + {pa} == frames.Keys + tables.Values + old(astray);
      PoolPush(used, pa, free, next, limit);
      free := [pa] + free;
    }

    /** A table entry for a page at hand, in a table that exists. */
    method Enter(p: nat, va: nat, pa: nat, user: bool, writable: bool, data: seq<nat>)
      requires Core() && p in procs && va < n && procs[p][va] == Unmapped && pa in astray && Node(p, 3, Cover(per, 3, va)) in tables
      modifies this`procs, this`frames, this`pages, this`astray
      ensures Core() && astray == old(astray) - {pa} && procs == Put(old(procs), p, va, Mapped(pa, user, writable)) && procs.Keys == old(procs).Keys
      ensures Spaces() == Set(old(Spaces()), p, va, Held(user, writable, data))
    {
      hide EntriesOk, PagesOk, ViewOf, Set, Get, Pool, TablesOk, Divided, Cover;
      var e := Mapped(pa, user, writable);
      ToFrames(frames.Keys, tables.Values, astray, free, next, limit, pa);
      HungLess(per, n, procs, tables, p, va, e, Put(procs, p, va, e));
      TracksPut(frames, pages, pa, Frame(1, false, data), Page(1, false, data, va, {p}));
      procs := Put(procs, p, va, e);
      frames := frames[pa := Frame(1, false, data)];
      pages := pages[pa := Page(1, false, data, va, {p})];
      astray := astray - {pa};
      AddedInv(n, old(procs), old(pages), p, va, e, data, procs, pages);
    }

    /** A page at hand becomes table `nd`, under one that exists. */
    method AddTableAt(nd: Node, pa: nat)
      requires Core() && pa in astray && nd !in tables && nd.p in procs && nd.level <= 3 && Begin(per, nd.level, nd.x) < n
      requires nd.level > 0 ==> 0 < per && Node(nd.p, nd.level - 1, Quot(nd.x, per)) in tables
      modifies this`tables, this`astray
      ensures Core() && astray == old(astray) - {pa} && tables == old(tables)[nd := pa]
    {
      hide Inv, Tracks, Pool, Divided, Begin, Cover;
      assert 0 < per;
      hide TablesOk;
      ToTables(frames.Keys, tables.Values, astray, free, next, limit, pa);
      AddTable(per, n, procs, tables, nd, pa);
      tables := tables[nd := pa];
      astray := astray - {pa};
    }

    // -------------------------------------------------------------------------
    // Mapping
    // -------------------------------------------------------------------------

    /** `next_table`, for the table of the level over index `va`. */
    method NextTable(p: nat, level: nat, va: nat) returns (ok: bool)
      requires Core() && p in procs && va < n && 1 <= level <= 3 && 0 < per && Node(p, level - 1, Cover(per, level - 1, va)) in tables
      modifies this`tables, this`astray, this`free, this`next
      ensures Core() && astray == old(astray)
      ensures ok <==> Lacks(per, old(tables), p, level, va) <= old(FreeCount())
      ensures ok ==> FreeCount() == old(FreeCount()) - Lacks(per, old(tables), p, level, va)
      ensures ok ==> Node(p, level, Cover(per, level, va)) in tables
      ensures if ok then Gains(old(tables), tables, Node(p, level, Cover(per, level, va))) else tables == old(tables) && FreeCount() == 0
    {
      hide Inv, Tracks, TablesOk, Divided, Begin, Cover;
      var nd := Node(p, level, Cover(per, level, va));
      NonNegative();
      if nd in tables {
        return true;
      }
      var pa;
      ok, pa := AllocPage();
      if ok {
        CoverUp(per, level, 0, va);
        CoverBegin(per, level, 0, va);
        AddTableAt(nd, pa);
        assert astray == old(astray);
      }
    }

    /** `pt_map_page`, up to the table that holds the entry.  What it takes before it fails stays in place. */
    method Reach(p: nat, va: nat) returns (ok: bool)
      requires Valid() && p in procs && va < n && 0 < per
      modifies this`tables, this`astray, this`free, this`next
      ensures Valid() && astray == old(astray)
      ensures ok <==> CowTables.Missing(per, old(tables), p, va) <= old(FreeCount())
      ensures if ok then FreeCount() == old(FreeCount()) - CowTables.Missing(per, old(tables), p, va) else FreeCount() == 0
      ensures ok ==> Node(p, 3, Cover(per, 3, va)) in tables
      ensures Grows(old(tables), tables, p)
    {
      hide Inv, Tracks, TablesOk, Divided, Cover;
      RootCovers(va);
      NonNegative();
      ok := NextTable(p, 1, va);
      if ok {
        ok := NextTable(p, 2, va);
        if ok {
          ok := NextTable(p, 3, va);
        }
      }
      GrowsRooted(procs.Keys, old(tables), tables, p);
    }

    lemma NonNegative()
      requires Core()
      ensures 0 <= FreeCount()
    {
      hide Inv, Tracks, TablesOk;
    }

    lemma RootCovers(va: nat)
      requires Core() && va < n
      ensures 0 < per && Cover(per, 0, va) == 0
    {
      DivSmall(va, n);
    }

    /** `pt_map_new_page`: a zeroed page at an unmapped index.  If the tables cannot be had the page is not given back. */
    method MapNew(p: nat, va: nat, user: bool, writable: bool, data: seq<nat>) returns (ok: bool)
      requires Valid() && p in procs && va < n && 0 < per && procs[p][va] == Unmapped
      modifies this`procs, this`frames, this`pages, this`tables, this`astray, this`free, this`next
      ensures Valid() && procs.Keys == old(procs).Keys && Grows(old(tables), tables, p)
      ensures ok <==> 1 + CowTables.Missing(per, old(tables), p, va) <= old(FreeCount())
      ensures ok ==> FreeCount() == old(FreeCount()) - 1 - CowTables.Missing(per, old(tables), p, va) && astray == old(astray)
      ensures ok ==> Spaces() == Set(old(Spaces()), p, va, Held(user, writable, data))
      ensures !ok ==> FreeCount() == 0 && procs == old(procs) && frames == old(frames) && pages == old(pages)
      ensures !ok ==> old(astray) <= astray && |astray| == |old(astray)| + (if old(FreeCount()) == 0 then 0 else 1)
    {
      hide Inv, Tracks, TablesOk, Divided, Cover, ViewOf, Set, Put;
      var pa;
      NonNegative();
      ok, pa := AllocPage();
      if !ok {
        return;
      }
      ok := Reach(p, va);
      if ok {
        Enter(p, va, pa, user, writable, data);
        assert astray == old(astray);
      } else {
        assert |astray| == |old(astray)| + 1;
      }
    }

    /** `load_segment_page_for_fault`, once a segment was found and its page was read: here the page is given back. */
    method LoadPage(p: nat, va: nat, user: bool, writable: bool, data: seq<nat>) returns (ok: bool)
      requires Valid() && p in procs && va < n && 0 < per && procs[p][va] == Unmapped
      modifies this`procs, this`frames, this`pages, this`tables, this`astray, this`free, this`next
      ensures Valid() && procs.Keys == old(procs).Keys && Grows(old(tables), tables, p) && astray == old(astray)
      ensures ok <==> 1 + CowTables.Missing(per, old(tables), p, va) <= old(FreeCount())
      ensures ok ==> FreeCount() == old(FreeCount()) - 1 - CowTables.Missing(per, old(tables), p, va)
      ensures ok ==> Spaces() == Set(old(Spaces()), p, va, Held(user, writable, data))
      ensures !ok ==> FreeCount() == (if old(FreeCount()) == 0 then 0 else 1) && procs == old(procs) && frames == old(frames) && pages == old(pages)
    {
      hide Inv, Tracks, TablesOk, Divided, Cover, ViewOf, Set, Put;
      var pa;
      NonNegative();
      ok, pa := AllocPage();
      if !ok {
        return;
      }
      ok := Reach(p, va);
      if ok {
        Enter(p, va, pa, user, writable, data);
      } else {
        FreePage(pa);
      }
      assert astray == old(astray);
    }

    // -------------------------------------------------------------------------
    // Giving up pages
    // -------------------------------------------------------------------------

    /** `dec_pte_refcount_pa` for one entry of a table that is going away; the entry is cleared with it. */
    method DropEntry(p: nat, va: nat)
      requires Core() && p in procs && va < n && procs[p][va].Mapped?
      modifies this`procs, this`frames, this`pages, this`free, this`astray
      ensures Core() && procs == Put(old(procs), p, va, Unmapped) && astray == old(astray)
      ensures Spaces() == Set(old(Spaces()), p, va, Nothing)
      ensures old(procs)[p][va].pa in old(frames)
      ensures FreeCount() == old(FreeCount()) + Bit(old(frames)[old(procs)[p][va].pa].refcount == 1)
      ensures SameFrames(old(frames), frames, old(procs)[p][va].pa)
    {
      hide EntriesOk, PagesOk, ViewOf, Set, Get, TablesOk, Divided;
      var pa := procs[p][va].pa;
      MappedPage(n, procs, pages, p, va);
      TracksAt(frames, pages, pa);
      assert 0 < pages[pa].refcount;
      if frames[pa].refcount == 1 {
        DropLast(p, va);
      } else {
        DropShared(p, va);
      }
    }

    method DropLast(p: nat, va: nat)
      requires Core() && p in procs && va < n && procs[p][va].Mapped? && procs[p][va].pa in frames && frames[procs[p][va].pa].refcount == 1
      modifies this`procs, this`frames, this`pages, this`free, this`astray
      ensures Core() && procs == Put(old(procs), p, va, Unmapped) && astray == old(astray)
      ensures Spaces() == Set(old(Spaces()), p, va, Nothing) && FreeCount() == old(FreeCount()) + 1
      ensures SameFrames(old(frames), frames, old(procs)[p][va].pa)
    {
      hide EntriesOk, PagesOk, ViewOf, Set, Get, TablesOk, Divided;
      var pa := procs[p][va].pa;
      TracksAt(frames, pages, pa);
      TracksDrop(frames, pages, pa);
      HungLess(per, n, procs, tables, p, va, Unmapped, Put(procs, p, va, Unmapped));
      FromFrames((frames - {pa}).Keys, tables.Values, astray, free, next, limit, pa);
      procs := Put(procs, p, va, Unmapped);
      frames, pages := frames - {pa}, pages - {pa};
      FreedInv(n, old(procs), old(pages), p, va, procs, pages);
      astray := astray + {pa};
      FreePage(pa);
      assert astray == old(astray);
    }

    method DropShared(p: nat, va: nat)
      requires Core() && p in procs && va < n && procs[p][va].Mapped? && procs[p][va].pa in frames && 1 < frames[procs[p][va].pa].refcount
      modifies this`procs, this`frames, this`pages
      ensures Core() && procs == Put(old(procs), p, va, Unmapped)
      ensures Spaces() == Set(old(Spaces()), p, va, Nothing)
      ensures SameFrames(old(frames), frames, old(procs)[p][va].pa)
    {
      hide EntriesOk, PagesOk, ViewOf, Set, Get, TablesOk, Divided;
      var pa := procs[p][va].pa;
      TracksAt(frames, pages, pa);
      var f := frames[pa].(refcount := frames[pa].refcount - 1);
      ghost var g := pages[pa].(refcount := pages[pa].refcount - 1, sharers := pages[pa].sharers - {p});
      TracksPut(frames, pages, pa, f, g);
      HungLess(per, n, procs, tables, p, va, Unmapped, Put(procs, p, va, Unmapped));
      procs := Put(procs, p, va, Unmapped);
      frames, pages := frames[pa := f], pages[pa := g];
      DroppedInv(n, old(procs), old(pages), p, va, procs, pages);
    }

    /** The walk of `destroy_page_table_level` over the entries of level 3. */
    method DropEntries(p: nat)
      requires Core() && p in procs
      modifies this`procs, this`frames, this`pages, this`free, this`astray
      ensures Core() && procs.Keys == old(procs.Keys) && procs[p] == seq(n, _ => Unmapped) && astray == old(astray)
      ensures forall q :: q in procs && q != p ==> procs[q] == old(procs)[q]
      ensures Spaces() == old(Spaces())[p := seq(n, _ => Nothing)]
      ensures FreeCount() == old(FreeCount()) + Sole(old(procs), old(frames), p, n)
    {
      hide Inv, Divided, Tracks, TablesOk, ViewOf, Set, SameCounts, SameFrames, Put;
      ghost var v := Spaces();
      ViewShape(n, procs, pages);
      CountsHere(n, procs, frames, pages, p);
      for va := 0 to n
        invariant Core() && Cleared(n, old(procs), procs, p, va) && astray == old(astray)
        invariant SameCounts(old(frames), frames, procs[p])
        invariant FreeCount() == old(FreeCount()) + Sole(old(procs), old(frames), p, va)
        invariant ViewBut(n, v, Spaces(), p)
      {
        assert At(old(procs), p, va) == procs[p][va];
        if procs[p][va].Mapped? {
          OwnPages(n, procs, pages, p, va);
          ghost var frames1, procs1, v1 := frames, procs, Spaces();
          CountedAs(old(frames), frames, procs[p], va);
          DropEntry(p, va);
          CountsStay(old(frames), frames1, frames, procs1[p], va);
          SetBut(n, v, v1, p, va, Nothing);
          ClearedNext(n, old(procs), procs1, procs, p, va);
        }
      }
      assert procs[p] == seq(n, _ => Unmapped);
      BareView(n, procs, pages, p);
    }

    /** The tables of one level of process `p` go, when those below are gone. */
    method FreeLevel(p: nat, level: nat)
      requires Core() && level <= 3 && (p in procs ==> procs[p] == seq(n, _ => Unmapped))
      requires forall nd :: nd in tables && nd.p == p ==> nd.level <= level
      modifies this`tables, this`free, this`astray
      ensures Core() && astray == old(astray) && Loses(old(tables), tables, p)
      ensures forall nd :: nd in tables && nd.p == p ==> nd.level < level
      ensures FreeCount() + |TablesOf(tables, p)| == old(FreeCount()) + |TablesOf(old(tables), p)|
    {
      hide Inv, Tracks, Divided, Pool, TablesOk;
      var left := set nd | nd in tables && nd.p == p && nd.level == level;
      while left != {}
        invariant Core() && astray == old(astray) && Loses(old(tables), tables, p)
        invariant forall nd :: nd in left <==> nd in tables && nd.p == p && nd.level == level
        invariant forall nd :: nd in tables && nd.p == p ==> nd.level <= level
        invariant FreeCount() + |TablesOf(tables, p)| == old(FreeCount()) + |TablesOf(old(tables), p)|
        decreases |left|
      {
        var nd :| nd in left;
        FreeTable(nd);
        left := left - {nd};
        assert astray == old(astray);
      }
    }

    method FreeTable(nd: Node)
      requires Core() && nd in tables && (nd.p in procs ==> procs[nd.p] == seq(n, _ => Unmapped))
      requires forall m :: m in tables && m.p == nd.p ==> m.level <= nd.level
      modifies this`tables, this`free, this`astray
      ensures Core() && astray == old(astray) && tables == old(tables) - {nd}
      ensures FreeCount() + |TablesOf(tables, nd.p)| == old(FreeCount()) + |TablesOf(old(tables), nd.p)|
    {
      hide Inv, Tracks, Divided, Pool;
      var pa := tables[nd];
      BareTable(per, n, procs, tables, nd);
      hide TablesOk;
      FromTables(frames.Keys, tables.Values, astray, free, next, limit, pa);
      assert nd in TablesOf(tables, nd.p);
      tables := tables - {nd};
      astray := astray + {pa};
      FreePage(pa);
      assert astray == old(astray);
    }

    /** `destroy_page_table`: every page loses a reference, and the tables are free. */
    method Destroy(p: nat)
      requires Core() && p in procs
      modifies this`procs, this`frames, this`pages, this`tables, this`free, this`astray
      ensures Core() && procs.Keys == old(procs.Keys) && procs[p] == seq(n, _ => Unmapped) && astray == old(astray)
      ensures forall q :: q in procs && q != p ==> procs[q] == old(procs)[q]
      ensures Loses(old(tables), tables, p) && forall nd :: nd in tables ==> nd.p != p
      ensures Spaces() == old(Spaces())[p := seq(n, _ => Nothing)]
      ensures FreeCount() == old(FreeCount()) + Sole(old(procs), old(frames), p, n) + |TablesOf(old(tables), p)|
    {
      hide Inv, Tracks, Divided, ViewOf, Sole, TablesOk, Loses;
      DropEntries(p);
      FreeTables(p);
    }

    /** ...and its tables, those below first. */
    method FreeTables(p: nat)
      requires Core() && p in procs && procs[p] == seq(n, _ => Unmapped)
      modifies this`tables, this`free, this`astray
      ensures Core() && astray == old(astray) && Loses(old(tables), tables, p) && forall nd :: nd in tables ==> nd.p != p
      ensures FreeCount() == old(FreeCount()) + |TablesOf(old(tables), p)|
    {
      hide Inv, Tracks, Divided, TablesOk, Loses;
      LevelsBound(per, n, procs, tables);
      ghost var tables0 := tables;
      FreeLevel(p, 3);
      ghost var tables1 := tables;
      FreeLevel(p, 2);
      LosesTwice(tables0, tables1, tables, p);
      tables1 := tables;
      FreeLevel(p, 1);
      LosesTwice(tables0, tables1, tables, p);
      tables1 := tables;
      FreeLevel(p, 0);
      LosesTwice(tables0, tables1, tables, p);
      assert TablesOf(tables, p) == {};
    }

    /** A process ends: `proc_destroy` gives up its address space. */
    method Exit(p: nat)
      requires Valid() && p in procs
      modifies this`procs, this`frames, this`pages, this`tables, this`free, this`astray
      ensures Valid() && procs.Keys == old(procs.Keys) - {p} && Spaces() == old(Spaces()) - {p} && astray == old(astray)
      ensures FreeCount() == old(FreeCount()) + Sole(old(procs), old(frames), p, n) + |TablesOf(old(tables), p)|
    {
      hide Inv, ViewOf, Divided, Tracks, Set, Get, Sole, TablesOk;
      Destroy(p);
      GoneInv(n, procs, pages, p);
      GoneTables(per, n, procs, tables, p);
      LosesRooted(procs.Keys, old(tables), tables, p);
      procs := procs - {p};
    }

    /** `initialize_user_page_table`: an empty address space. */
    method Create(p: nat) returns (ok: bool)
      requires Valid() && p !in procs
      modifies this`procs, this`tables, this`astray, this`free, this`next
      ensures Valid() && astray == old(astray) && ok == (0 < old(FreeCount()))
      ensures ok ==> procs.Keys == old(procs.Keys) + {p} && Spaces() == old(Spaces())[p := seq(n, _ => Nothing)]
      ensures ok ==> FreeCount() == old(FreeCount()) - 1 && procs == old(procs)[p := seq(n, _ => Unmapped)] && Gains(old(tables), tables, Node(p, 0, 0))
      ensures !ok ==> procs == old(procs) && tables == old(tables) && FreeCount() == old(FreeCount())
    {
      hide Inv, ViewOf, Divided, Tracks, Set, Get;
      NewSpace(per, n, procs, tables, p);
      hide TablesOk;
      var pa;
      ok, pa := AllocPage();
      if !ok {
        return;
      }
      var space := seq(n, _ => Unmapped);
      EmptyInv(n, procs, pages, p, space);
      procs := procs[p := space];
      AddTableAt(Node(p, 0, 0), pa);
      assert astray == old(astray);
    }

    // -------------------------------------------------------------------------
    // The write fault
    // -------------------------------------------------------------------------

    /** The entry maps a page with the copy-on-write mark. */
    ghost predicate CowAt(p: nat, va: nat)
      reads this
    {
      At(procs, p, va).Mapped? && At(procs, p, va).pa in frames && frames[At(procs, p, va).pa].cow
    }

    ghost predicate SharedAt(p: nat, va: nat)
      reads this
    {
      At(procs, p, va).Mapped? && At(procs, p, va).pa in frames && frames[At(procs, p, va).pa].refcount > 1
    }

    /** The permission fault on a write: sole owners get their page back, others get a copy. */
    method WriteFault(p: nat, va: nat) returns (f: Fault)
      requires Valid() && p in procs && va < n
      modifies this`procs, this`frames, this`pages, this`free, this`next, this`astray
      ensures Valid() && Spaces() == old(Spaces()) && procs.Keys == old(procs.Keys) && astray == old(astray)
      ensures f == Fault.Missing <==> !old(procs)[p][va].Mapped?
      ensures f == NotUser <==> old(procs)[p][va].Mapped? && !old(procs)[p][va].user
      ensures f == NotCow <==> old(procs)[p][va].Mapped? && old(procs)[p][va].user && !old(CowAt(p, va))
      ensures f == NoMemory <==> old(procs)[p][va].Mapped? && old(procs)[p][va].user && old(CowAt(p, va) && SharedAt(p, va) && FreeCount() == 0)
      ensures f == Handled ==> procs[p][va].Mapped? && procs[p][va].user && procs[p][va].writable
      ensures f != Handled ==> procs == old(procs) && frames == old(frames) && pages == old(pages)
      ensures FreeCount() == old(FreeCount()) - Bit(f == Handled && old(SharedAt(p, va)))
    {
      hide EntriesOk, PagesOk, ViewOf, Set, Get, EntryOk, PageEntriesOk, NoOther, Tracks, PageOk, TablesOk, Divided;
      NonNegative();
      if !procs[p][va].Mapped? {
        return Fault.Missing;
      }
      var e := procs[p][va];
      MappedPage(n, procs, pages, p, va);
      TracksAt(frames, pages, e.pa);
      if !e.user {
        f := NotUser;
      } else if !frames[e.pa].cow {
        f := NotCow;
      } else if frames[e.pa].refcount > 1 {
        var ok := CopyOut(p, va);
        f := if ok then Handled else NoMemory;
      } else {
        TakeBack(p, va);
        f := Handled;
      }
    }

    /** The sole owner of a marked page may write it. */
    method TakeBack(p: nat, va: nat)
      requires Valid() && p in procs && va < n && CowAt(p, va) && !SharedAt(p, va)
      modifies this`procs, this`frames, this`pages
      ensures Valid() && Spaces() == old(Spaces()) && procs.Keys == old(procs.Keys)
      ensures procs[p][va] == old(procs)[p][va].(writable := true)
    {
      hide EntriesOk, PagesOk, ViewOf, Set, Get, TablesOk, Divided;
      var e := procs[p][va];
      TracksAt(frames, pages, e.pa);
      var f := frames[e.pa].(cow := false);
      ghost var g := pages[e.pa].(cow := false);
      TracksPut(frames, pages, e.pa, f, g);
      HungLess(per, n, procs, tables, p, va, e.(writable := true), Put(procs, p, va, e.(writable := true)));
      procs := Put(procs, p, va, e.(writable := true));
      frames, pages := frames[e.pa := f], pages[e.pa := g];
      OwnedInv(n, old(procs), old(pages), p, va, procs, pages);
    }

    /** A copy of a shared page replaces it in one address space. */
    method CopyOut(p: nat, va: nat) returns (ok: bool)
      requires Valid() && p in procs && va < n && CowAt(p, va) && SharedAt(p, va)
      modifies this`procs, this`frames, this`pages, this`free, this`next, this`astray
      ensures Valid() && Spaces() == old(Spaces()) && procs.Keys == old(procs.Keys) && ok == (0 < old(FreeCount())) && astray == old(astray)
      ensures ok ==> procs[p][va].Mapped? && procs[p][va].user == old(procs)[p][va].user && procs[p][va].writable
      ensures !ok ==> procs == old(procs) && frames == old(frames) && pages == old(pages)
      ensures FreeCount() == old(FreeCount()) - Bit(ok)
    {
      hide EntriesOk, PagesOk, ViewOf, Set, Get, TablesOk, Divided;
      var e, newPa := procs[p][va], 0;
      TracksAt(frames, pages, e.pa);
      ok, newPa := AllocPage();
      if !ok {
        return;
      }
      // the shared page counts one process less, and the copy one
      var data, f := frames[e.pa].data, frames[e.pa].(refcount := frames[e.pa].refcount - 1);
      ghost var g := pages[e.pa].(refcount := pages[e.pa].refcount - 1, sharers := pages[e.pa].sharers - {p});
      ghost var pages1, pages2 := pages[e.pa := g], pages[e.pa := g][newPa := Page(1, false, data, va, {p})];
      ToFrames(frames.Keys, tables.Values, astray, free, next, limit, newPa);
      CopyInv(procs, pages, p, va, newPa, pages1, pages2);
      TracksPut(frames, pages, e.pa, f, g);
      TracksPut(frames[e.pa := f], pages1, newPa, Frame(1, false, data), pages2[newPa]);
      HungLess(per, n, procs, tables, p, va, Mapped(newPa, e.user, true), Put(procs, p, va, Mapped(newPa, e.user, true)));
      frames, pages := frames[e.pa := f][newPa := Frame(1, false, data)], pages2;
      procs := Put(procs, p, va, Mapped(newPa, e.user, true));
      astray := astray - {newPa};
      assert astray == old(astray);
    }

    lemma CopyInv(procs: Procs, pages: Pages, p: nat, va: nat, newPa: nat, pages1: Pages, pages2: Pages)
      requires Inv(n, procs, pages) && p in procs && va < n && procs[p][va].Mapped? && procs[p][va].pa in pages && newPa !in pages
      requires var g := pages[procs[p][va].pa];
               && g.cow && g.refcount > 1
               && pages1 == pages[procs[p][va].pa := g.(refcount := g.refcount - 1, sharers := g.sharers - {p})]
               && pages2 == pages1[newPa := Page(1, false, g.data, va, {p})]
      ensures Inv(n, Put(procs, p, va, Mapped(newPa, procs[p][va].user, true)), pages2)
      ensures ViewOf(n, Put(procs, p, va, Mapped(newPa, procs[p][va].user, true)), pages2) == ViewOf(n, procs, pages)
    {
      var e, e' := procs[p][va], Mapped(newPa, procs[p][va].user, true);
      var procs1 := Put(procs, p, va, Unmapped);
      var v, data := ViewOf(n, procs, pages), pages[procs[p][va].pa].data;
      GetView(n, procs, pages, p, va);
      assert Get(v, p, va) == Held(e.user, true, data);
      assert Put(procs1, p, va, e') == Put(procs, p, va, e') by {
        assert procs[p][va := Unmapped][va := e'] == procs[p][va := e'];
      }
      DroppedInv(n, procs, pages, p, va, procs1, pages1);
      AddedInv(n, procs1, pages1, p, va, e', data, Put(procs, p, va, e'), pages2);
      SetTwice(v, p, va, Nothing, Get(v, p, va));
      SetSame(v, p, va);
    }
  
    /** A user's store, which leaves the page with contents `data`: directly, or after the fault. */
    method Write(p: nat, va: nat, data: seq<nat>) returns (ok: bool)
      requires Valid() && p in procs && va < n
      modifies this`procs, this`frames, this`pages, this`free, this`next, this`astray
      ensures Valid() && procs.Keys == old(procs.Keys) && astray == old(astray)
      ensures ok ==> Spaces() == Set(old(Spaces()), p, va, Held(true, true, data))
      ensures !ok ==> Spaces() == old(Spaces())
      ensures ok <==> CanWrite(Get(old(Spaces()), p, va)) && old(0 < FreeCount() || !CowAt(p, va) || !SharedAt(p, va))
      ensures FreeCount() == old(FreeCount()) - Bit(ok && old(CowAt(p, va) && SharedAt(p, va)))
    {
      hide EntriesOk, PagesOk, ViewOf, Set, Get, Tracks, TablesOk, Divided;
      SeenAt(p, va);
      NonNegative();
      if !procs[p][va].Mapped? || !procs[p][va].user {
        return false;
      }
      if !procs[p][va].writable {
        var f := WriteFault(p, va);
        if f != Handled {
          return false;
        }
        SeenAt(p, va);
      }
      Store(p, va, data);
      ok := true;
    }

    lemma SeenAt(p: nat, va: nat)
      requires Core() && p in procs && va < n
      ensures |procs[p]| == n
      ensures if procs[p][va].Mapped? then
                && procs[p][va].pa in frames
                && Get(Spaces(), p, va) == Held(procs[p][va].user, procs[p][va].writable || CowAt(p, va), frames[procs[p][va].pa].data)
              else Get(Spaces(), p, va) == Nothing
      ensures procs[p][va].Mapped? && procs[p][va].writable ==> !SharedAt(p, va)
    {
      hide TablesOk, Divided;
      GetView(n, procs, pages, p, va);
      if procs[p][va].Mapped? {
        MappedPage(n, procs, pages, p, va);
      }
    }

    method Store(p: nat, va: nat, data: seq<nat>)
      requires Valid() && p in procs && va < n && procs[p][va].Mapped? && procs[p][va].writable && procs[p][va].pa in frames
      modifies this`frames, this`pages
      ensures Valid()
      ensures Spaces() == Set(old(Spaces()), p, va, Held(procs[p][va].user, true, data))
    {
      hide EntriesOk, PagesOk, ViewOf, Set, Get, TablesOk, Divided;
      var pa := procs[p][va].pa;
      var f := frames[pa].(data := data);
      ghost var g := pages[pa].(data := data);
      TracksAt(frames, pages, pa);
      TracksPut(frames, pages, pa, f, g);
      frames, pages := frames[pa := f], pages[pa := g];
      StoredInv(n, procs, old(pages), p, va, data, pages);
    }

    // -------------------------------------------------------------------------
    // Copying an address space
    // -------------------------------------------------------------------------

    /** `pte_make_readonly_and_mark_cow`. */
    method MarkCow(p: nat, va: nat)
      requires Core() && p in procs && va < n && procs[p][va].Mapped? && procs[p][va].user && procs[p][va].writable
      requires procs[p][va].pa in frames
      modifies this`procs, this`frames, this`pages
      ensures Core() && Spaces() == old(Spaces()) && frames.Keys == old(frames.Keys)
      ensures procs == Put(old(procs), p, va, old(procs)[p][va].(writable := false))
    {
      hide EntriesOk, PagesOk, ViewOf, Set, Get, TablesOk, Divided;
      var e := procs[p][va];
      TracksAt(frames, pages, e.pa);
      var f := frames[e.pa].(cow := true);
      ghost var g := pages[e.pa].(cow := true);
      TracksPut(frames, pages, e.pa, f, g);
      HungLess(per, n, procs, tables, p, va, e.(writable := false), Put(procs, p, va, e.(writable := false)));
      procs := Put(procs, p, va, e.(writable := false));
      frames, pages := frames[e.pa := f], pages[e.pa := g];
      MarkedInv(n, old(procs), old(pages), p, va, procs, pages);
    }

    /** The child's entry for a read-only page, and `inc_pte_refcount_pa`. */
    method Share(src: nat, dst: nat, va: nat)
      requires Core() && src in procs && dst in procs && va < n && procs[dst][va] == Unmapped
      requires procs[src][va].Mapped? && procs[src][va].user && !procs[src][va].writable && procs[src][va].pa in frames
      requires 0 < per && Node(dst, 3, Cover(per, 3, va)) in tables
      modifies this`procs, this`frames, this`pages
      ensures Core() && procs == Put(old(procs), dst, va, old(procs)[src][va])
      ensures Spaces() == Set(old(Spaces()), dst, va, Get(old(Spaces()), src, va))
    {
      hide EntriesOk, PagesOk, ViewOf, Set, Get, TablesOk, Divided, Cover;
      var pa := procs[src][va].pa;
      TracksAt(frames, pages, pa);
      var f := frames[pa].(refcount := frames[pa].refcount + 1);
      ghost var g := pages[pa].(refcount := pages[pa].refcount + 1, sharers := pages[pa].sharers + {dst});
      TracksPut(frames, pages, pa, f, g);
      GetView(n, procs, pages, src, va);
      assert At(procs, src, va) == procs[src][va];
      SharedInv(n, procs, pages, src, dst, va, Put(procs, dst, va, procs[src][va]), pages[pa := g]);
      HungLess(per, n, procs, tables, dst, va, procs[src][va], Put(procs, dst, va, procs[src][va]));
      procs := Put(procs, dst, va, procs[src][va]);
      frames, pages := frames[pa := f], pages[pa := g];
    }

    /** A kernel page is never marked. */
    lemma KernelPage(p: nat, va: nat)
      requires Core() && p in procs && va < n && procs[p][va].Mapped? && !procs[p][va].user
      ensures !CowAt(p, va)
    {
      hide TablesOk, Divided;
      MappedPage(n, procs, pages, p, va);
    }

    /** One entry of `cpy_address_space`: kernel pages are copied, user pages shared read-only. */
    method CopyEntry(src: nat, dst: nat, va: nat) returns (ok: bool)
      requires Core() && src in procs && dst in procs && src != dst && va < n && procs[dst][va] == Unmapped
      requires 0 < per && (procs[src][va].Mapped? ==> Node(dst, 3, Cover(per, 3, va)) in tables)
      modifies this`procs, this`frames, this`pages, this`free, this`next, this`astray
      ensures Core() && procs.Keys == old(procs.Keys) && |procs[dst]| == n && astray == old(astray)
      ensures ok <==> Bit(KernelAt(old(procs), src, va)) <= old(FreeCount())
      ensures FreeCount() == old(FreeCount()) - (if ok then Bit(KernelAt(old(procs), src, va)) else 0)
      ensures ok ==> Spaces() == Set(old(Spaces()), dst, va, Get(old(Spaces()), src, va))
      ensures !ok ==> Spaces() == old(Spaces())
      ensures forall i :: 0 <= i < n && i != va ==> procs[dst][i] == old(procs)[dst][i]
      ensures SameKernel(old(procs), procs, src)
    {
      hide EntriesOk, PagesOk, ViewOf, Set, Get, Tracks, TablesOk, Divided, Cover;
      SeenAt(src, va);
      SeenAt(dst, va);
      NonNegative();
      var e := procs[src][va];
      assert At(procs, src, va) == e;
      ok := true;
      if !e.Mapped? {
        SetSame(Spaces(), dst, va);
      } else if !e.user {
        KernelPage(src, va);
        var pa;
        ok, pa := AllocPage();
        if ok {
          Enter(dst, va, pa, false, e.writable, frames[e.pa].data);
          assert astray == old(astray);
          PutReplaces(old(procs), dst, va, Mapped(pa, false, e.writable));
        }
      } else {
        if e.writable {
          MarkCow(src, va);
          PutReplaces(old(procs), src, va, e.(writable := false));
        }
        ghost var procs1 := procs;
        Share(src, dst, va);
        PutReplaces(procs1, dst, va, procs1[src][va]);
      }
    }

    /** The tables of `cpy_address_space` that begin at index `v`. */
    method CopyTables(src: nat, dst: nat, v: nat) returns (ok: bool)
      requires Core() && src in procs && dst in procs && src != dst && v < n && 0 < per && Node(dst, 0, 0) in tables
      requires Mirror(per, tables, src, dst, v, 1)
      modifies this`tables, this`free, this`next, this`astray
      ensures Core() && astray == old(astray) && Grows(old(tables), tables, dst) && Node(dst, 0, 0) in tables
      ensures var cost := Bit(Starts(per, old(tables), src, 1, v)) + Bit(Starts(per, old(tables), src, 2, v)) + Bit(Starts(per, old(tables), src, 3, v));
              && (ok <==> cost <= old(FreeCount()))
              && FreeCount() == if ok then old(FreeCount()) - cost else 0
      ensures ok ==> Mirror(per, tables, src, dst, v, 4)
    {
      hide Inv, Tracks, TablesOk, Divided, Mirror, Starts;
      NonNegative();
      ok := CopyTable(src, dst, v, 1);
      if ok {
        SameStarts(per, old(tables), tables, src, dst, v);
        ok := CopyTable(src, dst, v, 2);
        if ok {
          SameStarts(per, old(tables), tables, src, dst, v);
          ok := CopyTable(src, dst, v, 3);
        }
      }
    }

    method CopyTable(src: nat, dst: nat, v: nat, level: nat) returns (ok: bool)
      requires Core() && src in procs && dst in procs && src != dst && v < n && 0 < per && 1 <= level <= 3 && Node(dst, 0, 0) in tables
      requires Mirror(per, tables, src, dst, v, level)
      modifies this`tables, this`free, this`next, this`astray
      ensures Core() && astray == old(astray) && Grows(old(tables), tables, dst) && Node(dst, 0, 0) in tables
      ensures ok <==> Bit(Starts(per, old(tables), src, level, v)) <= old(FreeCount())
      ensures FreeCount() == if ok then old(FreeCount()) - Bit(Starts(per, old(tables), src, level, v)) else 0
      ensures ok ==> Mirror(per, tables, src, dst, v, level + 1)
    {
      hide Inv, Tracks, Divided, Begin, Cover, TablesOk;
      NonNegative();
      var x := Cover(per, level, v);
      if !Starts(per, tables, src, level, v) {
        MirrorSkip(per, tables, src, dst, v, level);
        return true;
      }
      var pa;
      ok, pa := AllocPage();
      if ok {
        MirrorUp(per, n, procs, tables, src, dst, v, level);
        MirrorAdd(per, tables, src, dst, v, level, pa);
        AddTableAt(Node(dst, level, x), pa);
        assert astray == old(astray);
      }
    }

    /** The walk of `cpy_address_space` has come to index `k`, from entries `procs0`, tables `tables0` and `free0` free pages. */
    ghost predicate Walking(v: View, procs0: Procs, tables0: Tables, free0: int, src: nat, dst: nat, k: nat)
      reads this
    {
      && k <= n && 0 < per && Core() && procs.Keys == procs0.Keys && src in procs && dst in procs && src != dst
      && Clear(n, procs[dst], k) && src in v && dst in v && |v[src]| == n && Spaces() == v[dst := Prefix(v[src], k, n)]
      && Node(dst, 0, 0) in tables && Mirror(per, tables, src, dst, k, 1) && Grows(tables0, tables, dst)
      && SameKernel(procs0, procs, src) && FreeCount() == free0 - Cost(per, procs0, tables0, src, k)
    }

    /** One index: the tables that begin there, and the entry. */
    method CopyStep(src: nat, dst: nat, k: nat, ghost v: View, ghost procs0: Procs, ghost tables0: Tables, ghost free0: int) returns (ok: bool)
      requires Walking(v, procs0, tables0, free0, src, dst, k) && k < n
      modifies this`procs, this`frames, this`pages, this`tables, this`free, this`next, this`astray
      ensures ok ==> Walking(v, procs0, tables0, free0, src, dst, k + 1)
      ensures ok <==> Cost(per, procs0, tables0, src, k + 1) <= free0
      ensures Core() && procs.Keys == procs0.Keys && astray == old(astray) && Grows(tables0, tables, dst)
      ensures !ok ==> Spaces() == old(Spaces())
    {
      hide Inv, Tracks, Divided, TablesOk, ViewOf, Set, Get, Starts, KernelAt, Mirror, Grows, SameKernel, Prefix;
      NonNegative();
      SameStarts(per, tables0, tables, src, dst, k);
      KernelSame(procs0, procs, src, k);
      ghost var procs1, tables1 := procs, tables;
      ok := CopyTables(src, dst, k);
      GrowsTwice(tables0, tables1, tables, dst);
      if !ok {
        return;
      }
      MirrorHangs(per, n, procs, tables, src, dst, k);
      assert At(procs, src, k) == procs[src][k] by { SeenAt(src, k); }
      ok := CopyEntry(src, dst, k);
      if !ok {
        return;
      }
      KernelTwice(procs0, procs1, procs, src);
      PrefixStep(v, src, dst, k, n);
      MirrorNext(per, tables, src, dst, k);
    }

    /** The entries of the address space, with the tables on the way, until memory runs out. */
    method CopyWalk(src: nat, dst: nat) returns (copied: nat)
      requires Core() && src in procs && dst in procs && src != dst && 0 < per
      requires procs[dst] == seq(n, _ => Unmapped) && Bare(tables, dst)
      modifies this`procs, this`frames, this`pages, this`tables, this`free, this`next, this`astray
      ensures Core() && procs.Keys == old(procs.Keys) && Grows(old(tables), tables, dst) && astray == old(astray)
      ensures copied <= n && src in old(Spaces()) && |old(Spaces())[src]| == n
      ensures Spaces() == old(Spaces())[dst := Prefix(old(Spaces())[src], copied, n)]
      ensures Cost(per, old(procs), old(tables), src, copied) <= old(FreeCount())
      ensures copied < n ==> old(FreeCount()) < Cost(per, old(procs), old(tables), src, copied + 1)
    {
      hide Inv, Tracks, Divided, TablesOk, ViewOf, Mirror, Bare, Grows, SameKernel, Cost;
      ghost var v := Spaces();
      ViewShape(n, procs, pages);
      NonNegative();
      BareView(n, procs, pages, dst);
      BareMirror(per, tables, src, dst);
      NothingCopied(v, src, dst, n);
      BareRoot(tables, dst);
      SameProcess(procs, procs, src);
      NoCost(per, procs, tables, src);
      copied := 0;
      while copied < n
        invariant Walking(v, old(procs), old(tables), old(FreeCount()), src, dst, copied) && astray == old(astray)
        invariant Cost(per, old(procs), old(tables), src, copied) <= old(FreeCount())
      {
        var ok := CopyStep(src, dst, copied, v, old(procs), old(tables), old(FreeCount()));
        if !ok {
          return;
        }
        copied := copied + 1;
        NonNegative();
      }
    }

    /** The pages that the end of process `p` would free. */
    ghost function Freed(p: nat): nat
      reads this
    {
      Sole(procs, frames, p, n) + |TablesOf(tables, p)|
    }

    /** `cpy_address_space`: a new root, the old space of `dst` goes, then the walk.  It does not say how far it came. */
    method CopySpace(src: nat, dst: nat) returns (started: bool, copied: nat)
      requires Valid() && src in procs && dst in procs && src != dst && 0 < per
      modifies this`procs, this`frames, this`pages, this`tables, this`free, this`next, this`astray
      ensures Valid() && procs.Keys == old(procs.Keys) && astray == old(astray)
      ensures started == (0 < old(FreeCount()))
      ensures !started ==> procs == old(procs) && frames == old(frames) && pages == old(pages) && tables == old(tables) && FreeCount() == old(FreeCount())
      ensures started ==> copied <= n && |old(Spaces())[src]| == n && Spaces() == old(Spaces())[dst := Prefix(old(Spaces())[src], copied, n)]
      ensures started ==> Cost(per, old(procs), old(tables), src, copied) <= old(FreeCount()) - 1 + old(Freed(dst))
      ensures started && copied < n ==> old(FreeCount()) - 1 + old(Freed(dst)) < Cost(per, old(procs), old(tables), src, copied + 1)
    {
      hide Inv, Tracks, Divided, ViewOf, Cost, Sole, TablesOk, Begin, Width;
      var pa;
      copied := 0;
      started, pa := AllocPage();
      if !started {
        return;
      }
      Destroy(dst);
      ghost var procs1, tables1, v := procs, tables, Spaces();
      ViewShape(n, old(procs), old(pages));
      RootFits(per, n, procs, tables);
      AddTableAt(Node(dst, 0, 0), pa);
      assert astray == old(astray);
      SameProcess(old(procs), procs, src);
      LosesOther(old(tables), tables1, dst, src);
      assert TablesSame(old(tables), tables, src);
      CostsSame(per, old(procs), old(tables), procs, tables, src);
      ghost var root := tables;
      copied := CopyWalk(src, dst);
      RootedAgain(procs.Keys, old(tables), tables1, root, tables, dst);
      PrefixOver(old(Spaces()), v, src, dst, copied, n);
    }
  }

  lemma BoundedNext(used: set<nat>, free: seq<nat>, next: nat, limit: nat)
    requires Pool(used, free, next, limit)
    ensures next <= limit
  {
  }

  ghost predicate SameFrames(frames: Frames, frames': Frames, pa: nat) {
    forall a :: a != pa && a in frames ==> a in frames' && frames'[a] == frames[a]
  }

  /** The pages of a space are counted as they were. */
  ghost predicate SameCounts(frames: Frames, frames': Frames, space: Space) {
    forall i :: 0 <= i < |space| && space[i].Mapped? ==>
      space[i].pa in frames && space[i].pa in frames' && frames'[space[i].pa].refcount == frames[space[i].pa].refcount
  }

  /** A process maps no page twice. */
  lemma OwnPages(n: nat, procs: Procs, pages: Pages, p: nat, va: nat)
    requires Inv(n, procs, pages) && p in procs && va < n && procs[p][va].Mapped?
    ensures |procs[p]| == n && forall i :: 0 <= i < n && i != va && procs[p][i].Mapped? ==> procs[p][i].pa != procs[p][va].pa
  {
    hide PagesOk;
    assert EntryOk(pages, p, va, At(procs, p, va));
    forall i | 0 <= i < n && i != va && procs[p][i].Mapped?
      ensures procs[p][i].pa != procs[p][va].pa
    {
      assert EntryOk(pages, p, i, At(procs, p, i));
    }
  }

  lemma CountsHere(n: nat, procs: Procs, frames: Frames, pages: Pages, p: nat)
    requires Inv(n, procs, pages) && Tracks(frames, pages) && p in procs
    ensures |procs[p]| == n && SameCounts(frames, frames, procs[p])
  {
    hide PagesOk;
    forall i | 0 <= i < n && procs[p][i].Mapped?
      ensures procs[p][i].pa in frames
    {
      assert EntryOk(pages, p, i, At(procs, p, i));
    }
  }

  lemma CountsStay(frames0: Frames, frames1: Frames, frames2: Frames, space: Space, va: nat)
    requires va < |space| && space[va].Mapped? && SameCounts(frames0, frames1, space) && SameFrames(frames1, frames2, space[va].pa)
    requires forall i :: 0 <= i < |space| && i != va && space[i].Mapped? ==> space[i].pa != space[va].pa
    ensures SameCounts(frames0, frames2, space[va := Unmapped])
  {
  }

  /** From index `k` on nothing is mapped. */
  ghost predicate Clear(n: nat, space: Space, k: nat) {
    |space| == n && forall i :: k <= i < n ==> space[i] == Unmapped
  }

  lemma KernelSame(procs: Procs, procs': Procs, p: nat, va: nat)
    requires SameKernel(procs, procs', p)
    ensures KernelAt(procs', p, va) == KernelAt(procs, p, va)
  {
  }

  lemma KernelTwice(procs: Procs, procs1: Procs, procs2: Procs, p: nat)
    requires SameKernel(procs, procs1, p) && SameKernel(procs1, procs2, p)
    ensures SameKernel(procs, procs2, p)
  {
  }

  lemma GrowsTwice(tables: Tables, tables1: Tables, tables2: Tables, p: nat)
    requires Grows(tables, tables1, p) && Grows(tables1, tables2, p)
    ensures Grows(tables, tables2, p)
  {
  }

  lemma NothingCopied(v: View, src: nat, dst: nat, n: nat)
    requires src in v && dst in v && |v[src]| == n && v[dst] == seq(n, _ => Nothing)
    ensures v == v[dst := Prefix(v[src], 0, n)]
  {
    assert Prefix(v[src], 0, n) == v[dst];
  }

  lemma BareRoot(tables: Tables, p: nat)
    requires Bare(tables, p)
    ensures Node(p, 0, 0) in tables && Grows(tables, tables, p)
  {
  }

  lemma NoCost(per: nat, procs: Procs, tables: Tables, p: nat)
    requires 0 < per
    ensures Cost(per, procs, tables, p, 0) == 0
  {
  }

  lemma CountedAs(frames0: Frames, frames: Frames, space: Space, va: nat)
    requires SameCounts(frames0, frames, space) && va < |space| && space[va].Mapped?
    ensures space[va].pa in frames0 && space[va].pa in frames && frames[space[va].pa].refcount == frames0[space[va].pa].refcount
  {
  }

  /** The entries of `p` before index `va` are clear, all others are as they were. */
  ghost predicate Cleared(n: nat, procs0: Procs, procs: Procs, p: nat, va: nat) {
    && p in procs0 && p in procs && |procs0[p]| == |procs[p]| == n && va <= n && procs == procs0[p := procs[p]]
    && (forall i :: 0 <= i < va ==> procs[p][i] == Unmapped)
    && (forall i :: va <= i < n ==> procs[p][i] == procs0[p][i])
  }

  lemma ClearedNext(n: nat, procs0: Procs, procs1: Procs, procs: Procs, p: nat, va: nat)
    requires Cleared(n, procs0, procs1, p, va) && va < n && procs == Put(procs1, p, va, Unmapped)
    ensures Cleared(n, procs0, procs, p, va + 1) && procs[p] == procs1[p][va := Unmapped]
  {
  }

  lemma ViewShape(n: nat, procs: Procs, pages: Pages)
    ensures ViewOf(n, procs, pages).Keys == procs.Keys && forall p :: p in procs ==> |ViewOf(n, procs, pages)[p]| == n
  {
  }

  /** Only process `p` sees something else. */
  ghost predicate ViewBut(n: nat, v: View, v': View, p: nat) {
    p in v && p in v' && |v[p]| == |v'[p]| == n && v' == v[p := v'[p]]
  }

  lemma SetBut(n: nat, v: View, v1: View, p: nat, va: nat, h: Held)
    requires ViewBut(n, v, v1, p)
    ensures ViewBut(n, v, Set(v1, p, va, h), p)
  {
  }

  lemma BareView(n: nat, procs: Procs, pages: Pages, p: nat)
    requires p in procs && procs[p] == seq(n, _ => Unmapped)
    ensures ViewOf(n, procs, pages)[p] == seq(n, _ => Nothing)
  {
  }

  lemma PrefixOver(v0: View, v: View, src: nat, dst: nat, k: nat, n: nat)
    requires src in v0 && src != dst && v == v0[dst := seq(n, _ => Nothing)] && k <= n == |v0[src]|
    ensures v[dst := Prefix(v[src], k, n)] == v0[dst := Prefix(v0[src], k, n)]
  {
  }

  /** The first `k` entries, and nothing after. */
  ghost function Prefix(space: seq<Held>, k: nat, n: nat): seq<Held>
    requires k <= n == |space|
  {
    space[..k] + seq(n - k, _ => Nothing)
  }

  lemma PrefixStep(v: View, src: nat, dst: nat, k: nat, n: nat)
    requires src in v && dst in v && src != dst && k < n == |v[src]|
    ensures var v' := v[dst := Prefix(v[src], k, n)];
            Set(v', dst, k, Get(v', src, k)) == v[dst := Prefix(v[src], k + 1, n)]
  {
    assert Prefix(v[src], k + 1, n) == Prefix(v[src], k, n)[k := v[src][k]];
  }

  /** A process may store to what it holds. */
  ghost predicate CanWrite(h: Held) {
    h.Held? && h.user && h.writable
  }
}

/** The tables under an address space, as values (`kernel/memory/page_table/page_table.c`): four levels of pages that come
out of the same pool as the pages they map. */
module CowTables {
  import opened Common
  import opened Arithmetic
  import opened CowState

  /** A table of process `p`: number `x` of its level, in the order of the addresses.  Level 0 is the root, and the
      entries of level 3 map pages. */
  datatype Node = Node(p: nat, level: nat, x: nat)

  type Tables = map<Node, nat>

  /** How many pages lie under one table of the level; `per` entries to a table. */
  function Width(per: nat, level: nat): (w: nat)
    requires level <= 3
    ensures 0 < per ==> 0 < w
    decreases 3 - level
  {
    if level == 3 then per else Width(per, level + 1) * per
  }

  /** The number of the table of the level under which index `va` lies. */
  function Cover(per: nat, level: nat, va: nat): nat
    requires 0 < per && level <= 3
  {
    Quot(va, Width(per, level))
  }

  /** The first index under table `x` of the level. */
  function Begin(per: nat, level: nat, x: nat): nat
    requires level <= 3
  {
    x * Width(per, level)
  }

  /** A table of the last level maps `per` pages, and one of each level above `per` times as many as one below it. */
  lemma CoverIs(per: nat, va: nat)
    requires 0 < per
    ensures Cover(per, 3, va) == Quot(va, per) && Cover(per, 2, va) == Quot(va, per * per)
    ensures Cover(per, 1, va) == Quot(va, per * per * per) && Cover(per, 0, va) == Quot(va, per * per * per * per)
  {
    hide Quot;
    assert Width(per, 3) == per && Width(per, 2) == per * per && Width(per, 1) == per * per * per && Width(per, 0) == per * per * per * per;
  }

  lemma CoverBegin(per: nat, level: nat, x: nat, va: nat)
    requires 0 < per && level <= 3
    ensures Begin(per, level, Cover(per, level, va)) <= va
    ensures Begin(per, level, x) == va <==> x == Cover(per, level, va) && Begin(per, level, Cover(per, level, va)) == va
  {
    hide Width;
    var w := Width(per, level);
    assert va == va / w * w + va % w;
    if va == x * w {
      DivExact(w, x);
    }
  }

  /** The table above, by numbers and by first indices. */
  lemma CoverUp(per: nat, level: nat, x: nat, va: nat)
    requires 0 < per && 1 <= level <= 3
    ensures Quot(Cover(per, level, va), per) == Cover(per, level - 1, va)
    ensures Begin(per, level - 1, Quot(x, per)) <= Begin(per, level, x)
  {
    var w := Width(per, level);
    assert Width(per, level - 1) == w * per;
    hide Width;
    DivDiv(va, w, per);
    Above(x, per, w);
  }

  lemma Above(x: nat, per: nat, w: nat)
    requires 0 < per
    ensures Quot(x, per) * (w * per) <= x * w
  {
    var q: nat := x / per;
    assert x == q * per + x % per;
    MulOrder(q * per, x, w);
    assert q * (w * per) == q * per * w;
  }

  // ---------------------------------------------------------------------------
  // The trees
  // ---------------------------------------------------------------------------

  /** No page is two tables. */
  ghost predicate Injective(tables: Tables) {
    forall a, b :: a in tables && b in tables && tables[a] == tables[b] ==> a == b
  }

  /** Every table belongs to a process and hangs under another, or is a root. */
  ghost predicate Tree(per: nat, n: nat, owners: set<nat>, tables: Tables) {
    && 0 < per && n == Width(per, 0)
    && forall nd :: nd in tables ==>
      && nd.p in owners && nd.level <= 3 && Begin(per, nd.level, nd.x) < n
      && (nd.level > 0 ==> Node(nd.p, nd.level - 1, Quot(nd.x, per)) in tables)
  }

  /** Every mapped entry is in a table. */
  ghost predicate Hung(per: nat, procs: Procs, tables: Tables) {
    && 0 < per
    && forall p: nat, va: nat {:trigger At(procs, p, va)} :: At(procs, p, va).Mapped? ==> Node(p, 3, Cover(per, 3, va)) in tables
  }

  ghost predicate Rooted(owners: set<nat>, tables: Tables) {
    forall p :: p in owners ==> Node(p, 0, 0) in tables
  }

  ghost predicate TablesOk(per: nat, n: nat, procs: Procs, tables: Tables) {
    Injective(tables) && Tree(per, n, procs.Keys, tables) && Hung(per, procs, tables)
  }

  /** A new table, under one that exists. */
  lemma AddTable(per: nat, n: nat, procs: Procs, tables: Tables, nd: Node, pa: nat)
    requires TablesOk(per, n, procs, tables) && nd !in tables && pa !in tables.Values
    requires nd.p in procs && nd.level <= 3 && Begin(per, nd.level, nd.x) < n
    requires nd.level > 0 ==> Node(nd.p, nd.level - 1, Quot(nd.x, per)) in tables
    ensures TablesOk(per, n, procs, tables[nd := pa]) && tables[nd := pa].Values == tables.Values + {pa}
  {
    hide Begin, Cover, Width;
    var tables' := tables[nd := pa];
    assert nd in tables';
    forall a | a in tables.Values + {pa}
      ensures a in tables'.Values
    {
      if a != pa {
        var b :| b in tables && tables[b] == a;
        assert tables'[b] == a;
      }
    }
  }

  /** The tables of process `p`. */
  ghost function TablesOf(tables: Tables, p: nat): set<Node> {
    set nd | nd in tables && nd.p == p
  }

  lemma DropTable(tables: Tables, nd: Node)
    requires Injective(tables) && nd in tables
    ensures Injective(tables - {nd}) && (tables - {nd}).Values == tables.Values - {tables[nd]}
    ensures tables[nd] in tables.Values
    ensures TablesOf(tables - {nd}, nd.p) == TablesOf(tables, nd.p) - {nd}
  {
    var tables' := tables - {nd};
    forall a | a in tables.Values - {tables[nd]}
      ensures a in tables'.Values
    {
      var b :| b in tables && tables[b] == a;
      assert b in tables' && tables'[b] == a;
    }
  }

  lemma {:induction false} ValuesSize(tables: Tables)
    requires Injective(tables)
    ensures |tables.Values| == |tables|
  {
    if tables != map[] {
      var nd :| nd in tables;
      DropTable(tables, nd);
      ValuesSize(tables - {nd});
      assert |tables| == |tables - {nd}| + 1 by {
        assert tables.Keys == (tables - {nd}).Keys + {nd};
      }
    }
  }

  /** Entries change, but none is mapped anew. */
  lemma HungLess(per: nat, n: nat, procs: Procs, tables: Tables, p: nat, va: nat, e: Entry, procs': Procs)
    requires TablesOk(per, n, procs, tables) && p in procs && va < |procs[p]| && procs' == Put(procs, p, va, e)
    requires e.Mapped? ==> procs[p][va].Mapped? || Node(p, 3, Cover(per, 3, va)) in tables
    ensures TablesOk(per, n, procs', tables)
  {
    hide Begin, Cover, Width;
    PutReplaces(procs, p, va, e);
    assert procs'.Keys == procs.Keys;
    forall q: nat, i: nat
      ensures At(procs', q, i).Mapped? ==> Node(q, 3, Cover(per, 3, i)) in tables
    {
      if q == p && i == va {
        assert At(procs, p, va) == procs[p][va];
      } else {
        assert At(procs', q, i) == At(procs, q, i);
      }
    }
  }

  // ---------------------------------------------------------------------------
  // What a mapping and a copy cost
  // ---------------------------------------------------------------------------

  /** Whether the table of the level over index `va` is missing. */
  ghost function Lacks(per: nat, tables: Tables, p: nat, level: nat, va: nat): nat
    requires 0 < per && level <= 3
  {
    if Node(p, level, Cover(per, level, va)) in tables then 0 else 1
  }

  /** How many tables a mapping at index `va` needs. */
  ghost function Missing(per: nat, tables: Tables, p: nat, va: nat): nat
    requires 0 < per
  {
    Lacks(per, tables, p, 1, va) + Lacks(per, tables, p, 2, va) + Lacks(per, tables, p, 3, va)
  }

  /** Whether a table of the level, below the root, begins at index `va`. */
  predicate Starts(per: nat, tables: Tables, p: nat, level: nat, va: nat)
    requires 0 < per && level <= 3
  {
    Begin(per, level, Cover(per, level, va)) == va && Node(p, level, Cover(per, level, va)) in tables
  }

  ghost function Bit(b: bool): nat { if b then 1 else 0 }

  ghost predicate KernelAt(procs: Procs, p: nat, va: nat) {
    At(procs, p, va).Mapped? && !At(procs, p, va).user
  }

  /** The pages that a copy of process `p` takes at index `va`: tables that begin there, and a kernel page. */
  ghost function Charge(per: nat, procs: Procs, tables: Tables, p: nat, va: nat): nat
    requires 0 < per
  {
    Bit(Starts(per, tables, p, 1, va)) + Bit(Starts(per, tables, p, 2, va)) + Bit(Starts(per, tables, p, 3, va)) + Bit(KernelAt(procs, p, va))
  }

  /** The pages that a copy of the first `v` entries takes, below the root. */
  ghost function Cost(per: nat, procs: Procs, tables: Tables, p: nat, v: nat): nat
    requires 0 < per
  {
    if v == 0 then 0 else Cost(per, procs, tables, p, v - 1) + Charge(per, procs, tables, p, v - 1)
  }

  lemma {:induction false} CostGrows(per: nat, procs: Procs, tables: Tables, p: nat, v: nat, w: nat)
    requires 0 < per && v <= w
    ensures Cost(per, procs, tables, p, v) <= Cost(per, procs, tables, p, w)
    decreases w
  {
    if v < w {
      CostGrows(per, procs, tables, p, v, w - 1);
    }
  }

  /** The cost depends on the entries and the tables of the process alone. */
  lemma {:induction false} CostSame(per: nat, procs: Procs, tables: Tables, procs': Procs, tables': Tables, p: nat, v: nat)
    requires 0 < per && SameKernel(procs, procs', p) && TablesSame(tables, tables', p)
    ensures Cost(per, procs', tables', p, v) == Cost(per, procs, tables, p, v)
  {
    hide Begin, Cover, Width;
    if v != 0 {
      CostSame(per, procs, tables, procs', tables', p, v - 1);
      assert KernelAt(procs', p, v - 1) == KernelAt(procs, p, v - 1);
    }
  }

  ghost predicate SameKernel(procs: Procs, procs': Procs, p: nat) {
    forall va: nat :: KernelAt(procs', p, va) == KernelAt(procs, p, va)
  }

  ghost predicate TablesSame(tables: Tables, tables': Tables, p: nat) {
    forall level, x {:trigger Node(p, level, x)} :: Node(p, level, x) in tables' <==> Node(p, level, x) in tables
  }

  /** The tables of `p` below the root that begin before index `v`. */
  ghost function Below(per: nat, tables: Tables, p: nat, v: nat): set<Node> {
    set nd | nd in tables && nd.p == p && 1 <= nd.level <= 3 && Begin(per, nd.level, nd.x) < v
  }

  ghost function Kernels(procs: Procs, p: nat, v: nat): set<nat> {
    set va | 0 <= va < v && KernelAt(procs, p, va)
  }

  /** ...or at index `v`, at a level before `l`. */
  ghost function BelowTo(per: nat, tables: Tables, p: nat, v: nat, l: nat): set<Node> {
    set nd | nd in tables && nd.p == p && 1 <= nd.level <= 3
             && (Begin(per, nd.level, nd.x) < v || (Begin(per, nd.level, nd.x) == v && nd.level < l))
  }

  lemma BelowLevel(per: nat, tables: Tables, p: nat, v: nat, l: nat)
    requires 0 < per && 1 <= l <= 3
    ensures |BelowTo(per, tables, p, v, l + 1)| == |BelowTo(per, tables, p, v, l)| + Bit(Starts(per, tables, p, l, v))
  {
    hide Begin, Cover, Width;
    var a, nd := BelowTo(per, tables, p, v, l), Node(p, l, Cover(per, l, v));
    forall x: nat
      ensures Begin(per, l, x) == v <==> x == Cover(per, l, v) && Begin(per, l, Cover(per, l, v)) == v
    {
      CoverBegin(per, l, x, v);
    }
    if Starts(per, tables, p, l, v) {
      assert BelowTo(per, tables, p, v, l + 1) == a + {nd} && nd !in a;
    } else {
      assert BelowTo(per, tables, p, v, l + 1) == a;
    }
  }

  lemma BelowStep(per: nat, tables: Tables, p: nat, v: nat)
    requires 0 < per
    ensures |Below(per, tables, p, v + 1)| == |Below(per, tables, p, v)| + Bit(Starts(per, tables, p, 1, v))
              + Bit(Starts(per, tables, p, 2, v)) + Bit(Starts(per, tables, p, 3, v))
  {
    hide Begin, Cover, Width, Starts;
    BelowLevel(per, tables, p, v, 1);
    BelowLevel(per, tables, p, v, 2);
    BelowLevel(per, tables, p, v, 3);
    assert BelowTo(per, tables, p, v, 1) == Below(per, tables, p, v);
    assert BelowTo(per, tables, p, v, 4) == Below(per, tables, p, v + 1);
  }

  /** The cost is the number of tables below the root, and of kernel pages, so far. */
  lemma {:induction false} CostIs(per: nat, procs: Procs, tables: Tables, p: nat, v: nat)
    requires 0 < per
    ensures Cost(per, procs, tables, p, v) == |Below(per, tables, p, v)| + |Kernels(procs, p, v)|
  {
    hide Begin, Cover, Width, Starts, KernelAt;
    if v == 0 {
      assert Below(per, tables, p, v) == {} && Kernels(procs, p, v) == {};
    } else {
      CostIs(per, procs, tables, p, v - 1);
      BelowStep(per, tables, p, v - 1);
      assert Kernels(procs, p, v) == Kernels(procs, p, v - 1) + (if KernelAt(procs, p, v - 1) then {v - 1} else {});
    }
  }

  /** A whole copy costs the tables below the root and the kernel pages. */
  lemma CostTotal(per: nat, n: nat, procs: Procs, tables: Tables, p: nat)
    requires Tree(per, n, procs.Keys, tables) && Node(p, 0, 0) in tables && RootOnly(tables)
    ensures Cost(per, procs, tables, p, n) + 1 == |TablesOf(tables, p)| + |Kernels(procs, p, n)|
  {
    hide Begin, Cover, Width;
    CostIs(per, procs, tables, p, n);
    assert TablesOf(tables, p) == Below(per, tables, p, n) + {Node(p, 0, 0)};
  }

  /** There is one root. */
  ghost predicate RootOnly(tables: Tables) {
    forall nd :: nd in tables && nd.level == 0 ==> nd.x == 0
  }

  /** There is room for only one table at level 0. */
  lemma OneRoot(per: nat, n: nat, owners: set<nat>, tables: Tables)
    requires Tree(per, n, owners, tables)
    ensures RootOnly(tables)
  {
    forall nd | nd in tables && nd.level == 0
      ensures nd.x == 0
    {
      if nd.x > 0 {
        MulOrder(1, nd.x, Width(per, 0));
      }
    }
  }

  /** The last table of a process whose entries are all clear can go. */
  lemma BareTable(per: nat, n: nat, procs: Procs, tables: Tables, nd: Node)
    requires TablesOk(per, n, procs, tables) && nd in tables && (nd.p in procs ==> procs[nd.p] == seq(n, _ => Unmapped))
    requires forall m :: m in tables && m.p == nd.p ==> m.level <= nd.level
    ensures TablesOk(per, n, procs, tables - {nd}) && (tables - {nd}).Values == tables.Values - {tables[nd]} && tables[nd] in tables.Values
    ensures TablesOf(tables - {nd}, nd.p) == TablesOf(tables, nd.p) - {nd}
  {
    hide Begin, Cover, Width;
    DropTable(tables, nd);
  }

  lemma GoneTables(per: nat, n: nat, procs: Procs, tables: Tables, p: nat)
    requires TablesOk(per, n, procs, tables) && forall nd :: nd in tables ==> nd.p != p
    ensures TablesOk(per, n, procs - {p}, tables)
  {
    hide Begin, Cover, Width;
    var procs' := procs - {p};
    forall q: nat, i: nat
      ensures At(procs', q, i).Mapped? ==> At(procs, q, i) == At(procs', q, i)
    {
    }
  }

  lemma NewSpace(per: nat, n: nat, procs: Procs, tables: Tables, p: nat)
    requires TablesOk(per, n, procs, tables) && p !in procs
    ensures Node(p, 0, 0) !in tables && 0 < per && Begin(per, 0, 0) == 0 < n
    ensures TablesOk(per, n, procs[p := seq(n, _ => Unmapped)], tables)
  {
    hide Cover;
    var procs' := procs[p := seq(n, _ => Unmapped)];
    forall q: nat, i: nat
      ensures At(procs', q, i) == At(procs, q, i)
    {
    }
  }

  lemma RootFits(per: nat, n: nat, procs: Procs, tables: Tables)
    requires TablesOk(per, n, procs, tables)
    ensures 0 < per && Begin(per, 0, 0) == 0 < n
  {
  }

  // ---------------------------------------------------------------------------
  // Copying a tree
  // ---------------------------------------------------------------------------

  /** Below the root, `dst` has the tables of `src` that begin before index `v`, or there and at a level before `l`. */
  ghost predicate Mirror(per: nat, tables: Tables, src: nat, dst: nat, v: nat, l: nat) {
    forall level: nat, x: nat {:trigger Node(dst, level, x)} :: 1 <= level <= 3 ==>
      (Node(dst, level, x) in tables <==>
         Node(src, level, x) in tables && (Begin(per, level, x) < v || (Begin(per, level, x) == v && level < l)))
  }

  /** Process `p` has a root and no other table. */
  ghost predicate Bare(tables: Tables, p: nat) {
    Node(p, 0, 0) in tables && forall nd :: nd in tables && nd.p == p ==> nd == Node(p, 0, 0)
  }

  lemma BareMirror(per: nat, tables: Tables, src: nat, dst: nat)
    requires Bare(tables, dst)
    ensures Mirror(per, tables, src, dst, 0, 1)
  {
    hide Begin;
  }

  lemma MirrorSkip(per: nat, tables: Tables, src: nat, dst: nat, v: nat, level: nat)
    requires 0 < per && 1 <= level <= 3 && Mirror(per, tables, src, dst, v, level) && !Starts(per, tables, src, level, v)
    ensures Mirror(per, tables, src, dst, v, level + 1)
  {
    hide Begin, Cover;
    forall x: nat
      ensures Begin(per, level, x) == v ==> Node(src, level, x) !in tables
    {
      CoverBegin(per, level, x, v);
    }
  }

  lemma MirrorAdd(per: nat, tables: Tables, src: nat, dst: nat, v: nat, level: nat, pa: nat)
    requires 0 < per && 1 <= level <= 3 && src != dst && Mirror(per, tables, src, dst, v, level) && Starts(per, tables, src, level, v)
    ensures Mirror(per, tables[Node(dst, level, Cover(per, level, v)) := pa], src, dst, v, level + 1)
  {
    hide Begin, Cover;
    forall x: nat
      ensures Begin(per, level, x) == v <==> x == Cover(per, level, v)
    {
      CoverBegin(per, level, x, v);
    }
  }

  /** The next table to copy is not there, and the one above it is. */
  lemma MirrorUp(per: nat, n: nat, procs: Procs, tables: Tables, src: nat, dst: nat, v: nat, level: nat)
    requires TablesOk(per, n, procs, tables) && 1 <= level <= 3 && v < n && Node(dst, 0, 0) in tables
    requires Mirror(per, tables, src, dst, v, level) && Starts(per, tables, src, level, v)
    ensures var x := Cover(per, level, v);
            && Begin(per, level, x) < n && Node(dst, level, x) !in tables
            && Node(dst, level - 1, Quot(x, per)) in tables
  {
    hide Begin, Cover, Width, Hung, Injective;
    var x := Cover(per, level, v);
    CoverUp(per, level, x, v);
    if level == 1 {
      TopCover(per, n, v);
    } else {
      assert Node(src, level - 1, Quot(x, per)) in tables;
    }
  }

  lemma TopCover(per: nat, n: nat, v: nat)
    requires 0 < per && n == Width(per, 0) && v < n
    ensures Cover(per, 0, v) == 0
  {
    DivSmall(v, n);
  }

  /** The table of a mapped entry has been copied when the entry is. */
  lemma MirrorHangs(per: nat, n: nat, procs: Procs, tables: Tables, src: nat, dst: nat, v: nat)
    requires TablesOk(per, n, procs, tables) && Mirror(per, tables, src, dst, v, 4)
    ensures 0 < per && (At(procs, src, v).Mapped? ==> Node(dst, 3, Cover(per, 3, v)) in tables)
  {
    hide Begin, Cover, Width;
    CoverBegin(per, 3, 0, v);
  }

  lemma MirrorNext(per: nat, tables: Tables, src: nat, dst: nat, v: nat)
    requires Mirror(per, tables, src, dst, v, 4)
    ensures Mirror(per, tables, src, dst, v + 1, 1)
  {
    hide Begin;
  }

  // ---------------------------------------------------------------------------
  // Comparing trees
  // ---------------------------------------------------------------------------

  /** Table `nd` is there, and nothing else changed. */
  ghost predicate Gains(tables: Tables, tables': Tables, nd: Node) {
    nd in tables' && tables' == if nd in tables then tables else tables[nd := tables'[nd]]
  }

  /** Only process `p` has more tables. */
  ghost predicate Grows(tables: Tables, tables': Tables, p: nat) {
    && (forall nd :: nd in tables ==> nd in tables' && tables'[nd] == tables[nd])
    && (forall nd :: nd in tables' && nd.p != p ==> nd in tables)
  }

  /** Only process `p` has fewer. */
  ghost predicate Loses(tables: Tables, tables': Tables, p: nat) {
    && (forall nd :: nd in tables' ==> nd in tables && tables'[nd] == tables[nd])
    && (forall nd :: nd in tables && nd.p != p ==> nd in tables')
  }

  lemma LosesTwice(tables: Tables, tables1: Tables, tables2: Tables, p: nat)
    requires Loses(tables, tables1, p) && Loses(tables1, tables2, p)
    ensures Loses(tables, tables2, p)
  {
  }

  lemma LevelsBound(per: nat, n: nat, procs: Procs, tables: Tables)
    requires TablesOk(per, n, procs, tables)
    ensures forall nd :: nd in tables ==> nd.level <= 3
  {
    hide Begin, Cover, Width;
  }

  lemma GrowsRooted(owners: set<nat>, tables: Tables, tables': Tables, p: nat)
    requires Rooted(owners, tables) && Grows(tables, tables', p)
    ensures Rooted(owners, tables')
  {
  }

  lemma LosesRooted(owners: set<nat>, tables: Tables, tables': Tables, p: nat)
    requires Rooted(owners, tables) && Loses(tables, tables', p)
    ensures Rooted(owners - {p}, tables')
  {
  }

  lemma RootedAgain(owners: set<nat>, tables: Tables, tables1: Tables, root: Tables, tables': Tables, p: nat)
    requires Rooted(owners, tables) && Loses(tables, tables1, p) && Gains(tables1, root, Node(p, 0, 0)) && Grows(root, tables', p)
    ensures Rooted(owners, tables')
  {
  }

  lemma LosesOther(tables: Tables, tables1: Tables, p: nat, q: nat)
    requires Loses(tables, tables1, p) && q != p
    ensures TablesSame(tables, tables1, q)
  {
  }

  /** The tables of other processes begin where they did. */
  lemma SameStarts(per: nat, tables: Tables, tables': Tables, src: nat, dst: nat, v: nat)
    requires 0 < per && Grows(tables, tables', dst) && src != dst
    ensures Starts(per, tables', src, 1, v) == Starts(per, tables, src, 1, v)
    ensures Starts(per, tables', src, 2, v) == Starts(per, tables, src, 2, v)
    ensures Starts(per, tables', src, 3, v) == Starts(per, tables, src, 3, v)
  {
    hide Begin, Cover;
  }

  lemma CostsSame(per: nat, procs: Procs, tables: Tables, procs': Procs, tables': Tables, p: nat)
    requires 0 < per && SameKernel(procs, procs', p) && TablesSame(tables, tables', p)
    ensures forall v: nat {:trigger Cost(per, procs', tables', p, v)} :: Cost(per, procs', tables', p, v) == Cost(per, procs, tables, p, v)
  {
    hide Cost;
    forall v: nat
      ensures Cost(per, procs', tables', p, v) == Cost(per, procs, tables, p, v)
    {
      CostSame(per, procs, tables, procs', tables', p, v);
    }
  }

  lemma SameProcess(procs: Procs, procs': Procs, p: nat)
    requires p in procs && p in procs' && procs'[p] == procs[p]
    ensures SameKernel(procs, procs', p)
  {
  }
}

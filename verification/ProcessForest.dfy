/** Parents and children (`kernel/scheduler/process.c`): creating processes, and destroying one, which reaps its dead
descendants and hands the living ones to init. */
module ProcessForest {
  import opened Common

  const INIT: nat := 0

  datatype Pcb = Pcb(ppid: nat, children: seq<nat>, zombie: bool)

  type Procs = map<nat, Pcb>

  /** `c` is listed as a child of the live process `a`. */
  ghost predicate ChildOf(procs: Procs, a: nat, c: nat) {
    a in procs && c in procs[a].children
  }

  /** The children of a live process are live, name it as their parent, and are listed once. */
  ghost predicate Kids(procs: Procs) {
    && (forall a :: a in procs ==> NoDup(procs[a].children))
    && (forall a, c :: ChildOf(procs, a, c) ==> c in procs && c != INIT && procs[c].ppid == a)
  }

  /** Every process but init and the orphans is a child of its live parent; an orphan has no live parent. */
  ghost predicate Parents(procs: Procs, orphans: set<nat>) {
    && INIT in procs && INIT !in orphans
    && (forall q :: q in procs && q != INIT && q !in orphans ==> ChildOf(procs, procs[q].ppid, q))
    && (forall q :: q in orphans ==> q in procs && procs[q].ppid !in procs)
  }

  /** Ranks fall towards init, so that there is no cycle. */
  ghost predicate Ranked(procs: Procs, rank: map<nat, nat>) {
    && (forall q :: q in procs ==> q in rank)
    && (forall q :: q in procs && q != INIT && procs[q].ppid in procs ==> rank[procs[q].ppid] < rank[q])
    && (forall q :: q in procs && q != INIT && INIT in rank ==> rank[INIT] < rank[q])
  }

  ghost predicate Forest(procs: Procs, rank: map<nat, nat>, orphans: set<nat>) {
    Kids(procs) && Parents(procs, orphans) && Ranked(procs, rank)
  }

  // ---------------------------------------------------------------------------
  // Who goes
  // ---------------------------------------------------------------------------

  /** `gone` is `p` and the zombies below it that are connected to it by zombies. */
  ghost predicate Reaped(procs: Procs, p: nat, gone: set<nat>) {
    && p in gone && gone <= procs.Keys && INIT !in gone
    && (forall q :: q in gone && q != p ==> q in procs && procs[q].zombie && procs[q].ppid in gone)
    && (forall q :: q in procs && q != INIT && procs[q].zombie && procs[q].ppid in gone ==> q in gone)
  }

  /** There is only one such set. */
  lemma ReapedUnique(procs: Procs, rank: map<nat, nat>, orphans: set<nat>, p: nat, gone: set<nat>, gone': set<nat>)
    requires Forest(procs, rank, orphans) && Reaped(procs, p, gone) && Reaped(procs, p, gone')
    ensures gone == gone'
  {
    forall q | q in gone ensures q in gone' { GoneToo(procs, rank, orphans, p, gone, gone', q); }
    forall q | q in gone' ensures q in gone { GoneToo(procs, rank, orphans, p, gone', gone, q); }
  }

  lemma {:induction false} GoneToo(procs: Procs, rank: map<nat, nat>, orphans: set<nat>, p: nat, gone: set<nat>, gone': set<nat>, q: nat)
    requires Forest(procs, rank, orphans) && Reaped(procs, p, gone) && Reaped(procs, p, gone') && q in gone
    ensures q in gone'
    decreases rank[q]
  {
    if q != p {
      GoneToo(procs, rank, orphans, p, gone, gone', procs[q].ppid);
    }
  }

  /** `procs'` is `procs` without `gone`, whose living children belong to init, except that those in `kids` are still
      to be dealt with. */
  ghost predicate Survives(procs: Procs, gone: set<nat>, procs': Procs, kids: set<nat>) {
    && procs'.Keys == procs.Keys - gone
    && (forall q :: q in procs' ==> q in procs && procs'[q].zombie == procs[q].zombie)
    && (forall q :: q in procs' && q != INIT ==>
          q in procs && procs'[q].ppid == if procs[q].ppid in gone && q !in kids then INIT else procs[q].ppid)
  }

  /** The dead among them, as far as they have been dealt with. */
  ghost predicate Reaping(procs: Procs, p: nat, gone: set<nat>, kids: set<nat>) {
    && p in gone && gone <= procs.Keys && INIT !in gone
    && (forall q :: q in gone && q != p ==> q in procs && procs[q].zombie && procs[q].ppid in gone)
    && (forall q :: q in procs && q != INIT && procs[q].zombie && procs[q].ppid in gone ==> q in gone || q in kids)
  }

  /** A dead child is reaped, with its own. */
  lemma ReapChild(procs: Procs, p: nat, gone: set<nat>, kids: set<nat>, procs1: Procs, c: nat, gone1: set<nat>, procs2: Procs)
    requires Reaping(procs, p, gone, kids) && Survives(procs, gone, procs1, kids)
    requires c in kids && c in procs1 && procs[c].zombie && procs[c].ppid == p
    requires Reaped(procs1, c, gone1) && Survives(procs1, gone1, procs2, {})
    requires forall q :: q in kids ==> q in procs && q != INIT && procs[q].ppid == p
    ensures Reaping(procs, p, gone + gone1, kids - {c}) && Survives(procs, gone + gone1, procs2, kids - {c})
    ensures gone1 * kids == {c}
  {
    assert p !in gone1;
    assert forall q :: q in gone1 && q != c ==> procs1[q].ppid in gone1;
  }

  /** A living child goes to init. */
  lemma AdoptChild(procs: Procs, p: nat, gone: set<nat>, kids: set<nat>, procs1: Procs, c: nat, procs2: Procs)
    requires Reaping(procs, p, gone, kids) && Survives(procs, gone, procs1, kids)
    requires c in kids && c in procs1 && c != INIT && !procs[c].zombie && procs[c].ppid == p && INIT in procs1
    requires procs2 == Adopted(procs1, c)
    ensures Reaping(procs, p, gone, kids - {c}) && Survives(procs, gone, procs2, kids - {c})
  {
  }

  ghost function Adopted(procs: Procs, c: nat): Procs
    requires INIT in procs && c in procs
  {
    var procs1 := procs[INIT := procs[INIT].(children := procs[INIT].children + [c])];
    procs1[c := procs1[c].(ppid := INIT)]
  }

  lemma AdoptedForest(procs: Procs, rank: map<nat, nat>, orphans: set<nat>, c: nat)
    requires Forest(procs, rank, orphans) && c in orphans
    ensures Forest(Adopted(procs, c), rank, orphans - {c})
  {
    var procs' := Adopted(procs, c);
    assert !ChildOf(procs, INIT, c);
    assert procs'[INIT].children == procs[INIT].children + [c];
    assert forall a :: a in procs && a != INIT ==> procs'[a].children == procs[a].children;
    assert forall a, d {:trigger ChildOf(procs', a, d)} {:trigger ChildOf(procs, a, d)} :: ChildOf(procs', a, d) <==> ChildOf(procs, a, d) || (a == INIT && d == c);
    assert forall q :: q in procs && q != c ==> procs'[q].ppid == procs[q].ppid;
    assert procs'.Keys == procs.Keys && procs'[c].ppid == INIT;
    assert forall a :: a in procs' ==> NoDup(procs'[a].children);
    assert Kids(procs');
    assert Parents(procs', orphans - {c});
    assert Ranked(procs', rank);
  }

  // ---------------------------------------------------------------------------
  // Removing one process
  // ---------------------------------------------------------------------------

  /** `procs` without `p`, and without it among its parent's children. */
  ghost predicate Unlinks(procs: Procs, p: nat, procs': Procs) {
    && p in procs && procs'.Keys == procs.Keys - {p}
    && (forall q :: q in procs' ==> q in procs && procs'[q].ppid == procs[q].ppid && procs'[q].zombie == procs[q].zombie)
    && (forall q :: q in procs' ==> NoDup(procs'[q].children))
    && (forall q, c {:trigger ChildOf(procs', q, c)} {:trigger ChildOf(procs, q, c)} ::
          ChildOf(procs', q, c) <==> ChildOf(procs, q, c) && q != p && c != p)
  }

  lemma UnlinkedForest(procs: Procs, rank: map<nat, nat>, orphans: set<nat>, p: nat, procs': Procs, kids: set<nat>)
    requires Forest(procs, rank, orphans) && p in procs && p != INIT && Unlinks(procs, p, procs')
    requires forall c :: c in kids <==> ChildOf(procs, p, c)
    ensures Forest(procs', rank, orphans - {p} + kids)
    ensures Reaping(procs, p, {p}, kids) && Survives(procs, {p}, procs', kids)
    ensures forall c :: c in kids ==> c in procs' && c != INIT && procs[c].ppid == p && c !in orphans
  {
    UnlinkedKids(procs, p, procs');
    UnlinkedParents(procs, orphans, p, procs', kids);
    assert Ranked(procs', rank);
    assert Reaping(procs, p, {p}, kids);
    assert Survives(procs, {p}, procs', kids);
    assert forall c :: c in kids ==> c in procs' && c != INIT && procs[c].ppid == p && c !in orphans;
  }

  lemma UnlinkedKids(procs: Procs, p: nat, procs': Procs)
    requires Kids(procs) && Unlinks(procs, p, procs')
    ensures Kids(procs')
  {
    hide ChildOf;
  }

  lemma UnlinkedParents(procs: Procs, orphans: set<nat>, p: nat, procs': Procs, kids: set<nat>)
    requires Kids(procs) && Parents(procs, orphans) && p in procs && p != INIT && Unlinks(procs, p, procs')
    requires forall c :: c in kids <==> ChildOf(procs, p, c)
    requires procs[p].ppid != p
    ensures Parents(procs', orphans - {p} + kids)
  {
    hide ChildOf;
    var orphans' := orphans - {p} + kids;
    assert forall q :: q in procs' && q != INIT && q !in orphans' ==> ChildOf(procs, procs[q].ppid, q);
    assert forall q :: q in kids ==> procs[q].ppid == p && q != p;
  }

  class ProcessTable {
    var procs: Procs
    ghost var rank: map<nat, nat>

    ghost predicate Valid()
      reads this
    {
      Forest(procs, rank, {})
    }

    /** `processes_init`: init is its own parent. */
    constructor ()
      ensures Valid() && procs == map[INIT := Pcb(INIT, [], false)]
    {
      procs, rank := map[INIT := Pcb(INIT, [], false)], map[INIT := 0];
    }

    /** `proc_create` in a free slot, by a live parent. */
    method Create(pid: nat, ppid: nat)
      requires Valid() && pid !in procs && ppid in procs
      modifies this`procs, this`rank
      ensures Valid() && procs.Keys == old(procs).Keys + {pid}
      ensures procs[pid] == Pcb(ppid, [], false) && procs[ppid] == old(procs)[ppid].(children := old(procs)[ppid].children + [pid])
      ensures forall q :: q in old(procs) && q != ppid ==> procs[q] == old(procs)[q]
    {
      hide Kids, Parents;
      procs := procs[ppid := procs[ppid].(children := procs[ppid].children + [pid])];
      procs := procs[pid := Pcb(ppid, [], false)];
      rank := rank[pid := rank[ppid] + 1];
      Grown(old(procs), old(rank), pid, ppid, procs, rank);
    }

    /** All threads of a process are dead. */
    method Die(p: nat)
      requires Valid() && p in procs
      modifies this`procs
      ensures Valid() && procs == old(procs)[p := old(procs)[p].(zombie := true)]
    {
      procs := procs[p := procs[p].(zombie := true)];
      SameLinks(old(procs), rank, procs);
    }

    /** The search for `p` among its parent's children. */
    method Unlink(p: nat)
      requires p in procs && p != INIT && Kids(procs) && procs[p].ppid != p
      modifies this`procs
      ensures Unlinks(old(procs), p, procs)
    {
      var ppid := procs[p].ppid;
      procs := procs - {p};
      if ppid in procs {
        var kids := procs[ppid].children;
        for i := 0 to |kids|
          invariant p !in kids[..i] && procs == old(procs) - {p}
        {
          if kids[i] == p {
            procs := procs[ppid := procs[ppid].(children := kids[..i] + kids[i + 1..])];
            Erased(old(procs), p, ppid, i, procs);
            return;
          }
        }
        assert kids[..|kids|] == kids;
      }
      NotListed(old(procs), p, procs);
    }

    /** `proc_destroy`: `p` goes, its dead children go with it, its living ones go to init. */
    method Destroy(p: nat, ghost orphans: set<nat>) returns (ghost gone: set<nat>)
      requires Forest(procs, rank, orphans) && p in procs && p != INIT
      modifies this`procs
      ensures Forest(procs, rank, orphans - {p})
      ensures Reaped(old(procs), p, gone) && Survives(old(procs), gone, procs, {})
      decreases |procs|
    {
      hide Forest, Working, Unlinks, Reaped, Survives, ChildOf, Kids, Parents, Ranked;
      NotOwnParent(procs, rank, orphans, p);
      var kids := procs[p].children;
      ghost var procs0 := procs;
      Unlink(p);
      WorkStarts(procs0, rank, orphans, p, procs, kids);
      gone := {p};
      while kids != []
        invariant NoDup(kids) && |procs| < |procs0|
        invariant Working(procs0, procs, rank, orphans - {p}, p, gone, Elements(kids))
        decreases |kids|
      {
        var c := kids[|kids| - 1];
        ghost var all := Elements(kids);
        kids := kids[..|kids| - 1];
        assert Elements(kids) == all - {c} && c in all;
        if c !in procs {
          WorkHas(procs0, procs, rank, orphans - {p}, p, gone, all, c);
          continue;
        }
        ghost var before := procs;
        WorkHas(procs0, procs, rank, orphans - {p}, p, gone, all, c);
        if procs[c].zombie {
          ghost var more := Destroy(c, orphans - {p} + all);
          WorkReaps(procs0, before, rank, orphans - {p}, p, gone, all, c, more, procs);
          gone := gone + more;
        } else {
          procs := procs[INIT := procs[INIT].(children := procs[INIT].children + [c])];
          procs := procs[c := procs[c].(ppid := INIT)];
          WorkAdopts(procs0, before, rank, orphans - {p}, p, gone, all, c, procs);
        }
      }
      WorkEnds(procs0, procs, rank, orphans - {p}, p, gone, Elements(kids));
    }
  }

  /** Process `p` is gone, and of its children those in `kids` are still to be dealt with. */
  ghost predicate Working(procs0: Procs, procs: Procs, rank: map<nat, nat>, orphans: set<nat>, p: nat, gone: set<nat>, kids: set<nat>) {
    && Forest(procs, rank, orphans + kids) && orphans !! kids
    && Reaping(procs0, p, gone, kids) && Survives(procs0, gone, procs, kids)
    && (forall c :: c in kids ==> c in procs && c in procs0 && c != INIT && procs0[c].ppid == p)
  }

  lemma WorkStarts(procs0: Procs, rank: map<nat, nat>, orphans: set<nat>, p: nat, procs: Procs, kids: seq<nat>)
    requires Forest(procs0, rank, orphans) && p in procs0 && p != INIT && Unlinks(procs0, p, procs) && kids == procs0[p].children
    ensures Working(procs0, procs, rank, orphans - {p}, p, {p}, Elements(kids)) && |procs| < |procs0|
  {
    assert forall c :: c in Elements(kids) <==> ChildOf(procs0, p, c);
    UnlinkedForest(procs0, rank, orphans, p, procs, Elements(kids));
    assert procs.Keys < procs0.Keys;
    Smaller(procs.Keys, procs0.Keys);
  }

  lemma WorkHas(procs0: Procs, procs: Procs, rank: map<nat, nat>, orphans: set<nat>, p: nat, gone: set<nat>, kids: set<nat>, c: nat)
    requires Working(procs0, procs, rank, orphans, p, gone, kids) && c in kids
    ensures c in procs && c in procs0 && c != INIT && INIT in procs && procs[c].zombie == procs0[c].zombie && Forest(procs, rank, orphans + kids)
  {
  }

  lemma WorkReaps(procs0: Procs, procs: Procs, rank: map<nat, nat>, orphans: set<nat>, p: nat, gone: set<nat>, kids: set<nat>, c: nat,
                  more: set<nat>, procs': Procs)
    requires Working(procs0, procs, rank, orphans, p, gone, kids) && c in kids && procs[c].zombie
    requires Forest(procs', rank, orphans + kids - {c}) && Reaped(procs, c, more) && Survives(procs, more, procs', {})
    ensures Working(procs0, procs', rank, orphans, p, gone + more, kids - {c}) && |procs'| <= |procs|
  {
    hide Forest, Reaping, Reaped;
    WorkHas(procs0, procs, rank, orphans, p, gone, kids, c);
    ReapChild(procs0, p, gone, kids, procs, c, more, procs');
    assert orphans + kids - {c} == orphans + (kids - {c});
    Fits(procs'.Keys, procs.Keys);
    assert forall d :: d in kids - {c} ==> d !in more;
  }

  lemma WorkAdopts(procs0: Procs, procs: Procs, rank: map<nat, nat>, orphans: set<nat>, p: nat, gone: set<nat>, kids: set<nat>, c: nat, procs': Procs)
    requires Working(procs0, procs, rank, orphans, p, gone, kids) && c in kids && c in procs && INIT in procs && !procs[c].zombie
    requires procs' == Adopted(procs, c)
    ensures Working(procs0, procs', rank, orphans, p, gone, kids - {c}) && |procs'| == |procs|
  {
    WorkHas(procs0, procs, rank, orphans, p, gone, kids, c);
    assert procs'.Keys == procs.Keys;
    AdoptChild(procs0, p, gone, kids, procs, c, procs');
    AdoptedForest(procs, rank, orphans + kids, c);
    assert orphans + kids - {c} == orphans + (kids - {c});
    assert |procs'.Keys| == |procs.Keys|;
  }

  lemma WorkEnds(procs0: Procs, procs: Procs, rank: map<nat, nat>, orphans: set<nat>, p: nat, gone: set<nat>, kids: set<nat>)
    requires Working(procs0, procs, rank, orphans, p, gone, kids) && kids == {}
    ensures Forest(procs, rank, orphans) && Reaped(procs0, p, gone) && Survives(procs0, gone, procs, {})
  {
    hide Forest;
    assert orphans + kids == orphans;
  }

  lemma NotOwnParent(procs: Procs, rank: map<nat, nat>, orphans: set<nat>, p: nat)
    requires Forest(procs, rank, orphans) && p in procs && p != INIT
    ensures procs[p].ppid != p && Kids(procs) && NoDup(procs[p].children) && INIT in procs
  {
  }

  lemma Smaller(a: set<nat>, b: set<nat>)
    requires a < b
    ensures |a| < |b|
  {
    var x :| x in b && x !in a;
    assert a <= b - {x};
    Fits(a, b - {x});
  }

  lemma {:induction false} Fits(a: set<nat>, b: set<nat>)
    requires a <= b
    ensures |a| <= |b|
  {
    if a != {} {
      var x :| x in a;
      Fits(a - {x}, b - {x});
    }
  }

  lemma Erased(procs: Procs, p: nat, ppid: nat, i: nat, procs': Procs)
    requires p in procs && ppid in procs && ppid != p && Kids(procs) && procs[p].ppid == ppid && i < |procs[ppid].children| && procs[ppid].children[i] == p
    requires procs' == (procs - {p})[ppid := procs[ppid].(children := procs[ppid].children[..i] + procs[ppid].children[i + 1..])]
    ensures Unlinks(procs, p, procs')
  {
    var kids := procs[ppid].children;
    assert NoDup(procs'[ppid].children);
    forall q, c
      ensures ChildOf(procs', q, c) <==> ChildOf(procs, q, c) && q != p && c != p
    {
      if q == ppid {
        assert c in kids && c != p ==> c in kids[..i] + kids[i + 1..];
      }
      assert ChildOf(procs, q, p) ==> procs[p].ppid == q;
    }
  }

  lemma NotListed(procs: Procs, p: nat, procs': Procs)
    requires p in procs && Kids(procs) && procs' == procs - {p} && procs[p].ppid != p
    requires procs[p].ppid in procs' ==> p !in procs[procs[p].ppid].children
    ensures Unlinks(procs, p, procs')
  {
    forall q, c
      ensures ChildOf(procs', q, c) <==> ChildOf(procs, q, c) && q != p && c != p
    {
      assert c == p && ChildOf(procs, q, p) ==> procs[p].ppid == q;
    }
  }

  lemma SameLinks(procs: Procs, rank: map<nat, nat>, procs': Procs)
    requires Forest(procs, rank, {}) && procs'.Keys == procs.Keys
    requires forall q :: q in procs ==> procs'[q].ppid == procs[q].ppid && procs'[q].children == procs[q].children
    ensures Forest(procs', rank, {})
  {
    assert forall a, d {:trigger ChildOf(procs', a, d)} :: ChildOf(procs', a, d) <==> ChildOf(procs, a, d);
  }

  lemma Grown(procs: Procs, rank: map<nat, nat>, pid: nat, ppid: nat, procs': Procs, rank': map<nat, nat>)
    requires Forest(procs, rank, {}) && pid !in procs && ppid in procs
    requires procs' == procs[ppid := procs[ppid].(children := procs[ppid].children + [pid])][pid := Pcb(ppid, [], false)]
    requires rank' == rank[pid := rank[ppid] + 1]
    ensures Forest(procs', rank', {})
  {
    hide Ranked, NoDup;
    assert !ChildOf(procs, ppid, pid);
    assert forall q :: q in procs && q != INIT ==> ChildOf(procs, procs[q].ppid, q);
    GrownLinks(procs, pid, ppid, procs');
    GrownRanks(procs, rank, pid, ppid, procs', rank');
    GrownKids(procs, pid, ppid, procs');
  }

  lemma GrownKids(procs: Procs, pid: nat, ppid: nat, procs': Procs)
    requires Kids(procs) && Parents(procs, {}) && pid !in procs && ppid in procs
    requires procs'.Keys == procs.Keys + {pid} && procs'[pid].ppid == ppid
    requires forall q :: q in procs ==> procs'[q].ppid == procs[q].ppid
    requires forall a :: a in procs' ==> NoDup(procs'[a].children)
    requires forall a, d {:trigger ChildOf(procs', a, d)} {:trigger ChildOf(procs, a, d)} ::
               ChildOf(procs', a, d) <==> ChildOf(procs, a, d) || (a == ppid && d == pid)
    ensures Kids(procs') && Parents(procs', {})
  {
    hide ChildOf, NoDup;
  }

  lemma GrownRanks(procs: Procs, rank: map<nat, nat>, pid: nat, ppid: nat, procs': Procs, rank': map<nat, nat>)
    requires Ranked(procs, rank) && INIT in procs && pid !in procs && ppid in procs && procs'.Keys == procs.Keys + {pid} && procs'[pid].ppid == ppid
    requires forall q :: q in procs && q != INIT ==> procs[q].ppid in procs
    requires forall q :: q in procs ==> procs'[q].ppid == procs[q].ppid
    requires rank' == rank[pid := rank[ppid] + 1]
    ensures Ranked(procs', rank')
  {
  }

  lemma GrownLinks(procs: Procs, pid: nat, ppid: nat, procs': Procs)
    requires pid !in procs && ppid in procs && pid !in procs[ppid].children && forall a :: a in procs ==> NoDup(procs[a].children)
    requires procs' == procs[ppid := procs[ppid].(children := procs[ppid].children + [pid])][pid := Pcb(ppid, [], false)]
    ensures procs'.Keys == procs.Keys + {pid} && procs'[pid].ppid == ppid
    ensures forall q :: q in procs ==> procs'[q].ppid == procs[q].ppid
    ensures forall a :: a in procs' ==> NoDup(procs'[a].children)
    ensures forall a, d {:trigger ChildOf(procs', a, d)} {:trigger ChildOf(procs, a, d)} ::
              ChildOf(procs', a, d) <==> ChildOf(procs, a, d) || (a == ppid && d == pid)
  {
  }

  // ---------------------------------------------------------------------------
  // What every table is like
  // ---------------------------------------------------------------------------

  /** The process `k` parents up from `q`, or init on the way there. */
  ghost function Ancestor(procs: Procs, q: nat, k: nat): nat
    decreases k
  {
    if k == 0 || q == INIT || q !in procs then q else Ancestor(procs, procs[q].ppid, k - 1)
  }

  /** Every process comes down from init. */
  lemma {:induction false} ReachesInit(procs: Procs, rank: map<nat, nat>, q: nat) returns (k: nat)
    requires Forest(procs, rank, {}) && q in procs
    ensures Ancestor(procs, q, k) == INIT
    decreases rank[q]
  {
    if q == INIT {
      k := 0;
    } else {
      assert ChildOf(procs, procs[q].ppid, q);
      k := ReachesInit(procs, rank, procs[q].ppid);
      k := k + 1;
    }
  }

  /** Every process but init is listed once, among the children of its live parent, and nowhere else. */
  lemma ListedOnce(procs: Procs, rank: map<nat, nat>, q: nat) returns (i: nat)
    requires Forest(procs, rank, {}) && q in procs && q != INIT
    ensures procs[q].ppid in procs && i < |procs[procs[q].ppid].children| && procs[procs[q].ppid].children[i] == q
    ensures forall a, j :: a in procs && 0 <= j < |procs[a].children| && procs[a].children[j] == q ==> a == procs[q].ppid && j == i
  {
    assert ChildOf(procs, procs[q].ppid, q);
    i :| 0 <= i < |procs[procs[q].ppid].children| && procs[procs[q].ppid].children[i] == q;
    forall a, j | a in procs && 0 <= j < |procs[a].children| && procs[a].children[j] == q
      ensures a == procs[q].ppid && j == i
    {
      assert ChildOf(procs, a, q);
    }
  }

  // ---------------------------------------------------------------------------
  // Runs
  // ---------------------------------------------------------------------------

  datatype Op = Spawn(pid: nat, ppid: nat) | Kill(p: nat) | Reap(p: nat)

  datatype Snap = Snap(procs: Procs, rank: map<nat, nat>)

  /** What an operation does; where it does not apply, nothing. */
  ghost predicate Step(procs: Procs, op: Op, procs': Procs) {
    match op
    case Spawn(pid, ppid) =>
      if pid !in procs && ppid in procs then
        procs' == procs[ppid := procs[ppid].(children := procs[ppid].children + [pid])][pid := Pcb(ppid, [], false)]
      else procs' == procs
    case Kill(p) => procs' == if p in procs then procs[p := procs[p].(zombie := true)] else procs
    case Reap(p) =>
      if p in procs && p != INIT then exists gone :: Reaped(procs, p, gone) && Survives(procs, gone, procs', {}) else procs' == procs
  }

  ghost predicate Trace(states: seq<Snap>, ops: seq<Op>) {
    && |states| == |ops| + 1
    && (forall i :: 0 <= i <= |ops| ==> Forest(states[i].procs, states[i].rank, {}))
    && (forall i :: 0 <= i < |ops| ==> Step(states[i].procs, ops[i], states[i + 1].procs))
  }

  method Perform(t: ProcessTable, op: Op)
    requires t.Valid()
    modifies t`procs, t`rank
    ensures t.Valid() && Step(old(t.procs), op, t.procs)
  {
    hide Forest, Reaped, Survives;
    match op
    case Spawn(pid, ppid) =>
      if pid !in t.procs && ppid in t.procs {
        t.Create(pid, ppid);
        assert t.procs == old(t.procs)[ppid := old(t.procs)[ppid].(children := old(t.procs)[ppid].children + [pid])][pid := Pcb(ppid, [], false)];
      }
    case Kill(p) =>
      if p in t.procs {
        t.Die(p);
      }
    case Reap(p) =>
      if p in t.procs && p != INIT {
        ghost var gone := t.Destroy(p, {});
        assert {} - {p} == {};
      }
  }

  /** After every step of every run the processes are a tree below init. */
  method RunAll(t: ProcessTable, ops: seq<Op>) returns (ghost states: seq<Snap>)
    requires t.Valid()
    modifies t`procs, t`rank
    ensures t.Valid() && Trace(states, ops) && states[0].procs == old(t.procs) && states[|ops|].procs == t.procs
  {
    hide Forest, Step;
    states := [Snap(t.procs, t.rank)];
    for k := 0 to |ops|
      invariant t.Valid() && Trace(states, ops[..k]) && states[0].procs == old(t.procs) && states[k].procs == t.procs
    {
      Perform(t, ops[k]);
      states := states + [Snap(t.procs, t.rank)];
    }
    assert ops[..|ops|] == ops;
  }
}

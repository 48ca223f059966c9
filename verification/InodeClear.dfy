/** What `clear_blocks_of_inode` has freed so far, as a prefix of the tree. */
module InodeClear {
  import opened Arithmetic
  import opened InodePath
  import opened InodeTree

  /** Live in a prefix of `r` blocks of a file that uses pointer blocks. */
  ghost predicate LiveP(s: nat, r: nat, x: Node)
    requires 0 < s
  {
    LiveAt(s, Path(s, r), true, x)
  }

  /** What the prefix gains with its next block. */
  ghost predicate IsNewP(s: nat, r: nat, x: Node)
    requires 0 < s
  {
    var p := Path(s, r);
    || x == NodeAt(p)
    || (p.level == 2 && p.c == 0 && (x == P2S(p.b) || (p.b == 0 && x == P2)))
    || (p.level == 3 && p.c == 0 && (x == P3S(p.a, p.b) || (p.b == 0 && (x == P3D(p.a) || (p.a == 0 && x == P3)))))
  }

  lemma LivePSucc(s: nat, r: nat, x: Node)
    requires 4 <= s && r < Capacity(s)
    ensures LiveP(s, r + 1, x) <==> LiveP(s, r, x) || IsNewP(s, r, x)
  {
    hide Path, Capacity;
    PathInRange(s, r);
    PathInRange(s, r + 1);
    PathSucc(s, r);
    LastPos(s, r);
  }

  /** Node `x` is not one of the first blocks, which the caller keeps. */
  ghost predicate Freeable(skip: nat, x: Node) {
    !(x.N0? && x.i < skip)
  }

  /** Exactly the nodes of the first `r` blocks of file `id`, and those in `extra`, are in `freed`. */
  ghost predicate FreedTo(s: nat, owner: map<nat, Owner>, id: nat, skip: nat, freed: set<nat>, r: nat, extra: set<Node>)
    requires 0 < s
  {
    forall b {:trigger b in freed} :: b in freed <==>
      (&& b in owner && owner[b].Tree? && owner[b].id == id && Freeable(skip, owner[b].node)
       && (LiveP(s, r, owner[b].node) || owner[b].node in extra))
  }

  lemma FreeNode(s: nat, disk: Disk, inodes: Inodes, owner: map<nat, Owner>, id: nat, skip: nat, freed: set<nat>, r: nat, extra: set<Node>,
                 x: Node, b: nat)
    requires 0 < s && FreedTo(s, owner, id, skip, freed, r, extra) && Exact(s, disk, inodes, owner)
    requires id in inodes && b in owner && owner[b] == Tree(id, x) && Freeable(skip, x)
    ensures FreedTo(s, owner, id, skip, freed + {b}, r, extra + {x})
  {
    hide LiveP, Live, Addr, Freeable;
    forall c | c in owner && owner[c] == Tree(id, x)
      ensures c == b
    {
      assert Addr(disk, inodes[id], x) == c;
    }
  }

  lemma FreeMerge(s: nat, owner: map<nat, Owner>, id: nat, skip: nat, freed: set<nat>, r: nat, extra: set<Node>)
    requires 4 <= s && r < Capacity(s) && FreedTo(s, owner, id, skip, freed, r, extra)
    requires forall x :: x in extra <==> IsNewP(s, r, x)
    ensures FreedTo(s, owner, id, skip, freed, r + 1, {})
  {
    hide LiveP, IsNewP, Freeable, Capacity;
    forall b | b in owner && owner[b].Tree?
      ensures LiveP(s, r + 1, owner[b].node) <==> LiveP(s, r, owner[b].node) || owner[b].node in extra
    {
      LivePSucc(s, r, owner[b].node);
    }
  }

  /** Everything but the kept block of file `id` given up: the invariant for a file of `keep` blocks. */
  lemma ClearInv(s: nat, total: nat, first: nat, disk: Disk, bits: seq<bool>, inodes: Inodes, owner: map<nat, Owner>,
                 id: nat, keep: nat, ino': Inode, gone: set<nat>, bits': seq<bool>)
    requires Inv(s, total, first, disk, bits, inodes, owner) && id in inodes
    requires keep <= DIRECT && keep <= inodes[id].count && ino' == inodes[id].(count := keep)
    requires forall b :: b in gone <==> b in owner && owner[b].Tree? && owner[b].id == id && Freeable(keep, owner[b].node)
    requires Cleared(bits, bits', gone)
    ensures Inv(s, total, first, disk, bits', inodes[id := ino'], owner - gone)
    ensures Blocks(s, disk, ino') == Blocks(s, disk, inodes[id])[..keep]
  {
    var inodes', owner' := inodes[id := ino'], owner - gone;
    SmallPaths(s, keep);
    SmallPaths(s, inodes[id].count);
    assert forall x :: Live(s, keep, x) <==> !Freeable(keep, x);
    assert forall i: nat {:trigger N0(i)} :: i < keep ==> Live(s, inodes[id].count, N0(i)) && Addr(disk, ino', N0(i)) == Addr(disk, inodes[id], N0(i));
    forall i: nat | i < keep
      ensures DataNode(s, i) == N0(i)
    {
      SmallPaths(s, i);
    }
    forall j: nat, x | LiveIn(s, inodes', j, x)
      ensures Addr(disk, inodes'[j], x) in owner' && owner'[Addr(disk, inodes'[j], x)] == Tree(j, x)
    {
      assert LiveIn(s, inodes, j, x);
    }
    forall b | b in owner' && owner'[b].Tree?
      ensures LiveIn(s, inodes', owner'[b].id, owner'[b].node) && Addr(disk, inodes'[owner'[b].id], owner'[b].node) == b
    {
      assert LiveIn(s, inodes, owner[b].id, owner[b].node);
    }
  }

  /** Freeing data block `x`, the last of the new nodes at position `r`. */
  lemma FreeData(s: nat, disk: Disk, inodes: Inodes, owner: map<nat, Owner>, id: nat, skip: nat, freed: set<nat>, r: nat, extra: set<Node>, b: nat)
    requires 4 <= s && r < Capacity(s) && FreedTo(s, owner, id, skip, freed, r, extra) && Exact(s, disk, inodes, owner)
    requires id in inodes && b in owner && owner[b] == Tree(id, DataNode(s, r)) && Freeable(skip, DataNode(s, r))
    requires Completes(s, r, extra)
    ensures FreedTo(s, owner, id, skip, freed + {b}, r + 1, {})
  {
    hide FreedTo, Exact, IsNewP, Freeable, Capacity, DataNode;
    FreeNode(s, disk, inodes, owner, id, skip, freed, r, extra, DataNode(s, r), b);
    FreeMerge(s, owner, id, skip, freed + {b}, r, extra + {DataNode(s, r)});
  }

  /** The block under pointer `Parent(DataNode(s, r))` at index `c`, for a position past the direct blocks. */
  lemma DataUnder(s: nat, disk: Disk, ino: Inode, r: nat)
    requires 4 <= s && r < ino.count <= Capacity(s) && SLOTS < ino.count && 1 <= Path(s, r).level <= 3
    ensures var x := DataNode(s, r);
            && HasParent(ino.count, x) && Index(x) == Path(s, r).c < s
            && Live(s, ino.count, x) && Live(s, ino.count, Parent(x))
            && Addr(disk, ino, x) == Word(disk, Addr(disk, ino, Parent(x)), Path(s, r).c)
            && !x.N0?
  {
    hide Live, Path, Capacity;
    DataLive(s, ino.count, r);
    ParentLive(s, ino.count, DataNode(s, r));
  }

  /** With the data block at position `r`, the nodes in `extra` are the new ones. */
  ghost predicate Completes(s: nat, r: nat, extra: set<Node>)
    requires 0 < s
  {
    forall x :: x in extra + {DataNode(s, r)} <==> IsNewP(s, r, x)
  }

  /** ...likewise with the pointer block above the data block. */
  ghost predicate Completes2(s: nat, r: nat, extra: set<Node>)
    requires 0 < s
  {
    Completes(s, r, extra + {Parent(DataNode(s, r))})
  }

  /** ...and with the double pointer above that. */
  ghost predicate Completes3(s: nat, r: nat, extra: set<Node>)
    requires 0 < s
  {
    Completes2(s, r, extra + {Parent(Parent(DataNode(s, r)))})
  }

  /** Away from index 0 of a pointer block, a data block is the only new node; likewise one and two levels up. */
  lemma NewAlone(s: nat, r: nat)
    requires 0 < s && 1 <= Path(s, r).level <= 3
    ensures Path(s, r).level == 1 || 0 < Path(s, r).c ==> Completes(s, r, {})
    ensures 2 <= Path(s, r).level && Path(s, r).c == 0 && 0 < Path(s, r).b ==> Completes2(s, r, {})
    ensures Path(s, r).level == 2 && Path(s, r).c == 0 && 0 == Path(s, r).b ==> Completes2(s, r, {P2})
    ensures Path(s, r).level == 3 && Path(s, r).c == 0 && 0 == Path(s, r).b && 0 < Path(s, r).a ==> Completes3(s, r, {})
    ensures Path(s, r).level == 3 && Path(s, r).c == 0 && 0 == Path(s, r).b && 0 == Path(s, r).a ==> Completes3(s, r, {P3})
  {
    hide Path;
  }

  lemma SingleUnder(s: nat, disk: Disk, ino: Inode, r: nat)
    requires 4 <= s && r < ino.count <= Capacity(s) && SLOTS < ino.count && 2 <= Path(s, r).level <= 3
    ensures var x := Parent(DataNode(s, r));
            && HasParent(ino.count, x) && Index(x) == Path(s, r).b < s
            && Live(s, ino.count, x) && Live(s, ino.count, Parent(x))
            && Addr(disk, ino, x) == Word(disk, Addr(disk, ino, Parent(x)), Path(s, r).b)
  {
    hide Live, Path, Capacity;
    DataUnder(s, disk, ino, r);
    ParentLive(s, ino.count, Parent(DataNode(s, r)));
  }

  lemma DoubleUnder(s: nat, disk: Disk, ino: Inode, r: nat)
    requires 4 <= s && r < ino.count <= Capacity(s) && SLOTS < ino.count && Path(s, r).level == 3
    ensures var x := Parent(Parent(DataNode(s, r)));
            && HasParent(ino.count, x) && Index(x) == Path(s, r).a < s
            && Live(s, ino.count, x) && Live(s, ino.count, P3) && Parent(x) == P3
            && Addr(disk, ino, x) == Word(disk, Addr(disk, ino, P3), Path(s, r).a)
  {
    hide Live, Path, Capacity;
    SingleUnder(s, disk, ino, r);
    ParentLive(s, ino.count, Parent(Parent(DataNode(s, r))));
  }

  /** Positions under one pointer block share it; likewise one level up. */
  lemma SameParent(s: nat, r: nat, r': nat)
    requires 0 < s && 1 <= Path(s, r).level <= 3
    ensures Path(s, r') == Path(s, r).(c := Path(s, r').c) ==> Parent(DataNode(s, r')) == Parent(DataNode(s, r))
    ensures 2 <= Path(s, r).level && Path(s, r') == Path(s, r).(b := Path(s, r').b, c := Path(s, r').c) ==>
              Parent(Parent(DataNode(s, r'))) == Parent(Parent(DataNode(s, r)))
  {
    hide Path;
  }

  /** Exactly the blocks held by slots `skip` to `cur` of the inode are in `freed`. */
  ghost predicate DirectFreed(owner: map<nat, Owner>, id: nat, skip: nat, freed: set<nat>, cur: nat) {
    forall b {:trigger b in freed} :: b in freed <==>
      (&& b in owner && owner[b].Tree? && owner[b].id == id
       && (owner[b].node.N0? || owner[b].node.N1?) && skip <= RootSlot(owner[b].node) < cur)
  }

  lemma DirectNext(s: nat, disk: Disk, inodes: Inodes, owner: map<nat, Owner>, id: nat, skip: nat, freed: set<nat>, cur: nat)
    requires 4 <= s && Exact(s, disk, inodes, owner) && Rooted(s, disk, inodes, owner) && DirectFreed(owner, id, skip, freed, cur)
    requires id in inodes && skip <= cur < inodes[id].count <= Capacity(s) && (cur < DIRECT || inodes[id].count <= SLOTS) && cur < |inodes[id].slots|
    ensures DirectFreed(owner, id, skip, freed + {inodes[id].slots[cur]}, cur + 1)
    ensures inodes[id].slots[cur] in owner && owner[inodes[id].slots[cur]] == Tree(id, DataNode(s, cur))
  {
    var x, b := DataNode(s, cur), inodes[id].slots[cur];
    DataLive(s, inodes[id].count, cur);
    SmallPaths(s, cur);
    assert LiveIn(s, inodes, id, x);
    assert Addr(disk, inodes[id], x) == b && (x.N0? || x.N1?) && RootSlot(x) == cur;
    forall c | c in owner && owner[c].Tree? && owner[c].id == id && (owner[c].node.N0? || owner[c].node.N1?) && RootSlot(owner[c].node) == cur
      ensures c == b
    {
      assert LiveIn(s, inodes, id, owner[c].node) && Addr(disk, inodes[id], owner[c].node) == c;
      assert owner[c].node == x;
    }
  }

  /** The direct blocks and the single pointer are the prefix of 12 blocks of a large file. */
  lemma DirectIsPrefix(s: nat, disk: Disk, inodes: Inodes, owner: map<nat, Owner>, id: nat, skip: nat, freed: set<nat>)
    requires 4 <= s && Exact(s, disk, inodes, owner) && Rooted(s, disk, inodes, owner) && DirectFreed(owner, id, skip, freed, DIRECT) && skip <= DIRECT
    requires id in inodes && SLOTS < inodes[id].count <= Capacity(s) && |inodes[id].slots| == SLOTS
    ensures FreedTo(s, owner, id, skip, freed + {inodes[id].slots[12]}, DIRECT, {})
  {
    var single := inodes[id].slots[12];
    SmallPaths(s, DIRECT);
    assert LiveIn(s, inodes, id, P1) && Addr(disk, inodes[id], P1) == single;
    forall b | b in owner && owner[b].Tree? && owner[b].id == id
      ensures b in freed + {single} <==> Freeable(skip, owner[b].node) && LiveP(s, DIRECT, owner[b].node)
    {
      assert LiveIn(s, inodes, id, owner[b].node) && Addr(disk, inodes[id], owner[b].node) == b;
    }
  }

  /** In a file of at most 15 blocks the slots are the whole tree. */
  lemma DirectIsAll(s: nat, disk: Disk, inodes: Inodes, owner: map<nat, Owner>, id: nat, skip: nat, freed: set<nat>)
    requires 4 <= s && Exact(s, disk, inodes, owner)
    requires id in inodes && skip <= DIRECT && skip <= inodes[id].count <= SLOTS && DirectFreed(owner, id, skip, freed, inodes[id].count)
    ensures forall b :: b in freed <==> b in owner && owner[b].Tree? && owner[b].id == id && Freeable(skip, owner[b].node)
  {
    hide Path;
    SmallPaths(s, inodes[id].count);
    forall b | b in owner && owner[b].Tree? && owner[b].id == id
      ensures b in freed <==> Freeable(skip, owner[b].node)
    {
      assert LiveIn(s, inodes, id, owner[b].node);
    }
  }

  /** The prefix of all blocks is the whole tree. */
  lemma PrefixIsAll(s: nat, disk: Disk, inodes: Inodes, owner: map<nat, Owner>, id: nat, skip: nat, freed: set<nat>)
    requires 4 <= s && Exact(s, disk, inodes, owner) && id in inodes && SLOTS < inodes[id].count
    requires FreedTo(s, owner, id, skip, freed, inodes[id].count, {})
    ensures forall b :: b in freed <==> b in owner && owner[b].Tree? && owner[b].id == id && Freeable(skip, owner[b].node)
  {
    hide Path, Addr, Freeable;
    forall b | b in owner && owner[b].Tree? && owner[b].id == id
      ensures LiveP(s, inodes[id].count, owner[b].node)
    {
      assert LiveIn(s, inodes, id, owner[b].node);
    }
  }
}

/** The inode pointer trees and the block bitmap of a file system, as values.

`disk` gives the block numbers held by each block, `bits` the block bitmap, and the ghost map `owner` says for
every allocated block what it is for.  The invariant ties the three together: the bitmap is exactly the metadata,
the trees and the leaked blocks, and no block has two uses. */
module InodeTree {
  import opened Arithmetic
  import opened InodePath

  datatype Inode = Inode(count: nat, slots: seq<nat>)

  /** `Leak`: marked in the bitmap but in no tree. */
  datatype Owner = Meta | Leak | Tree(id: nat, node: Node)

  type Disk = seq<seq<nat>>
  type Inodes = map<nat, Inode>

  function Word(disk: Disk, b: nat, i: nat): nat {
    if b < |disk| && i < |disk[b]| then disk[b][i] else 0
  }

  /** `disk` with word `k` of block `b` replaced. */
  function Put(disk: Disk, b: nat, k: nat, v: nat): Disk
    requires b < |disk| && k < |disk[b]|
  {
    var block: seq<nat> := disk[b][k := v];
    disk[b := block]
  }

  function Slot(ino: Inode, k: nat): nat {
    if k < |ino.slots| then ino.slots[k] else 0
  }

  // ---------------------------------------------------------------------------
  // Addresses
  // ---------------------------------------------------------------------------

  /** The inode slot that holds a node with no pointer block above it. */
  ghost function RootSlot(x: Node): nat {
    match x
    case N0(i) => i
    case N1(c) => DIRECT + c
    case P2 => 13
    case P3 => 14
    case _ => 12
  }

  ghost predicate HasParent(n: nat, x: Node) {
    match x
    case N0(_) => false
    case P1 => false
    case P2 => false
    case P3 => false
    case N1(_) => SLOTS < n
    case _ => true
  }

  ghost function Parent(x: Node): Node {
    match x
    case P2S(_) => P2
    case N2(b, _) => P2S(b)
    case P3D(_) => P3
    case P3S(a, _) => P3D(a)
    case N3(a, b, _) => P3S(a, b)
    case _ => P1
  }

  ghost function Index(x: Node): nat {
    match x
    case N1(c) => c
    case P2S(b) => b
    case N2(_, c) => c
    case P3D(a) => a
    case P3S(_, b) => b
    case N3(_, _, c) => c
    case _ => 0
  }

  ghost function Depth(x: Node): nat {
    match x
    case N1(_) => 1
    case P2S(_) => 1
    case N2(_, _) => 2
    case P3D(_) => 1
    case P3S(_, _) => 2
    case N3(_, _, _) => 3
    case _ => 0
  }

  /** The block number of a node. */
  ghost function Addr(disk: Disk, ino: Inode, x: Node): nat
    decreases Depth(x)
  {
    if HasParent(ino.count, x) then Word(disk, Addr(disk, ino, Parent(x)), Index(x)) else Slot(ino, RootSlot(x))
  }

  lemma ParentLive(s: nat, n: nat, x: Node)
    requires 4 <= s && n <= Capacity(s) && Live(s, n, x) && HasParent(n, x)
    ensures Live(s, n, Parent(x)) && Index(x) < s
  {
    hide Path, Capacity;
    PathInRange(s, n);
    SmallPaths(s, n);
  }

  /** A child is determined by its parent and its index. */
  lemma ChildUnique(n: nat, x: Node, y: Node)
    requires HasParent(n, x) && HasParent(n, y) && Parent(x) == Parent(y) && Index(x) == Index(y)
    ensures x == y
  {
  }

  // ---------------------------------------------------------------------------
  // The invariant
  // ---------------------------------------------------------------------------

  ghost predicate LiveIn(s: nat, inodes: Inodes, id: nat, x: Node)
    requires 0 < s
  {
    id in inodes && Live(s, inodes[id].count, x)
  }

  ghost predicate Sizes(s: nat, total: nat, first: nat, disk: Disk, bits: seq<bool>, inodes: Inodes) {
    && 4 <= s && 0 < first < total && |disk| == total && |bits| == total
    && (forall b :: 0 <= b < total ==> |disk[b]| == s)
    && (forall id :: id in inodes ==> |inodes[id].slots| == SLOTS && inodes[id].count <= Capacity(s))
  }

  /** The bitmap is exactly the owned blocks; the blocks before `first` are metadata. */
  ghost predicate Marked(total: nat, first: nat, bits: seq<bool>, owner: map<nat, Owner>) {
    && |bits| == total
    && (forall b :: b in owner ==> b < total && bits[b])
    && (forall b :: 0 <= b < total && bits[b] ==> b in owner)
    && (forall b :: b in owner ==> (owner[b] == Meta <==> b < first))
    && (forall b :: 0 <= b < first ==> b in owner)
  }

  /** Each node of each tree is the owner of its block... */
  ghost predicate Rooted(s: nat, disk: Disk, inodes: Inodes, owner: map<nat, Owner>)
    requires 0 < s
  {
    forall id, x {:trigger LiveIn(s, inodes, id, x)} :: LiveIn(s, inodes, id, x) ==>
      Addr(disk, inodes[id], x) in owner && owner[Addr(disk, inodes[id], x)] == Tree(id, x)
  }

  /** ...and each block owned by a tree is at that node. */
  ghost predicate Exact(s: nat, disk: Disk, inodes: Inodes, owner: map<nat, Owner>)
    requires 0 < s
  {
    forall b :: b in owner && owner[b].Tree? ==>
      LiveIn(s, inodes, owner[b].id, owner[b].node) && Addr(disk, inodes[owner[b].id], owner[b].node) == b
  }

  ghost predicate Inv(s: nat, total: nat, first: nat, disk: Disk, bits: seq<bool>, inodes: Inodes, owner: map<nat, Owner>) {
    && Sizes(s, total, first, disk, bits, inodes)
    && Marked(total, first, bits, owner)
    && Rooted(s, disk, inodes, owner)
    && Exact(s, disk, inodes, owner)
  }

  /** The blocks of a file, as append and remove decode them. */
  ghost function Blocks(s: nat, disk: Disk, ino: Inode): seq<nat>
    requires 0 < s
  {
    seq(ino.count, i requires 0 <= i => Addr(disk, ino, DataNode(s, i)))
  }

  // ---------------------------------------------------------------------------
  // Writes that move nothing
  // ---------------------------------------------------------------------------

  /** No block of a tree changed, except word `k` of block `p`. */
  ghost predicate Untouched(disk: Disk, disk': Disk, owner: map<nat, Owner>, p: nat, k: nat) {
    forall b, i {:trigger Word(disk', b, i)} :: b in owner && owner[b].Tree? && !(b == p && i == k) ==>
      Word(disk', b, i) == Word(disk, b, i)
  }

  /** Block `p` is not a pointer block of file `id` with a live child at index `k`. */
  ghost predicate NoChild(s: nat, inodes: Inodes, owner: map<nat, Owner>, p: nat, k: nat)
    requires 0 < s
  {
    p in owner && owner[p].Tree? ==>
      forall y :: LiveIn(s, inodes, owner[p].id, y) && HasParent(inodes[owner[p].id].count, y) && Parent(y) == owner[p].node ==>
        Index(y) != k
  }

  lemma {:induction false} AddrStable(s: nat, disk: Disk, disk': Disk, inodes: Inodes, owner: map<nat, Owner>, p: nat, k: nat,
                                      id: nat, x: Node)
    requires 4 <= s && LiveIn(s, inodes, id, x) && inodes[id].count <= Capacity(s)
    requires Rooted(s, disk, inodes, owner) && Untouched(disk, disk', owner, p, k) && NoChild(s, inodes, owner, p, k)
    ensures Addr(disk', inodes[id], x) == Addr(disk, inodes[id], x)
    decreases Depth(x)
  {
    hide Live;
    var ino := inodes[id];
    if HasParent(ino.count, x) {
      ParentLive(s, ino.count, x);
      AddrStable(s, disk, disk', inodes, owner, p, k, id, Parent(x));
      assert LiveIn(s, inodes, id, Parent(x));
      var b := Addr(disk, ino, Parent(x));
      assert b in owner && owner[b] == Tree(id, Parent(x));
      assert Word(disk', b, Index(x)) == Word(disk, b, Index(x));
    }
  }

  /** The slots of the nodes at the top of a live tree agree. */
  ghost predicate SameRoots(s: nat, ino: Inode, ino': Inode, n: nat)
    requires 0 < s
  {
    forall y {:trigger RootSlot(y)} :: Live(s, n, y) && !HasParent(n, y) ==> Slot(ino', RootSlot(y)) == Slot(ino, RootSlot(y))
  }

  lemma {:induction false} AddrSlots(s: nat, disk: Disk, ino: Inode, ino': Inode, n: nat, x: Node)
    requires 4 <= s && n <= Capacity(s) && Live(s, n, x)
    requires (SLOTS < ino.count <==> SLOTS < n) && (SLOTS < ino'.count <==> SLOTS < n) && SameRoots(s, ino, ino', n)
    ensures Addr(disk, ino', x) == Addr(disk, ino, x)
    decreases Depth(x)
  {
    hide Live;
    if HasParent(n, x) {
      ParentLive(s, n, x);
      AddrSlots(s, disk, ino, ino', n, Parent(x));
    }
  }

  // ---------------------------------------------------------------------------
  // Growing and shrinking a tree by one block
  // ---------------------------------------------------------------------------

  /** The new nodes of file `id` are at blocks that `links` lists, and it lists nothing else. */
  ghost predicate Places(s: nat, n: nat, disk': Disk, ino': Inode, id: nat, links: map<nat, Owner>)
    requires 0 < s
  {
    && (forall x {:trigger IsNew(s, n, x)} :: IsNew(s, n, x) ==>
          Addr(disk', ino', x) in links && links[Addr(disk', ino', x)] == Tree(id, x))
    && (forall b :: b in links ==>
          links[b].Tree? && links[b].id == id && IsNew(s, n, links[b].node) && Addr(disk', ino', links[b].node) == b)
  }

  /** No node that was live before moved. */
  ghost predicate Stays(s: nat, disk: Disk, inodes: Inodes, disk': Disk, inodes': Inodes)
    requires 0 < s
  {
    forall id, x {:trigger LiveIn(s, inodes, id, x)} :: LiveIn(s, inodes, id, x) && id in inodes' ==>
      Addr(disk', inodes'[id], x) == Addr(disk, inodes[id], x)
  }

  ghost predicate IsPointer(x: Node) {
    x.P1? || x.P2? || x.P2S? || x.P3? || x.P3D? || x.P3S?
  }

  /** Of the blocks that were in use, only pointer blocks of file `id` are written: the data of all files, and all of the
      other files, are left alone. */
  ghost predicate WritesOnly(disk: Disk, disk': Disk, owner: map<nat, Owner>, id: nat) {
    && |disk'| == |disk|
    && forall c :: 0 <= c < |disk| && c in owner && !(owner[c].Tree? && owner[c].id == id && IsPointer(owner[c].node)) ==> disk'[c] == disk[c]
  }

  /** The entry that led to the block after the last one, or to the topmost pointer block that went with it, is zero. */
  ghost predicate Wiped(s: nat, disk: Disk, ino: Inode)
    requires 0 < s
  {
    |ino.slots| == SLOTS &&
    var n, p, slots := ino.count, Path(s, ino.count), ino.slots;
    if n < SLOTS then slots[n] == 0
    else if n == SLOTS then true
    else if p.level == 1 then Word(disk, slots[12], p.c) == 0
    else if p.level == 2 then
      if p.c != 0 then Word(disk, Word(disk, slots[13], p.b), p.c) == 0
      else if p.b != 0 then Word(disk, slots[13], p.b) == 0
      else slots[13] == 0
    else
      if p.c != 0 then Word(disk, Word(disk, Word(disk, slots[14], p.a), p.b), p.c) == 0
      else if p.b != 0 then Word(disk, Word(disk, slots[14], p.a), p.b) == 0
      else if p.a != 0 then Word(disk, slots[14], p.a) == 0
      else slots[14] == 0
  }

  lemma WroteFew(disk: Disk, disk': Disk, owner: map<nat, Owner>, id: nat, written: set<nat>)
    requires |disk'| == |disk| && forall c :: 0 <= c < |disk| && c !in written ==> disk'[c] == disk[c]
    requires forall c :: c in written ==> c !in owner || (owner[c].Tree? && owner[c].id == id && IsPointer(owner[c].node))
    ensures WritesOnly(disk, disk', owner, id)
  {
  }

  /** Three blocks are written, of which the first may be a pointer block of the file, which gets a block longer. */
  lemma WroteThree(s: nat, total: nat, first: nat, disk: Disk, bits: seq<bool>, inodes: Inodes, disk': Disk, owner: map<nat, Owner>, id: nat, ino': Inode,
                   x: nat, y: nat, z: nat, dx: seq<nat>, dy: seq<nat>, dz: seq<nat>)
    requires Sizes(s, total, first, disk, bits, inodes) && id in inodes && inodes[id].count < Capacity(s)
    requires ino'.count == inodes[id].count + 1 && |ino'.slots| == SLOTS && |dx| == s && |dy| == s && |dz| == s
    requires x < |disk| && y < |disk| && z < |disk| && disk' == disk[x := dx][y := dy][z := dz] && y !in owner && z !in owner
    requires x !in owner || (owner[x].Tree? && owner[x].id == id && IsPointer(owner[x].node))
    ensures WritesOnly(disk, disk', owner, id) && Sizes(s, total, first, disk', bits, inodes[id := ino'])
  {
    hide Capacity;
  }

  lemma WritesFewer(disk: Disk, disk': Disk, owner: map<nat, Owner>, less: map<nat, Owner>, id: nat)
    requires WritesOnly(disk, disk', owner, id) && forall c :: c in less ==> c in owner && owner[c] == less[c]
    ensures WritesOnly(disk, disk', less, id)
  {
  }

  /** Linking leaked blocks as the new nodes of a file one block longer. */
  lemma GrowInv(s: nat, total: nat, first: nat, disk: Disk, bits: seq<bool>, inodes: Inodes, owner: map<nat, Owner>,
                id: nat, disk': Disk, ino': Inode, links: map<nat, Owner>)
    requires Inv(s, total, first, disk, bits, inodes, owner)
    requires id in inodes && inodes[id].count < Capacity(s) && ino'.count == inodes[id].count + 1
    requires Sizes(s, total, first, disk', bits, inodes[id := ino'])
    requires Stays(s, disk, inodes, disk', inodes[id := ino'])
    requires Places(s, inodes[id].count, disk', ino', id, links)
    requires forall b :: b in links ==> b in owner && owner[b] == Leak
    ensures Inv(s, total, first, disk', bits, inodes[id := ino'], owner + links)
  {
    hide Live, IsNew;
    var inodes', owner', n := inodes[id := ino'], owner + links, inodes[id].count;
    forall j: nat, x | LiveIn(s, inodes', j, x)
      ensures Addr(disk', inodes'[j], x) in owner' && owner'[Addr(disk', inodes'[j], x)] == Tree(j, x)
    {
      if j == id { LiveSucc(s, n, x); }
      if !(j == id && IsNew(s, n, x)) {
        assert LiveIn(s, inodes, j, x);
      }
    }
    forall b | b in owner' && owner'[b].Tree?
      ensures LiveIn(s, inodes', owner'[b].id, owner'[b].node) && Addr(disk', inodes'[owner'[b].id], owner'[b].node) == b
    {
      var x := owner'[b].node;
      if owner'[b].id == id { LiveSucc(s, n, x); }
      if b !in links {
        assert LiveIn(s, inodes, owner[b].id, x);
      }
    }
  }

  /** Unlinking the last block: its nodes give up their blocks, which `gone` lists. */
  lemma ShrinkInv(s: nat, total: nat, first: nat, disk: Disk, bits: seq<bool>, inodes: Inodes, owner: map<nat, Owner>,
                  id: nat, disk': Disk, ino': Inode, gone: set<nat>, bits': seq<bool>)
    requires Inv(s, total, first, disk, bits, inodes, owner)
    requires id in inodes && 0 < inodes[id].count && ino'.count == inodes[id].count - 1
    requires Sizes(s, total, first, disk', bits', inodes[id := ino'])
    requires forall x {:trigger Live(s, ino'.count, x)} :: Live(s, ino'.count, x) ==> Addr(disk', ino', x) == Addr(disk, inodes[id], x)
    requires Stays(s, disk, inodes - {id}, disk', inodes - {id})
    requires forall b :: b in gone <==> b in owner && owner[b].Tree? && owner[b].id == id && IsNew(s, ino'.count, owner[b].node)
    requires forall b :: 0 <= b < total ==> bits'[b] == (bits[b] && b !in gone)
    ensures Inv(s, total, first, disk', bits', inodes[id := ino'], owner - gone)
  {
    hide Live, IsNew;
    var inodes', owner', n := inodes[id := ino'], owner - gone, ino'.count;
    forall j: nat, x | LiveIn(s, inodes', j, x)
      ensures Addr(disk', inodes'[j], x) in owner' && owner'[Addr(disk', inodes'[j], x)] == Tree(j, x)
    {
      if j == id { LiveSucc(s, n, x); }
      assert LiveIn(s, inodes, j, x);
      if j != id { assert LiveIn(s, inodes - {id}, j, x); }
    }
    forall b | b in owner' && owner'[b].Tree?
      ensures LiveIn(s, inodes', owner'[b].id, owner'[b].node) && Addr(disk', inodes'[owner'[b].id], owner'[b].node) == b
    {
      var j, x := owner[b].id, owner[b].node;
      assert LiveIn(s, inodes, j, x);
      if j == id { LiveSucc(s, n, x); } else { assert LiveIn(s, inodes - {id}, j, x); }
    }
  }

  /** The logical view of a file that grew by one block. */
  lemma GrowBlocks(s: nat, disk: Disk, ino: Inode, disk': Disk, ino': Inode)
    requires 4 <= s && ino.count < Capacity(s) && ino'.count == ino.count + 1
    requires forall x {:trigger Live(s, ino.count, x)} :: Live(s, ino.count, x) ==> Addr(disk', ino', x) == Addr(disk, ino, x)
    ensures Blocks(s, disk', ino') == Blocks(s, disk, ino) + [Addr(disk', ino', DataNode(s, ino.count))]
  {
    hide Live, Addr, DataNode;
    forall i | 0 <= i < ino.count
      ensures Addr(disk', ino', DataNode(s, i)) == Addr(disk, ino, DataNode(s, i))
    {
      DataLive(s, ino.count, i);
    }
  }

  /** A block number about to be entered at a new node's place has no live child there. */
  lemma NewHasNoChild(s: nat, disk: Disk, inodes: Inodes, owner: map<nat, Owner>, id: nat, x: Node, p: nat)
    requires 4 <= s && id in inodes && inodes[id].count < Capacity(s)
    requires IsNew(s, inodes[id].count, x) && HasParent(inodes[id].count, x)
    requires p in owner && owner[p] == Tree(id, Parent(x))
    ensures NoChild(s, inodes, owner, p, Index(x))
  {
    hide Live, IsNew, Path, Capacity;
    var n := inodes[id].count;
    LiveSucc(s, n, x);
    forall y | LiveIn(s, inodes, id, y) && HasParent(n, y) && Parent(y) == Parent(x)
      ensures Index(y) != Index(x)
    {
      if Index(y) == Index(x) { ChildUnique(n, x, y); }
    }
  }

  /** An append or removal that rewrites only unlinked blocks, word `k` of `p` and dead slots moves no live
      node of any file. */
  lemma LinkStays(s: nat, disk: Disk, inodes: Inodes, owner: map<nat, Owner>, id: nat, disk': Disk, ino': Inode, p: nat, k: nat)
    requires 4 <= s && (forall j :: j in inodes ==> inodes[j].count <= Capacity(s)) && id in inodes
    requires Rooted(s, disk, inodes, owner) && Untouched(disk, disk', owner, p, k) && NoChild(s, inodes, owner, p, k)
    requires (SLOTS < ino'.count <==> SLOTS < inodes[id].count) && SameRoots(s, inodes[id], ino', inodes[id].count)
    ensures Stays(s, disk, inodes, disk', inodes[id := ino'])
  {
    hide Live, Addr, Rooted, Untouched, NoChild;
    forall j, x | LiveIn(s, inodes, j, x)
      ensures Addr(disk', inodes[id := ino'][j], x) == Addr(disk, inodes[j], x)
    {
      AddrStable(s, disk, disk', inodes, owner, p, k, j, x);
      if j == id {
        AddrSlots(s, disk', inodes[id], ino', inodes[id].count, x);
      }
    }
  }

  /** Marking a free block. */
  lemma LeakInv(s: nat, total: nat, first: nat, disk: Disk, bits: seq<bool>, inodes: Inodes, owner: map<nat, Owner>, b: nat)
    requires Inv(s, total, first, disk, bits, inodes, owner) && b < total && !bits[b]
    ensures b !in owner && first <= b
    ensures Inv(s, total, first, disk, bits[b := true], inodes, owner[b := Leak])
  {
    hide Live, Addr;
  }

  // ---------------------------------------------------------------------------
  // Append, case by case
  // ---------------------------------------------------------------------------

  /** What an append must establish: nothing moved, and the new nodes are at the blocks in `links`. */
  ghost predicate Grows(s: nat, disk: Disk, inodes: Inodes, owner: map<nat, Owner>, id: nat, b: nat,
                        disk': Disk, ino': Inode, links: map<nat, Owner>)
    requires 0 < s && id in inodes
  {
    && ino'.count == inodes[id].count + 1 && |ino'.slots| == SLOTS && |disk'| == |disk|
    && Stays(s, disk, inodes, disk', inodes[id := ino'])
    && Places(s, inodes[id].count, disk', ino', id, links)
    && Addr(disk', ino', DataNode(s, inodes[id].count)) == b
  }

  /** Up to 15 blocks: the number goes into the inode (inodes.c:576-578). */
  lemma InlineGrows(s: nat, total: nat, first: nat, disk: Disk, bits: seq<bool>, inodes: Inodes, owner: map<nat, Owner>,
                    id: nat, b: nat, ino': Inode, links: map<nat, Owner>)
    requires Inv(s, total, first, disk, bits, inodes, owner) && id in inodes && inodes[id].count < SLOTS
    requires ino' == Inode(inodes[id].count + 1, inodes[id].slots[inodes[id].count := b])
    requires links == map[b := Tree(id, DataNode(s, inodes[id].count))]
    ensures Grows(s, disk, inodes, owner, id, b, disk, ino', links)
  {
    hide Rooted, Exact, Path, Capacity;
    var n := inodes[id].count;
    SmallPaths(s, n);
    LinkStays(s, disk, inodes, owner, id, disk, ino', total, 0);
  }

  /** The 16th block: the three numbers in slots 12..14 move behind a new single pointer (inodes.c:583-593). */
  lemma PromoteGrows(s: nat, total: nat, first: nat, disk: Disk, bits: seq<bool>, inodes: Inodes, owner: map<nat, Owner>,
                     id: nat, b: nat, ptr: nat, buf: seq<nat>, disk': Disk, ino': Inode, links: map<nat, Owner>)
    requires Inv(s, total, first, disk, bits, inodes, owner) && id in inodes && inodes[id].count == SLOTS
    requires b != ptr && ptr in owner && owner[ptr] == Leak
    requires |buf| == s && buf[..4] == inodes[id].slots[12..15] + [b]
    requires disk' == disk[ptr := buf] && ino' == Inode(16, inodes[id].slots[12 := ptr])
    requires links == map[b := Tree(id, N1(3)), ptr := Tree(id, P1)]
    ensures Grows(s, disk, inodes, owner, id, b, disk', ino', links)
  {
    hide Exact, Path, Capacity;
    SmallPaths(s, SLOTS);
    assert forall c :: 0 <= c < 4 ==> buf[c] == buf[..4][c];
    forall j, x | LiveIn(s, inodes, j, x)
      ensures Addr(disk', inodes[id := ino'][j], x) == Addr(disk, inodes[j], x)
    {
      if j == id {
        assert x.N0? || (x.N1? && x.c < 3);
      } else {
        AddrStable(s, disk, disk', inodes, owner, total, 0, j, x);
      }
    }
    assert Addr(disk', ino', P1) == ptr;
    assert Addr(disk', ino', N1(3)) == b;
  }

  /** Behind an existing single pointer (inodes.c:594-604). */
  lemma SingleGrows(s: nat, total: nat, first: nat, disk: Disk, bits: seq<bool>, inodes: Inodes, owner: map<nat, Owner>,
                    id: nat, b: nat, disk': Disk, ino': Inode, links: map<nat, Owner>)
    requires Inv(s, total, first, disk, bits, inodes, owner)
    requires id in inodes && SLOTS < inodes[id].count < DIRECT + s && inodes[id].slots[12] < |disk|
    requires var p := inodes[id].slots[12]; disk' == Put(disk, p, inodes[id].count - DIRECT, b)
    requires ino' == Inode(inodes[id].count + 1, inodes[id].slots)
    requires links == map[b := Tree(id, DataNode(s, inodes[id].count))]
    ensures Grows(s, disk, inodes, owner, id, b, disk', ino', links)
  {
    hide Exact, Path;
    var n, p := inodes[id].count, inodes[id].slots[12];
    SmallPaths(s, n);
    assert LiveIn(s, inodes, id, P1) && Addr(disk, inodes[id], P1) == p;
    NewHasNoChild(s, disk, inodes, owner, id, N1(n - DIRECT), p);
    LinkStays(s, disk, inodes, owner, id, disk', ino', p, n - DIRECT);
    assert Addr(disk', ino', P1) == p;
  }

  /** Behind an existing pointer block of the double range (inodes.c:650-669). */
  lemma DoubleGrows(s: nat, total: nat, first: nat, disk: Disk, bits: seq<bool>, inodes: Inodes, owner: map<nat, Owner>,
                    id: nat, b: nat, disk': Disk, ino': Inode, links: map<nat, Owner>)
    requires Inv(s, total, first, disk, bits, inodes, owner)
    requires id in inodes && inodes[id].count < Capacity(s)
    requires ino'.count == inodes[id].count + 1 && |ino'.slots| == SLOTS && |disk'| == |disk|
    requires var p := Path(s, inodes[id].count); p.level == 2 && p.c != 0
    requires ino'.slots == inodes[id].slots
    requires var p := Path(s, inodes[id].count);
             var single := Word(disk, inodes[id].slots[13], p.b);
             && single < |disk| && p.c < |disk[single]| && disk' == Put(disk, single, p.c, b)
             && links == map[b := Tree(id, N2(p.b, p.c))]
    ensures Grows(s, disk, inodes, owner, id, b, disk', ino', links)
  {
    hide Exact, Path, Capacity;
    var n := inodes[id].count;
    var p := Path(s, n);
    PathInRange(s, n);
    SmallPaths(s, n);
    assert LiveIn(s, inodes, id, P2S(p.b)) && LiveIn(s, inodes, id, P2);
    var single := Addr(disk, inodes[id], P2S(p.b));
    assert single == Word(disk, Addr(disk, inodes[id], P2), p.b);
    NewHasNoChild(s, disk, inodes, owner, id, N2(p.b, p.c), single);
    LinkStays(s, disk, inodes, owner, id, disk', ino', single, p.c);
    assert Addr(disk', ino', P2S(p.b)) == single;
  }

  /** With a new pointer block under the existing double pointer (inodes.c:619-645). */
  lemma DoubleGrowsSingle(s: nat, total: nat, first: nat, disk: Disk, bits: seq<bool>, inodes: Inodes, owner: map<nat, Owner>,
                          id: nat, b: nat, disk': Disk, ino': Inode, links: map<nat, Owner>, single: nat, buf: seq<nat>)
    requires Inv(s, total, first, disk, bits, inodes, owner)
    requires id in inodes && inodes[id].count < Capacity(s)
    requires ino'.count == inodes[id].count + 1 && |ino'.slots| == SLOTS && |disk'| == |disk|
    requires var p := Path(s, inodes[id].count); p.level == 2 && p.c == 0 && p.b != 0
    requires ino'.slots == inodes[id].slots
    requires single in owner && owner[single] == Leak && b != single && |buf| == s && buf[0] == b
    requires var p := Path(s, inodes[id].count);
             var dbl := inodes[id].slots[13];
             && dbl < |disk| && p.b < |disk[dbl]| && single < |disk|
             && disk' == Put(disk, dbl, p.b, single)[single := buf]
             && links == map[b := Tree(id, N2(p.b, 0)), single := Tree(id, P2S(p.b))]
    ensures Grows(s, disk, inodes, owner, id, b, disk', ino', links)
  {
    hide Exact, Path, Capacity;
    var n := inodes[id].count;
    var p := Path(s, n);
    PathInRange(s, n);
    SmallPaths(s, n);
    assert LiveIn(s, inodes, id, P2);
    var dbl := Addr(disk, inodes[id], P2);
    NewHasNoChild(s, disk, inodes, owner, id, P2S(p.b), dbl);
    LinkStays(s, disk, inodes, owner, id, disk', ino', dbl, p.b);
    assert Addr(disk', ino', P2) == dbl;
    assert Addr(disk', ino', P2S(p.b)) == single;
    assert Addr(disk', ino', N2(p.b, 0)) == b;
  }

  /** With a new double pointer and a new pointer block under it (inodes.c:627-645). */
  lemma DoubleGrowsDouble(s: nat, total: nat, first: nat, disk: Disk, bits: seq<bool>, inodes: Inodes, owner: map<nat, Owner>,
                          id: nat, b: nat, disk': Disk, ino': Inode, links: map<nat, Owner>, dbl: nat, single: nat, dbuf: seq<nat>, buf: seq<nat>)
    requires Inv(s, total, first, disk, bits, inodes, owner)
    requires id in inodes && inodes[id].count < Capacity(s)
    requires ino'.count == inodes[id].count + 1 && |ino'.slots| == SLOTS && |disk'| == |disk|
    requires var p := Path(s, inodes[id].count); p.level == 2 && p.c == 0 && p.b == 0
    requires dbl in owner && owner[dbl] == Leak && single in owner && owner[single] == Leak && b != single && b != dbl && single != dbl
    requires |buf| == s && buf[0] == b && |dbuf| == s && dbuf[0] == single && dbl < |disk| && single < |disk|
    requires ino'.slots == inodes[id].slots[13 := dbl] && disk' == disk[dbl := dbuf][single := buf]
    requires links == map[b := Tree(id, N2(0, 0)), single := Tree(id, P2S(0)), dbl := Tree(id, P2)]
    ensures Grows(s, disk, inodes, owner, id, b, disk', ino', links)
  {
    hide Exact, Path, Capacity;
    var n := inodes[id].count;
    PathInRange(s, n);
    SmallPaths(s, n);
    LinkStays(s, disk, inodes, owner, id, disk', ino', total, 0);
    assert Addr(disk', ino', P2) == dbl;
    assert Addr(disk', ino', P2S(0)) == single;
    assert Addr(disk', ino', N2(0, 0)) == b;
  }

  /** Behind an existing pointer block of the triple range (inodes.c:763-797). */
  lemma TripleGrows(s: nat, total: nat, first: nat, disk: Disk, bits: seq<bool>, inodes: Inodes, owner: map<nat, Owner>,
                    id: nat, b: nat, disk': Disk, ino': Inode, links: map<nat, Owner>)
    requires Inv(s, total, first, disk, bits, inodes, owner)
    requires id in inodes && inodes[id].count < Capacity(s)
    requires ino'.count == inodes[id].count + 1 && |ino'.slots| == SLOTS && |disk'| == |disk|
    requires var p := Path(s, inodes[id].count); p.level == 3 && p.c != 0
    requires ino'.slots == inodes[id].slots
    requires var p := Path(s, inodes[id].count);
             var single := Word(disk, Word(disk, inodes[id].slots[14], p.a), p.b);
             && single < |disk| && p.c < |disk[single]| && disk' == Put(disk, single, p.c, b)
             && links == map[b := Tree(id, N3(p.a, p.b, p.c))]
    ensures Grows(s, disk, inodes, owner, id, b, disk', ino', links)
  {
    hide Exact, Path, Capacity;
    var n := inodes[id].count;
    var p := Path(s, n);
    PathInRange(s, n);
    SmallPaths(s, n);
    LastPos(s, n);
    assert LiveIn(s, inodes, id, P3S(p.a, p.b)) && LiveIn(s, inodes, id, P3D(p.a)) && LiveIn(s, inodes, id, P3);
    var dbl := Addr(disk, inodes[id], P3D(p.a));
    assert dbl == Word(disk, Addr(disk, inodes[id], P3), p.a);
    var single := Addr(disk, inodes[id], P3S(p.a, p.b));
    assert single == Word(disk, dbl, p.b);
    NewHasNoChild(s, disk, inodes, owner, id, N3(p.a, p.b, p.c), single);
    LinkStays(s, disk, inodes, owner, id, disk', ino', single, p.c);
    assert Addr(disk', ino', P3S(p.a, p.b)) == single;
  }

  /** With a new pointer block under an existing double pointer (inodes.c:687-693, 736-759). */
  lemma TripleGrowsSingle(s: nat, total: nat, first: nat, disk: Disk, bits: seq<bool>, inodes: Inodes, owner: map<nat, Owner>,
                          id: nat, b: nat, disk': Disk, ino': Inode, links: map<nat, Owner>, single: nat, buf: seq<nat>)
    requires Inv(s, total, first, disk, bits, inodes, owner)
    requires id in inodes && inodes[id].count < Capacity(s)
    requires ino'.count == inodes[id].count + 1 && |ino'.slots| == SLOTS && |disk'| == |disk|
    requires var p := Path(s, inodes[id].count); p.level == 3 && p.c == 0 && p.b != 0
    requires ino'.slots == inodes[id].slots
    requires single in owner && owner[single] == Leak && b != single && |buf| == s && buf[0] == b
    requires var p := Path(s, inodes[id].count);
             var dbl := Word(disk, inodes[id].slots[14], p.a);
             && dbl < |disk| && p.b < |disk[dbl]| && single < |disk|
             && disk' == Put(disk, dbl, p.b, single)[single := buf]
             && links == map[b := Tree(id, N3(p.a, p.b, 0)), single := Tree(id, P3S(p.a, p.b))]
    ensures Grows(s, disk, inodes, owner, id, b, disk', ino', links)
  {
    hide Exact, Path, Capacity;
    var n := inodes[id].count;
    var p := Path(s, n);
    PathInRange(s, n);
    SmallPaths(s, n);
    LastPos(s, n);
    assert LiveIn(s, inodes, id, P3D(p.a)) && LiveIn(s, inodes, id, P3);
    var dbl := Addr(disk, inodes[id], P3D(p.a));
    assert dbl == Word(disk, Addr(disk, inodes[id], P3), p.a);
    NewHasNoChild(s, disk, inodes, owner, id, P3S(p.a, p.b), dbl);
    LinkStays(s, disk, inodes, owner, id, disk', ino', dbl, p.b);
    assert Addr(disk', ino', P3D(p.a)) == dbl;
    assert Addr(disk', ino', P3S(p.a, p.b)) == single;
    assert Addr(disk', ino', N3(p.a, p.b, 0)) == b;
  }

  /** With a new double pointer under the existing triple pointer (inodes.c:697-759). */
  lemma TripleGrowsDouble(s: nat, total: nat, first: nat, disk: Disk, bits: seq<bool>, inodes: Inodes, owner: map<nat, Owner>,
                          id: nat, b: nat, disk': Disk, ino': Inode, links: map<nat, Owner>, dbl: nat, single: nat, dbuf: seq<nat>, buf: seq<nat>)
    requires Inv(s, total, first, disk, bits, inodes, owner)
    requires id in inodes && inodes[id].count < Capacity(s)
    requires ino'.count == inodes[id].count + 1 && |ino'.slots| == SLOTS && |disk'| == |disk|
    requires var p := Path(s, inodes[id].count); p.level == 3 && p.c == 0 && p.b == 0 && p.a != 0
    requires ino'.slots == inodes[id].slots
    requires dbl in owner && owner[dbl] == Leak && single in owner && owner[single] == Leak && b != single && b != dbl && single != dbl
    requires |buf| == s && buf[0] == b && |dbuf| == s && dbuf[0] == single && dbl < |disk| && single < |disk|
    requires var p := Path(s, inodes[id].count);
             var triple := inodes[id].slots[14];
             && triple < |disk| && p.a < |disk[triple]|
             && disk' == Put(disk, triple, p.a, dbl)[dbl := dbuf][single := buf]
             && links == map[b := Tree(id, N3(p.a, 0, 0)), single := Tree(id, P3S(p.a, 0)), dbl := Tree(id, P3D(p.a))]
    ensures Grows(s, disk, inodes, owner, id, b, disk', ino', links)
  {
    hide Exact, Path, Capacity;
    var n := inodes[id].count;
    var p := Path(s, n);
    PathInRange(s, n);
    SmallPaths(s, n);
    LastPos(s, n);
    assert LiveIn(s, inodes, id, P3);
    var triple := Addr(disk, inodes[id], P3);
    NewHasNoChild(s, disk, inodes, owner, id, P3D(p.a), triple);
    LinkStays(s, disk, inodes, owner, id, disk', ino', triple, p.a);
    assert Addr(disk', ino', P3) == triple;
    assert Addr(disk', ino', P3D(p.a)) == dbl;
    assert Addr(disk', ino', P3S(p.a, 0)) == single;
    assert Addr(disk', ino', N3(p.a, 0, 0)) == b;
  }

  /** With a new triple pointer and a new path under it (inodes.c:707-759). */
  lemma TripleGrowsTriple(s: nat, total: nat, first: nat, disk: Disk, bits: seq<bool>, inodes: Inodes, owner: map<nat, Owner>,
                          id: nat, b: nat, disk': Disk, ino': Inode, links: map<nat, Owner>, triple: nat, dbl: nat, single: nat, tbuf: seq<nat>, dbuf: seq<nat>, buf: seq<nat>)
    requires Inv(s, total, first, disk, bits, inodes, owner)
    requires id in inodes && inodes[id].count < Capacity(s)
    requires ino'.count == inodes[id].count + 1 && |ino'.slots| == SLOTS && |disk'| == |disk|
    requires Path(s, inodes[id].count) == Pos(3, 0, 0, 0)
    requires triple in owner && owner[triple] == Leak && dbl in owner && owner[dbl] == Leak && single in owner && owner[single] == Leak
    requires b != single && b != dbl && b != triple && single != dbl && single != triple && dbl != triple
    requires |buf| == s && buf[0] == b && |dbuf| == s && dbuf[0] == single && |tbuf| == s && tbuf[0] == dbl
    requires triple < |disk| && dbl < |disk| && single < |disk|
    requires ino'.slots == inodes[id].slots[14 := triple] && disk' == disk[triple := tbuf][dbl := dbuf][single := buf]
    requires links == map[b := Tree(id, N3(0, 0, 0)), single := Tree(id, P3S(0, 0)), dbl := Tree(id, P3D(0)), triple := Tree(id, P3)]
    ensures Grows(s, disk, inodes, owner, id, b, disk', ino', links)
  {
    hide Exact, Path, Capacity, Rooted, Marked, Stays, Addr, Places;
    var n := inodes[id].count;
    SmallPaths(s, n);
    TripleStays(s, total, first, disk, bits, inodes, owner, id, disk', ino', triple, dbl, single);
    TripleAddrs(disk', ino', triple, dbl, single);
    TriplePlaces(s, n, disk', ino', id, links, triple, dbl, single, b);
  }

  /** The addresses along the first path of the triple range. */
  lemma TripleAddrs(disk: Disk, ino: Inode, triple: nat, dbl: nat, single: nat)
    requires SLOTS < ino.count && Slot(ino, 14) == triple && Word(disk, triple, 0) == dbl && Word(disk, dbl, 0) == single
    ensures Addr(disk, ino, P3) == triple && Addr(disk, ino, P3D(0)) == dbl && Addr(disk, ino, P3S(0, 0)) == single
    ensures Addr(disk, ino, N3(0, 0, 0)) == Word(disk, single, 0)
  {
    assert Addr(disk, ino, P3) == triple;
    assert Addr(disk, ino, P3D(0)) == dbl;
    assert Addr(disk, ino, P3S(0, 0)) == single;
  }

  lemma TriplePlaces(s: nat, n: nat, disk': Disk, ino': Inode, id: nat, links: map<nat, Owner>, triple: nat, dbl: nat, single: nat, b: nat)
    requires 0 < s && n != SLOTS && Path(s, n) == Pos(3, 0, 0, 0)
    requires b != single && b != dbl && b != triple && single != dbl && single != triple && dbl != triple
    requires links == map[b := Tree(id, N3(0, 0, 0)), single := Tree(id, P3S(0, 0)), dbl := Tree(id, P3D(0)), triple := Tree(id, P3)]
    requires Addr(disk', ino', P3) == triple && Addr(disk', ino', P3D(0)) == dbl && Addr(disk', ino', P3S(0, 0)) == single
    requires Addr(disk', ino', N3(0, 0, 0)) == b
    ensures Places(s, n, disk', ino', id, links)
  {
    hide Addr, Path;
  }

  /** Three new pointer blocks move nothing. */
  lemma TripleStays(s: nat, total: nat, first: nat, disk: Disk, bits: seq<bool>, inodes: Inodes, owner: map<nat, Owner>,
                    id: nat, disk': Disk, ino': Inode, triple: nat, dbl: nat, single: nat)
    requires Inv(s, total, first, disk, bits, inodes, owner) && id in inodes && inodes[id].count < Capacity(s)
    requires Path(s, inodes[id].count) == Pos(3, 0, 0, 0) && ino'.count == inodes[id].count + 1 && |disk'| == |disk|
    requires triple in owner && owner[triple] == Leak && dbl in owner && owner[dbl] == Leak && single in owner && owner[single] == Leak
    requires ino'.slots == inodes[id].slots[14 := triple]
    requires forall b :: 0 <= b < |disk| && b != triple && b != dbl && b != single ==> disk'[b] == disk[b]
    ensures Stays(s, disk, inodes, disk', inodes[id := ino'])
  {
    hide Exact, Path, Capacity, Addr;
    SmallPaths(s, inodes[id].count);
    LinkStays(s, disk, inodes, owner, id, disk', ino', total, 0);
  }

  /** A live node is at an allocated block past the metadata. */
  lemma LiveAddr(s: nat, total: nat, first: nat, disk: Disk, bits: seq<bool>, inodes: Inodes, owner: map<nat, Owner>, id: nat, x: Node)
    requires Inv(s, total, first, disk, bits, inodes, owner) && id in inodes && Live(s, inodes[id].count, x)
    ensures var b := Addr(disk, inodes[id], x); first <= b < total && bits[b] && b in owner && owner[b] == Tree(id, x) && |disk[b]| == s
  {
    hide Live, Exact;
    assert LiveIn(s, inodes, id, x);
  }

  /** Every owner but that of `b` is as before, and what is new belongs to the new nodes of file `id`. */
  ghost predicate Adds(s: nat, owner: map<nat, Owner>, owner': map<nat, Owner>, id: nat, n: nat, b: nat)
    requires 0 < s
  {
    && (forall c :: c in owner && c != b ==> c in owner' && owner'[c] == owner[c])
    && (forall c :: c in owner' && !(c in owner && c != b) ==>
          owner'[c].Tree? && owner'[c].id == id && IsNew(s, n, owner'[c].node))
  }

  /** Mid-append: `links` gives the future nodes of `b` and of every block taken since `owner0`; all are still leaks. */
  ghost predicate Ready(owner0: map<nat, Owner>, owner: map<nat, Owner>, links: map<nat, Owner>, b: nat) {
    && b in links && b in owner0 && owner.Keys == owner0.Keys + links.Keys
    && (forall c :: c in links ==> c in owner && owner[c] == Leak && (c == b || c !in owner0))
    && (forall c :: c in owner0 ==> c in owner && owner[c] == owner0[c])
  }

  lemma ReadyFirst(owner: map<nat, Owner>, b: nat, x: Owner)
    requires b in owner && owner[b] == Leak
    ensures Ready(owner, owner, map[b := x], b)
  {
  }

  lemma ReadyMore(owner0: map<nat, Owner>, owner: map<nat, Owner>, links: map<nat, Owner>, b: nat, c: nat, x: Owner)
    requires Ready(owner0, owner, links, b) && c !in owner
    ensures Ready(owner0, owner[c := Leak], links[c := x], b) && c != b && c !in links
  {
  }

  ghost predicate OnlyLeaks(owner0: map<nat, Owner>, owner: map<nat, Owner>) {
    && (forall c :: c in owner0 ==> c in owner && owner[c] == owner0[c])
    && (forall c :: c in owner && c !in owner0 ==> owner[c] == Leak)
  }

  lemma LeaksOn(owner0: map<nat, Owner>, owner1: map<nat, Owner>, owner2: map<nat, Owner>, b: nat)
    requires owner1 == owner0 || (b !in owner0 && owner1 == owner0[b := Leak])
    requires OnlyLeaks(owner1, owner2) || owner2 == owner1
    ensures OnlyLeaks(owner0, owner2)
  {
  }

  lemma ReadyLeaks(owner0: map<nat, Owner>, owner: map<nat, Owner>, links: map<nat, Owner>, b: nat)
    requires Ready(owner0, owner, links, b)
    ensures OnlyLeaks(owner0, owner)
  {
  }

  lemma ReadyAdds(s: nat, owner0: map<nat, Owner>, owner: map<nat, Owner>, links: map<nat, Owner>, b: nat,
                  id: nat, n: nat, disk': Disk, ino': Inode)
    requires 0 < s && Ready(owner0, owner, links, b) && Places(s, n, disk', ino', id, links)
    ensures Adds(s, owner0, owner + links, id, n, b)
  {
    hide IsNew, Addr;
  }

  // ---------------------------------------------------------------------------
  // Remove, in general
  // ---------------------------------------------------------------------------

  /** The blocks that file `id` gives up when it shrinks to `n` blocks. */
  ghost function Gone(s: nat, owner: map<nat, Owner>, id: nat, n: nat): set<nat>
    requires 0 < s
  {
    set b | b in owner && owner[b].Tree? && owner[b].id == id && IsNew(s, n, owner[b].node)
  }

  /** Membership in `Gone`, by nodes. */
  lemma GoneAt(s: nat, total: nat, first: nat, disk: Disk, bits: seq<bool>, inodes: Inodes, owner: map<nat, Owner>, id: nat, n: nat, x: Node)
    requires Inv(s, total, first, disk, bits, inodes, owner) && id in inodes && inodes[id].count == n + 1 && IsNew(s, n, x)
    ensures Live(s, n + 1, x) && Addr(disk, inodes[id], x) in Gone(s, owner, id, n)
    ensures var b := Addr(disk, inodes[id], x); first <= b < total && bits[b] && owner[b] == Tree(id, x)
  {
    hide Exact, IsNew, Live, Addr;
    LiveSucc(s, n, x);
    LiveAddr(s, total, first, disk, bits, inodes, owner, id, x);
  }

  lemma GoneNode(s: nat, disk: Disk, inodes: Inodes, owner: map<nat, Owner>, id: nat, n: nat, b: nat)
    requires 0 < s && Exact(s, disk, inodes, owner) && b in Gone(s, owner, id, n)
    ensures b in owner && owner[b].Tree? && id in inodes && IsNew(s, n, owner[b].node) && Addr(disk, inodes[id], owner[b].node) == b
  {
    hide Live, Addr;
  }

  lemma {:induction false} RootedLess(s: nat, disk: Disk, inodes: Inodes, owner: map<nat, Owner>, id: nat, n: nat)
    requires 4 <= s && Rooted(s, disk, inodes, owner) && id in inodes && inodes[id].count == n + 1 <= Capacity(s)
    requires n != SLOTS
    ensures Rooted(s, disk, inodes[id := inodes[id].(count := n)], owner)
    ensures forall x {:trigger Live(s, n, x)} :: Live(s, n, x) ==>
              Live(s, n + 1, x) && Addr(disk, inodes[id].(count := n), x) == Addr(disk, inodes[id], x)
  {
    hide Live, Addr;
    var ino := inodes[id];
    forall x | Live(s, n, x)
      ensures Live(s, n + 1, x) && Addr(disk, ino.(count := n), x) == Addr(disk, ino, x)
    {
      LiveSucc(s, n, x);
      AddrSlots(s, disk, ino, ino.(count := n), n, x);
    }
    var less := inodes[id := ino.(count := n)];
    forall j: nat, x | LiveIn(s, less, j, x)
      ensures Addr(disk, less[j], x) in owner && owner[Addr(disk, less[j], x)] == Tree(j, x)
    {
      assert j == id ==> Live(s, n, x);
      assert LiveIn(s, inodes, j, x);
    }
  }

  /** What a removal must establish. */
  ghost predicate Shrinks(s: nat, disk: Disk, inodes: Inodes, id: nat, disk': Disk, ino': Inode)
    requires 0 < s && id in inodes
  {
    && (forall x {:trigger Live(s, ino'.count, x)} :: Live(s, ino'.count, x) ==> Addr(disk', ino', x) == Addr(disk, inodes[id], x))
    && Stays(s, disk, inodes - {id}, disk', inodes - {id})
  }

  /** A removal that wipes at most the word at which the last block hung, and dead slots. */
  lemma WipeShrinks(s: nat, total: nat, first: nat, disk: Disk, bits: seq<bool>, inodes: Inodes, owner: map<nat, Owner>,
                    id: nat, disk': Disk, ino': Inode, p: nat, x: Node)
    requires Inv(s, total, first, disk, bits, inodes, owner) && id in inodes && inodes[id].count == ino'.count + 1
    requires ino'.count != SLOTS && SameRoots(s, inodes[id], ino', ino'.count)
    requires p !in owner || (IsNew(s, ino'.count, x) && HasParent(ino'.count, x) && owner[p] == Tree(id, Parent(x)))
    requires Untouched(disk, disk', owner, p, Index(x))
    ensures Shrinks(s, disk, inodes, id, disk', ino')
  {
    hide Live, Addr, IsNew, Untouched, SameRoots, HasParent, Index;
    var n, less := ino'.count, inodes[id := inodes[id].(count := ino'.count)];
    RootedLess(s, disk, inodes, owner, id, n);
    if p in owner {
      NewHasNoChild(s, disk, less, owner, id, x, p);
    }
    SameRootsCount(s, inodes[id], ino', n);
    LinkStays(s, disk, less, owner, id, disk', ino', p, Index(x));
    forall y | Live(s, n, y)
      ensures Addr(disk', ino', y) == Addr(disk, inodes[id], y)
    {
      assert LiveIn(s, less, id, y);
    }
    forall j: nat, y | LiveIn(s, inodes - {id}, j, y)
      ensures Addr(disk', inodes[j], y) == Addr(disk, inodes[j], y)
    {
      assert LiveIn(s, less, j, y);
    }
  }

  lemma SameRootsCount(s: nat, ino: Inode, ino': Inode, n: nat)
    requires 0 < s && SameRoots(s, ino, ino', n)
    ensures SameRoots(s, ino.(count := n), ino', n)
  {
    hide Live;
  }

  /** The 16th block goes: the three numbers behind the single pointer move back into the inode (inodes.c:1055-1085). */
  lemma DemoteShrinks(s: nat, total: nat, first: nat, disk: Disk, bits: seq<bool>, inodes: Inodes, owner: map<nat, Owner>,
                      id: nat, ino': Inode)
    requires Inv(s, total, first, disk, bits, inodes, owner) && id in inodes && inodes[id].count == 16
    requires ino' == Inode(15, inodes[id].slots[12 := Word(disk, inodes[id].slots[12], 0)]
                                               [13 := Word(disk, inodes[id].slots[12], 1)]
                                               [14 := Word(disk, inodes[id].slots[12], 2)])
    ensures Shrinks(s, disk, inodes, id, disk, ino')
  {
    hide Rooted, Exact, Marked, Path, Capacity;
    SmallPaths(s, 15);
    forall x | Live(s, 15, x)
      ensures Addr(disk, ino', x) == Addr(disk, inodes[id], x)
    {
      assert x.N0? || (x.N1? && x.c < 3);
      assert Addr(disk, inodes[id], P1) == inodes[id].slots[12];
    }
  }

  /** Node `x` of file `id` is at block `b`, which is allocated and past the metadata. */
  ghost predicate Holds(s: nat, total: nat, first: nat, disk: Disk, bits: seq<bool>, inodes: Inodes, owner: map<nat, Owner>, id: nat, x: Node, b: nat) {
    && id in inodes && b == Addr(disk, inodes[id], x)
    && first <= b < total <= |bits| && total <= |disk| && bits[b] && b in owner && owner[b] == Tree(id, x) && |disk[b]| == s
  }

  lemma NewHolds(s: nat, total: nat, first: nat, disk: Disk, bits: seq<bool>, inodes: Inodes, owner: map<nat, Owner>, id: nat, n: nat, x: Node)
    requires Inv(s, total, first, disk, bits, inodes, owner) && id in inodes && inodes[id].count == n + 1 && IsNew(s, n, x)
    ensures Holds(s, total, first, disk, bits, inodes, owner, id, x, Addr(disk, inodes[id], x))
    ensures Addr(disk, inodes[id], x) in Gone(s, owner, id, n)
  {
    hide Exact, IsNew, Live, Addr;
    GoneAt(s, total, first, disk, bits, inodes, owner, id, n, x);
  }

  ghost predicate Listed(gone: set<nat>, a: nat, b: nat, c: nat, d: nat) {
    gone <= {a, b, c, d} && a in gone && b in gone && c in gone && d in gone
  }

  /** A last block that was nobody's first: only it is given up. */
  lemma GoneOne(s: nat, total: nat, first: nat, disk: Disk, bits: seq<bool>, inodes: Inodes, owner: map<nat, Owner>, id: nat, n: nat, p: Pos)
    requires Inv(s, total, first, disk, bits, inodes, owner) && id in inodes && inodes[id].count == n + 1
    requires p == Path(s, n) && n != SLOTS && (p.level < 2 || p.c != 0)
    ensures Listed(Gone(s, owner, id, n), Addr(disk, inodes[id], NodeAt(p)), Addr(disk, inodes[id], NodeAt(p)), Addr(disk, inodes[id], NodeAt(p)), Addr(disk, inodes[id], NodeAt(p)))
    ensures Holds(s, total, first, disk, bits, inodes, owner, id, NodeAt(p), Addr(disk, inodes[id], NodeAt(p)))
  {
    hide Live, Rooted, Exact, Addr, Holds, Gone, Marked, Path, HasParent, Parent, Index, Depth, RootSlot;
    NewHolds(s, total, first, disk, bits, inodes, owner, id, n, NodeAt(p));
    forall b | b in Gone(s, owner, id, n)
      ensures b == Addr(disk, inodes[id], NodeAt(p))
    {
      GoneNode(s, disk, inodes, owner, id, n, b);
    }
  }

  /** The 16th block: also the single pointer. */
  lemma GonePromoted(s: nat, total: nat, first: nat, disk: Disk, bits: seq<bool>, inodes: Inodes, owner: map<nat, Owner>, id: nat, n: nat, p: Pos)
    requires Inv(s, total, first, disk, bits, inodes, owner) && id in inodes && inodes[id].count == n + 1
    requires p == Path(s, n) && n == SLOTS && p == Pos(1, 0, 0, 3)
    ensures Listed(Gone(s, owner, id, n), Addr(disk, inodes[id], N1(3)), Addr(disk, inodes[id], P1), Addr(disk, inodes[id], P1), Addr(disk, inodes[id], P1))
    ensures Holds(s, total, first, disk, bits, inodes, owner, id, N1(3), Addr(disk, inodes[id], N1(3)))
    ensures Holds(s, total, first, disk, bits, inodes, owner, id, P1, Addr(disk, inodes[id], P1))
  {
    hide Live, Rooted, Exact, Addr, Holds, Gone, Marked, Path, HasParent, Parent, Index, Depth, RootSlot;
    NewHolds(s, total, first, disk, bits, inodes, owner, id, n, N1(3));
    NewHolds(s, total, first, disk, bits, inodes, owner, id, n, P1);
    forall b | b in Gone(s, owner, id, n)
      ensures b == Addr(disk, inodes[id], N1(3)) || b == Addr(disk, inodes[id], P1)
    {
      GoneNode(s, disk, inodes, owner, id, n, b);
    }
  }

  /** The first block behind a pointer block of the double range. */
  lemma GoneDouble2(s: nat, total: nat, first: nat, disk: Disk, bits: seq<bool>, inodes: Inodes, owner: map<nat, Owner>, id: nat, n: nat, p: Pos)
    requires Inv(s, total, first, disk, bits, inodes, owner) && id in inodes && inodes[id].count == n + 1
    requires p == Path(s, n) && p.level == 2 && p.c == 0 && p.b != 0 && n != SLOTS
    ensures Listed(Gone(s, owner, id, n), Addr(disk, inodes[id], N2(p.b, 0)), Addr(disk, inodes[id], P2S(p.b)), Addr(disk, inodes[id], P2S(p.b)), Addr(disk, inodes[id], P2S(p.b)))
    ensures Holds(s, total, first, disk, bits, inodes, owner, id, N2(p.b, 0), Addr(disk, inodes[id], N2(p.b, 0)))
    ensures Holds(s, total, first, disk, bits, inodes, owner, id, P2S(p.b), Addr(disk, inodes[id], P2S(p.b)))
  {
    hide Live, Rooted, Exact, Addr, Holds, Gone, Marked, Path, HasParent, Parent, Index, Depth, RootSlot;
    NewHolds(s, total, first, disk, bits, inodes, owner, id, n, N2(p.b, 0));
    NewHolds(s, total, first, disk, bits, inodes, owner, id, n, P2S(p.b));
    forall b | b in Gone(s, owner, id, n)
      ensures b == Addr(disk, inodes[id], N2(p.b, 0)) || b == Addr(disk, inodes[id], P2S(p.b))
    {
      GoneNode(s, disk, inodes, owner, id, n, b);
    }
  }

  /** The first block of the double range. */
  lemma GoneDouble3(s: nat, total: nat, first: nat, disk: Disk, bits: seq<bool>, inodes: Inodes, owner: map<nat, Owner>, id: nat, n: nat, p: Pos)
    requires Inv(s, total, first, disk, bits, inodes, owner) && id in inodes && inodes[id].count == n + 1
    requires p == Path(s, n) && p.level == 2 && p.c == 0 && p.b == 0 && n != SLOTS
    ensures Listed(Gone(s, owner, id, n), Addr(disk, inodes[id], N2(0, 0)), Addr(disk, inodes[id], P2S(0)), Addr(disk, inodes[id], P2), Addr(disk, inodes[id], P2))
    ensures Holds(s, total, first, disk, bits, inodes, owner, id, N2(0, 0), Addr(disk, inodes[id], N2(0, 0)))
    ensures Holds(s, total, first, disk, bits, inodes, owner, id, P2S(0), Addr(disk, inodes[id], P2S(0)))
    ensures Holds(s, total, first, disk, bits, inodes, owner, id, P2, Addr(disk, inodes[id], P2))
  {
    hide Live, Rooted, Exact, Addr, Holds, Gone, Marked, Path, HasParent, Parent, Index, Depth, RootSlot;
    NewHolds(s, total, first, disk, bits, inodes, owner, id, n, N2(0, 0));
    NewHolds(s, total, first, disk, bits, inodes, owner, id, n, P2S(0));
    NewHolds(s, total, first, disk, bits, inodes, owner, id, n, P2);
    forall b | b in Gone(s, owner, id, n)
      ensures b == Addr(disk, inodes[id], N2(0, 0)) || b == Addr(disk, inodes[id], P2S(0)) || b == Addr(disk, inodes[id], P2)
    {
      GoneNode(s, disk, inodes, owner, id, n, b);
    }
  }

  /** The first block behind a pointer block of the triple range. */
  lemma GoneTriple2(s: nat, total: nat, first: nat, disk: Disk, bits: seq<bool>, inodes: Inodes, owner: map<nat, Owner>, id: nat, n: nat, p: Pos)
    requires Inv(s, total, first, disk, bits, inodes, owner) && id in inodes && inodes[id].count == n + 1
    requires p == Path(s, n) && p.level == 3 && p.c == 0 && p.b != 0 && n != SLOTS
    ensures Listed(Gone(s, owner, id, n), Addr(disk, inodes[id], N3(p.a, p.b, 0)), Addr(disk, inodes[id], P3S(p.a, p.b)), Addr(disk, inodes[id], P3S(p.a, p.b)), Addr(disk, inodes[id], P3S(p.a, p.b)))
    ensures Holds(s, total, first, disk, bits, inodes, owner, id, N3(p.a, p.b, 0), Addr(disk, inodes[id], N3(p.a, p.b, 0)))
    ensures Holds(s, total, first, disk, bits, inodes, owner, id, P3S(p.a, p.b), Addr(disk, inodes[id], P3S(p.a, p.b)))
  {
    hide Live, Rooted, Exact, Addr, Holds, Gone, Marked, Path, HasParent, Parent, Index, Depth, RootSlot;
    NewHolds(s, total, first, disk, bits, inodes, owner, id, n, N3(p.a, p.b, 0));
    NewHolds(s, total, first, disk, bits, inodes, owner, id, n, P3S(p.a, p.b));
    forall b | b in Gone(s, owner, id, n)
      ensures b == Addr(disk, inodes[id], N3(p.a, p.b, 0)) || b == Addr(disk, inodes[id], P3S(p.a, p.b))
    {
      GoneNode(s, disk, inodes, owner, id, n, b);
    }
  }

  /** The first block behind a double pointer of the triple range. */
  lemma GoneTriple3(s: nat, total: nat, first: nat, disk: Disk, bits: seq<bool>, inodes: Inodes, owner: map<nat, Owner>, id: nat, n: nat, p: Pos)
    requires Inv(s, total, first, disk, bits, inodes, owner) && id in inodes && inodes[id].count == n + 1
    requires p == Path(s, n) && p.level == 3 && p.c == 0 && p.b == 0 && p.a != 0 && n != SLOTS
    ensures Listed(Gone(s, owner, id, n), Addr(disk, inodes[id], N3(p.a, 0, 0)), Addr(disk, inodes[id], P3S(p.a, 0)), Addr(disk, inodes[id], P3D(p.a)), Addr(disk, inodes[id], P3D(p.a)))
    ensures Holds(s, total, first, disk, bits, inodes, owner, id, N3(p.a, 0, 0), Addr(disk, inodes[id], N3(p.a, 0, 0)))
    ensures Holds(s, total, first, disk, bits, inodes, owner, id, P3S(p.a, 0), Addr(disk, inodes[id], P3S(p.a, 0)))
    ensures Holds(s, total, first, disk, bits, inodes, owner, id, P3D(p.a), Addr(disk, inodes[id], P3D(p.a)))
  {
    hide Live, Rooted, Exact, Addr, Holds, Gone, Marked, Path, HasParent, Parent, Index, Depth, RootSlot;
    NewHolds(s, total, first, disk, bits, inodes, owner, id, n, N3(p.a, 0, 0));
    NewHolds(s, total, first, disk, bits, inodes, owner, id, n, P3S(p.a, 0));
    NewHolds(s, total, first, disk, bits, inodes, owner, id, n, P3D(p.a));
    forall b | b in Gone(s, owner, id, n)
      ensures b == Addr(disk, inodes[id], N3(p.a, 0, 0)) || b == Addr(disk, inodes[id], P3S(p.a, 0)) || b == Addr(disk, inodes[id], P3D(p.a))
    {
      GoneNode(s, disk, inodes, owner, id, n, b);
    }
  }

  /** The first block of the triple range. */
  lemma GoneTriple4(s: nat, total: nat, first: nat, disk: Disk, bits: seq<bool>, inodes: Inodes, owner: map<nat, Owner>, id: nat, n: nat, p: Pos)
    requires Inv(s, total, first, disk, bits, inodes, owner) && id in inodes && inodes[id].count == n + 1
    requires p == Path(s, n) && p.level == 3 && p.c == 0 && p.b == 0 && p.a == 0 && n != SLOTS
    ensures Listed(Gone(s, owner, id, n), Addr(disk, inodes[id], N3(0, 0, 0)), Addr(disk, inodes[id], P3S(0, 0)), Addr(disk, inodes[id], P3D(0)), Addr(disk, inodes[id], P3))
    ensures Holds(s, total, first, disk, bits, inodes, owner, id, N3(0, 0, 0), Addr(disk, inodes[id], N3(0, 0, 0)))
    ensures Holds(s, total, first, disk, bits, inodes, owner, id, P3S(0, 0), Addr(disk, inodes[id], P3S(0, 0)))
    ensures Holds(s, total, first, disk, bits, inodes, owner, id, P3D(0), Addr(disk, inodes[id], P3D(0)))
    ensures Holds(s, total, first, disk, bits, inodes, owner, id, P3, Addr(disk, inodes[id], P3))
  {
    hide Live, Rooted, Exact, Addr, Holds, Gone, Marked, Path, HasParent, Parent, Index, Depth, RootSlot;
    NewHolds(s, total, first, disk, bits, inodes, owner, id, n, N3(0, 0, 0));
    NewHolds(s, total, first, disk, bits, inodes, owner, id, n, P3S(0, 0));
    NewHolds(s, total, first, disk, bits, inodes, owner, id, n, P3D(0));
    NewHolds(s, total, first, disk, bits, inodes, owner, id, n, P3);
    forall b | b in Gone(s, owner, id, n)
      ensures b == Addr(disk, inodes[id], N3(0, 0, 0)) || b == Addr(disk, inodes[id], P3S(0, 0)) || b == Addr(disk, inodes[id], P3D(0)) || b == Addr(disk, inodes[id], P3)
    {
      GoneNode(s, disk, inodes, owner, id, n, b);
    }
  }

  ghost predicate Cleared(bits: seq<bool>, bits': seq<bool>, gone: set<nat>) {
    |bits'| == |bits| && forall b :: 0 <= b < |bits| ==> bits'[b] == (bits[b] && b !in gone)
  }

  lemma ClearedBy(bits: seq<bool>, bits': seq<bool>, gone: set<nat>, a: nat, b: nat, c: nat, d: nat)
    requires Listed(gone, a, b, c, d) && a < |bits| && b < |bits| && c < |bits| && d < |bits|
    requires bits' == bits[a := false][b := false][c := false][d := false]
    ensures Cleared(bits, bits', gone)
  {
  }

  /** A pointer slot may be rewritten while its pointer block is not live. */
  lemma DeadSlot(s: nat, ino: Inode, ino': Inode, n: nat, x: Node, k: nat)
    requires 4 <= s && SLOTS < n < Capacity(s) && IsNew(s, n, x) && ((x == P2 && k == 13) || (x == P3 && k == 14))
    requires |ino.slots| == SLOTS && ino'.slots == ino.slots[k := 0]
    ensures SameRoots(s, ino, ino', n)
  {
    hide Path, Capacity, IsNew;
    LiveSucc(s, n, x);
  }

  /** A file none of whose nodes moved has the same blocks. */
  lemma SameBlocks(s: nat, disk: Disk, disk': Disk, inodes: Inodes, id: nat)
    requires 4 <= s && id in inodes && inodes[id].count <= Capacity(s)
    requires forall x {:trigger LiveIn(s, inodes, id, x)} :: LiveIn(s, inodes, id, x) ==> Addr(disk', inodes[id], x) == Addr(disk, inodes[id], x)
    ensures Blocks(s, disk', inodes[id]) == Blocks(s, disk, inodes[id])
  {
    hide Live, Addr, DataNode;
    forall i | 0 <= i < inodes[id].count
      ensures Addr(disk', inodes[id], DataNode(s, i)) == Addr(disk, inodes[id], DataNode(s, i))
    {
      DataLive(s, inodes[id].count, i);
      assert LiveIn(s, inodes, id, DataNode(s, i));
    }
  }
}

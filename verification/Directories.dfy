/** Directories (`kernel/fs/dirs.c`): entries packed into the blocks of a file, in order, up to an entry with an empty name. */
module Directories {
  import opened Arithmetic
  import opened Common
  import opened InodePath
  import opened Blocks
  import opened InodeTree
  import opened Inodes
  import opened InodeTheorems

  datatype Dirent = Dirent(name: string, ino: nat)

  const END: Dirent := Dirent("", 0)

  /** How an operation ends.  `Wild` is a read past the buffer in the search for a block: what comes of it is not known. */
  datatype Result = Fine | Exists | Absent | NoRoom | Wild

  // ---------------------------------------------------------------------------
  // Layout
  // ---------------------------------------------------------------------------

  ghost predicate Unique(list: seq<Dirent>) {
    forall i, j :: 0 <= i < j < |list| ==> list[i].name != list[j].name
  }

  ghost predicate Nameful(list: seq<Dirent>) {
    forall i :: 0 <= i < |list| ==> list[i].name != ""
  }

  /** The slots hold `list`, then an end entry if there is room; and there is no superfluous block. */
  ghost predicate LaidOut(flat: seq<Dirent>, list: seq<Dirent>, per: nat) {
    && |list| <= |flat| < |list| + per && flat[..|list|] == list && Nameful(list)
    && (|list| < |flat| ==> flat[|list|].name == "")
  }

  /** All blocks are full exactly when the number of entries is a multiple of the entries per block. */
  lemma FullIff(blocks: seq<seq<Dirent>>, list: seq<Dirent>, per: nat)
    requires 0 < per && Blocked(blocks, per) && LaidOut(Flat(blocks), list, per)
    ensures |list| == |Flat(blocks)| <==> Rem(|list|, per) == 0
  {
    FlatSize(blocks, per);
    hide Rem;
    RoundUp(|list|, |blocks|, per);
  }

  lemma RoundUp(n: nat, count: nat, per: nat)
    requires 0 < per && n <= count * per < n + per
    ensures n == count * per <==> Rem(n, per) == 0
  {
    hide Rem;
    RemZero(n, per);
    DivExact(per, count);
    MulOrder(Quot(n, per), count, per);
  }

  lemma RemZero(n: nat, per: nat)
    requires 0 < per
    ensures Rem(n, per) == 0 <==> n == Quot(n, per) * per
  {
    assert n == n / per * per + n % per;
  }

  ghost predicate Has(list: seq<Dirent>, name: string) {
    exists i :: 0 <= i < |list| && list[i].name == name
  }

  // ---------------------------------------------------------------------------
  // Removal, as values
  // ---------------------------------------------------------------------------

  /** The position of a name, or the length. */
  ghost function IndexOf(list: seq<Dirent>, name: string): (p: nat)
    ensures p <= |list| && (p < |list| ==> list[p].name == name) && forall j :: 0 <= j < p ==> list[j].name != name
  {
    if list == [] then 0
    else
      var n := |list| - 1;
      var p := IndexOf(list[..n], name);
      if p < n || list[n].name == name then p else n + 1
  }

  ghost function Without(list: seq<Dirent>, p: nat): seq<Dirent>
    requires p <= |list|
  {
    if p < |list| then list[..p] + list[p + 1..] else list
  }

  /** The slots before `k` shifted down from `p` on. */
  ghost function Shifted(flat: seq<Dirent>, p: nat, k: nat): (r: seq<Dirent>)
    requires k <= |flat|
    ensures |r| == |flat|
  {
    seq(|flat|, j requires 0 <= j < |flat| => if p <= j < k && j + 1 < |flat| then flat[j + 1] else flat[j])
  }

  /** What a removal that fails at the last of the full blocks leaves. */
  ghost function Botched(list: seq<Dirent>, p: nat, per: nat): seq<Dirent> {
    if |list| < per then list else Shifted(list, p, |list| - per)
  }

  /** The entry that belongs in slot `j` once the one at `p` is gone. */
  ghost function Moved(flat: seq<Dirent>, p: nat, j: nat): Dirent
    requires j < |flat|
  {
    if p <= j && j + 1 < |flat| then flat[j + 1] else flat[j]
  }

  lemma BufferIs(flat: seq<Dirent>, p: nat, off: nat, per: nat, dir: seq<Dirent>, i: nat)
    requires off + per <= |flat| && |dir| == per && i <= per
    requires forall x :: 0 <= x < i ==> dir[x] == Moved(flat, p, off + x)
    requires forall x :: i <= x < per ==> dir[x] == flat[off + x]
    ensures dir == Shifted(flat, p, off + i)[off..off + per]
  {
  }

  /** What the slots and the names say of each other. */
  lemma SlotFacts(flat: seq<Dirent>, list: seq<Dirent>, name: string, p: nat, per: nat)
    requires LaidOut(flat, list, per) && Unique(list) && p == IndexOf(list, name)
    ensures |list| <= |flat| && p <= |list|
    ensures forall j :: 0 <= j < |list| ==> flat[j].name != "" && (flat[j].name == name <==> j == p)
    ensures |list| < |flat| ==> flat[|list|].name == ""
  {
    assert forall j :: 0 <= j < |list| ==> flat[j] == list[j];
  }

  lemma ShiftedNone(flat: seq<Dirent>, p: nat)
    ensures Shifted(flat, p, 0) == flat
  {
  }

  lemma Beginning(per: nat)
    ensures Begins(0, 0, per)
  {
  }

  /** A block written after its first `i` slots were shifted. */
  lemma WritePass(blocks: seq<seq<Dirent>>, per: nat, b: nat, off: nat, flat: seq<Dirent>, p: nat, dir: seq<Dirent>, i: nat)
    requires Blocked(blocks, per) && b < |blocks| && Begins(off, b, per) && |dir| == per && i <= per
    requires off + per <= |flat| && Flat(blocks) == Shifted(flat, p, off) && dir == Shifted(flat, p, off + i)[off..off + per]
    ensures Blocked(blocks[b := dir], per) && Flat(blocks[b := dir]) == Shifted(flat, p, off + i)
    ensures p >= off + i ==> Flat(blocks) == Shifted(flat, p, off + i)
  {
    hide Flat, Blocked, Begins, Shifted;
    BlockPut(blocks, per, b, off, dir);
    ShiftedPass(flat, p, off, i, per);
  }

  /** Shifting `i` slots of one block. */
  lemma ShiftedPass(flat: seq<Dirent>, p: nat, off: nat, i: nat, per: nat)
    requires off + per <= |flat| && i <= per
    ensures var f, g := Shifted(flat, p, off), Shifted(flat, p, off + i);
            && g == f[..off] + g[off..off + per] + f[off + per..]
            && (p >= off + i ==> f == g)
  {
    var f, g := Shifted(flat, p, off), Shifted(flat, p, off + i);
    assert f[..off] == g[..off];
    assert f[off + per..] == g[off + per..];
    assert g == g[..off] + g[off..off + per] + g[off + per..];
    if p >= off + i {
      assert f == g;
    }
  }

  /** The end entry was reached at slot `i` of the last block. */
  lemma EndedOk(flat: seq<Dirent>, list: seq<Dirent>, p: nat, per: nat, off: nat, i: nat)
    requires LaidOut(flat, list, per) && |list| == off + i && |flat| == off + per && i < per && p <= |list|
    ensures 1 <= i
    ensures p < |list| && i == 1 ==> LaidOut(Shifted(flat, p, off + i)[..off], Without(list, p), per)
    ensures p == |list| || i != 1 ==> LaidOut(Shifted(flat, p, off + i), Without(list, p), per)
  {
    var f := Shifted(flat, p, off + i);
    if p < |list| {
      assert f[..|list| - 1] == Without(list, p);
    } else {
      assert f == flat;
    }
  }

  lemma MissingOk(flat: seq<Dirent>, list: seq<Dirent>, p: nat, per: nat, off: nat)
    requires LaidOut(flat, list, per) && |flat| == off + per && |list| == |flat| && off <= |flat|
    ensures LaidOut(Shifted(flat, p, off), Botched(list, p, per), per)
  {
    assert flat == list;
    var f := Shifted(flat, p, off);
    assert f[..|f|] == f;
  }

  lemma NeverFound(flat: seq<Dirent>, list: seq<Dirent>, p: nat, per: nat)
    requires LaidOut(flat, list, per) && |flat| <= |list| && p == |list|
    ensures Shifted(flat, p, |flat|) == flat && Botched(list, p, per) == list
  {
  }

  lemma DropLast(blocks: seq<seq<Dirent>>, per: nat, off: nat)
    requires Blocked(blocks, per) && blocks != [] && |Flat(blocks)| == off + per
    ensures Blocked(blocks[..|blocks| - 1], per) && Flat(blocks[..|blocks| - 1]) == Flat(blocks)[..off]
  {
  }

  // ---------------------------------------------------------------------------
  // The blocks of a directory
  // ---------------------------------------------------------------------------

  /** What the blocks `file` hold, in order. */
  ghost function Held(slots: seq<seq<Dirent>>, file: seq<nat>): (r: seq<seq<Dirent>>)
    ensures |r| == |file|
  {
    seq(|file|, i requires 0 <= i < |file| => if file[i] < |slots| then slots[file[i]] else [])
  }

  lemma HeldBlocked(slots: seq<seq<Dirent>>, file: seq<nat>, per: nat)
    requires Blocked(slots, per) && forall i :: 0 <= i < |file| ==> file[i] < |slots|
    ensures Blocked(Held(slots, file), per)
  {
  }

  lemma HeldPut(slots: seq<seq<Dirent>>, file: seq<nat>, i: nat, dir: seq<Dirent>)
    requires NoDup(file) && i < |file| && file[i] < |slots|
    ensures Held(slots[file[i] := dir], file) == Held(slots, file)[i := dir]
  {
  }

  lemma HeldMore(slots: seq<seq<Dirent>>, file: seq<nat>, b: nat, dir: seq<Dirent>)
    requires b < |slots| && b !in file
    ensures Held(slots[b := dir], file + [b]) == Held(slots, file) + [dir]
  {
  }

  /** Nothing changed but in the blocks of the two lists. */
  ghost predicate SameBut(slots: seq<seq<Dirent>>, slots': seq<seq<Dirent>>, file: seq<nat>, file': seq<nat>) {
    && |slots'| == |slots|
    && forall b :: 0 <= b < |slots| && b !in file && b !in file' ==> slots'[b] == slots[b]
  }

  lemma HeldSame(slots: seq<seq<Dirent>>, slots': seq<seq<Dirent>>, file: seq<nat>, file': seq<nat>, other: seq<nat>)
    requires SameBut(slots, slots', file, file') && forall b :: b in other ==> b !in file && b !in file'
    ensures Held(slots', other) == Held(slots, other)
  {
  }

  /** Every file but `id` has the blocks that it had, and they hold the entries that they held. */
  ghost predicate OthersHold(s: nat, id: nat, slots: seq<seq<Dirent>>, disk: Disk, inodes: map<nat, Inode>,
                             slots': seq<seq<Dirent>>, disk': Disk, inodes': map<nat, Inode>)
    requires 0 < s
  {
    && inodes'.Keys == inodes.Keys
    && forall j :: j in inodes && j != id ==>
         var file, file' := InodeTree.Blocks(s, disk, inodes[j]), InodeTree.Blocks(s, disk', inodes'[j]);
         inodes'[j] == inodes[j] && file' == file && Held(slots', file') == Held(slots, file)
  }

  lemma HoldOn(s: nat, id: nat, slots: seq<seq<Dirent>>, disk: Disk, inodes: map<nat, Inode>,
               slots1: seq<seq<Dirent>>, disk1: Disk, inodes1: map<nat, Inode>, slots2: seq<seq<Dirent>>, disk2: Disk, inodes2: map<nat, Inode>)
    requires 0 < s && OthersHold(s, id, slots, disk, inodes, slots1, disk1, inodes1) && OthersHold(s, id, slots1, disk1, inodes1, slots2, disk2, inodes2)
    ensures OthersHold(s, id, slots, disk, inodes, slots2, disk2, inodes2)
  {
    hide Held, InodeTree.Blocks;
  }

  lemma SameShorter(slots: seq<seq<Dirent>>, slots': seq<seq<Dirent>>, file: seq<nat>, file': seq<nat>)
    requires SameBut(slots, slots', file, file) && file' <= file
    ensures SameBut(slots, slots', file, file')
  {
  }

  /** While the file does not lose a block on the way. */
  lemma SameOn(slots: seq<seq<Dirent>>, slots1: seq<seq<Dirent>>, slots2: seq<seq<Dirent>>, file: seq<nat>, file1: seq<nat>, file2: seq<nat>)
    requires SameBut(slots, slots1, file, file1) && SameBut(slots1, slots2, file1, file2) && (file1 <= file || file1 <= file2)
    ensures SameBut(slots, slots2, file, file2)
  {
    assert forall b :: b in file1 ==> b in file || b in file2;
  }

  /** The last block of a file is a block of the disk, and none of the others. */
  lemma LastApart(file: seq<nat>, b: nat, n: nat)
    requires NoDup(file + [b]) && forall i :: 0 <= i < |file + [b]| ==> (file + [b])[i] < n
    ensures b < n && b !in file
  {
    var longer := file + [b];
    assert longer[|file|] == b;
    forall i | 0 <= i < |file| ensures file[i] != b {
      assert longer[i] == file[i] && longer[i] != longer[|file|];
    }
  }

  lemma HeldLess(slots: seq<seq<Dirent>>, file: seq<nat>)
    requires file != []
    ensures Held(slots, file[..|file| - 1]) == Held(slots, file)[..|file| - 1]
  {
  }

  /** The entries are laid out in the blocks, each name once. */
  ghost predicate Lists(blocks: seq<seq<Dirent>>, list: seq<Dirent>, per: nat) {
    2 <= per && Blocked(blocks, per) && LaidOut(Flat(blocks), list, per) && Unique(list)
  }

  /** What block `b` holds. */
  lemma SlotsOf(blocks: seq<seq<Dirent>>, list: seq<Dirent>, per: nat, b: nat, off: nat)
    requires Lists(blocks, list, per) && b < |blocks| && Begins(off, b, per)
    ensures |blocks[b]| == per && off + per <= |Flat(blocks)| && off < |list|
    ensures forall i :: 0 <= i < per && off + i < |list| ==> blocks[b][i] == list[off + i] && blocks[b][i].name != ""
    ensures forall i :: 0 <= i < per && off + i == |list| ==> blocks[b][i].name == ""
  {
    BlockSlice(blocks, per, b, off);
  }

  /** A block that is not the last is full. */
  lemma FullBefore(blocks: seq<seq<Dirent>>, list: seq<Dirent>, per: nat, b: nat, off: nat)
    requires Lists(blocks, list, per) && Begins(off, b, per) && b <= |blocks|
    ensures b < |blocks| ==> off < |list|
    ensures b == |blocks| ==> off == |Flat(blocks)|
    ensures b < |blocks| && |list| < off + per ==> b + 1 == |blocks| && |Flat(blocks)| == off + per
  {
    PastBlocks(blocks, per, b, off);
    if b < |blocks| {
      SlotsOf(blocks, list, per, b, off);
      BeginsNext(off, b, per);
      PastBlocks(blocks, per, b + 1, off + per);
      if b + 1 < |blocks| {
        SlotsOf(blocks, list, per, b + 1, off + per);
      }
    }
  }

  /** The end entry at slot `i` of block `b` gives way to a new one. */
  lemma EndHere(blocks: seq<seq<Dirent>>, list: seq<Dirent>, per: nat, b: nat, off: nat, i: nat, d: Dirent, dir: seq<Dirent>)
    requires Lists(blocks, list, per) && b < |blocks| && Begins(off, b, per) && i < per && off + i == |list| && d.name != "" && |blocks[b]| == per
    requires !Has(list, d.name) && dir == if i + 1 < per then blocks[b][i := d][i + 1 := END] else blocks[b][i := d]
    ensures Lists(blocks[b := dir], list + [d], per)
  {
    hide Flat, Blocked, Begins, Unique, Has;
    BlockSlice(blocks, per, b, off);
    BlockPut(blocks, per, b, off, dir);
    FullBefore(blocks, list, per, b, off);
    NewName(list, d);
    var flat, flat' := Flat(blocks), Flat(blocks[b := dir]);
    assert flat' == flat[..off] + dir;
    assert flat'[..|list|] == list;
    assert flat'[|list|] == d;
    assert flat'[..|list| + 1] == list + [d];
  }

  /** What block `b` and the start of the next hold, while those before are shifted. */
  lemma Buffer(blocks: seq<seq<Dirent>>, per: nat, b: nat, off: nat, flat: seq<Dirent>, p: nat)
    requires 2 <= per && Blocked(blocks, per) && b < |blocks| && Begins(off, b, per)
    requires off <= |flat| && Flat(blocks) == Shifted(flat, p, off)
    ensures off + per <= |flat| && |blocks[b]| == per && blocks[b] == flat[off..off + per]
    ensures b + 1 < |blocks| ==> off + per < |flat| && |blocks[b + 1]| == per && blocks[b + 1][0] == flat[off + per]
    ensures b + 1 >= |blocks| ==> off + per == |flat|
  {
    BlockSlice(blocks, per, b, off);
    BeginsNext(off, b, per);
    PastBlocks(blocks, per, b + 1, off + per);
    if b + 1 < |blocks| {
      BlockSlice(blocks, per, b + 1, off + per);
      assert blocks[b + 1][0] == Flat(blocks)[off + per..off + per + per][0];
    }
  }

  lemma UniqueWithout(list: seq<Dirent>, p: nat)
    requires Unique(list) && p <= |list|
    ensures Unique(Without(list, p))
  {
  }

  class Directory {
    const fs: FileSystem
    const id: nat                     // the inode of the directory
    const per: nat                    // entries to a block
    var slots: seq<seq<Dirent>>       // every block of the disk, as entries
    ghost var list: seq<Dirent>

    ghost predicate Shaped()
      reads this, fs, fs.bm
    {
      fs.Valid() && id in fs.inodes && 2 <= per && |slots| == fs.total && Blocked(slots, per)
    }

    /** The entries, block by block. */
    ghost function Dirs(): seq<seq<Dirent>>
      requires 0 < fs.s && id in fs.inodes
      reads this, fs, fs.bm
    {
      Held(slots, fs.File(id))
    }

    ghost predicate Valid()
      reads this, fs, fs.bm
    {
      Shaped() && Lists(Dirs(), list, per)
    }

    /** The blocks that lookup can find. */
    ghost function Reach(): nat
      reads fs
    {
      DIRECT + 2 * fs.s
    }

    /** The entries that lookup can find. */
    ghost function Near(): (k: nat)
      reads this, fs, fs.bm
      ensures k <= |list|
    {
      Min(|list|, Reach() * per)
    }

    /** A new directory has no block. */
    constructor (fs: FileSystem, id: nat, per: nat, slots: seq<seq<Dirent>>)
      requires fs.Valid() && id in fs.inodes && fs.File(id) == [] && 2 <= per && |slots| == fs.total && Blocked(slots, per)
      ensures this.fs == fs && this.id == id && this.per == per && Valid() && list == []
    {
      this.fs, this.id, this.per, this.slots := fs, id, per, slots;
      list := [];
    }

    lemma BlocksApart()
      requires Shaped()
      ensures 4 <= fs.s && NoDup(fs.File(id)) && |fs.File(id)| == fs.inodes[id].count
      ensures (forall i :: 0 <= i < |fs.File(id)| ==> 0 < fs.File(id)[i] < |slots|) && Blocked(Dirs(), per)
    {
      hide Blocked;
      forall i | 0 <= i < |fs.File(id)|
        ensures 0 < fs.File(id)[i] < fs.total
      {
        BlocksDistinct(fs.s, fs.total, fs.first, fs.disk, fs.bits, fs.inodes, fs.owner, id, i, id, i);
      }
      forall i, k | 0 <= i < k < |fs.File(id)|
        ensures fs.File(id)[i] != fs.File(id)[k]
      {
        BlocksDistinct(fs.s, fs.total, fs.first, fs.disk, fs.bits, fs.inodes, fs.owner, id, i, id, k);
      }
      HeldBlocked(slots, fs.File(id), per);
    }

    /** Every other file has the blocks that it had, and they hold the entries that they held. */
    ghost predicate Spares(slots0: seq<seq<Dirent>>, disk0: Disk, inodes0: map<nat, Inode>)
      requires 0 < fs.s
      reads this, fs
    {
      OthersHold(fs.s, id, slots0, disk0, inodes0, slots, fs.disk, fs.inodes)
    }

    /** Two files share no block. */
    static lemma FilesApart(s: nat, total: nat, first: nat, disk: Disk, bits: seq<bool>, inodes: map<nat, Inode>, owner: map<nat, Owner>, id: nat)
      requires Inv(s, total, first, disk, bits, inodes, owner) && id in inodes
      ensures 0 < s
      ensures forall j, b :: j in inodes && j != id && b in InodeTree.Blocks(s, disk, inodes[j]) ==> b !in InodeTree.Blocks(s, disk, inodes[id])
    {
      assert 4 <= s;
      forall j, b | j in inodes && j != id && b in InodeTree.Blocks(s, disk, inodes[j])
        ensures b !in InodeTree.Blocks(s, disk, inodes[id])
      {
        FileApart(s, total, first, disk, bits, inodes, owner, id, j, b);
      }
    }

    static lemma FileApart(s: nat, total: nat, first: nat, disk: Disk, bits: seq<bool>, inodes: map<nat, Inode>, owner: map<nat, Owner>, id: nat, j: nat, b: nat)
      requires Inv(s, total, first, disk, bits, inodes, owner) && id in inodes && j in inodes && j != id && 0 < s && b in InodeTree.Blocks(s, disk, inodes[j])
      ensures b !in InodeTree.Blocks(s, disk, inodes[id])
    {
      hide Inv;
      var k :| 0 <= k < |InodeTree.Blocks(s, disk, inodes[j])| && InodeTree.Blocks(s, disk, inodes[j])[k] == b;
      forall i | 0 <= i < |InodeTree.Blocks(s, disk, inodes[id])|
        ensures InodeTree.Blocks(s, disk, inodes[id])[i] != b
      {
        BlocksDistinct(s, total, first, disk, bits, inodes, owner, id, i, j, k);
      }
    }

    /** Nothing was done. */
    lemma AllSpared()
      requires 0 < fs.s && id in fs.inodes
      ensures SameBut(slots, slots, fs.File(id), fs.File(id)) && Spares(slots, fs.disk, fs.inodes)
    {
    }

    /** From the blocks to the files. */
    lemma OthersSpared(slots0: seq<seq<Dirent>>, disk0: Disk, inodes0: map<nat, Inode>)
      requires fs.Valid() && id in fs.inodes && id in inodes0 && 0 < fs.s && fs.OthersKept(disk0, inodes0, id)
      requires SameBut(slots0, slots, InodeTree.Blocks(fs.s, disk0, inodes0[id]), fs.File(id))
      requires forall j, b :: j in inodes0 && j != id && b in InodeTree.Blocks(fs.s, disk0, inodes0[j]) ==> b !in InodeTree.Blocks(fs.s, disk0, inodes0[id])
      ensures Spares(slots0, disk0, inodes0)
    {
      hide Inv, Held;
      FilesApart(fs.s, fs.total, fs.first, fs.disk, fs.bits, fs.inodes, fs.owner, id);
      forall j | j in inodes0 && j != id
        ensures Held(slots, fs.File(j)) == Held(slots0, InodeTree.Blocks(fs.s, disk0, inodes0[j]))
      {
        HeldSame(slots0, slots, InodeTree.Blocks(fs.s, disk0, inodes0[id]), fs.File(id), fs.File(j));
      }
    }

    /** `get_ith_block_of_file_by_id`, on the way through the directory. */
    method BlockAt(i: nat) returns (f: Found)
      requires Shaped() && i <= Reach()
      ensures 0 < fs.s && |Dirs()| == fs.inodes[id].count
      ensures if |Dirs()| <= i then f == Block(0)
              else if i < Reach() then f == Block(fs.File(id)[i]) && 0 < f.b < |slots| && slots[f.b] == Dirs()[i] && |Dirs()[i]| == per
              else f == PastBuffer
    {
      hide Inv;
      BlocksApart();
      f := InodeTheorems.Lookup(fs.s, fs.disk, fs.inodes[id], i);
      if i < fs.inodes[id].count {
        Met(i);
      }
    }

    /** Lookup at the blocks within reach, and at the first one that is not. */
    lemma Met(i: nat)
      requires fs.Valid() && id in fs.inodes && i <= Reach() && i < fs.inodes[id].count
      ensures 0 < fs.s
      ensures InodeTheorems.Lookup(fs.s, fs.disk, fs.inodes[id], i) == if i < Reach() then Block(fs.File(id)[i]) else PastBuffer
    {
      LookupExact(fs.s, fs.total, fs.first, fs.disk, fs.bits, fs.inodes, fs.owner, id, i);
      if i == Reach() {
        assert 4 <= fs.s;
        MulOrder(1, fs.s, fs.s);
        LookupDouble(fs.s, fs.disk, fs.inodes[id], i);
      }
    }

    /** `dir_lookup`, below the root: finds exactly the members within reach, and runs wild exactly if there are blocks
        beyond and the name is not among the entries before them. */
    method Lookup(name: string) returns (r: Result, d: Dirent)
      requires Valid() && name != ""
      ensures r == Fine <==> Has(list[..Near()], name)
      ensures r == Fine ==> d in list && d.name == name
      ensures r == Absent <==> !Has(list, name) && fs.inodes[id].count <= Reach()
      ensures r == Wild <==> !Has(list[..Near()], name) && fs.inodes[id].count > Reach()
    {
      var b, i;
      ghost var off;
      r, b, i, off, d := Search(name);
      if r == Exists {
        r := Fine;
      }
    }

    /** The search for a name: its entry, or the slot of the end entry, or past the last block. */
    method Search(name: string) returns (r: Result, b: nat, i: nat, ghost off: nat, d: Dirent)
      requires Valid() && name != ""
      ensures 0 < fs.s && (r == Exists || r == Absent || r == Wild)
      ensures r == Exists <==> Has(list[..Near()], name)
      ensures r == Exists ==> d in list && d.name == name
      ensures r == Absent <==> !Has(list, name) && fs.inodes[id].count <= Reach()
      ensures r == Wild <==> !Has(list[..Near()], name) && fs.inodes[id].count > Reach()
      ensures r == Absent && b < |Dirs()| ==> Begins(off, b, per) && i < per && off + i == |list| && |Dirs()[b]| == per && |list| < |Flat(Dirs())|
      ensures r == Absent && |Dirs()| <= b ==> |list| == |Flat(Dirs())|
    {
      hide Inv, Blocked, Flat, LaidOut, Unique, Held;
      BlocksApart();
      ghost var blocks := Dirs();
      r, b, i, off, d := Absent, 0, 0, 0, END;
      Beginning(per);
      Extent(blocks, list, per, Reach());
      while true
        invariant b <= |blocks| && b <= Reach() && Begins(off, b, per) && off <= |list| && r == Absent && |blocks| == fs.inodes[id].count
        invariant forall j :: 0 <= j < off ==> list[j].name != name
        decreases |blocks| - b
      {
        FullBefore(blocks, list, per, b, off);
        var f := BlockAt(b);
        if f.PastBuffer? {
          WithinReach(blocks, list, per, Reach(), b, off);
          return Wild, b, i, off, d;
        }
        if f.b == 0 {
          break;
        }
        var dir := slots[f.b];
        SlotsOf(blocks, list, per, b, off);
        i := 0;
        while i < per
          invariant i <= per && off + i <= |list|
          invariant forall j :: 0 <= j < off + i ==> list[j].name != name
        {
          if dir[i].name == "" {
            EndsWithin(blocks, list, per, Reach(), b, off, i);
            return;
          }
          if dir[i].name == name {
            NearEntry(blocks, list, per, Reach(), b, off, i);
            assert list[..Near()][off + i].name == name;
            return Exists, b, i, off, dir[i];
          }
          i := i + 1;
        }
        BeginsNext(off, b, per);
        b, off := b + 1, off + per;
      }
      WholeSeen(blocks, list, per, off);
    }

    // -------------------------------------------------------------------------
    // Adding
    // -------------------------------------------------------------------------

    /** `add_dirent`: appends a new name, or reports a duplicate among the entries within reach.  `buffer` is what the
        memory for a new block holds. */
    method Add(name: string, ino: nat, buffer: seq<Dirent>) returns (r: Result)
      requires Valid() && name != "" && |buffer| == per
      modifies this`slots, this`list, fs`disk, fs`bits, fs.bm`blocks, fs`inodes, fs`owner
      ensures Valid()
      ensures r == Exists <==> Has(old(list)[..old(Near())], name)
      ensures r == Wild <==> !Has(old(list)[..old(Near())], name) && old(fs.inodes)[id].count > Reach()
      ensures r == NoRoom <==> !Has(old(list), name) && old(fs.inodes)[id].count <= Reach() && Rem(|old(list)|, per) == 0
                               && FreeCount(old(fs.bits)) < Needed(fs.s, old(fs.inodes)[id].count)
      ensures r == Fine || r == Exists || r == Wild || r == NoRoom
      ensures list == if r == Fine then old(list) + [Dirent(name, ino)] else old(list)
      ensures r == Fine ==>
                FreeCount(fs.bits) == FreeCount(old(fs.bits)) - if Rem(|old(list)|, per) == 0 then Needed(fs.s, old(fs.inodes)[id].count) else 0
      ensures r == Fine ==> fs.inodes[id].count == old(fs.inodes)[id].count + if Rem(|old(list)|, per) == 0 then 1 else 0
      ensures SameBut(old(slots), slots, old(fs.File(id)), fs.File(id)) && Spares(old(slots), old(fs.disk), old(fs.inodes))
      ensures old(fs.File(id)) <= fs.File(id)
    {
      hide Inv, Blocked, Flat, LaidOut, Unique, Held, Rem, Has, SameBut, OthersHold;
      var d := Dirent(name, ino);
      BlocksApart();
      FullIff(Dirs(), list, per);
      var b, i, d0;
      ghost var off;
      r, b, i, off, d0 := Search(name);
      if r == Exists || r == Wild {
        AllSpared();
        return;
      }
      if b < fs.inodes[id].count {
        PutEnd(b, i, off, d);
        r := Fine;
      } else {
        r := PutNew(d, buffer);
      }
    }

    /** The end entry gives way to a new one. */
    method PutEnd(b: nat, i: nat, ghost off: nat, d: Dirent)
      requires Valid() && b < |Dirs()| && b < Reach() && Begins(off, b, per) && i < per && off + i == |list| && d.name != "" && !Has(list, d.name)
      modifies this`slots, this`list
      ensures Valid() && list == old(list) + [d]
      ensures SameBut(old(slots), slots, fs.File(id), fs.File(id)) && Spares(old(slots), fs.disk, fs.inodes)
    {
      hide Inv, Flat, LaidOut, Unique, Held, Has;
      BlocksApart();
      ghost var blocks := Dirs();
      var f := BlockAt(b);
      var dir := slots[f.b][i := d];
      if i + 1 < per {
        dir := dir[i + 1 := END];
      }
      EndHere(blocks, list, per, b, off, i, d, dir);
      HeldPut(slots, fs.File(id), b, dir);
      slots := slots[f.b := dir];
      list := list + [d];
      assert fs.File(id)[b] in fs.File(id);
      FilesApart(fs.s, fs.total, fs.first, fs.disk, fs.bits, fs.inodes, fs.owner, id);
      OthersSpared(old(slots), fs.disk, fs.inodes);
    }

    /** A new block for the entry. */
    method PutNew(d: Dirent, buffer: seq<Dirent>) returns (r: Result)
      requires |buffer| == per && Valid() && |list| == |Flat(Dirs())| && fs.inodes[id].count <= Reach() && d.name != "" && !Has(list, d.name)
      modifies this`slots, this`list, fs`disk, fs`bits, fs.bm`blocks, fs`inodes, fs`owner
      ensures Valid() && (r == Fine || r == NoRoom)
      ensures r == NoRoom <==> FreeCount(old(fs.bits)) < Needed(fs.s, old(fs.inodes)[id].count)
      ensures list == if r == Fine then old(list) + [d] else old(list)
      ensures r == Fine ==> FreeCount(fs.bits) == FreeCount(old(fs.bits)) - Needed(fs.s, old(fs.inodes)[id].count)
      ensures r == Fine ==> fs.inodes[id].count == old(fs.inodes)[id].count + 1
      ensures SameBut(old(slots), slots, old(fs.File(id)), fs.File(id)) && Spares(old(slots), old(fs.disk), old(fs.inodes))
      ensures old(fs.File(id)) <= fs.File(id)
    {
      hide Inv, Flat, LaidOut, Unique, Held, Has;
      BlocksApart();
      BelowCapacity(fs.s);
      ghost var file, blocks := fs.File(id), Dirs();
      FilesApart(fs.s, fs.total, fs.first, fs.disk, fs.bits, fs.inodes, fs.owner, id);
      var err, b := fs.Append(id);
      if err != Inodes.Success {
        AllSpared();
        return NoRoom;
      }
      BlocksApart();
      LastApart(file, b, |slots|);
      var dir := buffer[0 := d][1 := END];
      AddBlock(blocks, list, per, d, dir);
      NewName(list, d);
      HeldMore(slots, file, b, dir);
      slots := slots[b := dir];
      list := list + [d];
      assert b in fs.File(id);
      OthersSpared(old(slots), old(fs.disk), old(fs.inodes));
      r := Fine;
    }

    /** `add_dirent` of the directory itself and of its parent, in a new one. */
    method Populate(parent: nat, buffer: seq<Dirent>) returns (r: Result)
      requires Valid() && list == [] && |buffer| == per
      modifies this`slots, this`list, fs`disk, fs`bits, fs.bm`blocks, fs`inodes, fs`owner
      ensures Valid() && (r == Fine || r == NoRoom)
      ensures list == if r == Fine then [Dirent(".", id), Dirent("..", parent)] else []
      ensures r == NoRoom <==> FreeCount(old(fs.bits)) == 0
      ensures r == Fine ==> FreeCount(fs.bits) == FreeCount(old(fs.bits)) - 1
      ensures SameBut(old(slots), slots, old(fs.File(id)), fs.File(id)) && Spares(old(slots), old(fs.disk), old(fs.inodes))
    {
      hide Inv, Lists, Rem, Needed, Blocked, Held, OthersHold, SameBut;
      EmptyCount();
      NeededInline(fs.s, 0);
      r := Add(".", id, buffer);
      if r == Fine {
        assert list == [Dirent(".", id)];
        SmallRem(1, per);
        OneBlock();
        ghost var slots1, disk1, inodes1, file1 := slots, fs.disk, fs.inodes, fs.File(id);
        r := Add("..", parent, buffer);
        SameOn(old(slots), slots1, slots, old(fs.File(id)), file1, fs.File(id));
        HoldOn(fs.s, id, old(slots), old(fs.disk), old(fs.inodes), slots1, disk1, inodes1, slots, fs.disk, fs.inodes);
      }
    }

    lemma EmptyCount()
      requires Valid() && list == []
      ensures 4 <= fs.s && fs.inodes[id].count == 0 && Rem(0, per) == 0 && !Has(list, ".")
    {
      hide Inv;
      BlocksApart();
      FlatSize(Dirs(), per);
      MulOrder(0, |Dirs()|, per);
    }

    lemma OneBlock()
      requires Valid() && |list| == 1
      ensures 0 < fs.s && fs.inodes[id].count == 1
    {
      hide Inv;
      BlocksApart();
      FlatSize(Dirs(), per);
      MulOrder(1, |Dirs()|, per);
      MulOrder(0, |Dirs()|, per);
    }

    // -------------------------------------------------------------------------
    // Removing
    // -------------------------------------------------------------------------

    /** One block of `remove_dirent_by_f_name`, in the buffer; block `b` of the file is `at`. */
    method Pass(b: nat, at: nat, ghost off: nat, name: string, found0: bool, ghost flat: seq<Dirent>, ghost p: nat)
      returns (step: Step, dir: seq<Dirent>, i: nat, found: bool)
      requires Shaped() && 0 < fs.s && b < |Dirs()| && b < Reach() && Begins(off, b, per) && name != "" && at < |slots| && slots[at] == Dirs()[b]
      requires LaidOut(flat, list, per) && Unique(list) && p == IndexOf(list, name) && found0 == (p < off) && off <= |list|
      requires off <= |flat| && Flat(Dirs()) == Shifted(flat, p, off)
      ensures i <= per && |dir| == per && off + per <= |flat| && dir == Shifted(flat, p, off + i)[off..off + per]
      ensures step == Ended ==> i < per && off + i == |list| && found == (p < off + i)
      ensures step == Missing ==> off + per == |flat| && |list| == |flat| && b + 1 == |Dirs()|
      ensures step == Passed ==> i == per && off + per <= |list| && found == (p < off + per) && (found ==> off + per < |flat|)
      ensures step == Lost ==> b + 1 == Reach() < |Dirs()|
    {
      hide Inv, Blocked, Flat, Begins, LaidOut, Unique, IndexOf, Shifted, Held;
      BlocksApart();
      Buffer(Dirs(), per, b, off, flat, p);
      SlotFacts(flat, list, name, p, per);
      dir := slots[at];
      i, found := 0, found0;
      while i < per
        invariant i <= per && |dir| == per && off + i <= |list| && found == (p < off + i) && (i == per && found ==> b + 1 < |Dirs()|)
        invariant forall x :: 0 <= x < i ==> dir[x] == Moved(flat, p, off + x)
        invariant forall x :: i <= x < per ==> dir[x] == flat[off + x]
      {
        if dir[i].name == "" {
          step := Ended;
          BufferIs(flat, p, off, per, dir, i);
          return;
        }
        assert off + i < |list| && (dir[i].name == name <==> off + i == p);
        if dir[i].name == name {
          found := true;
        }
        if found {
          if i == per - 1 {
            var f := BlockAt(b + 1);
            if f.PastBuffer? || f.b == 0 {
              step := if f.PastBuffer? then Lost else Missing;
              BufferIs(flat, p, off, per, dir, i);
              return;
            }
            dir := dir[i := slots[f.b][0]];
          } else {
            dir := dir[i := dir[i + 1]];
          }
        }
        i := i + 1;
      }
      BufferIs(flat, p, off, per, dir, i);
      step := Passed;
    }

    /** `remove_dirent_by_f_name`.  It runs wild exactly if there are blocks beyond reach.  Otherwise it succeeds iff the
        last block is not full, whether the name is there or not.  Then a present name goes and the order stays.  If the
        last block is full it is not written: if the name was in an earlier block, the first entry of the last block is
        there twice afterwards. */
    method Remove(name: string) returns (r: Result)
      requires Valid() && name != ""
      modifies this`slots, this`list, fs`disk, fs`bits, fs.bm`blocks, fs`inodes, fs`owner
      ensures r == Wild <==> old(fs.inodes)[id].count > Reach()
      ensures r != Wild ==> r == if Rem(|old(list)|, per) != 0 then Fine else Absent
      ensures r == Fine ==> Valid() && list == Without(old(list), IndexOf(old(list), name))
      ensures r == Absent ==> Shaped() && Blocked(Dirs(), per) && LaidOut(Flat(Dirs()), list, per)
      ensures r == Absent ==> list == Botched(old(list), IndexOf(old(list), name), per)
      ensures 0 < fs.s && id in fs.inodes
      ensures SameBut(old(slots), slots, old(fs.File(id)), fs.File(id)) && Spares(old(slots), old(fs.disk), old(fs.inodes))
    {
      hide Inv, Blocked, Flat, LaidOut, Begins, Unique, Rem, Without, Botched, IndexOf, Shifted, Held, SameBut, OthersHold;
      BlocksApart();
      ghost var flat, p, count := Flat(Dirs()), IndexOf(list, name), |Dirs()|;
      FullIff(Dirs(), list, per);
      var b: nat := 0;
      ghost var off: nat := 0;
      Beginning(per);
      SlotFacts(flat, list, name, p, per);
      ShiftedNone(flat, p);
      PastBlocks(Dirs(), per, 0, 0);
      var found := false;
      AllSpared();
      while true
        invariant fs.disk == old(fs.disk) && fs.inodes == old(fs.inodes)
        invariant SameBut(old(slots), slots, old(fs.File(id)), fs.File(id)) && Spares(old(slots), old(fs.disk), old(fs.inodes))
        invariant b <= count && b <= Reach() && Begins(off, b, per) && list == old(list) && Shaped() && 0 < fs.s && |Dirs()| == count
        invariant fs.inodes[id].count == count && Blocked(Dirs(), per)
        invariant off <= |list| && off <= |flat| && Flat(Dirs()) == Shifted(flat, p, off) && found == (p < off)
        invariant (b == count ==> off == |flat|) && (found ==> off < |flat|)
        decreases count - b
      {
        var f := BlockAt(b);
        if f.PastBuffer? {
          return Wild;
        }
        if f.b == 0 {
          break;
        }
        var step, dir, i;
        step, dir, i, found := Pass(b, f.b, off, name, found, flat, p);
        WritePass(Dirs(), per, b, off, flat, p, dir, i);
        match step
        case Lost =>
          return Wild;
        case Missing =>
          MissingOk(flat, list, p, per, off);
          list := Botched(list, p, per);
          return Absent;
        case Ended =>
          FlatEnd(Dirs(), list, flat, b, off, per);
          ghost var slots0 := slots;
          Overwrite(b, f.b, dir);
          Onward(old(slots), slots0);
          ghost var slots1, file := slots, fs.File(id);
          r := FinishRemoval(b, off, i, found, flat, p, name);
          SameShorter(old(slots), slots, file, fs.File(id));
          HoldOn(fs.s, id, old(slots), old(fs.disk), old(fs.inodes), slots1, old(fs.disk), old(fs.inodes), slots, fs.disk, fs.inodes);
          return;
        case Passed =>
          ghost var slots0 := slots;
          Proceed(b, f.b, dir, found, off, flat, p);
          Onward(old(slots), slots0);
          b, off := b + 1, off + per;
      }
      NeverFound(flat, list, p, per);
      r := Absent;
    }

    /** One write more. */
    lemma Onward(slots0: seq<seq<Dirent>>, slots1: seq<seq<Dirent>>)
      requires 0 < fs.s && id in fs.inodes
      requires SameBut(slots0, slots1, fs.File(id), fs.File(id)) && SameBut(slots1, slots, fs.File(id), fs.File(id))
      requires OthersHold(fs.s, id, slots0, fs.disk, fs.inodes, slots1, fs.disk, fs.inodes) && Spares(slots1, fs.disk, fs.inodes)
      ensures SameBut(slots0, slots, fs.File(id), fs.File(id)) && Spares(slots0, fs.disk, fs.inodes)
    {
      hide OthersHold;
      HoldOn(fs.s, id, slots0, fs.disk, fs.inodes, slots1, fs.disk, fs.inodes, slots, fs.disk, fs.inodes);
    }

    /** A block was passed: it is written if anything in it moved. */
    method Proceed(b: nat, at: nat, dir: seq<Dirent>, found: bool, ghost off: nat, ghost flat: seq<Dirent>, ghost p: nat)
      requires Shaped() && 0 < fs.s && b < |Dirs()| && |dir| == per && at == fs.File(id)[b] && Begins(off, b, per) && off + per <= |flat|
      requires Blocked(Dirs()[b := dir], per) && Flat(Dirs()[b := dir]) == Shifted(flat, p, off + per) && Blocked(Dirs(), per)
      requires !found ==> Flat(Dirs()) == Shifted(flat, p, off + per)
      modifies this`slots
      ensures SameBut(old(slots), slots, fs.File(id), fs.File(id)) && Spares(old(slots), fs.disk, fs.inodes)
      ensures Shaped() && |Dirs()| == |old(Dirs())| && Blocked(Dirs(), per) && Flat(Dirs()) == Shifted(flat, p, off + per)
      ensures Begins(off + per, b + 1, per) && (b + 1 == |Dirs()| ==> off + per == |flat|)
    {
      hide Inv, Blocked, Flat, Begins, Shifted, Held, SameBut, OthersHold;
      AllSpared();
      if found {
        Overwrite(b, at, dir);
      }
      BeginsNext(off, b, per);
      PastBlocks(Dirs(), per, b + 1, off + per);
    }

    /** An add and a removal of the same name.  While the blocks are within reach, the removal restores the list if and
        only if the add did not fill the last block; if it did, the name stays. */
    method AddThenRemove(name: string, ino: nat, buffer: seq<Dirent>) returns (added: Result, removed: Result)
      requires Valid() && name != "" && |buffer| == per
      modifies this`slots, this`list, fs`disk, fs`bits, fs.bm`blocks, fs`inodes, fs`owner
      ensures added != Fine ==> Valid() && list == old(list)
      ensures added == Fine ==>
                (removed == Wild <==> old(fs.inodes)[id].count + (if Rem(|old(list)|, per) == 0 then 1 else 0) > Reach())
      ensures added == Fine && removed != Wild ==>
                && Valid() && removed == (if Rem(|old(list)| + 1, per) != 0 then Fine else Absent)
                && list == if Rem(|old(list)| + 1, per) != 0 then old(list) else old(list) + [Dirent(name, ino)]
      ensures 0 < fs.s && Spares(old(slots), old(fs.disk), old(fs.inodes))
    {
      hide Inv, Blocked, Flat, LaidOut, Rem, Held, Has, Without, Botched, IndexOf, Needed, FreeCount, OthersHold, SameBut;
      BlocksApart();
      added := Add(name, ino, buffer);
      removed := added;
      if added == Fine {
        WithoutLast(old(list), Dirent(name, ino), per);
        ghost var slots1, disk1, inodes1 := slots, fs.disk, fs.inodes;
        removed := Remove(name);
        HoldOn(fs.s, id, old(slots), old(fs.disk), old(fs.inodes), slots1, disk1, inodes1, slots, fs.disk, fs.inodes);
      }
    }

    /** `write_block` to block `b` of the directory. */
    method Overwrite(b: nat, at: nat, dir: seq<Dirent>)
      requires Shaped() && 0 < fs.s && b < |Dirs()| && |dir| == per && at == fs.File(id)[b]
      modifies this`slots
      ensures Shaped() && Dirs() == old(Dirs())[b := dir]
      ensures SameBut(old(slots), slots, fs.File(id), fs.File(id)) && Spares(old(slots), fs.disk, fs.inodes)
    {
      hide Inv, Held;
      BlocksApart();
      HeldPut(slots, fs.File(id), b, dir);
      slots := slots[at := dir];
      assert at in fs.File(id);
      FilesApart(fs.s, fs.total, fs.first, fs.disk, fs.bits, fs.inodes, fs.owner, id);
      OthersSpared(old(slots), fs.disk, fs.inodes);
    }

    /** The end entry was found: a last block that would hold nothing else goes. */
    method FinishRemoval(b: nat, ghost off: nat, i: nat, found: bool, ghost flat: seq<Dirent>, ghost p: nat, ghost name: string) returns (r: Result)
      requires Shaped() && 0 < fs.s && b < |Dirs()| && Begins(off, b, per) && Blocked(Dirs(), per) && i < per && off + i == |list|
      requires LaidOut(flat, list, per) && Unique(list) && p == IndexOf(list, name) && found == (p < |list|)
      requires Flat(Dirs()) == Shifted(flat, p, off + i)
      modifies this`list, fs`disk, fs`bits, fs.bm`blocks, fs`inodes, fs`owner
      ensures r == Fine && Valid() && list == Without(old(list), p)
      ensures fs.File(id) <= old(fs.File(id)) && Spares(slots, old(fs.disk), old(fs.inodes))
    {
      hide Inv, Blocked, Flat, LaidOut, Begins, Unique, Without, IndexOf, Shifted, Held;
      ghost var blocks, file := Dirs(), fs.File(id);
      FlatEnd(blocks, list, flat, b, off, per);
      EndedOk(flat, list, p, per, off, i);
      DropLast(blocks, per, off);
      UniqueWithout(list, p);
      if found && i == 1 {
        var err := fs.RemoveLast(id);
        HeldLess(slots, file);
      } else {
        AllSpared();
      }
      list := Without(list, p);
      r := Fine;
    }
  }

  /** The end of the list, as the search meets it. */
  lemma Extent(blocks: seq<seq<Dirent>>, list: seq<Dirent>, per: nat, reach: nat)
    requires Lists(blocks, list, per)
    ensures |list| <= |blocks| * per && (|blocks| <= reach ==> |list| <= reach * per)
  {
    FlatSize(blocks, per);
    MulOrder(|blocks|, reach, per);
  }

  /** The search has come to the first block that it cannot find. */
  lemma WithinReach(blocks: seq<seq<Dirent>>, list: seq<Dirent>, per: nat, reach: nat, b: nat, off: nat)
    requires Lists(blocks, list, per) && b == reach < |blocks| && Begins(off, b, per) && off <= |list|
    ensures Min(|list|, reach * per) == off
  {
  }

  /** An entry in a block within reach. */
  lemma NearEntry(blocks: seq<seq<Dirent>>, list: seq<Dirent>, per: nat, reach: nat, b: nat, off: nat, i: nat)
    requires b < reach && Begins(off, b, per) && i < per && off + i < |list|
    ensures off + i < Min(|list|, reach * per)
  {
    MulOrder(b, reach, per);
  }

  /** The end entry is in the last block. */
  lemma EndsWithin(blocks: seq<seq<Dirent>>, list: seq<Dirent>, per: nat, reach: nat, b: nat, off: nat, i: nat)
    requires Lists(blocks, list, per) && b < |blocks| && b < reach && Begins(off, b, per) && i < per && off + i <= |list| && blocks[b][i].name == ""
    requires |blocks[b]| == per
    ensures off + i == |list| && b + 1 == |blocks| && |list| < |Flat(blocks)|
  {
    SlotsOf(blocks, list, per, b, off);
    FullBefore(blocks, list, per, b, off);
  }

  lemma WholeSeen(blocks: seq<seq<Dirent>>, list: seq<Dirent>, per: nat, off: nat)
    requires Lists(blocks, list, per) && off == |Flat(blocks)| && off <= |list|
    ensures |list| == |Flat(blocks)|
  {
  }

  lemma SmallRem(k: nat, per: nat)
    requires k < per
    ensures Rem(k, per) == k
  {
    DivSmall(k, per);
  }

  datatype Step = Ended | Missing | Passed | Lost

  /** The block of the end entry is the last one. */
  lemma FlatEnd(blocks: seq<seq<Dirent>>, list: seq<Dirent>, flat: seq<Dirent>, b: nat, off: nat, per: nat)
    requires Blocked(blocks, per) && b < |blocks| && Begins(off, b, per) && |Flat(blocks)| == |flat| && LaidOut(flat, list, per) && |list| < off + per
    ensures |flat| == off + per && b + 1 == |blocks|
  {
    FlatSize(blocks, per);
    assert (b + 1) * per == b * per + per;
    MulOrder(b, |blocks|, per);
    MulOrder(b + 1, |blocks|, per);
  }

  lemma NewName(list: seq<Dirent>, d: Dirent)
    requires Unique(list) && !Has(list, d.name)
    ensures Unique(list + [d])
  {
  }

  /** A block for the first entry that found none. */
  lemma AddBlock(blocks: seq<seq<Dirent>>, list: seq<Dirent>, per: nat, d: Dirent, dir: seq<Dirent>)
    requires 2 <= per && Blocked(blocks, per) && LaidOut(Flat(blocks), list, per) && |list| == |Flat(blocks)|
    requires |dir| == per && dir[0] == d && dir[1] == END && d.name != ""
    ensures Blocked(blocks + [dir], per) && LaidOut(Flat(blocks + [dir]), list + [d], per)
  {
    assert (blocks + [dir])[..|blocks|] == blocks;
    assert Flat(blocks + [dir]) == Flat(blocks) + dir;
    assert Flat(blocks)[..|list|] == Flat(blocks);
  }

  /** A removal that failed leaves names unique exactly when the name was not in an earlier block. */
  lemma BotchedUnique(list: seq<Dirent>, p: nat, per: nat)
    requires Unique(list) && 0 < per <= |list|
    ensures Unique(Botched(list, p, per)) <==> |list| - per <= p
  {
    var k, f := |list| - per, Botched(list, p, per);
    if p < k {
      assert f[k - 1] == list[k] && f[k] == list[k];
    } else {
      assert f == list;
    }
  }

  /** A directory of two full blocks.  Removing a name from the first one reports that it is absent, and leaves another
      name twice. */
  method RemovalBotched() returns (d: Directory, r: Result)
    ensures d.Shaped() && d.per == 2 && r == Absent
    ensures d.list == [Dirent(".", 5), Dirent("a", 8), Dirent("a", 8), Dirent("b", 9)] && LaidOut(Flat(d.Dirs()), d.list, 2)
  {
    hide Inv, Rem, Lists, Needed, FreeCount, Blocked, Held, Flat;
    d := TwoFull();
    ghost var list := d.list;
    FullTwo(list);
    r := d.Remove("..");
  }

  lemma FullTwo(list: seq<Dirent>)
    requires list == [Dirent(".", 5), Dirent("..", 2), Dirent("a", 8), Dirent("b", 9)]
    ensures Rem(4, 2) == 0 && IndexOf(list, "..") == 1
    ensures Botched(list, 1, 2) == [Dirent(".", 5), Dirent("a", 8), Dirent("a", 8), Dirent("b", 9)]
  {
    hide IndexOf;
    assert list[1].name == "..";
    assert list[0].name != "..";
  }

  method TwoFull() returns (d: Directory)
    ensures fresh(d) && fresh(d.fs) && fresh(d.fs.bm) && d.Valid() && d.per == 2 && d.fs.inodes[d.id].count <= d.Reach()
    ensures d.list == [Dirent(".", 5), Dirent("..", 2), Dirent("a", 8), Dirent("b", 9)]
  {
    hide Inv, Rem, Lists, Needed, FreeCount, Blocked, Held, Flat, Has;
    d := Founded();
    SmallRems();
    FewBlocks(d);
    NotThere(d.list, "a");
    var r := d.Add("a", 8, [END, END]);
    FewBlocks(d);
    NotThere(d.list, "b");
    r := d.Add("b", 9, [END, END]);
    FewBlocks(d);
  }

  method Founded() returns (d: Directory)
    ensures fresh(d) && fresh(d.fs) && fresh(d.fs.bm) && d.Valid() && d.per == 2 && FreeCount(d.fs.bits) == 7
    ensures d.list == [Dirent(".", 5), Dirent("..", 2)]
  {
    hide Inv, Rem, Lists, Needed, FreeCount, Held, Flat;
    var fs := new FileSystem(4, 10, 1, seq(10, _ => seq(4, _ => 0)), 10, OneBlockBitmap(10));
    fs.Create(5);
    d := new Directory(fs, 5, 2, seq(10, _ => [END, END]));
    var r := d.Populate(2, [END, END]);
  }

  lemma NotThere(list: seq<Dirent>, name: string)
    requires forall d :: d in list ==> d.name != name
    ensures !Has(list, name) && !Has(list[..|list|], name)
  {
    assert list[..|list|] == list;
  }

  lemma SmallRems()
    ensures Rem(2, 2) == 0 && Rem(3, 2) == 1
  {
  }

  lemma FewBlocks(d: Directory)
    requires d.Valid() && d.per == 2 && |d.list| <= 4
    ensures 4 <= d.fs.s && d.fs.inodes[d.id].count <= 2 && Needed(d.fs.s, d.fs.inodes[d.id].count) == 1 && d.Near() == |d.list|
  {
    hide Inv, Needed;
    d.BlocksApart();
    FlatSize(d.Dirs(), 2);
    NeededInline(d.fs.s, d.fs.inodes[d.id].count);
  }

  /** A directory grown beyond what lookup can follow: a search for a name that is not there reads past the buffer. */
  method SearchRunsWild() returns (d: Directory, r: Result)
    ensures d.Valid() && d.fs.inodes[d.id].count == DIRECT + 2 * d.fs.s + 1 && !Has(d.list, "b") && r == Wild
  {
    hide Inv, Rem, Lists, Needed, FreeCount, Blocked, Held, Flat, Has;
    var fs := new FileSystem(4, 200, 1, seq(200, _ => seq(4, _ => 0)), 200, OneBlockBitmap(200));
    fs.Create(5);
    d := Empty(fs);
    for k := 0 to 41
      invariant fresh(d) && fresh(d.fs) && fresh(d.fs.bm) && d.Valid() && d.per == 2 && d.fs.s == 4 && |d.list| == k && Alike(d.list) && 198 - 4 * k <= FreeCount(d.fs.bits)
    {
      var name := seq(k + 1, _ => 'a');
      CountTwo(d);
      NewAlike(d.list, name);
      NeedsFew(4, d.fs.inodes[d.id].count);
      NotHas(d.list, d.Near(), name);
      r := d.Add(name, 1, [END, END]);
    }
    CountTwo(d);
    NotAlike(d.list, "b");
    NotHas(d.list, d.Near(), "b");
    var e;
    r, e := d.Lookup("b");
  }

  method Empty(fs: FileSystem) returns (d: Directory)
    requires fs.Valid() && 5 in fs.inodes && fs.File(5) == []
    ensures fresh(d) && d.fs == fs && d.id == 5 && d.per == 2 && d.Valid() && d.list == []
  {
    hide Inv;
    d := new Directory(fs, 5, 2, seq(fs.total, _ => [END, END]));
  }

  /** Every name is a run of `a`, one longer than the one before. */
  ghost predicate Alike(list: seq<Dirent>) {
    forall i :: 0 <= i < |list| ==> list[i].name == seq(i + 1, _ => 'a')
  }

  lemma NewAlike(list: seq<Dirent>, name: string)
    requires Alike(list) && name == seq(|list| + 1, _ => 'a')
    ensures !Has(list, name) && forall ino :: Alike(list + [Dirent(name, ino)])
  {
    forall i | 0 <= i < |list| ensures list[i].name != name {
      assert |list[i].name| == i + 1;
    }
  }

  lemma NotAlike(list: seq<Dirent>, name: string)
    requires Alike(list) && name == "b"
    ensures !Has(list, name)
  {
    forall i | 0 <= i < |list| ensures list[i].name != name {
      assert list[i].name[0] == 'a';
    }
  }

  lemma NotHas(list: seq<Dirent>, k: nat, name: string)
    requires !Has(list, name) && k <= |list|
    ensures !Has(list[..k], name)
  {
  }

  lemma CountTwo(d: Directory)
    requires d.Valid() && d.per == 2
    ensures 4 <= d.fs.s && |d.list| <= 2 * d.fs.inodes[d.id].count <= |d.list| + 1
  {
    hide Inv;
    d.BlocksApart();
    FlatSize(d.Dirs(), 2);
  }

  /** A new last name, and the list without it. */
  lemma WithoutLast(list: seq<Dirent>, d: Dirent, per: nat)
    requires Unique(list + [d]) && 0 < per
    ensures IndexOf(list + [d], d.name) == |list| && Without(list + [d], |list|) == list && Botched(list + [d], |list|, per) == list + [d]
  {
    hide IndexOf, Shifted, Unique;
    LastIndex(list, d);
    ShiftedNever(list + [d], |list|, |list| + 1 - per);
    assert (list + [d])[..|list|] + (list + [d])[|list| + 1..] == list;
  }

  lemma LastIndex(list: seq<Dirent>, d: Dirent)
    requires Unique(list + [d])
    ensures IndexOf(list + [d], d.name) == |list|
  {
    hide IndexOf;
    var longer := list + [d];
    var p := IndexOf(longer, d.name);
    assert longer[|list|] == d;
  }

  lemma ShiftedNever(flat: seq<Dirent>, p: nat, k: int)
    requires |flat| <= p + 1
    ensures 0 <= k <= |flat| ==> Shifted(flat, p, k) == flat
  {
  }

  /** Where removal leaves another name. */
  lemma KeptAt(list: seq<Dirent>, name: string, i: nat)
    requires Unique(list) && i < |list| && list[i].name != name
    ensures var p := IndexOf(list, name); IndexOf(Without(list, p), list[i].name) == if i < p then i else i - 1
  {
    var p := IndexOf(list, name);
    var after, at := Without(list, p), if i < p then i else i - 1;
    assert i != p && after[at] == list[i];
    forall j | 0 <= j < at
      ensures after[j].name != list[i].name
    {
      assert after[j] == list[if j < p then j else j + 1];
    }
  }

  /** What removal leaves of other names: each stays, in the same order. */
  lemma RemovesOnlyOne(list: seq<Dirent>, name: string)
    requires Unique(list)
    ensures var p := IndexOf(list, name); var after := Without(list, p);
            && !Has(after, name)
            && (Has(list, name) <==> p < |list|)
            && (forall d :: d in list && d.name != name ==> d in after)
            && (forall d :: d in after ==> d in list)
            && (forall i, j :: 0 <= i < j < |list| && list[i].name != name && list[j].name != name ==>
                  IndexOf(after, list[i].name) < IndexOf(after, list[j].name))
  {
    hide IndexOf;
    var p := IndexOf(list, name);
    KeepsOthers(list, name, p);
    forall i, j | 0 <= i < j < |list| && list[i].name != name && list[j].name != name
      ensures IndexOf(Without(list, p), list[i].name) < IndexOf(Without(list, p), list[j].name)
    {
      KeptAt(list, name, i);
      KeptAt(list, name, j);
      assert p < |list| ==> list[p].name == name;
    }
  }

  lemma KeepsOthers(list: seq<Dirent>, name: string, p: nat)
    requires Unique(list) && p <= |list| && (p < |list| ==> list[p].name == name) && forall j :: 0 <= j < p ==> list[j].name != name
    ensures var after := Without(list, p);
            && !Has(after, name)
            && (Has(list, name) <==> p < |list|)
            && (forall d :: d in list && d.name != name ==> d in after)
            && (forall d :: d in after ==> d in list)
  {
    var after := Without(list, p);
    forall d | d in list && d.name != name
      ensures d in after
    {
      var i :| 0 <= i < |list| && list[i] == d;
      if p < |list| {
        assert i != p;
        assert after[if i < p then i else i - 1] == d;
      }
    }
  }
}

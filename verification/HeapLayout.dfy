/** The words of the kernel heap, as `kernel/memory/kmalloc.c` lays them out.

Memory is a sequence of 8-byte words and an address is a word index; address 0 is NULL.
From `lo` upwards the heap holds six list heads, a two-word prologue block, the blocks, and at
`brk - 1` the epilogue word.  A block of `words` words at header address `p` has its tag
(byte size, plus 1 when allocated) at `p` and again at `p + words - 1`; a free block
keeps its list links at `p + 1` (previous) and `p + 2` (next).

Two ghost values describe a heap: `blk` maps each header address to its block, and `lists`
holds the members of the six free lists in link order. */
module HeapLayout {

  const NULL: nat := 0
  const CLASSES: nat := 6

  // A `Loose` block is tagged free but is on no list: the state of a block between being
  // unlinked (or freed) and being linked again.
  datatype Status = Used | Free | Loose

  datatype Block = Block(words: nat, status: Status)

  type Blocks = map<nat, Block>

  // ---------------------------------------------------------------------------
  // Tags and size classes
  // ---------------------------------------------------------------------------

  function Tag(words: nat, used: bool): nat {
    8 * words + if used then 1 else 0
  }

  /** `tag & ~0xF`, in words. */
  function TagWords(tag: nat): nat {
    tag / 16 * 2
  }

  /** `tag & 0x1`. */
  predicate TagUsed(tag: nat) {
    tag % 2 == 1
  }

  /** `align(size + DWS)`, in words: the block size a request of `size` bytes needs. */
  function NeedWords(size: nat): nat {
    (size + 31) / 16 * 2
  }

  /** The free list a block of `words` words belongs to. */
  function ClassOf(words: nat): (k: nat)
    ensures k < CLASSES
  {
    if words <= 4 then 0
    else if words <= 8 then 1
    else if words <= 12 then 2
    else if words <= 24 then 3
    else if words <= 64 then 4
    else 5
  }

  // ---------------------------------------------------------------------------
  // The invariant
  // ---------------------------------------------------------------------------

  ghost function Next(blk: Blocks, p: nat): nat
    requires p in blk
  {
    p + blk[p].words
  }

  /** The prologue is in place, and blocks lie inside the heap, with sizes that are multiples of 16
      bytes and, past the prologue, at least 32 bytes. */
  ghost predicate Sized(blk: Blocks, base: nat, epi: nat) {
    && base in blk && blk[base] == Block(2, Used)
    && (forall p :: p in blk ==>
          && base <= p && p + blk[p].words <= epi
          && 2 <= blk[p].words && blk[p].words % 2 == 0
          && (p != base ==> 4 <= blk[p].words))
  }

  /** Where a block ends, the next one or the epilogue starts. */
  ghost predicate Chained(blk: Blocks, epi: nat) {
    forall p {:trigger Next(blk, p)} :: p in blk ==> Next(blk, p) in blk || Next(blk, p) == epi
  }

  ghost predicate Disjoint(blk: Blocks) {
    forall p, q :: p in blk && q in blk && p < q ==> p + blk[p].words <= q
  }

  /** The blocks from `base` run without gap or overlap up to the epilogue at `epi`. */
  ghost predicate Tiled(blk: Blocks, base: nat, epi: nat) {
    Sized(blk, base, epi) && Chained(blk, epi) && Disjoint(blk)
  }

  ghost predicate TagOk(m: seq<nat>, p: nat, b: Block) {
    && 0 < b.words && p + b.words <= |m|
    && m[p] == Tag(b.words, b.status.Used?)
    && m[p + b.words - 1] == Tag(b.words, b.status.Used?)
  }

  /** Header and footer of every block but `skip` carry its size and allocation bit. */
  ghost predicate Tagged(m: seq<nat>, blk: Blocks, skip: nat) {
    forall p :: p in blk && p != skip ==> TagOk(m, p, blk[p])
  }

  ghost function At(l: seq<nat>, i: int): nat {
    if 0 <= i < |l| then l[i] else NULL
  }

  ghost predicate NodeOk(m: seq<nat>, l: seq<nat>, i: int)
    requires 0 <= i < |l|
  {
    && 0 < l[i] && l[i] + 2 < |m|
    && m[l[i] + 1] == At(l, i - 1)
    && m[l[i] + 2] == At(l, i + 1)
  }

  /** The links stored at the members of `l` thread them in order, starting from `head`. */
  ghost predicate Linked(m: seq<nat>, head: nat, l: seq<nat>) {
    && head == At(l, 0)
    && (forall i :: 0 <= i < |l| ==> NodeOk(m, l, i))
    && (forall i, j :: 0 <= i < j < |l| ==> l[i] != l[j])
  }

  /** List `k` links, from its head word, exactly the free blocks of class `k`. */
  ghost predicate Listed(m: seq<nat>, lo: nat, blk: Blocks, lists: seq<seq<nat>>) {
    && |lists| == CLASSES && lo + CLASSES <= |m|
    && (forall k :: 0 <= k < CLASSES ==> Linked(m, m[lo + k], lists[k]))
    && (forall k, p :: 0 <= k < CLASSES && p in lists[k] ==>
          p in blk && blk[p].status == Free && ClassOf(blk[p].words) == k)
    && (forall p :: p in blk && blk[p].status == Free ==> p in lists[ClassOf(blk[p].words)])
  }

  /** No free block is followed by a free block. */
  ghost predicate Coalesced(blk: Blocks) {
    forall p {:trigger Next(blk, p)} ::
      p in blk && blk[p].status == Free && Next(blk, p) in blk ==> blk[Next(blk, p)].status != Free
  }

  ghost predicate Shape(m: seq<nat>, lo: nat, brk: nat, end: nat, blk: Blocks, lists: seq<seq<nat>>, skip: nat) {
    && 0 < lo && lo + 9 <= brk <= end <= |m|
    && Tiled(blk, lo + 6, brk - 1)
    && Tagged(m, blk, skip) && m[brk - 1] == Tag(0, true)
    && Listed(m, lo, blk, lists)
    && Coalesced(blk)
  }

  ghost predicate NoLoose(blk: Blocks) {
    forall p :: p in blk ==> blk[p].status != Loose
  }

  /** Every allocated block of `(m, blk)` but `but` is still there in `(m', blk')`, payload included. */
  ghost predicate Keeps(m: seq<nat>, blk: Blocks, m': seq<nat>, blk': Blocks, but: nat) {
    && |m| == |m'|
    && (forall p :: p in blk && blk[p].status == Used && p != but ==>
          p in blk' && blk'[p] == blk[p] && SamePayload(m, m', p, blk[p].words))
  }

  /** The words between the tags of a block. */
  ghost function Payload(m: seq<nat>, p: nat, words: nat): seq<nat> {
    if 2 <= words && p + words <= |m| then m[p + 1..p + words - 1] else []
  }

  ghost predicate SamePayload(m: seq<nat>, m': seq<nat>, p: nat, words: nat) {
    forall i :: p < i < p + words - 1 && i < |m| && i < |m'| ==> m'[i] == m[i]
  }

  /** No block became allocated. */
  ghost predicate NoNewUsed(blk: Blocks, blk': Blocks) {
    forall p :: p in blk' && blk'[p].status == Used ==> p in blk && blk[p] == blk'[p]
  }

  /** What a heap of this shape says about one block. */
  lemma BlockFacts(m: seq<nat>, lo: nat, brk: nat, end: nat, blk: Blocks, lists: seq<seq<nat>>, skip: nat, p: nat)
    requires Shape(m, lo, brk, end, blk, lists, skip) && p in blk
    ensures |lists| == CLASSES && NULL !in blk && lo + 6 in blk
    ensures lo + 6 <= p && p + blk[p].words < brk && 2 <= blk[p].words && blk[p].words % 2 == 0
    ensures p != lo + 6 ==> 4 <= blk[p].words
    ensures p == lo + 6 ==> blk[p].status == Used
    ensures p != skip ==>
              && m[p] == m[p + blk[p].words - 1] == Tag(blk[p].words, blk[p].status.Used?)
              && TagWords(m[p]) == blk[p].words && TagUsed(m[p]) == blk[p].status.Used?
  {
    hide Chained, Coalesced, Disjoint, Linked;
    if p != skip {
      assert TagOk(m, p, blk[p]);
    }
  }

  /** What the word after a block says about the block there. */
  lemma NextFacts(m: seq<nat>, lo: nat, brk: nat, end: nat, blk: Blocks, lists: seq<seq<nat>>, p: nat)
    requires Shape(m, lo, brk, end, blk, lists, NULL) && p in blk
    ensures Next(blk, p) < brk
    ensures !TagUsed(m[Next(blk, p)]) ==> Next(blk, p) in blk && blk[Next(blk, p)].status != Used
    ensures TagUsed(m[Next(blk, p)]) ==> Next(blk, p) in blk ==> blk[Next(blk, p)].status == Used
  {
    if Next(blk, p) in blk {
      BlockFacts(m, lo, brk, end, blk, lists, NULL, Next(blk, p));
    }
  }

  lemma BaseFacts(m: seq<nat>, lo: nat, brk: nat, end: nat, blk: Blocks, lists: seq<seq<nat>>)
    requires Shape(m, lo, brk, end, blk, lists, NULL)
    ensures |lists| == CLASSES && NULL !in blk && lo + 6 in blk && blk[lo + 6] == Block(2, Used)
  {
    hide Chained, Coalesced, Disjoint, Linked;
  }

  // ---------------------------------------------------------------------------
  // Tiling
  // ---------------------------------------------------------------------------

  /** Every position but the first has a block ending there. */
  lemma {:induction false} FindPrev(blk: Blocks, base: nat, epi: nat, q: nat, from: nat) returns (p: nat)
    requires Tiled(blk, base, epi)
    requires q in blk || q == epi
    requires from in blk && from < q
    ensures p in blk && Next(blk, p) == q
    decreases q - from
  {
    if Next(blk, from) == q {
      p := from;
    } else {
      p := FindPrev(blk, base, epi, q, Next(blk, from));
    }
  }

  lemma PrevUnique(blk: Blocks, base: nat, epi: nat, p: nat, p': nat)
    requires Tiled(blk, base, epi)
    requires p in blk && p' in blk && Next(blk, p) == Next(blk, p')
    ensures p == p'
  {
  }

  ghost function Split(blk: Blocks, p: nat, w: nat, s: Status, s': Status): Blocks
    requires p in blk && w <= blk[p].words
  {
    blk[p := Block(w, s)][p + w := Block(blk[p].words - w, s')]
  }

  ghost function Merge(blk: Blocks, p: nat, q: nat, s: Status): Blocks
    requires p in blk && q in blk
  {
    (blk - {q})[p := Block(blk[p].words + blk[q].words, s)]
  }

  lemma SplitDisjoint(blk: Blocks, p: nat, w: nat, s: Status, s': Status)
    requires Disjoint(blk) && p in blk && 0 < w < blk[p].words
    ensures Disjoint(Split(blk, p, w, s, s')) && p + w !in blk
  {
    var blk' := Split(blk, p, w, s, s');
    assert p + w !in blk;
    forall a, b | a in blk' && b in blk' && a < b
      ensures a + blk'[a].words <= b
    {
      if a == p + w {
        assert b in blk && p < b;
      } else if b == p + w {
        assert a in blk && !(p < a);
      } else {
        assert a in blk && b in blk;
      }
    }
  }

  lemma SplitTiled(blk: Blocks, base: nat, epi: nat, p: nat, w: nat, s: Status, s': Status)
    requires Tiled(blk, base, epi)
    requires p in blk && p != base
    requires 4 <= w && w + 4 <= blk[p].words && w % 2 == 0
    ensures Tiled(Split(blk, p, w, s, s'), base, epi)
    ensures p + w !in blk
  {
    var blk' := Split(blk, p, w, s, s');
    SplitDisjoint(blk, p, w, s, s');
    assert Sized(blk', base, epi);
    forall r | r in blk'
      ensures Next(blk', r) in blk' || Next(blk', r) == epi
    {
      if r == p + w {
        assert Next(blk, p) in blk || Next(blk, p) == epi;
      } else if r != p {
        assert Next(blk, r) in blk || Next(blk, r) == epi;
      }
    }
  }

  lemma MergeDisjoint(blk: Blocks, p: nat, q: nat, s: Status)
    requires Disjoint(blk) && p in blk && q in blk && Next(blk, p) == q && 0 < blk[p].words
    ensures Disjoint(Merge(blk, p, q, s))
  {
    var blk' := Merge(blk, p, q, s);
    forall a, b | a in blk' && b in blk' && a < b
      ensures a + blk'[a].words <= b
    {
      assert a in blk && b in blk;
      assert a == p ==> b > q;
    }
  }

  lemma MergeTiled(blk: Blocks, base: nat, epi: nat, p: nat, q: nat, s: Status)
    requires Tiled(blk, base, epi)
    requires p in blk && p != base && Next(blk, p) == q && q in blk
    ensures Tiled(Merge(blk, p, q, s), base, epi)
  {
    hide Disjoint;
    var blk' := Merge(blk, p, q, s);
    MergeDisjoint(blk, p, q, s);
    forall r | r in blk'
      ensures Next(blk', r) in blk' || Next(blk', r) == epi
    {
      if r == p {
        assert Next(blk, q) in blk || Next(blk, q) == epi;
        assert Next(blk', p) == Next(blk, q) && Next(blk, q) != q;
      } else {
        assert Next(blk, r) in blk || Next(blk, r) == epi;
        if Next(blk, r) == q { PrevUnique(blk, base, epi, p, r); }
      }
    }
  }

  lemma ExtendTiled(blk: Blocks, base: nat, epi: nat, w: nat, s: Status)
    requires Tiled(blk, base, epi) && base < epi
    requires 4 <= w && w % 2 == 0
    ensures Tiled(blk[epi := Block(w, s)], base, epi + w)
    ensures epi !in blk
  {
    var blk' := blk[epi := Block(w, s)];
    forall r | r in blk'
      ensures Next(blk', r) in blk' || Next(blk', r) == epi + w
    {
      assert r in blk ==> Next(blk, r) in blk || Next(blk, r) == epi;
    }
  }

  lemma RestatusTiled(blk: Blocks, base: nat, epi: nat, p: nat, s: Status)
    requires Tiled(blk, base, epi)
    requires p in blk && p != base
    ensures Tiled(blk[p := Block(blk[p].words, s)], base, epi)
  {
    var blk' := blk[p := Block(blk[p].words, s)];
    forall r | r in blk'
      ensures Next(blk', r) in blk' || Next(blk', r) == epi
    {
      assert Next(blk, r) in blk || Next(blk, r) == epi;
    }
  }

  // ---------------------------------------------------------------------------
  // Lists
  // ---------------------------------------------------------------------------

  lemma LinkedFrame(m: seq<nat>, m': seq<nat>, head: nat, l: seq<nat>)
    requires Linked(m, head, l) && |m| == |m'|
    requires forall i :: 0 <= i < |l| ==> l[i] + 2 < |m| && m'[l[i] + 1] == m[l[i] + 1] && m'[l[i] + 2] == m[l[i] + 2]
    ensures Linked(m', head, l)
  {
    forall i | 0 <= i < |l|
      ensures NodeOk(m', l, i)
    {
      assert NodeOk(m, l, i);
    }
  }

  /** Linking a new node in front of `l` (kmalloc.c:122-129). */
  lemma LinkedInsert(m: seq<nat>, m': seq<nat>, l: seq<nat>, p: nat)
    requires Linked(m, At(l, 0), l) && |m| == |m'|
    requires 0 < p && p + 2 < |m|
    requires forall i :: 0 <= i < |l| ==> p + 2 < l[i] || l[i] + 2 < p
    requires m'[p + 1] == NULL && m'[p + 2] == At(l, 0)
    requires forall i :: 0 <= i < |l| ==> l[i] + 2 < |m|
    requires l != [] ==> m'[l[0] + 1] == p && m'[l[0] + 2] == m[l[0] + 2]
    requires forall i :: 1 <= i < |l| ==> m'[l[i] + 1] == m[l[i] + 1] && m'[l[i] + 2] == m[l[i] + 2]
    ensures Linked(m', p, [p] + l)
  {
    var l' := [p] + l;
    forall i | 0 <= i < |l'|
      ensures NodeOk(m', l', i)
    {
      if i > 0 {
        assert NodeOk(m, l, i - 1);
      }
    }
  }

  /** Unlinking the `i`-th node of `l` (kmalloc.c:178-198). */
  lemma LinkedRemove(m: seq<nat>, m': seq<nat>, l: seq<nat>, i: nat)
    requires Linked(m, At(l, 0), l) && |m| == |m'|
    requires i < |l|
    requires forall j :: 0 <= j < |l| ==> l[j] + 2 < |m|
    requires forall j :: 0 <= j < |l| && j != i - 1 ==> m'[l[j] + 2] == m[l[j] + 2]
    requires forall j :: 0 <= j < |l| && j != i + 1 ==> m'[l[j] + 1] == m[l[j] + 1]
    requires 0 < i ==> m'[l[i - 1] + 2] == At(l, i + 1)
    requires i + 1 < |l| ==> m'[l[i + 1] + 1] == At(l, i - 1)
    ensures Linked(m', At(l[..i] + l[i + 1..], 0), l[..i] + l[i + 1..])
  {
    var l' := l[..i] + l[i + 1..];
    forall j | 0 <= j < |l'|
      ensures NodeOk(m', l', j)
    {
      assert NodeOk(m, l, if j < i then j else j + 1);
    }
  }

  ghost function IndexOf(l: seq<nat>, p: nat): (i: nat)
    requires p in l
    ensures i < |l| && l[i] == p
  {
    var i :| 0 <= i < |l| && l[i] == p; i
  }

  ghost function Without(l: seq<nat>, p: nat): seq<nat>
    requires p in l
  {
    l[..IndexOf(l, p)] + l[IndexOf(l, p) + 1..]
  }

  lemma WithoutMembers(m: seq<nat>, head: nat, l: seq<nat>, p: nat)
    requires Linked(m, head, l) && p in l
    ensures forall x :: x in Without(l, p) <==> x in l && x != p
  {
    var i := IndexOf(l, p);
    forall x | x in l && x != p
      ensures x in Without(l, p)
    {
      var j := IndexOf(l, x);
      assert Without(l, p)[if j < i then j else j - 1] == x;
    }
  }

  // ---------------------------------------------------------------------------
  // Writes
  // ---------------------------------------------------------------------------

  lemma KeepsTrans(m: seq<nat>, blk: Blocks, m1: seq<nat>, blk1: Blocks, m2: seq<nat>, blk2: Blocks, but: nat)
    requires Keeps(m, blk, m1, blk1, but) && Keeps(m1, blk1, m2, blk2, but)
    requires forall p :: p in blk ==> p + blk[p].words <= |m|
    ensures Keeps(m, blk, m2, blk2, but)
  {
    forall p | p in blk && blk[p].status == Used && p != but
      ensures p in blk2 && blk2[p] == blk[p] && SamePayload(m, m2, p, blk[p].words)
    {
      assert SamePayload(m, m1, p, blk[p].words);
      assert SamePayload(m1, m2, p, blk[p].words);
    }
  }

  lemma KeepsTransIn(m: seq<nat>, lo: nat, brk: nat, blk: Blocks, m1: seq<nat>, blk1: Blocks,
                     m2: seq<nat>, blk2: Blocks, but: nat)
    requires Keeps(m, blk, m1, blk1, but) && Keeps(m1, blk1, m2, blk2, but)
    requires 0 < brk <= |m| && Tiled(blk, lo + 6, brk - 1)
    ensures Keeps(m, blk, m2, blk2, but)
  {
    KeepsTrans(m, blk, m1, blk1, m2, blk2, but);
  }

  /** A change confined to a block that is not allocated. */
  lemma KeepsBut(m: seq<nat>, blk: Blocks, m': seq<nat>, blk': Blocks, p: nat)
    requires Keeps(m, blk, m', blk', p) && p in blk && blk[p].status != Used
    ensures Keeps(m, blk, m', blk', NULL)
  {
  }

  lemma KeepsAt(m: seq<nat>, blk: Blocks, m': seq<nat>, blk': Blocks, p: nat)
    requires Keeps(m, blk, m', blk', NULL) && p in blk && blk[p].status == Used && p != NULL
    ensures p in blk' && blk'[p] == blk[p]
  {
  }

  lemma KeepsLess(m': seq<nat>, m: seq<nat>, blk: Blocks, p: nat, blk1: Blocks, blk': Blocks)
    requires p in blk && NULL !in blk && blk1 == blk[p := Block(blk[p].words, Loose)]
    requires Keeps(m, blk1, m', blk', NULL)
    ensures Keeps(m, blk, m', blk', p)
  {
  }

  lemma KeepsSelfBut(m: seq<nat>, blk: Blocks, p: nat)
    ensures Keeps(m, blk, m, blk, p)
  {
  }

  lemma KeepsFewer(m: seq<nat>, blk: Blocks, m': seq<nat>, blk': Blocks, p: nat)
    requires Keeps(m, blk, m', blk', NULL) && NULL !in blk
    ensures Keeps(m, blk, m', blk', p)
  {
  }

  lemma KeepsLength(m: seq<nat>, blk: Blocks, m': seq<nat>, blk': Blocks, p: nat)
    requires Keeps(m, blk, m', blk', p)
    ensures |m| == |m'|
  {
  }

  lemma KeepsPayload(m: seq<nat>, blk: Blocks, m': seq<nat>, blk': Blocks, but: nat, p: nat, a: nat)
    requires Keeps(m, blk, m', blk', but) && p in blk && blk[p].status == Used && p != but
    requires p < a < p + blk[p].words - 1 && a < |m|
    ensures a < |m'| && m'[a] == m[a] && p in blk' && blk'[p] == blk[p]
  {
    assert SamePayload(m, m', p, blk[p].words);
  }

  lemma SamePayloadTrans(m: seq<nat>, blk: Blocks, m1: seq<nat>, blk1: Blocks, m2: seq<nat>, p: nat)
    requires Keeps(m, blk, m1, blk1, NULL) && p in blk && p != NULL && blk[p].status == Used
    requires p + blk[p].words <= |m| && SamePayload(m1, m2, p, blk[p].words) && |m1| == |m2|
    ensures SamePayload(m, m2, p, blk[p].words)
  {
    assert SamePayload(m, m1, p, blk[p].words);
  }

  lemma SamePayloadIs(m: seq<nat>, m': seq<nat>, p: nat, words: nat)
    requires SamePayload(m, m', p, words) && |m| == |m'|
    ensures Payload(m', p, words) == Payload(m, p, words)
  {
  }

  lemma PayloadLength(m: seq<nat>, p: nat, words: nat)
    requires 2 <= words && p + words <= |m|
    ensures |Payload(m, p, words)| == words - 2
  {
  }

  lemma PayloadGrows(m: seq<nat>, m': seq<nat>, p: nat, w: nat, w': nat)
    requires SamePayload(m, m', p, w) && |m| == |m'| && w <= w' && p + w' <= |m|
    ensures Payload(m, p, w) <= Payload(m', p, w')
  {
  }

  ghost predicate Copied(m: seq<nat>, src: nat, m': seq<nat>, dst: nat, n: nat) {
    src + n <= |m| && dst + n <= |m'| && m'[dst..dst + n] == m[src..src + n]
  }

  lemma CopyStep(m: seq<nat>, src: nat, m1: seq<nat>, dst: nat, i: nat, m2: seq<nat>)
    requires Copied(m, src, m1, dst, i)
    requires src + i < |m| && dst + i < |m1| && m2 == m1[dst + i := m[src + i]]
    ensures Copied(m, src, m2, dst, i + 1)
  {
    assert m2[dst..dst + i] == m1[dst..dst + i];
    assert m2[dst..dst + i + 1] == m2[dst..dst + i] + [m2[dst + i]];
    assert m[src..src + i + 1] == m[src..src + i] + [m[src + i]];
  }

  lemma CopyDone(m: seq<nat>, src: nat, w: nat, m': seq<nat>, dst: nat, w': nat, n: nat)
    requires 0 < src && 0 < dst && n + 2 <= w && n + 2 <= w' && src - 1 + w <= |m| && dst - 1 + w' <= |m'|
    requires Copied(m, src, m', dst, n)
    ensures |Payload(m', dst - 1, w')| == w' - 2 && |Payload(m, src - 1, w)| == w - 2
    ensures Payload(m', dst - 1, w')[..n] == Payload(m, src - 1, w)[..n]
  {
    assert Payload(m', dst - 1, w')[..n] == m'[dst..dst + n];
    assert Payload(m, src - 1, w)[..n] == m[src..src + n];
  }

  lemma KeepsContents(m: seq<nat>, blk: Blocks, m': seq<nat>, blk': Blocks, but: nat, p: nat)
    requires Keeps(m, blk, m', blk', but) && p in blk && blk[p].status == Used && p != but
    ensures p in blk' && blk'[p] == blk[p] && Payload(m', p, blk[p].words) == Payload(m, p, blk[p].words)
  {
    SamePayloadIs(m, m', p, blk[p].words);
  }

  lemma RelocateKeeps(m: seq<nat>, lo: nat, brk: nat, blk: Blocks, m1: seq<nat>, blk1: Blocks, m2: seq<nat>,
                      m3: seq<nat>, blk3: Blocks, p: nat, r: nat)
    requires 0 < brk <= |m| && Tiled(blk, lo + 6, brk - 1) && NULL !in blk
    requires Keeps(m, blk, m1, blk1, NULL) && Keeps(m1, blk1, m2, blk1, r) && Keeps(m2, blk1, m3, blk3, p)
    requires !(r in blk && blk[r].status == Used)
    ensures Keeps(m, blk, m3, blk3, p)
  {
    assert Keeps(m, blk, m2, blk1, NULL) by {
      forall q | q in blk && blk[q].status == Used
        ensures q in blk1 && blk1[q] == blk[q] && SamePayload(m, m2, q, blk[q].words)
      {
        assert SamePayload(m, m1, q, blk[q].words);
        assert SamePayload(m1, m2, q, blk[q].words);
      }
    }
    KeepsFewer(m, blk, m2, blk1, p);
    KeepsTransIn(m, lo, brk, blk, m2, blk1, m3, blk3, p);
  }

  lemma KeepsSelf(m: seq<nat>, blk: Blocks)
    ensures Keeps(m, blk, m, blk, NULL)
  {
  }

  lemma UsedBefore(blk: Blocks, base: nat, epi: nat, p: nat, q: nat)
    requires Tiled(blk, base, epi) && p in blk && q in blk && Next(blk, p) == q && blk[p].status == Used
    ensures NoFreeBefore(blk, q)
  {
    forall r | r in blk && Next(blk, r) == q
      ensures blk[r].status != Free
    {
      PrevUnique(blk, base, epi, p, r);
    }
  }

  /** A write to a list head or to a link word of a block that is not allocated touches no tag and
      no payload. */
  ghost predicate LinkWord(blk: Blocks, lo: nat, a: nat, q: nat) {
    lo <= a < lo + CLASSES || (q in blk && blk[q].status != Used && (a == q + 1 || a == q + 2))
  }

  lemma WriteLink(m: seq<nat>, lo: nat, brk: nat, blk: Blocks, skip: nat, a: nat, v: nat, q: nat)
    requires lo + 9 <= brk <= |m| && Tiled(blk, lo + 6, brk - 1)
    requires LinkWord(blk, lo, a, q)
    requires Tagged(m, blk, skip) && m[brk - 1] == Tag(0, true)
    ensures a < |m| && Tagged(m[a := v], blk, skip) && m[a := v][brk - 1] == Tag(0, true)
    ensures Keeps(m, blk, m[a := v], blk, NULL)
  {
    var m' := m[a := v];
    forall p | p in blk
      ensures p != skip ==> TagOk(m', p, blk[p])
      ensures blk[p].status == Used ==> SamePayload(m, m', p, blk[p].words)
    {
      if p != skip {
        assert TagOk(m, p, blk[p]);
      }
      if lo + 6 <= a {
        assert p == q || p < q || q < p;
      }
    }
  }

  /** The words after unlinking block `p` from list `k` (kmalloc.c:173-199). */
  ghost function Unlinked(m: seq<nat>, lo: nat, k: nat, p: nat): (m': seq<nat>)
    requires lo + k < |m| && p + 2 < |m|
    requires m[p + 1] + 2 < |m| && m[p + 2] + 1 < |m|
    ensures |m'| == |m|
  {
    var m1 := if m[p + 1] != NULL then m[m[p + 1] + 2 := m[p + 2]] else m[lo + k := m[p + 2]];
    if m[p + 2] != NULL then m1[m[p + 2] + 1 := m[p + 1]] else m1
  }

  lemma ListedFacts(m: seq<nat>, lo: nat, brk: nat, blk: Blocks, lists: seq<seq<nat>>, k: nat, i: nat)
    requires lo + 9 <= brk <= |m| && Tiled(blk, lo + 6, brk - 1) && Listed(m, lo, blk, lists)
    requires k < CLASSES && i < |lists[k]|
    ensures lists[k][i] in blk && blk[lists[k][i]].status == Free && blk[lists[k][i]].words >= 4
    ensures lo + 6 < lists[k][i]
    ensures NodeOk(m, lists[k], i)
    ensures lists[k][i] + 3 < brk
  {
    hide Chained;
    assert lists[k][i] in lists[k];
    assert Linked(m, m[lo + k], lists[k]);
  }

  lemma NodesApart(blk: Blocks, base: nat, epi: nat, x: nat, y: nat)
    requires Tiled(blk, base, epi) && x in blk && y in blk && x != y
    requires blk[x].words >= 4 && blk[y].words >= 4
    ensures x + 3 < y || y + 3 < x
  {
  }

  /** What an unlink of `p` writes, as addresses apart from every other node's link words. */
  lemma UnlinkWrites(m: seq<nat>, lo: nat, brk: nat, blk: Blocks, lists: seq<seq<nat>>, p: nat)
    requires lo + 9 <= brk <= |m| && Tiled(blk, lo + 6, brk - 1) && Listed(m, lo, blk, lists)
    requires p in blk && blk[p].status == Free
    ensures var k := ClassOf(blk[p].words); var l := lists[k]; var i := IndexOf(l, p);
            && p + 2 < |m| && m[p + 1] == At(l, i - 1) && m[p + 2] == At(l, i + 1)
            && m[p + 1] + 3 < brk && m[p + 2] + 3 < brk && m[p + 1] != p && m[p + 1] + 1 != p
            && (m[p + 1] != NULL ==> lo + 6 < m[p + 1] && m[p + 1] in blk && blk[m[p + 1]].status == Free && blk[m[p + 1]].words >= 4)
            && (m[p + 2] != NULL ==> lo + 6 < m[p + 2] && m[p + 2] in blk && blk[m[p + 2]].status == Free && blk[m[p + 2]].words >= 4)
  {
    hide Chained;
    var k := ClassOf(blk[p].words);
    var l := lists[k];
    var i := IndexOf(l, p);
    assert Linked(m, m[lo + k], l);
    ListedFacts(m, lo, brk, blk, lists, k, i);
    if i > 0 { ListedFacts(m, lo, brk, blk, lists, k, i - 1); }
    if i + 1 < |l| { ListedFacts(m, lo, brk, blk, lists, k, i + 1); }
  }

  lemma UnlinkOther(m: seq<nat>, lo: nat, brk: nat, blk: Blocks, lists: seq<seq<nat>>, p: nat, j: nat)
    requires lo + 9 <= brk <= |m| && Tiled(blk, lo + 6, brk - 1) && Listed(m, lo, blk, lists)
    requires p in blk && blk[p].status == Free
    requires j < CLASSES && j != ClassOf(blk[p].words)
    ensures p + 2 < |m| && m[p + 1] + 2 < |m| && m[p + 2] + 1 < |m|
    ensures var m' := Unlinked(m, lo, ClassOf(blk[p].words), p); Linked(m', m'[lo + j], lists[j])
  {
    hide Tiled, Linked;
    UnlinkWrites(m, lo, brk, blk, lists, p);
    var k := ClassOf(blk[p].words);
    var m' := Unlinked(m, lo, k, p);
    var pv, nx := m[p + 1], m[p + 2];
    assert pv != NULL ==> pv in lists[k];
    assert nx != NULL ==> nx in lists[k];
    forall t | 0 <= t < |lists[j]|
      ensures lists[j][t] + 2 < |m|
      ensures m'[lists[j][t] + 1] == m[lists[j][t] + 1] && m'[lists[j][t] + 2] == m[lists[j][t] + 2]
    {
      var x := lists[j][t];
      ListedFacts(m, lo, brk, blk, lists, j, t);
      assert x in lists[j];
      if pv != NULL { NodesApart(blk, lo + 6, brk - 1, x, pv); }
      if nx != NULL { NodesApart(blk, lo + 6, brk - 1, x, nx); }
    }
    LinkedFrame(m, m', m[lo + j], lists[j]);
  }

  lemma UnlinkSame(m: seq<nat>, lo: nat, brk: nat, blk: Blocks, lists: seq<seq<nat>>, p: nat)
    requires lo + 9 <= brk <= |m| && Tiled(blk, lo + 6, brk - 1) && Listed(m, lo, blk, lists)
    requires p in blk && blk[p].status == Free
    ensures p + 2 < |m| && m[p + 1] + 2 < |m| && m[p + 2] + 1 < |m|
    ensures var k := ClassOf(blk[p].words); var m' := Unlinked(m, lo, k, p);
            Linked(m', m'[lo + k], Without(lists[k], p))
  {
    hide Tiled, Listed;
    UnlinkWrites(m, lo, brk, blk, lists, p);
    var k := ClassOf(blk[p].words);
    ListedLinked(m, lo, blk, lists, k);
    var m' := Unlinked(m, lo, k, p);
    var l := lists[k];
    var i: int := IndexOf(l, p);
    if i > 0 { ListedFacts(m, lo, brk, blk, lists, k, i - 1); }
    if i + 1 < |l| { ListedFacts(m, lo, brk, blk, lists, k, i + 1); }
    if 0 < i && i + 1 < |l| { NodesApart(blk, lo + 6, brk - 1, l[i - 1], l[i + 1]); }
    forall t: int | 0 <= t < |l|
      ensures l[t] + 2 < |m|
      ensures t != i - 1 ==> m'[l[t] + 2] == m[l[t] + 2]
      ensures t != i + 1 ==> m'[l[t] + 1] == m[l[t] + 1]
    {
      ListedFacts(m, lo, brk, blk, lists, k, t);
      if 0 < i && t != i - 1 { NodesApart(blk, lo + 6, brk - 1, l[t], l[i - 1]); }
      if i + 1 < |l| && t != i + 1 { NodesApart(blk, lo + 6, brk - 1, l[t], l[i + 1]); }
    }
    LinkedRemove(m, m', l, i);
  }

  lemma ListedLinked(m: seq<nat>, lo: nat, blk: Blocks, lists: seq<seq<nat>>, k: nat)
    requires Listed(m, lo, blk, lists) && k < CLASSES
    ensures |lists| == CLASSES && Linked(m, m[lo + k], lists[k])
    ensures forall p :: p in blk && blk[p].status == Free ==> p in lists[ClassOf(blk[p].words)]
  {
  }

  lemma UnlinkLists(m: seq<nat>, lo: nat, brk: nat, blk: Blocks, lists: seq<seq<nat>>, p: nat)
    requires lo + 9 <= brk <= |m| && Tiled(blk, lo + 6, brk - 1) && Listed(m, lo, blk, lists)
    requires p in blk && blk[p].status == Free
    ensures p + 2 < |m| && m[p + 1] + 2 < |m| && m[p + 2] + 1 < |m|
    ensures var k := ClassOf(blk[p].words);
            Listed(Unlinked(m, lo, k, p), lo, blk[p := Block(blk[p].words, Loose)],
                   lists[k := Without(lists[k], p)])
  {
    hide Chained, Disjoint, Linked, Unlinked, LinkedIn;
    var k := ClassOf(blk[p].words);
    var l := lists[k];
    UnlinkWrites(m, lo, brk, blk, lists, p);
    var m' := Unlinked(m, lo, k, p);
    forall j | 0 <= j < CLASSES && j != k
      ensures Linked(m', m'[lo + j], lists[j])
    {
      UnlinkOther(m, lo, brk, blk, lists, p, j);
    }
    UnlinkSame(m, lo, brk, blk, lists, p);
    WithoutMembers(m, m[lo + k], l, p);
  }

  lemma UnlinkKeeps(m: seq<nat>, lo: nat, brk: nat, end: nat, blk: Blocks, lists: seq<seq<nat>>, skip: nat, p: nat)
    requires Shape(m, lo, brk, end, blk, lists, skip)
    requires p in blk && blk[p].status == Free
    ensures p + 2 < |m| && m[p + 1] + 2 < |m| && m[p + 2] + 1 < |m|
    ensures var m' := Unlinked(m, lo, ClassOf(blk[p].words), p);
            Tagged(m', blk, skip) && m'[brk - 1] == Tag(0, true) && Keeps(m, blk, m', blk, NULL)
  {
    hide Tagged, Coalesced, Listed, Keeps, Chained;
    var k := ClassOf(blk[p].words);
    UnlinkWrites(m, lo, brk, blk, lists, p);
    var a := if m[p + 1] != NULL then m[p + 1] + 2 else lo + k;
    WriteLink(m, lo, brk, blk, skip, a, m[p + 2], m[p + 1]);
    var m1 := m[a := m[p + 2]];
    if m[p + 2] != NULL {
      WriteLink(m1, lo, brk, blk, skip, m[p + 2] + 1, m[p + 1], m[p + 2]);
      KeepsTrans(m, blk, m1, blk, Unlinked(m, lo, k, p), blk, NULL);
    }
  }

  /** Taking a free block off its list leaves a heap whose every other part is as before. */
  lemma UnlinkShape(m: seq<nat>, lo: nat, brk: nat, end: nat, blk: Blocks, lists: seq<seq<nat>>, skip: nat, p: nat)
    requires Shape(m, lo, brk, end, blk, lists, skip)
    requires p in blk && blk[p].status == Free
    ensures p + 2 < |m| && m[p + 1] + 2 < |m| && m[p + 2] + 1 < |m|
    ensures var k := ClassOf(blk[p].words);
            var m' := Unlinked(m, lo, k, p);
            var blk' := blk[p := Block(blk[p].words, Loose)];
            && Shape(m', lo, brk, end, blk', lists[k := Without(lists[k], p)], skip)
            && Keeps(m, blk, m', blk', NULL)
  {
    hide Tagged, Coalesced, Listed, Keeps, Chained, Disjoint, Unlinked;
    UnlinkKeeps(m, lo, brk, end, blk, lists, skip, p);
    UnlinkLists(m, lo, brk, blk, lists, p);
    RestatusTiled(blk, lo + 6, brk - 1, p, Loose);
    RestatusCoalesced(blk, p, Loose);
    RestatusTagged(Unlinked(m, lo, ClassOf(blk[p].words), p), blk, skip, p, Loose);
    RestatusKeeps(m, blk, Unlinked(m, lo, ClassOf(blk[p].words), p), p, Loose);
  }

  lemma RestatusKeeps(m: seq<nat>, blk: Blocks, m': seq<nat>, p: nat, s: Status)
    requires Keeps(m, blk, m', blk, NULL) && p in blk && NULL !in blk
    ensures Keeps(m, blk, m', blk[p := Block(blk[p].words, s)], if blk[p].status.Used? then p else NULL)
  {
  }

  lemma RestatusCoalesced(blk: Blocks, p: nat, s: Status)
    requires Coalesced(blk) && p in blk
    requires s != Free
    ensures Coalesced(blk[p := Block(blk[p].words, s)])
  {
    var blk' := blk[p := Block(blk[p].words, s)];
    forall r | r in blk' && blk'[r].status == Free && Next(blk', r) in blk'
      ensures blk'[Next(blk', r)].status != Free
    {
      assert Next(blk, r) == Next(blk', r);
    }
  }

  lemma RestatusTagged(m: seq<nat>, blk: Blocks, skip: nat, p: nat, s: Status)
    requires Tagged(m, blk, skip) && p in blk
    requires blk[p].status.Used? == s.Used?
    ensures Tagged(m, blk[p := Block(blk[p].words, s)], skip)
  {
    var blk' := blk[p := Block(blk[p].words, s)];
    forall r | r in blk' && r != skip
      ensures TagOk(m, r, blk'[r])
    {
      assert TagOk(m, r, blk[r]);
    }
  }

  /** The words after linking block `p` in front of list `k` (kmalloc.c:122-129). */
  ghost function LinkedIn(m: seq<nat>, lo: nat, k: nat, p: nat): (m': seq<nat>)
    requires lo + k < |m| && p + 2 < |m| && m[lo + k] + 1 < |m|
    ensures |m'| == |m|
  {
    var m1 := m[p + 2 := m[lo + k]][p + 1 := NULL];
    (if m[lo + k] != NULL then m1[m[lo + k] + 1 := p] else m1)[lo + k := p]
  }

  lemma LinkWrites(m: seq<nat>, lo: nat, brk: nat, blk: Blocks, lists: seq<seq<nat>>, k: nat)
    requires lo + 9 <= brk <= |m| && Tiled(blk, lo + 6, brk - 1) && Listed(m, lo, blk, lists)
    requires k < CLASSES
    ensures m[lo + k] == At(lists[k], 0) && m[lo + k] + 3 < brk
    ensures m[lo + k] != NULL ==> m[lo + k] in blk && blk[m[lo + k]].status == Free
  {
    assert Linked(m, m[lo + k], lists[k]);
    if lists[k] != [] { ListedFacts(m, lo, brk, blk, lists, k, 0); }
  }

  lemma LinkOther(m: seq<nat>, lo: nat, brk: nat, blk: Blocks, lists: seq<seq<nat>>, p: nat, j: nat)
    requires lo + 9 <= brk <= |m| && Tiled(blk, lo + 6, brk - 1) && Listed(m, lo, blk, lists)
    requires p in blk && blk[p].status == Loose && p != lo + 6
    requires j < CLASSES && j != ClassOf(blk[p].words)
    ensures m[lo + ClassOf(blk[p].words)] + 1 < |m| && p + 2 < |m|
    ensures var m' := LinkedIn(m, lo, ClassOf(blk[p].words), p); Linked(m', m'[lo + j], lists[j])
  {
    hide Chained, Disjoint, Linked;
    var k := ClassOf(blk[p].words);
    LinkWrites(m, lo, brk, blk, lists, k);
    var m', h := LinkedIn(m, lo, k, p), m[lo + k];
    assert h != NULL ==> h in lists[k];
    forall t | 0 <= t < |lists[j]|
      ensures lists[j][t] + 2 < |m|
      ensures m'[lists[j][t] + 1] == m[lists[j][t] + 1] && m'[lists[j][t] + 2] == m[lists[j][t] + 2]
    {
      var x := lists[j][t];
      ListedFacts(m, lo, brk, blk, lists, j, t);
      assert x in lists[j];
      NodesApart(blk, lo + 6, brk - 1, x, p);
      if h != NULL { NodesApart(blk, lo + 6, brk - 1, x, h); }
    }
    LinkedFrame(m, m', m[lo + j], lists[j]);
  }

  lemma LinkSame(m: seq<nat>, lo: nat, brk: nat, blk: Blocks, lists: seq<seq<nat>>, p: nat)
    requires lo + 9 <= brk <= |m| && Tiled(blk, lo + 6, brk - 1) && Listed(m, lo, blk, lists)
    requires p in blk && blk[p].status == Loose && p != lo + 6
    ensures m[lo + ClassOf(blk[p].words)] + 1 < |m| && p + 2 < |m|
    ensures var k := ClassOf(blk[p].words); var m' := LinkedIn(m, lo, k, p);
            Linked(m', m'[lo + k], [p] + lists[k])
  {
    hide Chained, Disjoint, Listed;
    var k := ClassOf(blk[p].words);
    LinkWrites(m, lo, brk, blk, lists, k);
    ListedLinked(m, lo, blk, lists, k);
    var m', l := LinkedIn(m, lo, k, p), lists[k];
    if l != [] { ListedFacts(m, lo, brk, blk, lists, k, 0); }
    forall t | 0 <= t < |l|
      ensures l[t] + 2 < |m| && (p + 2 < l[t] || l[t] + 2 < p)
      ensures m'[l[t] + 2] == m[l[t] + 2]
      ensures 0 < t ==> m'[l[t] + 1] == m[l[t] + 1]
    {
      ListedFacts(m, lo, brk, blk, lists, k, t);
      NodesApart(blk, lo + 6, brk - 1, l[t], p);
      if 0 < t { NodesApart(blk, lo + 6, brk - 1, l[t], l[0]); }
    }
    LinkedInsert(m, m', l, p);
  }

  lemma LinkLists(m: seq<nat>, lo: nat, brk: nat, blk: Blocks, lists: seq<seq<nat>>, p: nat)
    requires lo + 9 <= brk <= |m| && Tiled(blk, lo + 6, brk - 1) && Listed(m, lo, blk, lists)
    requires p in blk && blk[p].status == Loose && p != lo + 6
    ensures m[lo + ClassOf(blk[p].words)] + 1 < |m| && p + 2 < |m|
    ensures var k := ClassOf(blk[p].words);
            Listed(LinkedIn(m, lo, k, p), lo, blk[p := Block(blk[p].words, Free)], lists[k := [p] + lists[k]])
  {
    hide Chained, Disjoint, Linked, Unlinked, LinkedIn;
    var k := ClassOf(blk[p].words);
    LinkWrites(m, lo, brk, blk, lists, k);
    var m' := LinkedIn(m, lo, k, p);
    forall j | 0 <= j < CLASSES && j != k
      ensures Linked(m', m'[lo + j], lists[j])
    {
      LinkOther(m, lo, brk, blk, lists, p, j);
    }
    LinkSame(m, lo, brk, blk, lists, p);
  }

  lemma LinkKeeps(m: seq<nat>, lo: nat, brk: nat, end: nat, blk: Blocks, lists: seq<seq<nat>>, p: nat)
    requires Shape(m, lo, brk, end, blk, lists, NULL)
    requires p in blk && blk[p].status == Loose
    ensures m[lo + ClassOf(blk[p].words)] + 1 < |m| && p + 2 < |m|
    ensures var m' := LinkedIn(m, lo, ClassOf(blk[p].words), p);
            Tagged(m', blk, NULL) && m'[brk - 1] == Tag(0, true) && Keeps(m, blk, m', blk, NULL)
  {
    hide Tagged, Coalesced, Listed, Keeps, Chained;
    var k := ClassOf(blk[p].words);
    LinkWrites(m, lo, brk, blk, lists, k);
    var h := m[lo + k];
    WriteLink(m, lo, brk, blk, NULL, p + 2, h, p);
    var m1 := m[p + 2 := h];
    WriteLink(m1, lo, brk, blk, NULL, p + 1, NULL, p);
    var m2 := m1[p + 1 := NULL];
    KeepsTrans(m, blk, m1, blk, m2, blk, NULL);
    if h != NULL { WriteLink(m2, lo, brk, blk, NULL, h + 1, p, h); }
    var m3 := if h != NULL then m2[h + 1 := p] else m2;
    if h != NULL { KeepsTrans(m, blk, m2, blk, m3, blk, NULL); }
    WriteLink(m3, lo, brk, blk, NULL, lo + k, p, NULL);
    KeepsTrans(m, blk, m3, blk, m3[lo + k := p], blk, NULL);
  }

  ghost predicate NoFreeBefore(blk: Blocks, p: nat) {
    forall q {:trigger Next(blk, q)} :: q in blk && Next(blk, q) == p ==> blk[q].status != Free
  }

  ghost predicate NoFreeAfter(blk: Blocks, p: nat)
    requires p in blk
  {
    Next(blk, p) in blk ==> blk[Next(blk, p)].status != Free
  }

  /** Neither neighbour of `p` is on a list. */
  ghost predicate Isolated(blk: Blocks, p: nat)
    requires p in blk
  {
    NoFreeBefore(blk, p) && NoFreeAfter(blk, p)
  }

  lemma MergedPrevIsolates(blk: Blocks, p: nat, q: nat, blk': Blocks)
    requires Coalesced(blk) && p in blk && q in blk && p != q && blk[p].status == Free
    requires blk' == Merge(blk[p := Block(blk[p].words, Loose)], p, q, Loose)
    ensures NoFreeBefore(blk', p)
  {
    forall r | r in blk' && Next(blk', r) == p
      ensures blk'[r].status != Free
    {
      assert Next(blk, r) == p || r == p;
    }
  }

  lemma MergedNextIsolates(blk: Blocks, p: nat, q: nat, blk': Blocks)
    requires Coalesced(blk) && p in blk && q in blk && p != q && blk[q].status == Free && Next(blk, p) == q
    requires blk[p].status == Loose && NoFreeBefore(blk, p)
    requires blk' == Merge(blk[q := Block(blk[q].words, Loose)], p, q, Loose)
    ensures Isolated(blk', p)
  {
    assert Next(blk, q) == Next(blk', p);
    forall r | r in blk' && Next(blk', r) == p
      ensures blk'[r].status != Free
    {
      assert Next(blk, r) == p || r == p;
    }
  }

  /** Putting a loose block whose neighbours are not free on its list. */
  lemma LinkShape(m: seq<nat>, lo: nat, brk: nat, end: nat, blk: Blocks, lists: seq<seq<nat>>, p: nat)
    requires Shape(m, lo, brk, end, blk, lists, NULL)
    requires p in blk && blk[p].status == Loose && Isolated(blk, p)
    ensures m[lo + ClassOf(blk[p].words)] + 1 < |m| && p + 2 < |m|
    ensures var k := ClassOf(blk[p].words);
            var m' := LinkedIn(m, lo, k, p);
            var blk' := blk[p := Block(blk[p].words, Free)];
            && Shape(m', lo, brk, end, blk', lists[k := [p] + lists[k]], NULL)
            && Keeps(m, blk, m', blk', NULL)
  {
    hide Tagged, Coalesced, Listed, Keeps, Chained, Disjoint, LinkedIn, Isolated;
    LinkKeeps(m, lo, brk, end, blk, lists, p);
    LinkLists(m, lo, brk, blk, lists, p);
    RestatusTiled(blk, lo + 6, brk - 1, p, Free);
    LinkCoalesced(blk, p);
    RestatusTagged(LinkedIn(m, lo, ClassOf(blk[p].words), p), blk, NULL, p, Free);
    RestatusKeeps(m, blk, LinkedIn(m, lo, ClassOf(blk[p].words), p), p, Free);
  }

  lemma LinkCoalesced(blk: Blocks, p: nat)
    requires Coalesced(blk) && p in blk && blk[p].words > 0 && Isolated(blk, p)
    ensures Coalesced(blk[p := Block(blk[p].words, Free)])
  {
    var blk' := blk[p := Block(blk[p].words, Free)];
    forall r | r in blk' && blk'[r].status == Free && Next(blk', r) in blk'
      ensures blk'[Next(blk', r)].status != Free
    {
      assert Next(blk, r) == Next(blk', r);
    }
  }

  // ---------------------------------------------------------------------------
  // Writing tags
  // ---------------------------------------------------------------------------

  ghost predicate SameFree(blk: Blocks, blk': Blocks) {
    && (forall p :: p in blk && blk[p].status == Free ==> p in blk' && blk'[p] == blk[p])
    && (forall p :: p in blk' && blk'[p].status == Free ==> p in blk && blk'[p] == blk[p])
  }

  ghost predicate SameLinks(m: seq<nat>, m': seq<nat>, lo: nat, blk: Blocks) {
    && |m| == |m'|
    && (forall a :: lo <= a < lo + CLASSES && a < |m| ==> m'[a] == m[a])
    && (forall p :: p in blk && blk[p].status == Free && p + 2 < |m| ==> m'[p + 1] == m[p + 1] && m'[p + 2] == m[p + 2])
  }

  lemma ListedFrame(m: seq<nat>, m': seq<nat>, lo: nat, blk: Blocks, blk': Blocks, lists: seq<seq<nat>>)
    requires Listed(m, lo, blk, lists) && SameFree(blk, blk') && SameLinks(m, m', lo, blk)
    ensures Listed(m', lo, blk', lists)
  {
    forall k | 0 <= k < CLASSES
      ensures Linked(m', m'[lo + k], lists[k])
    {
      assert Linked(m, m[lo + k], lists[k]);
      forall t | 0 <= t < |lists[k]|
        ensures lists[k][t] + 2 < |m| && m'[lists[k][t] + 1] == m[lists[k][t] + 1] && m'[lists[k][t] + 2] == m[lists[k][t] + 2]
      {
        var x := lists[k][t];
        assert x in lists[k] && x in blk && blk[x].status == Free;
        assert NodeOk(m, lists[k], t);
      }
      LinkedFrame(m, m', m[lo + k], lists[k]);
    }
  }

  /** The words after writing `tag` to both ends of the `w` words at `p`. */
  ghost function Stamped(m: seq<nat>, p: nat, w: nat, used: bool): (m': seq<nat>)
    requires 0 < w && p + w <= |m|
    ensures |m'| == |m|
  {
    m[p := Tag(w, used)][p + w - 1 := Tag(w, used)]
  }

  /** A stamp on words that no listed block and no other allocated block owns. */
  lemma StampFrame(m: seq<nat>, lo: nat, brk: nat, blk: Blocks, lists: seq<seq<nat>>, p: nat, w: nat, used: bool,
                   blk': Blocks, skip': nat)
    requires 0 < lo && lo + 9 <= brk <= |m| && Tiled(blk', lo + 6, brk - 1)
    requires p in blk' && blk'[p].words == w && blk'[p].status != Free && blk'[p].status.Used? == used
    requires forall q :: q in blk' && q != p && q != skip' ==> TagOk(m, q, blk'[q])
    requires m[brk - 1] == Tag(0, true)
    requires Listed(m, lo, blk, lists) && SameFree(blk, blk')
    ensures var m' := Stamped(m, p, w, used);
            && Tagged(m', blk', skip') && m'[brk - 1] == Tag(0, true)
            && Listed(m', lo, blk', lists) && Keeps(m, blk', m', blk', NULL)
  {
    var m' := Stamped(m, p, w, used);
    StampOthers(m, lo, brk, blk', p, w, used);
    forall q | q in blk' && q != skip'
      ensures TagOk(m', q, blk'[q])
    {
    }
    assert SameLinks(m, m', lo, blk) by {
      forall q | q in blk && blk[q].status == Free && q + 2 < |m|
        ensures m'[q + 1] == m[q + 1] && m'[q + 2] == m[q + 2]
      {
        assert q in blk' && q != p;
      }
    }
    ListedFrame(m, m', lo, blk, blk', lists);
  }

  lemma StampOthers(m: seq<nat>, lo: nat, brk: nat, blk: Blocks, p: nat, w: nat, used: bool)
    requires 0 < lo && lo + 9 <= brk <= |m| && Tiled(blk, lo + 6, brk - 1)
    requires p in blk && blk[p].words == w
    ensures forall q, i :: q in blk && q != p && q <= i < q + blk[q].words ==> Stamped(m, p, w, used)[i] == m[i]
    ensures SamePayload(m, Stamped(m, p, w, used), p, w)
    ensures forall i :: 0 <= i < lo + 6 || brk - 1 <= i < |m| ==> Stamped(m, p, w, used)[i] == m[i]
  {
    forall q, i | q in blk && q != p && q <= i < q + blk[q].words
      ensures Stamped(m, p, w, used)[i] == m[i]
    {
      assert p < q || q < p;
    }
  }

  lemma KeepsWiden(m: seq<nat>, blk: Blocks, m': seq<nat>, blk': Blocks, but: nat)
    requires Keeps(m, blk', m', blk', NULL) && NULL !in blk
    requires forall p :: p in blk && blk[p].status == Used && p != but ==> p in blk' && blk'[p] == blk[p]
    ensures Keeps(m, blk, m', blk', but)
  {
  }

  /** Stamping an unlisted block with a new status: the end of an allocation, the start of a free. */
  lemma RestampShape(m: seq<nat>, lo: nat, brk: nat, end: nat, blk: Blocks, lists: seq<seq<nat>>, skip: nat, p: nat, s: Status,
                     m': seq<nat>, blk': Blocks)
    requires Shape(m, lo, brk, end, blk, lists, skip) && (skip == NULL || skip == p)
    requires p in blk && p != lo + 6 && blk[p].status != Free && s != Free
    requires blk' == blk[p := Block(blk[p].words, s)]
    requires 0 < blk[p].words && p + blk[p].words <= |m| && m' == Stamped(m, p, blk[p].words, s.Used?)
    ensures Shape(m', lo, brk, end, blk', lists, NULL)
    ensures Keeps(m, blk, m', blk', p)
    ensures SamePayload(m, m', p, blk[p].words)
  {
    hide Coalesced, Chained, Disjoint, Listed, Stamped;
    RestatusTiled(blk, lo + 6, brk - 1, p, s);
    RestatusCoalesced(blk, p, s);
    StampOthers(m, lo, brk, blk, p, blk[p].words, s.Used?);
    StampFrame(m, lo, brk, blk, lists, p, blk[p].words, s.Used?, blk', NULL);
  }

  /** Stamping a block and the loose block after it as one (kmalloc.c:213-236, 408-410). */
  lemma MergeShape(m: seq<nat>, lo: nat, brk: nat, end: nat, blk: Blocks, lists: seq<seq<nat>>, p: nat, q: nat, s: Status,
                   m': seq<nat>, blk': Blocks)
    requires Shape(m, lo, brk, end, blk, lists, NULL)
    requires p in blk && p != lo + 6 && q in blk && Next(blk, p) == q
    requires blk[p].status == s && s != Free && blk[q].status == Loose
    requires blk' == Merge(blk, p, q, s)
    requires p + blk'[p].words <= |m| && m' == Stamped(m, p, blk'[p].words, s.Used?)
    ensures Shape(m', lo, brk, end, blk', lists, NULL)
    ensures Keeps(m, blk, m', blk', p)
    ensures SamePayload(m, m', p, blk[p].words)
  {
    hide Coalesced, Chained, Disjoint, Listed, Keeps, Stamped, SamePayload;
    MergeTiled(blk, lo + 6, brk - 1, p, q, s);
    MergeCoalesced(blk, p, q, s);
    StampFrame(m, lo, brk, blk, lists, p, blk'[p].words, s.Used?, blk', NULL);
    KeepsWiden(m, blk, m', blk', p);
    StampPayload(m, p, blk[p].words, blk'[p].words, s.Used?);
  }

  lemma StampPayload(m: seq<nat>, p: nat, w: nat, w': nat, used: bool)
    requires w <= w' && 0 < w' && p + w' <= |m|
    ensures SamePayload(m, Stamped(m, p, w', used), p, w)
  {
  }

  lemma MergeCoalesced(blk: Blocks, p: nat, q: nat, s: Status)
    requires Coalesced(blk) && p in blk && q in blk && p != q
    requires s != Free
    ensures Coalesced(Merge(blk, p, q, s))
  {
    var blk' := Merge(blk, p, q, s);
    forall r | r in blk' && blk'[r].status == Free && Next(blk', r) in blk'
      ensures blk'[Next(blk', r)].status != Free
    {
      assert Next(blk, r) == Next(blk', r);
    }
  }

  /** Stamping the first `w` words of a loose block as allocated; the rest is loose and not yet
      tagged (kmalloc.c:322-327). */
  lemma SplitShape(m: seq<nat>, lo: nat, brk: nat, end: nat, blk: Blocks, lists: seq<seq<nat>>, p: nat, w: nat,
                   m': seq<nat>, blk': Blocks)
    requires Shape(m, lo, brk, end, blk, lists, NULL)
    requires p in blk && blk[p].status == Loose
    requires 4 <= w && w + 4 <= blk[p].words && w % 2 == 0
    requires blk' == Split(blk, p, w, Used, Loose)
    requires p + w <= |m| && m' == Stamped(m, p, w, true)
    ensures p + w !in blk
    ensures Shape(m', lo, brk, end, blk', lists, p + w)
    ensures Keeps(m, blk, m', blk', NULL)
  {
    hide Coalesced, Chained, Listed, Stamped, Keeps, SamePayload, Disjoint;
    SplitTiled(blk, lo + 6, brk - 1, p, w, Used, Loose);
    SplitCoalesced(blk, p, w);
    StampFrame(m, lo, brk, blk, lists, p, w, true, blk', p + w);
    KeepsWiden(m, blk, m', blk', NULL);
  }

  lemma SplitCoalesced(blk: Blocks, p: nat, w: nat)
    requires Coalesced(blk) && Disjoint(blk) && p in blk && 0 < w < blk[p].words
    requires blk[p].status != Free
    ensures Coalesced(Split(blk, p, w, Used, Loose))
  {
    var blk' := Split(blk, p, w, Used, Loose);
    forall r | r in blk' && blk'[r].status == Free && Next(blk', r) in blk'
      ensures blk'[Next(blk', r)].status != Free
    {
      assert Next(blk, r) == Next(blk', r);
    }
  }

  /** Turning the old epilogue into the header of a new block, still to be tagged
      (kmalloc.c:257-263). */
  lemma ExtendShape(m: seq<nat>, lo: nat, brk: nat, end: nat, blk: Blocks, lists: seq<seq<nat>>, w: nat,
                    m': seq<nat>, blk': Blocks)
    requires Shape(m, lo, brk, end, blk, lists, NULL)
    requires 4 <= w && w % 2 == 0 && brk + w <= end
    requires m' == m[brk - 1 + w := Tag(0, true)] && blk' == blk[brk - 1 := Block(w, Loose)]
    ensures brk - 1 !in blk
    ensures Shape(m', lo, brk + w, end, blk', lists, brk - 1)
    ensures Keeps(m, blk, m', blk', NULL)
  {
    hide Coalesced, Chained, Disjoint, Listed, Keeps, Tagged;
    ExtendTiled(blk, lo + 6, brk - 1, w, Loose);
    ExtendCoalesced(blk, lo + 6, brk - 1, w);
    assert SameLinks(m, m', lo, blk);
    ListedFrame(m, m', lo, blk, blk', lists);
    ExtendTagged(m, lo + 6, brk - 1, blk, w);
  }

  lemma ExtendTagged(m: seq<nat>, base: nat, epi: nat, blk: Blocks, w: nat)
    requires Sized(blk, base, epi) && Tagged(m, blk, NULL) && epi + w < |m| && 0 < w && NULL < base
    ensures var m' := m[epi + w := Tag(0, true)];
            Tagged(m', blk[epi := Block(w, Loose)], epi) && Keeps(m, blk, m', blk[epi := Block(w, Loose)], NULL)
  {
    var m' := m[epi + w := Tag(0, true)];
    forall q | q in blk && q != epi
      ensures TagOk(m', q, blk[q])
    {
      assert TagOk(m, q, blk[q]);
    }
  }

  lemma ExtendCoalesced(blk: Blocks, base: nat, epi: nat, w: nat)
    requires Coalesced(blk) && Tiled(blk, base, epi)
    ensures Coalesced(blk[epi := Block(w, Loose)])
  {
    var blk' := blk[epi := Block(w, Loose)];
    forall r | r in blk' && blk'[r].status == Free && Next(blk', r) in blk'
      ensures blk'[Next(blk', r)].status != Free
    {
      assert Next(blk, r) == Next(blk', r);
    }
  }

  /** A store into the payload of an allocated block, by its owner. */
  lemma StoreShape(m: seq<nat>, lo: nat, brk: nat, end: nat, blk: Blocks, lists: seq<seq<nat>>, p: nat, a: nat, v: nat,
                   m': seq<nat>)
    requires Shape(m, lo, brk, end, blk, lists, NULL)
    requires p in blk && blk[p].status == Used && p < a < p + blk[p].words - 1
    requires a < |m| && m' == m[a := v]
    ensures Shape(m', lo, brk, end, blk, lists, NULL)
    ensures Keeps(m, blk, m', blk, p)
  {
    hide Coalesced, Chained, Linked, Listed;
    forall q | q in blk
      ensures q != NULL ==> TagOk(m', q, blk[q])
      ensures q != p ==> forall i :: q <= i < q + blk[q].words && i < |m| ==> m'[i] == m[i]
    {
      assert q != NULL ==> TagOk(m, q, blk[q]);
      assert q < p || q == p || p < q;
    }
    assert SameLinks(m, m', lo, blk);
    ListedFrame(m, m', lo, blk, blk, lists);
  }

  /** Forgetting that a block is allocated, its tags not yet rewritten (kmalloc.c:375-378). */
  lemma LooseShape(m: seq<nat>, lo: nat, brk: nat, end: nat, blk: Blocks, lists: seq<seq<nat>>, p: nat, blk': Blocks)
    requires Shape(m, lo, brk, end, blk, lists, NULL)
    requires p in blk && blk[p].status == Used && p != lo + 6
    requires blk' == blk[p := Block(blk[p].words, Loose)]
    ensures Shape(m, lo, brk, end, blk', lists, p)
  {
    hide Coalesced, Chained, Disjoint, Linked;
    RestatusTiled(blk, lo + 6, brk - 1, p, Loose);
    RestatusCoalesced(blk, p, Loose);
    ListedFrame(m, m, lo, blk, blk', lists);
  }

  /** The heap of a prologue and an epilogue (kmalloc.c:273-289). */
  lemma InitialShape(m: seq<nat>, lo: nat, end: nat, blk: Blocks, lists: seq<seq<nat>>)
    requires 0 < lo && lo + 9 <= end <= |m|
    requires forall j :: lo <= j < lo + CLASSES ==> m[j] == NULL
    requires m[lo + 6] == m[lo + 7] == Tag(2, true) && m[lo + 8] == Tag(0, true)
    requires blk == map[lo + 6 := Block(2, Used)] && lists == [[], [], [], [], [], []]
    ensures Shape(m, lo, lo + 9, end, blk, lists, NULL) && NoLoose(blk)
  {
    assert Next(blk, lo + 6) == lo + 8;
  }
}

/** What the heap invariant means: a reader of the raw words sees a well-formed heap. */
module HeapTheorems {
  import opened Common
  import opened HeapLayout
  import opened Heap

  /** A block as found by walking the tags. */
  datatype Seen = Seen(addr: nat, words: nat, used: bool)

  /** Walk the tags from `p` to the epilogue, using nothing but the words.  Fails at a size that is too small,
      at a block that runs past the end, at a footer unlike its header, and at a wrong epilogue. */
  ghost function Parse(m: seq<nat>, p: nat, epi: nat): Option<seq<Seen>>
    requires epi < |m|
    decreases if p <= epi then epi - p else 0
  {
    if p == epi then
      if m[epi] == Tag(0, true) then Some([]) else None
    else if epi < p || TagWords(m[p]) < 2 || epi < p + TagWords(m[p]) || m[p + TagWords(m[p]) - 1] != m[p] then
      None
    else
      match Parse(m, p + TagWords(m[p]), epi)
      case None => None
      case Some(rest) => Some([Seen(p, TagWords(m[p]), TagUsed(m[p]))] + rest)
  }

  ghost predicate Sees(b: Seen, blk: Blocks, base: nat) {
    && b.addr in blk && blk[b.addr].words == b.words && blk[b.addr].status.Used? == b.used
    && b.words % 2 == 0 && (b.addr != base ==> 4 <= b.words)
  }

  /** Two blocks in a row: no gap, and not both free. */
  ghost predicate Joined(b: Seen, c: Seen) {
    c.addr == b.addr + b.words && (b.used || c.used)
  }

  ghost predicate Covers(bs: seq<Seen>, blk: Blocks, p: nat) {
    forall q :: q in blk && p <= q ==> exists i :: 0 <= i < |bs| && bs[i].addr == q
  }

  /** What a sound parse from `p` shows. */
  ghost predicate Sound(bs: seq<Seen>, blk: Blocks, base: nat, p: nat, epi: nat) {
    && (forall i :: 0 <= i < |bs| ==> Sees(bs[i], blk, base))
    && (forall i, j :: 0 <= i < |bs| - 1 && j == i + 1 ==> Joined(bs[i], bs[j]))
    && (if bs == [] then p == epi else bs[0].addr == p && bs[|bs| - 1].addr + bs[|bs| - 1].words == epi)
    && Covers(bs, blk, p)
  }

  lemma CoversCons(b: Seen, rest: seq<Seen>, blk: Blocks, base: nat, epi: nat)
    requires Tiled(blk, base, epi) && Sees(b, blk, base) && Covers(rest, blk, Next(blk, b.addr))
    ensures Covers([b] + rest, blk, b.addr)
  {
    var bs := [b] + rest;
    forall r | r in blk && b.addr <= r
      ensures exists i :: 0 <= i < |bs| && bs[i].addr == r
    {
      if r == b.addr {
        assert bs[0].addr == r;
      } else {
        var i :| 0 <= i < |rest| && rest[i].addr == r;
        assert bs[i + 1].addr == r;
      }
    }
  }

  lemma SoundCons(b: Seen, rest: seq<Seen>, blk: Blocks, base: nat, epi: nat)
    requires Tiled(blk, base, epi) && Coalesced(blk) && NoLoose(blk) && Sees(b, blk, base)
    requires Sound(rest, blk, base, Next(blk, b.addr), epi)
    ensures Sound([b] + rest, blk, base, b.addr, epi)
  {
    hide Covers, Tiled;
    CoversCons(b, rest, blk, base, epi);
    if rest != [] {
      assert Sees(rest[0], blk, base);
      assert Joined(b, rest[0]);
    }
  }

  lemma {:induction false} ParseFrom(m: seq<nat>, lo: nat, brk: nat, end: nat, blk: Blocks, lists: seq<seq<nat>>, p: nat)
    requires Shape(m, lo, brk, end, blk, lists, NULL) && NoLoose(blk)
    requires p in blk || p == brk - 1
    ensures Parse(m, p, brk - 1).Some? && Sound(Parse(m, p, brk - 1).value, blk, lo + 6, p, brk - 1)
    decreases brk - p
  {
    hide Listed, Tagged, Coalesced, Disjoint, Sound, Parse;
    if p == brk - 1 {
      ParseEnd(m, lo, brk, end, blk, lists);
    } else {
      BlockFacts(m, lo, brk, end, blk, lists, NULL, p);
      ParseFrom(m, lo, brk, end, blk, lists, Next(blk, p));
      ParseStep(m, lo, brk, end, blk, lists, p);
    }
  }

  lemma ParseEnd(m: seq<nat>, lo: nat, brk: nat, end: nat, blk: Blocks, lists: seq<seq<nat>>)
    requires Shape(m, lo, brk, end, blk, lists, NULL)
    ensures Parse(m, brk - 1, brk - 1).Some? && Sound(Parse(m, brk - 1, brk - 1).value, blk, lo + 6, brk - 1, brk - 1)
  {
    hide Listed, Tagged, Coalesced, Chained, Disjoint;
  }

  lemma ParseStep(m: seq<nat>, lo: nat, brk: nat, end: nat, blk: Blocks, lists: seq<seq<nat>>, p: nat)
    requires Shape(m, lo, brk, end, blk, lists, NULL) && NoLoose(blk) && p in blk && p != brk - 1
    requires Parse(m, Next(blk, p), brk - 1).Some? && Sound(Parse(m, Next(blk, p), brk - 1).value, blk, lo + 6, Next(blk, p), brk - 1)
    ensures Parse(m, p, brk - 1).Some? && Sound(Parse(m, p, brk - 1).value, blk, lo + 6, p, brk - 1)
  {
    hide Listed, Tagged, Coalesced, Sound, Chained, Disjoint, Parse, Tag, TagWords, TagUsed;
    BlockFacts(m, lo, brk, end, blk, lists, NULL, p);
    ParseHere(m, p, brk - 1);
    var b := Seen(p, blk[p].words, blk[p].status.Used?);
    SoundCons(b, Parse(m, Next(blk, p), brk - 1).value, blk, lo + 6, brk - 1);
  }

  lemma ParseHere(m: seq<nat>, p: nat, epi: nat)
    requires p < epi < |m| && 2 <= TagWords(m[p]) && p + TagWords(m[p]) <= epi && m[p + TagWords(m[p]) - 1] == m[p]
    requires Parse(m, p + TagWords(m[p]), epi).Some?
    ensures Parse(m, p, epi) == Some([Seen(p, TagWords(m[p]), TagUsed(m[p]))] + Parse(m, p + TagWords(m[p]), epi).value)
  {
    hide TagWords, TagUsed;
  }

  /** The words from prologue to epilogue parse as a gap-free run of blocks with equal header and
      footer, sizes that are multiples of 16 bytes and at least 32, and no two free neighbours. */
  lemma HeapParses(h: Kmalloc)
    requires h.Valid()
    ensures h.brk - 1 < |h.mem|
    ensures var bs := Parse(h.mem, h.lo + 6, h.brk - 1);
            && bs.Some? && Sound(bs.value, h.blk, h.lo + 6, h.lo + 6, h.brk - 1)
            && 0 < |bs.value| && bs.value[0] == Seen(h.lo + 6, 2, true)
  {
    hide Listed, Tagged, Coalesced, Disjoint, Chained;
    BlockFacts(h.mem, h.lo, h.brk, h.end, h.blk, h.lists, NULL, h.lo + 6);
    ParseFrom(h.mem, h.lo, h.brk, h.end, h.blk, h.lists, h.lo + 6);
  }

  /** Header and footer of a block hold its size in bytes, a multiple of 16, and 1 more when it is allocated. */
  lemma TagsInBytes(h: Kmalloc, p: nat)
    requires h.Valid() && p in h.blk
    ensures var w, m := h.blk[p].words, h.mem;
            p + w <= |m| && 8 * w % 16 == 0 && m[p] == m[p + w - 1] == 8 * w + (if h.blk[p].status == Used then 1 else 0)
  {
    hide Listed, Coalesced, Chained, Disjoint;
    BlockFacts(h.mem, h.lo, h.brk, h.end, h.blk, h.lists, NULL, p);
  }

  /** A request is first looked for on the list of the block that it needs. */
  lemma RequestInClass(size: nat)
    requires 0 < size
    ensures InClass(RequestClass(size), 16 * ((size + 31) / 16))
  {
  }

  /** The sizes in bytes that list `k` is for: up to 32, 64, 96, 192 and 512, and above. */
  ghost predicate InClass(k: nat, bytes: nat) {
    var limits := [32, 64, 96, 192, 512];
    k <= 5 && (k < 5 ==> bytes <= limits[k]) && (0 < k ==> limits[k - 1] < bytes)
  }

  /** A free block is on the list for its size, once, and on no other list. */
  lemma FreeListedOnce(h: Kmalloc, p: nat) returns (k: nat, i: nat)
    requires h.Valid() && p in h.blk && h.blk[p].status == Free
    ensures |h.lists| == 6 && InClass(k, 8 * h.blk[p].words) && i < |h.lists[k]| && h.lists[k][i] == p
    ensures forall k', i' :: 0 <= k' < 6 && 0 <= i' < |h.lists[k']| && h.lists[k'][i'] == p ==> k' == k && i' == i
  {
    hide Tagged, Coalesced, Tiled;
    k := ClassOf(h.blk[p].words);
    ListedHere(h.mem, h.lo, h.brk, h.end, h.blk, h.lists, p);
    i :| 0 <= i < |h.lists[k]| && h.lists[k][i] == p;
    ListedLinked(h.mem, h.lo, h.blk, h.lists, k);
    forall k', i' | 0 <= k' < CLASSES && 0 <= i' < |h.lists[k']| && h.lists[k'][i'] == p
      ensures k' == k && i' == i
    {
      assert p in h.lists[k'];
    }
  }

  /** And only free blocks are listed. */
  lemma OnlyFreeListed(h: Kmalloc, k: nat, i: nat)
    requires h.Valid() && k < CLASSES && |h.lists| == CLASSES && i < |h.lists[k]|
    ensures h.lists[k][i] in h.blk && h.blk[h.lists[k][i]].status == Free && InClass(k, 8 * h.blk[h.lists[k][i]].words)
  {
    hide Tagged, Coalesced, Tiled, Linked;
    assert h.lists[k][i] in h.lists[k];
  }

  /** The payloads of two live pointers share no word. */
  lemma LiveDisjoint(h: Kmalloc, p: nat, q: nat)
    requires h.Valid() && h.Live(p) && h.Live(q) && p < q
    ensures p + h.PayloadWords(p) < q - 1
  {
    hide Tagged, Coalesced, Listed, Chained;
  }

  /** A request can fail to find a block although one that fits is free: exactly in classes 1 and 2,
      when the head of the list is too small and nothing larger is free. */
  lemma MissedFit(h: Kmalloc, size: nat)
    requires h.Valid()
    ensures |h.lists| == CLASSES
    ensures var c := RequestClass(size);
            ((exists p :: p in h.blk && h.blk[p].status == Free && Fits(h.blk, p, size)) && !Findable(h.blk, h.lists, size))
            <==>
            (&& (c == 1 || c == 2)
             && (forall k :: c < k < CLASSES ==> h.lists[k] == [])
             && (exists p :: p in h.lists[c] && Fits(h.blk, p, size))
             && !Fits(h.blk, h.lists[c][0], size))
  {
    hide Tagged, Coalesced, Chained, Disjoint, Linked;
    var c := RequestClass(size);
    forall p | p in h.blk && h.blk[p].status == Free && Fits(h.blk, p, size)
      ensures c <= ClassOf(h.blk[p].words) && h.lists[ClassOf(h.blk[p].words)] != []
    {
      assert p in h.lists[ClassOf(h.blk[p].words)];
    }
    if exists p :: p in h.lists[c] && Fits(h.blk, p, size) {
      var p :| p in h.lists[c] && Fits(h.blk, p, size);
      assert p in h.blk && h.blk[p].status == Free;
    }
  }

  /** Such a heap.  Of a region of one page, blocks of 64, 32 and 48 bytes and the rest are taken, and the first and the
      third given back.  Now the list of class 1 holds 48 bytes before 64, and a request for 48 bytes, which needs 64,
      fails with nothing else free and no room to grow. */
  method MissedFitExample() returns (h: Kmalloc, r: nat)
    ensures h.Valid() && r == NULL && 9 in h.blk && h.blk[9] == Block(8, Free) && Fits(h.blk, 9, 48)
  {
    hide Shape, NoLoose, Without, Keeps, Payload;
    h := TwoBack();
    assert h.lists[1][0] == 21 && !Fits(h.blk, 21, 48);
    r := h.Alloc(48);
  }

  method TwoBack() returns (h: Kmalloc)
    ensures h.Valid() && fresh(h) && h.brk == h.end == 522 && h.lists == [[], [21, 9], [], [], [], []]
    ensures h.blk == map[7 := Block(2, Used), 9 := Block(8, Free), 17 := Block(4, Used), 21 := Block(6, Free), 27 := Block(494, Used)]
  {
    hide Shape, NoLoose, Without, Keeps, Payload, Isolated, Findable;
    h := FourTaken();
    Apart(h.blk, 9);
    h.Release(10);
    assert [9] + [] == [9];
    Apart(h.blk, 21);
    h.Release(22);
    assert [21] + [9] == [21, 9];
  }

  /** The blocks of the page are taken one after the other. */
  method FourTaken() returns (h: Kmalloc)
    ensures h.Valid() && fresh(h) && h.lo == 1 && h.brk == h.end == 522 && h.lists == [[], [], [], [], [], []]
    ensures h.blk == map[7 := Block(2, Used), 9 := Block(8, Used), 17 := Block(4, Used), 21 := Block(6, Used), 27 := Block(494, Used)]
  {
    hide Shape, NoLoose, Without, Keeps, Payload;
    h := new Kmalloc(seq(522, _ => 0), 1, 522);
    var ok := h.Init();
    TakeOnly(h, 48, 9, 512);
    TakeOnly(h, 16, 17, 504);
    TakeOnly(h, 32, 21, 500);
    TakeLast(h, 3936, 27, 494);
  }

  /** An allocation from the only free block, which is large and stays so. */
  method TakeOnly(h: Kmalloc, size: nat, p: nat, w: nat)
    requires h.Valid() && h.lists == [[], [], [], [], [], [p]] && p in h.blk && h.blk[p] == Block(w, Free) && OnlyFree(h.blk, p)
    requires 0 < size && 64 < w - NeedWords(size)
    modifies h
    ensures h.Valid() && h.brk == old(h.brk)
    ensures h.blk == old(h.blk)[p := Block(NeedWords(size), Used)][p + NeedWords(size) := Block(w - NeedWords(size), Free)]
    ensures h.lists == [[], [], [], [], [], [p + NeedWords(size)]]
  {
    hide Shape, NoLoose, Keeps;
    OneFindable(h.blk, h.lists, p, size);
    var r := h.Alloc(size);
    Single(p, p + NeedWords(size));
  }

  /** An allocation of all of the only free block. */
  method TakeLast(h: Kmalloc, size: nat, p: nat, w: nat)
    requires h.Valid() && h.lists == [[], [], [], [], [], [p]] && p in h.blk && h.blk[p] == Block(w, Free) && OnlyFree(h.blk, p)
    requires 0 < size && NeedWords(size) == w && 64 < w
    modifies h
    ensures h.Valid() && h.brk == old(h.brk)
    ensures h.blk == old(h.blk)[p := Block(w, Used)] && h.lists == [[], [], [], [], [], []]
  {
    hide Shape, NoLoose, Keeps;
    OneFindable(h.blk, h.lists, p, size);
    var r := h.Alloc(size);
    Single(p, p);
  }

  ghost predicate OnlyFree(blk: Blocks, p: nat) {
    forall q :: q in blk && blk[q].status == Free ==> q == p
  }

  lemma OneFindable(blk: Blocks, lists: seq<seq<nat>>, p: nat, size: nat)
    requires lists == [[], [], [], [], [], [p]] && Fits(blk, p, size)
    ensures Findable(blk, lists, size)
  {
    assert lists[5] == [p] && p in lists[5];
  }

  lemma Single(p: nat, q: nat)
    ensures Without([p], p) == []
    ensures var none: seq<seq<nat>> := [[], [], [], [], [], []];
            && [[], [], [], [], [], [p]][5 := []] == none && none[5 := [q] + none[5]] == [[], [], [], [], [], [q]]
  {
    assert [q] + [] == [q];
  }

  /** No block is free before or after one among used ones. */
  lemma Apart(blk: Blocks, p: nat)
    requires p in blk && forall q :: q in blk && (Next(blk, q) == p || q == Next(blk, p)) ==> blk[q].status == Used
    ensures Isolated(blk, p)
  {
  }
}
